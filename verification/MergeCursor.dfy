/** The cursors that carry out a merge over several shards. */
module MergeCursor {
  import opened Wrappers
  import opened Merge
  import opened Rotation

  function Filter(matches: Doc -> bool, s: seq<Doc>): seq<Doc> {
    if s == [] then []
    else (if matches(s[0]) then [s[0]] else []) + Filter(matches, s[1..])
  }

  /** One shard's cursor behind a filter, with one document of look-ahead. `cursor` holds what
      the underlying client cursor has yet to return, None for a null cursor. */
  class FilteringClientCursor {
    const matches: Doc -> bool
    var cursor: Option<seq<Doc>>
    var next: Option<Doc>
    var done: bool

    constructor (filter: Doc -> bool)
      ensures Valid() && Pending() == []
    {
      matches := filter;
      cursor := None;
      next := None;
      done := true;
    }

    method Reset(stream: Option<seq<Doc>>)
      modifies this
      ensures Valid() && Pending() == if stream.None? then [] else Filter(matches, stream.value)
    {
      cursor := stream;
      next := None;
      done := stream == None;
    }

    ghost predicate Valid()
      reads this
    {
      done ==> next == None && (cursor.Some? ==> cursor.value == [])
    }

    /** The matching documents that are still to come. */
    ghost function Pending(): seq<Doc>
      reads this
    {
      (if next.Some? then [next.value] else []) + (if cursor.Some? then Filter(matches, cursor.value) else [])
    }

    method Advance()
      requires Valid() && next == None
      modifies this
      ensures Valid() && Pending() == old(Pending())
      ensures next.Some? <==> Pending() != []
    {
      if cursor == None || done {
        return;
      }
      while cursor.value != []
        invariant cursor.Some? && next == None && !done
        invariant Filter(matches, cursor.value) == old(Pending())
        decreases |cursor.value|
      {
        next := Some(cursor.value[0]);
        cursor := Some(cursor.value[1..]);
        if matches(next.value) {
          return;
        }
        next := None;
      }
      done := true;
    }

    method More() returns (b: bool)
      requires Valid()
      modifies this
      ensures Valid() && Pending() == old(Pending())
      ensures b == (Pending() != []) == next.Some?
    {
      if next.Some? {
        return true;
      }
      if done {
        return false;
      }
      Advance();
      return next.Some?;
    }

    method Next() returns (d: Doc)
      requires Valid() && next.Some?
      modifies this
      ensures Valid() && [d] + Pending() == old(Pending())
    {
      // The original verifies this.
      assert !done;
      d := next.value;
      next := None;
      ghost var rest := Pending();
      assert old(Pending()) == [d] + rest;
      Advance();
    }

    method Peek() returns (d: Option<Doc>)
      requires Valid()
      modifies this
      ensures Valid() && Pending() == old(Pending())
      ensures d == next && d == if Pending() == [] then None else Some(Pending()[0])
    {
      if next == None {
        Advance();
      }
      d := next;
    }
  }

  function Drop(n: int, s: seq<Step>): seq<Step> {
    if n <= 0 then s else if n <= |s| then s[n..] else []
  }

  class ParallelSortClusteredCursor {
    const cursors: seq<FilteringClientCursor>
    const sortKey: Option<Comparison>
    var lastFrom: int
    var needToSkip: int

    constructor (shards: seq<FilteringClientCursor>, key: Option<Comparison>, skip: int)
      requires forall i | 0 <= i < |shards| :: shards[i].Valid()
      requires forall i, j | 0 <= i < j < |shards| :: shards[i] != shards[j]
      requires key.Some? ==> TotalPreorder(key.value)
      ensures Valid() && cursors == shards && sortKey == key && needToSkip == skip && lastFrom == 0
    {
      cursors := shards;
      sortKey := key;
      lastFrom := 0;
      needToSkip := skip;
    }

    ghost predicate Valid()
      reads this`lastFrom, cursors
    {
      && (forall i | 0 <= i < |cursors| :: cursors[i].Valid())
      && (forall i, j | 0 <= i < j < |cursors| :: cursors[i] != cursors[j])
      && (sortKey.Some? ==> TotalPreorder(sortKey.value))
      && (cursors != [] ==> -1 <= lastFrom < |cursors|)
    }

    ghost function Streams(): (streams: seq<seq<Doc>>)
      reads cursors
      ensures |streams| == |cursors| && forall i | 0 <= i < |cursors| :: streams[i] == cursors[i].Pending()
    {
      seq(|cursors|, i requires 0 <= i < |cursors| reads cursors => cursors[i].Pending())
    }

    /** What the cursor has yet to return, not counting a pending skip. */
    ghost function Rest(): seq<Step>
      requires Valid()
      reads this`lastFrom, cursors
    {
      Merged(Streams(), lastFrom, sortKey)
    }

    /** Carries out a pending skip; what comes then is the merge without its first documents. */
    method More() returns (b: bool)
      requires Valid()
      modifies this, cursors
      ensures Valid() && b == (Rest() != [])
      ensures Rest() == Drop(old(needToSkip), old(Rest()))
      ensures needToSkip == if old(needToSkip) <= 0 then old(needToSkip)
                            else if old(needToSkip) <= |old(Rest())| then 0
                            else old(needToSkip) - |old(Rest())|
      decreases if needToSkip > 0 then 1 else 0
    {
      hide Rest;
      hide Valid;
      if needToSkip > 0 {
        ghost var all := Rest();
        var n := needToSkip;
        needToSkip := 0;
        while n > 0
          invariant Valid() && needToSkip == 0 && 0 <= n <= old(needToSkip)
          invariant old(needToSkip) - n <= |all| && Rest() == all[old(needToSkip) - n..]
        {
          var more := More();
          if !more {
            break;
          }
          var x := Next();
          n := n - 1;
        }
        needToSkip := n;
      }
      b := AnyMore();
    }

    method AnyMore() returns (b: bool)
      requires Valid()
      modifies cursors
      ensures Valid() && Rest() == old(Rest()) && b == (Rest() != [])
    {
      ghost var streams := Streams();
      var i := 0;
      while i < |cursors|
        invariant Valid() && 0 <= i <= |cursors|
        invariant Streams() == streams
        invariant forall k | 0 <= k < i :: streams[k] == []
      {
        var me := Look(i);
        if me.Some? {
          return true;
        }
        i := i + 1;
      }
      return false;
    }

    /** `more` and then `peek` on one shard's cursor. */
    method Look(i: nat) returns (me: Option<Doc>)
      requires Valid() && i < |cursors|
      modifies cursors[i]
      ensures Valid() && Streams() == old(Streams())
      ensures me == cursors[i].next == if Streams()[i] == [] then None else Some(Streams()[i][0])
    {
      var more := cursors[i].More();
      if !more {
        me := None;
      } else {
        me := cursors[i].Peek();
      }
      assert Streams() == old(Streams());
    }

    method Take(i: nat) returns (d: Doc)
      requires Valid() && i < |cursors| && cursors[i].next.Some?
      modifies cursors[i]
      ensures Valid() && old(Streams())[i] != [] && d == old(Streams())[i][0]
      ensures Streams() == old(Streams())[i := old(Streams())[i][1..]]
    {
      d := cursors[i].Next();
      assert old(Streams())[i] == [d] + cursors[i].Pending();
      assert Streams() == old(Streams())[i := old(Streams())[i][1..]];
    }

    /** The scan of `next` over the shards, starting one past the shard used last. */
    method Scan() returns (best: Option<Doc>, bestFrom: int, ghost won: Option<nat>)
      requires Valid()
      modifies cursors
      ensures Valid() && Streams() == old(Streams())
      ensures WonSoFar(Streams(), lastFrom, sortKey, won, |cursors|)
      ensures HeldBy(Streams(), lastFrom, won, best, bestFrom)
      ensures best.Some? ==> cursors[bestFrom].next.Some?
    {
      ghost var streams := Streams();
      best, bestFrom, won := None, -1, None;
      var j := 0;
      while j < |cursors|
        invariant Valid() && 0 <= j <= |cursors| && Streams() == streams
        invariant WonSoFar(streams, lastFrom, sortKey, won, j)
        invariant HeldBy(streams, lastFrom, won, best, bestFrom)
        invariant best.Some? ==> sortKey.Some? && cursors[bestFrom].next.Some?
      {
        TurnIsModulo(|cursors|, lastFrom, j);
        var i := (j + lastFrom + 1) % |cursors|;
        var me := Look(i);
        ghost var next := WinnerStep(streams, lastFrom, sortKey, won, j);
        if me.Some? {
          if best == None {
            best := me;
            bestFrom := i;
            won := Some(j);
            if sortKey == None {
              FirstWins(streams, lastFrom, j);
              break;
            }
          } else {
            var comp := sortKey.value(best.value, me.value);
            if comp >= 0 {
              best := me;
              bestFrom := i;
              won := Some(j);
            }
          }
        }
        j := j + 1;
      }
    }

    /** The head of the merge; None is the "no more elements" error. */
    method Next() returns (d: Option<Doc>)
      requires Valid()
      modifies this`lastFrom, cursors
      ensures Valid()
      ensures old(Rest()) == [] ==> d == None && Rest() == []
      ensures old(Rest()) != [] ==> d == Some(old(Rest())[0].doc) && Rest() == old(Rest())[1..]
    {
      ghost var streams, last := Streams(), lastFrom;
      ghost var won: Option<nat>;
      var best: Option<Doc>;
      var bestFrom: int;
      best, bestFrom, won := Scan();
      lastFrom := bestFrom;
      if best == None {
        NothingLeft(streams, last);
        return None;
      }
      var doc := Take(bestFrom);
      WinnerTaken(streams, last, sortKey, won.value);
      return best;
    }
  }

  lemma FirstWins(streams: seq<seq<Doc>>, last: int, j: nat)
    requires -1 <= last < |streams| && j < |streams| && Wins(streams, last, None, j, j + 1)
    ensures Wins(streams, last, None, j, |streams|)
  {
  }

  /** What the scan remembers of the winning turn. */
  ghost predicate HeldBy(streams: seq<seq<Doc>>, last: int, won: Option<nat>, best: Option<Doc>, bestFrom: int) {
    match won
    case None => best == None && bestFrom == -1
    case Some(b) =>
      && -1 <= last < |streams| && b < |streams| && bestFrom == Turn(|streams|, last, b)
      && streams[bestFrom] != [] && best == Some(streams[bestFrom][0])
  }

  /** Ascending streams yield ascending documents, skipped or not. */
  lemma DroppedAscending(streams: seq<seq<Doc>>, last: int, comp: Comparison, n: int)
    requires streams != [] ==> -1 <= last < |streams|
    requires TotalPreorder(comp) && forall i | 0 <= i < |streams| :: Ascending(comp, streams[i])
    ensures Ascending(comp, Docs(Drop(n, Merged(streams, last, Some(comp)))))
  {
    var all := Merged(streams, last, Some(comp));
    MergedAscending(streams, last, comp);
    hide Merged;
    if 0 < n <= |all| {
      assert forall i | 0 <= i < |all| - n :: Docs(all[n..])[i] == Docs(all)[n + i];
    }
  }

  lemma DropNothing(n: int, s: seq<Step>)
    requires n <= 0 || s == []
    ensures Drop(n, s) == s
  {
  }

  /** `docs` came out of `all` and `rest` did not yet. */
  ghost predicate Split(all: seq<Step>, docs: seq<Doc>, rest: seq<Step>) {
    |docs| <= |all| && docs == Docs(all)[..|docs|] && rest == all[|docs|..]
  }

  lemma SplitStep(all: seq<Step>, docs: seq<Doc>, rest: seq<Step>)
    requires Split(all, docs, rest) && rest != []
    ensures Split(all, docs + [rest[0].doc], rest[1..])
  {
  }

  /** The loop every client runs, `more` before each `next`: it gets the merge without the
      skipped documents. */
  method Drain(c: ParallelSortClusteredCursor) returns (docs: seq<Doc>)
    requires c.Valid()
    modifies c, c.cursors
    ensures docs == Docs(Drop(old(c.needToSkip), old(c.Rest())))
  {
    ghost var all := Drop(c.needToSkip, c.Rest());
    hide c.Rest;
    hide c.Valid;
    docs := [];
    var more := c.More();
    ghost var rest := c.Rest();
    assert Split(all, docs, rest);
    hide Split;
    hide Drop;
    hide Docs;
    while more
      invariant c.Valid() && rest == c.Rest() && more == (rest != [])
      invariant c.needToSkip <= 0 || rest == []
      invariant Split(all, docs, rest)
      decreases |rest|
    {
      SplitStep(all, docs, rest);
      var d := c.Next();
      docs := docs + [d.value];
      rest := rest[1..];
      DropNothing(c.needToSkip, rest);
      more := c.More();
    }
    SplitDone(all, docs);
  }

  lemma SplitDone(all: seq<Step>, docs: seq<Doc>)
    requires Split(all, docs, [])
    ensures docs == Docs(all)
  {
  }
}
