/** The k-way merge of sorted shard streams: what is taken next, and what a whole merge yields. */
module Merge {
  import opened Rotation
  import opened Wrappers

  /** `woSortOrder` under one sort key: negative when the first document goes first. */
  type Comparison = (Doc, Doc) -> int

  datatype Step = Step(from: nat, doc: Doc)

  ghost predicate TotalPreorder(comp: Comparison) {
    && (forall a, b :: comp(a, b) <= 0 || comp(b, a) <= 0)
    && (forall a, b :: comp(a, b) < 0 <==> !(comp(b, a) <= 0))
    && forall a, b, c :: comp(a, b) <= 0 && comp(b, c) <= 0 ==> comp(a, c) <= 0
  }

  ghost predicate Ascending(comp: Comparison, s: seq<Doc>) {
    forall i, j | 0 <= i < j < |s| :: comp(s[i], s[j]) <= 0
  }

  // ---------------------------------------------------------------- one choice

  /** Turn j wins among the first `upto` turns. Without a sort key that is the first stream with
      a document; with one, the last turn among those with the least head. */
  ghost predicate Wins(streams: seq<seq<Doc>>, last: int, key: Option<Comparison>, j: nat, upto: nat)
    requires -1 <= last < |streams| && j < upto <= |streams|
  {
    var n := |streams|;
    var best := streams[Turn(n, last, j)];
    && best != []
    && match key
       case None => forall k | 0 <= k < j :: streams[Turn(n, last, k)] == []
       case Some(comp) =>
         forall k | 0 <= k < upto && streams[Turn(n, last, k)] != [] ::
           && comp(best[0], streams[Turn(n, last, k)][0]) <= 0
           && (j < k ==> comp(best[0], streams[Turn(n, last, k)][0]) < 0)
  }

  ghost predicate AllEmpty(streams: seq<seq<Doc>>, last: int, upto: nat)
    requires -1 <= last < |streams| && upto <= |streams|
  {
    forall k | 0 <= k < upto :: streams[Turn(|streams|, last, k)] == []
  }

  ghost predicate Choice(streams: seq<seq<Doc>>, last: int, key: Option<Comparison>, i: nat)
    requires -1 <= last < |streams|
  {
    exists j :: 0 <= j < |streams| && Turn(|streams|, last, j) == i && Wins(streams, last, key, j, |streams|)
  }

  lemma WinnerUnique(streams: seq<seq<Doc>>, last: int, key: Option<Comparison>, j: nat, k: nat, upto: nat)
    requires -1 <= last < |streams| && j < upto <= |streams| && k < upto
    requires Wins(streams, last, key, j, upto) && Wins(streams, last, key, k, upto)
    requires key.Some? ==> TotalPreorder(key.value)
    ensures j == k
  {
  }

  ghost predicate Drained(streams: seq<seq<Doc>>) {
    forall i | 0 <= i < |streams| :: streams[i] == []
  }

  ghost predicate WonSoFar(streams: seq<seq<Doc>>, last: int, key: Option<Comparison>, won: Option<nat>, upto: nat)
    requires streams != [] ==> -1 <= last < |streams|
    requires upto <= |streams|
  {
    streams != [] ==>
      match won
      case None => AllEmpty(streams, last, upto)
      case Some(j) => j < upto && Wins(streams, last, key, j, upto)
  }

  /** One more turn: it takes over when it has a document and nothing before it beats that. */
  lemma WinnerStep(streams: seq<seq<Doc>>, last: int, key: Option<Comparison>, won: Option<nat>, j: nat)
    returns (next: Option<nat>)
    requires -1 <= last < |streams| && j < |streams|
    requires key.Some? ==> TotalPreorder(key.value)
    requires WonSoFar(streams, last, key, won, j)
    ensures WonSoFar(streams, last, key, next, j + 1)
    ensures var me := streams[Turn(|streams|, last, j)];
      next == if me == [] then won
              else if won.None? then Some(j)
              else if key.None? || key.value(streams[Turn(|streams|, last, won.value)][0], me[0]) < 0 then won
              else Some(j)
  {
    var me := streams[Turn(|streams|, last, j)];
    next := if me == [] then won
            else if won.None? then Some(j)
            else if key.None? || key.value(streams[Turn(|streams|, last, won.value)][0], me[0]) < 0 then won
            else Some(j);
  }

  lemma WinnerExists(streams: seq<seq<Doc>>, last: int, key: Option<Comparison>)
    requires -1 <= last < |streams| && !Drained(streams)
    requires key.Some? ==> TotalPreorder(key.value)
    ensures exists i :: 0 <= i < |streams| && Choice(streams, last, key, i)
  {
    var j := 0;
    var won: Option<nat> := None;
    while j < |streams|
      invariant 0 <= j <= |streams| && WonSoFar(streams, last, key, won, j)
    {
      won := WinnerStep(streams, last, key, won, j);
      j := j + 1;
    }
    if won.None? {
      NothingLeft(streams, last);
    } else {
      assert Choice(streams, last, key, Turn(|streams|, last, won.value));
    }
  }

  lemma NothingLeft(streams: seq<seq<Doc>>, last: int)
    requires streams != [] ==> -1 <= last < |streams| && AllEmpty(streams, last, |streams|)
    ensures Drained(streams)
  {
    forall i | 0 <= i < |streams| ensures streams[i] == [] {
      var k := TurnOf(|streams|, last, i);
    }
  }

  // ---------------------------------------------------------------- whole merges

  function Total(streams: seq<seq<Doc>>): (n: nat)
    ensures n == 0 <==> forall i | 0 <= i < |streams| :: streams[i] == []
  {
    if streams == [] then 0 else |streams[0]| + Total(streams[1..])
  }

  lemma {:induction false} TotalDrops(streams: seq<seq<Doc>>, i: nat)
    requires i < |streams| && streams[i] != []
    ensures Total(streams[i := streams[i][1..]]) == Total(streams) - 1
  {
    var less := streams[i := streams[i][1..]];
    if i == 0 {
      assert less[1..] == streams[1..];
    } else {
      TotalDrops(streams[1..], i - 1);
      assert less[1..] == streams[1..][i - 1 := streams[1..][i - 1][1..]];
    }
  }

  /** Everything the cursor yields from here on: one choice after the other. */
  ghost function Merged(streams: seq<seq<Doc>>, last: int, key: Option<Comparison>): (out: seq<Step>)
    requires streams != [] ==> -1 <= last < |streams|
    requires key.Some? ==> TotalPreorder(key.value)
    decreases Total(streams)
  {
    if Total(streams) == 0 then []
    else
      WinnerExists(streams, last, key);
      var i: nat :| i < |streams| && Choice(streams, last, key, i);
      TotalDrops(streams, i);
      [Step(i, streams[i][0])] + Merged(streams[i := streams[i][1..]], i, key)
  }

  /** The documents one shard contributed, in order. */
  function From(out: seq<Step>, i: nat): seq<Doc> {
    if out == [] then []
    else (if out[0].from == i then [out[0].doc] else []) + From(out[1..], i)
  }

  function Docs(out: seq<Step>): (docs: seq<Doc>)
    ensures |docs| == |out| && forall i | 0 <= i < |out| :: docs[i] == out[i].doc
  {
    seq(|out|, i requires 0 <= i < |out| => out[i].doc)
  }

  /** What happens at the head of a merge, whatever the choice function looks like. */
  lemma MergedHead(streams: seq<seq<Doc>>, last: int, key: Option<Comparison>) returns (i: nat)
    requires streams != [] && -1 <= last < |streams| && Total(streams) != 0
    requires key.Some? ==> TotalPreorder(key.value)
    ensures i < |streams| && streams[i] != [] && Choice(streams, last, key, i)
    ensures Merged(streams, last, key)
         == [Step(i, streams[i][0])] + Merged(streams[i := streams[i][1..]], i, key)
    ensures Total(streams[i := streams[i][1..]]) == Total(streams) - 1
  {
    var out := Merged(streams, last, key);
    i := out[0].from;
    TotalDrops(streams, i);
  }

  lemma WinnerTaken(streams: seq<seq<Doc>>, last: int, key: Option<Comparison>, j: nat)
    requires -1 <= last < |streams| && j < |streams| && Wins(streams, last, key, j, |streams|)
    requires key.Some? ==> TotalPreorder(key.value)
    ensures var i := Turn(|streams|, last, j);
      Merged(streams, last, key) == [Step(i, streams[i][0])] + Merged(streams[i := streams[i][1..]], i, key)
  {
  }

  /** Every shard's documents all come out, in their own order, and nothing else does. */
  lemma {:induction false} KeepsShardOrder(streams: seq<seq<Doc>>, last: int, key: Option<Comparison>, k: nat)
    requires streams != [] ==> -1 <= last < |streams|
    requires key.Some? ==> TotalPreorder(key.value)
    ensures From(Merged(streams, last, key), k) == if k < |streams| then streams[k] else []
    decreases Total(streams)
  {
    if Total(streams) != 0 {
      hide Choice;
      hide Total;
      hide Merged;
      hide From;
      var i := MergedHead(streams, last, key);
      assert streams[i] == [streams[i][0]] + streams[i][1..];
      var rest := streams[i := streams[i][1..]];
      KeepsShardOrder(rest, i, key, k);
      FromCons(Step(i, streams[i][0]), Merged(rest, i, key), k);
    }
  }

  lemma FromCons(s: Step, out: seq<Step>, k: nat)
    ensures From([s] + out, k) == (if s.from == k then [s.doc] else []) + From(out, k)
  {
  }

  /** A document before all heads of ascending streams is before all that comes out. */
  lemma {:induction false} LowerBound(streams: seq<seq<Doc>>, last: int, comp: Comparison, d: Doc)
    requires streams != [] ==> -1 <= last < |streams|
    requires TotalPreorder(comp) && forall i | 0 <= i < |streams| :: Ascending(comp, streams[i])
    requires forall i | 0 <= i < |streams| && streams[i] != [] :: comp(d, streams[i][0]) <= 0
    ensures forall s | s in Merged(streams, last, Some(comp)) :: comp(d, s.doc) <= 0
    decreases Total(streams)
  {
    if Total(streams) != 0 {
      var i := MergedHead(streams, last, Some(comp));
      LowerBound(streams[i := streams[i][1..]], i, comp, d);
    }
  }

  /** Ascending streams merge into an ascending stream. */
  lemma {:induction false} MergedAscending(streams: seq<seq<Doc>>, last: int, comp: Comparison)
    requires streams != [] ==> -1 <= last < |streams|
    requires TotalPreorder(comp) && forall i | 0 <= i < |streams| :: Ascending(comp, streams[i])
    ensures Ascending(comp, Docs(Merged(streams, last, Some(comp))))
    decreases Total(streams)
  {
    if Total(streams) != 0 {
      var i := MergedHead(streams, last, Some(comp));
      var rest := streams[i := streams[i][1..]];
      assert Ascending(comp, streams[i]);
      MergedAscending(rest, i, comp);
      HeadIsLeast(streams, last, comp, i);
      LowerBound(rest, i, comp, streams[i][0]);
      PrependAscending(comp, Step(i, streams[i][0]), Merged(rest, i, Some(comp)));
    }
  }

  lemma PrependAscending(comp: Comparison, s: Step, tail: seq<Step>)
    requires Ascending(comp, Docs(tail)) && forall t | t in tail :: comp(s.doc, t.doc) <= 0
    ensures Ascending(comp, Docs([s] + tail))
  {
  }

  lemma HeadIsLeast(streams: seq<seq<Doc>>, last: int, comp: Comparison, i: nat)
    requires -1 <= last < |streams| && TotalPreorder(comp)
    requires i < |streams| && Choice(streams, last, Some(comp), i)
    ensures streams[i] != [] && forall k | 0 <= k < |streams| && streams[k] != [] :: comp(streams[i][0], streams[k][0]) <= 0
  {
    forall k | 0 <= k < |streams| && streams[k] != [] ensures comp(streams[i][0], streams[k][0]) <= 0 {
      var j := TurnOf(|streams|, last, k);
    }
  }

  /** Without a sort key the shards take turns: one that still has documents is served again
      within as many documents as there are shards. */
  lemma {:induction false} RoundRobin(streams: seq<seq<Doc>>, last: int, k: nat, wait: nat) returns (t: nat)
    requires -1 <= last < |streams| && k < |streams| && streams[k] != []
    requires wait < |streams| && Turn(|streams|, last, wait) == k
    ensures t <= wait && t < |Merged(streams, last, None)| && Merged(streams, last, None)[t].from == k
    decreases wait
  {
    assert Total(streams) != 0;
    var i := MergedHead(streams, last, None);
    if i == k {
      t := 0;
    } else {
      var j :| 0 <= j < |streams| && Turn(|streams|, last, j) == i && Wins(streams, last, None, j, |streams|);
      t := RoundRobin(streams[i := streams[i][1..]], i, k, wait - j - 1);
      t := t + 1;
    }
  }
}
