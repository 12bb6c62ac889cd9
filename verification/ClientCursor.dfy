/** The client cursor: batches fetched under a limit read like one stream of documents. */
module ClientCursor {
  import opened Wrappers

  /** One server reply: its documents, and the cursor id, 0 once there is nothing left. */
  datatype Reply = Reply(docs: seq<Doc>, cursorId: int)

  function Take(n: int, s: seq<Doc>): seq<Doc> {
    if n <= 0 then [] else if n <= |s| then s[..n] else s
  }

  function All(replies: seq<Reply>): seq<Doc> {
    if replies == [] then [] else replies[0].docs + All(replies[1..])
  }

  /** What a reader sees who stops at the first reply to a request for more that is empty. */
  function Flow(replies: seq<Reply>): seq<Doc> {
    if replies == [] || replies[0].docs == [] then [] else replies[0].docs + Flow(replies[1..])
  }

  /** What a server may send: the last reply closes the cursor and no other does. */
  predicate Script(replies: seq<Reply>) {
    forall i | 0 <= i < |replies| :: replies[i].cursorId == 0 <==> i == |replies| - 1
  }

  function Cut(haveLimit: bool, left: int, s: seq<Doc>): seq<Doc> {
    if haveLimit then Take(left, s) else s
  }

  lemma CutStep(haveLimit: bool, left: int, docs: seq<Doc>, pos: nat, flow: seq<Doc>)
    requires pos < |docs| && (haveLimit ==> left > 0)
    ensures Cut(haveLimit, left, docs[pos..] + flow) == [docs[pos]] + Cut(haveLimit, left - 1, docs[pos + 1..] + flow)
  {
  }

  lemma Associate(front: seq<Doc>, back: seq<Doc>)
    requires front != []
    ensures [front[0]] + (front[1..] + back) == front + back
  {
  }

  class DBClientCursor {
    const haveLimit: bool
    var nToReturn: int
    var batchSize: int
    var docs: seq<Doc>
    var pos: nat
    var cursorId: int
    /** Documents put back, the next one first. */
    var putBack: seq<Doc>
    /** What the server is going to answer. */
    var replies: seq<Reply>
    /** The batch sizes asked for in requests for more. */
    var asked: seq<int>

    /** A query on a non-tailable cursor, with the answer to it received. */
    constructor (limit: int, bs: int, script: seq<Reply>)
      requires script != [] && Script(script)
      ensures Valid() && haveLimit == (limit > 0) && nToReturn == limit && batchSize != 1
      ensures Stream() == Cut(haveLimit, limit, script[0].docs + Flow(script[1..])) && asked == []
      ensures replies == script[1..]
    {
      haveLimit := limit > 0;
      nToReturn := limit;
      batchSize := if bs == 1 then 2 else bs;
      docs, pos, cursorId := script[0].docs, 0, script[0].cursorId;
      putBack, replies, asked := [], script[1..], [];
    }

    ghost predicate Valid()
      reads this
    {
      && pos <= |docs|
      && (cursorId == 0 <==> replies == []) && Script(replies)
      && (haveLimit ==> nToReturn > 0)
    }

    /** What is still to come from the batch and the server. */
    function Upcoming(): seq<Doc>
      requires pos <= |docs|
      reads this`docs, this`pos, this`nToReturn, this`replies
    {
      Cut(haveLimit, nToReturn - pos, docs[pos..] + Flow(replies))
    }

    /** Everything the cursor is going to yield. */
    function Stream(): seq<Doc>
      requires pos <= |docs|
      reads this
    {
      if putBack == [] then Upcoming() else putBack + Upcoming()
    }

    /** Whether `next` may be called. */
    predicate Ready()
      reads this
    {
      putBack != [] || (pos < |docs| && (haveLimit ==> pos < nToReturn))
    }

    /** `nextBatchSize`: the smaller of the batch size and what is left of a limit, where zero stands
        for none. It is one only if just one document is left, since the wire protocol takes a
        request for one as "close the cursor". */
    function NextBatchSize(): (n: int)
      reads this
      ensures n == nToReturn || n == batchSize
      ensures nToReturn != 0 && batchSize != 0 ==> n <= nToReturn && n <= batchSize
      ensures n == 0 ==> nToReturn == 0 && batchSize == 0
      ensures nToReturn > 0 ==> n <= nToReturn && (batchSize >= 0 ==> n > 0)
      ensures n == 1 && batchSize != 1 ==> nToReturn == 1
    {
      if nToReturn == 0 then batchSize
      else if batchSize == 0 then nToReturn
      else if batchSize < nToReturn then batchSize else nToReturn
    }

    method RequestMore()
      requires Valid() && putBack == []
      requires cursorId != 0 && pos == |docs| && (haveLimit ==> pos < nToReturn)
      modifies this
      ensures Valid() && pos == 0 && putBack == [] && docs == old(replies)[0].docs && replies == old(replies)[1..]
      ensures nToReturn == if haveLimit then old(nToReturn) - old(pos) else old(nToReturn)
      ensures batchSize == old(batchSize) && asked == old(asked) + [NextBatchSize()]
    {
      if haveLimit {
        nToReturn := nToReturn - |docs|;
        // The original verifies this.
        assert nToReturn > 0;
      }
      asked := asked + [NextBatchSize()];
      docs, pos, cursorId := replies[0].docs, 0, replies[0].cursorId;
      replies := replies[1..];
    }

    /** True exactly when the stream has more. Once false, an exhausted server has nothing left. */
    method More() returns (b: bool)
      requires Valid()
      modifies this
      ensures Valid() && b == (old(Stream()) != [])
      ensures b ==> Ready() && Stream() == old(Stream())
      ensures batchSize == old(batchSize)
      ensures asked == old(asked) || asked == old(asked) + [NextBatchSize()]
    {
      if putBack != [] {
        return true;
      }
      if haveLimit && pos >= nToReturn {
        return false;
      }
      if pos < |docs| {
        return true;
      }
      if cursorId == 0 {
        return false;
      }
      RequestMore();
      return pos < |docs|;
    }

    /** The next document; None is the error of calling `next` when there is nothing. */
    method Next() returns (d: Option<Doc>)
      requires Valid()
      modifies this`pos, this`putBack
      ensures Valid()
      ensures d.None? <==> old(putBack) == [] && old(pos) == |docs|
      ensures old(Ready()) ==> d.Some? && [d.value] + Stream() == old(Stream())
    {
      hide Take, Cut, Flow, Script;
      if putBack != [] {
        hide Upcoming;
        Associate(putBack, Upcoming());
        d := Some(putBack[0]);
        putBack := putBack[1..];
        return;
      }
      if pos >= |docs| {
        return None;
      }
      if Ready() {
        CutStep(haveLimit, nToReturn - pos, docs, pos, Flow(replies));
      }
      pos := pos + 1;
      d := Some(docs[pos - 1]);
    }

    method PutBack(o: Doc)
      requires Valid()
      modifies this`putBack
      ensures Valid() && Ready() && Stream() == [o] + old(Stream())
    {
      putBack := [o] + putBack;
    }

    /** `itcount`: runs the stream out, counting; `all` is what went by. */
    method ItCount() returns (c: nat, all: seq<Doc>)
      requires Valid()
      modifies this
      ensures Valid() && all == old(Stream()) && c == |all|
    {
      ghost var stream := Stream();
      c, all := 0, [];
      var more := More();
      hide Stream;
      hide Ready;
      while more
        invariant Valid() && c == |all|
        invariant more ==> Ready() && stream == all + Stream()
        invariant !more ==> stream == all
        decreases more, |stream| - c
      {
        ghost var rest := Stream();
        var d := Next();
        all, c := all + [d.value], c + 1;
        assert stream == all + Stream();
        more := More();
      }
    }
  }

  // ---------------------------------------------------------------- whole queries

  lemma {:induction false} FlowIsPrefix(replies: seq<Reply>)
    ensures Flow(replies) <= All(replies)
  {
    if replies != [] && replies[0].docs != [] {
      FlowIsPrefix(replies[1..]);
    }
  }

  /** After an empty reply to a request for more, no reply has documents. */
  predicate NoGap(replies: seq<Reply>) {
    forall i, j | 0 <= i < j < |replies| && replies[i].docs == [] :: replies[j].docs == []
  }

  lemma {:induction false} AllEmpty(replies: seq<Reply>)
    ensures All(replies) == [] <==> forall i | 0 <= i < |replies| :: replies[i].docs == []
  {
    if replies != [] {
      AllEmpty(replies[1..]);
      assert forall i | 0 < i < |replies| :: replies[i] == replies[1..][i - 1];
    }
  }

  /** Stopping at an empty reply loses nothing exactly when there is no such gap; replies that are
      all non-empty, the closing one perhaps not, have none. */
  lemma {:induction false} FlowIsAll(replies: seq<Reply>)
    ensures Flow(replies) == All(replies) <==> NoGap(replies)
  {
    if replies != [] {
      var rest := replies[1..];
      FlowIsAll(rest);
      FlowIsPrefix(rest);
      AllEmpty(rest);
      assert forall i | 0 < i < |replies| :: replies[i] == rest[i - 1];
      assert NoGap(replies) <==> NoGap(rest) && (replies[0].docs == [] ==> All(rest) == []);
      if replies[0].docs != [] && Flow(replies) == All(replies) {
        assert Flow(rest) == Flow(replies)[|replies[0].docs|..];
        assert All(rest) == All(replies)[|replies[0].docs|..];
      }
    }
  }

  /** The first reply may be empty and is followed all the same. A reader is cut short exactly when a
      gap in the later ones comes before the limit is reached. */
  lemma LimitBeforeGap(limit: int, first: seq<Doc>, rest: seq<Reply>)
    ensures Cut(limit > 0, limit, first + Flow(rest)) == Cut(limit > 0, limit, first + All(rest)) <==>
      NoGap(rest) || 0 < limit <= |first + Flow(rest)|
  {
    FlowIsPrefix(rest);
    FlowIsAll(rest);
    var flow, all := first + Flow(rest), first + All(rest);
    assert flow <= all;
    assert flow == all <==> Flow(rest) == All(rest) by {
      assert flow[|first|..] == Flow(rest) && all[|first|..] == All(rest);
    }
    hide Flow, All, NoGap;
    if 0 < limit <= |flow| {
      assert all[..limit] == flow[..limit];
    } else if limit > |flow| {
      assert flow != all ==> |Take(limit, all)| > |flow|;
    }
  }

  /** However the documents are split into batches, a query yields the first `limit` of them, or
      all without a limit, exactly when no empty reply to a request for more comes before documents
      that are still wanted; otherwise it ends at that reply. */
  method Query(limit: int, bs: int, script: seq<Reply>) returns (docs: seq<Doc>)
    requires script != [] && Script(script)
    ensures docs == Cut(limit > 0, limit, script[0].docs + Flow(script[1..]))
    ensures docs == Cut(limit > 0, limit, All(script)) <==>
      NoGap(script[1..]) || 0 < limit <= |script[0].docs + Flow(script[1..])|
  {
    var cursor := new DBClientCursor(limit, bs, script);
    LimitBeforeGap(limit, script[0].docs, script[1..]);
    var c;
    c, docs := cursor.ItCount();
  }
}
