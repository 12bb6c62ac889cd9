/** What every timely run of the lock protocol keeps. */
module DistLockSafety {
  import opened Wrappers
  import opened DistLock

  // ---------------------------------------------------------------- the invariant

  ghost predicate DocOk(s: State) {
    s.doc.Some? ==>
      var d := s.doc.value;
      && 0 <= d.state <= 2
      && (d.ts == NO_OID ==> d.state == 0)
      && (d.ts != NO_OID ==> d.ts in s.acqs && s.acqs[d.ts].client.proc == d.process)
  }

  ghost predicate AcqsOk(s: State) {
    forall ts | ts in s.acqs ::
      && ts != NO_OID && 0 <= s.acqs[ts].casAt <= s.now
      && (Live(s, ts) ==> LiveOk(s, ts))
  }

  /** A live acquisition owns the document, and its own client is the one thread behind it. */
  ghost predicate LiveOk(s: State, ts: Oid)
    requires Live(s, ts)
  {
    var a := s.acqs[ts];
    && s.doc == Some(LockDoc(if a.phase.Pending? then 1 else 2, ts, a.client.proc))
    && (a.phase.Pending? ==> At(s, a.client) == Finalizing(ts))
    && (a.phase.Held? ==>
          At(s, a.client) == ReadingBack(ts) || At(s, a.client) == Holding(ts, s.doc.value))
  }

  ghost predicate PingsOk(s: State) {
    && (forall k | k in s.commits :: k.1 > 0 && 0 <= s.commits[k] <= s.now)
    && (forall p | p in s.pings :: (p, s.pings[p]) in s.commits)
  }

  ghost predicate EndedTs(s: State, ts: Oid) {
    ts in s.acqs && s.acqs[ts].phase.Ended?
  }

  ghost predicate LateOk(s: State) {
    forall e | e in s.late :: EndedTs(s, e.1)
  }

  /** A ping value that was read at pingAt: the value of a commit, or 0 for none. */
  ghost predicate ReadOk(s: State, p: Process, ping: Time, pingAt: Time) {
    && (ping == 0 || (p, ping) in s.commits)
    && CommittedAt(s, p, ping) <= pingAt <= s.now
  }

  ghost predicate MarkOk(c: Config, s: State, m: Mark) {
    m.ts != NO_OID ==>
      && m.ts in s.acqs && s.acqs[m.ts].casAt <= m.pingAt
      && ReadOk(s, m.id, m.lastPing, m.pingAt)
      && m.pingAt <= m.startAt <= m.endAt <= s.now
      && m.endAt - m.startAt <= 2 * c.netSkew
      && m.startAt <= m.remote + (m.endAt - m.startAt) / 2
  }

  ghost predicate MarksOk(c: Config, s: State) {
    forall h | h in s.marks :: MarkOk(c, s, s.marks[h])
  }

  /** A set lock document that was read. */
  ghost predicate SeenOk(s: State, o: LockDoc) {
    && 1 <= o.state <= 2
    && o.ts in s.acqs && s.acqs[o.ts].client.proc == o.process
    && (o.state == 2 ==> !s.acqs[o.ts].phase.Pending?)
  }

  /** ... and the ping of its process, read after it. */
  ghost predicate SeenPingOk(c: Config, s: State, o: LockDoc, ping: Time, pingAt: Time) {
    && SeenOk(s, o)
    && ReadOk(s, o.process, ping, pingAt)
    && s.acqs[o.ts].casAt <= pingAt
    && (o.state == 2 && Live(s, o.ts) ==>
          pingAt <= Max(CommittedAt(s, o.process, ping), s.acqs[o.ts].casAt) + c.pingGap)
  }

  /** A lock a client decided to force: no longer live, or (seen in state 1) finalized since. */
  ghost predicate ForceOk(s: State, o: LockDoc) {
    && SeenOk(s, o)
    && (EndedTs(s, o.ts) || (o.state == 1 && s.acqs[o.ts].phase.Held?))
  }

  ghost predicate AttemptOk(c: Config, s: State, cl: Client, a: Attempt) {
    match a
    case SawLock(o, _) => SeenOk(s, o)
    case SawPing(o, _, ping, pingAt) => SeenPingOk(c, s, o, ping, pingAt)
    case Asking(o, _, ping, pingAt, mark, startAt) =>
      && SeenPingOk(c, s, o, ping, pingAt) && MarkOk(c, s, mark) && pingAt <= startAt <= s.now
      && (mark.ts != NO_OID ==> mark.endAt <= startAt)
    case Forcing(o) => ForceOk(s, o)
    case Reentering(o) => SeenOk(s, o)
    case Finalizing(ts) => Live(s, ts) && s.acqs[ts].client == cl && s.acqs[ts].phase.Pending?
    case ReadingBack(ts) => Live(s, ts) && s.acqs[ts].client == cl && s.acqs[ts].phase.Held?
    case Holding(ts, other) =>
      && Live(s, ts) && s.acqs[ts].client == cl && s.acqs[ts].phase.Held?
      && other == LockDoc(2, ts, cl.proc)
    case Unlocking(freed, tries) => EndedTs(s, freed) && tries < MAX_UNLOCK_ATTEMPTS
    case _ => true
  }

  ghost predicate AttemptsOk(c: Config, s: State) {
    forall cl | cl in s.attempts :: AttemptOk(c, s, cl, s.attempts[cl])
  }

  ghost predicate Inv(c: Config, s: State) {
    && s.now >= 0
    && DocOk(s) && AcqsOk(s) && PingsOk(s) && LateOk(s) && MarksOk(c, s) && AttemptsOk(c, s)
  }

  /** How much time may seem to have passed between two readings of a remote clock when x has: the
      first reading lags by half the time it took, which is at most 2 * netSkew, and it was over
      before the second. */
  function Lapse(netSkew: nat, x: nat): nat {
    x + Min(2 * netSkew, x) / 2
  }

  lemma LapseBounds(netSkew: nat, delay: nat, x: nat, y: nat)
    requires delay <= 2 * netSkew && delay <= x <= y
    ensures x + delay / 2 <= Lapse(netSkew, y)
  {
  }

  /** The two bounds that make the protocol safe. The ping that a contender sees is at most pingGap
      old when it is read, its question follows within readGap, and the answer may run ahead by
      netSkew. */
  predicate Leased(c: Config) {
    && c.netSkew + Lapse(c.netSkew, c.pingGap + c.readGap) <= c.lockTimeout
    && Lapse(c.netSkew, c.finalizeBy) <= c.lockTimeout
  }

  /** For timeouts that are long against the skew the bounds are T - 2N - G for pings and T - N for
      finalizing. */
  lemma LeasedForLongTimeouts(c: Config)
    requires c.lockTimeout >= 4 * c.netSkew
    ensures Leased(c) <==>
      && c.pingGap <= c.lockTimeout - 2 * c.netSkew - c.readGap
      && c.finalizeBy <= c.lockTimeout - c.netSkew
  {
  }

  lemma AttemptFacts(c: Config, s: State, cl: Client)
    requires Inv(c, s) && !At(s, cl).Idle?
    ensures AttemptOk(c, s, cl, At(s, cl))
  {
  }

  lemma AcqFacts(c: Config, s: State, ts: Oid)
    requires Inv(c, s) && ts in s.acqs
    ensures ts != NO_OID && 0 <= s.acqs[ts].casAt <= s.now
  {
  }

  lemma AskingSeen(c: Config, s: State, cl: Client)
    requires Inv(c, s) && At(s, cl).Asking?
    ensures SeenOk(s, At(s, cl).o)
  {
  }

  // ---------------------------------------------------------------- the decision to force

  lemma ReadingRunsAhead(startAt: Time, localTime: Time, endAt: Time, netSkew: nat)
    requires startAt <= localTime <= endAt <= startAt + 2 * netSkew
    ensures RemoteReading(localTime, endAt - startAt) <= startAt + netSkew
    ensures RemoteReading(localTime, endAt - startAt) <= endAt
  {
  }

  /** The heart of the protocol: a contender whose mark is not stale and whose elapsed time is over
      the timeout looks at a lock that is no longer live (or was finalized after it was seen). */
  lemma ElapsedMeansNotLive(c: Config, s: State, cl: Client, localTime: Time)
    requires Inv(c, s) && Timely(c, s) && Leased(c)
    requires cl in s.attempts && At(s, cl).Asking?
    requires At(s, cl).startAt <= localTime <= s.now
    requires s.now - At(s, cl).startAt <= 2 * c.netSkew
    requires var a := At(s, cl);
             var remote := RemoteReading(localTime, s.now - a.startAt);
             !MarkIsStale(a.o, a.ping, a.mark) && Elapsed(a.mark, remote) > c.lockTimeout
    ensures ForceOk(s, At(s, cl).o)
  {
    hide Inv, Lapse, RemoteReading, AcqsOk;
    AttemptFacts(c, s, cl);
    var Asking(o, _, ping, pingAt, mark, startAt) := At(s, cl);
    ReadingRunsAhead(startAt, localTime, s.now, c.netSkew);
    if Live(s, o.ts) {
      AcqFacts(c, s, o.ts);
      var delay := mark.endAt - mark.startAt;
      if o.state == 2 {
        LapseBounds(c.netSkew, delay, startAt - mark.startAt, c.pingGap + c.readGap);
      } else if s.acqs[o.ts].phase.Pending? {
        LapseBounds(c.netSkew, delay, s.now - mark.startAt, c.finalizeBy);
      }
    }
  }

  // ---------------------------------------------------------------- what steps leave in place

  predicate PhaseFollows(p: Phase, q: Phase) {
    p == q || q.Ended? || (p.Pending? && q.Held?)
  }

  /** Time, commits and acquisitions only grow, phases only move on, and only the acquisitions of
      `mover` move. */
  ghost predicate Extends(s: State, t: State, mover: Option<Client>) {
    && s.now <= t.now
    && (forall k | k in s.commits :: k in t.commits && t.commits[k] == s.commits[k])
    && (forall ts | ts in s.acqs ::
          && ts in t.acqs
          && t.acqs[ts].client == s.acqs[ts].client
          && t.acqs[ts].casAt == s.acqs[ts].casAt
          && PhaseFollows(s.acqs[ts].phase, t.acqs[ts].phase)
          && (mover != Some(s.acqs[ts].client) ==> t.acqs[ts] == s.acqs[ts]))
  }

  lemma ReadOkStays(s: State, t: State, m: Option<Client>, p: Process, ping: Time, pingAt: Time)
    requires PingsOk(s) && PingsOk(t) && Extends(s, t, m) && ReadOk(s, p, ping, pingAt)
    ensures ReadOk(t, p, ping, pingAt)
    ensures CommittedAt(t, p, ping) == CommittedAt(s, p, ping)
  {
  }

  lemma MarksStay(c: Config, s: State, t: State, m: Option<Client>, mark: Mark)
    requires PingsOk(s) && PingsOk(t) && Extends(s, t, m) && MarkOk(c, s, mark)
    ensures MarkOk(c, t, mark)
  {
  }

  /** A client that does not move keeps what it knows and what it holds. */
  lemma AttemptStays(c: Config, s: State, t: State, m: Option<Client>, cl: Client, a: Attempt)
    requires PingsOk(s) && PingsOk(t) && Extends(s, t, m) && AttemptOk(c, s, cl, a)
    requires m != Some(cl)
    ensures AttemptOk(c, t, cl, a)
  {
    match a
    case SawPing(o, _, ping, pingAt) =>
      ReadOkStays(s, t, m, o.process, ping, pingAt);
    case Asking(o, _, ping, pingAt, mark, startAt) =>
      ReadOkStays(s, t, m, o.process, ping, pingAt);
      MarksStay(c, s, t, m, mark);
    case _ =>
  }

  /** The frame argument: all of the invariant that a step of `m` does not touch. */
  lemma OthersStay(c: Config, s: State, t: State, m: Option<Client>)
    requires Inv(c, s) && PingsOk(t) && Extends(s, t, m)
    requires t.marks == s.marks && t.late == s.late
    requires forall cl | cl in t.attempts :: m == Some(cl) || (cl in s.attempts && t.attempts[cl] == s.attempts[cl])
    ensures MarksOk(c, t) && LateOk(t)
    ensures forall cl | cl in t.attempts && m != Some(cl) :: AttemptOk(c, t, cl, t.attempts[cl])
  {
    forall h | h in t.marks ensures MarkOk(c, t, t.marks[h]) {
      assert MarkOk(c, s, s.marks[h]);
      MarksStay(c, s, t, m, s.marks[h]);
    }
    forall e | e in t.late ensures EndedTs(t, e.1) {
      assert EndedTs(s, e.1);
    }
    forall cl | cl in t.attempts && m != Some(cl) ensures AttemptOk(c, t, cl, t.attempts[cl]) {
      assert AttemptOk(c, s, cl, s.attempts[cl]);
      AttemptStays(c, s, t, m, cl, s.attempts[cl]);
    }
  }

  // ---------------------------------------------------------------- steps keep the invariant

  lemma LiveStays(s: State, t: State)
    requires t.acqs == s.acqs && t.doc == s.doc && t.attempts == s.attempts
    ensures forall ts | Live(s, ts) && LiveOk(s, ts) :: LiveOk(t, ts)
  {
  }

  lemma TickKeeps(c: Config, s: State, d: nat)
    requires Inv(c, s)
    ensures Inv(c, s.(now := s.now + d))
  {
    var t := s.(now := s.now + d);
    OthersStay(c, s, t, None);
    LiveStays(s, t);
  }

  lemma PingKeeps(c: Config, s: State, p: Process, v: Time)
    requires Inv(c, s) && Enabled(s, PingCommit(p, v))
    ensures Inv(c, s.(pings := s.pings[p := v], commits := s.commits[(p, v) := s.now]))
  {
    var t := s.(pings := s.pings[p := v], commits := s.commits[(p, v) := s.now]);
    OthersStay(c, s, t, None);
    LiveStays(s, t);
  }

  lemma CleanupKeeps(c: Config, s: State, p: Process)
    requires Inv(c, s)
    ensures Inv(c, s.(pings := s.pings - {p}))
  {
    var t := s.(pings := s.pings - {p});
    OthersStay(c, s, t, None);
    LiveStays(s, t);
  }

  lemma ResetKeeps(c: Config, s: State, host: nat)
    requires Inv(c, s)
    ensures Inv(c, ResetMark(s, host))
  {
    var t := ResetMark(s, host);
    forall cl | cl in t.attempts ensures AttemptOk(c, t, cl, t.attempts[cl]) {
      assert AttemptOk(c, s, cl, s.attempts[cl]);
      AttemptStays(c, s, t, None, cl, s.attempts[cl]);
    }
    forall h | h in t.marks ensures MarkOk(c, t, t.marks[h]) {
      if h != host {
        MarksStay(c, s, t, None, s.marks[h]);
      }
    }
    forall ts | ts in t.acqs && Live(t, ts) ensures LiveOk(t, ts) {
      assert LiveOk(s, ts);
    }
  }

  predicate Owning(a: Attempt) {
    a.Finalizing? || a.ReadingBack? || a.Holding?
  }

  /** A client that owns nothing moves to a place whose facts hold. */
  lemma MoveKeeps(c: Config, s: State, cl: Client, a: Attempt)
    requires Inv(c, s) && !Owning(At(s, cl)) && AttemptOk(c, s, cl, a)
    ensures Inv(c, To(s, cl, a))
  {
    var t := To(s, cl, a);
    OthersStay(c, s, t, Some(cl));
    AttemptStays(c, s, t, None, cl, a);
    forall ts | ts in t.acqs && Live(t, ts) ensures LiveOk(t, ts) {
      assert LiveOk(s, ts);
    }
  }

  lemma StepFindLock(c: Config, s: State, cl: Client, reenter: bool)
    requires Inv(c, s) && Enabled(s, FindLock(cl, reenter))
    ensures Inv(c, Apply(c, s, FindLock(cl, reenter)))
  {
    if s.doc.None? {
      MoveKeeps(c, s, cl, Inserting);
    } else {
      var o := s.doc.value;
      if o.state > 0 {
        if Live(s, o.ts) {
          assert LiveOk(s, o.ts);
        }
        var canReenter := reenter && o.process == cl.proc && (cl.host, o.ts) !in s.late && o.state == 2;
        if reenter && !canReenter {
          ResetKeeps(c, s, cl.host);
        } else {
          MoveKeeps(c, s, cl, SawLock(o, canReenter));
        }
      } else {
        MoveKeeps(c, s, cl, Grabbing(o.ts));
        ResetKeeps(c, To(s, cl, Grabbing(o.ts)), cl.host);
      }
    }
  }

  lemma StepInsert(c: Config, s: State, cl: Client)
    requires Inv(c, s) && Enabled(s, InsertInitial(cl))
    ensures Inv(c, Apply(c, s, InsertInitial(cl)))
  {
    var t := if s.doc.None? then s.(doc := Some(LockDoc(0, NO_OID, ""))) else s;
    OthersStay(c, s, t, None);
    forall ts | ts in t.acqs && Live(t, ts) ensures LiveOk(t, ts) {
      assert LiveOk(s, ts);
    }
    MoveKeeps(c, t, cl, Grabbing(NO_OID));
    ResetKeeps(c, To(t, cl, Grabbing(NO_OID)), cl.host);
  }

  lemma StepFindPing(c: Config, s: State, cl: Client)
    requires Inv(c, s) && Timely(c, s) && Enabled(s, FindPing(cl))
    ensures Inv(c, Apply(c, s, FindPing(cl)))
  {
    var SawLock(o, canReenter) := At(s, cl);
    AttemptFacts(c, s, cl);
    var ping := PingOf(s, o.process);
    assert o.process in s.pings ==> (o.process, s.pings[o.process]) in s.commits;
    assert (o.process, 0) in s.commits ==> (o.process, 0).1 > 0;
    MoveKeeps(c, s, cl, SawPing(o, canReenter, ping, s.now));
  }

  lemma StepRemoteStart(c: Config, s: State, cl: Client)
    requires Inv(c, s) && Enabled(s, RemoteStart(cl))
    ensures Inv(c, Apply(c, s, RemoteStart(cl)))
  {
    var SawPing(o, canReenter, ping, pingAt) := At(s, cl);
    AttemptFacts(c, s, cl);
    var mark := MarkOf(s, cl.host);
    assert MarkOk(c, s, mark);
    MoveKeeps(c, s, cl, Asking(o, canReenter, ping, pingAt, mark, s.now));
  }

  lemma NewMarkKeeps(c: Config, s: State, host: nat, mark: Mark)
    requires Inv(c, s) && MarkOk(c, s, mark)
    ensures Inv(c, s.(marks := s.marks[host := mark]))
  {
    var t := s.(marks := s.marks[host := mark]);
    forall cl | cl in t.attempts ensures AttemptOk(c, t, cl, t.attempts[cl]) {
      assert AttemptOk(c, s, cl, s.attempts[cl]);
      AttemptStays(c, s, t, None, cl, s.attempts[cl]);
    }
    forall h | h in t.marks ensures MarkOk(c, t, t.marks[h]) {
      MarksStay(c, s, t, None, if h == host then mark else s.marks[h]);
    }
    forall ts | ts in t.acqs && Live(t, ts) ensures LiveOk(t, ts) {
      assert LiveOk(s, ts);
    }
  }

  lemma StepRemoteFail(c: Config, s: State, cl: Client)
    requires Inv(c, s) && At(s, cl).Asking?
    ensures Inv(c, ApplyRemote(c, s, cl, None))
  {
    hide Inv;
    AskingSeen(c, s, cl);
    var Asking(o, canReenter, _, _, _, _) := At(s, cl);
    var a := if canReenter then Reentering(o) else Idle;
    MoveKeeps(c, s, cl, a);
    ResetKeeps(c, To(s, cl, a), cl.host);
  }

  /** The mark a stale comparison leaves behind is within the network skew of the call's start. */
  lemma MarkAfterReading(c: Config, s: State, cl: Client, localTime: Time)
    requires Inv(c, s) && Enabled(s, RemoteFinish(cl, localTime))
    requires s.now - At(s, cl).startAt <= 2 * c.netSkew
    ensures var a := At(s, cl);
            MarkOk(c, s, Mark(a.o.process, a.ping, RemoteReading(localTime, s.now - a.startAt), a.o.ts, a.pingAt, a.startAt, s.now))
  {
  }

  /** Marking does not disturb what a contender knows. */
  lemma Decide(c: Config, s: State, marked: State, cl: Client, a: Attempt)
    requires Inv(c, s) && Inv(c, marked) && marked == s.(marks := marked.marks)
    requires At(s, cl).Asking?
    requires a.Idle? || (a.Reentering? && SeenOk(s, a.o)) || (a.Forcing? && ForceOk(s, a.o))
    ensures Inv(c, To(marked, cl, a)) && Inv(c, ResetMark(To(marked, cl, a), cl.host))
  {
    hide Inv;
    MoveKeeps(c, marked, cl, a);
    ResetKeeps(c, To(marked, cl, a), cl.host);
  }

  lemma StepRemoteFinish(c: Config, s: State, cl: Client, localTime: Time)
    requires Inv(c, s) && Timely(c, s) && Leased(c) && Enabled(s, RemoteFinish(cl, localTime))
    ensures Inv(c, Apply(c, s, RemoteFinish(cl, localTime)))
  {
    hide Inv;
    var Asking(o, canReenter, ping, pingAt, mark, startAt) := At(s, cl);
    var delay := s.now - startAt;
    AskingSeen(c, s, cl);
    if delay > 2 * c.netSkew {
      StepRemoteFail(c, s, cl);
    } else {
      var remote := RemoteReading(localTime, delay);
      if MarkIsStale(o, ping, mark) {
        var next := Mark(o.process, ping, remote, o.ts, pingAt, startAt, s.now);
        MarkAfterReading(c, s, cl, localTime);
        NewMarkKeeps(c, s, cl.host, next);
        Decide(c, s, s.(marks := s.marks[cl.host := next]), cl, if canReenter then Reentering(o) else Idle);
      } else if Elapsed(mark, remote) > c.lockTimeout {
        ElapsedMeansNotLive(c, s, cl, localTime);
        Decide(c, s, s, cl, if canReenter then Idle else Forcing(o));
      } else {
        Decide(c, s, s, cl, if canReenter then Reentering(o) else Idle);
      }
    }
  }

  /** Releasing a document whose acquisition has ended. */
  lemma ReleaseKeeps(c: Config, s: State, matched: bool)
    requires Inv(c, s)
    requires matched && s.doc.Some? ==> s.doc.value.ts == NO_OID || EndedTs(s, s.doc.value.ts)
    ensures Inv(c, Release(s, matched))
  {
    var t := Release(s, matched);
    OthersStay(c, s, t, None);
    forall ts | ts in t.acqs && Live(t, ts) ensures LiveOk(t, ts) {
      assert LiveOk(s, ts);
    }
  }

  /** A matching force would hit only an ended acquisition. */
  lemma ForceHitsEnded(s: State, o: LockDoc)
    requires AcqsOk(s) && ForceOk(s, o) && ForceMatches(s, o)
    ensures EndedTs(s, o.ts)
  {
  }

  lemma StepForce(c: Config, s: State, step: Step)
    requires Inv(c, s) && Enabled(s, step) && step.Force?
    ensures Inv(c, Apply(c, s, step))
  {
    var cl := step.cl;
    AttemptFacts(c, s, cl);
    var matched := step.applied && ForceMatches(s, At(s, cl).o);
    if matched {
      ForceHitsEnded(s, At(s, cl).o);
    }
    ReleaseKeeps(c, s, matched);
    var t := Release(s, matched);
    var a := if step.out.Confirmed? then Grabbing(NO_OID) else Idle;
    MoveKeeps(c, t, cl, a);
    ResetKeeps(c, To(t, cl, a), cl.host);
  }

  /** A winning update opens a new acquisition: the document was open, so none was live. */
  lemma Grabbed(c: Config, s: State, cl: Client, ts: Oid, out: Outcome)
    requires Inv(c, s) && Enabled(s, Grab(cl, ts, true, out)) && GrabMatches(s, At(s, cl).want)
    ensures Inv(c, ApplyGrab(s, cl, ts, true, out))
  {
    assert forall u :: !Live(s, u) by {
      assert forall u | Live(s, u) :: LiveOk(s, u);
    }
    OthersStay(c, s, ApplyGrab(s, cl, ts, true, out), Some(cl));
  }

  lemma StepGrab(c: Config, s: State, step: Step)
    requires Inv(c, s) && Enabled(s, step) && step.Grab?
    ensures Inv(c, Apply(c, s, step))
  {
    hide Inv;
    var Grab(cl, ts, applied, out) := step;
    if applied && GrabMatches(s, At(s, cl).want) {
      Grabbed(c, s, cl, ts, out);
    } else {
      MoveKeeps(c, s, cl, Idle);
    }
  }

  function Owned(a: Attempt): Oid
    requires Owning(a)
  {
    a.ts
  }

  /** A client between its winning update and its unlock: its acquisition is live, owns the
      document, and is the only live one. */
  lemma OwnerIsAlone(c: Config, s: State, cl: Client)
    requires Inv(c, s) && Owning(At(s, cl))
    ensures var ts := Owned(At(s, cl));
            && Live(s, ts) && s.acqs[ts].client == cl && LiveOk(s, ts)
            && forall u :: Live(s, u) ==> u == ts
  {
  }

  /** Queueing an ended ts for a late unlock, or dropping one. */
  lemma LateKeeps(c: Config, s: State, late: set<(nat, Oid)>)
    requires Inv(c, s) && LateOk(s.(late := late))
    ensures Inv(c, s.(late := late))
  {
    var t := s.(late := late);
    forall k | k in t.attempts ensures AttemptOk(c, t, k, t.attempts[k]) {
      assert AttemptOk(c, s, k, s.attempts[k]);
      AttemptStays(c, s, t, None, k, s.attempts[k]);
    }
    forall h | h in t.marks ensures MarkOk(c, t, t.marks[h]) {
      MarksStay(c, s, t, None, s.marks[h]);
    }
    assert forall u | Live(t, u) :: Live(s, u) && LiveOk(s, u) && LiveOk(t, u);
  }

  lemma QueueKeeps(c: Config, s: State, host: nat, ts: Oid)
    requires Inv(c, s) && EndedTs(s, ts)
    ensures Inv(c, s.(late := s.late + {(host, ts)}))
  {
    var t := s.(late := s.late + {(host, ts)});
    forall e | e in t.late ensures EndedTs(t, e.1) {
      assert e in s.late ==> EndedTs(s, e.1);
    }
    LateKeeps(c, s, t.late);
  }

  /** The owner's acquisition ends, and with it the only live one. */
  lemma EndKeeps(c: Config, s: State, cl: Client, a: Attempt)
    requires Inv(c, s) && Owning(At(s, cl))
    requires a.Idle? || (a.Unlocking? && a.freed == Owned(At(s, cl)) && a.tries == 0)
    ensures var t := To(SetPhase(s, Owned(At(s, cl)), Ended), cl, a);
            Inv(c, t) && forall u :: !Live(t, u)
  {
    OwnerIsAlone(c, s, cl);
    var t := To(SetPhase(s, Owned(At(s, cl)), Ended), cl, a);
    OthersStay(c, s, t, Some(cl));
  }

  /** While no acquisition is live, any well-formed document will do. */
  lemma FreeDocKeeps(c: Config, s: State, doc: Option<LockDoc>)
    requires Inv(c, s) && (forall u :: !Live(s, u)) && DocOk(s.(doc := doc))
    ensures Inv(c, s.(doc := doc))
  {
    OthersStay(c, s, s.(doc := doc), None);
  }

  /** A confirmed finalize writes over nobody else's document. */
  lemma FinalizeConfirmed(c: Config, s: State, cl: Client)
    requires Inv(c, s) && Enabled(s, Finalize(cl, true, Confirmed))
    ensures Inv(c, Apply(c, s, Finalize(cl, true, Confirmed)))
  {
    OwnerIsAlone(c, s, cl);
    OthersStay(c, s, Apply(c, s, Finalize(cl, true, Confirmed)), Some(cl));
  }

  lemma FinalDocOk(c: Config, s: State, cl: Client, doc: LockDoc)
    requires Inv(c, s) && At(s, cl).Finalizing? && doc == LockDoc(2, At(s, cl).ts, cl.proc)
    ensures DocOk(To(SetPhase(s, At(s, cl).ts, Ended), cl, Idle).(doc := Some(doc)))
    ensures EndedTs(To(SetPhase(s, At(s, cl).ts, Ended), cl, Idle), At(s, cl).ts)
    ensures At(s, cl).ts != NO_OID
  {
  }

  lemma StepFinalize(c: Config, s: State, step: Step)
    requires Inv(c, s) && Enabled(s, step) && step.Finalize?
    ensures Inv(c, Apply(c, s, step))
  {
    hide Inv, DocOk;
    var Finalize(cl, applied, out) := step;
    if out.Confirmed? {
      FinalizeConfirmed(c, s, cl);
    } else {
      var ts := At(s, cl).ts;
      EndKeeps(c, s, cl, Idle);
      FinalDocOk(c, s, cl, LockDoc(2, ts, cl.proc));
      var u := To(SetPhase(s, ts, Ended), cl, Idle);
      var final := Some(LockDoc(2, ts, cl.proc));
      if applied && s.doc.Some? {
        FreeDocKeeps(c, u, final);
        QueueKeeps(c, u.(doc := final), cl.host, ts);
      } else {
        QueueKeeps(c, u, cl.host, ts);
      }
    }
  }

  lemma StepReadBack(c: Config, s: State, cl: Client, threw: bool)
    requires Inv(c, s) && Enabled(s, ReadBack(cl, threw))
    ensures Inv(c, Apply(c, s, ReadBack(cl, threw)))
  {
    OwnerIsAlone(c, s, cl);
    var ts := At(s, cl).ts;
    if threw {
      EndKeeps(c, s, cl, Idle);
      QueueKeeps(c, To(SetPhase(s, ts, Ended), cl, Idle), cl.host, ts);
    } else {
      OthersStay(c, s, To(s, cl, Holding(ts, s.doc.value)), Some(cl));
    }
  }

  lemma StepUnlockTry(c: Config, s: State, step: Step)
    requires Inv(c, s) && Enabled(s, step) && step.UnlockTry?
    ensures Inv(c, Apply(c, s, step))
  {
    hide Inv;
    var UnlockTry(cl, applied, out) := step;
    AttemptFacts(c, s, cl);
    var Unlocking(freed, tries) := At(s, cl);
    ReleaseKeeps(c, s, applied && DocHasTs(s, freed));
    var t := Release(s, applied && DocHasTs(s, freed));
    if out.Confirmed? {
      MoveKeeps(c, t, cl, Idle);
    } else if tries + 1 < MAX_UNLOCK_ATTEMPTS {
      MoveKeeps(c, t, cl, Unlocking(freed, tries + 1));
    } else {
      QueueKeeps(c, t, cl.host, freed);
      MoveKeeps(c, t.(late := t.late + {(cl.host, freed)}), cl, Idle);
    }
  }

  lemma LateFacts(c: Config, s: State, host: nat, ts: Oid)
    requires Inv(c, s) && (host, ts) in s.late
    ensures EndedTs(s, ts) && LateOk(s)
  {
  }

  lemma StepLateUnlock(c: Config, s: State, step: Step)
    requires Inv(c, s) && Enabled(s, step) && step.LateUnlock?
    ensures Inv(c, Apply(c, s, step))
  {
    hide Inv;
    var LateUnlock(host, ts, applied, removed) := step;
    LateFacts(c, s, host, ts);
    ReleaseKeeps(c, s, applied && DocHasTs(s, ts));
    var t := Release(s, applied && DocHasTs(s, ts));
    LateFacts(c, t, host, ts);
    assert LateOk(t.(late := t.late - {(host, ts)}));
    LateKeeps(c, t, t.late - {(host, ts)});
  }

  lemma StepCrash(c: Config, s: State, cl: Client)
    requires Inv(c, s) && Enabled(s, Crash(cl))
    ensures Inv(c, Apply(c, s, Crash(cl)))
  {
    hide Inv;
    if Owning(At(s, cl)) {
      EndKeeps(c, s, cl, Idle);
    } else {
      MoveKeeps(c, s, cl, Idle);
    }
  }

  lemma StepUnlockStart(c: Config, s: State, cl: Client)
    requires Inv(c, s) && Enabled(s, UnlockStart(cl))
    ensures Inv(c, Apply(c, s, UnlockStart(cl)))
  {
    AttemptFacts(c, s, cl);
    var Holding(ts, other) := At(s, cl);
    OwnerIsAlone(c, s, cl);
    EndKeeps(c, s, cl, Unlocking(ts, 0));
  }

  /** Every step from a timely state keeps the invariant. */
  lemma StepKeeps(c: Config, s: State, step: Step)
    requires Inv(c, s) && Timely(c, s) && Leased(c) && Enabled(s, step)
    ensures Inv(c, Apply(c, s, step))
  {
    hide Inv;
    match step
    case FindLock(cl, reenter) => StepFindLock(c, s, cl, reenter);
    case InsertInitial(cl) => StepInsert(c, s, cl);
    case FindPing(cl) => StepFindPing(c, s, cl);
    case RemoteStart(cl) => StepRemoteStart(c, s, cl);
    case RemoteFinish(cl, localTime) => StepRemoteFinish(c, s, cl, localTime);
    case RemoteFail(cl) => StepRemoteFail(c, s, cl);
    case Force(_, _, _) => StepForce(c, s, step);
    case Reenter(cl, _) => MoveKeeps(c, s, cl, Idle);
    case Grab(_, _, _, _) => StepGrab(c, s, step);
    case Finalize(_, _, _) => StepFinalize(c, s, step);
    case ReadBack(cl, threw) => StepReadBack(c, s, cl, threw);
    case UnlockStart(cl) => StepUnlockStart(c, s, cl);
    case UnlockTry(_, _, _) => StepUnlockTry(c, s, step);
    case LateUnlock(_, _, _, _) => StepLateUnlock(c, s, step);
    case Crash(cl) => StepCrash(c, s, cl);
    case Tick(d) => TickKeeps(c, s, d);
    case PingCommit(p, v) => PingKeeps(c, s, p, v);
    case PingCleanup(p) => CleanupKeeps(c, s, p);
  }
}
