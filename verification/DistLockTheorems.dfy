/** The main results about the lock protocol: what holds of every timely run, and exactly which
    timing bounds make it hold. */
module DistLockTheorems {
  import opened Wrappers
  import opened DistLock
  import opened DistLockSafety

  ghost predicate Reachable(c: Config, s: State) {
    exists s0, steps :: Init(s0) && TimelyRun(c, s0, steps) && After(c, s0, steps) == s
  }

  /** A step that changes a live acquisition's document is that acquisition's own finalize. */
  ghost predicate RespectsLive(c: Config, s: State, step: Step)
    requires Enabled(s, step)
  {
    forall ts | Live(s, ts) ::
      Apply(c, s, step).doc == s.doc || (step.Finalize? && At(s, step.cl) == Finalizing(ts))
  }

  /** No timely run ever takes the lock document away from a live acquisition. */
  ghost predicate Safe(c: Config) {
    forall s, step | Reachable(c, s) && Timely(c, s) && Enabled(s, step) :: RespectsLive(c, s, step)
  }

  // ---------------------------------------------------------------- timely runs keep the invariant

  lemma {:induction false} RunKeeps(c: Config, s: State, steps: seq<Step>)
    requires Leased(c) && Inv(c, s) && TimelyRun(c, s, steps)
    ensures Inv(c, After(c, s, steps))
    decreases |steps|
  {
    hide Inv;
    if steps != [] {
      StepKeeps(c, s, steps[0]);
      RunKeeps(c, Apply(c, s, steps[0]), steps[1..]);
    }
  }

  lemma ReachableInv(c: Config, s: State)
    requires Leased(c) && Reachable(c, s)
    ensures Inv(c, s)
  {
    var s0, steps :| Init(s0) && TimelyRun(c, s0, steps) && After(c, s0, steps) == s;
    assert Inv(c, s0);
    RunKeeps(c, s0, steps);
  }

  /** Mutual exclusion: in every timely run at most one client is between its winning update and
      its unlock; the document is then that acquisition's, in state 2 once it is finalized, and the
      lock document that client will later unlock with is its own. */
  lemma MutualExclusion(c: Config, s: State, cl: Client, cl': Client)
    requires Leased(c) && Reachable(c, s)
    requires Owning(At(s, cl)) && Owning(At(s, cl'))
    ensures cl == cl'
    ensures var a := At(s, cl);
            && s.doc == Some(LockDoc(if a.Finalizing? then 1 else 2, Owned(a), cl.proc))
            && (a.Holding? ==> s.doc == Some(a.other))
  {
    ReachableInv(c, s);
    OwnerIsAlone(c, s, cl);
    OwnerIsAlone(c, s, cl');
  }

  /** Every release that any client ever sends in a timely run, from a force, an unlock, a retry
      or a late unlock, names a ts that is not live or would not match the document any more. */
  lemma ReleasesAreHarmless(c: Config, s: State, step: Step)
    requires Leased(c) && Reachable(c, s) && Timely(c, s) && Enabled(s, step)
    ensures step.Force? && ForceMatches(s, At(s, step.cl).o) ==> EndedTs(s, At(s, step.cl).o.ts)
    ensures step.UnlockTry? ==> EndedTs(s, At(s, step.cl).freed)
    ensures step.LateUnlock? ==> EndedTs(s, step.ts)
    ensures step.Finalize? ==> DocHasTs(s, At(s, step.cl).ts)
  {
    ReachableInv(c, s);
    match step
    case Force(cl, _, _) =>
      AttemptFacts(c, s, cl);
      if ForceMatches(s, At(s, cl).o) {
        ForceHitsEnded(s, At(s, cl).o);
      }
    case UnlockTry(cl, _, _) => AttemptFacts(c, s, cl);
    case LateUnlock(host, ts, _, _) => LateFacts(c, s, host, ts);
    case Finalize(cl, _, _) => OwnerIsAlone(c, s, cl);
    case _ =>
  }

  /** A step sent by or for somebody else leaves the document of a live acquisition alone. */
  lemma LiveDocStays(c: Config, s: State, step: Step, ts: Oid)
    requires Enabled(s, step) && Live(s, ts) && LiveOk(s, ts)
    requires step.Force? && ForceMatches(s, At(s, step.cl).o) ==> EndedTs(s, At(s, step.cl).o.ts)
    requires step.UnlockTry? ==> EndedTs(s, At(s, step.cl).freed)
    requires step.LateUnlock? ==> EndedTs(s, step.ts)
    requires step.Finalize? ==> At(s, step.cl) == Finalizing(ts)
    ensures Apply(c, s, step).doc == s.doc || (step.Finalize? && At(s, step.cl) == Finalizing(ts))
  {
    match step
    case Force(_, _, _) =>
    case Grab(_, _, _, _) =>
    case Finalize(_, _, _) =>
    case UnlockTry(_, _, _) =>
    case LateUnlock(_, _, _, _) =>
    case _ => DocUntouched(c, s, step);
  }

  lemma DocUntouched(c: Config, s: State, step: Step)
    requires Enabled(s, step) && s.doc.Some?
    requires !step.Force? && !step.Grab? && !step.Finalize? && !step.UnlockTry? && !step.LateUnlock?
    ensures Apply(c, s, step).doc == s.doc
  {
    hide MarkIsStale, Elapsed;
  }

  lemma LiveFacts(c: Config, s: State, ts: Oid)
    requires Inv(c, s) && Live(s, ts)
    ensures LiveOk(s, ts)
  {
  }

  lemma LeasedRespects(c: Config, s: State, step: Step)
    requires Leased(c) && Reachable(c, s) && Timely(c, s) && Enabled(s, step)
    ensures RespectsLive(c, s, step)
  {
    hide Reachable, Timely, Inv, Apply;
    ReleasesAreHarmless(c, s, step);
    ReachableInv(c, s);
    forall ts | Live(s, ts)
      ensures Apply(c, s, step).doc == s.doc || (step.Finalize? && At(s, step.cl) == Finalizing(ts))
    {
      LiveFacts(c, s, ts);
      if step.Finalize? {
        OwnerIsAlone(c, s, step.cl);
      }
      LiveDocStays(c, s, step, ts);
    }
  }

  // ---------------------------------------------------------------- the bounds are exact

  lemma {:induction false} Extend(c: Config, s0: State, steps: seq<Step>, step: Step)
    requires TimelyRun(c, s0, steps)
    requires Timely(c, After(c, s0, steps)) && Enabled(After(c, s0, steps), step)
    ensures TimelyRun(c, s0, steps + [step])
    ensures After(c, s0, steps + [step]) == Apply(c, After(c, s0, steps), step)
    decreases |steps|
  {
    var all := steps + [step];
    if steps == [] {
      assert all[1..] == [];
    } else {
      assert all[1..] == steps[1..] + [step];
      Extend(c, Apply(c, s0, steps[0]), steps[1..], step);
    }
  }

  lemma Go(c: Config, s: State, step: Step, t: State)
    requires Reachable(c, s) && Timely(c, s) && Enabled(s, step) && t == Apply(c, s, step)
    ensures Reachable(c, t)
  {
    var s0, steps :| Init(s0) && TimelyRun(c, s0, steps) && After(c, s0, steps) == s;
    Extend(c, s0, steps, step);
  }

  const OWNER := Client(0, 0, "owner")
  // Two threads of one process, which share a recorded ping check.
  const RIVAL := Client(1, 1, "rival")
  const SECOND := Client(2, 1, "rival")

  function Thread(second: bool): Client { if second then SECOND else RIVAL }

  /** Before anything is acquired: the rivals have come and gone, the owner may be about to grab. */
  ghost function Opening(at: Time, doc: Option<LockDoc>, attempts: map<Client, Attempt>, marks: map<nat, Mark>): State {
    State(at, doc, map[], map[], attempts, marks, {}, map[])
  }

  /** The owner, whose acquisition has ts 1, the rivals, and (if positive) the last ping of the
      owner. */
  datatype Duel = Duel(now: Time, state: int, ping: Time, pings: map<(Process, Time), Time>,
                       owner: Attempt, rival: Attempt, second: Attempt, mark: Mark, casAt: Time, phase: Phase)

  function Contender(d: Duel, second: bool): Attempt { if second then d.second else d.rival }

  function With(d: Duel, second: bool, a: Attempt): Duel {
    if second then d.(second := a) else d.(rival := a)
  }

  ghost function Scene(d: Duel): State {
    State(d.now, Some(LockDoc(d.state, 1, "owner")),
          if d.ping > 0 then map["owner" := d.ping] else map[], d.pings,
          map[OWNER := d.owner, RIVAL := d.rival, SECOND := d.second], map[0 := NO_MARK, 1 := d.mark], {},
          map[1 := Acquisition(OWNER, d.casAt, d.phase)])
  }

  function LastPing(d: Duel): Time {
    if ("owner", d.ping) in d.pings then d.pings[("owner", d.ping)] else 0
  }

  predicate AsksInTime(c: Config, a: Attempt) {
    a.Asking? ==> a.startAt - a.pingAt <= c.readGap
  }

  /** The timing assumptions, for a scene. */
  predicate OnTime(c: Config, d: Duel) {
    && (d.phase.Pending? ==> d.now <= d.casAt + c.finalizeBy)
    && (d.phase.Held? ==> d.now <= Max(LastPing(d), d.casAt) + c.pingGap)
    && AsksInTime(c, d.rival) && AsksInTime(c, d.second)
    && !d.owner.Asking? && d.ping >= 0
  }

  lemma OnTimeIsTimely(c: Config, d: Duel)
    requires OnTime(c, d)
    ensures Timely(c, Scene(d))
  {
  }

  const OPEN_DOC := Some(LockDoc(0, NO_OID, ""))

  lemma StartIsReachable(c: Config, at: Time)
    requires at >= 0
    ensures Reachable(c, Opening(at, None, map[], map[]))
  {
    var s0 := Opening(at, None, map[], map[]);
    assert TimelyRun(c, s0, []) && After(c, s0, []) == s0;
  }

  lemma RivalOpens(c: Config, at: Time)
    requires at >= 0
    ensures Reachable(c, Opening(at, OPEN_DOC, map[RIVAL := Idle], map[1 := NO_MARK]))
  {
    hide Reachable;
    StartIsReachable(c, at);
    var s1 := Opening(at, None, map[RIVAL := Inserting], map[]);
    Go(c, Opening(at, None, map[], map[]), FindLock(RIVAL, false), s1);
    var s2 := Opening(at, OPEN_DOC, map[RIVAL := Grabbing(NO_OID)], map[1 := NO_MARK]);
    Go(c, s1, InsertInitial(RIVAL), s2);
    Go(c, s2, Crash(RIVAL), Opening(at, OPEN_DOC, map[RIVAL := Idle], map[1 := NO_MARK]));
  }

  lemma RivalsOpen(c: Config, at: Time)
    requires at >= 0
    ensures Reachable(c, Opening(at, OPEN_DOC, map[RIVAL := Idle, SECOND := Idle], map[1 := NO_MARK]))
  {
    hide Reachable;
    RivalOpens(c, at);
    var s3 := Opening(at, OPEN_DOC, map[RIVAL := Idle], map[1 := NO_MARK]);
    var s4 := Opening(at, OPEN_DOC, map[RIVAL := Idle, SECOND := Grabbing(NO_OID)], map[1 := NO_MARK]);
    Go(c, s3, FindLock(SECOND, false), s4);
    Go(c, s4, Crash(SECOND), Opening(at, OPEN_DOC, map[RIVAL := Idle, SECOND := Idle], map[1 := NO_MARK]));
  }

  ghost function OwnerReady(at: Time): State {
    Opening(at, OPEN_DOC, map[OWNER := Grabbing(NO_OID), RIVAL := Idle, SECOND := Idle], map[0 := NO_MARK, 1 := NO_MARK])
  }

  lemma OwnerLooks(c: Config, at: Time)
    requires at >= 0
    ensures Reachable(c, OwnerReady(at))
  {
    hide Reachable;
    RivalsOpen(c, at);
    var s3 := Opening(at, OPEN_DOC, map[RIVAL := Idle, SECOND := Idle], map[1 := NO_MARK]);
    Go(c, s3, FindLock(OWNER, false), OwnerReady(at));
  }

  lemma OwnerGrabs(c: Config, at: Time)
    requires at >= 0
    ensures Reachable(c, Scene(Duel(at, 1, 0, map[], Finalizing(1), Idle, Idle, NO_MARK, at, Pending)))
  {
    hide Reachable;
    OwnerLooks(c, at);
    Go(c, OwnerReady(at), Grab(OWNER, 1, true, Confirmed),
       Scene(Duel(at, 1, 0, map[], Finalizing(1), Idle, Idle, NO_MARK, at, Pending)));
  }

  /** A rival moves. */
  lemma SceneTo(d: Duel, second: bool, a: Attempt)
    ensures Scene(With(d, second, a)) == To(Scene(d), Thread(second), a)
    ensures At(Scene(d), Thread(second)) == Contender(d, second)
    ensures MarkOf(Scene(d), 1) == d.mark
    ensures PingOf(Scene(d), "owner") == Max(d.ping, 0)
  {
  }

  /** A rival reads the set lock and its ping. */
  lemma RivalAsks(c: Config, d: Duel, second: bool) returns (e: Duel)
    requires Reachable(c, Scene(d)) && OnTime(c, d)
    requires Contender(d, second).Idle? && 1 <= d.state <= 2
    ensures e == With(d, second, SawPing(LockDoc(d.state, 1, "owner"), false, d.ping, d.now))
    ensures Reachable(c, Scene(e)) && OnTime(c, e)
  {
    hide Reachable, Scene, To;
    OnTimeIsTimely(c, d);
    var o := LockDoc(d.state, 1, "owner");
    var d1 := With(d, second, SawLock(o, false));
    e := With(d, second, SawPing(o, false, d.ping, d.now));
    OnTimeIsTimely(c, d1);
    hide Timely;
    RivalFinds(c, d, second);
    Go(c, Scene(d), FindLock(Thread(second), false), Scene(d1));
    SceneTo(d1, second, SawPing(o, false, d.ping, d.now));
    SceneFacts(d1);
    assert With(d1, second, e.second) == e || With(d1, second, e.rival) == e;
    Go(c, Scene(d1), FindPing(Thread(second)), Scene(e));
  }

  lemma SceneFacts(d: Duel)
    ensures Scene(d).now == d.now && Scene(d).doc == Some(LockDoc(d.state, 1, "owner"))
  {
  }

  lemma RivalFinds(c: Config, d: Duel, second: bool)
    requires Contender(d, second).Idle? && 1 <= d.state <= 2
    ensures Enabled(Scene(d), FindLock(Thread(second), false))
    ensures Apply(c, Scene(d), FindLock(Thread(second), false)) ==
      Scene(With(d, second, SawLock(LockDoc(d.state, 1, "owner"), false)))
  {
  }

  lemma TimePasses(c: Config, d: Duel, ms: nat)
    requires Reachable(c, Scene(d)) && OnTime(c, d)
    ensures Reachable(c, Scene(d.(now := d.now + ms)))
  {
    hide Reachable, Timely;
    OnTimeIsTimely(c, d);
    Go(c, Scene(d), Tick(ms), Scene(d.(now := d.now + ms)));
  }

  /** A rival's `remoteTime` call starts now, and ends with the reading of a server that sampled its
      clock at `localTime` in between. */
  lemma RivalStarts(c: Config, d: Duel, second: bool) returns (e: Duel)
    requires Reachable(c, Scene(d)) && OnTime(c, d)
    requires Contender(d, second).SawPing?
    ensures var a := Contender(d, second);
            e == With(d, second, Asking(a.o, a.canReenter, a.ping, a.pingAt, d.mark, d.now))
    ensures Reachable(c, Scene(e))
  {
    hide Reachable, Timely, Scene, To;
    OnTimeIsTimely(c, d);
    var a := Contender(d, second);
    var next := Asking(a.o, a.canReenter, a.ping, a.pingAt, d.mark, d.now);
    e := With(d, second, next);
    SceneTo(d, second, next);
    SceneFacts(d);
    Go(c, Scene(d), RemoteStart(Thread(second)), Scene(e));
  }

  /** First look: the mark is set and the rival gives up for now. */
  lemma RivalMarks(c: Config, d: Duel, localTime: Time)
    requires Reachable(c, Scene(d)) && OnTime(c, d) && d.rival.Asking? && !d.rival.canReenter
    requires d.rival.startAt <= localTime <= d.now && d.now - d.rival.startAt <= 2 * c.netSkew
    requires MarkIsStale(d.rival.o, d.rival.ping, d.rival.mark)
    ensures var a := d.rival;
            var reading := RemoteReading(localTime, d.now - a.startAt);
            var mark := Mark(a.o.process, a.ping, reading, a.o.ts, a.pingAt, a.startAt, d.now);
            Reachable(c, Scene(d.(rival := Idle, mark := mark)))
  {
    hide Reachable, Timely;
    OnTimeIsTimely(c, d);
    var a := d.rival;
    var reading := RemoteReading(localTime, d.now - a.startAt);
    var mark := Mark(a.o.process, a.ping, reading, a.o.ts, a.pingAt, a.startAt, d.now);
    Go(c, Scene(d), RemoteFinish(RIVAL, localTime), Scene(d.(rival := Idle, mark := mark)));
  }

  /** Second look: the timeout has elapsed and the rival forces the lock of the live owner. */
  lemma RivalForces(c: Config, d: Duel, second: bool, localTime: Time)
    requires var a := Contender(d, second);
      && a.Asking? && !a.canReenter && a.startAt <= localTime <= d.now && d.now - a.startAt <= 2 * c.netSkew
      && !MarkIsStale(a.o, a.ping, a.mark)
      && Elapsed(a.mark, RemoteReading(localTime, d.now - a.startAt)) > c.lockTimeout
      && a.o == LockDoc(d.state, 1, "owner")
    requires Reachable(c, Scene(d)) && OnTime(c, d)
    requires d.state > 0 && !d.phase.Ended?
    ensures !Safe(c)
  {
    hide Reachable, Timely, Elapsed, MarkIsStale, Scene, Apply, Enabled;
    OnTimeIsTimely(c, d);
    var next := With(d, second, Forcing(Contender(d, second).o)).(mark := NO_MARK);
    RivalDecides(c, d, second, localTime);
    Go(c, Scene(d), RemoteFinish(Thread(second), localTime), Scene(next));
    OnTimeIsTimely(c, next);
    ForceTakes(c, next, second);
  }

  lemma RivalDecides(c: Config, d: Duel, second: bool, localTime: Time)
    requires var a := Contender(d, second);
      && a.Asking? && !a.canReenter && a.startAt <= localTime <= d.now && d.now - a.startAt <= 2 * c.netSkew
      && !MarkIsStale(a.o, a.ping, a.mark)
      && Elapsed(a.mark, RemoteReading(localTime, d.now - a.startAt)) > c.lockTimeout
    ensures var step := RemoteFinish(Thread(second), localTime);
      && Enabled(Scene(d), step)
      && Apply(c, Scene(d), step) == Scene(With(d, second, Forcing(Contender(d, second).o)).(mark := NO_MARK))
  {
    hide Elapsed, MarkIsStale, RemoteReading;
  }

  lemma ForceTakes(c: Config, d: Duel, second: bool)
    requires Contender(d, second) == Forcing(LockDoc(d.state, 1, "owner")) && d.state > 0 && !d.phase.Ended?
    ensures var step := Force(Thread(second), true, Confirmed);
      Enabled(Scene(d), step) && !RespectsLive(c, Scene(d), step)
  {
    assert Live(Scene(d), 1);
  }

  /** The rival's first look at the moment the document was taken, or read as pinged: its reading
      takes `delay`, all of which the server's clock is behind. */
  ghost function Marked(d: Duel, delay: nat): Mark {
    Mark("owner", d.ping, d.now - delay / 2, 1, d.now, d.now, d.now + delay)
  }

  /** If finalizing may take so long that two looks within it can seem further apart than the
      timeout, the rival forces a lock that is still in state 1. */
  lemma LateFinalizeIsUnsafe(c: Config)
    requires Lapse(c.netSkew, c.finalizeBy) > c.lockTimeout
    ensures !Safe(c)
  {
    hide Reachable, Safe, Scene, Timely, Apply, Enabled;
    var n, delay := c.netSkew, Min(2 * c.netSkew, c.finalizeBy);
    OwnerGrabs(c, n);
    var d0 := Duel(n, 1, 0, map[], Finalizing(1), Idle, Idle, NO_MARK, n, Pending);
    var d1 := RivalAsks(c, d0, false);
    var d2 := RivalStarts(c, d1, false);
    TimePasses(c, d2, delay);
    RivalMarks(c, d2.(now := n + delay), n);
    var d3 := d0.(now := n + delay, mark := Marked(d0, delay));
    TimePasses(c, d3, c.finalizeBy - delay);
    var d4 := RivalAsks(c, d3.(now := n + c.finalizeBy), false);
    var d5 := RivalStarts(c, d4, false);
    RivalForces(c, d5, false, d5.now);
  }

  lemma OwnerFinalizes(c: Config, n: nat)
    ensures Reachable(c, Scene(Duel(n, 2, 0, map[], ReadingBack(1), Idle, Idle, NO_MARK, n, Held)))
  {
    hide Reachable;
    OwnerGrabs(c, n);
    Go(c, Scene(Duel(n, 1, 0, map[], Finalizing(1), Idle, Idle, NO_MARK, n, Pending)), Finalize(OWNER, true, Confirmed),
       Scene(Duel(n, 2, 0, map[], ReadingBack(1), Idle, Idle, NO_MARK, n, Held)));
  }

  lemma OwnerHolds(c: Config, n: nat) returns (d: Duel)
    ensures d == Duel(n, 2, 1, map[("owner", 1) := n], Holding(1, LockDoc(2, 1, "owner")), Idle, Idle, NO_MARK, n, Held)
    ensures Reachable(c, Scene(d))
  {
    hide Reachable;
    OwnerFinalizes(c, n);
    var d1 := Duel(n, 2, 0, map[], ReadingBack(1), Idle, Idle, NO_MARK, n, Held);
    var d2 := d1.(owner := Holding(1, LockDoc(2, 1, "owner")));
    Go(c, Scene(d1), ReadBack(OWNER, false), Scene(d2));
    d := d2.(ping := 1, pings := map[("owner", 1) := n]);
    Go(c, Scene(d2), PingCommit("owner", 1), Scene(d));
  }

  /** Pings of the owner alone, each greater than those before. */
  predicate PingsGrow(d: Duel) {
    d.ping > 0 && forall k | k in d.pings :: k.1 <= d.ping
  }

  /** The owner's next ping. */
  lemma PingArrives(c: Config, d: Duel) returns (e: Duel)
    requires Reachable(c, Scene(d)) && OnTime(c, d) && PingsGrow(d)
    ensures e == d.(ping := d.ping + 1, pings := d.pings[("owner", d.ping + 1) := d.now])
    ensures Reachable(c, Scene(e)) && OnTime(c, e) && PingsGrow(e) && LastPing(e) == d.now
  {
    hide Reachable, Timely;
    OnTimeIsTimely(c, d);
    e := d.(ping := d.ping + 1, pings := d.pings[("owner", d.ping + 1) := d.now]);
    Go(c, Scene(d), PingCommit("owner", d.ping + 1), Scene(e));
  }

  /** Time passes while the owner pings every millisecond. */
  lemma {:induction false} HeldOn(c: Config, d: Duel, ms: nat) returns (e: Duel)
    requires Reachable(c, Scene(d)) && OnTime(c, d) && PingsGrow(d) && d.phase.Held? && c.pingGap > 0
    ensures e == d.(now := d.now + ms, ping := e.ping, pings := e.pings)
    ensures Reachable(c, Scene(e)) && OnTime(c, e) && PingsGrow(e)
    decreases ms
  {
    hide Reachable, Scene;
    e := d;
    if ms > 0 {
      var d1 := PingArrives(c, d);
      TimePasses(c, d1, 1);
      e := HeldOn(c, d1.(now := d1.now + 1), ms - 1);
    }
  }

  /** If pings may be so far apart that two looks at the same one can seem further apart than the
      timeout, the rivals force a lock that is held: one looks right after a ping, the other right
      before the next and asks for the time as late as it may. */
  lemma SlowPingIsUnsafe(c: Config)
    requires c.pingGap > 0
    requires c.netSkew + Lapse(c.netSkew, c.pingGap + c.readGap) > c.lockTimeout
    ensures !Safe(c)
  {
    hide Reachable, Safe, Scene, Timely, Apply, Enabled, Lapse;
    var n, delay := c.netSkew, Min(2 * c.netSkew, c.pingGap + c.readGap);
    var d0 := OwnerHolds(c, n);
    var d1 := RivalAsks(c, d0, false);
    var d2 := RivalStarts(c, d1, false);
    var seen := SawPing(LockDoc(2, 1, "owner"), false, 1, n + c.pingGap);
    var d3 := BothLook(c, d0, d2, delay);
    assert d3.second == seen;
    var d4 := RivalStarts(c, d3, true);
    var d5 := HeldOn(c, d4, 2 * n);
    assert Lapse(n, c.pingGap + c.readGap) == c.pingGap + c.readGap + delay / 2 by {
      LapseIs(n, c.pingGap + c.readGap);
    }
    RivalForces(c, d5, true, d5.now);
  }

  lemma LapseIs(netSkew: nat, x: nat)
    ensures Lapse(netSkew, x) == x + Min(2 * netSkew, x) / 2
  {
  }

  /** The first rival's call, started at the ping, ends `delay` later; the second reads the ping just
      in time and waits for the longest time it may. */
  lemma BothLook(c: Config, d0: Duel, d: Duel, delay: nat) returns (e: Duel)
    requires c.pingGap > 0 && delay <= 2 * c.netSkew && delay <= c.pingGap + c.readGap
    requires d0.phase.Held? && d0.casAt == d0.now == LastPing(d0) && d0.state == 2 && d0.mark == NO_MARK
    requires PingsGrow(d0) && !d0.owner.Asking? && d0.rival.Idle? && d0.second.Idle?
    requires d == d0.(rival := Asking(LockDoc(2, 1, "owner"), false, d0.ping, d0.now, NO_MARK, d0.now))
    requires Reachable(c, Scene(d))
    ensures e == d0.(now := d0.now + c.pingGap + c.readGap, ping := e.ping, pings := e.pings,
                     second := SawPing(LockDoc(2, 1, "owner"), false, d0.ping, d0.now + c.pingGap),
                     mark := Marked(d0, delay))
    ensures Reachable(c, Scene(e)) && OnTime(c, e) && PingsGrow(e)
  {
    hide Reachable, Scene;
    var from, gap := d0.now, c.pingGap;
    if delay <= gap {
      TimePasses(c, d, delay);
      RivalMarks(c, d.(now := from + delay), from);
      var d1 := d0.(now := from + delay, mark := Marked(d0, delay));
      TimePasses(c, d1, gap - delay);
      var d2 := RivalAsks(c, d1.(now := from + gap), true);
      var d3 := PingArrives(c, d2);
      e := HeldOn(c, d3, c.readGap);
    } else {
      TimePasses(c, d, gap);
      var d2 := RivalAsks(c, d.(now := from + gap), true);
      var d3 := PingArrives(c, d2);
      var d4 := HeldOn(c, d3, delay - gap);
      RivalMarks(c, d4, from);
      e := HeldOn(c, d4.(rival := Idle, mark := Marked(d0, delay)), gap + c.readGap - delay);
    }
  }

  /** The lease theorem. No timely run of any number of clients takes the lock from a live
      acquisition exactly when holders ping and finalize within the two bounds. (A ping gap of 0
      would let no time pass while a lock is held.) */
  lemma SafeExactlyWhenLeased(c: Config)
    requires c.pingGap > 0
    ensures Safe(c) <==> Leased(c)
  {
    if Leased(c) {
      forall s, step | Reachable(c, s) && Timely(c, s) && Enabled(s, step)
        ensures RespectsLive(c, s, step)
      {
        LeasedRespects(c, s, step);
      }
    } else if Lapse(c.netSkew, c.finalizeBy) > c.lockTimeout {
      LateFinalizeIsUnsafe(c);
    } else {
      SlowPingIsUnsafe(c);
    }
  }
}
