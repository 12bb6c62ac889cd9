/** The lock protocol as its clients run it: `lock_try`, `unlock` and the pinger's late unlocks, as
    code over one shared cluster that other clients change between any two of its actions. Whatever
    they do is a run of the step system, so the theorems about runs speak about this code. */
module DistLockClient {
  import opened Wrappers
  import opened DistLock
  import opened DistLockSafety
  import opened DistLockTheorems

  /** What becomes of one update sent over the network. */
  datatype Delivery = Answered | ErrorAfter(applied: bool) | ThrowAfter(applied: bool)

  /** Everything outside one client's control, by the number of the action it happens at: what the
      others do first, how updates are delivered, and when (if at all) the server samples its
      clock. */
  datatype Weather = Weather(others: nat -> seq<Step>, delivery: nat -> Delivery, sample: nat -> Option<nat>,
                             breaks: nat -> bool)

  function Mover(step: Step): Option<Client> {
    match step
    case Tick(_) | PingCommit(_, _) | PingCleanup(_) | LateUnlock(_, _, _, _) => None
    case _ => Some(step.cl)
  }

  /** Steps each of which could be taken; the timing assumptions are a separate matter. */
  ghost predicate Takes(c: Config, s: State, steps: seq<Step>, t: State)
    decreases |steps|
  {
    if steps == [] then s == t
    else Enabled(s, steps[0]) && Takes(c, Apply(c, s, steps[0]), steps[1..], t)
  }

  lemma {:induction false} TakesOneMore(c: Config, s: State, steps: seq<Step>, t: State, step: Step)
    requires Takes(c, s, steps, t) && Enabled(t, step)
    ensures Takes(c, s, steps + [step], Apply(c, t, step))
    decreases |steps|
  {
    hide Enabled;
    hide Apply;
    var all := steps + [step];
    if steps == [] {
      assert all[1..] == [];
    } else {
      assert all[1..] == steps[1..] + [step];
      TakesOneMore(c, Apply(c, s, steps[0]), steps[1..], t, step);
    }
  }

  /** A run that meets the timing assumptions reaches what it takes. */
  lemma {:induction false} TimelyTakes(c: Config, s: State, steps: seq<Step>, t: State)
    requires Takes(c, s, steps, t) && TimelyRun(c, s, steps)
    ensures After(c, s, steps) == t
    decreases |steps|
  {
    hide Enabled;
    hide Apply;
    hide Timely;
    if steps != [] {
      TimelyTakes(c, Apply(c, s, steps[0]), steps[1..], t);
    }
  }

  lemma {:induction false} TimelyBefore(c: Config, s: State, steps: seq<Step>, t: State, step: Step)
    requires Takes(c, s, steps, t) && TimelyRun(c, s, steps + [step])
    ensures TimelyRun(c, s, steps) && Timely(c, t)
    decreases |steps|
  {
    hide Enabled;
    hide Apply;
    hide Timely;
    var all := steps + [step];
    assert all[0] == if steps == [] then step else steps[0];
    if steps == [] {
    } else {
      assert all[1..] == steps[1..] + [step];
      TimelyBefore(c, Apply(c, s, steps[0]), steps[1..], t, step);
    }
  }

  /** The lock document o of the caller's own process is in place, finalized, and whoever owns a
      lock owns this one. */
  ghost predicate StillHeld(s: State, o: LockDoc) {
    && s.doc == Some(o) && o.state == 2
    && forall cl | Owning(At(s, cl)) :: Owned(At(s, cl)) == o.ts && cl.proc == o.process
  }

  /** What a re-entry that matches has shown, in a timely run. */
  lemma ReentryFacts(c: Config, s: State, cl: Client)
    requires Leased(c) && Reachable(c, s)
    requires At(s, cl).Reentering? && ForceMatches(s, At(s, cl).o) && At(s, cl).o.state == 2
    ensures StillHeld(To(s, cl, Idle), At(s, cl).o)
  {
    ReachableInv(c, s);
    AttemptFacts(c, s, cl);
    var t := To(s, cl, Idle);
    forall k | Owning(At(t, k)) ensures Owned(At(t, k)) == At(s, cl).o.ts && k.proc == At(s, cl).o.process {
      OwnerIsAlone(c, s, k);
    }
  }

  /** From s to t only `mover` moved, and the lock document was not deleted. */
  ghost predicate OnlyMoves(s: State, t: State, mover: Client) {
    && (forall cl | cl != mover :: At(t, cl) == At(s, cl))
    && (s.doc.Some? ==> t.doc.Some?) && s.now <= t.now
  }

  lemma FindLockMoves(s: State, cl: Client, reenter: bool)
    ensures OnlyMoves(s, ApplyFindLock(s, cl, reenter), cl)
  {
  }

  lemma RemoteMoves(c: Config, s: State, cl: Client, reading: Option<Time>)
    requires At(s, cl).Asking?
    ensures OnlyMoves(s, ApplyRemote(c, s, cl, reading), cl)
  {
    hide Elapsed;
    hide MarkIsStale;
  }

  lemma GrabMoves(s: State, cl: Client, ts: Oid, applied: bool, out: Outcome)
    requires At(s, cl).Grabbing?
    ensures OnlyMoves(s, ApplyGrab(s, cl, ts, applied, out), cl)
  {
  }

  lemma FinalizeMoves(s: State, cl: Client, applied: bool, out: Outcome)
    requires At(s, cl).Finalizing?
    ensures OnlyMoves(s, ApplyFinalize(s, cl, applied, out), cl)
  {
  }

  lemma ReadBackMoves(s: State, cl: Client, threw: bool)
    requires At(s, cl).ReadingBack? && (threw || s.doc.Some?)
    ensures OnlyMoves(s, ApplyReadBack(s, cl, threw), cl)
  {
  }

  lemma UnlockMoves(s: State, cl: Client, applied: bool, out: Outcome)
    ensures At(s, cl).Holding? ==> OnlyMoves(s, ApplyUnlockStart(s, cl), cl)
    ensures At(s, cl).Unlocking? ==> OnlyMoves(s, ApplyUnlockTry(s, cl, applied, out), cl)
  {
  }

  lemma CrashMoves(s: State, cl: Client)
    ensures OnlyMoves(s, ApplyCrash(s, cl), cl)
  {
  }

  lemma OnlyMoverMoves(c: Config, s: State, step: Step)
    requires Enabled(s, step) && Mover(step).Some?
    ensures OnlyMoves(s, Apply(c, s, step), Mover(step).value)
  {
    hide ApplyFindLock, ApplyRemote, ApplyGrab, ApplyFinalize, ApplyReadBack, ApplyUnlockStart, ApplyUnlockTry,
         ApplyCrash;
    match step
    case FindLock(cl, reenter) => FindLockMoves(s, cl, reenter);
    case RemoteFinish(cl, localTime) =>
      var delay := s.now - At(s, cl).startAt;
      RemoteMoves(c, s, cl, if delay > 2 * c.netSkew then None else Some(RemoteReading(localTime, delay)));
    case RemoteFail(cl) => RemoteMoves(c, s, cl, None);
    case Grab(cl, ts, applied, out) => GrabMoves(s, cl, ts, applied, out);
    case Finalize(cl, applied, out) => FinalizeMoves(s, cl, applied, out);
    case ReadBack(cl, threw) => ReadBackMoves(s, cl, threw);
    case UnlockStart(cl) => UnlockMoves(s, cl, false, Refused);
    case UnlockTry(cl, applied, out) => UnlockMoves(s, cl, applied, out);
    case Crash(cl) => CrashMoves(s, cl);
    case _ =>
  }

  /** Nobody else's step moves a client, and no step deletes the lock document. */
  lemma OthersLeave(c: Config, s: State, step: Step, cl: Client)
    requires Enabled(s, step) && Mover(step) != Some(cl)
    ensures At(Apply(c, s, step), cl) == At(s, cl)
    ensures s.doc.Some? ==> Apply(c, s, step).doc.Some?
    ensures s.now <= Apply(c, s, step).now
  {
    if Mover(step).Some? {
      OnlyMoverMoves(c, s, step);
    }
  }

  class Cluster {
    const c: Config
    const weather: Weather
    ghost const start: State
    var s: State
    var actions: nat
    ghost var run: seq<Step>

    constructor (config: Config, w: Weather, now: nat)
      ensures Valid() && c == config && Init(s)
    {
      c, weather, actions := config, w, 0;
      s := State(now, None, map[], map[], map[], map[], {}, map[]);
      start := State(now, None, map[], map[], map[], map[], {}, map[]);
      run := [];
    }

    ghost predicate Valid()
      reads this
    {
      Init(start) && Takes(c, start, run, s)
    }

    /** Whether the whole run so far met the timing assumptions. */
    ghost predicate OnSchedule()
      reads this
    {
      TimelyRun(c, start, run)
    }

    lemma ValidIsReachable()
      requires Valid() && OnSchedule()
      ensures Reachable(c, s)
    {
      TimelyTakes(c, start, run, s);
    }

    method Perform(step: Step)
      requires Valid() && Enabled(s, step)
      modifies this`s, this`run
      ensures Valid() && s == Apply(c, old(s), step) && run == old(run) + [step]
    {
      TakesOneMore(c, start, run, s, step);
      s := Apply(c, s, step);
      run := run + [step];
    }

    /** Anything the other clients, the pingers and the clock do before the next action. */
    method Others(cl: Client)
      requires Valid()
      modifies this
      ensures Valid() && At(s, cl) == old(At(s, cl)) && (old(s.doc.Some?) ==> s.doc.Some?) && old(s.now) <= s.now
      ensures actions == old(actions) + 1 && old(run) <= run
    {
      var steps := weather.others(actions);
      var i := 0;
      while i < |steps|
        invariant Valid() && At(s, cl) == old(At(s, cl)) && (old(s.doc.Some?) ==> s.doc.Some?) && old(s.now) <= s.now
        invariant actions == old(actions) && old(run) <= run
      {
        if Mover(steps[i]) != Some(cl) && Enabled(s, steps[i]) {
          OthersLeave(c, s, steps[i], cl);
          hide Enabled;
          Perform(steps[i]);
        }
        i := i + 1;
      }
      actions := actions + 1;
    }

    // -------------------------------------------------------------- single actions of a client

    method FindLockDoc(cl: Client, reenter: bool) returns (o: Option<LockDoc>, willUnlock: bool)
      requires Valid() && At(s, cl).Idle?
      modifies this
      ensures Valid() && old(run) <= run && At(s, cl) == AfterFind(cl, reenter, o, willUnlock)
    {
      Others(cl);
      o := s.doc;
      willUnlock := o.Some? && (cl.host, o.value.ts) in s.late;
      Perform(FindLock(cl, reenter));
    }

    /** Inserting the initial document; a duplicate is no error. */
    method InsertInitialDoc(cl: Client)
      requires Valid() && At(s, cl).Inserting?
      modifies this
      ensures Valid() && old(run) <= run && At(s, cl) == Grabbing(NO_OID)
    {
      Others(cl);
      Perform(InsertInitial(cl));
    }

    method FindPingDoc(cl: Client) returns (ping: Time)
      requires Valid() && At(s, cl).SawLock?
      modifies this
      ensures Valid() && old(run) <= run
      ensures At(s, cl) == SawPing(old(At(s, cl)).o, old(At(s, cl)).canReenter, ping, s.now)
    {
      Others(cl);
      ping := PingOf(s, At(s, cl).o.process);
      Perform(FindPing(cl));
    }

    /** Reading the recorded ping check and starting to ask for the remote time. */
    method GetLastPing(cl: Client) returns (mark: Mark)
      requires Valid() && At(s, cl).SawPing?
      modifies this
      ensures Valid() && old(run) <= run
      ensures var a := old(At(s, cl)); At(s, cl) == Asking(a.o, a.canReenter, a.ping, a.pingAt, mark, s.now)
    {
      Others(cl);
      mark := MarkOf(s, cl.host);
      Perform(RemoteStart(cl));
    }

    /** The remote time, and with it the recorded ping check the decision leaves behind. None is
        the exception for a server that cannot be asked or takes too long. */
    method GetRemoteTime(cl: Client) returns (remote: Option<Time>)
      requires Valid() && At(s, cl).Asking? && At(s, cl).startAt <= s.now
      modifies this
      ensures Valid() && old(run) <= run && At(s, cl) == Decision(c, old(At(s, cl)), remote)
    {
      Others(cl);
      var startAt := At(s, cl).startAt;
      DecisionIsApplied(c, s, cl);
      match weather.sample(actions) {
        case None =>
          remote := None;
          Perform(RemoteFail(cl));
        case Some(d) =>
          var localTime := if startAt + d <= s.now then startAt + d else s.now;
          var reading := RemoteTime(startAt, localTime, s.now, c.netSkew);
          remote := if reading.Ok? then Some(reading.value) else None;
          Perform(RemoteFinish(cl, localTime));
      }
    }

    method SendForce(cl: Client) returns (out: Outcome)
      requires Valid() && At(s, cl).Forcing?
      modifies this
      ensures Valid() && old(run) <= run && At(s, cl) == if out.Confirmed? then Grabbing(NO_OID) else Idle
    {
      Others(cl);
      var (applied, o) := Report(weather.delivery(actions), ForceMatches(s, At(s, cl).o));
      out := o;
      Perform(Force(cl, applied, out));
    }

    method SendReenter(cl: Client) returns (out: Outcome)
      requires Valid() && At(s, cl).Reentering?
      modifies this
      ensures Valid() && old(run) <= run && At(s, cl).Idle?
      ensures out.Confirmed? ==> ForceMatches(s, old(At(s, cl)).o)
      ensures out.Confirmed? && OnSchedule() && Leased(c) && old(At(s, cl)).o.state == 2 ==>
        StillHeld(s, old(At(s, cl)).o)
    {
      Others(cl);
      var (_, o) := Report(weather.delivery(actions), ForceMatches(s, At(s, cl).o));
      out := o;
      ghost var before, past := s, run;
      Perform(Reenter(cl, out));
      if out.Confirmed? && OnSchedule() && Leased(c) && At(before, cl).o.state == 2 {
        TimelyBefore(c, start, past, before, Reenter(cl, out));
        TimelyTakes(c, start, past, before);
        ReentryFacts(c, before, cl);
      }
    }

    /** `OID::gen`: never the same twice. */
    method NewOid() returns (ts: Oid)
      ensures ts != NO_OID && ts !in s.acqs
    {
      ts := 1;
      var rest := s.acqs.Keys;
      while rest != {}
        invariant ts > 0 && forall k | k in s.acqs && k !in rest :: k < ts
        decreases |rest|
      {
        ghost var some := Pick(rest);
        var k: Oid :| k in rest;
        ts := if k < ts then ts else k + 1;
        rest := rest - {k};
      }
    }

    method SendGrab(cl: Client) returns (ts: Oid, out: Outcome)
      requires Valid() && At(s, cl).Grabbing?
      modifies this
      ensures Valid() && old(run) <= run && At(s, cl) == if out.Confirmed? then Finalizing(ts) else Idle
    {
      Others(cl);
      ts := NewOid();
      var (applied, o) := Report(weather.delivery(actions), GrabMatches(s, At(s, cl).want));
      out := o;
      Perform(Grab(cl, ts, applied, out));
    }

    method SendFinalize(cl: Client) returns (out: Outcome)
      requires Valid() && At(s, cl).Finalizing?
      modifies this
      ensures Valid() && old(run) <= run
      ensures At(s, cl) == if out.Confirmed? then ReadingBack(old(At(s, cl)).ts) else Idle
    {
      Others(cl);
      var (applied, o) := Report(weather.delivery(actions), s.doc.Some?);
      out := o;
      Perform(Finalize(cl, applied, out));
    }

    method ReadBackDoc(cl: Client) returns (doc: Option<LockDoc>)
      requires Valid() && At(s, cl).ReadingBack?
      modifies this
      ensures Valid() && old(run) <= run && (doc.Some? ==> s.doc == doc)
      ensures At(s, cl) == if doc.Some? then Holding(old(At(s, cl)).ts, doc.value) else Idle
    {
      Others(cl);
      doc := if weather.breaks(actions) then None else s.doc;
      Perform(ReadBack(cl, doc.None?));
    }

    method SendUnlock(cl: Client) returns (out: Outcome)
      requires Valid() && At(s, cl).Unlocking?
      modifies this
      ensures Valid() && old(run) <= run
      ensures var a := old(At(s, cl));
        if out.Confirmed? then At(s, cl).Idle? && DocHasTs(s, a.freed) && s.doc.value.state == 0
        else if a.tries + 1 < MAX_UNLOCK_ATTEMPTS then At(s, cl) == Unlocking(a.freed, a.tries + 1)
        else At(s, cl).Idle? && (cl.host, a.freed) in s.late
    {
      Others(cl);
      var (applied, o) := Report(weather.delivery(actions), DocHasTs(s, At(s, cl).freed));
      out := o;
      Perform(UnlockTry(cl, applied, out));
    }

    // -------------------------------------------------------------- lock_try and unlock

    /** What `lock_try` has made certain when it returns true without re-entering: in a run on
        schedule the caller, and nobody else, owns the lock document. */
    ghost predicate HoldsAlone(cl: Client, other: LockDoc)
      reads this
    {
      && At(s, cl).Holding? && s.doc == Some(other)
      && other == LockDoc(2, At(s, cl).ts, cl.proc)
      && forall cl' | Owning(At(s, cl')) :: cl' == cl
    }

    lemma HolderIsAlone(cl: Client)
      requires Valid() && OnSchedule() && Leased(c) && At(s, cl).Holding?
      ensures HoldsAlone(cl, At(s, cl).other)
    {
      ValidIsReachable();
      forall cl' | Owning(At(s, cl')) ensures cl' == cl {
        MutualExclusion(c, s, cl, cl');
      }
      MutualExclusion(c, s, cl, cl);
    }

    /** `lock_try`. */
    method LockTry(cl: Client, reenter: bool) returns (r: TryResult)
      requires Valid() && At(s, cl).Idle?
      modifies this
      ensures Valid() && old(run) <= run
      ensures r.NotGot? || r.Thrown? ==> At(s, cl).Idle?
      ensures r.Got? ==> At(s, cl).Holding? && At(s, cl).other == r.other
      ensures r.Got? && OnSchedule() && Leased(c) ==> HoldsAlone(cl, r.other)
      ensures r.Reentered? ==> reenter && At(s, cl).Idle? && ForceMatches(s, r.other)
      ensures r.Reentered? ==> r.other.state == 2 && r.other.process == cl.proc
      ensures r.Reentered? && OnSchedule() && Leased(c) ==> StillHeld(s, r.other)
    {
      hide Valid, HoldsAlone, OnSchedule, Leased, ForceMatches, StillHeld;
      var o, willUnlock := FindLockDoc(cl, reenter);
      if o == None {
        InsertInitialDoc(cl);
      } else if o.value.state > 0 {
        var canReenter := reenter && o.value.process == cl.proc && !willUnlock && o.value.state == 2;
        if reenter && !canReenter {
          return NotGot(o);
        }
        var ping := FindPingDoc(cl);
        var lastPingCheck := GetLastPing(cl);
        var takeover := c.lockTimeout;
        var elapsed := 0;
        var remote := GetRemoteTime(cl);
        if remote.Some? && !MarkIsStale(o.value, ping, lastPingCheck) {
          elapsed := if lastPingCheck.remote >= remote.value then 0 else remote.value - lastPingCheck.remote;
        }
        if elapsed <= takeover && !canReenter {
          return NotGot(o);
        } else if elapsed > takeover && canReenter {
          return NotGot(o);
        }
        if elapsed > takeover {
          var out := SendForce(cl);
          match out {
            case Confirmed =>
            case Refused => return NotGot(o);
            case Threw => return Thrown;
          }
        } else {
          // The original verifies this.
          assert canReenter;
          var out := SendReenter(cl);
          match out {
            case Confirmed => return Reentered(o.value);
            case Refused => return NotGot(o);
            case Threw => return Thrown;
          }
        }
      }
      r := Acquire(cl);
    }

    /** The rest of `lock_try`, once the lock looked open: the winning update and its finalizing. */
    method Acquire(cl: Client) returns (r: TryResult)
      requires Valid() && At(s, cl).Grabbing?
      modifies this
      ensures Valid() && old(run) <= run && !r.Reentered?
      ensures r.NotGot? || r.Thrown? ==> At(s, cl).Idle?
      ensures r.Got? ==> At(s, cl).Holding? && At(s, cl).other == r.other
      ensures r.Got? && OnSchedule() && Leased(c) ==> HoldsAlone(cl, r.other)
    {
      var ts, out := SendGrab(cl);
      match out {
        case Confirmed =>
        case Refused => return NotGot(s.doc);
        case Threw => return Thrown;
      }
      out := SendFinalize(cl);
      match out {
        case Confirmed =>
        case Refused => return NotGot(s.doc);
        case Threw => return Thrown;
      }
      var doc := ReadBackDoc(cl);
      if doc == None {
        return Thrown;
      }
      if OnSchedule() && Leased(c) {
        HolderIsAlone(cl);
      }
      return Got(doc.value);
    }

    /** `unlock` with the lock document `lock_try` returned: it is released, or queued for the
        pinger after three attempts; a document that is no finalized lock is left alone. */
    method Unlock(cl: Client) returns (r: UnlockResult)
      requires Valid() && At(s, cl).Holding?
      modifies this
      ensures Valid() && old(run) <= run && At(s, cl).Idle?
      ensures r.Invalid? ==> var o := old(At(s, cl)).other; o.state != 2 || o.ts == NO_OID
      ensures r.Released? ==> s.doc.Some? && s.doc.value.state == 0 && s.doc.value.ts == old(At(s, cl)).other.ts
      ensures r.Queued? ==> (cl.host, old(At(s, cl)).other.ts) in s.late
    {
      ghost var ts := At(s, cl).other.ts;
      Others(cl);
      Perform(UnlockStart(cl));
      if At(s, cl).Idle? {
        return Invalid;
      }
      var attempted := 0;
      while attempted < MAX_UNLOCK_ATTEMPTS
        invariant Valid() && old(run) <= run && attempted <= MAX_UNLOCK_ATTEMPTS
        invariant if attempted < MAX_UNLOCK_ATTEMPTS then At(s, cl) == Unlocking(ts, attempted)
                  else At(s, cl).Idle? && (cl.host, ts) in s.late
      {
        var out := SendUnlock(cl);
        if out.Confirmed? {
          return Released;
        }
        attempted := attempted + 1;
      }
      return Queued;
    }
  }

  datatype TryResult = Got(other: LockDoc) | Reentered(other: LockDoc) | NotGot(seen: Option<LockDoc>) | Thrown

  datatype UnlockResult = Released | Queued | Invalid

  /** Whether an update took effect and how it was reported, when it matched or not. */
  function Report(d: Delivery, matched: bool): (r: (bool, Outcome))
    ensures r.1.Confirmed? ==> r.0 && matched
  {
    match d
    case Answered => (true, if matched then Confirmed else Refused)
    case ErrorAfter(applied) => (applied, Refused)
    case ThrowAfter(applied) => (applied, Threw)
  }

  /** Where reading the lock document leads. */
  function AfterFind(cl: Client, reenter: bool, o: Option<LockDoc>, willUnlock: bool): Attempt {
    if o.None? then Inserting
    else if o.value.state > 0 then
      var canReenter := reenter && o.value.process == cl.proc && !willUnlock && o.value.state == 2;
      if reenter && !canReenter then Idle else SawLock(o.value, canReenter)
    else Grabbing(o.value.ts)
  }

  /** Where the answer to the question for the remote time leads. */
  function Decision(c: Config, a: Attempt, reading: Option<Time>): Attempt
    requires a.Asking?
  {
    if reading.None? then if a.canReenter then Reentering(a.o) else Idle
    else
      var elapsed := if MarkIsStale(a.o, a.ping, a.mark) then 0 else Elapsed(a.mark, reading.value);
      if elapsed <= c.lockTimeout then if a.canReenter then Reentering(a.o) else Idle
      else if a.canReenter then Idle else Forcing(a.o)
  }

  lemma DecisionIsApplied(c: Config, s: State, cl: Client)
    requires At(s, cl).Asking?
    ensures forall reading :: At(ApplyRemote(c, s, cl, reading), cl) == Decision(c, At(s, cl), reading)
  {
  }
}
