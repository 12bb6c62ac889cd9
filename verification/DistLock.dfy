/** The distributed lock protocol: any number of clients compete, through single-document
    updates, for one lock document. Every atomic action of `lock_try`, `unlock`, the pinger and the
    late-unlock loop is one `Step`; a run is any interleaving of steps. */
module DistLock {
  import opened Wrappers

  // Times are in milliseconds on the remote (config server) clock.
  type Time = int
  type Oid = nat
  type Process = string

  // What a default-constructed OID compares equal to; `OID::gen` never returns it.
  const NO_OID: Oid := 0

  // LOCK_TIMEOUT, LOCK_SKEW_FACTOR, MAX_LOCK_NET_SKEW and the unlock retry count.
  const LOCK_TIMEOUT := 15 * 60 * 1000
  const LOCK_SKEW_FACTOR := 30
  const MAX_LOCK_NET_SKEW := LOCK_TIMEOUT / LOCK_SKEW_FACTOR
  const MAX_UNLOCK_ATTEMPTS := 3

  /** A thread (`thread`) of an operating system process (`host`) that locks under the
      process id `proc`. */
  datatype Client = Client(thread: nat, host: nat, proc: Process)

  /** The lock document. `ts` is NO_OID while the field is absent. */
  datatype LockDoc = LockDoc(state: int, ts: Oid, process: Process)

  /** The PingData entry of the process-wide `lastPings` map, with the (unrecorded) times at which
      its ping was read and at which its `remoteTime` call started and ended. */
  datatype Mark = Mark(id: Process, lastPing: Time, remote: Time, ts: Oid, pingAt: Time, startAt: Time, endAt: Time)

  const NO_MARK := Mark("", 0, 0, NO_OID, 0, 0, 0)

  /** Where one client stands inside `lock_try` or `unlock`. */
  datatype Attempt =
    | Idle
    | Inserting
    | SawLock(o: LockDoc, canReenter: bool)
    | SawPing(o: LockDoc, canReenter: bool, ping: Time, pingAt: Time)
    | Asking(o: LockDoc, canReenter: bool, ping: Time, pingAt: Time, mark: Mark, startAt: Time)
    | Forcing(o: LockDoc)
    | Reentering(o: LockDoc)
    | Grabbing(want: Oid)
    | Finalizing(ts: Oid)
    | ReadingBack(ts: Oid)
    | Holding(ts: Oid, other: LockDoc)
    | Unlocking(freed: Oid, tries: nat)

  /** The life of an acquisition, from the update that set state 1 on. It is live while it is
      waiting to be finalized and while `lock_try` has returned true and `unlock` has not begun. */
  datatype Phase = Pending | Held | Ended
  datatype Acquisition = Acquisition(client: Client, casAt: Time, phase: Phase)

  datatype State = State(
    now: Time,
    doc: Option<LockDoc>,
    pings: map<Process, Time>,
    commits: map<(Process, Time), Time>,
    attempts: map<Client, Attempt>,
    marks: map<nat, Mark>,
    late: set<(nat, Oid)>,
    acqs: map<Oid, Acquisition>)

  /** How an update was reported: a confirmed update did match and apply; a refused one reported
      an error or n < 1; a thrown one raised an exception. */
  datatype Outcome = Confirmed | Refused | Threw

  datatype Step =
    | Tick(d: nat)
    | PingCommit(p: Process, value: Time)
    | PingCleanup(p: Process)
    | FindLock(cl: Client, reenter: bool)
    | InsertInitial(cl: Client)
    | FindPing(cl: Client)
    | RemoteStart(cl: Client)
    | RemoteFinish(cl: Client, localTime: Time)
    | RemoteFail(cl: Client)
    | Force(cl: Client, applied: bool, out: Outcome)
    | Reenter(cl: Client, out: Outcome)
    | Grab(cl: Client, ts: Oid, applied: bool, out: Outcome)
    | Finalize(cl: Client, applied: bool, out: Outcome)
    | ReadBack(cl: Client, threw: bool)
    | UnlockStart(cl: Client)
    | UnlockTry(cl: Client, applied: bool, out: Outcome)
    | LateUnlock(host: nat, ts: Oid, applied: bool, removed: bool)
    | Crash(cl: Client)

  // ---------------------------------------------------------------- remote time

  /** The value `remoteTime` computes from the server's `localTime` and the measured delay. */
  function RemoteReading(localTime: Time, delay: nat): Time {
    localTime - delay / 2
  }

  /** `remoteTime`: the server sampled its clock somewhere between the start and the end of the
      call; a delay over twice the network skew is an error. */
  method RemoteTime(startAt: Time, localTime: Time, endAt: Time, maxNetSkew: nat)
    returns (r: Result<Time, string>)
    requires startAt <= localTime <= endAt
    ensures r.Err? <==> endAt - startAt > 2 * maxNetSkew
    ensures r.Ok? ==> startAt - maxNetSkew <= r.value <= startAt + maxNetSkew
    ensures r.Ok? ==> r.value <= endAt
    ensures r.Ok? ==> endAt - 3 * maxNetSkew <= r.value
    ensures r.Ok? ==> r.value == RemoteReading(localTime, endAt - startAt)
  {
    var delay := endAt - startAt;
    if delay > maxNetSkew * 2 {
      return Err("did not respond within max network delay");
    }
    return Ok(RemoteReading(localTime, delay));
  }

  /** The doc comment of `remoteTime` promises an error of at most the skew at completion. It can
      be three times the skew: the server samples its clock at once and the answer takes 2N. */
  lemma RemoteTimeCommentFails(startAt: Time, maxNetSkew: nat)
    requires maxNetSkew > 0
    ensures var endAt := startAt + 2 * maxNetSkew;
            && endAt - startAt <= 2 * maxNetSkew
            && endAt - RemoteReading(startAt, endAt - startAt) == 3 * maxNetSkew > maxNetSkew
  {
  }

  /** The comment holds, wherever in the call the server sampled its clock, exactly for calls whose
      delay and half the delay together stay within the skew. */
  lemma RemoteTimeCommentHolds(startAt: Time, endAt: Time, maxNetSkew: nat)
    requires startAt <= endAt
    ensures
      var delay := endAt - startAt;
      (forall localTime | startAt <= localTime <= endAt ::
         -(maxNetSkew as int) <= RemoteReading(localTime, delay) - endAt <= maxNetSkew)
      <==> delay + delay / 2 <= maxNetSkew
  {
    var delay := endAt - startAt;
    assert RemoteReading(startAt, delay) - endAt == -delay - delay / 2;
  }

  /** Elapsed time since the mark; guarded, because remote times may run backwards. */
  function Elapsed(mark: Mark, remote: Time): Time {
    if mark.remote >= remote then 0 else remote - mark.remote
  }

  predicate MarkIsStale(o: LockDoc, ping: Time, mark: Mark) {
    var recPingChange := o.state == 2 && (mark.id != o.process || mark.lastPing != ping);
    var recTSChange := mark.ts != o.ts;
    recPingChange || recTSChange
  }

  // ---------------------------------------------------------------- the step system

  function At(s: State, cl: Client): Attempt {
    if cl in s.attempts then s.attempts[cl] else Idle
  }

  function MarkOf(s: State, host: nat): Mark {
    if host in s.marks then s.marks[host] else NO_MARK
  }

  function PingOf(s: State, p: Process): Time {
    if p in s.pings then s.pings[p] else 0
  }

  function To(s: State, cl: Client, a: Attempt): State {
    s.(attempts := s.attempts[cl := a])
  }

  function ResetMark(s: State, host: nat): State {
    s.(marks := s.marks[host := NO_MARK])
  }

  function SetPhase(s: State, ts: Oid, phase: Phase): State {
    if ts in s.acqs then s.(acqs := s.acqs[ts := s.acqs[ts].(phase := phase)]) else s
  }

  /** The `$set: {state: 0}` updates: they apply only to the document the query matches. */
  function Release(s: State, matched: bool): State {
    if matched && s.doc.Some? then s.(doc := Some(s.doc.value.(state := 0))) else s
  }

  predicate DocHasTs(s: State, ts: Oid) {
    s.doc.Some? && s.doc.value.ts == ts
  }

  predicate ForceMatches(s: State, o: LockDoc) {
    DocHasTs(s, o.ts) && s.doc.value.state == o.state
  }

  predicate GrabMatches(s: State, want: Oid) {
    s.doc.Some? && s.doc.value.state == 0 && (want != NO_OID ==> s.doc.value.ts == want)
  }

  /** Which steps can be taken. The pinger removes pings that are four days old of processes that
      held no lock when it looked; here any ping may go at any time, which covers that. */
  predicate Enabled(s: State, step: Step) {
    match step
    case Tick(_) => true
    case PingCommit(p, v) => v > 0 && forall q | q in s.commits && q.0 == p :: q.1 < v
    case PingCleanup(_) => true
    case FindLock(cl, _) => At(s, cl).Idle?
    case InsertInitial(cl) => At(s, cl).Inserting?
    case FindPing(cl) => At(s, cl).SawLock?
    case RemoteStart(cl) => At(s, cl).SawPing?
    case RemoteFinish(cl, local) => At(s, cl).Asking? && At(s, cl).startAt <= local <= s.now
    case RemoteFail(cl) => At(s, cl).Asking?
    case Force(cl, applied, out) =>
      At(s, cl).Forcing? && (out.Confirmed? ==> applied && ForceMatches(s, At(s, cl).o))
    case Reenter(cl, out) =>
      At(s, cl).Reentering? && (out.Confirmed? ==> ForceMatches(s, At(s, cl).o))
    case Grab(cl, ts, applied, out) =>
      && At(s, cl).Grabbing? && ts != NO_OID && ts !in s.acqs
      && (out.Confirmed? ==> applied && GrabMatches(s, At(s, cl).want))
    case Finalize(cl, applied, out) =>
      At(s, cl).Finalizing? && (out.Confirmed? ==> applied && s.doc.Some?)
    case ReadBack(cl, threw) => At(s, cl).ReadingBack? && (threw || s.doc.Some?)
    case UnlockStart(cl) => At(s, cl).Holding?
    case UnlockTry(cl, applied, out) =>
      At(s, cl).Unlocking? && (out.Confirmed? ==> applied && DocHasTs(s, At(s, cl).freed))
    case LateUnlock(host, ts, _, _) => (host, ts) in s.late
    case Crash(cl) => !At(s, cl).Idle?
  }

  /** The lock document was read: nothing there, a set lock, or an open one. */
  function ApplyFindLock(s: State, cl: Client, reenter: bool): State {
    if s.doc.None? then To(s, cl, Inserting)
    else
      var o := s.doc.value;
      if o.state > 0 then
        var canReenter := reenter && o.process == cl.proc && (cl.host, o.ts) !in s.late && o.state == 2;
        if reenter && !canReenter then ResetMark(s, cl.host)
        else To(s, cl, SawLock(o, canReenter))
      else ResetMark(To(s, cl, Grabbing(o.ts)), cl.host)
  }

  /** The end of a successful or failed `remoteTime` call, and the decision that follows it. */
  function ApplyRemote(c: Config, s: State, cl: Client, reading: Option<Time>): State
    requires At(s, cl).Asking?
  {
    var Asking(o, canReenter, ping, pingAt, mark, startAt) := At(s, cl);
    if reading.None? then
      ResetMark(To(s, cl, if canReenter then Reentering(o) else Idle), cl.host)
    else
      var remote := reading.value;
      var stale := MarkIsStale(o, ping, mark);
      var elapsed := if stale then 0 else Elapsed(mark, remote);
      var marked := if stale
        then s.(marks := s.marks[cl.host := Mark(o.process, ping, remote, o.ts, pingAt, startAt, s.now)])
        else s;
      if elapsed <= c.lockTimeout && !canReenter then To(marked, cl, Idle)
      else if elapsed > c.lockTimeout && canReenter then To(marked, cl, Idle)
      else if elapsed > c.lockTimeout then ResetMark(To(marked, cl, Forcing(o)), cl.host)
      else ResetMark(To(marked, cl, Reentering(o)), cl.host)
  }

  function ApplyGrab(s: State, cl: Client, ts: Oid, applied: bool, out: Outcome): State
    requires At(s, cl).Grabbing?
  {
    var t := if applied && GrabMatches(s, At(s, cl).want)
      then s.(doc := Some(LockDoc(1, ts, cl.proc)),
              acqs := s.acqs[ts := Acquisition(cl, s.now, if out.Confirmed? then Pending else Ended)])
      else s;
    To(t, cl, if out.Confirmed? then Finalizing(ts) else Idle)
  }

  /** The finalizing update names only the lock, not the ts it expects to find. */
  function ApplyFinalize(s: State, cl: Client, applied: bool, out: Outcome): State
    requires At(s, cl).Finalizing?
  {
    var ts := At(s, cl).ts;
    var t := if applied && s.doc.Some? then s.(doc := Some(LockDoc(2, ts, cl.proc))) else s;
    var t := SetPhase(t, ts, if out.Confirmed? then Held else Ended);
    var t := if out.Threw? then t.(late := t.late + {(cl.host, ts)}) else t;
    To(t, cl, if out.Confirmed? then ReadingBack(ts) else Idle)
  }

  function ApplyReadBack(s: State, cl: Client, threw: bool): State
    requires At(s, cl).ReadingBack? && (threw || s.doc.Some?)
  {
    var ts := At(s, cl).ts;
    if threw then
      To(SetPhase(s, ts, Ended).(late := s.late + {(cl.host, ts)}), cl, Idle)
    else To(s, cl, Holding(ts, s.doc.value))
  }

  function ApplyUnlockStart(s: State, cl: Client): State
    requires At(s, cl).Holding?
  {
    var Holding(ts, other) := At(s, cl);
    To(SetPhase(s, ts, Ended), cl,
       if other.state != 2 || other.ts == NO_OID then Idle else Unlocking(other.ts, 0))
  }

  function ApplyUnlockTry(s: State, cl: Client, applied: bool, out: Outcome): State
    requires At(s, cl).Unlocking?
  {
    var Unlocking(freed, tries) := At(s, cl);
    var t := Release(s, applied && DocHasTs(s, freed));
    if out.Confirmed? then To(t, cl, Idle)
    else if tries + 1 < MAX_UNLOCK_ATTEMPTS then To(t, cl, Unlocking(freed, tries + 1))
    else To(t.(late := t.late + {(cl.host, freed)}), cl, Idle)
  }

  /** A client that dies or gives up stops holding whatever it had. */
  function ApplyCrash(s: State, cl: Client): State {
    var t := match At(s, cl)
      case Finalizing(ts) => SetPhase(s, ts, Ended)
      case ReadingBack(ts) => SetPhase(s, ts, Ended)
      case Holding(ts, _) => SetPhase(s, ts, Ended)
      case _ => s;
    To(t, cl, Idle)
  }

  function Apply(c: Config, s: State, step: Step): State
    requires Enabled(s, step)
  {
    match step
    case Tick(d) => s.(now := s.now + d)
    case PingCommit(p, v) => s.(pings := s.pings[p := v], commits := s.commits[(p, v) := s.now])
    case PingCleanup(p) => s.(pings := s.pings - {p})
    case FindLock(cl, reenter) => ApplyFindLock(s, cl, reenter)
    case InsertInitial(cl) =>
      var t := if s.doc.None? then s.(doc := Some(LockDoc(0, NO_OID, ""))) else s;
      ResetMark(To(t, cl, Grabbing(NO_OID)), cl.host)
    case FindPing(cl) =>
      var SawLock(o, canReenter) := At(s, cl);
      To(s, cl, SawPing(o, canReenter, PingOf(s, o.process), s.now))
    case RemoteStart(cl) =>
      var SawPing(o, canReenter, ping, pingAt) := At(s, cl);
      To(s, cl, Asking(o, canReenter, ping, pingAt, MarkOf(s, cl.host), s.now))
    case RemoteFinish(cl, localTime) =>
      var delay := s.now - At(s, cl).startAt;
      ApplyRemote(c, s, cl, if delay > 2 * c.netSkew then None else Some(RemoteReading(localTime, delay)))
    case RemoteFail(cl) => ApplyRemote(c, s, cl, None)
    case Force(cl, applied, out) =>
      var t := Release(s, applied && ForceMatches(s, At(s, cl).o));
      if out.Confirmed? then ResetMark(To(t, cl, Grabbing(NO_OID)), cl.host) else To(t, cl, Idle)
    case Reenter(cl, out) => To(s, cl, Idle)
    case Grab(cl, ts, applied, out) => ApplyGrab(s, cl, ts, applied, out)
    case Finalize(cl, applied, out) => ApplyFinalize(s, cl, applied, out)
    case ReadBack(cl, threw) => ApplyReadBack(s, cl, threw)
    case UnlockStart(cl) => ApplyUnlockStart(s, cl)
    case UnlockTry(cl, applied, out) => ApplyUnlockTry(s, cl, applied, out)
    case LateUnlock(host, ts, applied, removed) =>
      var t := Release(s, applied && DocHasTs(s, ts));
      if removed then t.(late := t.late - {(host, ts)}) else t
    case Crash(cl) => ApplyCrash(s, cl)
  }

  // ---------------------------------------------------------------- timing assumptions and runs

  /** Lock timeout, network skew, and the three bounds a deployment keeps: from a contender's ping
      read to its `remoteTime` call, between two pings of a holder, from state 1 to state 2. */
  datatype Config = Config(lockTimeout: nat, netSkew: nat, readGap: nat, pingGap: nat, finalizeBy: nat)

  predicate Init(s: State) {
    && s.now >= 0
    && s == State(s.now, None, map[], map[], map[], map[], {}, map[])
  }

  predicate Live(s: State, ts: Oid) {
    ts in s.acqs && !s.acqs[ts].phase.Ended?
  }

  /** When the ping value v of process p was committed; 0 for the "no ping found" value. */
  function CommittedAt(s: State, p: Process, v: Time): Time {
    if (p, v) in s.commits then s.commits[(p, v)] else 0
  }

  function Max(a: int, b: int): int { if a < b then b else a }

  function Min(a: int, b: int): int { if a < b then a else b }

  ghost predicate Timely(c: Config, s: State) {
    && (forall ts | ts in s.acqs && s.acqs[ts].phase.Pending? :: s.now <= s.acqs[ts].casAt + c.finalizeBy)
    && (forall ts | ts in s.acqs && s.acqs[ts].phase.Held? ::
          var p := s.acqs[ts].client.proc;
          s.now <= Max(CommittedAt(s, p, PingOf(s, p)), s.acqs[ts].casAt) + c.pingGap)
    && (forall cl | cl in s.attempts && s.attempts[cl].Asking? ::
          s.attempts[cl].startAt - s.attempts[cl].pingAt <= c.readGap)
  }

  ghost predicate TimelyRun(c: Config, s: State, steps: seq<Step>)
    decreases |steps|
  {
    steps == [] ||
    (Timely(c, s) && Enabled(s, steps[0]) && TimelyRun(c, Apply(c, s, steps[0]), steps[1..]))
  }

  ghost function After(c: Config, s: State, steps: seq<Step>): State
    requires TimelyRun(c, s, steps)
    decreases |steps|
  {
    if steps == [] then s else After(c, Apply(c, s, steps[0]), steps[1..])
  }
}
