/** Opening a cursor on every shard a query needs: the start and finish passes, their retries, and
    the flags kept for each shard. */
module ShardInit {
  import opened Wrappers

  type Shard = string
  type Namespace = string

  // ---------------------------------------------------------------- one shard's entry

  datatype Conn = NoConn | Open | Closed

  /** Which routing information a connection was made under: an unsharded collection's primary, or
      a chunk manager. */
  datatype Version = Primary(handle: nat, shard: Shard) | Manager(id: nat)

  /** `ParallelConnectionState`. */
  datatype State = State(conn: Conn, cursor: bool, version: Option<Version>)

  /** `ParallelConnectionMetadata`. */
  datatype Meta = Meta(pcState: Option<State>, retryNext: bool, initialized: bool, finished: bool, completed: bool,
                       errored: bool)

  const EMPTY := Meta(None, false, false, false, false, false)

  /** What `cleanup` verifies on its way. */
  predicate CleanupHolds(m: Meta, full: bool) {
    var retry := m.retryNext && !full && !m.errored;
    if !retry && m.pcState.Some? then
      !(m.errored && m.pcState.value.conn != NoConn) && m.initialized ==>
        m.pcState.value.cursor && m.pcState.value.conn != NoConn
    else
      m.finished || !m.initialized
  }

  function Cleanup(m: Meta, full: bool): Meta
    requires CleanupHolds(m, full)
  {
    var retry := m.retryNext && !full && !m.errored;
    EMPTY.(pcState := if retry then m.pcState else None, retryNext := retry)
  }

  /** The order of the flags and what each of them says about the connection. */
  ghost predicate Sound(m: Meta, versioned: bool) {
    && (m.completed ==> m.finished) && (m.finished ==> m.initialized) && (m.initialized ==> m.pcState.Some?)
    && !m.errored
    && (m.retryNext && m.initialized ==> m.finished && !m.completed)
    && (m.initialized ==>
          var s := m.pcState.value;
          && s.cursor && s.conn == (if m.completed then Closed else Open)
          && (s.version.Some? <==> versioned))
  }

  /** After a start pass: what is there is initialized and not waiting for a retry. */
  ghost predicate Ready(m: Meta) {
    m.pcState.Some? ==> m.initialized && !m.retryNext
  }

  lemma FullCleanup(m: Meta, versioned: bool)
    requires Sound(m, versioned)
    ensures CleanupHolds(m, true) && Cleanup(m, true) == EMPTY && Sound(EMPTY, versioned)
  {
  }

  // ---------------------------------------------------------------- the outside world

  datatype Routing =
    | NoDatabase
    | ToPrimary(handle: nat, shard: Shard)
    | ToShards(manager: nat, shards: set<Shard>)

  /** How connecting to a shard and sending the query goes. */
  datatype Sent =
    | Lazily
    | Fully
    | SentStale(ns: Namespace, connected: bool)
    | SentSocketError(connected: bool)
    | SentUnreachable(connected: bool)
    | SentError

  /** How receiving the first reply goes: another host is to be tried, nothing came, and so on. */
  datatype Received = Reply | TryAgain | NoReply | ReplyStale(ns: Namespace) | ReplySocketError | ReplyError

  /** What the reply says. */
  datatype Checked = Good | CheckedStale(ns: Namespace) | CheckedError

  /** NoShards is the failed check that a pass has some shard to open. */
  datatype Failure = DatabaseNotFound | NoShards | TooManyRetries | TooManyStale | ShardError(shard: Shard)

  datatype Step = Proceed | Again | Stale(ns: Namespace) | Failed

  datatype Outcome = Done | Thrown(why: Failure)

  /** Everything the run depends on, by pass and shard. */
  datatype World = World(versioned: bool, returnPartial: bool, qShards: set<Shard>, routing: nat -> Routing,
                         compatibleWith: (nat, nat, Shard) -> bool, send: (nat, Shard) -> Sent,
                         receive: (nat, Shard) -> Received, check: (nat, Shard) -> Checked) {
    /** The shards pass k is to open. */
    function Todo(k: nat): set<Shard> {
      if !versioned then qShards
      else match routing(k)
           case NoDatabase => {}
           case ToPrimary(_, shard) => {shard}
           case ToShards(_, shards) => shards
    }

    function VersionOf(k: nat): Option<Version> {
      if !versioned then None
      else match routing(k)
           case NoDatabase => None
           case ToPrimary(handle, shard) => Some(Primary(handle, shard))
           case ToShards(manager, _) => Some(Manager(manager))
    }

    /** Whether a connection made under `was` serves pass k. */
    predicate Compatible(k: nat, was: Option<Version>, shard: Shard) {
      if !versioned then true
      else match (VersionOf(k), was)
           case (Some(Primary(h, p)), Some(v)) => v == Primary(h, p)
           case (Some(Manager(a)), Some(Manager(b))) => compatibleWith(a, b, shard)
           case _ => false
    }

    /** A chunk manager is compatible with itself. */
    ghost predicate Proper() {
      forall id, shard :: compatibleWith(id, id, shard)
    }

    /** Pass k has nothing to open, although its database is there. */
    predicate Idle(k: nat) {
      Todo(k) == {} && !(versioned && routing(k).NoDatabase?)
    }
  }

  // ---------------------------------------------------------------- the machine

  class ParallelSortClusteredCursor {
    const world: World
    var cursorMap: map<Shard, Meta>
    var totalTries: nat
    var staleNSMap: map<Namespace, nat>
    var numServers: nat

    constructor (w: World)
      requires w.Proper()
      ensures Valid() && world == w && totalTries == 0 && cursorMap == map[]
    {
      world, cursorMap, totalTries, staleNSMap, numServers := w, map[], 0, map[], 0;
    }

    ghost predicate Valid()
      reads this`cursorMap, this`totalTries, this`staleNSMap
    {
      && world.Proper() && totalTries < 10
      && (forall ns | ns in staleNSMap :: 2 <= staleNSMap[ns] <= 4)
      && (!world.versioned ==> cursorMap.Keys <= world.qShards)
      && forall s | s in cursorMap :: Sound(cursorMap[s], world.versioned)
    }

    /** A shard's entry is ready for pass k: open and compatible, or given up for a partial result. */
    ghost predicate Opened(k: nat, m: Meta, s: Shard) {
      && Ready(m)
      && (m.pcState.Some? ==> s in world.Todo(k) && world.Compatible(k, m.pcState.value.version, s))
      && (!world.returnPartial && s in world.Todo(k) ==> m.pcState.Some?)
    }

    /** An open connection that pass k can go on using. */
    predicate Serves(k: nat, m: Meta, s: Shard)
      requires m.initialized ==> m.pcState.Some?
    {
      m.initialized && world.Compatible(k, m.pcState.value.version, s) && !m.retryNext
    }

    /** What a start pass leaves behind; k is the pass. */
    ghost predicate Started(k: nat)
      reads this`cursorMap
    {
      && (forall s | s in cursorMap :: Opened(k, cursorMap[s], s))
      && world.Todo(k) <= cursorMap.Keys
    }

    /** What a finish pass leaves behind. */
    ghost predicate AllCompleted(k: nat)
      reads this`cursorMap
    {
      && (forall s | s in cursorMap :: cursorMap[s].completed && Opened(k, cursorMap[s], s))
      && (!world.returnPartial ==> cursorMap.Keys == world.Todo(k))
    }

    /** `_markStaleNS`. A namespace that was never stale starts at one, so that the fourth time is
        one too many. */
    method MarkStaleNS(ns: Namespace) returns (r: Outcome, forceReload: bool)
      requires Valid()
      modifies this`staleNSMap
      ensures r.Done? || r == Thrown(TooManyStale)
      ensures r.Done? <==> ns !in old(staleNSMap) || old(staleNSMap)[ns] < 4
      ensures r.Done? ==> Valid() && ns in staleNSMap
      ensures r.Done? ==> staleNSMap[ns] == if ns in old(staleNSMap) then old(staleNSMap)[ns] + 1 else 2
      ensures r.Done? ==> (forceReload <==> ns in old(staleNSMap))
    {
      if ns !in staleNSMap {
        staleNSMap := staleNSMap[ns := 1];
      }
      staleNSMap := staleNSMap[ns := staleNSMap[ns] + 1];
      var tries := staleNSMap[ns];
      if tries >= 5 {
        return Thrown(TooManyStale), false;
      }
      return Done, tries > 2;
    }

    /** Cleans up the cursors on shards the routing no longer names. */
    method CloseExtra(todo: set<Shard>)
      requires Valid()
      modifies this`cursorMap
      ensures Valid() && cursorMap.Keys == old(cursorMap).Keys
      ensures forall s | s in cursorMap :: cursorMap[s] == if s in todo then old(cursorMap)[s] else EMPTY
    {
      hide Sound;
      hide Cleanup;
      hide CleanupHolds;
      var rest := cursorMap.Keys;
      while rest != {}
        invariant Valid() && cursorMap.Keys == old(cursorMap).Keys && rest <= cursorMap.Keys
        invariant forall s | s in cursorMap ::
          cursorMap[s] == if s in todo || s in rest then old(cursorMap)[s] else EMPTY
        decreases |rest|
      {
        var s :| s in rest;
        if s !in todo {
          FullCleanup(cursorMap[s], world.versioned);
          cursorMap := cursorMap[s := Cleanup(cursorMap[s], true)];
        }
        rest := rest - {s};
      }
    }

    /** The body of `startInit` for one shard. A connection that serves this pass is left alone; any
        other is replaced by one made under this pass's routing. */
    method StartShard(shard: Shard, pass: nat) returns (r: Step)
      requires Valid() && shard in world.Todo(pass)
      modifies this`cursorMap
      ensures !r.Again?
      ensures shard in cursorMap
      ensures r.Proceed? || r.Stale? ==> Valid() && cursorMap == old(cursorMap)[shard := cursorMap[shard]]
      ensures r.Proceed? ==> Opened(pass, cursorMap[shard], shard)
      ensures old(shard in cursorMap && Serves(pass, cursorMap[shard], shard)) ==> r.Proceed? && cursorMap == old(cursorMap)
      ensures !old(shard in cursorMap && Serves(pass, cursorMap[shard], shard)) && r.Proceed? ==>
        !cursorMap[shard].completed
        && (cursorMap[shard].pcState.Some? ==> cursorMap[shard].pcState.value.version == world.VersionOf(pass))
    {
      if shard !in cursorMap {
        cursorMap := cursorMap[shard := EMPTY];
      }
      var m := cursorMap[shard];
      if m.initialized {
        // The original verifies this.
        assert m.pcState.Some?;
        if world.Compatible(pass, m.pcState.value.version, shard) {
          if !m.retryNext {
            return Proceed;
          }
          m := Cleanup(m, false);
        } else {
          m := Cleanup(m, true);
        }
      } else {
        m := Cleanup(m, false);
      }
      var state := State(NoConn, false, world.VersionOf(pass));
      match world.send(pass, shard) {
        case Lazily =>
          m := m.(pcState := Some(state.(conn := Open, cursor := true)), retryNext := false, initialized := true);
          r := Proceed;
        case Fully =>
          m := m.(pcState := Some(state.(conn := Open, cursor := true)), retryNext := false, initialized := true,
                  finished := true);
          r := Proceed;
        case SentStale(ns, connected) =>
          m := m.(pcState := Some(if connected then state.(conn := Open) else state));
          r := Stale(ns);
        case SentSocketError(connected) =>
          m := m.(pcState := Some(if connected then state.(conn := Open) else state), errored := true);
          if world.returnPartial {
            m := Cleanup(m, true);
            r := Proceed;
          } else {
            r := Failed;
          }
        case SentUnreachable(connected) =>
          m := m.(pcState := Some(if connected then state.(conn := Open) else state), errored := true);
          if world.returnPartial {
            m := Cleanup(m, true);
            r := Proceed;
          } else {
            r := Failed;
          }
        case SentError =>
          m := m.(errored := true);
          r := Failed;
      }
      cursorMap := cursorMap[shard := m];
    }

    /** The loop of `startInit` over the shards the routing of this pass names. */
    method StartShards(pass: nat) returns (r: Step, shard: Shard)
      requires Valid()
      requires forall s | s in cursorMap && s !in world.Todo(pass) :: Opened(pass, cursorMap[s], s)
      modifies this`cursorMap
      ensures r.Proceed? || r.Stale? ==> Valid()
      ensures r.Proceed? ==> Started(pass)
    {
      hide Sound;
      hide Opened;
      shard := "";
      ghost var todo := world.Todo(pass);
      var rest := world.Todo(pass);
      while rest != {}
        invariant Valid() && rest <= todo
        invariant forall s | s in cursorMap && s !in rest :: Opened(pass, cursorMap[s], s)
        invariant todo - rest <= cursorMap.Keys
        decreases |rest|
      {
        shard :| shard in rest;
        r := StartShard(shard, pass);
        if !r.Proceed? {
          return;
        }
        rest := rest - {shard};
      }
      r := Proceed;
    }

    /** `startInit`. */
    method StartInit() returns (r: Outcome)
      requires Valid()
      modifies this
      ensures r.Done? ==> old(totalTries) < totalTries < 10 && Valid() && Started(totalTries - 1)
      ensures r.Done? ==> forall s | s in cursorMap :: FinalChecks(totalTries - 1, s, cursorMap[s])
      ensures r == Thrown(NoShards) ==> world.Idle(totalTries)
      ensures world.Idle(old(totalTries)) ==> r == Thrown(NoShards)
      ensures r == Thrown(DatabaseNotFound) ==> world.versioned && world.routing(totalTries).NoDatabase?
      ensures numServers == old(numServers)
      decreases 10 - totalTries
    {
      var pass := totalTries;
      if world.versioned {
        if world.routing(pass).NoDatabase? {
          return Thrown(DatabaseNotFound);
        }
        CloseExtra(world.Todo(pass));
      }
      if world.Todo(pass) == {} {
        return Thrown(NoShards);
      }
      totalTries := totalTries + 1;
      if totalTries >= 10 {
        return Thrown(TooManyRetries);
      }
      ghost var tries := totalTries;
      var step, shard := StartShards(pass);
      hide Valid;
      match step {
        case Stale(ns) =>
          var forceReload;
          r, forceReload := MarkStaleNS(ns);
          if r.Done? {
            r := StartInit();
          }
        case Proceed =>
          FinalChecksHold(pass);
          r := Done;
        case _ =>
          r := Thrown(ShardError(shard));
      }
    }

    lemma FinalChecksHold(pass: nat)
      requires Valid() && Started(pass)
      ensures forall s | s in cursorMap :: FinalChecks(pass, s, cursorMap[s])
    {
    }

    /** What `startInit` verifies of each entry at its end. */
    ghost predicate FinalChecks(pass: nat, s: Shard, m: Meta) {
      m.pcState.Some? ==>
        && s in world.Todo(pass) && m.initialized && (!m.completed ==> m.pcState.value.conn == Open)
        && m.pcState.value.cursor && (world.versioned <==> m.pcState.value.version.Some?) && !m.retryNext
        && (m.completed ==> m.finished) && (m.finished ==> m.initialized)
    }

    /** The body of `finishInit` for one shard. */
    method FinishShard(shard: Shard, pass: nat) returns (r: Step)
      requires Valid() && shard in cursorMap && Opened(pass, cursorMap[shard], shard)
      modifies this`cursorMap
      ensures shard in cursorMap
      ensures !r.Failed? ==> Valid() && cursorMap == old(cursorMap)[shard := cursorMap[shard]]
      ensures r.Proceed? ==> Opened(pass, cursorMap[shard], shard)
      ensures r.Proceed? && cursorMap[shard].pcState.Some? ==> cursorMap[shard].completed
    {
      var m := cursorMap[shard];
      if m.pcState.None? {
        return Proceed;
      }
      // The original verifies these.
      assert !m.completed ==> m.pcState.value.conn == Open;
      assert m.pcState.value.cursor && (world.versioned <==> m.pcState.value.version.Some?);
      if !m.finished {
        m := m.(finished := true, retryNext := false);
        match world.receive(pass, shard)
        case Reply =>
          m := m.(completed := false);
        case TryAgain =>
          m := m.(retryNext := true);
          cursorMap := cursorMap[shard := m];
          return Again;
        case NoReply =>
          m := m.(errored := true);
          r := GiveUp(shard, m);
          return;
        case ReplyStale(ns) =>
          m := Cleanup(m, true);
          cursorMap := cursorMap[shard := m];
          return Stale(ns);
        case ReplySocketError =>
          m := m.(errored := true);
          r := GiveUp(shard, m);
          return;
        case ReplyError =>
          cursorMap := cursorMap[shard := m.(errored := true)];
          return Failed;
      }
      if !m.completed {
        m := m.(completed := true);
        match world.check(pass, shard)
        case Good =>
          m := m.(pcState := Some(m.pcState.value.(conn := Closed)));
        case CheckedStale(ns) =>
          m := Cleanup(m, true);
          cursorMap := cursorMap[shard := m];
          return Stale(ns);
        case CheckedError =>
          cursorMap := cursorMap[shard := m.(errored := true)];
          return Failed;
      }
      cursorMap := cursorMap[shard := m];
      return Proceed;
    }

    /** A failed shard is dropped when a partial result is wanted, and fails the query otherwise. */
    method GiveUp(shard: Shard, m: Meta) returns (r: Step)
      requires Valid() && shard in cursorMap
      requires m.errored && m.pcState.Some? && m.pcState.value.conn == Open
      modifies this`cursorMap
      ensures shard in cursorMap
      ensures r == if world.returnPartial then Proceed else Failed
      ensures r.Proceed? ==> Valid() && cursorMap == old(cursorMap)[shard := EMPTY]
    {
      if world.returnPartial {
        cursorMap := cursorMap[shard := Cleanup(m, true)];
        return Proceed;
      }
      cursorMap := cursorMap[shard := m];
      return Failed;
    }

    /** The loop of `finishInit` over the shards: whether to start again, and which namespaces were
        stale. */
    method FinishShards(pass: nat) returns (r: Outcome, retry: bool, staleNS: set<Namespace>)
      requires Valid() && Started(pass)
      modifies this`cursorMap
      ensures r.Done? || r.why.ShardError?
      ensures r.Done? ==> Valid()
      ensures r.Done? && !retry ==>
        Started(pass) && forall s | s in cursorMap && cursorMap[s].pcState.Some? :: cursorMap[s].completed
    {
      retry, staleNS := false, {};
      hide Sound;
      hide Opened;
      var rest := cursorMap.Keys;
      while rest != {}
        invariant Valid() && cursorMap.Keys == old(cursorMap).Keys && rest <= cursorMap.Keys
        invariant forall s | s in rest :: Opened(pass, cursorMap[s], s)
        invariant !retry ==> forall s | s in cursorMap && s !in rest ::
          Opened(pass, cursorMap[s], s) && (cursorMap[s].pcState.Some? ==> cursorMap[s].completed)
        decreases |rest|
      {
        var shard :| shard in rest;
        var step := FinishShard(shard, pass);
        match step {
          case Proceed =>
          case Again =>
            retry := true;
          case Stale(ns) =>
            retry := true;
            staleNS := staleNS + {ns};
          case Failed =>
            return Thrown(ShardError(shard)), retry, staleNS;
        }
        rest := rest - {shard};
      }
      r := Done;
    }

    /** `finishInit`. */
    method FinishInit() returns (r: Outcome)
      requires Valid() && totalTries > 0 && Started(totalTries - 1)
      modifies this
      ensures r.Done? ==> Valid() && totalTries > 0 && AllCompleted(totalTries - 1) && numServers == |cursorMap|
      ensures r == Thrown(NoShards) ==> world.Idle(totalTries)
      decreases 10 - totalTries
    {
      hide Valid;
      hide Started;
      hide AllCompleted;
      var retry, staleNS;
      r, retry, staleNS := FinishShards(totalTries - 1);
      if r.Thrown? {
        return;
      }
      if retry {
        r := MarkAllStale(staleNS);
        if r.Done? {
          r := StartInit();
          if r.Done? {
            r := FinishInit();
          }
        }
        return;
      }
      EraseEmpty(totalTries - 1);
      numServers := |cursorMap|;
      return Done;
    }

    method MarkAllStale(namespaces: set<Namespace>) returns (r: Outcome)
      requires Valid()
      modifies this`staleNSMap
      ensures r.Done? || r == Thrown(TooManyStale)
      ensures r.Done? ==> Valid()
    {
      var rest := namespaces;
      while rest != {}
        invariant Valid()
        decreases |rest|
      {
        var ns :| ns in rest;
        var forceReload;
        r, forceReload := MarkStaleNS(ns);
        if r.Thrown? {
          return;
        }
        rest := rest - {ns};
      }
      r := Done;
    }

    /** Drops the shards that were given up; the rest is complete. */
    method EraseEmpty(pass: nat)
      requires Valid() && Started(pass)
      requires forall s | s in cursorMap && cursorMap[s].pcState.Some? :: cursorMap[s].completed
      modifies this`cursorMap
      ensures Valid() && AllCompleted(pass)
    {
      var rest := cursorMap.Keys;
      while rest != {}
        invariant Valid() && rest <= cursorMap.Keys
        invariant forall s | s in cursorMap :: Opened(pass, cursorMap[s], s)
        invariant forall s | s in cursorMap && cursorMap[s].pcState.Some? :: cursorMap[s].completed
        invariant forall s | s in cursorMap && s !in rest :: cursorMap[s].pcState.Some?
        invariant !world.returnPartial ==> world.Todo(pass) <= cursorMap.Keys
        decreases |rest|
      {
        var s :| s in rest;
        if cursorMap[s].pcState.None? {
          cursorMap := map k | k in cursorMap && k != s :: cursorMap[k];
        } else {
          // The original verifies these.
          assert cursorMap[s].initialized && cursorMap[s].finished && cursorMap[s].completed;
          assert cursorMap[s].pcState.value.conn != Open && cursorMap[s].pcState.value.cursor;
          assert world.versioned <==> cursorMap[s].pcState.value.version.Some?;
        }
        rest := rest - {s};
      }
    }

    /** `fullInit`: after at most nine passes every remaining shard is complete and was opened under
        the routing of the last pass or one compatible with it; without partial results these are
        exactly the shards that routing names. The check that there is some shard to open fails only
        on a routing that names none. */
    method FullInit() returns (r: Outcome)
      requires Valid()
      modifies this
      ensures r.Done? ==> Valid() && 1 <= totalTries <= 9 && AllCompleted(totalTries - 1) && numServers == |cursorMap|
      ensures r == Thrown(NoShards) ==> world.Idle(totalTries)
    {
      r := StartInit();
      if r.Done? {
        r := FinishInit();
      }
    }
  }
}
