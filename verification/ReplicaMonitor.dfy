/** The monitor's view of a replica set: the node list edited in place and the cached primary. */
module ReplicaMonitor {
  import opened ReplicaSelect
  import opened Wrappers

  // ---------------------------------------------------------------- host lists

  function Addrs(nodes: seq<Node>): set<Host> {
    set i | 0 <= i < |nodes| :: nodes[i].addr
  }

  function Hosts(list: seq<Host>): set<Host> {
    set i | 0 <= i < |list| :: list[i]
  }

  predicate DistinctList(list: seq<Host>) {
    forall i, j | 0 <= i < j < |list| :: list[i] != list[j]
  }

  /** The nodes whose addresses stay, with their records and in their order. */
  function Survivors(nodes: seq<Node>, list: set<Host>): seq<Node> {
    if nodes == [] then []
    else (if nodes[0].addr in list then [nodes[0]] else []) + Survivors(nodes[1..], list)
  }

  lemma SurvivorsCons(n: Node, rest: seq<Node>, list: set<Host>)
    ensures Survivors([n] + rest, list) == (if n.addr in list then [n] else []) + Survivors(rest, list)
  {
    assert ([n] + rest)[1..] == rest;
  }

  lemma {:induction false} SurvivorsOfJoin(a: seq<Node>, b: seq<Node>, list: set<Host>)
    ensures Survivors(a + b, list) == Survivors(a, list) + Survivors(b, list)
  {
    if a == [] {
      assert a + b == b;
    } else {
      hide Survivors;
      var n, rest := a[0], a[1..];
      SurvivorsOfJoin(rest, b, list);
      assert a == [n] + rest && a + b == [n] + (rest + b);
      SurvivorsCons(n, rest, list);
      SurvivorsCons(n, rest + b, list);
    }
  }

  lemma {:induction false} SurvivorsOfAll(nodes: seq<Node>, list: set<Host>)
    requires forall i | 0 <= i < |nodes| :: nodes[i].addr in list
    ensures Survivors(nodes, list) == nodes
  {
    if nodes != [] {
      SurvivorsOfAll(nodes[1..], list);
    }
  }

  lemma {:induction false} SurvivorsAddrs(nodes: seq<Node>, list: set<Host>)
    requires DistinctHosts(nodes)
    ensures DistinctHosts(Survivors(nodes, list)) && Addrs(Survivors(nodes, list)) == Addrs(nodes) * list
  {
    if nodes != [] {
      var n, tail := nodes[0], nodes[1..];
      var rest := Survivors(tail, list);
      SurvivorsAddrs(tail, list);
      assert nodes == [n] + tail;
      AddrsCons(n, tail);
      AddrsCons(n, rest);
      NotAmong(n, tail);
      hide Addrs;
      hide DistinctHosts;
      if n.addr in list {
        assert Survivors(nodes, list) == [n] + rest;
      } else {
        assert Survivors(nodes, list) == rest;
      }
    }
  }

  lemma NotAmong(n: Node, rest: seq<Node>)
    requires DistinctHosts([n] + rest)
    ensures n.addr !in Addrs(rest)
  {
    var all := [n] + rest;
    forall i | 0 <= i < |rest| ensures rest[i].addr != n.addr {
      assert all[0] == n && all[i + 1] == rest[i];
    }
  }

  lemma AddrsCons(n: Node, rest: seq<Node>)
    ensures Addrs([n] + rest) == {n.addr} + Addrs(rest)
    ensures DistinctHosts(rest) && n.addr !in Addrs(rest) ==> DistinctHosts([n] + rest)
  {
    var all := [n] + rest;
    assert all[0] == n;
    assert forall i | 0 <= i < |rest| :: rest[i].addr in Addrs(rest);
    assert forall i | 0 < i < |all| :: all[i] == rest[i - 1];
    forall h | h in Addrs(rest) ensures h in Addrs(all) {
      var i :| 0 <= i < |rest| && rest[i].addr == h;
      assert all[i + 1].addr == h;
    }
  }

  lemma AddrsPush(nodes: seq<Node>, n: Node)
    requires DistinctHosts(nodes) && n.addr !in Addrs(nodes)
    ensures DistinctHosts(nodes + [n]) && Addrs(nodes + [n]) == Addrs(nodes) + {n.addr}
  {
    var all := nodes + [n];
    assert all[|nodes|] == n;
    forall h | h in Addrs(nodes) ensures h in Addrs(all) {
      var i :| 0 <= i < |nodes| && nodes[i].addr == h;
      assert all[i].addr == h;
    }
    assert forall i | 0 <= i < |nodes| :: nodes[i].addr in Addrs(nodes);
  }

  lemma {:induction false} AddrCount(nodes: seq<Node>)
    requires DistinctHosts(nodes)
    ensures |Addrs(nodes)| == |nodes|
  {
    if nodes != [] {
      AddrCount(nodes[1..]);
      AddrsCons(nodes[0], nodes[1..]);
      assert nodes == [nodes[0]] + nodes[1..];
    }
  }

  lemma {:induction false} HostCount(list: seq<Host>)
    ensures |Hosts(list)| <= |list|
    ensures DistinctList(list) <==> |Hosts(list)| == |list|
  {
    if list != [] {
      var rest := list[1..];
      HostCount(rest);
      assert Hosts(list) == {list[0]} + Hosts(rest);
      assert forall i | 0 < i < |list| :: list[i] == rest[i - 1];
      assert list[0] in Hosts(rest) <==> exists i :: 0 < i < |list| && list[i] == list[0];
    }
  }

  /** The answer of `_shouldChangeHosts`. */
  ghost predicate ShouldChange(nodes: seq<Node>, list: seq<Host>) {
    list != [] && (|list| != |nodes| || !(Hosts(list) <= Addrs(nodes)))
  }

  /** The list names just the hosts already known, but repeats some. */
  ghost predicate Miscounts(nodes: seq<Node>, list: seq<Host>) {
    list != [] && Hosts(list) == Addrs(nodes) && |list| != |nodes|
  }

  /** Counting stands in for comparing the address sets exactly when either some reported host is
      unknown, or the list, repeats included, is as long as the node list just when the address
      sets agree. */
  lemma ShouldChangeAgrees(nodes: seq<Node>, list: seq<Host>)
    requires DistinctHosts(nodes) && list != []
    ensures (ShouldChange(nodes, list) <==> Hosts(list) != Addrs(nodes)) <==>
      (Hosts(list) <= Addrs(nodes) ==> (|list| == |nodes| <==> |Hosts(list)| == |nodes|))
  {
    AddrCount(nodes);
    if Hosts(list) <= Addrs(nodes) {
      SubsetSize(Hosts(list), Addrs(nodes));
    }
  }

  /** For lists without repeats counting is enough. */
  lemma ShouldChangeOfDistinct(nodes: seq<Node>, list: seq<Host>)
    requires DistinctHosts(nodes) && DistinctList(list)
    ensures ShouldChange(nodes, list) <==> list != [] && Hosts(list) != Addrs(nodes)
  {
    if list != [] {
      HostCount(list);
      ShouldChangeAgrees(nodes, list);
    }
  }

  /** A repeated host hides a removed one, and makes a change out of none. */
  lemma RepeatsMislead(a: Node, b: Node)
    requires a.addr != b.addr
    ensures !ShouldChange([a, b], [a.addr, a.addr]) && Hosts([a.addr, a.addr]) != Addrs([a, b])
    ensures ShouldChange([a, b], [a.addr, b.addr, a.addr]) && Miscounts([a, b], [a.addr, b.addr, a.addr])
  {
    var same, more := [a.addr, a.addr], [a.addr, b.addr, a.addr];
    assert forall h | h in Hosts(same) :: h == a.addr;
    assert [a, b][0] == a && [a, b][1] == b;
    assert more[0] == a.addr && more[1] == b.addr;
    assert Addrs([a, b]) == {a.addr, b.addr};
    assert Hosts(more) == {a.addr, b.addr};
    assert b.addr !in Hosts(same) && b.addr in Addrs([a, b]);
  }

  // ---------------------------------------------------------------- the monitor

  /** What came of asking one member who it is. `hosts` is the list it reported. */
  datatype Answer =
    | NoConnection
    | AnotherSet
    | Failed
    | Replied(ismaster: bool, secondary: bool, hidden: bool, millis: int, tags: Option<Tag>, hosts: seq<Host>)

  /** How `_checkHosts` ends; CheckFailed is the exception of its own check. */
  datatype HostsCheck = Kept | Rebuilt | CheckFailed

  class ReplicaSetMonitor {
    var nodes: seq<Node>
    var master: int
    var failedChecks: nat

    constructor ()
      ensures Valid() && nodes == [] && master == -1
    {
      nodes, master, failedChecks := [], -1, 0;
    }

    ghost predicate Valid()
      reads this
    {
      -1 <= master < |nodes| && DistinctHosts(nodes)
    }

    /** `_find_inlock`. */
    method Find(server: Host) returns (index: int)
      ensures -1 <= index < |nodes|
      ensures index >= 0 ==> nodes[index].addr == server
      ensures index < 0 <==> server !in Addrs(nodes)
    {
      var i := 0;
      while i < |nodes|
        invariant 0 <= i <= |nodes|
        invariant forall k | 0 <= k < i :: nodes[k].addr != server
      {
        if nodes[i].addr == server {
          assert server in Addrs(nodes);
          return i;
        }
        i := i + 1;
      }
      return -1;
    }

    method ShouldChangeHosts(hostList: seq<Host>) returns (b: bool)
      ensures b <==> ShouldChange(nodes, hostList)
    {
      var origHosts, numHosts, changed := |nodes|, 0, false;
      var hi := 0;
      while hi < |hostList|
        invariant 0 <= hi <= |hostList| && numHosts == hi && !changed
        invariant forall k | 0 <= k < hi :: hostList[k] in Addrs(nodes)
      {
        numHosts := numHosts + 1;
        var index := Find(hostList[hi]);
        if index < 0 {
          changed := true;
          assert hostList[hi] in Hosts(hostList);
          break;
        }
        hi := hi + 1;
      }
      return (changed || origHosts != numHosts) && numHosts > 0;
    }

    /** Which reported hosts are new, and which node indices are gone. */
    method GetHostDiff(hostList: seq<Host>) returns (added: set<Host>, removed: set<int>)
      requires DistinctHosts(nodes)
      ensures added == Hosts(hostList) - Addrs(nodes)
      ensures removed == set i | 0 <= i < |nodes| && nodes[i].addr !in Hosts(hostList)
    {
      added := {};
      var nodesFound: set<int> := {};
      var hi := 0;
      while hi < |hostList|
        invariant 0 <= hi <= |hostList|
        invariant added == Hosts(hostList[..hi]) - Addrs(nodes)
        invariant nodesFound == set i | 0 <= i < |nodes| && nodes[i].addr in Hosts(hostList[..hi])
      {
        HostsStep(hostList, hi);
        var nodeIndex := Find(hostList[hi]);
        if nodeIndex < 0 {
          added := added + {hostList[hi]};
        } else {
          nodesFound := nodesFound + {nodeIndex};
        }
        hi := hi + 1;
      }
      assert hostList[..hi] == hostList;
      removed := {};
      var i := 0;
      while i < |nodes|
        invariant 0 <= i <= |nodes|
        invariant removed == set k | 0 <= k < i && nodes[k].addr !in Hosts(hostList)
      {
        if i !in nodesFound {
          removed := removed + {i};
        }
        i := i + 1;
      }
    }

    /** Erases the nodes at the given indices, the highest first so that the others stay valid. */
    method EraseNodes(removed: set<int>, ghost keep: set<Host>)
      requires removed == set i | 0 <= i < |nodes| && nodes[i].addr !in keep
      modifies this`nodes
      ensures nodes == Survivors(old(nodes), keep)
    {
      var rest := removed;
      ghost var all, bound: nat := nodes, |nodes|;
      ErasedStarts(all, keep);
      hide ErasedDownTo;
      while rest != {}
        invariant ErasedDownTo(all, keep, bound, rest, nodes)
        decreases |rest|
      {
        ghost var top := Highest(rest);
        var i :| i in rest && forall k | k in rest :: k <= i;
        ErasedStep(all, keep, bound, rest, nodes, i);
        nodes := nodes[..i] + nodes[i + 1..];
        rest := rest - {i};
        bound := i;
      }
      ErasedEnds(all, keep, bound, nodes);
    }

    /** Connects to hosts that are new and appends their nodes; `connects` says which attempts
        succeed. */
    method AddNodes(added: set<Host>, connects: Host -> bool)
      requires DistinctHosts(nodes) && added !! Addrs(nodes)
      modifies this`nodes
      ensures GrownBy(old(nodes), added, connects, nodes)
    {
      var rest := added;
      ghost var before := nodes;
      GrownStarts(before, connects);
      assert added - rest == {};
      hide GrownBy;
      hide Addrs;
      hide DistinctHosts;
      while rest != {}
        invariant rest <= added && GrownBy(before, added - rest, connects, nodes)
        decreases |rest|
      {
        var host :| host in rest;
        GrownStep(before, added, rest, connects, nodes, host);
        nodes := nodes + [NewNode(host, connects(host))];
        rest := rest - {host};
      }
      assert added - rest == added;
    }

    /** `_checkHosts`: a list that calls for a change makes the nodes exactly the reported ones,
        survivors first and untouched, and the cached primary is forgotten. Its own check that there
        is something to add or to remove fails exactly on a list that names the known hosts and
        repeats some. */
    method CheckHosts(hostList: seq<Host>, connects: Host -> bool) returns (outcome: HostsCheck)
      requires Valid()
      modifies this`nodes, this`master
      ensures Valid()
      ensures outcome == CheckFailed <==> Miscounts(old(nodes), hostList)
      ensures outcome == Rebuilt <==> ShouldChange(old(nodes), hostList) && Hosts(hostList) != old(Addrs(nodes))
      ensures outcome != Rebuilt ==> nodes == old(nodes) && master == old(master)
      ensures outcome == Rebuilt ==> master == -1 && Addrs(nodes) == Hosts(hostList) && |nodes| == |Hosts(hostList)|
      ensures outcome == Rebuilt ==> TakesOver(old(nodes), hostList, connects, nodes)
      ensures KeepsRecords(old(nodes), nodes)
    {
      ghost var before := nodes;
      var changes := ShouldChangeHosts(hostList);
      if !changes {
        return Kept;
      }
      // The original tests again under its lock; nothing intervenes here.
      var again := ShouldChangeHosts(hostList);
      if !again {
        return Kept;
      }
      var added, removed := GetHostDiff(hostList);
      DifferenceShows(nodes, hostList, added, removed);
      if added == {} && removed == {} {
        return CheckFailed;
      }
      SurvivorsAddrs(nodes, Hosts(hostList));
      hide Addrs;
      hide Hosts;
      hide Survivors;
      hide GrownBy;
      hide KeepsRecords;
      EraseNodes(removed, Hosts(hostList));
      AddNodes(added, connects);
      master := -1;
      GrownToList(before, hostList, connects, nodes);
      return Rebuilt;
    }

    /** `_checkConnMatch_inlock`. */
    predicate ConnMatch(server: Host, offset: nat)
      reads this`nodes
    {
      offset < |nodes| && nodes[offset].addr == server
    }

    method NotifyFailure(server: Host)
      requires Valid()
      modifies this`nodes, this`master
      ensures Valid() && Addrs(nodes) == old(Addrs(nodes))
      ensures if old(master >= 0 && nodes[master].addr == server)
              then master == -1 && nodes == old(nodes)[old(master) := old(nodes[master]).(ok := false)]
              else master == old(master) && nodes == old(nodes)
    {
      if master >= 0 && master < |nodes| {
        if server == nodes[master].addr {
          SetNode(master, nodes[master].(ok := false));
          master := -1;
        }
      }
    }

    method NotifySlaveFailure(server: Host)
      requires Valid()
      modifies this`nodes
      ensures Valid() && Addrs(nodes) == old(Addrs(nodes)) && |nodes| == old(|nodes|)
      ensures forall i | 0 <= i < |nodes| ::
        nodes[i] == if old(nodes)[i].addr == server then old(nodes)[i].(ok := false) else old(nodes)[i]
    {
      var x := Find(server);
      if x >= 0 {
        SetNode(x, nodes[x].(ok := false));
      }
    }

    /** Changes one record and keeps its address. */
    method SetNode(i: nat, n: Node)
      requires DistinctHosts(nodes) && i < |nodes| && n.addr == nodes[i].addr
      modifies this`nodes
      ensures nodes == old(nodes)[i := n] && DistinctHosts(nodes) && Addrs(nodes) == old(Addrs(nodes))
    {
      nodes := nodes[i := n];
      assert forall k | 0 <= k < |nodes| :: nodes[k].addr == old(nodes)[k].addr;
    }

    /** `_checkConnection`: what one member's answer changes. The answer of a server that no longer
        stands where it was asked is ignored; a reply first updates its record and then, if it
        reports other hosts, the list. The failed check of a list with repeats is caught here: the
        member stays where it is and counts as not ok, and yet its word that it is the primary is
        passed on. */
    method CheckConnection(server: Host, offset: nat, answer: Answer, connects: Host -> bool) returns (isMaster: bool)
      requires Valid() && !answer.NoConnection?
      modifies this`nodes, this`master
      ensures Valid() && (master == old(master) || master == -1)
      ensures isMaster <==> answer.Replied? && answer.ismaster && old(ConnMatch(server, offset))
      ensures !old(ConnMatch(server, offset)) ==> nodes == old(nodes) && master == old(master)
      ensures old(ConnMatch(server, offset)) && !answer.Replied? ==>
        nodes == old(nodes)[offset := old(nodes)[offset].(ok := false)] && master == old(master)
      ensures old(ConnMatch(server, offset)) && answer.Replied? ==>
        var updated := old(nodes)[offset := UpdatedNode(old(nodes)[offset], answer)];
        if Miscounts(updated, answer.hosts)
        then nodes == updated[offset := updated[offset].(ok := false)] && master == old(master)
        else if !ShouldChange(updated, answer.hosts) then nodes == updated && master == old(master)
        else master == -1 && |nodes| == |Hosts(answer.hosts)| && TakesOver(updated, answer.hosts, connects, nodes)
      ensures master >= 0 || (answer.Replied? ==> Miscounts(old(nodes), answer.hosts)) ==>
        Addrs(nodes) == old(Addrs(nodes)) && |nodes| == old(|nodes|) &&
        forall k | 0 <= k < |nodes| && k != offset :: nodes[k] == old(nodes)[k]
      ensures isMaster && ConnMatch(server, offset) ==>
        nodes[offset].ismaster && (nodes[offset].ok <==> !Miscounts(old(nodes), answer.hosts))
    {
      hide DistinctHosts;
      hide Addrs;
      hide Hosts;
      hide GrownBy;
      hide KeepsRecords;
      if !ConnMatch(server, offset) {
        return false;
      }
      match answer
      case AnotherSet =>
        SetNode(offset, nodes[offset].(ok := false));
        return false;
      case Failed =>
        if ConnMatch(server, offset) {
          SetNode(offset, nodes[offset].(ok := false));
        }
        return false;
      case Replied(ismaster, secondary, hidden, millis, tags, hosts) =>
        SetNode(offset, UpdatedNode(nodes[offset], answer));
        ghost var updated := nodes;
        var outcome := CheckHosts(hosts, connects);
        if outcome == CheckFailed {
          if ConnMatch(server, offset) {
            SetNode(offset, nodes[offset].(ok := false));
          }
        } else if ConnMatch(server, offset) {
          RecordAt(updated, nodes, offset, offset);
        }
        return ismaster;
    }

    /** `_check`: asks every member, twice if nobody says it is the primary. `answers` gives what
        member i answers in each round. Afterwards the cached primary is a member that answered as
        one in this very check, or none; it counts as ok unless the list it reported is one that
        repeats the known hosts. */
    method Check(answers: (nat, nat) -> Answer, connects: Host -> bool, ghost longest: nat) returns (found: bool)
      requires Valid()
      requires forall round, i :: answers(round, i).Replied? ==> |answers(round, i).hosts| <= longest
      modifies this
      ensures Valid()
      ensures found ==> failedChecks == old(failedChecks)
      ensures found && master >= 0 ==> PrimaryAnswered(0, answers) || PrimaryAnswered(1, answers)
      ensures !found ==> master == -1 && forall i | 0 <= i < |nodes| :: !nodes[i].ismaster
      ensures !found ==>
        failedChecks == if exists i :: 0 <= i < |nodes| && nodes[i].ok then 0 else old(failedChecks) + 1
    {
      var newMaster := -1;
      var retry := 0;
      while retry < 2
        invariant Valid() && failedChecks == old(failedChecks) && newMaster == -1
      {
        newMaster := CheckRound(retry, answers, connects, longest);
        if newMaster >= 0 {
          return true;
        }
        retry := retry + 1;
      }
      master := -1;
      var hasOKNode := false;
      ghost var okAt := 0;
      var i := 0;
      while i < |nodes|
        invariant Valid() && master == -1 && 0 <= i <= |nodes| && failedChecks == old(failedChecks)
        invariant forall k | 0 <= k < i :: !nodes[k].ismaster
        invariant if hasOKNode then okAt < i && nodes[okAt].ok else forall k | 0 <= k < i :: !nodes[k].ok
      {
        SetNode(i, nodes[i].(ismaster := false));
        if nodes[i].ok {
          hasOKNode := true;
          okAt := i;
        }
        i := i + 1;
      }
      if hasOKNode {
        failedChecks := 0;
        return false;
      }
      failedChecks := failedChecks + 1;
      return false;
    }

    /** The cached primary said in this round that it is one, and is on record so. */
    ghost predicate PrimaryAnswered(round: nat, answers: (nat, nat) -> Answer)
      reads this
    {
      && 0 <= master < |nodes| && nodes[master].ismaster
      && answers(round, master).Replied? && answers(round, master).ismaster
      && (nodes[master].ok || Miscounts(nodes, answers(round, master).hosts))
    }

    /** One round of `_check` over the members. */
    method CheckRound(round: nat, answers: (nat, nat) -> Answer, connects: Host -> bool, ghost longest: nat)
      returns (newMaster: int)
      requires Valid()
      requires forall i :: answers(round, i).Replied? ==> |answers(round, i).hosts| <= longest
      modifies this`nodes, this`master
      ensures Valid() && newMaster >= -1
      ensures newMaster >= 0 && master >= 0 ==> PrimaryAnswered(round, answers)
    {
      hide DistinctHosts;
      hide Addrs;
      hide Hosts;
      hide ShouldChange;
      hide TakesOver;
      newMaster := -1;
      ghost var most := if |nodes| < longest then longest else |nodes|;
      var i := 0;
      while i < |nodes|
        invariant Valid() && |nodes| <= most && newMaster >= -1
        invariant newMaster >= 0 && master >= 0 ==> master < i && PrimaryAnswered(round, answers)
        decreases most - i
      {
        var server := nodes[i].addr;
        var answer := answers(round, i);
        if answer.NoConnection? {
          SetNode(i, nodes[i].(ok := false));
          i := i + 1;
          continue;
        }
        var isMaster := CheckConnection(server, i, answer, connects);
        if answer.Replied? {
          HostCount(answer.hosts);
        }
        if isMaster {
          if ConnMatch(server, i) {
            newMaster := i;
            master := i;
          } else {
            break;
          }
        }
        i := i + 1;
      }
    }

    /** `getMaster`: the address of the cached primary if it is ok, else of one that answered so in
        the check; None is the "no master found" error. */
    method GetMaster(answers: (nat, nat) -> Answer, connects: Host -> bool, ghost longest: nat)
      returns (host: Option<Host>)
      requires Valid()
      requires forall round, i :: answers(round, i).Replied? ==> |answers(round, i).hosts| <= longest
      modifies this
      ensures Valid()
      ensures host.Some? ==> 0 <= master && host.value == nodes[master].addr
      ensures old(master >= 0 && nodes[master].ok) ==> unchanged(this) && host.Some?
      ensures host.Some? && !old(master >= 0 && nodes[master].ok) ==>
        PrimaryAnswered(0, answers) || PrimaryAnswered(1, answers)
      ensures host == None ==> master == -1
    {
      // The original verifies this here and after the check.
      assert master < |nodes|;
      if master >= 0 && nodes[master].ok {
        return Some(nodes[master].addr);
      }
      var found := Check(answers, connects, longest);
      if master < 0 {
        return None;
      }
      assert master < |nodes|;
      return Some(nodes[master].addr);
    }
  }

  /** The moving average of ping times: a quarter of the difference, truncated as C truncates. It
      lies between the old value and the sample. */
  function SmoothedPing(ping: int, sample: int): (r: int)
    ensures ping <= sample && ping != 0 ==> ping <= r <= sample
    ensures sample <= ping && ping != 0 ==> sample <= r <= ping
    ensures ping == 0 ==> r == sample
  {
    if ping == 0 then sample
    else if sample >= ping then ping + (sample - ping) / 4
    else ping - (ping - sample) / 4
  }

  /** A member's record after its reply. */
  function UpdatedNode(node: Node, reply: Answer): Node
    requires reply.Replied?
  {
    node.(pingTimeMillis := SmoothedPing(node.pingTimeMillis, reply.millis), hidden := reply.hidden,
          secondary := reply.secondary, ismaster := reply.ismaster, ok := reply.secondary || reply.ismaster,
          tags := reply.tags)
  }

  function NewNode(host: Host, connected: bool): Node {
    Node(host, connected, false, false, false, 0, None)
  }

  /** `nodes` is what survives of `before`, and after it one fresh node for each host that is new. */
  ghost predicate TakesOver(before: seq<Node>, list: seq<Host>, connects: Host -> bool, nodes: seq<Node>) {
    GrownBy(Survivors(before, Hosts(list)), Hosts(list) - Addrs(before), connects, nodes)
  }

  /** A node whose address was known before has the record it had. */
  ghost predicate KeepsRecords(before: seq<Node>, nodes: seq<Node>) {
    forall k | 0 <= k < |nodes| && nodes[k].addr in Addrs(before) :: nodes[k] in before
  }

  lemma {:induction false} SurvivorsAmong(nodes: seq<Node>, list: set<Host>)
    ensures forall n | n in Survivors(nodes, list) :: n in nodes
  {
    if nodes != [] {
      SurvivorsAmong(nodes[1..], list);
    }
  }

  lemma GrownKeeps(before: seq<Node>, list: set<Host>, connects: Host -> bool, nodes: seq<Node>)
    requires DistinctHosts(before) && GrownBy(Survivors(before, list), list - Addrs(before), connects, nodes)
    ensures KeepsRecords(before, nodes)
  {
    var kept := Survivors(before, list);
    SurvivorsAmong(before, list);
    SurvivorsAddrs(before, list);
    forall k | 0 <= k < |nodes| && nodes[k].addr in Addrs(before) ensures nodes[k] in before {
      assert nodes[k].addr in Addrs(nodes);
      assert nodes[k].addr in Addrs(kept);
      var i :| 0 <= i < |kept| && kept[i].addr == nodes[k].addr;
      assert nodes[..|kept|][i] == nodes[i];
      assert i == k;
      assert kept[i] in kept;
    }
  }

  lemma GrownToList(before: seq<Node>, list: seq<Host>, connects: Host -> bool, nodes: seq<Node>)
    requires DistinctHosts(before)
    requires GrownBy(Survivors(before, Hosts(list)), Hosts(list) - Addrs(before), connects, nodes)
    ensures DistinctHosts(nodes) && Addrs(nodes) == Hosts(list) && |nodes| == |Hosts(list)|
    ensures KeepsRecords(before, nodes)
  {
    SurvivorsAddrs(before, Hosts(list));
    GrownKeeps(before, Hosts(list), connects, nodes);
    hide Addrs;
    hide Survivors;
    hide Hosts;
    assert Addrs(nodes) == Hosts(list);
    AddrCount(nodes);
  }

  lemma RecordAt(before: seq<Node>, nodes: seq<Node>, i: nat, k: nat)
    requires DistinctHosts(before) && KeepsRecords(before, nodes)
    requires i < |before| && k < |nodes| && nodes[k].addr == before[i].addr
    ensures nodes[k] == before[i]
  {
  }

  lemma DifferenceShows(nodes: seq<Node>, list: seq<Host>, added: set<Host>, removed: set<int>)
    requires added == Hosts(list) - Addrs(nodes)
    requires removed == set i | 0 <= i < |nodes| && nodes[i].addr !in Hosts(list)
    ensures added == {} && removed == {} <==> Hosts(list) == Addrs(nodes)
  {
    if Hosts(list) == Addrs(nodes) {
      assert forall i | 0 <= i < |nodes| :: nodes[i].addr in Addrs(nodes);
    } else if added == {} {
      forall h | h in Hosts(list) ensures h in Addrs(nodes) {
        assert h !in added;
      }
      var h :| h in Addrs(nodes) && h !in Hosts(list);
      var i :| 0 <= i < |nodes| && nodes[i].addr == h;
      assert i in removed;
    }
  }

  /** The nodes at `bound` and above are down to the survivors, `rest` below it is to go. */
  ghost predicate ErasedDownTo(all: seq<Node>, keep: set<Host>, bound: nat, rest: set<int>, nodes: seq<Node>) {
    && bound <= |all|
    && (forall i :: i in rest <==> 0 <= i < bound && all[i].addr !in keep)
    && nodes == all[..bound] + Survivors(all[bound..], keep)
  }

  lemma ErasedStarts(all: seq<Node>, keep: set<Host>)
    ensures ErasedDownTo(all, keep, |all|, (set i | 0 <= i < |all| && all[i].addr !in keep), all)
  {
  }

  lemma ErasedStep(all: seq<Node>, keep: set<Host>, bound: nat, rest: set<int>, nodes: seq<Node>, i: int)
    requires ErasedDownTo(all, keep, bound, rest, nodes)
    requires i in rest && forall k | k in rest :: k <= i
    ensures 0 <= i < |nodes| && ErasedDownTo(all, keep, i, rest - {i}, nodes[..i] + nodes[i + 1..])
  {
    forall k | i < k < bound ensures all[k].addr in keep {
      assert k !in rest;
    }
    SurvivorsFrom(all, keep, i, bound);
    var tail := Survivors(all[bound..], keep);
    hide Survivors;
    assert nodes[..i] + nodes[i + 1..] == all[..i] + (all[i + 1..bound] + tail);
  }

  lemma ErasedEnds(all: seq<Node>, keep: set<Host>, bound: nat, nodes: seq<Node>)
    requires ErasedDownTo(all, keep, bound, {}, nodes)
    ensures nodes == Survivors(all, keep)
  {
    SurvivorsOfAll(all[..bound], keep);
    SurvivorsOfJoin(all[..bound], all[bound..], keep);
    assert all[..bound] + all[bound..] == all;
  }

  /** `nodes` is `before` and after it one fresh node for each added host. */
  ghost predicate GrownBy(before: seq<Node>, added: set<Host>, connects: Host -> bool, nodes: seq<Node>) {
    && DistinctHosts(nodes) && Addrs(nodes) == Addrs(before) + added && added !! Addrs(before)
    && |nodes| == |before| + |added| && nodes[..|before|] == before
    && forall i | |before| <= i < |nodes| :: nodes[i] == NewNode(nodes[i].addr, connects(nodes[i].addr))
  }

  lemma GrownStarts(before: seq<Node>, connects: Host -> bool)
    requires DistinctHosts(before)
    ensures GrownBy(before, {}, connects, before)
  {
  }

  lemma GrownStep(before: seq<Node>, added: set<Host>, rest: set<Host>, connects: Host -> bool, nodes: seq<Node>, host: Host)
    requires GrownBy(before, added - rest, connects, nodes)
    requires host in rest && rest <= added && added !! Addrs(before)
    ensures GrownBy(before, added - (rest - {host}), connects, nodes + [NewNode(host, connects(host))])
  {
    hide Addrs, DistinctHosts;
    var done := added - rest;
    AddrsPush(nodes, NewNode(host, connects(host)));
    assert added - (rest - {host}) == done + {host};
    GrownPush(before, done, connects, nodes, host);
  }

  lemma GrownPush(before: seq<Node>, done: set<Host>, connects: Host -> bool, nodes: seq<Node>, host: Host)
    requires GrownBy(before, done, connects, nodes) && host !in done && host !in Addrs(before)
    requires var more := nodes + [NewNode(host, connects(host))];
      DistinctHosts(more) && Addrs(more) == Addrs(nodes) + {host}
    ensures GrownBy(before, done + {host}, connects, nodes + [NewNode(host, connects(host))])
  {
    var more := nodes + [NewNode(host, connects(host))];
    hide Addrs;
    hide DistinctHosts;
    assert more[..|before|] == nodes[..|before|];
    forall i | |before| <= i < |more| ensures more[i] == NewNode(more[i].addr, connects(more[i].addr)) {
      if i < |nodes| {
        assert more[i] == nodes[i];
      }
    }
  }

  lemma {:induction false} Highest(s: set<int>) returns (top: int)
    requires s != {}
    ensures top in s && forall k | k in s :: k <= top
  {
    var x := Pick(s);
    if s == {x} {
      top := x;
    } else {
      top := Highest(s - {x});
      assert s == (s - {x}) + {x};
      if x > top {
        top := x;
      }
    }
  }

  lemma SurvivorsFrom(all: seq<Node>, keep: set<Host>, i: nat, bound: nat)
    requires i < bound <= |all| && all[i].addr !in keep
    requires forall k | i < k < bound :: all[k].addr in keep
    ensures Survivors(all[i..], keep) == all[i + 1..bound] + Survivors(all[bound..], keep)
  {
    assert all[i..][1..] == all[i + 1..];
    assert all[i + 1..] == all[i + 1..bound] + all[bound..];
    SurvivorsOfJoin(all[i + 1..bound], all[bound..], keep);
    SurvivorsOfAll(all[i + 1..bound], keep);
  }

  lemma HostsStep(list: seq<Host>, i: nat)
    requires i < |list|
    ensures Hosts(list[..i + 1]) == Hosts(list[..i]) + {list[i]}
  {
  }
}
