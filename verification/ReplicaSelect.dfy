/** Choosing a member of a replica set by read preference, tags and locality. */
module ReplicaSelect {
  import opened Rotation
  import opened Wrappers

  type Host = string
  type Tag = map<string, string>

  /** What the monitor knows of one member; `tags` is None when the member reported none. */
  datatype Node = Node(addr: Host, ok: bool, ismaster: bool, secondary: bool, hidden: bool, pingTimeMillis: int,
                       tags: Option<Tag>) {
    predicate OkForSecondaryQueries() {
      ok && secondary && !hidden
    }

    predicate IsLocalSecondary(threshold: int) {
      pingTimeMillis < threshold
    }

    /** The empty tag matches every node; another one needs all its fields on the node. */
    predicate MatchesTag(tag: Tag) {
      tag == map[] || (tags.Some? && forall field | field in tag :: field in tags.value && tags.value[field] == tag[field])
    }

    predicate Eligible(tag: Tag, secOnly: bool) {
      ok && (secOnly ==> OkForSecondaryQueries()) && MatchesTag(tag)
    }
  }

  // ---------------------------------------------------------------- one tag

  /** What `_selectNode` is asked: the tag, whether primaries are out, and what counts as local. */
  datatype Query = Query(tag: Tag, secOnly: bool, threshold: int) {
    predicate Eligible(n: Node) {
      n.Eligible(tag, secOnly)
    }

    predicate Local(n: Node) {
      Eligible(n) && n.IsLocalSecondary(threshold)
    }
  }

  ghost predicate AnyEligible(nodes: seq<Node>, q: Query) {
    exists i :: 0 <= i < |nodes| && q.Eligible(nodes[i])
  }

  ghost predicate AnyLocal(nodes: seq<Node>, q: Query) {
    exists i :: 0 <= i < |nodes| && q.Local(nodes[i])
  }

  /** Where the rotation stands: at the first node with the last host's address, or at the first. */
  function Start(nodes: seq<Node>, last: Option<Host>): (i: nat)
    ensures nodes != [] ==> i < |nodes|
    ensures (exists k :: 0 <= k < |nodes| && Some(nodes[k].addr) == last) ==> i < |nodes| && Some(nodes[i].addr) == last
    ensures (forall k | 0 <= k < |nodes| :: Some(nodes[k].addr) != last) ==> i == 0
  {
    if nodes == [] || Some(nodes[0].addr) == last then 0
    else
      var rest := Start(nodes[1..], last);
      assert forall k | 0 < k < |nodes| :: nodes[k] == nodes[1..][k - 1];
      if rest < |nodes| - 1 && Some(nodes[rest + 1].addr) == last then rest + 1 else 0
  }

  /** The node taken in turn j: the first local one if there is any, or the last eligible one. */
  ghost predicate Taken(nodes: seq<Node>, q: Query, start: nat, j: nat)
    requires start < |nodes| && j < |nodes|
  {
    var n := |nodes|;
    && q.Eligible(nodes[Turn(n, start, j)])
    && if AnyLocal(nodes, q) then
         q.Local(nodes[Turn(n, start, j)]) && forall k | 0 <= k < j :: !q.Local(nodes[Turn(n, start, k)])
       else
         forall k | j < k < n :: !q.Eligible(nodes[Turn(n, start, k)])
  }

  lemma TakenUnique(nodes: seq<Node>, q: Query, start: nat, j: nat, k: nat)
    requires start < |nodes| && j < |nodes| && k < |nodes|
    requires Taken(nodes, q, start, j) && Taken(nodes, q, start, k)
    ensures j == k
  {
  }

  ghost predicate NoneBefore(nodes: seq<Node>, q: Query, start: nat, upto: nat)
    requires nodes != [] ==> start < |nodes|
    requires upto <= |nodes|
  {
    forall k | 0 <= k < upto :: !q.Eligible(nodes[Turn(|nodes|, start, k)])
  }

  ghost predicate NoLocalBefore(nodes: seq<Node>, q: Query, start: nat, upto: nat)
    requires nodes != [] ==> start < |nodes|
    requires upto <= |nodes|
  {
    forall k | 0 <= k < upto :: !q.Local(nodes[Turn(|nodes|, start, k)])
  }

  /** Turn j is the last of the first `upto` turns with an eligible node. */
  ghost predicate LastEligible(nodes: seq<Node>, q: Query, start: nat, j: nat, upto: nat)
    requires start < |nodes| && upto <= |nodes|
  {
    j < upto && q.Eligible(nodes[Turn(|nodes|, start, j)])
    && forall k | j < k < upto :: !q.Eligible(nodes[Turn(|nodes|, start, k)])
  }

  /** The turns of a rotation reach every node. */
  lemma AllTurns(nodes: seq<Node>, q: Query, start: nat)
    requires nodes != [] ==> start < |nodes|
    ensures NoneBefore(nodes, q, start, |nodes|) ==> !AnyEligible(nodes, q)
    ensures NoLocalBefore(nodes, q, start, |nodes|) ==> !AnyLocal(nodes, q)
  {
    forall i | 0 <= i < |nodes|
      ensures NoneBefore(nodes, q, start, |nodes|) ==> !q.Eligible(nodes[i])
      ensures NoLocalBefore(nodes, q, start, |nodes|) ==> !q.Local(nodes[i])
    {
      var j := TurnOf(|nodes|, start, i);
    }
  }

  lemma TakenFallback(nodes: seq<Node>, q: Query, start: nat, j: nat)
    requires start < |nodes| && LastEligible(nodes, q, start, j, |nodes|) && NoLocalBefore(nodes, q, start, |nodes|)
    ensures Taken(nodes, q, start, j) && AnyEligible(nodes, q)
  {
    AllTurns(nodes, q, start);
    assert q.Eligible(nodes[Turn(|nodes|, start, j)]);
  }

  lemma TakenLocal(nodes: seq<Node>, q: Query, start: nat, j: nat)
    requires start < |nodes| && j < |nodes| && NoLocalBefore(nodes, q, start, j)
    requires q.Local(nodes[Turn(|nodes|, start, j)])
    ensures Taken(nodes, q, start, j) && AnyEligible(nodes, q)
  {
  }

  lemma ScanStarts(nodes: seq<Node>, q: Query, start: nat)
    requires nodes != [] ==> start < |nodes|
    ensures NoneBefore(nodes, q, start, 0) && NoLocalBefore(nodes, q, start, 0)
  {
  }

  /** What one more turn adds to a scan whose last eligible turn so far is `turn`. */
  lemma ScanStep(nodes: seq<Node>, q: Query, start: nat, turn: nat, it: nat)
    requires start < |nodes| && it < |nodes|
    ensures var node := nodes[Turn(|nodes|, start, it)];
      && (NoLocalBefore(nodes, q, start, it) && !q.Local(node) ==> NoLocalBefore(nodes, q, start, it + 1))
      && (q.Eligible(node) ==> LastEligible(nodes, q, start, it, it + 1))
      && (NoneBefore(nodes, q, start, it) && !q.Eligible(node) ==> NoneBefore(nodes, q, start, it + 1))
      && (LastEligible(nodes, q, start, turn, it) && !q.Eligible(node) ==> LastEligible(nodes, q, start, turn, it + 1))
  {
  }

  /** The search for the last host. */
  method FindStart(nodes: seq<Node>, lastHost: Option<Host>) returns (start: nat)
    ensures start == Start(nodes, lastHost)
  {
    start := 0;
    if lastHost.Some? {
      var x := 0;
      while x < |nodes|
        invariant 0 <= x <= |nodes| && start == 0
        invariant forall k | 0 <= k < x :: Some(nodes[k].addr) != lastHost
      {
        if lastHost == Some(nodes[x].addr) {
          start := x;
          break;
        }
        x := x + 1;
      }
      StartIsFirst(nodes, lastHost, start);
    }
  }

  /** `_selectNode`: a local eligible node, the next one in rotation; without one some eligible
      node; None if there is none. */
  method SelectNodeForTag(nodes: seq<Node>, q: Query, lastHost: Option<Host>)
    returns (host: Option<Host>, isPrimary: bool, newLast: Option<Host>, ghost turn: nat)
    ensures host.Some? <==> AnyEligible(nodes, q)
    ensures host.Some? ==> turn < |nodes| && Taken(nodes, q, Start(nodes, lastHost), turn)
    ensures host.Some? ==>
      var node := nodes[Turn(|nodes|, Start(nodes, lastHost), turn)];
      host == Some(node.addr) && isPrimary == node.ismaster
    ensures newLast == if host.Some? then host else lastHost
    ensures host == None ==> !isPrimary
  {
    host, isPrimary, newLast, turn := None, false, lastHost, 0;
    var nextNodeIndex := FindStart(nodes, lastHost);
    ghost var n, start := |nodes|, nextNodeIndex;
    hide Start;
    hide Taken;
    hide AnyEligible;
    hide NoLocalBefore;
    hide NoneBefore;
    hide LastEligible;
    hide ByTag;
    ScanStarts(nodes, q, start);
    var itNode := 0;
    while itNode < |nodes|
      invariant 0 <= itNode <= n && (n > 0 ==> start < n) && newLast == lastHost
      invariant nextNodeIndex == if itNode == 0 then start else Turn(n, start, itNode - 1)
      invariant NoLocalBefore(nodes, q, start, itNode)
      invariant host.None? ==> !isPrimary && NoneBefore(nodes, q, start, itNode)
      invariant host.Some? ==> n > 0 && LastEligible(nodes, q, start, turn, itNode)
      invariant host.Some? ==> host.value == nodes[Turn(n, start, turn)].addr && isPrimary == nodes[Turn(n, start, turn)].ismaster
    {
      NextTurn(n, start, itNode, nextNodeIndex);
      ScanStep(nodes, q, start, turn, itNode);
      nextNodeIndex := (nextNodeIndex + 1) % |nodes|;
      var node := nodes[nextNodeIndex];
      if node.ok && (!q.secOnly || node.OkForSecondaryQueries()) {
        if node.MatchesTag(q.tag) {
          host := Some(node.addr);
          isPrimary := node.ismaster;
          turn := itNode;
          if node.IsLocalSecondary(q.threshold) {
            newLast := host;
            TakenLocal(nodes, q, start, turn);
            return;
          }
        }
      }
      itNode := itNode + 1;
    }
    if host.Some? {
      newLast := host;
      TakenFallback(nodes, q, start, turn);
    } else {
      AllTurns(nodes, q, start);
    }
  }

  lemma StartIsFirst(nodes: seq<Node>, last: Option<Host>, i: nat)
    requires last.Some?
    requires if i < |nodes| && Some(nodes[i].addr) == last
             then forall k | 0 <= k < i :: Some(nodes[k].addr) != last
             else i == 0 && forall k | 0 <= k < |nodes| :: Some(nodes[k].addr) != last
    ensures Start(nodes, last) == i
  {
    if nodes != [] && i > 0 {
      StartIsFirst(nodes[1..], last, i - 1);
    }
  }

  lemma NextTurn(n: nat, start: nat, it: nat, at: nat)
    requires start < n && it < n && at == if it == 0 then start else Turn(n, start, it - 1)
    ensures (at + 1) % n == Turn(n, start, it)
  {
  }

  // ---------------------------------------------------------------- rotation over many calls

  ghost predicate DistinctHosts(nodes: seq<Node>) {
    forall i, j | 0 <= i < j < |nodes| :: nodes[i].addr != nodes[j].addr
  }

  lemma StartAt(nodes: seq<Node>, i: nat)
    requires DistinctHosts(nodes) && i < |nodes|
    ensures Start(nodes, Some(nodes[i].addr)) == i
  {
  }

  /** A run of calls with nothing changing in between: each one starts where the last one chose. */
  ghost predicate Run(nodes: seq<Node>, q: Query, picks: seq<nat>) {
    && (forall t | 0 <= t < |picks| :: picks[t] < |nodes|)
    && forall t | 0 < t < |picks| :: Next(nodes, q, picks[t - 1], picks[t])
  }

  /** The call after one that returned node i returns node k. */
  ghost predicate Next(nodes: seq<Node>, q: Query, i: nat, k: nat)
    requires i < |nodes| && k < |nodes|
  {
    exists j :: 0 <= j < |nodes| && Turn(|nodes|, i, j) == k
      && Taken(nodes, q, Start(nodes, Some(nodes[i].addr)), j)
  }

  /** A call goes no further along the rotation than the first local node, and from there every
      node beyond is that much nearer. */
  lemma OneCall(nodes: seq<Node>, q: Query, i: nat, k: nat, near: nat) returns (j: nat)
    requires DistinctHosts(nodes) && i < |nodes| && k < |nodes| && Next(nodes, q, i, k)
    requires near < |nodes| && q.Local(nodes[Turn(|nodes|, i, near)])
    ensures j <= near && Turn(|nodes|, i, j) == k
  {
    StartAt(nodes, i);
    j :| 0 <= j < |nodes| && Turn(|nodes|, i, j) == k && Taken(nodes, q, i, j);
    assert AnyLocal(nodes, q);
  }

  lemma Nearer(n: nat, i: nat, j: nat, m: nat)
    requires i < n && j < m < n
    ensures Turn(n, Turn(n, i, j), m - j - 1) == Turn(n, i, m) != Turn(n, i, j)
  {
  }

  /** A local node that is waiting is reached before anything further along the rotation. */
  lemma {:induction false} ReachedFirst(nodes: seq<Node>, q: Query, picks: seq<nat>, far: nat, near: nat, s: nat)
    returns (t: nat)
    requires DistinctHosts(nodes) && Run(nodes, q, picks)
    requires near < far < |nodes| && 0 < s < |picks|
    requires q.Local(nodes[Turn(|nodes|, picks[0], near)]) && picks[s] == Turn(|nodes|, picks[0], far)
    ensures 0 < t < s && picks[t] == Turn(|nodes|, picks[0], near)
    decreases near
  {
    var n := |nodes|;
    assert Next(nodes, q, picks[0], picks[1]);
    var j := OneCall(nodes, q, picks[0], picks[1], near);
    Nearer(n, picks[0], j, far);
    hide *;
    if j == near {
      t := 1;
    } else {
      Nearer(n, picks[0], j, near);
      RunTail(nodes, q, picks);
      t := ReachedFirst(nodes, q, picks[1..], far - j - 1, near - j - 1, s - 1);
      t := t + 1;
    }
  }

  lemma RunTail(nodes: seq<Node>, q: Query, picks: seq<nat>)
    requires Run(nodes, q, picks) && picks != []
    ensures Run(nodes, q, picks[1..])
  {
  }

  /** Between two calls that return the same node, every local eligible node is returned: the
      rotation repeats nobody before everybody was served. */
  lemma EveryLocalBeforeRepeat(nodes: seq<Node>, q: Query, picks: seq<nat>, a: nat, b: nat, i: nat) returns (t: nat)
    requires DistinctHosts(nodes) && Run(nodes, q, picks)
    requires a < b < |picks| && picks[a] == picks[b]
    requires i < |nodes| && q.Local(nodes[i])
    ensures a <= t < b && picks[t] == i
  {
    if i == picks[a] {
      t := a;
    } else {
      var part := picks[a..b + 1];
      var near := TurnOf(|nodes|, picks[a], i);
      assert Turn(|nodes|, picks[a], |nodes| - 1) == picks[a];
      assert part[b - a] == picks[b];
      forall u | 0 < u < |part| ensures Next(nodes, q, part[u - 1], part[u]) {
        assert Next(nodes, q, picks[a + u - 1], picks[a + u]);
      }
      var s := ReachedFirst(nodes, q, part, |nodes| - 1, near, b - a);
      t := a + s;
    }
  }

  /** Without a local node the choice does not rotate: a node that was chosen and is still
      eligible is chosen again. */
  lemma StickyWithoutLocal(nodes: seq<Node>, q: Query, i: nat, k: nat)
    requires DistinctHosts(nodes) && i < |nodes| && k < |nodes|
    requires q.Eligible(nodes[i]) && !AnyLocal(nodes, q) && Next(nodes, q, i, k)
    ensures k == i
  {
    StartAt(nodes, i);
    assert Turn(|nodes|, i, |nodes| - 1) == i;
  }

  // ---------------------------------------------------------------- tag lists and preferences

  datatype Preference = PrimaryOnly | PrimaryPreferred | SecondaryOnly | SecondaryPreferred | Nearest

  /** An ordered tag list and the place in it. */
  class TagSet {
    const tags: seq<Tag>
    var position: nat
    var isExhausted: bool
    var currentTag: Tag

    constructor (list: seq<Tag>)
      ensures Valid() && tags == list && Remaining() == list
    {
      tags, position, isExhausted, currentTag := list, 0, false, map[];
      new;
      Next();
    }

    ghost predicate Valid()
      reads this
    {
      position <= |tags| && (!isExhausted ==> position > 0 && currentTag == tags[position - 1])
    }

    /** The tags from the current one on. */
    function Remaining(): seq<Tag>
      reads this
    {
      if isExhausted || !(0 < position <= |tags|) then [] else tags[position - 1..]
    }

    method Next()
      requires position <= |tags| && (isExhausted ==> position == |tags|)
      modifies this
      ensures Valid() && Remaining() == tags[old(position)..]
    {
      if position < |tags| {
        currentTag := tags[position];
        position := position + 1;
      } else {
        isExhausted := true;
      }
    }

    method Reset()
      modifies this
      ensures Valid() && Remaining() == tags
    {
      isExhausted := false;
      position := 0;
      Next();
    }
  }

  ghost predicate AnyPrimary(nodes: seq<Node>) {
    exists i :: 0 <= i < |nodes| && nodes[i].ismaster && nodes[i].ok
  }

  ghost predicate FirstPrimary(nodes: seq<Node>, i: int) {
    0 <= i < |nodes| && nodes[i].ismaster && nodes[i].ok
    && forall k | 0 <= k < i :: !(nodes[k].ismaster && nodes[k].ok)
  }

  /** The first usable primary, if there is one. */
  ghost predicate ByPrimary(nodes: seq<Node>, host: Option<Host>, isPrimary: bool) {
    && isPrimary == host.Some? == AnyPrimary(nodes)
    && (host.Some? ==> exists i :: FirstPrimary(nodes, i) && host.value == nodes[i].addr)
  }

  /** The node taken for one tag, the rotation starting from the last host. */
  ghost predicate ByTag(nodes: seq<Node>, q: Query, lastHost: Option<Host>, host: Option<Host>, isPrimary: bool) {
    exists turn :: 0 <= turn < |nodes| && Taken(nodes, q, Start(nodes, lastHost), turn)
      && var node := nodes[Turn(|nodes|, Start(nodes, lastHost), turn)];
         host == Some(node.addr) && isPrimary == node.ismaster
  }

  ghost predicate Serves(nodes: seq<Node>, tag: Tag, secOnly: bool, threshold: int) {
    AnyEligible(nodes, Query(tag, secOnly, threshold))
  }

  /** The first tag of the list that any node serves decides; `left` is what remains of the list,
      that tag first. */
  ghost predicate ByTags(nodes: seq<Node>, secOnly: bool, threshold: int, lastHost: Option<Host>, list: seq<Tag>,
                         left: seq<Tag>, host: Option<Host>, isPrimary: bool, newLast: Option<Host>)
  {
    && |left| <= |list| && left == list[|list| - |left|..]
    && (forall k | 0 <= k < |list| - |left| :: !Serves(nodes, list[k], secOnly, threshold))
    && (if left == [] then host == None && !isPrimary && newLast == lastHost
        else ByTag(nodes, Query(left[0], secOnly, threshold), lastHost, host, isPrimary) && newLast == host)
  }

  ghost predicate AnyServed(nodes: seq<Node>, secOnly: bool, threshold: int, list: seq<Tag>) {
    exists k :: 0 <= k < |list| && Serves(nodes, list[k], secOnly, threshold)
  }

  method SelectPrimary(nodes: seq<Node>) returns (host: Option<Host>, isPrimary: bool)
    ensures ByPrimary(nodes, host, isPrimary) && (host.Some? <==> AnyPrimary(nodes))
  {
    var i := 0;
    while i < |nodes|
      invariant 0 <= i <= |nodes|
      invariant forall k | 0 <= k < i :: !(nodes[k].ismaster && nodes[k].ok)
    {
      if nodes[i].ismaster && nodes[i].ok {
        assert FirstPrimary(nodes, i);
        return Some(nodes[i].addr), true;
      }
      i := i + 1;
    }
    return None, false;
  }

  /** None of the first `at` tags is served by any node. */
  ghost predicate Skipped(nodes: seq<Node>, secOnly: bool, threshold: int, list: seq<Tag>, at: nat) {
    at <= |list| && forall k | 0 <= k < at :: !Serves(nodes, list[k], secOnly, threshold)
  }

  lemma SkipOne(nodes: seq<Node>, secOnly: bool, threshold: int, list: seq<Tag>, at: nat)
    requires Skipped(nodes, secOnly, threshold, list, at) && at < |list| && !Serves(nodes, list[at], secOnly, threshold)
    ensures Skipped(nodes, secOnly, threshold, list, at + 1) && list[at..][1..] == list[at + 1..]
  {
  }

  lemma DecidedAt(nodes: seq<Node>, secOnly: bool, threshold: int, lastHost: Option<Host>, list: seq<Tag>, at: nat,
                  host: Option<Host>, isPrimary: bool, newLast: Option<Host>)
    requires Skipped(nodes, secOnly, threshold, list, at)
    requires if at == |list| then host == None && !isPrimary && newLast == lastHost
             else ByTag(nodes, Query(list[at], secOnly, threshold), lastHost, host, isPrimary) && newLast == host
                  && Serves(nodes, list[at], secOnly, threshold)
    ensures ByTags(nodes, secOnly, threshold, lastHost, list, list[at..], host, isPrimary, newLast)
    ensures host.Some? <==> AnyServed(nodes, secOnly, threshold, list)
  {
  }

  /** The loop over the tag list. */
  method SelectByTags(nodes: seq<Node>, secOnly: bool, tags: TagSet, threshold: int, lastHost: Option<Host>)
    returns (host: Option<Host>, isPrimary: bool, newLast: Option<Host>)
    requires tags.Valid()
    modifies tags
    ensures tags.Valid()
    ensures ByTags(nodes, secOnly, threshold, lastHost, old(tags.Remaining()), tags.Remaining(), host, isPrimary, newLast)
    ensures host.Some? <==> AnyServed(nodes, secOnly, threshold, old(tags.Remaining()))
    ensures host == None ==> newLast == lastHost && tags.Remaining() == []
  {
    ghost var list, at := tags.Remaining(), 0;
    host, isPrimary, newLast := None, false, lastHost;
    hide Taken;
    hide Start;
    hide ByTags;
    hide AnyServed;
    assert Skipped(nodes, secOnly, threshold, list, 0);
    hide Skipped;
    while !tags.isExhausted
      invariant tags.Valid() && host == None && !isPrimary && newLast == lastHost
      invariant at <= |list| && tags.Remaining() == list[at..]
      invariant Skipped(nodes, secOnly, threshold, list, at)
      decreases |list| - at
    {
      ghost var turn;
      assert tags.currentTag == tags.Remaining()[0] == list[at];
      host, isPrimary, newLast, turn := SelectNodeForTag(nodes, Query(tags.currentTag, secOnly, threshold), lastHost);
      assert host.Some? <==> Serves(nodes, list[at], secOnly, threshold);
      if host == None {
        SkipOne(nodes, secOnly, threshold, list, at);
        at := at + 1;
        tags.Next();
      } else {
        DecidedAt(nodes, secOnly, threshold, lastHost, list, at, host, isPrimary, newLast);
        return;
      }
    }
    DecidedAt(nodes, secOnly, threshold, lastHost, list, at, host, isPrimary, newLast);
  }

  method SelectNode(nodes: seq<Node>, preference: Preference, tags: TagSet, threshold: int, lastHost: Option<Host>)
    returns (host: Option<Host>, isPrimary: bool, newLast: Option<Host>)
    requires tags.Valid()
    modifies tags
    ensures tags.Valid()
    ensures
      var list, left := old(tags.Remaining()), tags.Remaining();
      match preference
      case PrimaryOnly =>
        ByPrimary(nodes, host, isPrimary) && newLast == lastHost && left == list
      case PrimaryPreferred =>
        if AnyPrimary(nodes) then ByPrimary(nodes, host, isPrimary) && newLast == lastHost && left == list
        else ByTags(nodes, true, threshold, lastHost, list, left, host, isPrimary, newLast)
      case SecondaryOnly => ByTags(nodes, true, threshold, lastHost, list, left, host, isPrimary, newLast)
      case SecondaryPreferred =>
        if AnyServed(nodes, true, threshold, list)
        then ByTags(nodes, true, threshold, lastHost, list, left, host, isPrimary, newLast)
        else ByPrimary(nodes, host, isPrimary) && newLast == lastHost && left == []
      case Nearest => ByTags(nodes, false, threshold, lastHost, list, left, host, isPrimary, newLast)
    ensures preference.PrimaryOnly? ==> (host.Some? <==> AnyPrimary(nodes))
    ensures preference.SecondaryOnly? ==> (host.Some? <==> AnyServed(nodes, true, threshold, old(tags.Remaining())))
    ensures preference.SecondaryOnly? && host == None ==> newLast == lastHost && tags.Remaining() == []
    decreases if preference.PrimaryPreferred? || preference.SecondaryPreferred? then 1 else 0
  {
    hide ByPrimary;
    hide AnyPrimary;
    hide ByTags;
    hide AnyServed;
    newLast := lastHost;
    match preference
    case PrimaryOnly =>
      host, isPrimary := SelectPrimary(nodes);
    case PrimaryPreferred =>
      host, isPrimary, newLast := SelectNode(nodes, PrimaryOnly, tags, threshold, lastHost);
      if host == None {
        host, isPrimary, newLast := SelectNode(nodes, SecondaryOnly, tags, threshold, lastHost);
      }
    case SecondaryOnly =>
      host, isPrimary, newLast := SelectByTags(nodes, true, tags, threshold, lastHost);
    case SecondaryPreferred =>
      host, isPrimary, newLast := SelectNode(nodes, SecondaryOnly, tags, threshold, lastHost);
      if host == None {
        host, isPrimary, newLast := SelectNode(nodes, PrimaryOnly, tags, threshold, lastHost);
      }
    case Nearest =>
      host, isPrimary, newLast := SelectByTags(nodes, false, tags, threshold, lastHost);
  }
}
