/** The dependency graph of initializers: building it, sorting it topologically with cycle
    extraction, and running the initializers. */
module InitGraph {
  import opened Wrappers

  type Name = string

  /** Initializer functions are opaque; `fn` is None while no function was added for the name. */
  type Function = nat

  datatype NodeData = NodeData(fn: Option<Function>, prerequisites: set<Name>)
  type NodeMap = map<Name, NodeData>

  datatype Status = OK | BadValue(name: Name) | DuplicateKey(name: Name) | GraphContainsCycle | NullFunction

  const NO_NODE := NodeData(None, {})

  // ---------------------------------------------------------------- properties of graphs

  /** b is a prerequisite of a. */
  predicate Edge(g: NodeMap, a: Name, b: Name) {
    a in g && b in g[a].prerequisites
  }

  /** Every node has its function and every prerequisite is a node. */
  ghost predicate Complete(g: NodeMap) {
    && (forall a | a in g :: g[a].fn.Some?)
    && (forall a, b | Edge(g, a, b) :: b in g)
  }

  /** A walk along prerequisite edges. */
  ghost predicate Walk(g: NodeMap, w: seq<Name>) {
    && |w| > 0
    && forall i | 0 <= i < |w| - 1 :: Edge(g, w[i], w[i + 1])
  }

  ghost predicate ClosedWalk(g: NodeMap, w: seq<Name>) {
    Walk(g, w) && |w| > 1 && w[0] == w[|w| - 1]
  }

  ghost predicate Acyclic(g: NodeMap) {
    forall w :: !ClosedWalk(g, w)
  }

  predicate Distinct(s: seq<Name>) {
    forall i, j | 0 <= i < j < |s| :: s[i] != s[j]
  }

  /** Every prerequisite of a listed node is listed before it. */
  ghost predicate Ordered(g: NodeMap, s: seq<Name>) {
    forall j, b | 0 <= j < |s| && Edge(g, s[j], b) :: b in s[..j]
  }

  function Elems(s: seq<Name>): set<Name> {
    set i | 0 <= i < |s| :: s[i]
  }

  lemma ElemsPush(s: seq<Name>, x: Name)
    ensures Elems(s + [x]) == Elems(s) + {x}
  {
    var all := s + [x];
    assert all[|s|] == x && forall k | 0 <= k < |s| :: all[k] == s[k];
    assert x in Elems(all);
    forall y | y in Elems(s) ensures y in Elems(all) {
      var k :| 0 <= k < |s| && s[k] == y;
      assert all[k] == y;
    }
  }

  lemma {:induction false} DistinctCount(s: seq<Name>)
    requires Distinct(s)
    ensures |Elems(s)| == |s|
  {
    if s != [] {
      var front := s[..|s| - 1];
      DistinctCount(front);
      ElemsPush(front, s[|s| - 1]);
      assert s == front + [s[|s| - 1]];
    }
  }

  /** A walk that ends inside an ordered listing stays inside it, at strictly growing positions
      towards its start. */
  lemma {:induction false} WalkDescends(g: NodeMap, s: seq<Name>, w: seq<Name>, j: nat) returns (i: nat)
    requires Distinct(s) && Ordered(g, s)
    requires Walk(g, w) && |w| > 1 && j < |s| && s[j] == w[0]
    ensures i < j && s[i] == w[|w| - 1]
    decreases |w|
  {
    assert Edge(g, w[0], w[1]);
    assert w[1] in s[..j];
    i :| 0 <= i < j && s[i] == w[1];
    if |w| > 2 {
      var tail := w[1..];
      assert forall k | 0 <= k < |tail| :: tail[k] == w[k + 1];
      assert tail[|tail| - 1] == w[|w| - 1];
      i := WalkDescends(g, s, tail, i);
    }
  }

  /** A duplicate-free listing of all nodes with prerequisites first exists only without cycles. */
  lemma OrderedMeansAcyclic(g: NodeMap, s: seq<Name>)
    requires Distinct(s) && Ordered(g, s) && Elems(s) == g.Keys
    ensures Acyclic(g) && (forall a, b | Edge(g, a, b) :: b in g)
  {
    forall w | ClosedWalk(g, w) ensures false {
      assert Edge(g, w[0], w[1]);
      assert w[0] in Elems(s);
      var j :| 0 <= j < |s| && s[j] == w[0];
      var i := WalkDescends(g, s, w, j);
    }
    forall a, b | Edge(g, a, b) ensures b in g {
      assert a in Elems(s);
      var j :| 0 <= j < |s| && s[j] == a;
      assert b in s[..j];
      assert b in Elems(s);
    }
  }

  // ---------------------------------------------------------------- sorting

  /** A name that makes the graph incomplete: it has no function, or is nobody's node although
      some node needs it. */
  ghost predicate Missing(g: NodeMap, n: Name) {
    if n in g then g[n].fn.None? else exists a :: Edge(g, a, n)
  }

  lemma WalkPush(g: NodeMap, chain: seq<Name>, current: Name)
    requires chain != [] ==> Walk(g, chain) && Edge(g, chain[|chain| - 1], current)
    ensures Walk(g, chain + [current])
  {
  }

  lemma ClosedByRepeat(g: NodeMap, chain: seq<Name>, current: Name, first: nat)
    requires Walk(g, chain + [current]) && Distinct(chain)
    requires first < |chain| && chain[first] == current
    ensures var cycle := (chain + [current])[first..]; ClosedWalk(g, cycle) && Distinct(cycle[1..])
  {
  }

  lemma Pushed(g: NodeMap, chain: seq<Name>, current: Name)
    requires Distinct(chain) && Elems(chain) <= g.Keys
    requires current in g && current !in chain
    ensures Distinct(chain + [current]) && Elems(chain + [current]) == Elems(chain) + {current}
    ensures |chain| < |g.Keys| && current !in Elems(chain)
  {
    var push := chain + [current];
    assert forall k | 0 <= k < |chain| :: push[k] == chain[k];
    ElemsPush(chain, current);
    DistinctCount(push);
    SubsetSize(Elems(push), g.Keys);
  }

  lemma Popped(g: NodeMap, chain: seq<Name>, current: Name)
    requires Distinct(chain + [current]) && Walk(g, chain + [current])
    ensures Distinct(chain) && (chain != [] ==> Walk(g, chain))
    ensures Elems(chain + [current]) == Elems(chain) + {current} && current !in Elems(chain)
  {
    var all := chain + [current];
    ElemsPush(chain, current);
    assert forall k | 0 <= k < |chain| :: all[k] == chain[k];
    assert all[|chain|] == current;
  }

  lemma Listed(g: NodeMap, s: seq<Name>, current: Name)
    requires Distinct(s) && Ordered(g, s)
    requires current in g && g[current].prerequisites <= Elems(s) && current !in Elems(s)
    ensures Distinct(s + [current]) && Ordered(g, s + [current])
    ensures Elems(s + [current]) == Elems(s) + {current}
  {
    var all := s + [current];
    ElemsPush(s, current);
    assert forall k | 0 <= k < |s| :: all[k] == s[k] && all[..k] == s[..k];
    assert all[..|s|] == s;
    forall j, b | 0 <= j < |all| && Edge(g, all[j], b) ensures b in all[..j] {
      if j == |s| {
        assert b in Elems(s);
      } else {
        assert Edge(g, s[j], b);
      }
    }
  }

  /** `std::find`. */
  method Find(s: seq<Name>, x: Name) returns (first: nat)
    ensures first <= |s| && x !in s[..first] && (first < |s| ==> s[first] == x)
  {
    first := 0;
    while first < |s| && s[first] != x
      invariant first <= |s| && x !in s[..first]
    {
      first := first + 1;
    }
  }

  /** The topological sort: the graph it reads and the three collections it works on. */
  class TopSorter {
    const g: NodeMap
    var inProgress: seq<Name>
    var visited: set<Name>
    var sorted: seq<Name>

    constructor (nodes: NodeMap)
      ensures g == nodes && Valid() && inProgress == [] && sorted == []
    {
      g := nodes;
      inProgress := [];
      visited := {};
      sorted := [];
    }

    /** The exploration chain is a duplicate-free walk, so never longer than there are nodes, and
        what was sorted is what was visited, prerequisites first. */
    ghost predicate Valid()
      reads this
    {
      && Distinct(sorted) && Elems(sorted) == visited && Ordered(g, sorted)
      && visited <= g.Keys
      && (forall a | a in visited :: g[a].fn.Some?)
      && (inProgress != [] ==> Walk(g, inProgress))
      && Distinct(inProgress) && |inProgress| <= |g.Keys|
      && Elems(inProgress) <= g.Keys
      && Elems(inProgress) !! visited
    }

    /** Pushes `current` on the exploration chain, or puts the cycle that closes there in `sorted`. */
    method Push(current: Name) returns (cycle: bool)
      requires Valid() && current in g && current !in visited && g[current].fn.Some?
      requires inProgress != [] ==> Edge(g, inProgress[|inProgress| - 1], current)
      modifies this`inProgress, this`sorted
      ensures cycle ==> ClosedWalk(g, sorted) && Distinct(sorted[1..])
      ensures !cycle ==> Valid() && sorted == old(sorted) && inProgress == old(inProgress) + [current]
      ensures !cycle ==> current !in Elems(old(inProgress))
      ensures !cycle ==> Elems(inProgress) == Elems(old(inProgress)) + {current}
    {
      ghost var before := inProgress;
      inProgress := inProgress + [current];
      WalkPush(g, before, current);
      var first := Find(inProgress, current);
      assert inProgress[|before|] == current;
      if first + 1 != |inProgress| {
        sorted := inProgress[first..];
        ClosedByRepeat(g, before, current, first);
        return true;
      }
      assert inProgress[..first] == before;
      Pushed(g, before, current);
      return false;
    }

    /** Lists `current`, whose prerequisites are all listed, and takes it off the chain. */
    method Finish(current: Name)
      requires Valid() && inProgress != [] && inProgress[|inProgress| - 1] == current
      requires g[current].prerequisites <= visited && g[current].fn.Some?
      modifies this
      ensures Valid() && inProgress == old(inProgress)[..|old(inProgress)| - 1]
      ensures visited == old(visited) + {current} && sorted == old(sorted) + [current]
    {
      ghost var front := inProgress[..|inProgress| - 1];
      assert inProgress == front + [current];
      Popped(g, front, current);
      hide Elems;
      hide Distinct;
      hide Ordered;
      hide Walk;
      Listed(g, sorted, current);
      sorted := sorted + [current];
      inProgress := inProgress[..|inProgress| - 1];
      visited := visited + {current};
    }

    /** Sorting the unlisted part of the graph below `current`. On success the exploration chain
        is what it was; on a cycle `sorted` is the cycle. */
    method RecursiveTopSort(current: Name) returns (status: Status)
      requires Valid() && current in g
      requires inProgress != [] ==> Edge(g, inProgress[|inProgress| - 1], current)
      modifies this
      ensures status.OK? || status.BadValue? || status.GraphContainsCycle?
      ensures status.OK? ==> Valid() && inProgress == old(inProgress)
      ensures status.OK? ==> old(visited) <= visited && current in visited
      ensures status.BadValue? ==> Missing(g, status.name)
      ensures status.GraphContainsCycle? ==> ClosedWalk(g, sorted) && Distinct(sorted[1..])
      decreases |g.Keys| - |inProgress|
    {
      hide Elems, Distinct, Ordered, Walk, ClosedWalk;
      if current in visited {
        return OK;
      }
      if g[current].fn.None? {
        return BadValue(current);
      }
      var cycle := Push(current);
      if cycle {
        return GraphContainsCycle;
      }
      var rest := g[current].prerequisites;
      while rest != {}
        invariant Valid() && inProgress == old(inProgress) + [current]
        invariant rest <= g[current].prerequisites <= rest + visited
        invariant old(visited) <= visited
        decreases |rest|
      {
        var next :| next in rest;
        assert Edge(g, current, next);
        if next !in g {
          return BadValue(next);
        }
        status := RecursiveTopSort(next);
        if !status.OK? {
          return;
        }
        rest := rest - {next};
      }
      // The "stack corrupt" branch of the original tests the negation of this.
      assert inProgress[|inProgress| - 1] == current;
      Finish(current);
      status := OK;
    }
  }

  /** Sorting succeeds exactly on complete acyclic graphs and then lists every node once, after
      all its prerequisites. */
  method TopSort(g: NodeMap) returns (status: Status, sorted: seq<Name>)
    ensures status.OK? <==> Complete(g) && Acyclic(g)
    ensures status.OK? ==> Distinct(sorted) && Elems(sorted) == g.Keys && Ordered(g, sorted)
    ensures status.GraphContainsCycle? ==> ClosedWalk(g, sorted) && Distinct(sorted[1..])
    ensures status.BadValue? ==> Missing(g, status.name)
    ensures status.OK? || status.GraphContainsCycle? || status.BadValue?
  {
    var sorter := new TopSorter(g);
    var rest := g.Keys;
    while rest != {}
      invariant sorter.g == g && sorter.Valid() && sorter.inProgress == []
      invariant rest <= g.Keys <= rest + sorter.visited
      invariant fresh(sorter)
      decreases |rest|
    {
      var next :| next in rest;
      status := sorter.RecursiveTopSort(next);
      if !status.OK? {
        return status, sorter.sorted;
      }
      rest := rest - {next};
    }
    hide Walk;
    hide Distinct;
    hide Ordered;
    hide Elems;
    OrderedMeansAcyclic(g, sorter.sorted);
    return OK, sorter.sorted;
  }
}
