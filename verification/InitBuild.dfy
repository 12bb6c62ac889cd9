/** Building the dependency graph of initializers one registration at a time, and running the
    initializers in sorted order. */
module InitBuild {
  import opened Wrappers
  import opened InitGraph

  /** The arguments of one `addInitializer` call; `fn` is None for a null function. */
  datatype Registration = Registration(name: Name, fn: Option<Function>, prerequisites: seq<Name>, dependents: seq<Name>)

  function NodeOf(g: NodeMap, n: Name): NodeData {
    if n in g then g[n] else NO_NODE
  }

  /** What one call makes of a graph: the registered name gets its function and its explicit
      prerequisites, and becomes a prerequisite of each of its dependents. */
  function Added(g: NodeMap, r: Registration): (result: (Status, NodeMap)) {
    if r.fn.None? then (NullFunction, g)
    else if NodeOf(g, r.name).fn.Some? then (DuplicateKey(r.name), g)
    else
      (OK, map n | n in g.Keys + {r.name} + Elems(r.dependents) ::
         NodeData(if n == r.name then r.fn else NodeOf(g, n).fn,
                  NodeOf(g, n).prerequisites
                  + (if n == r.name then Elems(r.prerequisites) else {})
                  + (if n in r.dependents then {r.name} else {})))
  }

  lemma AddedIs(g: NodeMap, r: Registration, next: NodeMap)
    requires r.fn.Some? && NodeOf(g, r.name).fn.None?
    requires next.Keys == g.Keys + {r.name} + Elems(r.dependents)
    requires forall n | n in next :: next[n].fn == if n == r.name then r.fn else NodeOf(g, n).fn
    requires forall n | n in next ::
      next[n].prerequisites == NodeOf(g, n).prerequisites
         + (if n == r.name then Elems(r.prerequisites) else {}) + (if n in r.dependents then {r.name} else {})
    ensures Added(g, r) == (OK, next)
  {
    hide Elems;
    assert Added(g, r).1 == next;
  }

  class InitializerDependencyGraph {
    var nodes: NodeMap

    constructor ()
      ensures nodes == map[]
    {
      nodes := map[];
    }

    method AddInitializer(name: Name, fn: Option<Function>, prerequisites: seq<Name>, dependents: seq<Name>)
      returns (status: Status)
      modifies this
      ensures (status, nodes) == Added(old(nodes), Registration(name, fn, prerequisites, dependents))
    {
      if fn.None? {
        return NullFunction;
      }
      if name !in nodes {
        nodes := nodes[name := NO_NODE];
      }
      if nodes[name].fn.Some? {
        assert nodes == old(nodes);
        return DuplicateKey(name);
      }
      nodes := nodes[name := nodes[name].(fn := fn)];
      hide Elems;
      hide Added;
      assert nodes.Keys == old(nodes).Keys + {name};
      assert forall n | n in nodes ::
        nodes[n] == NodeData(if n == name then fn else NodeOf(old(nodes), n).fn, NodeOf(old(nodes), n).prerequisites);
      InsertPrerequisites(name, prerequisites);
      InsertDependents(name, dependents);
      AddedIs(old(nodes), Registration(name, fn, prerequisites, dependents), nodes);
      return OK;
    }

    method InsertPrerequisites(name: Name, prerequisites: seq<Name>)
      requires name in nodes
      modifies this
      ensures nodes.Keys == old(nodes).Keys
      ensures forall n | n in nodes :: nodes[n].fn == old(nodes)[n].fn
      ensures forall n | n in nodes ::
        nodes[n].prerequisites == old(nodes)[n].prerequisites + (if n == name then Elems(prerequisites) else {})
    {
      var i := 0;
      while i < |prerequisites|
        invariant 0 <= i <= |prerequisites|
        invariant nodes.Keys == old(nodes).Keys
        invariant forall n | n in nodes :: nodes[n].fn == old(nodes)[n].fn
        invariant forall n | n in nodes ::
          nodes[n].prerequisites == old(nodes)[n].prerequisites + (if n == name then Elems(prerequisites[..i]) else {})
      {
        ElemsStep(prerequisites, i);
        nodes := nodes[name := nodes[name].(prerequisites := nodes[name].prerequisites + {prerequisites[i]})];
        i := i + 1;
      }
      assert prerequisites[..i] == prerequisites;
    }

    method InsertDependents(name: Name, dependents: seq<Name>)
      modifies this
      ensures nodes.Keys == old(nodes).Keys + Elems(dependents)
      ensures forall n | n in nodes :: nodes[n].fn == NodeOf(old(nodes), n).fn
      ensures forall n | n in nodes ::
        nodes[n].prerequisites == NodeOf(old(nodes), n).prerequisites + (if n in dependents then {name} else {})
    {
      var i := 0;
      while i < |dependents|
        invariant 0 <= i <= |dependents|
        invariant nodes.Keys == old(nodes).Keys + Elems(dependents[..i])
        invariant forall n | n in nodes :: nodes[n].fn == NodeOf(old(nodes), n).fn
        invariant forall n | n in nodes ::
          nodes[n].prerequisites == NodeOf(old(nodes), n).prerequisites + (if n in dependents[..i] then {name} else {})
      {
        ElemsStep(dependents, i);
        var node := if dependents[i] in nodes then nodes[dependents[i]] else NO_NODE;
        nodes := nodes[dependents[i] := node.(prerequisites := node.prerequisites + {name})];
        assert dependents[..i + 1] == dependents[..i] + [dependents[i]];
        i := i + 1;
      }
      assert dependents[..i] == dependents;
    }

    /** `getInitializerFunction`. */
    function InitializerFunction(name: Name): Option<Function>
      reads this
    {
      NodeOf(nodes, name).fn
    }
  }

  lemma ElemsStep(s: seq<Name>, i: nat)
    requires i < |s|
    ensures Elems(s[..i + 1]) == Elems(s[..i]) + {s[i]}
  {
  }

  // ---------------------------------------------------------------- registration order

  predicate Mentions(r: Registration, n: Name) {
    r.name == n || n in r.dependents
  }

  /** r makes m a prerequisite of n: m is in its list, or n is among its dependents. */
  predicate Orders(r: Registration, n: Name, m: Name) {
    (r.name == n && m in r.prerequisites) || (r.name == m && n in r.dependents)
  }

  ghost predicate Mentioned(regs: set<Registration>, n: Name) {
    exists r :: r in regs && Mentions(r, n)
  }

  ghost predicate Asked(regs: set<Registration>, n: Name, m: Name) {
    exists r :: r in regs && Orders(r, n, m)
  }

  ghost predicate Named(regs: set<Registration>, n: Name, fn: Function) {
    exists r :: r in regs && r.name == n && r.fn == Some(fn)
  }

  ghost predicate BuiltAt(g: NodeMap, regs: set<Registration>, n: Name, m: Name, f: Function) {
    && (n in g <==> Mentioned(regs, n))
    && (n in g ==> (g[n].fn == Some(f) <==> Named(regs, n, f)))
    && (n in g ==> (m in g[n].prerequisites <==> Asked(regs, n, m)))
  }

  /** The graph a set of registrations asks for, without an order: the nodes are the names they
      mention, functions come from the registration of that name, and prerequisites are the
      explicit ones and all nodes that named this one a dependent. */
  ghost predicate Built(g: NodeMap, regs: set<Registration>) {
    forall n, m, f :: BuiltAt(g, regs, n, m, f)
  }

  /** Distinct names and non-null functions. */
  ghost predicate Fit(rs: seq<Registration>) {
    && (forall r | r in rs :: r.fn.Some?)
    && forall i, j | 0 <= i < j < |rs| :: rs[i].name != rs[j].name
  }

  function Registrations(rs: seq<Registration>): set<Registration> {
    set r | r in rs
  }

  /** The graph after all the calls, and whether each of them returned OK. */
  function AddAll(rs: seq<Registration>): (bool, NodeMap) {
    if rs == [] then (true, map[])
    else
      var (ok, g) := AddAll(rs[..|rs| - 1]);
      var (status, next) := Added(g, rs[|rs| - 1]);
      (ok && status.OK?, next)
  }

  lemma BuiltStepAt(g: NodeMap, regs: set<Registration>, r: Registration, n: Name, m: Name, f: Function)
    requires BuiltAt(g, regs, n, m, f) && r.fn.Some? && NodeOf(g, r.name).fn.None?
    ensures BuiltAt(Added(g, r).1, regs + {r}, n, m, f)
  {
  }

  lemma HasRegistration(g: NodeMap, regs: set<Registration>, n: Name)
    requires Built(g, regs) && NodeOf(g, n).fn.Some?
    ensures exists q :: q in regs && q.name == n
  {
    assert BuiltAt(g, regs, n, n, g[n].fn.value);
  }

  lemma BuiltStep(g: NodeMap, regs: set<Registration>, r: Registration)
    requires Built(g, regs) && r.fn.Some?
    requires forall q | q in regs :: q.name != r.name
    ensures Added(g, r).0.OK? && Built(Added(g, r).1, regs + {r})
  {
    assert NodeOf(g, r.name).fn.None? by {
      if NodeOf(g, r.name).fn.Some? {
        HasRegistration(g, regs, r.name);
      }
    }
    hide BuiltAt;
    forall n, m, f ensures BuiltAt(Added(g, r).1, regs + {r}, n, m, f) {
      BuiltStepAt(g, regs, r, n, m, f);
    }
  }

  /** All calls succeed exactly on fit registrations, and then the graph is what they ask for. */
  lemma {:induction false} AddAllBuilds(rs: seq<Registration>)
    ensures AddAll(rs).0 <==> Fit(rs)
    ensures Fit(rs) ==> Built(AddAll(rs).1, Registrations(rs))
  {
    if rs != [] {
      var front, r := rs[..|rs| - 1], rs[|rs| - 1];
      AddAllBuilds(front);
      assert rs == front + [r];
      if Fit(rs) {
        assert Registrations(rs) == Registrations(front) + {r};
        BuiltStep(AddAll(front).1, Registrations(front), r);
      } else if Fit(front) && r.fn.Some? {
        var i :| 0 <= i < |front| && front[i].name == r.name;
        hide Mentioned;
        assert front[i] in Registrations(front);
        assert Named(Registrations(front), r.name, front[i].fn.value);
        assert BuiltAt(AddAll(front).1, Registrations(front), r.name, r.name, front[i].fn.value);
        assert Mentioned(Registrations(front), r.name) by { NamedMentioned(Registrations(front), front[i]); }
      }
    }
  }

  lemma NamedMentioned(regs: set<Registration>, r: Registration)
    requires r in regs
    ensures Mentioned(regs, r.name)
  {
  }

  lemma BuiltUnique(g: NodeMap, h: NodeMap, regs: set<Registration>)
    requires Built(g, regs) && Built(h, regs)
    ensures g == h
  {
    hide Mentioned;
    hide Named;
    hide Asked;
    forall n: Name ensures n in g <==> n in h {
      assert BuiltAt(g, regs, n, n, 0) && BuiltAt(h, regs, n, n, 0);
    }
    forall n | n in g ensures g[n] == h[n] {
      forall m: Name ensures m in g[n].prerequisites <==> m in h[n].prerequisites {
        assert BuiltAt(g, regs, n, m, 0) && BuiltAt(h, regs, n, m, 0);
      }
      forall f: Function ensures g[n].fn == Some(f) <==> h[n].fn == Some(f) {
        assert BuiltAt(g, regs, n, n, f) && BuiltAt(h, regs, n, n, f);
      }
      assert g[n].prerequisites == h[n].prerequisites;
      assert g[n].fn == h[n].fn by {
        if g[n].fn.Some? {
          assert g[n].fn == Some(g[n].fn.value);
        } else if h[n].fn.Some? {
          assert h[n].fn == Some(h[n].fn.value);
        }
      }
    }
  }

  /** The order of registrations does not matter. */
  lemma OrderIsIrrelevant(rs: seq<Registration>, ss: seq<Registration>)
    requires Fit(rs) && Fit(ss) && Registrations(rs) == Registrations(ss)
    ensures AddAll(rs) == AddAll(ss)
  {
    AddAllBuilds(rs);
    AddAllBuilds(ss);
    BuiltUnique(AddAll(rs).1, AddAll(ss).1, Registrations(rs));
  }

  // ---------------------------------------------------------------- execution

  /** How an initializer function comes back: by returning a status or by throwing one. */
  datatype Outcome = Returned(ok: bool) | Threw

  datatype ExecuteStatus = Executed | SortFailed(sort: Status) | Failed(name: Name)

  /** What a function does may depend on which functions ran before it. */
  type Behaviour = (seq<Name>, Function) -> Outcome

  /** The first `count` calls all returned OK. */
  ghost predicate AllOk(g: NodeMap, run: Behaviour, called: seq<Name>, count: nat) {
    count <= |called|
    && forall i | 0 <= i < count ::
      called[i] in g && g[called[i]].fn.Some? && run(called[..i], g[called[i]].fn.value) == Returned(true)
  }

  /** Each function is called at most once and only after all its prerequisites returned OK; the
      first failure ends the run. `called` is the log of calls. */
  method Execute(graph: InitializerDependencyGraph, run: Behaviour)
    returns (status: ExecuteStatus, called: seq<Name>)
    ensures Distinct(called) && Ordered(graph.nodes, called) && Elems(called) <= graph.nodes.Keys
    ensures status.Failed? ==> called != [] && called[|called| - 1] == status.name
    ensures AllOk(graph.nodes, run, called, if status.Failed? then |called| - 1 else |called|)
    ensures status.SortFailed? ==> called == []
    ensures status.SortFailed? <==> !(Complete(graph.nodes) && Acyclic(graph.nodes))
    ensures status.Executed? ==> Elems(called) == graph.nodes.Keys
    ensures status.Failed? && status.name in graph.nodes && graph.nodes[status.name].fn.Some? ==>
      run(called[..|called| - 1], graph.nodes[status.name].fn.value) != Returned(true)
  {
    var sort, sorted := TopSort(graph.nodes);
    if !sort.OK? {
      return SortFailed(sort), [];
    }
    called := [];
    hide Distinct;
    hide Ordered;
    hide Complete;
    hide Acyclic;
    hide Elems;
    var i := 0;
    PrefixOrdered(graph.nodes, sorted, 0);
    while i < |sorted|
      invariant 0 <= i <= |sorted| && called == sorted[..i]
      invariant AllOk(graph.nodes, run, called, i)
    {
      var fn := graph.InitializerFunction(sorted[i]);
      // The "no associated function" branch of the original tests the negation of this.
      FnPresent(graph.nodes, sorted, i);
      assert fn.Some?;
      var outcome := run(called, fn.value);
      called := called + [sorted[i]];
      assert called == sorted[..i + 1];
      assert forall k | 0 <= k <= i :: called[..k] == sorted[..i][..k];
      PrefixOrdered(graph.nodes, sorted, i + 1);
      if outcome != Returned(true) {
        assert called[..|called| - 1] == sorted[..i];
        return Failed(sorted[i]), called;
      }
      i := i + 1;
    }
    assert called == sorted;
    status := Executed;
  }

  lemma FnPresent(g: NodeMap, s: seq<Name>, i: nat)
    requires Complete(g) && Elems(s) <= g.Keys && i < |s|
    ensures s[i] in g && g[s[i]].fn.Some?
  {
  }

  lemma PrefixOrdered(g: NodeMap, s: seq<Name>, k: nat)
    requires k <= |s| && Distinct(s) && Ordered(g, s) && Elems(s) <= g.Keys
    ensures Distinct(s[..k]) && Ordered(g, s[..k]) && Elems(s[..k]) <= g.Keys
  {
  }
}
