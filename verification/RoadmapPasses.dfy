/** The roadmap's depth-first passes and the marking pass, step by step. */
module RoadmapPasses {
  import opened Prelude
  import opened Roadmap
  import opened Scheduler

  /** The walk behind the work order. */
  class Walker {
    const g: Graph
    var state: set<nat>
    var order: seq<nat>

    constructor (g: Graph)
      ensures this.g == g && state == {} && order == []
    {
      this.g := g;
      state, order := {}, [];
    }

    method Visit(v: nat)
      requires Closed(g) && v in g && state <= g.Keys
      modifies this
      ensures Walk(state, order) == Visited(g, v, old(Walk(state, order)))
      decreases g.Keys - state
    {
      if v in state {
        return;
      }
      state := state + {v};
      ghost var entered := Walk(state, order);
      var deps := g[v];
      assert deps[0..] == deps;
      for i := 0 to |deps|
        invariant entered.seen <= state <= g.Keys
        invariant VisitedAll(g, deps[i..], Walk(state, order)) == VisitedAll(g, deps, entered)
      {
        assert deps[i..][1..] == deps[i + 1..];
        Visit(deps[i]);
      }
      order := order + [v];
    }
  }

  /** The work order under `roots`. */
  method ListWorkOrder(rm: Entries, roots: seq<nat>) returns (order: seq<nat>)
    requires Within(GraphOf(rm), roots)
    ensures order == WorkOrder(rm, roots)
  {
    var g := GraphOf(rm);
    var walker := new Walker(g);
    assert roots[0..] == roots;
    for i := 0 to |roots|
      invariant walker.state <= g.Keys
      invariant VisitedAll(g, roots[i..], Walk(walker.state, walker.order)) == VisitedAll(g, roots, Walk({}, []))
    {
      assert roots[i..][1..] == roots[i + 1..];
      walker.Visit(roots[i]);
    }
    order := Without(walker.order, StandingIds(rm));
  }

  datatype Status = Active | Finished

  /** The walk behind the cycle check. */
  class CycleFinder {
    const g: Graph
    var state: map<nat, Status>
    var found: seq<seq<nat>>
    /** The finished entries, in order. */
    ghost var done: seq<nat>

    constructor (g: Graph)
      ensures this.g == g && state == map[] && found == [] && done == []
    {
      this.g := g;
      state, found, done := map[], [], [];
    }

    /** Entries on the path are active, and finished ones are done. */
    ghost predicate Valid(path: seq<nat>)
      reads this
    {
      && (forall v :: v in state && state[v] == Finished <==> v in done)
      && (forall v :: v in state && state[v] == Active <==> v in path && v !in done)
    }

    method Visit(v: nat, path: seq<nat>)
      requires Closed(g) && v in g && Valid(path)
      modifies this
      ensures Valid(path)
      ensures var r := Searched(g, v, path, old(done)); done == r.done && found == old(found) + r.found
      decreases Fresh(g, path, done), 0
    {
      if v in state && state[v] == Finished {
        return;
      }
      if v in state && state[v] == Active {
        found := found + [path[Index(path, v)..] + [v]];
        return;
      }
      state := state[v := Active];
      assert v in Fresh(g, path, done) && v !in Fresh(g, path + [v], done);
      VisitAll(g[v], path + [v]);
      state := state[v := Finished];
      done := done + [v];
    }

    method VisitAll(todo: seq<nat>, path: seq<nat>)
      requires Closed(g) && Within(g, todo) && Valid(path)
      modifies this
      ensures Valid(path)
      ensures var r := SearchedAll(g, todo, path, old(done)); done == r.done && found == old(found) + r.found
      decreases Fresh(g, path, done), 1, |todo|
    {
      if todo != [] {
        ghost var first := Searched(g, todo[0], path, done);
        ghost var rest := SearchedAll(g, todo[1..], path, first.done);
        Regrouped(found, first.found, rest.found);
        Visit(todo[0], path);
        VisitAll(todo[1..], path);
      }
    }
  }

  /** The cycles among a roadmap's open entries: none exactly when no entry
      waits, directly or not, on itself. */
  method FindCycles(rm: Entries) returns (found: seq<seq<nat>>)
    ensures found == [] <==> Acyclic(GraphOf(rm))
    ensures AllCycles(GraphOf(rm), found)
  {
    var g := GraphOf(rm);
    var finder := new CycleFinder(g);
    var roots := AllRoots(rm, Open(rm));
    assert forall v <- g :: v in roots by {
      forall v <- g ensures v in roots {
        assert Named(rm, v) in Open(rm);
      }
    }
    finder.VisitAll(roots, []);
    CyclesDecidesAcyclic(g, roots);
    found := finder.found;
  }

  method MarkAll(g: Graph, order: seq<nat>, before: Causes) returns (causes: Causes)
    requires Within(g, order)
    ensures causes == HeldBackIn(g, order, before)
  {
    causes := before;
    for i := 0 to |order|
      invariant causes == HeldBackIn(g, order[..i], before)
    {
      assert order[..i + 1][..i] == order[..i];
      var e := order[i];
      var waits := WaitsOf(causes, g[e]);
      if waits != {} {
        causes := causes[e := CausesOf(causes, e) + waits];
      }
    }
    assert order[..|order|] == order;
  }

  /** The entries held back by the troubled ones. */
  method MarkHeldBack(rm: Entries, troubled: set<nat>) returns (causes: Causes)
    ensures causes == HeldBack(rm, troubled)
  {
    var g := GraphOf(rm);
    var roots := AllRoots(rm, Open(rm));
    var order := ListWorkOrder(rm, roots);
    WorkOrderWithin(rm, roots);
    causes := MarkAll(g, order, Troubled(troubled));
  }
}
