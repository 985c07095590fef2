/**
 * The work order of a roadmap's open entries, the entries a troubled one holds
 * back, and the run loop that starts them.
 */
module Scheduler {
  import opened Prelude
  import opened Roadmap

  // --------------------------------------------------------- a roadmap's graph

  /** The open entry named `id`. */
  function Named(rm: Entries, id: nat): (e: Entry)
    requires id in OpenIds(rm)
    ensures e in rm && !e.checked && e.id == id
  {
    if !rm[0].checked && rm[0].id == id then rm[0]
    else
      assert rm == [rm[0]] + rm[1..];
      Named(rm[1..], id)
  }

  function GraphOf(rm: Entries): (g: Graph)
    ensures g.Keys == OpenIds(rm) && Closed(g)
  {
    map id | id in OpenIds(rm) :: Prerequisites(rm, Named(rm, id))
  }

  /** `d` is the ID of another open entry that `e` depends on: one it names, or,
      when it depends on its track, any of the track that does not itself. */
  ghost predicate DependsOn(rm: Entries, e: Entry, d: nat) {
    exists o <- rm ::
      && !o.checked && o.id == d && d != e.id
      && if e.dependsOnTrack then o.track == e.track && !o.dependsOnTrack else d in e.depends
  }

  /** With distinct IDs each open entry is the one its ID names, and its edges in
      the graph lead to exactly the other open entries it depends on. */
  lemma {:induction false} EdgesArePrerequisites(rm: Entries, e: Entry)
    requires DistinctIds(rm) && e in rm && !e.checked
    ensures e.id in GraphOf(rm) && Named(rm, e.id) == e && GraphOf(rm)[e.id] == Prerequisites(rm, e)
    ensures forall d :: d in GraphOf(rm)[e.id] <==> DependsOn(rm, e, d)
  {
    forall d ensures d in Prerequisites(rm, e) <==> DependsOn(rm, e, d) {
      assert d in OpenIds(rm) <==> exists o <- rm :: !o.checked && o.id == d;
    }
  }

  predicate Standing(rm: Entries, id: nat)
    requires id in OpenIds(rm)
  {
    Named(rm, id).standing
  }

  /** The open entries that are standing. */
  function StandingIds(rm: Entries): set<nat> {
    set id | id in OpenIds(rm) && Standing(rm, id)
  }

  function Without(order: seq<nat>, drop: set<nat>): (r: seq<nat>)
    ensures forall v :: v in r <==> v in order && v !in drop
  {
    if order == [] then []
    else
      var last := order[|order| - 1];
      assert order == order[..|order| - 1] + [last];
      var rest := Without(order[..|order| - 1], drop);
      if last in drop then rest else rest + [last]
  }

  ghost predicate Placed(g: Graph, drop: set<nat>, order: seq<nat>, i: nat)
    requires i < |order|
  {
    && order[i] in g && order[i] !in drop && order[i] !in order[..i]
    && forall d <- g[order[i]] :: d in drop || d in order[..i]
  }

  /** Each entry's prerequisites, but for those in `drop`, come before it. */
  ghost predicate Ordered(g: Graph, drop: set<nat>, order: seq<nat>) {
    forall i | 0 <= i < |order| :: Placed(g, drop, order, i)
  }

  lemma {:induction false} OrderedPrefix(g: Graph, drop: set<nat>, order: seq<nat>, n: nat)
    requires Ordered(g, drop, order) && n <= |order|
    ensures Ordered(g, drop, order[..n])
  {
    forall i | 0 <= i < n ensures Placed(g, drop, order[..n], i) {
      assert Placed(g, drop, order, i) && order[..n][..i] == order[..i];
    }
  }

  lemma {:induction false} TopologicalPrefix(g: Graph, order: seq<nat>, n: nat)
    requires Topological(g, order) && n <= |order|
    ensures Topological(g, order[..n])
  {
    forall i | 0 <= i < n ensures Follows(g, order[..n], i) {
      assert Follows(g, order, i) && order[..n][..i] == order[..i];
    }
  }

  lemma {:induction false} OrderedSnoc(g: Graph, drop: set<nat>, order: seq<nat>, last: nat)
    requires Ordered(g, drop, order) && last in g && last !in drop && last !in order
    requires forall d <- g[last] :: d in drop || d in order
    ensures Ordered(g, drop, order + [last])
  {
    var r := order + [last];
    forall i | 0 <= i < |r| ensures Placed(g, drop, r, i) {
      if i < |order| {
        assert Placed(g, drop, order, i) && r[..i] == order[..i];
      } else {
        assert r[..i] == order;
      }
    }
  }

  lemma {:induction false} WithoutOrdered(g: Graph, drop: set<nat>, order: seq<nat>)
    requires Topological(g, order) && NoRepeats(order)
    ensures Ordered(g, drop, Without(order, drop))
    decreases |order|
  {
    if order != [] {
      var n := |order| - 1;
      var init, last := order[..n], order[n];
      TopologicalPrefix(g, order, n);
      WithoutOrdered(g, drop, init);
      if last !in drop {
        assert Follows(g, order, n);
        OrderedSnoc(g, drop, Without(init, drop), last);
      }
    }
  }

  /** Open non-standing entries under `roots`, each after its prerequisites. */
  function WorkOrder(rm: Entries, roots: seq<nat>): seq<nat>
    requires Within(GraphOf(rm), roots)
  {
    Without(VisitedAll(GraphOf(rm), roots, Walk({}, [])).order, StandingIds(rm))
  }

  /** On an acyclic roadmap the work order lists every non-standing entry
      reachable from the roots exactly once, after all its non-standing
      prerequisites; on a cyclic one it still lists the same entries. */
  lemma {:induction false} WorkOrderIsRight(rm: Entries, roots: seq<nat>)
    requires Within(GraphOf(rm), roots)
    ensures forall v :: v in WorkOrder(rm, roots)
              <==> v !in StandingIds(rm) && exists t <- roots :: Reaches(GraphOf(rm), t, v)
    ensures Acyclic(GraphOf(rm)) ==> Ordered(GraphOf(rm), StandingIds(rm), WorkOrder(rm, roots))
  {
    var g := GraphOf(rm);
    WalkListsReachable(g, roots);
    if Acyclic(g) {
      WalkIsTopological(g, roots);
      WithoutOrdered(g, StandingIds(rm), VisitedAll(g, roots, Walk({}, [])).order);
    }
  }

  lemma {:induction false} WithoutKeepsOnce(order: seq<nat>, drop: set<nat>)
    requires NoRepeats(order)
    ensures NoRepeats(Without(order, drop))
    decreases |order|
  {
    if order != [] {
      var n := |order| - 1;
      WithoutKeepsOnce(order[..n], drop);
      var rest := Without(order[..n], drop);
      assert forall i | 0 <= i < |rest| :: rest[i] in rest;
    }
  }

  /** Even on a cyclic roadmap no entry is listed twice. */
  lemma {:induction false} WorkOrderListsOnce(rm: Entries, roots: seq<nat>)
    requires Within(GraphOf(rm), roots)
    ensures NoRepeats(WorkOrder(rm, roots))
  {
    WalkListsReachable(GraphOf(rm), roots);
    WithoutKeepsOnce(VisitedAll(GraphOf(rm), roots, Walk({}, [])).order, StandingIds(rm));
  }

  // ------------------------------------------------------- what is held back

  type Causes = map<nat, set<nat>>

  function CausesOf(causes: Causes, id: nat): set<nat> {
    if id in causes then causes[id] else {}
  }

  /** The troubled entries any of `deps` waits on. */
  function WaitsOf(causes: Causes, deps: seq<nat>): (r: set<nat>)
    ensures forall t :: t in r <==> exists d <- deps :: t in CausesOf(causes, d)
  {
    if deps == [] then {}
    else
      assert deps == [deps[0]] + deps[1..];
      CausesOf(causes, deps[0]) + WaitsOf(causes, deps[1..])
  }

  function Marked(g: Graph, causes: Causes, e: nat): Causes
    requires e in g
  {
    var waits := WaitsOf(causes, g[e]);
    if waits == {} then causes else causes[e := CausesOf(causes, e) + waits]
  }

  function HeldBackIn(g: Graph, order: seq<nat>, causes: Causes): Causes
    requires Within(g, order)
  {
    if order == [] then causes
    else Marked(g, HeldBackIn(g, order[..|order| - 1], causes), order[|order| - 1])
  }

  function Troubled(troubled: set<nat>): Causes {
    map t | t in troubled :: {t}
  }

  /** `e` is `t`, or waits on it through open entries that are not standing. */
  ghost predicate WaitsOn(g: Graph, standing: set<nat>, e: nat, t: nat) {
    || e == t
    || exists p ::
         && Path(g, p) && |p| >= 2 && p[0] == e && p[|p| - 1] == t
         && forall i | 0 <= i < |p| - 1 :: p[i] !in standing
  }

  lemma {:induction false} WaitsOnStep(g: Graph, standing: set<nat>, e: nat, d: nat, t: nat)
    requires Closed(g) && e in g && e !in standing && d in g[e]
    requires WaitsOn(g, standing, d, t) && (d in standing ==> d == t)
    ensures WaitsOn(g, standing, e, t)
  {
    var i :| 0 <= i < |g[e]| && g[e][i] == d;
    if d == t {
      assert Path(g, [e, t]);
    } else {
      var p :| Path(g, p) && |p| >= 2 && p[0] == d && p[|p| - 1] == t
        && forall i | 0 <= i < |p| - 1 :: p[i] !in standing;
      var q := [e] + p;
      forall i | 0 <= i < |q| - 1 ensures q[i + 1] in g[q[i]] && q[i] !in standing {
        if i > 0 {
          assert p[(i - 1) + 1] in g[p[i - 1]];
        }
      }
      assert Path(g, q);
    }
  }

  lemma {:induction false} WaitsOnFirst(g: Graph, standing: set<nat>, e: nat, t: nat) returns (d: nat)
    requires WaitsOn(g, standing, e, t) && e != t
    ensures e in g && d in g[e] && WaitsOn(g, standing, d, t) && (d in standing ==> d == t)
  {
    var p :| Path(g, p) && |p| >= 2 && p[0] == e && p[|p| - 1] == t
      && forall i | 0 <= i < |p| - 1 :: p[i] !in standing;
    assert p[0 + 1] in g[p[0]];
    d := p[1];
    if |p| > 2 {
      var q := p[1..];
      assert forall i | 0 <= i < |q| - 1 :: q[i] == p[i + 1];
      assert q[0] == d && q[|q| - 1] == t;
    }
  }

  /** The troubled entries `e` waits on. */
  ghost function Blockers(g: Graph, standing: set<nat>, troubled: set<nat>, e: nat): set<nat> {
    set t | t in troubled && WaitsOn(g, standing, e, t)
  }

  lemma {:induction false} MarkIsExact(g: Graph, standing: set<nat>, before: Causes, troubled: set<nat>, e: nat, t: nat)
    requires Closed(g) && e in g && e !in standing
    requires CausesOf(before, e) == CausesOf(Troubled(troubled), e)
    requires forall d <- g[e] ::
      t in CausesOf(before, d) <==> t in troubled && WaitsOn(g, standing, d, t) && (d in standing ==> d == t)
    ensures t in CausesOf(Marked(g, before, e), e) <==> t in Blockers(g, standing, troubled, e)
  {
    if t in WaitsOf(before, g[e]) {
      var d :| d in g[e] && t in CausesOf(before, d);
      WaitsOnStep(g, standing, e, d, t);
    }
    if t in Blockers(g, standing, troubled, e) && t != e {
      var d := WaitsOnFirst(g, standing, e, t);
    }
  }

  /** The pass over `order` marks each of its entries with exactly the troubled
      entries it waits on, and touches no other. */
  lemma {:induction false} HeldBackIsExact(g: Graph, standing: set<nat>, order: seq<nat>, troubled: set<nat>, e: nat)
    requires Closed(g) && Within(g, order) && Ordered(g, standing, order)
    ensures CausesOf(HeldBackIn(g, order, Troubled(troubled)), e)
         == if e in order then Blockers(g, standing, troubled, e) else CausesOf(Troubled(troubled), e)
    decreases |order|
  {
    if order != [] {
      var n := |order| - 1;
      var init, last := order[..n], order[n];
      OrderedPrefix(g, standing, order, n);
      assert Placed(g, standing, order, n);
      assert order == init + [last];
      var before := HeldBackIn(g, init, Troubled(troubled));
      HeldBackIsExact(g, standing, init, troubled, e);
      if e == last {
        var after := HeldBackIn(g, order, Troubled(troubled));
        forall t ensures t in CausesOf(after, e) <==> t in Blockers(g, standing, troubled, e) {
          forall d <- g[e]
            ensures t in CausesOf(before, d)
               <==> t in troubled && WaitsOn(g, standing, d, t) && (d in standing ==> d == t)
          {
            HeldBackIsExact(g, standing, init, troubled, d);
          }
          MarkIsExact(g, standing, before, troubled, e, t);
        }
      }
    }
  }

  lemma {:induction false} HeldBackKeys(g: Graph, order: seq<nat>, troubled: set<nat>, e: nat)
    requires Within(g, order)
    ensures e in HeldBackIn(g, order, Troubled(troubled))
       <==> CausesOf(HeldBackIn(g, order, Troubled(troubled)), e) != {}
    decreases |order|
  {
    if order != [] {
      HeldBackKeys(g, order[..|order| - 1], troubled, e);
    } else if e in troubled {
      assert e in CausesOf(Troubled(troubled), e);
    }
  }

  function AllRoots(rm: Entries, open: Entries): (r: seq<nat>)
    requires forall e <- open :: e in rm && !e.checked
    ensures forall v :: v in r <==> exists e <- open :: e.id == v
    ensures Within(GraphOf(rm), r)
  {
    if open == [] then []
    else
      assert open == [open[0]] + open[1..];
      [open[0].id] + AllRoots(rm, open[1..])
  }

  lemma {:induction false} WorkOrderWithin(rm: Entries, roots: seq<nat>)
    requires Within(GraphOf(rm), roots)
    ensures Within(GraphOf(rm), WorkOrder(rm, roots))
  {
    var g := GraphOf(rm);
    VisitedAllAdvances(g, roots, Walk({}, []));
    var order := WorkOrder(rm, roots);
    assert forall i | 0 <= i < |order| :: order[i] in order;
  }

  /** The entries `held_back` marks: those blocked by `troubled`. */
  function HeldBack(rm: Entries, troubled: set<nat>): Causes {
    var order := WorkOrder(rm, AllRoots(rm, Open(rm)));
    WorkOrderWithin(rm, AllRoots(rm, Open(rm)));
    HeldBackIn(GraphOf(rm), order, Troubled(troubled))
  }

  /** On an acyclic roadmap, each open non-standing entry is marked with exactly
      the troubled entries reachable through chains of open non-standing
      prerequisites, and is blocked when there is one. */
  lemma {:induction false} HeldBackMarksExactly(rm: Entries, troubled: set<nat>, e: nat)
    requires Acyclic(GraphOf(rm)) && e in OpenIds(rm) && !Standing(rm, e)
    ensures CausesOf(HeldBack(rm, troubled), e) == Blockers(GraphOf(rm), StandingIds(rm), troubled, e)
    ensures e in HeldBack(rm, troubled) <==> Blockers(GraphOf(rm), StandingIds(rm), troubled, e) != {}
  {
    var g := GraphOf(rm);
    var roots := AllRoots(rm, Open(rm));
    WorkOrderIsRight(rm, roots);
    WorkOrderWithin(rm, roots);
    assert Named(rm, e) in Open(rm);
    assert e in roots;
    ReachesSelf(g, e);
    HeldBackIsExact(g, StandingIds(rm), WorkOrder(rm, roots), troubled, e);
    HeldBackKeys(g, WorkOrder(rm, roots), troubled, e);
  }
}
