/**
 * The roadmap's dependency graph: the depth-first work order, and the cycle
 * check that says when that order is one.
 */
module Roadmap {
  import opened Prelude

  // ---------------------------------------------------------------- entries

  datatype Slug = Slug(text: string)

  datatype Entry = Entry(
    id: nat,
    track: Slug,
    checked: bool,
    standing: bool,
    depends: seq<nat>,
    dependsOnTrack: bool)

  type Entries = seq<Entry>

  ghost predicate DistinctIds(rm: Entries) {
    forall i, j | 0 <= i < j < |rm| :: rm[i].id != rm[j].id
  }

  function Open(rm: Entries): (r: Entries)
    ensures forall e :: e in r <==> e in rm && !e.checked
  {
    if rm == [] then []
    else
      assert rm == [rm[0]] + rm[1..];
      (if rm[0].checked then [] else [rm[0]]) + Open(rm[1..])
  }

  function OpenIds(rm: Entries): set<nat> {
    set e | e in rm && !e.checked :: e.id
  }

  /** Every other open entry of the track that does not itself wait on it. */
  function TrackMates(open: Entries, e: Entry): (r: seq<nat>)
    ensures forall d :: d in r <==>
              exists o <- open :: o.id == d && o.track == e.track && o.id != e.id && !o.dependsOnTrack
  {
    if open == [] then []
    else
      assert open == [open[0]] + open[1..];
      var o := open[0];
      (if o.track == e.track && o.id != e.id && !o.dependsOnTrack then [o.id] else []) + TrackMates(open[1..], e)
  }

  function OpenNames(open: set<nat>, names: seq<nat>, self: nat): (r: seq<nat>)
    ensures forall d :: d in r <==> d in names && d in open && d != self
  {
    if names == [] then []
    else
      assert names == [names[0]] + names[1..];
      (if names[0] in open && names[0] != self then [names[0]] else []) + OpenNames(open, names[1..], self)
  }

  /** The open entries `e` names, or its track mates. */
  function Prerequisites(rm: Entries, e: Entry): (r: seq<nat>)
    ensures forall d <- r :: d in OpenIds(rm) && d != e.id
  {
    if e.dependsOnTrack then TrackMates(Open(rm), e) else OpenNames(OpenIds(rm), e.depends, e.id)
  }

  // -------------------------------------------------------------- the graph

  /** Each open entry with its open prerequisites, in order. */
  type Graph = map<nat, seq<nat>>

  ghost predicate Closed(g: Graph) {
    forall v, i | v in g && 0 <= i < |g[v]| :: g[v][i] in g
  }

  predicate Within(g: Graph, todo: seq<nat>) {
    forall i | 0 <= i < |todo| :: todo[i] in g
  }

  /** `p` follows prerequisites step by step. */
  predicate Path(g: Graph, p: seq<nat>) {
    && p != [] && Within(g, p)
    && forall i | 0 <= i < |p| - 1 :: p[i + 1] in g[p[i]]
  }

  ghost predicate Reaches(g: Graph, a: nat, b: nat) {
    exists p :: Path(g, p) && p[0] == a && p[|p| - 1] == b
  }

  /** `p` is a path from an entry back to itself. */
  predicate Cycle(g: Graph, p: seq<nat>) {
    Path(g, p) && |p| >= 2 && p[0] == p[|p| - 1]
  }

  ghost predicate Acyclic(g: Graph) {
    forall p :: !Cycle(g, p)
  }

  ghost predicate Ranked(g: Graph, rank: nat -> nat) {
    forall v, d | v in g && d in g[v] :: rank(d) < rank(v)
  }

  lemma {:induction false} ReachesStep(g: Graph, a: nat, d: nat, b: nat)
    requires a in g && d in g[a] && Reaches(g, d, b)
    ensures Reaches(g, a, b)
  {
    var p :| Path(g, p) && p[0] == d && p[|p| - 1] == b;
    var q := [a] + p;
    forall i | 0 <= i < |q| - 1 ensures q[i + 1] in g[q[i]] {
      if i > 0 {
        assert p[i] in g[p[i - 1]];
      }
    }
    assert Path(g, q);
  }

  lemma {:induction false} ReachesSelf(g: Graph, a: nat)
    requires a in g
    ensures Reaches(g, a, a)
  {
    assert Path(g, [a]);
  }

  /** A set closed under prerequisites holds all that its members reach. */
  lemma {:induction false} ClosedHoldsPaths(g: Graph, s: set<nat>, p: seq<nat>)
    requires Path(g, p) && p[0] in s
    requires forall v, d | v in s && v in g && d in g[v] :: d in s
    ensures p[|p| - 1] in s
    decreases |p|
  {
    if |p| > 1 {
      assert p[0 + 1] in g[p[0]];
      ClosedHoldsPaths(g, s, p[1..]);
    }
  }

  // --------------------------------------------------------- the work order

  /** The entries met so far, and those finished, in order. */
  datatype Walk = Walk(seen: set<nat>, order: seq<nat>)

  function Visited(g: Graph, v: nat, w: Walk): (r: Walk)
    requires Closed(g) && v in g && w.seen <= g.Keys
    ensures w.seen <= r.seen <= g.Keys && v in r.seen
    decreases g.Keys - w.seen, 0, 0
  {
    if v in w.seen then w
    else
      var inner := VisitedAll(g, g[v], w.(seen := w.seen + {v}));
      inner.(order := inner.order + [v])
  }

  function VisitedAll(g: Graph, todo: seq<nat>, w: Walk): (r: Walk)
    requires Closed(g) && Within(g, todo) && w.seen <= g.Keys
    ensures w.seen <= r.seen <= g.Keys
    decreases g.Keys - w.seen, 1, |todo|
  {
    if todo == [] then w else VisitedAll(g, todo[1..], Visited(g, todo[0], w))
  }

  /** Finished entries are met, finished once, and their prerequisites are met. */
  ghost predicate Sound(g: Graph, w: Walk) {
    && (forall v <- w.order :: v in w.seen && v in g && forall d <- g[v] :: d in w.seen)
    && NoRepeats(w.order)
  }

  /** The walk from `w` to `r` finished just what it met, all reachable from
      `todo`. */
  ghost predicate Advanced(g: Graph, todo: seq<nat>, w: Walk, r: Walk) {
    && w.order <= r.order
    && Sound(g, r)
    && (forall v :: v in r.seen && v !in r.order <==> v in w.seen && v !in w.order)
    && (forall t <- todo :: t in r.seen)
    && (forall v <- r.order :: v in w.order || exists t <- todo :: Reaches(g, t, v))
  }

  lemma {:induction false} VisitedAdvances(g: Graph, v: nat, w: Walk)
    requires Closed(g) && v in g && w.seen <= g.Keys && Sound(g, w)
    ensures Advanced(g, [v], w, Visited(g, v, w))
    decreases g.Keys - w.seen, 0, 0
  {
    if v !in w.seen {
      var entered := w.(seen := w.seen + {v});
      assert v !in w.order;
      VisitedAllAdvances(g, g[v], entered);
      var inner := VisitedAll(g, g[v], entered);
      var r := Visited(g, v, w);
      assert v in inner.seen && v !in inner.order;
      ReachesSelf(g, v);
      forall x <- r.order ensures x in w.order || Reaches(g, v, x) {
        if x in inner.order && x !in w.order {
          var d :| d in g[v] && Reaches(g, d, x);
          ReachesStep(g, v, d, x);
        }
      }
      assert v in [v];
    }
  }

  lemma {:induction false} VisitedAllAdvances(g: Graph, todo: seq<nat>, w: Walk)
    requires Closed(g) && Within(g, todo) && w.seen <= g.Keys && Sound(g, w)
    ensures Advanced(g, todo, w, VisitedAll(g, todo, w))
    decreases g.Keys - w.seen, 1, |todo|
  {
    if todo != [] {
      var mid := Visited(g, todo[0], w);
      VisitedAdvances(g, todo[0], w);
      VisitedAllAdvances(g, todo[1..], mid);
      var r := VisitedAll(g, todo, w);
      assert todo == [todo[0]] + todo[1..];
    }
  }

  /** On any graph, cyclic ones included, the walk lists each entry reachable
      from the roots exactly once, and no other. */
  lemma {:induction false} WalkListsReachable(g: Graph, roots: seq<nat>)
    requires Closed(g) && Within(g, roots)
    ensures var order := VisitedAll(g, roots, Walk({}, [])).order;
            NoRepeats(order) && forall v :: v in order <==> exists t <- roots :: Reaches(g, t, v)
  {
    var w := Walk({}, []);
    VisitedAllAdvances(g, roots, w);
    var r := VisitedAll(g, roots, w);
    forall t, v | t in roots && Reaches(g, t, v) ensures v in r.order {
      var p :| Path(g, p) && p[0] == t && p[|p| - 1] == v;
      assert forall x <- r.seen :: x in r.order;
      ClosedHoldsPaths(g, r.seen, p);
    }
  }

  ghost predicate Follows(g: Graph, order: seq<nat>, i: nat)
    requires i < |order|
  {
    order[i] in g && forall d <- g[order[i]] :: d in order[..i]
  }

  /** Each entry's prerequisites come before it. */
  ghost predicate Topological(g: Graph, order: seq<nat>) {
    forall i | 0 <= i < |order| :: Follows(g, order, i)
  }

  lemma {:induction false} TopologicalSnoc(g: Graph, order: seq<nat>, v: nat)
    requires Topological(g, order) && v in g && forall d <- g[v] :: d in order
    ensures Topological(g, order + [v])
  {
    var after := order + [v];
    forall i | 0 <= i < |after| ensures Follows(g, after, i) {
      if i < |order| {
        assert Follows(g, order, i) && after[..i] == order[..i];
      } else {
        assert after[..i] == order;
      }
    }
  }

  /** No entry being visited ranks as low as one about to be. */
  ghost predicate ActiveAbove(w: Walk, rank: nat -> nat, bound: nat) {
    forall x <- w.seen :: x in w.order || rank(x) >= bound
  }

  lemma {:induction false} VisitedTopological(g: Graph, v: nat, w: Walk, rank: nat -> nat)
    requires Closed(g) && v in g && w.seen <= g.Keys && Sound(g, w) && Ranked(g, rank)
    requires Topological(g, w.order) && ActiveAbove(w, rank, rank(v) + 1)
    ensures Topological(g, Visited(g, v, w).order) && v in Visited(g, v, w).order
    decreases g.Keys - w.seen, 0, 0
  {
    if v !in w.seen {
      var entered := w.(seen := w.seen + {v});
      VisitedAllTopological(g, g[v], entered, rank, rank(v));
      TopologicalSnoc(g, VisitedAll(g, g[v], entered).order, v);
    }
  }

  lemma {:induction false} VisitedAllTopological(g: Graph, todo: seq<nat>, w: Walk, rank: nat -> nat, bound: nat)
    requires Closed(g) && Within(g, todo) && w.seen <= g.Keys && Sound(g, w) && Ranked(g, rank)
    requires Topological(g, w.order) && ActiveAbove(w, rank, bound)
    requires forall t <- todo :: rank(t) < bound
    ensures Topological(g, VisitedAll(g, todo, w).order)
    ensures forall t <- todo :: t in VisitedAll(g, todo, w).order
    decreases g.Keys - w.seen, 1, |todo|
  {
    if todo != [] {
      assert todo[0] in todo;
      var mid := Visited(g, todo[0], w);
      VisitedTopological(g, todo[0], w, rank);
      VisitedAdvances(g, todo[0], w);
      assert forall t <- todo[1..] :: t in todo;
      VisitedAllTopological(g, todo[1..], mid, rank, bound);
      VisitedAllAdvances(g, todo[1..], mid);
      assert todo == [todo[0]] + todo[1..];
    }
  }

  function MaxRank(todo: seq<nat>, rank: nat -> nat): (m: nat)
    ensures forall t <- todo :: rank(t) <= m
  {
    if todo == [] then 0
    else
      assert todo == [todo[0]] + todo[1..];
      var rest := MaxRank(todo[1..], rank);
      if rank(todo[0]) > rest then rank(todo[0]) else rest
  }

  // ------------------------------------------------------------- the cycles

  /** The entries finished, in order, and the cycles reported. */
  datatype Search = Search(done: seq<nat>, found: seq<seq<nat>>)

  /** The entries neither finished nor on the path being followed. */
  ghost function Fresh(g: Graph, path: seq<nat>, done: seq<nat>): set<nat> {
    set v | v in g && v !in path && v !in done
  }

  ghost function Searched(g: Graph, v: nat, path: seq<nat>, done: seq<nat>): (r: Search)
    requires Closed(g) && v in g
    ensures done <= r.done
    decreases Fresh(g, path, done), 0, 0
  {
    if v in done then Search(done, [])
    else if v in path then Search(done, [path[Index(path, v)..] + [v]])
    else
      assert v in Fresh(g, path, done) && v !in Fresh(g, path + [v], done);
      var inner := SearchedAll(g, g[v], path + [v], done);
      Search(inner.done + [v], inner.found)
  }

  ghost function SearchedAll(g: Graph, todo: seq<nat>, path: seq<nat>, done: seq<nat>): (r: Search)
    requires Closed(g) && Within(g, todo)
    ensures done <= r.done
    decreases Fresh(g, path, done), 1, |todo|
  {
    if todo == [] then Search(done, [])
    else
      var first := Searched(g, todo[0], path, done);
      assert Fresh(g, path, first.done) <= Fresh(g, path, done);
      var rest := SearchedAll(g, todo[1..], path, first.done);
      Search(rest.done, first.found + rest.found)
  }

  ghost predicate AllCycles(g: Graph, found: seq<seq<nat>>) {
    forall i | 0 <= i < |found| :: Cycle(g, found[i])
  }

  /** Every path reported is a genuine cycle. */
  lemma {:induction false} SearchedFindsCycles(g: Graph, v: nat, path: seq<nat>, done: seq<nat>)
    requires Closed(g) && v in g && (path == [] || (Path(g, path) && v in g[path[|path| - 1]]))
    ensures AllCycles(g, Searched(g, v, path, done).found)
    decreases Fresh(g, path, done), 0, 0
  {
    if v !in done && v !in path {
      assert v in Fresh(g, path, done) && v !in Fresh(g, path + [v], done);
      SearchedAllFindsCycles(g, g[v], path + [v], done);
    }
  }

  lemma {:induction false} SearchedAllFindsCycles(g: Graph, todo: seq<nat>, path: seq<nat>, done: seq<nat>)
    requires Closed(g) && Within(g, todo)
    requires path == [] || (Path(g, path) && forall t <- todo :: t in g[path[|path| - 1]])
    ensures AllCycles(g, SearchedAll(g, todo, path, done).found)
    decreases Fresh(g, path, done), 1, |todo|
  {
    if todo != [] {
      assert todo[0] in todo && forall t <- todo[1..] :: t in todo;
      SearchedFindsCycles(g, todo[0], path, done);
      var first := Searched(g, todo[0], path, done);
      assert Fresh(g, path, first.done) <= Fresh(g, path, done);
      SearchedAllFindsCycles(g, todo[1..], path, first.done);
    }
  }

  /** When nothing is reported, the finishing order is topological. */
  lemma {:induction false} SearchedTopological(g: Graph, v: nat, path: seq<nat>, done: seq<nat>)
    requires Closed(g) && v in g && Topological(g, done)
    requires Searched(g, v, path, done).found == []
    ensures Topological(g, Searched(g, v, path, done).done) && v in Searched(g, v, path, done).done
    decreases Fresh(g, path, done), 0, 0
  {
    if v !in done {
      assert v in Fresh(g, path, done) && v !in Fresh(g, path + [v], done);
      SearchedAllTopological(g, g[v], path + [v], done);
      TopologicalSnoc(g, SearchedAll(g, g[v], path + [v], done).done, v);
    }
  }

  lemma {:induction false} SearchedAllTopological(g: Graph, todo: seq<nat>, path: seq<nat>, done: seq<nat>)
    requires Closed(g) && Within(g, todo) && Topological(g, done)
    requires SearchedAll(g, todo, path, done).found == []
    ensures Topological(g, SearchedAll(g, todo, path, done).done)
    ensures forall t <- todo :: t in SearchedAll(g, todo, path, done).done
    decreases Fresh(g, path, done), 1, |todo|
  {
    if todo != [] {
      var first := Searched(g, todo[0], path, done);
      assert Fresh(g, path, first.done) <= Fresh(g, path, done);
      SearchedTopological(g, todo[0], path, done);
      SearchedAllTopological(g, todo[1..], path, first.done);
      assert todo == [todo[0]] + todo[1..];
    }
  }

  /** A path goes down a topological order at every step. */
  lemma {:induction false} PathDescends(g: Graph, order: seq<nat>, p: seq<nat>)
    requires Topological(g, order) && Path(g, p) && p[0] in order
    ensures p[|p| - 1] in order
    ensures Index(order, p[|p| - 1]) <= Index(order, p[0])
    ensures |p| > 1 ==> Index(order, p[|p| - 1]) < Index(order, p[0])
    decreases |p|
  {
    if |p| > 1 {
      var i := Index(order, p[0]);
      assert p[0 + 1] in g[p[0]] && Follows(g, order, i);
      assert p[1] in order[..i];
      var j :| 0 <= j < i && order[j] == p[1];
      PathDescends(g, order, p[1..]);
    }
  }

  /** The check reports nothing exactly when no entry waits, through others, on
      itself; and what it reports are such cycles. */
  lemma {:induction false} CyclesDecidesAcyclic(g: Graph, roots: seq<nat>)
    requires Closed(g) && Within(g, roots) && forall v <- g :: v in roots
    ensures SearchedAll(g, roots, [], []).found == [] <==> Acyclic(g)
    ensures AllCycles(g, SearchedAll(g, roots, [], []).found)
  {
    SearchedAllFindsCycles(g, roots, [], []);
    var r := SearchedAll(g, roots, [], []);
    if r.found == [] {
      SearchedAllTopological(g, roots, [], []);
      forall p ensures !Cycle(g, p) {
        if Path(g, p) && |p| >= 2 {
          assert p[0] in g;
          PathDescends(g, r.done, p);
        }
      }
    } else {
      assert Cycle(g, r.found[0]);
    }
  }

  function IndexRank(order: seq<nat>): nat -> nat {
    (v: nat) => if v in order then Index(order, v) else 0
  }

  lemma {:induction false} IndexRanks(g: Graph, order: seq<nat>)
    requires Topological(g, order) && forall v <- g :: v in order
    ensures Ranked(g, IndexRank(order))
  {
    forall v, d | v in g && d in g[v] ensures IndexRank(order)(d) < IndexRank(order)(v) {
      var i := Index(order, v);
      assert Follows(g, order, i);
      assert d in order[..i];
      var j :| 0 <= j < i && order[j] == d;
    }
  }

  /** An acyclic graph has a ranking: the place in the finishing order. */
  lemma {:induction false} AcyclicIsRanked(g: Graph) returns (rank: nat -> nat)
    requires Closed(g) && Acyclic(g)
    ensures Ranked(g, rank)
  {
    var roots := Listed(g.Keys);
    assert Within(g, roots) by {
      assert forall i | 0 <= i < |roots| :: roots[i] in roots;
    }
    CyclesDecidesAcyclic(g, roots);
    SearchedAllTopological(g, roots, [], []);
    var order := SearchedAll(g, roots, [], []).done;
    assert forall v <- g :: v in roots;
    IndexRanks(g, order);
    rank := IndexRank(order);
  }

  /** On an acyclic graph the walk puts each entry after its prerequisites. */
  lemma {:induction false} WalkIsTopological(g: Graph, roots: seq<nat>)
    requires Closed(g) && Within(g, roots) && Acyclic(g)
    ensures Topological(g, VisitedAll(g, roots, Walk({}, [])).order)
  {
    var rank := AcyclicIsRanked(g);
    VisitedAllTopological(g, roots, Walk({}, []), rank, MaxRank(roots, rank) + 1);
  }
}
