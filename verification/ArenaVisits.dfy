/**
 * The source preorder walk under any visitor: a node comes before all under it,
 * and the visitor's answer says which of its operands are gone into.
 */
module ArenaVisits {
  import opened Prelude
  import opened Arena
  import opened ArenaWalk

  /** Whether the walk goes from a node its visitor answered `result` at to its
      operand `kid`: never on `Skip`, only to expressions on `SkipBodies`. */
  predicate GoneInto(result: WalkResult, kid: Ref) {
    (result == SkipBodies && kid.E?) || result == Advance
  }

  /** How often the walk visits `x` under each operand of `r` it goes into. */
  ghost function Visited(n: Nodes, r: Ref, tree: Tree, answer: Ref -> WalkResult, x: Ref): nat -> nat
    requires Denotes(n, r, tree)
  {
    (p: nat) =>
      if p < |tree.kids| && Denotes(n, RefsAt(n, r)[p], tree.kids[p]) && GoneInto(answer(r), RefsAt(n, r)[p])
      then Count(Visits(n, RefsAt(n, r)[p], tree.kids[p], answer), x) else 0
  }

  lemma {:induction false} UnderAddsUp(n: Nodes, r: Ref, tree: Tree, order: Order, answer: Ref -> WalkResult, x: Ref)
    requires Denotes(n, r, tree) && answer(r) != Skip
    ensures Count(VisitsUnder(n, r, tree, order, answer(r) == Advance, answer), x)
         == Total(Visited(n, r, tree, answer, x), order)
    decreases order
  {
    if order.At? {
      UnderAddsUp(n, r, tree, order.rest, answer, x);
      CountConcat(VisitsAt(n, r, tree, order.p, answer(r) == Advance, answer),
                  VisitsUnder(n, r, tree, order.rest, answer(r) == Advance, answer), x);
    }
  }

  lemma {:induction false} NothingTotals(w: nat -> nat, a: nat, b: nat)
    requires a <= b && forall p: nat :: w(p) == 0
    ensures Total(w, Range(a, b)) == 0
    decreases b - a
  {
    if a < b {
      NothingTotals(w, a + 1, b);
    }
  }

  /** The walk visits a node first, then under each operand the answer lets it go
      into what it visits from there, once; and nothing else. */
  lemma {:induction false} VisitsFollowAnswers(n: Nodes, r: Ref, tree: Tree, answer: Ref -> WalkResult, x: Ref)
    requires Denotes(n, r, tree)
    ensures var visits := Visits(n, r, tree, answer);
      && visits != [] && visits[0] == r
      && Count(visits, x) == (if x == r then 1 else 0) + Total(Visited(n, r, tree, answer, x), Range(0, |tree.kids|))
  {
    var w := Visited(n, r, tree, answer, x);
    if answer(r) == Skip {
      NothingTotals(w, 0, |tree.kids|);
    } else {
      var under := VisitsUnder(n, r, tree, WalkOrder(n, r, tree), answer(r) == Advance, answer);
      UnderAddsUp(n, r, tree, WalkOrder(n, r, tree), answer, x);
      CountConcat([r], under, x);
      if r.S? {
        WalkTakesEachOnce(w, tree.stmt, RefsAt(n, r));
      }
    }
  }

  // ------------------------------------------------------ subtree by subtree

  predicate Takes(order: Order, p: nat) {
    order.At? && (order.p == p || Takes(order.rest, p))
  }

  function OnlyAt(p: nat): nat -> nat {
    (q: nat) => if q == p then 1 else 0
  }

  lemma {:induction false} TakesWhenTotal(order: Order, p: nat)
    ensures Takes(order, p) <==> Total(OnlyAt(p), order) > 0
    decreases order
  {
    if order.At? {
      TakesWhenTotal(order.rest, p);
    }
  }

  lemma {:induction false} RangeTakes(a: nat, b: nat, p: nat)
    requires a <= p < b
    ensures Takes(Range(a, b), p)
    decreases b - a
  {
    if a < p {
      RangeTakes(a + 1, b, p);
    }
  }

  lemma {:induction false} WalkTakes(n: Nodes, r: Ref, tree: Tree, p: nat)
    requires Denotes(n, r, tree) && p < |tree.kids|
    ensures Takes(WalkOrder(n, r, tree), p)
  {
    RangeTakes(0, |tree.kids|, p);
    TakesWhenTotal(Range(0, |tree.kids|), p);
    if r.S? {
      WalkTakesEachOnce(OnlyAt(p), tree.stmt, RefsAt(n, r));
      TakesWhenTotal(WalkOrder(n, r, tree), p);
    }
  }

  /** `part` stands in `all` from `a` on. */
  predicate StandsAt(all: seq<Ref>, part: seq<Ref>, a: nat) {
    a + |part| <= |all| && all[a..a + |part|] == part
  }

  lemma {:induction false} StandsFirst(part: seq<Ref>, rest: seq<Ref>)
    ensures StandsAt(part + rest, part, 0)
  {
  }

  lemma {:induction false} StandsLater(first: seq<Ref>, all: seq<Ref>, part: seq<Ref>, a: nat)
    requires StandsAt(all, part, a)
    ensures StandsAt(first + all, part, |first| + a)
  {
    assert (first + all)[|first| + a..|first| + a + |part|] == all[a..a + |part|];
  }

  lemma {:induction false} SegmentUnder(n: Nodes, r: Ref, tree: Tree, order: Order, bodies: bool,
                                        answer: Ref -> WalkResult, p: nat) returns (a: nat)
    requires Denotes(n, r, tree) && Takes(order, p)
    ensures StandsAt(VisitsUnder(n, r, tree, order, bodies, answer), VisitsAt(n, r, tree, p, bodies, answer), a)
    decreases order
  {
    var first := VisitsAt(n, r, tree, order.p, bodies, answer);
    var later := VisitsUnder(n, r, tree, order.rest, bodies, answer);
    if order.p == p {
      a := 0;
      StandsFirst(first, later);
    } else {
      var b := SegmentUnder(n, r, tree, order.rest, bodies, answer, p);
      a := |first| + b;
      StandsLater(first, later, VisitsAt(n, r, tree, p, bodies, answer), b);
    }
  }

  /** What is visited under an operand gone into stands together, after the node:
      so a node comes before all under it, and no two subtrees mix. */
  lemma {:induction false} SubtreesStandTogether(n: Nodes, r: Ref, tree: Tree, answer: Ref -> WalkResult, p: nat)
    returns (a: nat)
    requires Denotes(n, r, tree) && p < |tree.kids| && GoneInto(answer(r), RefsAt(n, r)[p])
    ensures 0 < a
    ensures StandsAt(Visits(n, r, tree, answer), Visits(n, RefsAt(n, r)[p], tree.kids[p], answer), a)
  {
    var order, bodies := WalkOrder(n, r, tree), answer(r) == Advance;
    WalkTakes(n, r, tree, p);
    var b := SegmentUnder(n, r, tree, order, bodies, answer, p);
    StandsLater([r], VisitsUnder(n, r, tree, order, bodies, answer), VisitsAt(n, r, tree, p, bodies, answer), b);
    a := 1 + b;
  }

  // --------------------------------------------------------- source preorder

  /** `p` is taken before `q`. */
  predicate Precedes(order: Order, p: nat, q: nat) {
    order.At? && ((order.p == p && Takes(order.rest, q)) || Precedes(order.rest, p, q))
  }

  lemma {:induction false} AppendTakes(x: Order, y: Order, p: nat)
    ensures Takes(Append(x, y), p) <==> Takes(x, p) || Takes(y, p)
    decreases x
  {
    if x.At? {
      AppendTakes(x.rest, y, p);
    }
  }

  lemma {:induction false} AppendPrecedes(x: Order, y: Order, p: nat, q: nat)
    requires (Takes(x, p) && Takes(y, q)) || Precedes(x, p, q) || Precedes(y, p, q)
    ensures Precedes(Append(x, y), p, q)
    decreases x
  {
    if x.At? {
      AppendTakes(x.rest, y, q);
      if (Takes(x.rest, p) && Takes(y, q)) || Precedes(x.rest, p, q) || Precedes(y, p, q) {
        AppendPrecedes(x.rest, y, p, q);
      }
    }
  }

  lemma {:induction false} RangePrecedes(a: nat, b: nat, p: nat, q: nat)
    requires a <= p < q < b
    ensures Precedes(Range(a, b), p, q)
    decreases b - a
  {
    if a < p {
      RangePrecedes(a + 1, b, p, q);
    } else {
      RangeTakes(a + 1, b, q);
    }
  }

  lemma {:induction false} PositionsTake(refs: seq<Ref>, a: nat, b: nat, p: nat)
    requires a <= p < b <= |refs|
    ensures Takes(Positions(refs, a, b, refs[p].E?), p)
    decreases b - a
  {
    if a < p {
      PositionsTake(refs, a + 1, b, p);
    }
  }

  lemma {:induction false} PositionsPrecede(refs: seq<Ref>, a: nat, b: nat, p: nat, q: nat)
    requires a <= p < q < b <= |refs| && refs[p].E? == refs[q].E?
    ensures Precedes(Positions(refs, a, b, refs[p].E?), p, q)
    decreases b - a
  {
    if a < p {
      PositionsPrecede(refs, a + 1, b, p, q);
    } else {
      PositionsTake(refs, a + 1, b, q);
    }
  }

  /** An expression comes before a body, and else the earlier operand first. */
  predicate Sooner(refs: seq<Ref>, p: nat, q: nat)
    requires p < |refs| && q < |refs|
  {
    (refs[p].E? && refs[q].S?) || (refs[p].E? == refs[q].E? && p < q)
  }

  lemma {:induction false} SplitPrecedes(refs: seq<Ref>, a: nat, b: nat, p: nat, q: nat)
    requires a <= p < b <= |refs| && a <= q < b && Sooner(refs, p, q)
    ensures Precedes(Split(refs, a, b), p, q)
  {
    PositionsTake(refs, a, b, p);
    PositionsTake(refs, a, b, q);
    if refs[p].E? == refs[q].E? {
      PositionsPrecede(refs, a, b, p, q);
    }
    AppendPrecedes(Positions(refs, a, b, true), Positions(refs, a, b, false), p, q);
  }

  /** A branch's body starts at `c`, or ends there. */
  predicate Cuts(branches: seq<BranchShape>, at: nat, c: nat) {
    branches != [] &&
    var body := at + ConditionArity(branches[0].condition);
    var next := body + branches[0].body;
    c == body || c == next || Cuts(branches[1..], next, c)
  }

  lemma {:induction false} BranchesTake(branches: seq<BranchShape>, refs: seq<Ref>, at: nat, p: nat)
    requires at <= p < at + BranchesArity(branches) <= |refs|
    ensures Takes(BranchesOrder(branches, refs, at), p)
  {
    var end := at + BranchesArity(branches);
    RangeTakes(at, end, p);
    TakesWhenTotal(Range(at, end), p);
    TotalBranches(OnlyAt(p), branches, refs, at);
    TakesWhenTotal(BranchesOrder(branches, refs, at), p);
  }

  lemma {:induction false} SplitTakes(refs: seq<Ref>, a: nat, b: nat, p: nat)
    requires a <= p < b <= |refs|
    ensures Takes(Split(refs, a, b), p)
  {
    PositionsTake(refs, a, b, p);
    AppendTakes(Positions(refs, a, b, true), Positions(refs, a, b, false), p);
  }

  lemma {:induction false} CutsWithin(branches: seq<BranchShape>, at: nat, c: nat)
    requires Cuts(branches, at, c)
    ensures at <= c <= at + BranchesArity(branches)
    decreases |branches|
  {
    var next := at + ConditionArity(branches[0].condition) + branches[0].body;
    if Cuts(branches[1..], next, c) {
      CutsWithin(branches[1..], next, c);
    }
  }

  lemma {:induction false} BranchesPrecede(branches: seq<BranchShape>, refs: seq<Ref>, at: nat, c: nat, p: nat, q: nat)
    requires at <= p < c <= q < at + BranchesArity(branches) <= |refs| && Cuts(branches, at, c)
    ensures Precedes(BranchesOrder(branches, refs, at), p, q)
    decreases |branches|
  {
    var body := at + ConditionArity(branches[0].condition);
    var next := body + branches[0].body;
    var test, run, later := Split(refs, at, body), Range(body, next), BranchesOrder(branches[1..], refs, next);
    if Cuts(branches[1..], next, c) {
      CutsWithin(branches[1..], next, c);
    }
    if p < body {
      SplitTakes(refs, at, body, p);
    } else if p < next {
      RangeTakes(body, next, p);
    }
    if q >= next {
      BranchesTake(branches[1..], refs, next, q);
    } else if q >= body {
      RangeTakes(body, next, q);
    }
    AppendTakes(run, later, q);
    if p >= next {
      BranchesPrecede(branches[1..], refs, next, c, p, q);
      AppendPrecedes(run, later, p, q);
    } else if p >= body {
      AppendPrecedes(run, later, p, q);
    }
    AppendPrecedes(test, Append(run, later), p, q);
  }

  /** An `if` takes each condition before its own branch, and the branch before
      what follows it. */
  lemma {:induction false} ConditionBeforeBranch(branches: seq<BranchShape>, orelse: nat, refs: seq<Ref>, c: nat,
                                                 p: nat, q: nat)
    requires |refs| == StmtArity(If(branches, orelse)) && p < c <= q < |refs| && Cuts(branches, 0, c)
    ensures Precedes(StmtOrder(If(branches, orelse), refs), p, q)
  {
    var last := BranchesArity(branches);
    CutsWithin(branches, 0, c);
    BranchesTake(branches, refs, 0, p);
    if q < last {
      BranchesPrecede(branches, refs, 0, c, p, q);
    } else {
      RangeTakes(last, last + orelse, q);
    }
    AppendPrecedes(BranchesOrder(branches, refs, 0), Range(last, last + orelse), p, q);
  }

  /** Any other statement but a `match` takes its expressions before its bodies,
      each in order. */
  lemma {:induction false} ExpressionsBeforeBodies(shape: StmtShape, refs: seq<Ref>, p: nat, q: nat)
    requires |refs| == StmtArity(shape) && !shape.If? && !shape.Match?
    requires p < |refs| && q < |refs| && Sooner(refs, p, q)
    ensures Precedes(StmtOrder(shape, refs), p, q)
  {
    SplitPrecedes(refs, 0, |refs|, p, q);
  }
}
