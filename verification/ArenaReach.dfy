/**
 * Which statements the declaration pass comes to, and that each declaring one
 * among them gets exactly one record.
 */
module ArenaReach {
  import opened Prelude
  import opened Arena
  import ArenaWalk
  import opened ArenaDeclare

  /** The statements that declare something. */
  predicate Declaring(shape: StmtShape) {
    || shape.Def? || shape.Struct? || shape.Trait? || shape.VarDecl? || shape.RefDecl? || shape.Comptime? || shape.For?
    || (shape.Try? && shape.except.Some? && shape.except.value.0.Some?)
  }

  /** The statements whose bodies the pass does not go into. */
  predicate LeavesBodiesOut(shape: StmtShape) {
    shape.Trait? || shape.VarDecl? || shape.RefDecl? || shape.Comptime?
  }

  /** Whether operand `p`, an expression, is one whose lambdas the statement makes:
      not in a signature, a declaration's applications or a constant's constraints. */
  predicate OwnExpression(shape: StmtShape, p: nat) {
    && !shape.Def? && !shape.Struct? && !shape.Trait?
    && (shape.VarDecl? ==> shape.applications <= p)
    && (shape.Comptime? ==> shape.wheres <= p)
  }

  /** Whether the pass goes from node `r` to its operand `p`: to a statement's
      bodies unless they are left out, to its own expressions, to an expression's
      operands, and to a lambda's definition. */
  predicate Enters(n: Nodes, r: Ref, p: nat)
    requires Holds(n, r) && p < |RefsAt(n, r)|
  {
    var kid := RefsAt(n, r)[p];
    match r
    case S(i) => if kid.E? then OwnExpression(n.stmts[i].shape, p) else !LeavesBodiesOut(n.stmts[i].shape)
    case E(i) =>
      if n.exprs[i].shape.Lambda? then kid.S? && Holds(n, kid) && n.stmts[kid.id].shape.Def? else kid.E?
  }

  predicate DeclaringAt(n: Nodes, r: Ref, x: nat) {
    r == S(x) && Holds(n, r) && Declaring(n.stmts[x].shape)
  }

  /** How often the pass comes to `x`, a declaring statement, from node `r`. */
  ghost function Arrivals(n: Nodes, r: Ref, tree: Tree, x: nat): nat
    requires Denotes(n, r, tree)
    decreases tree, 1, 0
  {
    (if DeclaringAt(n, r, x) then 1 else 0) + ArrivalsFrom(n, r, tree, x, 0)
  }

  ghost function ArrivalsFrom(n: Nodes, r: Ref, tree: Tree, x: nat, from: nat): nat
    requires Denotes(n, r, tree)
    decreases tree, 0, |tree.kids| - from
  {
    if from >= |tree.kids| then 0
    else
      (if Enters(n, r, from) then Arrivals(n, RefsAt(n, r)[from], tree.kids[from], x) else 0)
      + ArrivalsFrom(n, r, tree, x, from + 1)
  }

  /** How often it comes to `x` from the statements among `refs`. */
  ghost function AllArrivals(n: Nodes, refs: seq<Ref>, trees: seq<Tree>, x: nat): nat
    requires DenotesAll(n, refs, trees)
    decreases |refs|
  {
    if refs == [] then 0
    else
      (if refs[0].S? then Arrivals(n, refs[0], trees[0], x) else 0) + AllArrivals(n, refs[1..], trees[1..], x)
  }

  /** How often `f` declares statement `x`. */
  function Names(f: Decls, x: nat): nat {
    match f
    case NoDecls => 0
    case Decl(_, _, stmt, children, rest) => (if stmt == x then 1 else 0) + Names(children, x) + Names(rest, x)
  }

  lemma {:induction false} NamesAppend(a: Decls, b: Decls, x: nat)
    ensures Names(Append(a, b), x) == Names(a, x) + Names(b, x)
    decreases a
  {
    if a.Decl? {
      NamesAppend(a.rest, b, x);
    }
  }

  // ---------------------------------------- what is declared is what is reached

  /** How often it comes to `x` through the expressions of `r` from position
      `from` on. */
  ghost function ThroughExpressions(n: Nodes, r: Ref, tree: Tree, x: nat, from: nat): nat
    requires Denotes(n, r, tree)
    decreases |tree.kids| - from
  {
    if from >= |tree.kids| then 0
    else
      (if RefsAt(n, r)[from].E? then Arrivals(n, RefsAt(n, r)[from], tree.kids[from], x) else 0)
      + ThroughExpressions(n, r, tree, x, from + 1)
  }

  lemma {:induction false} ExpressionArrivals(n: Nodes, r: Ref, tree: Tree, x: nat, from: nat)
    requires Denotes(n, r, tree) && r.E? && !tree.shape.Lambda?
    ensures ArrivalsFrom(n, r, tree, x, from) == ThroughExpressions(n, r, tree, x, from)
    decreases |tree.kids| - from
  {
    if from < |tree.kids| {
      ExpressionArrivals(n, r, tree, x, from + 1);
    }
  }

  /** How often it comes to `x` through the bodies of `r` from position `from` on. */
  ghost function ThroughBodies(n: Nodes, r: Ref, tree: Tree, x: nat, from: nat): nat
    requires Denotes(n, r, tree)
    decreases |tree.kids| - from
  {
    if from >= |tree.kids| then 0
    else
      (if RefsAt(n, r)[from].S? then Arrivals(n, RefsAt(n, r)[from], tree.kids[from], x) else 0)
      + ThroughBodies(n, r, tree, x, from + 1)
  }

  lemma {:induction false} BodyArrivals(n: Nodes, r: Ref, tree: Tree, x: nat, from: nat)
    requires Denotes(n, r, tree) && from <= |tree.kids|
    ensures DenotesAll(n, RefsAt(n, r)[from..], tree.kids[from..])
    ensures AllArrivals(n, RefsAt(n, r)[from..], tree.kids[from..], x) == ThroughBodies(n, r, tree, x, from)
    decreases |tree.kids| - from
  {
    if from < |tree.kids| {
      BodyArrivals(n, r, tree, x, from + 1);
      assert RefsAt(n, r)[from..][1..] == RefsAt(n, r)[from + 1..];
      assert tree.kids[from..][1..] == tree.kids[from + 1..];
    }
  }

  /** How often it comes to `x` through the own expressions of `r` from position
      `from` on. */
  ghost function ThroughOwn(n: Nodes, r: Ref, tree: Tree, x: nat, from: nat): nat
    requires Denotes(n, r, tree) && r.S?
    decreases |tree.kids| - from
  {
    if from >= |tree.kids| then 0
    else
      (if RefsAt(n, r)[from].E? && OwnExpression(tree.stmt, from)
       then Arrivals(n, RefsAt(n, r)[from], tree.kids[from], x) else 0)
      + ThroughOwn(n, r, tree, x, from + 1)
  }

  /** From a statement the pass goes on to its bodies, unless they are left out,
      and through its own expressions. */
  lemma {:induction false} StatementArrivals(n: Nodes, r: Ref, tree: Tree, x: nat, from: nat)
    requires Denotes(n, r, tree) && r.S? && from <= |tree.kids|
    ensures ArrivalsFrom(n, r, tree, x, from)
      == (if LeavesBodiesOut(tree.stmt) then 0 else ThroughBodies(n, r, tree, x, from))
         + ThroughOwn(n, r, tree, x, from)
    decreases |tree.kids| - from
  {
    if from < |tree.kids| {
      StatementArrivals(n, r, tree, x, from + 1);
    }
  }

  /** A statement's own expressions are the ones from some position on. */
  lemma {:induction false} OwnArrivals(n: Nodes, r: Ref, tree: Tree, x: nat, from: nat)
    requires Denotes(n, r, tree) && r.S? && from <= |tree.kids|
    ensures var first := OwnExpressions(tree.stmt);
      ThroughOwn(n, r, tree, x, from) == ThroughExpressions(n, r, tree, x, if from < first then first else from)
    decreases |tree.kids| - from
  {
    if from < |tree.kids| {
      OwnArrivals(n, r, tree, x, from + 1);
    }
  }

  lemma {:induction false} OwnNames(n: Nodes, r: Ref, tree: Tree, x: nat)
    requires Denotes(n, r, tree) && r.S?
    requires Names(Forest(n, RefsAt(n, r), tree.kids), x) == ThroughBodies(n, r, tree, x, 0)
    ensures Names(OwnForest(n, r, tree), x)
      == (if DeclaringAt(n, r, x) then 1 else 0)
         + (if LeavesBodiesOut(tree.stmt) then 0 else ThroughBodies(n, r, tree, x, 0))
  {
  }

  lemma {:induction false} StatementNames(n: Nodes, r: Ref, tree: Tree, x: nat)
    requires Denotes(n, r, tree) && r.S?
    ensures Names(StmtForest(n, r, tree), x) == Arrivals(n, r, tree, x)
    decreases tree, 3, 0
  {
    var first := OwnExpressions(tree.stmt);
    NamesAppend(LambdasFrom(n, r, tree, first), OwnForest(n, r, tree), x);
    LambdaNames(n, r, tree, x, first);
    ForestNames(n, RefsAt(n, r), tree.kids, x);
    BodyArrivals(n, r, tree, x, 0);
    assert RefsAt(n, r)[0..] == RefsAt(n, r) && tree.kids[0..] == tree.kids;
    OwnNames(n, r, tree, x);
    StatementArrivals(n, r, tree, x, 0);
    OwnArrivals(n, r, tree, x, 0);
  }

  lemma {:induction false} ForestNames(n: Nodes, refs: seq<Ref>, trees: seq<Tree>, x: nat)
    requires DenotesAll(n, refs, trees)
    ensures Names(Forest(n, refs, trees), x) == AllArrivals(n, refs, trees, x)
    decreases trees, 2, |refs|
  {
    if refs != [] {
      NamesAppend(StmtForest(n, refs[0], trees[0]), Forest(n, refs[1..], trees[1..]), x);
      if refs[0].S? {
        StatementNames(n, refs[0], trees[0], x);
      }
      ForestNames(n, refs[1..], trees[1..], x);
    }
  }

  lemma {:induction false} LambdaNames(n: Nodes, r: Ref, tree: Tree, x: nat, from: nat)
    requires Denotes(n, r, tree)
    ensures Names(LambdasFrom(n, r, tree, from), x) == ThroughExpressions(n, r, tree, x, from)
    decreases tree, 1, |tree.kids| - from
  {
    if from < |tree.kids| {
      var kid, sub := RefsAt(n, r)[from], tree.kids[from];
      NamesAppend(LambdasAt(n, kid, sub), LambdasFrom(n, r, tree, from + 1), x);
      if kid.E? {
        ExpressionNames(n, kid, sub, x);
      }
      LambdaNames(n, r, tree, x, from + 1);
    }
  }

  lemma {:induction false} ExpressionNames(n: Nodes, kid: Ref, sub: Tree, x: nat)
    requires Denotes(n, kid, sub) && kid.E?
    ensures Names(LambdasAt(n, kid, sub), x) == Arrivals(n, kid, sub, x)
    decreases sub, 3, 0
  {
    if sub.shape.Lambda? {
      var def, tree := RefsAt(n, kid)[0], sub.kids[0];
      assert ArrivalsFrom(n, kid, sub, x, 1) == 0;
      if def.S? && tree.stmt.Def? {
        StatementNames(n, def, tree, x);
        assert LambdasFrom(n, def, tree, OwnExpressions(tree.stmt)) == NoDecls;
      }
    } else {
      LambdaNames(n, kid, sub, x, 0);
      ExpressionArrivals(n, kid, sub, x, 0);
    }
  }

  // --------------------------------------------------- no more than the copies

  /** The pass comes to a statement no more often than an extraction copies it. */
  lemma {:induction false} ArrivalsWithinCopies(n: Nodes, r: Ref, tree: Tree, x: nat)
    requires Denotes(n, r, tree)
    ensures Arrivals(n, r, tree, x) <= Count(ArenaWalk.Copies(n, r, tree), S(x))
    decreases tree, 1, 0
  {
    ArrivalsFromWithinCopies(n, r, tree, x, 0);
    assert RefsAt(n, r)[0..] == RefsAt(n, r) && tree.kids[0..] == tree.kids;
    CountConcat(ArenaWalk.CopiesAll(n, RefsAt(n, r), tree.kids), [r], S(x));
  }

  lemma {:induction false} ArrivalsFromWithinCopies(n: Nodes, r: Ref, tree: Tree, x: nat, from: nat)
    requires Denotes(n, r, tree) && from <= |tree.kids|
    ensures ArrivalsFrom(n, r, tree, x, from)
         <= Count(ArenaWalk.CopiesAll(n, RefsAt(n, r)[from..], tree.kids[from..]), S(x))
    decreases tree, 0, |tree.kids| - from
  {
    if from < |tree.kids| {
      var refs, kids := RefsAt(n, r), tree.kids;
      ArrivalsWithinCopies(n, refs[from], kids[from], x);
      ArrivalsFromWithinCopies(n, r, tree, x, from + 1);
      assert refs[from..][1..] == refs[from + 1..] && kids[from..][1..] == kids[from + 1..];
      CountConcat(ArenaWalk.Copies(n, refs[from], kids[from]),
                  ArenaWalk.CopiesAll(n, refs[from + 1..], kids[from + 1..]), S(x));
    }
  }

  lemma {:induction false} AllArrivalsWithinCopies(n: Nodes, refs: seq<Ref>, trees: seq<Tree>, x: nat)
    requires DenotesAll(n, refs, trees)
    ensures AllArrivals(n, refs, trees, x) <= Count(ArenaWalk.CopiesAll(n, refs, trees), S(x))
    decreases |refs|
  {
    if refs != [] {
      ArrivalsWithinCopies(n, refs[0], trees[0], x);
      AllArrivalsWithinCopies(n, refs[1..], trees[1..], x);
      CountConcat(ArenaWalk.Copies(n, refs[0], trees[0]), ArenaWalk.CopiesAll(n, refs[1..], trees[1..]), S(x));
    }
  }

  // ------------------------------------------------------------- the records

  /** How many of the records in `[lo, hi)` are statement `x`'s. */
  function RecordsOf(records: seq<Record>, lo: nat, hi: nat, x: nat): nat
    requires lo <= hi <= |records|
    decreases hi - lo
  {
    if lo == hi then 0 else (if records[lo].stmt == x then 1 else 0) + RecordsOf(records, lo + 1, hi, x)
  }

  lemma {:induction false} RecordsSplit(records: seq<Record>, lo: nat, mid: nat, hi: nat, x: nat)
    requires lo <= mid <= hi <= |records|
    ensures RecordsOf(records, lo, hi, x) == RecordsOf(records, lo, mid, x) + RecordsOf(records, mid, hi, x)
    decreases mid - lo
  {
    if lo < mid {
      RecordsSplit(records, lo + 1, mid, hi, x);
    }
  }

  lemma {:induction false} RecordsAreNames(f: Decls, records: seq<Record>, lo: nat, x: nat)
    requires Laid(f, records, lo) && lo + Size(f) <= |records|
    ensures RecordsOf(records, lo, lo + Size(f), x) == Names(f, x)
    decreases f
  {
    if f.Decl? {
      var next := lo + 1 + Size(f.children);
      RecordsAreNames(f.children, records, lo + 1, x);
      RecordsAreNames(f.rest, records, next, x);
      RecordsSplit(records, lo + 1, next, lo + Size(f), x);
    }
  }

  lemma {:induction false} RecordFound(records: seq<Record>, lo: nat, x: nat) returns (i: nat)
    requires lo <= |records| && RecordsOf(records, lo, |records|, x) > 0
    ensures lo <= i < |records| && records[i].stmt == x
    decreases |records| - lo
  {
    if records[lo].stmt == x {
      i := lo;
    } else {
      i := RecordFound(records, lo + 1, x);
    }
  }

  lemma {:induction false} RecordCounts(records: seq<Record>, lo: nat, i: nat, x: nat)
    requires lo <= i < |records| && records[i].stmt == x
    ensures RecordsOf(records, lo, |records|, x) >= 1
    ensures RecordsOf(records, lo, |records|, x) == 1 ==>
      forall j | lo <= j < |records| && records[j].stmt == x :: j == i
    decreases |records| - lo
  {
    if lo < i {
      RecordCounts(records, lo + 1, i, x);
    } else {
      forall j | lo < j < |records| && records[j].stmt == x ensures RecordsOf(records, lo, |records|, x) >= 2 {
        RecordCounts(records, lo + 1, j, x);
      }
    }
  }

  // ------------------------------------------------------------- the pass

  /** How often the pass comes to `x` from the roots and the trait members. */
  ghost function Reached(n: Nodes, roots: seq<Ref>, trees: seq<Tree>, members: seq<Ref>, memberTrees: seq<Tree>,
                         x: nat): nat
    requires DenotesAll(n, roots, trees) && DenotesAll(n, members, memberTrees)
  {
    AllArrivals(n, roots, trees, x) + AllArrivals(n, members, memberTrees, x)
  }

  /** Each declaring statement has as many records as the pass comes to it. */
  lemma {:induction false} RecordsAreArrivals(n: Nodes, roots: seq<Ref>, trees: seq<Tree>, members: seq<Ref>,
                                              memberTrees: seq<Tree>, records: seq<Record>, x: nat)
    requires DenotesAll(n, roots, trees) && DenotesAll(n, members, memberTrees)
    requires var f := Append(Forest(n, roots, trees), Forest(n, members, memberTrees));
      Laid(f, records, 0) && |records| == Size(f)
    ensures RecordsOf(records, 0, |records|, x) == Reached(n, roots, trees, members, memberTrees, x)
  {
    var f, g := Forest(n, roots, trees), Forest(n, members, memberTrees);
    NamesAppend(f, g, x);
    ForestNames(n, roots, trees, x);
    ForestNames(n, members, memberTrees, x);
    RecordsAreNames(Append(f, g), records, 0, x);
  }

  /** When roots and members have no statement in common and none twice, the
      pass comes to none twice. */
  lemma {:induction false} NoneReachedTwice(n: Nodes, roots: seq<Ref>, trees: seq<Tree>, members: seq<Ref>,
                                            memberTrees: seq<Tree>, x: nat)
    requires DenotesAll(n, roots, trees) && DenotesAll(n, members, memberTrees)
    requires Count(ArenaWalk.CopiesAll(n, roots, trees), S(x))
           + Count(ArenaWalk.CopiesAll(n, members, memberTrees), S(x)) <= 1
    ensures Reached(n, roots, trees, members, memberTrees, x) <= 1
  {
    AllArrivalsWithinCopies(n, roots, trees, x);
    AllArrivalsWithinCopies(n, members, memberTrees, x);
  }

  /** The last of the records in `[0, n)` that are statement `x`'s. */
  ghost predicate LastOf(records: seq<Record>, n: nat, x: nat, i: nat)
    requires n <= |records|
  {
    i < n && records[i].stmt == x && forall j | i < j < n :: records[j].stmt != x
  }

  /** Naming changes nothing but which declaration a statement names. */
  lemma {:induction false} NamedKeeps(stmts: seq<StmtNode>, records: seq<Record>, x: nat)
    requires x < |stmts|
    ensures ArenaDeclare.Named(stmts, records)[x]
         == stmts[x].(declaration := ArenaDeclare.Named(stmts, records)[x].declaration)
    decreases |records|
  {
    if records != [] {
      NamedKeeps(stmts, records[..|records| - 1], x);
    }
  }

  /** A statement with a record names the last of them; another is left as it was. */
  lemma {:induction false} NamedByLast(stmts: seq<StmtNode>, records: seq<Record>, x: nat, i: nat)
    requires x < |stmts|
    ensures LastOf(records, |records|, x, i) ==>
      ArenaDeclare.Named(stmts, records)[x] == stmts[x].(declaration := Some(records[i].id))
    ensures (forall j | 0 <= j < |records| :: records[j].stmt != x) ==>
      ArenaDeclare.Named(stmts, records)[x] == stmts[x]
    decreases |records|
  {
    if records != [] {
      var init := records[..|records| - 1];
      NamedByLast(stmts, init, x, i);
      NamedKeeps(stmts, init, x);
      assert i < |init| ==> init[i] == records[i];
    }
  }

  lemma {:induction false} LastFound(records: seq<Record>, n: nat, x: nat) returns (i: nat)
    requires n <= |records| && exists j | 0 <= j < n :: records[j].stmt == x
    ensures LastOf(records, n, x, i)
    decreases n
  {
    if records[n - 1].stmt == x {
      i := n - 1;
    } else {
      i := LastFound(records, n - 1, x);
    }
  }

  /** Each declaring statement the pass comes to names the last of its records,
      and no other statement changes. */
  lemma {:induction false} ReachedNamesItsLast(n: Nodes, roots: seq<Ref>, trees: seq<Tree>, members: seq<Ref>,
                                               memberTrees: seq<Tree>, records: seq<Record>, x: nat)
    returns (i: nat)
    requires DenotesAll(n, roots, trees) && DenotesAll(n, members, memberTrees)
    requires var f := Append(Forest(n, roots, trees), Forest(n, members, memberTrees));
      Laid(f, records, 0) && |records| == Size(f)
    requires x < |n.stmts|
    ensures Reached(n, roots, trees, members, memberTrees, x) > 0 ==>
      && LastOf(records, |records|, x, i)
      && ArenaDeclare.Named(n.stmts, records)[x] == n.stmts[x].(declaration := Some(i))
    ensures Reached(n, roots, trees, members, memberTrees, x) == 0 ==>
      ArenaDeclare.Named(n.stmts, records)[x] == n.stmts[x]
  {
    i := 0;
    RecordsAreArrivals(n, roots, trees, members, memberTrees, records, x);
    if Reached(n, roots, trees, members, memberTrees, x) > 0 {
      var first := RecordFound(records, 0, x);
      i := LastFound(records, |records|, x);
      LaidNests(Append(Forest(n, roots, trees), Forest(n, members, memberTrees)), records, 0, i);
      assert records[i].id == i;
    } else {
      forall j | 0 <= j < |records| ensures records[j].stmt != x {
        if records[j].stmt == x {
          RecordCounts(records, 0, j, x);
        }
      }
    }
    NamedByLast(n.stmts, records, x, i);
  }

  /** A declaring statement the pass comes to once has exactly one record and
      names it. */
  lemma {:induction false} EachReachedNamesItsOwn(n: Nodes, roots: seq<Ref>, trees: seq<Tree>, members: seq<Ref>,
                                                  memberTrees: seq<Tree>, records: seq<Record>, x: nat)
    returns (i: nat)
    requires DenotesAll(n, roots, trees) && DenotesAll(n, members, memberTrees)
    requires var f := Append(Forest(n, roots, trees), Forest(n, members, memberTrees));
      Laid(f, records, 0) && |records| == Size(f)
    requires x < |n.stmts| && Reached(n, roots, trees, members, memberTrees, x) == 1
    ensures i < |records| && records[i].stmt == x
    ensures forall j | 0 <= j < |records| && records[j].stmt == x :: j == i
    ensures ArenaDeclare.Named(n.stmts, records)[x] == n.stmts[x].(declaration := Some(i))
  {
    i := ReachedNamesItsLast(n, roots, trees, members, memberTrees, records, x);
    RecordsAreArrivals(n, roots, trees, members, memberTrees, records, x);
    RecordCounts(records, 0, i, x);
  }

  /** Of a statement the roots and members copy at most once between them: when the
      pass comes to it and it declares, it has exactly one record and names it;
      else it is left as it was. */
  lemma {:induction false} CopiedOnceNamesItsOwn(n: Nodes, roots: seq<Ref>, trees: seq<Tree>, members: seq<Ref>,
                                                 memberTrees: seq<Tree>, records: seq<Record>, x: nat)
    returns (i: nat)
    requires DenotesAll(n, roots, trees) && DenotesAll(n, members, memberTrees)
    requires var f := Append(Forest(n, roots, trees), Forest(n, members, memberTrees));
      Laid(f, records, 0) && |records| == Size(f)
    requires x < |n.stmts|
    requires Count(ArenaWalk.CopiesAll(n, roots, trees), S(x))
           + Count(ArenaWalk.CopiesAll(n, members, memberTrees), S(x)) <= 1
    ensures Reached(n, roots, trees, members, memberTrees, x) > 0 ==>
      && i < |records| && records[i].stmt == x
      && (forall j | 0 <= j < |records| && records[j].stmt == x :: j == i)
      && ArenaDeclare.Named(n.stmts, records)[x] == n.stmts[x].(declaration := Some(i))
    ensures Reached(n, roots, trees, members, memberTrees, x) == 0 ==>
      ArenaDeclare.Named(n.stmts, records)[x] == n.stmts[x]
  {
    NoneReachedTwice(n, roots, trees, members, memberTrees, x);
    if Reached(n, roots, trees, members, memberTrees, x) > 0 {
      i := EachReachedNamesItsOwn(n, roots, trees, members, memberTrees, records, x);
    } else {
      i := ReachedNamesItsLast(n, roots, trees, members, memberTrees, records, x);
    }
  }
}
