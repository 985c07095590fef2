/**
 * What the declaration pass records: under each declaration the declarations
 * directly nested in its bodies, in source order, each of its statement's kind
 * and name.
 */
module ArenaNesting {
  import opened Prelude
  import opened Arena
  import opened ArenaDeclare
  import opened ArenaReach

  /** What a declaring statement's declaration is of, and what it is called. */
  predicate Announces(shape: StmtShape, kind: Kind, name: string) {
    match shape
    case Def(called, _, _, _) => kind == Function && name == called
    case Struct(called, _, _) => kind == Structure && name == called
    case Trait(called, _) => kind == Interface && name == called
    case VarDecl(called, _) => kind == Binding && name == called
    case RefDecl(called) => kind == Binding && name == called
    case For(binder, _, _) => kind == Binding && name == binder
    case Try(_, except, _, _) => kind == Binding && except.Some? && except.value.0 == Some(name)
    case Comptime(called, _) => kind == CompileTime && name == called
    case _ => false
  }

  /** The definitions of the lambdas in the expressions of `r` from position `from`
      on; of a statement, in its own ones. */
  ghost function DefinedFrom(n: Nodes, r: Ref, tree: Tree, from: nat): seq<nat>
    requires Denotes(n, r, tree)
    decreases tree, 0, |tree.kids| - from
  {
    if from >= |tree.kids| then []
    else
      (if tree.StmtTree? && !OwnExpression(tree.stmt, from) then []
       else DefinedAt(n, RefsAt(n, r)[from], tree.kids[from]))
      + DefinedFrom(n, r, tree, from + 1)
  }

  ghost function DefinedAt(n: Nodes, kid: Ref, sub: Tree): seq<nat>
    requires Denotes(n, kid, sub)
    decreases sub, 1, 0
  {
    if kid.S? then []
    else if !sub.shape.Lambda? then DefinedFrom(n, kid, sub, 0)
    else if sub.kids[0].StmtTree? && sub.kids[0].stmt.Def? then [RefsAt(n, kid)[0].id]
    else []
  }

  /** The statements directly nested among `refs` that declare something, in source
      order: those the lambdas of a statement's own expressions define come before
      it, and those in the bodies of one that declares nothing in its place. */
  ghost function Direct(n: Nodes, refs: seq<Ref>, trees: seq<Tree>): seq<nat>
    requires DenotesAll(n, refs, trees)
    decreases trees, 0, 0
  {
    if refs == [] then []
    else DirectOf(n, refs[0], trees[0]) + Direct(n, refs[1..], trees[1..])
  }

  ghost function DirectOf(n: Nodes, r: Ref, tree: Tree): seq<nat>
    requires Denotes(n, r, tree)
    decreases tree, 1, 0
  {
    if r.E? then []
    else
      DefinedFrom(n, r, tree, 0) +
      if Declaring(tree.stmt) then [r.id] else Direct(n, RefsAt(n, r), tree.kids)
  }

  /** What a declaration of `r`'s statement has directly under it. */
  ghost function Beneath(n: Nodes, r: Ref, tree: Tree): seq<nat>
    requires Denotes(n, r, tree)
  {
    if r.E? || LeavesBodiesOut(tree.stmt) then [] else Direct(n, RefsAt(n, r), tree.kids)
  }

  // ---------------------------------------------------------- the forest

  /** The statements of the declarations at the top of `f`. */
  function Heads(f: Decls): seq<nat> {
    match f
    case NoDecls => []
    case Decl(_, _, stmt, _, rest) => [stmt] + Heads(rest)
  }

  lemma {:induction false} HeadsAppend(a: Decls, b: Decls)
    ensures Heads(Append(a, b)) == Heads(a) + Heads(b)
    decreases a
  {
    if a.Decl? {
      HeadsAppend(a.rest, b);
    }
  }

  /** A declaration of `stmt` is of its kind and name, over what `under` lists. */
  ghost predicate Declared(n: Nodes, kind: Kind, name: string, stmt: nat, under: seq<nat>) {
    && Holds(n, S(stmt))
    && Announces(n.stmts[stmt].shape, kind, name)
    && exists tree :: Denotes(n, S(stmt), tree) && under == Beneath(n, S(stmt), tree)
  }

  ghost predicate Formed(n: Nodes, f: Decls)
    decreases f
  {
    match f
    case NoDecls => true
    case Decl(kind, name, stmt, children, rest) =>
      Declared(n, kind, name, stmt, Heads(children)) && Formed(n, children) && Formed(n, rest)
  }

  lemma {:induction false} FormedAppend(n: Nodes, a: Decls, b: Decls)
    requires Formed(n, a) && Formed(n, b)
    ensures Formed(n, Append(a, b))
    ensures Heads(Append(a, b)) == Heads(a) + Heads(b)
    decreases a
  {
    HeadsAppend(a, b);
    if a.Decl? {
      FormedAppend(n, a.rest, b);
    }
  }

  lemma {:induction false} OwnFormed(n: Nodes, r: Ref, tree: Tree)
    requires Denotes(n, r, tree) && r.S?
    requires var bodies := Forest(n, RefsAt(n, r), tree.kids);
      Heads(bodies) == Direct(n, RefsAt(n, r), tree.kids) && Formed(n, bodies)
    ensures Heads(OwnForest(n, r, tree))
         == if Declaring(tree.stmt) then [r.id] else Direct(n, RefsAt(n, r), tree.kids)
    ensures Formed(n, OwnForest(n, r, tree))
  {
    if Declaring(tree.stmt) {
      var own := OwnForest(n, r, tree);
      assert Heads(own.children) == Beneath(n, r, tree);
      assert r == S(own.stmt);
      assert Declared(n, own.kind, own.name, own.stmt, Heads(own.children));
    }
  }

  /** A statement's own expressions are those from some position on. */
  lemma {:induction false} OwnFrom(n: Nodes, r: Ref, tree: Tree, from: nat)
    requires Denotes(n, r, tree) && r.S? && from <= |tree.kids|
    ensures var first := OwnExpressions(tree.stmt);
      DefinedFrom(n, r, tree, from) == DefinedFrom(n, r, tree, if from < first then first else from)
    decreases |tree.kids| - from
  {
    if from < |tree.kids| {
      OwnFrom(n, r, tree, from + 1);
    }
  }

  lemma {:induction false} LambdasSplit(n: Nodes, r: Ref, tree: Tree, from: nat)
    requires Denotes(n, r, tree) && (r.S? ==> OwnExpressions(tree.stmt) <= from) && from < |tree.kids|
    ensures DefinedFrom(n, r, tree, from)
         == DefinedAt(n, RefsAt(n, r)[from], tree.kids[from]) + DefinedFrom(n, r, tree, from + 1)
  {
  }

  lemma {:induction false} ForestFormed(n: Nodes, refs: seq<Ref>, trees: seq<Tree>)
    requires DenotesAll(n, refs, trees)
    ensures Heads(Forest(n, refs, trees)) == Direct(n, refs, trees) && Formed(n, Forest(n, refs, trees))
    decreases trees, 2, 0
  {
    if refs != [] {
      var f, g := StmtForest(n, refs[0], trees[0]), Forest(n, refs[1..], trees[1..]);
      StatementFormed(n, refs[0], trees[0]);
      ForestFormed(n, refs[1..], trees[1..]);
      FormedAppend(n, f, g);
    }
  }

  lemma {:induction false} StatementFormed(n: Nodes, r: Ref, tree: Tree)
    requires Denotes(n, r, tree)
    ensures Heads(StmtForest(n, r, tree)) == DirectOf(n, r, tree) && Formed(n, StmtForest(n, r, tree))
    decreases tree, 3, 0
  {
    if r.S? {
      var f, g := LambdasFrom(n, r, tree, OwnExpressions(tree.stmt)), OwnForest(n, r, tree);
      LambdasFormed(n, r, tree, OwnExpressions(tree.stmt));
      OwnFrom(n, r, tree, 0);
      ForestFormed(n, RefsAt(n, r), tree.kids);
      OwnFormed(n, r, tree);
      FormedAppend(n, f, g);
    }
  }

  lemma {:induction false} LambdasFormed(n: Nodes, r: Ref, tree: Tree, from: nat)
    requires Denotes(n, r, tree) && (r.S? ==> OwnExpressions(tree.stmt) <= from)
    ensures Heads(LambdasFrom(n, r, tree, from)) == DefinedFrom(n, r, tree, from)
    ensures Formed(n, LambdasFrom(n, r, tree, from))
    decreases tree, 1, |tree.kids| - from
  {
    if from < |tree.kids| {
      LambdaFormed(n, RefsAt(n, r)[from], tree.kids[from]);
      LambdasFormed(n, r, tree, from + 1);
      FormedAppend(n, LambdasAt(n, RefsAt(n, r)[from], tree.kids[from]), LambdasFrom(n, r, tree, from + 1));
      LambdasSplit(n, r, tree, from);
    }
  }

  lemma {:induction false} LambdaFormed(n: Nodes, kid: Ref, sub: Tree)
    requires Denotes(n, kid, sub)
    ensures Heads(LambdasAt(n, kid, sub)) == DefinedAt(n, kid, sub) && Formed(n, LambdasAt(n, kid, sub))
    decreases sub, 3, 0
  {
    if kid.E? {
      if sub.shape.Lambda? {
        var def, tree := RefsAt(n, kid)[0], sub.kids[0];
        if def.S? && tree.stmt.Def? {
          ForestFormed(n, RefsAt(n, def), tree.kids);
          OwnFormed(n, def, tree);
          assert LambdaForest(n, def, tree) == OwnForest(n, def, tree);
        }
      } else {
        LambdasFormed(n, kid, sub, 0);
      }
    }
  }

  // --------------------------------------------------------- the records

  /** `ids` are the identities of records of these statements, in order. */
  ghost predicate Stand(records: seq<Record>, ids: seq<nat>, stmts: seq<nat>) {
    |ids| == |stmts| && forall k | 0 <= k < |ids| :: ids[k] < |records| && records[ids[k]].stmt == stmts[k]
  }

  lemma {:induction false} RootsStand(f: Decls, records: seq<Record>, lo: nat)
    requires Laid(f, records, lo)
    ensures Stand(records, RootIds(f, lo), Heads(f))
    decreases f
  {
    if f.Decl? {
      RootsStand(f.rest, records, lo + 1 + Size(f.children));
    }
  }

  /** A record is of its statement's kind and name, and its children are the
      declarations directly nested in that statement's bodies, in order. */
  ghost predicate Recorded(n: Nodes, records: seq<Record>, i: nat)
    requires i < |records|
  {
    var r := S(records[i].stmt);
    && Holds(n, r)
    && Announces(n.stmts[r.id].shape, records[i].kind, records[i].name)
    && exists tree :: Denotes(n, r, tree) && Stand(records, records[i].children, Beneath(n, r, tree))
  }

  lemma {:induction false} LaidRecorded(n: Nodes, f: Decls, records: seq<Record>, lo: nat, i: nat)
    requires Laid(f, records, lo) && Formed(n, f) && lo <= i < lo + Size(f) <= |records|
    ensures Recorded(n, records, i)
    decreases f
  {
    var next := lo + 1 + Size(f.children);
    if i == lo {
      RootsStand(f.children, records, lo + 1);
      var tree :| Denotes(n, S(f.stmt), tree) && Heads(f.children) == Beneath(n, S(f.stmt), tree);
      assert Stand(records, records[i].children, Beneath(n, S(records[i].stmt), tree));
    } else if i < next {
      LaidRecorded(n, f.children, records, lo + 1, i);
    } else {
      LaidRecorded(n, f.rest, records, next, i);
    }
  }

  /** Every record's children are the declarations directly nested in its
      statement's bodies, and the top ones are those of the roots, then of the
      trait members. */
  lemma {:induction false} ChildrenAreDirect(n: Nodes, roots: seq<Ref>, trees: seq<Tree>, members: seq<Ref>,
                                             memberTrees: seq<Tree>, records: seq<Record>)
    requires DenotesAll(n, roots, trees) && DenotesAll(n, members, memberTrees)
    requires var f := Append(Forest(n, roots, trees), Forest(n, members, memberTrees));
      Laid(f, records, 0) && |records| == Size(f)
    ensures forall i | 0 <= i < |records| :: Recorded(n, records, i)
    ensures exists tops ::
      && Stand(records, tops, Direct(n, roots, trees) + Direct(n, members, memberTrees))
      && forall x: nat | x < |records| :: Count(tops, x) + Mentions(records, 0, |records|, x) == 1
  {
    var f, g := Forest(n, roots, trees), Forest(n, members, memberTrees);
    var both := Append(f, g);
    ForestFormed(n, roots, trees);
    ForestFormed(n, members, memberTrees);
    FormedAppend(n, f, g);
    forall i | 0 <= i < |records| ensures Recorded(n, records, i) {
      LaidRecorded(n, both, records, 0, i);
    }
    RootsStand(both, records, 0);
    NumberingIsPreorder(both, records);
    assert Stand(records, RootIds(both, 0), Direct(n, roots, trees) + Direct(n, members, memberTrees));
  }
}
