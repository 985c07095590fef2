/**
 * The declarations of the statements under the roots, numbered in preorder:
 * the lambdas of a statement's own expressions, then the statement's own
 * declaration, then the ones its bodies make.
 */
module ArenaDeclare {
  import opened Prelude
  import opened Arena

  datatype Kind = Function | Structure | Interface | Binding | CompileTime

  /** Declarations in order, each over the ones nested in it. */
  datatype Decls =
    | NoDecls
    | Decl(kind: Kind, name: string, stmt: nat, children: Decls, rest: Decls)

  function Append(a: Decls, b: Decls): Decls {
    match a
    case NoDecls => b
    case Decl(_, _, _, _, rest) => a.(rest := Append(rest, b))
  }

  // ---------------------------------------------------- what is declared

  /** What a statement declares itself, if anything; whether the declarations of
      its bodies are that declaration's children or its block's. */
  datatype Own = Nothing | Declares(kind: Kind, name: string, bodies: bool)

  function OwnDeclaration(shape: StmtShape): Own {
    match shape
    case Def(name, _, _, _) => Declares(Function, name, true)
    case Struct(name, _, _) => Declares(Structure, name, true)
    case Trait(name, _) => Declares(Interface, name, false)
    case VarDecl(name, _) => Declares(Binding, name, false)
    case RefDecl(name) => Declares(Binding, name, false)
    case For(binder, _, _) => Declares(Binding, binder, true)
    case Try(_, Some((Some(name), _)), _, _) => Declares(Binding, name, true)
    case Comptime(name, _) => Declares(CompileTime, name, false)
    case _ => Nothing
  }

  /** Where the expressions whose lambdas are a statement's own begin, past a
      declaration's applications or a constant's constraints; past everything
      for a signature. */
  function OwnExpressions(shape: StmtShape): nat {
    match shape
    case VarDecl(_, applications) => applications
    case Comptime(_, wheres) => wheres
    case Def(_, _, _, _) => StmtArity(shape)
    case Struct(_, _, _) => StmtArity(shape)
    case Trait(_, _) => StmtArity(shape)
    case _ => 0
  }

  ghost predicate DenotesAll(n: Nodes, refs: seq<Ref>, trees: seq<Tree>) {
    |refs| == |trees| && forall k | 0 <= k < |trees| :: Denotes(n, refs[k], trees[k])
  }

  /** The declarations of the statements among `refs`, in order. */
  ghost function Forest(n: Nodes, refs: seq<Ref>, trees: seq<Tree>): Decls
    requires DenotesAll(n, refs, trees)
    decreases trees, 0, 0
  {
    if refs == [] then NoDecls
    else Append(StmtForest(n, refs[0], trees[0]), Forest(n, refs[1..], trees[1..]))
  }

  ghost function StmtForest(n: Nodes, r: Ref, tree: Tree): Decls
    requires Denotes(n, r, tree)
    decreases tree, 1, 0
  {
    if r.E? then NoDecls
    else Append(LambdasFrom(n, r, tree, OwnExpressions(tree.stmt)), OwnForest(n, r, tree))
  }

  /** The statement's own declaration, or its bodies' when it makes none. */
  ghost function OwnForest(n: Nodes, r: Ref, tree: Tree): Decls
    requires Denotes(n, r, tree) && r.S?
    decreases tree, 0, 0
  {
    var bodies := Forest(n, RefsAt(n, r), tree.kids);
    match OwnDeclaration(tree.stmt)
    case Nothing => bodies
    case Declares(kind, name, nested) =>
      Decl(kind, name, r.id, if nested then bodies else NoDecls, NoDecls)
  }

  /** The functions of the lambdas under the expressions of `r` from position
      `from` on; a lambda in a lambda is its definition's body's. */
  ghost function LambdasFrom(n: Nodes, r: Ref, tree: Tree, from: nat): Decls
    requires Denotes(n, r, tree)
    decreases tree, 0, |tree.kids| - from
  {
    if from >= |tree.kids| then NoDecls
    else Append(LambdasAt(n, RefsAt(n, r)[from], tree.kids[from]), LambdasFrom(n, r, tree, from + 1))
  }

  ghost function LambdasAt(n: Nodes, kid: Ref, sub: Tree): Decls
    requires Denotes(n, kid, sub)
    decreases sub, 1, 0
  {
    if kid.S? then NoDecls
    else if sub.shape.Lambda? then LambdaForest(n, RefsAt(n, kid)[0], sub.kids[0])
    else LambdasFrom(n, kid, sub, 0)
  }

  /** The function a lambda's hidden definition declares. */
  ghost function LambdaForest(n: Nodes, def: Ref, tree: Tree): Decls
    requires Denotes(n, def, tree)
    decreases tree, 0, 0
  {
    if def.S? && tree.stmt.Def?
    then Decl(Function, tree.stmt.name, def.id, Forest(n, RefsAt(n, def), tree.kids), NoDecls)
    else NoDecls
  }

  // ------------------------------------------------------------ numbering

  datatype Record = Record(id: nat, kind: Kind, name: string, stmt: nat, children: seq<nat>)

  function Size(f: Decls): nat {
    match f
    case NoDecls => 0
    case Decl(_, _, _, children, rest) => 1 + Size(children) + Size(rest)
  }

  /** The numbers of the declarations of `f` when its first is `lo`. */
  function RootIds(f: Decls, lo: nat): seq<nat> {
    match f
    case NoDecls => []
    case Decl(_, _, _, children, rest) => [lo] + RootIds(rest, lo + 1 + Size(children))
  }

  /** The records from `lo` on are those of `f`, in preorder. */
  predicate Laid(f: Decls, records: seq<Record>, lo: nat) {
    match f
    case NoDecls => true
    case Decl(kind, name, stmt, children, rest) =>
      && lo < |records|
      && records[lo] == Record(lo, kind, name, stmt, RootIds(children, lo + 1))
      && Laid(children, records, lo + 1)
      && Laid(rest, records, lo + 1 + Size(children))
  }

  lemma {:induction false} AppendIds(a: Decls, b: Decls, lo: nat)
    ensures Size(Append(a, b)) == Size(a) + Size(b)
    ensures RootIds(Append(a, b), lo) == RootIds(a, lo) + RootIds(b, lo + Size(a))
    decreases a
  {
    if a.Decl? {
      AppendIds(a.rest, b, lo + 1 + Size(a.children));
    }
  }

  lemma {:induction false} AppendLaid(a: Decls, b: Decls, records: seq<Record>, lo: nat)
    requires Laid(a, records, lo) && Laid(b, records, lo + Size(a))
    ensures Laid(Append(a, b), records, lo)
    decreases a
  {
    if a.Decl? {
      AppendLaid(a.rest, b, records, lo + 1 + Size(a.children));
    }
  }

  lemma {:induction false} LaidFrame(f: Decls, before: seq<Record>, after: seq<Record>, lo: nat)
    requires Laid(f, before, lo)
    requires |before| <= |after| && forall i | lo <= i < lo + Size(f) && i < |before| :: before[i] == after[i]
    ensures Laid(f, after, lo)
    decreases f
  {
    if f.Decl? {
      LaidFrame(f.children, before, after, lo + 1);
      LaidFrame(f.rest, before, after, lo + 1 + Size(f.children));
    }
  }

  lemma {:induction false} DeclaredLaid(kind: Kind, name: string, stmt: nat, under: Decls, before: seq<Record>,
                                        mid: seq<Record>, children: seq<nat>)
    requires before <= mid && |mid| == |before| + 1 + Size(under)
    requires mid[|before|] == Record(|before|, kind, name, stmt, [])
    requires Laid(under, mid, |before| + 1) && children == RootIds(under, |before| + 1)
    ensures var after := mid[|before| := mid[|before|].(children := children)];
            before <= after && Laid(Decl(kind, name, stmt, under, NoDecls), after, |before|)
  {
    var after := mid[|before| := mid[|before|].(children := children)];
    LaidFrame(under, mid, after, |before| + 1);
  }

  // ------------------------------------------------- the table is a forest

  /** Where the descendants of record `i` end, read off the table: after those
      of its last child. */
  function DescendantsEnd(records: seq<Record>, i: nat): nat
    requires i < |records|
    decreases |records| - i
  {
    var children := records[i].children;
    if children != [] && i < children[|children| - 1] < |records|
    then DescendantsEnd(records, children[|children| - 1])
    else i + 1
  }

  /** The records `ids` with their descendants fill `[lo, hi)`, in order. */
  predicate Tiles(ids: seq<nat>, lo: nat, hi: nat, records: seq<Record>)
    decreases |ids|
  {
    if ids == [] then lo == hi
    else ids[0] == lo < |records| && Tiles(ids[1..], DescendantsEnd(records, lo), hi, records)
  }

  /** Record `i`'s identity is its position, and its descendants are exactly the
      records right after it, child after child. */
  predicate Nested(records: seq<Record>, i: nat)
    requires i < |records|
  {
    records[i].id == i && Tiles(records[i].children, i + 1, DescendantsEnd(records, i), records)
  }

  lemma {:induction false} LaidFits(f: Decls, records: seq<Record>, lo: nat)
    requires Laid(f, records, lo) && f.Decl?
    ensures lo + Size(f) <= |records|
    decreases f
  {
    if f.children.Decl? { LaidFits(f.children, records, lo + 1); }
    if f.rest.Decl? { LaidFits(f.rest, records, lo + 1 + Size(f.children)); }
  }

  /** The descendants of the last declaration of `f` end where `f` does. */
  lemma {:induction false} LastEnds(f: Decls, records: seq<Record>, lo: nat)
    requires Laid(f, records, lo) && f.Decl?
    ensures var ids := RootIds(f, lo);
            && ids != [] && lo <= ids[|ids| - 1] < lo + Size(f) <= |records|
            && DescendantsEnd(records, ids[|ids| - 1]) == lo + Size(f)
    decreases f
  {
    LaidFits(f, records, lo);
    if f.rest.Decl? {
      LastEnds(f.rest, records, lo + 1 + Size(f.children));
    } else if f.children.Decl? {
      LastEnds(f.children, records, lo + 1);
    }
  }

  lemma {:induction false} FirstEnds(f: Decls, records: seq<Record>, lo: nat)
    requires Laid(f, records, lo) && f.Decl?
    ensures lo < |records| && DescendantsEnd(records, lo) == lo + 1 + Size(f.children)
  {
    if f.children.Decl? {
      LastEnds(f.children, records, lo + 1);
    }
  }

  lemma {:induction false} LaidTiles(f: Decls, records: seq<Record>, lo: nat)
    requires Laid(f, records, lo) && lo + Size(f) <= |records|
    ensures Tiles(RootIds(f, lo), lo, lo + Size(f), records)
    decreases f
  {
    if f.Decl? {
      var next := lo + 1 + Size(f.children);
      FirstEnds(f, records, lo);
      LaidTiles(f.rest, records, next);
      assert RootIds(f, lo)[1..] == RootIds(f.rest, next);
    }
  }

  lemma {:induction false} LaidNests(f: Decls, records: seq<Record>, lo: nat, i: nat)
    requires Laid(f, records, lo) && lo <= i < lo + Size(f) <= |records|
    ensures Nested(records, i)
    decreases f
  {
    var next := lo + 1 + Size(f.children);
    if i == lo {
      FirstEnds(f, records, lo);
      LaidTiles(f.children, records, lo + 1);
    } else if i < next {
      LaidNests(f.children, records, lo + 1, i);
    } else {
      LaidNests(f.rest, records, next, i);
    }
  }

  /** How often the child lists in `[lo, hi)` name `x`. */
  function Mentions(records: seq<Record>, lo: nat, hi: nat, x: nat): nat
    requires lo <= hi <= |records|
    decreases hi - lo
  {
    if lo == hi then 0 else Count(records[lo].children, x) + Mentions(records, lo + 1, hi, x)
  }

  lemma {:induction false} MentionsSplit(records: seq<Record>, lo: nat, mid: nat, hi: nat, x: nat)
    requires lo <= mid <= hi <= |records|
    ensures Mentions(records, lo, hi, x) == Mentions(records, lo, mid, x) + Mentions(records, mid, hi, x)
    decreases mid - lo
  {
    if lo < mid {
      MentionsSplit(records, lo + 1, mid, hi, x);
    }
  }

  lemma {:induction false} NamedOnce(f: Decls, records: seq<Record>, lo: nat, x: nat)
    requires Laid(f, records, lo) && lo + Size(f) <= |records|
    ensures Count(RootIds(f, lo), x) + Mentions(records, lo, lo + Size(f), x)
         == if lo <= x < lo + Size(f) then 1 else 0
    decreases f
  {
    if f.Decl? {
      var next := lo + 1 + Size(f.children);
      NamedOnce(f.children, records, lo + 1, x);
      NamedOnce(f.rest, records, next, x);
      MentionsSplit(records, lo + 1, next, lo + Size(f), x);
      assert RootIds(f, lo)[1..] == RootIds(f.rest, next);
    }
  }

  /** The numbering is a preorder forest: identities are positions, each
      declaration's descendants are exactly the records right after it, child
      after child, and each declaration is named exactly once, among the roots
      or in one child list. */
  lemma {:induction false} NumberingIsPreorder(f: Decls, records: seq<Record>)
    requires Laid(f, records, 0) && |records| == Size(f)
    ensures Tiles(RootIds(f, 0), 0, |records|, records)
    ensures forall i | 0 <= i < |records| :: Nested(records, i)
    ensures forall x: nat | x < |records| :: Count(RootIds(f, 0), x) + Mentions(records, 0, |records|, x) == 1
  {
    LaidTiles(f, records, 0);
    forall i | 0 <= i < |records| ensures Nested(records, i) {
      LaidNests(f, records, 0, i);
    }
    forall x: nat | x < |records|
      ensures Count(RootIds(f, 0), x) + Mentions(records, 0, |records|, x) == 1
    {
      NamedOnce(f, records, 0, x);
    }
  }

  // ------------------------------------------------- naming the statements

  /** The statements with each declaring one named its declaration. */
  function Named(stmts: seq<StmtNode>, records: seq<Record>): (r: seq<StmtNode>)
    ensures |r| == |stmts|
    decreases |records|
  {
    if records == [] then stmts
    else
      var last := records[|records| - 1];
      var before := Named(stmts, records[..|records| - 1]);
      if last.stmt < |before| then before[last.stmt := before[last.stmt].(declaration := Some(last.id))]
      else before
  }

  // -------------------------------------------------------------- the pass

  class Declarer {
    const n: Nodes
    var records: seq<Record>

    constructor (n: Nodes)
      ensures this.n == n && records == []
    {
      this.n := n;
      records := [];
    }

    /** The pass has stored `f`, and nothing else, after `before`. */
    ghost predicate Stored(f: Decls, before: seq<Record>, ids: seq<nat>)
      reads this
    {
      && before <= records
      && |records| == |before| + Size(f)
      && Laid(f, records, |before|)
      && ids == RootIds(f, |before|)
    }

    lemma {:induction false} StoredBoth(f: Decls, g: Decls, before: seq<Record>, mid: seq<Record>, ids: seq<nat>,
                                        more: seq<nat>)
      requires before <= mid && |mid| == |before| + Size(f) && Laid(f, mid, |before|) && ids == RootIds(f, |before|)
      requires Stored(g, mid, more)
      ensures Stored(Append(f, g), before, ids + more)
    {
      LaidFrame(f, mid, records, |before|);
      AppendIds(f, g, |before|);
      AppendLaid(f, g, records, |before|);
    }

    /** The declarations the statements among `refs` make. */
    method Block(refs: seq<Ref>, ghost trees: seq<Tree>) returns (ids: seq<nat>)
      requires DenotesAll(n, refs, trees)
      modifies this
      ensures Stored(Forest(n, refs, trees), old(records), ids)
      decreases trees, 0, 0
    {
      ids := [];
      if refs != [] {
        ids := Statement(refs[0], trees[0]);
        ghost var mid := records;
        var rest := Block(refs[1..], trees[1..]);
        StoredBoth(StmtForest(n, refs[0], trees[0]), Forest(n, refs[1..], trees[1..]), old(records), mid, ids, rest);
        ids := ids + rest;
      }
    }

    method Statement(r: Ref, ghost tree: Tree) returns (ids: seq<nat>)
      requires Denotes(n, r, tree)
      modifies this
      ensures Stored(StmtForest(n, r, tree), old(records), ids)
      decreases tree, 2, 0
    {
      ids := [];
      if r.S? {
        var node := n.stmts[r.id];
        ids := Lambdas(r, tree, OwnExpressions(node.shape));
        ghost var mid := records;
        var more;
        match OwnDeclaration(node.shape) {
          case Nothing =>
            more := Block(node.refs, tree.kids);
          case Declares(kind, name, nested) =>
            var id := Declaration(kind, name, r, nested, tree);
            more := [id];
        }
        StoredBoth(LambdasFrom(n, r, tree, OwnExpressions(tree.stmt)), OwnForest(n, r, tree), old(records), mid, ids,
                   more);
        ids := ids + more;
      }
    }

    /** Declare `r`'s own statement, then what its bodies declare when they are
        its children. */
    method Declaration(kind: Kind, name: string, r: Ref, nested: bool, ghost tree: Tree) returns (id: nat)
      requires Denotes(n, r, tree)
      modifies this
      ensures Stored(Decl(kind, name, r.id, if nested then Forest(n, RefsAt(n, r), tree.kids) else NoDecls, NoDecls),
                     old(records), [id])
      decreases tree, 1, 0
    {
      id := |records|;
      records := records + [Record(id, kind, name, r.id, [])];
      var children: seq<nat> := [];
      if nested {
        children := Block(RefsAt(n, r), tree.kids);
      }
      ghost var under := if nested then Forest(n, RefsAt(n, r), tree.kids) else NoDecls;
      assert records[id] == Record(id, kind, name, r.id, []);
      DeclaredLaid(kind, name, r.id, under, old(records), records, children);
      records := records[id := records[id].(children := children)];
    }

    /** Declare the functions of the lambdas in the expressions of `r` from
        position `from` on. */
    method Lambdas(r: Ref, ghost tree: Tree, from: nat) returns (ids: seq<nat>)
      requires Denotes(n, r, tree)
      modifies this
      ensures Stored(LambdasFrom(n, r, tree, from), old(records), ids)
      decreases tree, 1, |tree.kids| - from
    {
      ids := [];
      var refs := RefsAt(n, r);
      if from < |refs| {
        ids := LambdasUnder(refs[from], tree.kids[from]);
        ghost var mid := records;
        var rest := Lambdas(r, tree, from + 1);
        StoredBoth(LambdasAt(n, refs[from], tree.kids[from]), LambdasFrom(n, r, tree, from + 1),
                   old(records), mid, ids, rest);
        ids := ids + rest;
      }
    }

    method LambdasUnder(kid: Ref, ghost sub: Tree) returns (ids: seq<nat>)
      requires Denotes(n, kid, sub)
      modifies this
      ensures Stored(LambdasAt(n, kid, sub), old(records), ids)
      decreases sub, 2, 0
    {
      ids := [];
      if kid.E? {
        if n.exprs[kid.id].shape.Lambda? {
          var def := n.exprs[kid.id].refs[0];
          if def.S? && n.stmts[def.id].shape.Def? {
            var id := Declaration(Function, n.stmts[def.id].shape.name, def, true, sub.kids[0]);
            ids := [id];
          }
        } else {
          ids := Lambdas(kid, sub, 0);
        }
      }
    }
  }

  method NameStatements(source: seq<StmtNode>, records: seq<Record>) returns (stmts: seq<StmtNode>)
    ensures stmts == Named(source, records)
  {
    stmts := source;
    for i := 0 to |records|
      invariant stmts == Named(source, records[..i])
    {
      assert records[..i + 1][..i] == records[..i];
      var record := records[i];
      if record.stmt < |stmts| {
        stmts := stmts[record.stmt := stmts[record.stmt].(declaration := Some(record.id))];
      }
    }
    assert records[..|records|] == records;
  }

  /** Declare the statements under the roots, then the trait members, and name
      each declaring statement its declaration. */
  method Declare(n: Nodes, roots: seq<Ref>, members: seq<Ref>, ghost trees: seq<Tree>, ghost memberTrees: seq<Tree>)
    returns (records: seq<Record>, stmts: seq<StmtNode>)
    requires DenotesAll(n, roots, trees) && DenotesAll(n, members, memberTrees)
    ensures var f := Append(Forest(n, roots, trees), Forest(n, members, memberTrees));
            Laid(f, records, 0) && |records| == Size(f)
    ensures stmts == Named(n.stmts, records)
  {
    var declarer := new Declarer(n);
    var ids := declarer.Block(roots, trees);
    ghost var mid := declarer.records;
    var more := declarer.Block(members, memberTrees);
    declarer.StoredBoth(Forest(n, roots, trees), Forest(n, members, memberTrees), [], mid, ids, more);
    records := declarer.records;
    stmts := NameStatements(n.stmts, records);
  }
}
