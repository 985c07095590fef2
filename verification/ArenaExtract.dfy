/**
 * Extracting one lowering unit: the subtree at a statement is copied out in
 * build order, each node renumbered by its position, with the declarations the
 * copied statements make, renumbered in order.
 */
module ArenaExtract {
  import opened Prelude
  import opened Arena
  import opened ArenaWalk

  // ------------------------------------------------- renumbered declarations

  lemma Prepended(x: nat, s: seq<nat>)
    requires Increasing(s) && forall y <- s :: x < y
    ensures Increasing([x] + s)
  {
    forall i, j | 0 <= i < j < |s| + 1 ensures ([x] + s)[i] < ([x] + s)[j] {
      assert s[j - 1] in s;
    }
  }

  /** `s` with `x` inserted in order, unless it is there. */
  function Inserted(s: seq<nat>, x: nat): (r: seq<nat>)
    requires Increasing(s)
    ensures Increasing(r)
    ensures forall y :: y in r <==> y in s || y == x
  {
    if s == [] || x < s[0] then [x] + s
    else if x == s[0] then s
    else
      assert s == [s[0]] + s[1..];
      var rest := Inserted(s[1..], x);
      assert forall y <- s[1..] :: s[0] < y;
      Prepended(s[0], rest);
      [s[0]] + rest
  }

  /** The declarations the statements make, in order and once each. */
  function Declared(stmts: seq<StmtNode>): (r: seq<nat>)
    ensures Increasing(r)
    ensures forall d :: d in r <==> exists s <- stmts :: s.declaration == Some(d)
  {
    if stmts == [] then []
    else
      var rest, last := Declared(stmts[..|stmts| - 1]), stmts[|stmts| - 1];
      assert stmts == stmts[..|stmts| - 1] + [last];
      match last.declaration
      case None => rest
      case Some(d) => Inserted(rest, d)
  }

  function Renumber(declared: seq<nat>, d: Option<nat>): Option<nat> {
    match d
    case None => None
    case Some(id) => Position(declared, id)
  }

  /** Each of `children` that is copied, renumbered. */
  function Kept(declared: seq<nat>, children: seq<nat>): seq<nat> {
    if children == [] then []
    else
      match Position(declared, children[0])
      case None => Kept(declared, children[1..])
      case Some(p) => [p] + Kept(declared, children[1..])
  }

  function Patched(declared: seq<nat>, stmts: seq<StmtNode>): seq<StmtNode> {
    seq(|stmts|, i requires 0 <= i < |stmts| =>
      stmts[i].(declaration := Renumber(declared, stmts[i].declaration)))
  }

  /** Every declaration's identity is its position, and every statement's
      declaration is in the table. */
  ghost predicate Indexed(t: Tables) {
    && (forall i | 0 <= i < |t.declarations| :: t.declarations[i].id == i)
    && (forall s <- t.nodes.stmts :: s.declaration.Some? ==> s.declaration.value < |t.declarations|)
  }

  /** The declarations `declared` of `declarations`, renumbered. */
  function Copied(declarations: seq<Declaration>, declared: seq<nat>): seq<Declaration>
    requires forall i | 0 <= i < |declared| :: declared[i] < |declarations|
  {
    seq(|declared|, i requires 0 <= i < |declared| =>
      var d := declarations[declared[i]];
      Declaration(i, d.facts, Kept(declared, d.children)))
  }

  // ------------------------------------------------------------ the unit

  ghost predicate DeclaresIn(tree: Tree, count: nat)
    decreases tree
  {
    && (tree.StmtTree? && tree.declaration.Some? ==> tree.declaration.value < count)
    && forall k <- tree.kids :: DeclaresIn(k, count)
  }

  ghost predicate AllDeclare(stmts: seq<StmtNode>, count: nat) {
    forall s <- stmts :: s.declaration.Some? ==> s.declaration.value < count
  }

  lemma {:induction false} EmitDeclares(tree: Tree, n: Nodes, count: nat)
    requires DeclaresIn(tree, count) && AllDeclare(n.stmts, count)
    ensures AllDeclare(Emit(tree, n).0.stmts, count)
    decreases tree, 1
  {
    EmitAllDeclares(tree.kids, n, count);
  }

  lemma {:induction false} EmitAllDeclares(trees: seq<Tree>, n: Nodes, count: nat)
    requires (forall k <- trees :: DeclaresIn(k, count)) && AllDeclare(n.stmts, count)
    ensures AllDeclare(EmitAll(trees, n).0.stmts, count)
    decreases trees, 0
  {
    if trees != [] {
      EmitDeclares(trees[0], n, count);
      EmitAllDeclares(trees[1..], Emit(trees[0], n).0, count);
    }
  }

  lemma {:induction false} DenotedDeclares(t: Tables, r: Ref, tree: Tree)
    requires Indexed(t) && Denotes(t.nodes, r, tree)
    ensures DeclaresIn(tree, |t.declarations|)
    decreases tree
  {
    if r.S? {
      assert t.nodes.stmts[r.id] in t.nodes.stmts;
    }
    forall k <- tree.kids ensures DeclaresIn(k, |t.declarations|) {
      var i :| 0 <= i < |tree.kids| && tree.kids[i] == k;
      DenotedDeclares(t, RefsAt(t.nodes, r)[i], k);
    }
  }

  /** The tables of the unit whose root unfolds to `tree`. */
  function Unit(tree: Tree, declarations: seq<Declaration>): Tables
    requires DeclaresIn(tree, |declarations|)
  {
    var (n, r) := Emit(tree, NO_NODES);
    var declared := Declared(n.stmts);
    EmitDeclares(tree, NO_NODES, |declarations|);
    assert forall i | 0 <= i < |declared| :: declared[i] in declared;
    Tables(n.(stmts := Patched(declared, n.stmts)), Copied(declarations, declared), [r.id])
  }

  /** `tree` with its declarations renumbered. */
  function RenumberedTree(declared: seq<nat>, tree: Tree): (r: Tree)
    ensures |r.kids| == |tree.kids|
    decreases tree
  {
    var kids := seq(|tree.kids|, i requires 0 <= i < |tree.kids| => RenumberedTree(declared, tree.kids[i]));
    match tree
    case ExprTree(shape, facts, _) => ExprTree(shape, facts, kids)
    case StmtTree(shape, facts, declaration, _) =>
      StmtTree(shape, facts, Renumber(declared, declaration), kids)
  }

  function PatchedNodes(declared: seq<nat>, n: Nodes): Nodes {
    n.(stmts := Patched(declared, n.stmts))
  }

  /** Renumbering the declarations after laying a tree out is laying the
      renumbered tree out. */
  lemma {:induction false} PatchedLayout(declared: seq<nat>, tree: Tree, n: Nodes)
    ensures var (m, r) := Emit(tree, n);
            Emit(RenumberedTree(declared, tree), PatchedNodes(declared, n)) == (PatchedNodes(declared, m), r)
    decreases tree, 1
  {
    PatchedLayouts(declared, tree.kids, RenumberedTree(declared, tree).kids, n);
    var (m, refs) := EmitAll(tree.kids, n);
    if tree.StmtTree? {
      var node := StmtNode(|m.stmts|, tree.stmt, refs, tree.facts, tree.declaration);
      assert Patched(declared, m.stmts + [node])
          == Patched(declared, m.stmts) + [node.(declaration := Renumber(declared, node.declaration))];
    }
  }

  lemma {:induction false} PatchedLayouts(declared: seq<nat>, trees: seq<Tree>, renumbered: seq<Tree>, n: Nodes)
    requires |renumbered| == |trees|
    requires forall i | 0 <= i < |trees| :: renumbered[i] == RenumberedTree(declared, trees[i])
    ensures var (m, refs) := EmitAll(trees, n);
            EmitAll(renumbered, PatchedNodes(declared, n)) == (PatchedNodes(declared, m), refs)
    decreases trees, 0
  {
    if trees != [] {
      PatchedLayout(declared, trees[0], n);
      PatchedLayouts(declared, trees[1..], renumbered[1..], Emit(trees[0], n).0);
    }
  }

  lemma {:induction false} RenumberedShape(declared: seq<nat>, tree: Tree)
    requires WellShaped(tree)
    ensures WellShaped(RenumberedTree(declared, tree))
    decreases tree
  {
    var r := RenumberedTree(declared, tree);
    forall k <- r.kids ensures WellShaped(k) {
      var i :| 0 <= i < |r.kids| && r.kids[i] == k;
      RenumberedShape(declared, tree.kids[i]);
    }
  }

  /** The unit is stored children first under positions as identities; its
      root unfolds to the source's tree with the declarations renumbered; the
      renumbering is the order-preserving one onto the copied declarations; and
      each copied declaration keeps its record, its copied children in order. */
  lemma UnitIsomorphic(tree: Tree, declarations: seq<Declaration>) returns (b: Births, declared: seq<nat>)
    requires WellShaped(tree) && tree.StmtTree? && DeclaresIn(tree, |declarations|)
    ensures var u := Unit(tree, declarations);
            && StoredInOrder(u.nodes, b)
            && |u.roots| == 1
            && Denotes(u.nodes, S(u.roots[0]), RenumberedTree(declared, tree))
            && Increasing(declared)
            && (forall d :: d in declared <==> exists s <- Emit(tree, NO_NODES).0.stmts :: s.declaration == Some(d))
            && |u.declarations| == |declared|
            && forall i | 0 <= i < |declared| ::
                 && declared[i] < |declarations|
                 && u.declarations[i] == Declaration(i, declarations[declared[i]].facts,
                                                     Kept(declared, declarations[declared[i]].children))
  {
    var n := Emit(tree, NO_NODES).0;
    declared := Declared(n.stmts);
    EmitDeclares(tree, NO_NODES, |declarations|);
    PatchedLayout(declared, tree, NO_NODES);
    assert PatchedNodes(declared, NO_NODES) == NO_NODES;
    RenumberedShape(declared, tree);
    b := EmitDenotes(RenumberedTree(declared, tree), NO_NODES, Births([], [], 0));
    forall i | 0 <= i < |declared| ensures declared[i] < |declarations| {
      assert declared[i] in declared;
    }
  }

  // ------------------------------------------------------------- canonicity

  lemma {:induction false} IncreasingIsIdentity(s: seq<nat>, n: nat)
    requires Increasing(s)
    requires forall i | 0 <= i < |s| :: s[i] < n
    requires forall x: nat | x < n :: x in s
    ensures |s| == n && forall i | 0 <= i < n :: s[i] == i
    decreases n
  {
    var first := if s == [] then 0 else s[0];
    if n > 0 {
      assert n - 1 in s;
      var init := s[..|s| - 1];
      assert s[|s| - 1] == n - 1;
      forall x: nat | x < n - 1 ensures x in init {
        assert x in s;
      }
      IncreasingIsIdentity(init, n - 1);
    }
  }

  lemma PositionInIdentity(s: seq<nat>, x: nat)
    requires (forall i | 0 <= i < |s| :: s[i] == i) && x < |s|
    ensures Position(s, x) == Some(x)
  {
    assert s[x] in s;
  }

  lemma {:induction false} KeptBelow(declared: seq<nat>, children: seq<nat>)
    ensures forall i | 0 <= i < |Kept(declared, children)| :: Kept(declared, children)[i] < |declared|
    decreases |children|
  {
    if children != [] {
      KeptBelow(declared, children[1..]);
    }
  }

  lemma {:induction false} KeptByIdentity(declared: seq<nat>, children: seq<nat>)
    requires forall i | 0 <= i < |declared| :: declared[i] == i
    requires forall i | 0 <= i < |children| :: children[i] < |declared|
    ensures Kept(declared, children) == children
    decreases |children|
  {
    if children != [] {
      PositionInIdentity(declared, children[0]);
      KeptByIdentity(declared, children[1..]);
    }
  }

  /** Every position of `declared` is some patched statement's declaration. */
  lemma PatchedDeclared(stmts: seq<StmtNode>, declared: seq<nat>, x: nat)
    requires declared == Declared(stmts) && x < |declared|
    ensures x in Declared(Patched(declared, stmts))
  {
    var patched := Patched(declared, stmts);
    assert declared[x] in declared;
    var s :| s in stmts && s.declaration == Some(declared[x]);
    var i :| 0 <= i < |stmts| && stmts[i] == s;
    var p := Position(declared, declared[x]).value;
    assert p == x;
    assert patched[i].declaration == Some(x);
    assert patched[i] in patched;
  }

  lemma UnitLayout(tree: Tree, declarations: seq<Declaration>)
    requires WellShaped(tree) && tree.StmtTree? && DeclaresIn(tree, |declarations|)
    ensures var u := Unit(tree, declarations);
            var declared := Declared(Emit(tree, NO_NODES).0.stmts);
            && Emit(RenumberedTree(declared, tree), NO_NODES) == (u.nodes, S(u.roots[0]))
            && Denotes(u.nodes, S(u.roots[0]), RenumberedTree(declared, tree))
  {
    var declared := Declared(Emit(tree, NO_NODES).0.stmts);
    PatchedLayout(declared, tree, NO_NODES);
    assert PatchedNodes(declared, NO_NODES) == NO_NODES;
    RenumberedShape(declared, tree);
    var _ := EmitDenotes(RenumberedTree(declared, tree), NO_NODES, Births([], [], 0));
  }

  lemma UnitIndexed(tree: Tree, declarations: seq<Declaration>)
    requires tree.StmtTree? && DeclaresIn(tree, |declarations|)
    ensures Indexed(Unit(tree, declarations))
  {
  }

  /** Renumbering a unit's declarations by the unit's own ones changes nothing. */
  lemma PatchedAgain(stmts: seq<StmtNode>)
    ensures var patched := Patched(Declared(stmts), stmts);
            && Patched(Declared(patched), patched) == patched
            && |Declared(patched)| == |Declared(stmts)|
            && forall i | 0 <= i < |Declared(stmts)| :: Declared(patched)[i] == i
  {
    var declared := Declared(stmts);
    var patched := Patched(declared, stmts);
    var redeclared := Declared(patched);
    forall x: nat | x < |declared| ensures x in redeclared {
      PatchedDeclared(stmts, declared, x);
    }
    forall i | 0 <= i < |redeclared| ensures redeclared[i] < |declared| {
      assert redeclared[i] in redeclared;
      var s :| s in patched && s.declaration == Some(redeclared[i]);
    }
    IncreasingIsIdentity(redeclared, |declared|);
    forall i | 0 <= i < |stmts| ensures Patched(redeclared, patched)[i] == patched[i] {
      var d := patched[i].declaration;
      if d.Some? {
        PositionInIdentity(redeclared, d.value);
      }
    }
  }

  lemma CopiedAgain(declarations: seq<Declaration>, declared: seq<nat>, redeclared: seq<nat>)
    requires forall i | 0 <= i < |declared| :: declared[i] < |declarations|
    requires |redeclared| == |declared| && forall i | 0 <= i < |declared| :: redeclared[i] == i
    ensures Copied(Copied(declarations, declared), redeclared) == Copied(declarations, declared)
  {
    var copied := Copied(declarations, declared);
    forall i | 0 <= i < |declared| ensures Copied(copied, redeclared)[i] == copied[i] {
      KeptBelow(declared, declarations[declared[i]].children);
      KeptByIdentity(redeclared, copied[i].children);
    }
  }

  /** Extracting a unit from its own root gives the same tables. */
  lemma ExtractionIsCanonical(tree: Tree, declarations: seq<Declaration>, again: Tree)
    requires WellShaped(tree) && tree.StmtTree? && DeclaresIn(tree, |declarations|)
    requires Denotes(Unit(tree, declarations).nodes, S(Unit(tree, declarations).roots[0]), again)
    ensures DeclaresIn(again, |Unit(tree, declarations).declarations|)
    ensures Unit(again, Unit(tree, declarations).declarations) == Unit(tree, declarations)
  {
    var u := Unit(tree, declarations);
    var stmts := Emit(tree, NO_NODES).0.stmts;
    var declared := Declared(stmts);
    UnitLayout(tree, declarations);
    DenotesUnique(u.nodes, S(u.roots[0]), again, RenumberedTree(declared, tree));
    UnitIndexed(tree, declarations);
    DenotedDeclares(u, S(u.roots[0]), again);
    PatchedAgain(stmts);
    EmitDeclares(tree, NO_NODES, |declarations|);
    assert forall i | 0 <= i < |declared| :: declared[i] in declared;
    CopiedAgain(declarations, declared, Declared(u.nodes.stmts));
  }

  // ----------------------------------------------------------- the extraction

  /** A unit's nodes being copied out of its program's tables. */
  class Extraction {
    const source: Nodes
    var copy: Nodes
    /** The source nodes copied so far. */
    ghost var copied: seq<Ref>

    constructor (source: Nodes)
      ensures this.source == source && copy == NO_NODES && copied == []
    {
      this.source := source;
      copy := NO_NODES;
      copied := [];
    }

    /** Copy the node `r` and everything under it, children first. */
    method Copy(r: Ref, ghost tree: Tree) returns (c: Ref)
      requires Denotes(source, r, tree)
      modifies this
      ensures (copy, c) == Emit(tree, old(copy))
      ensures copied == old(copied) + Copies(source, r, tree)
      decreases tree, 1
    {
      var refs := CopyAll(RefsAt(source, r), tree.kids);
      copied := copied + [r];
      match r {
        case E(i) =>
          c := E(|copy.exprs|);
          copy := copy.(exprs := copy.exprs + [source.exprs[i].(id := |copy.exprs|, refs := refs)]);
        case S(i) =>
          c := S(|copy.stmts|);
          copy := copy.(stmts := copy.stmts + [source.stmts[i].(id := |copy.stmts|, refs := refs)]);
      }
    }

    /** Copy each node an operation names, in the order it names them. */
    method CopyAll(operands: seq<Ref>, ghost trees: seq<Tree>) returns (refs: seq<Ref>)
      requires |operands| == |trees|
      requires forall k | 0 <= k < |trees| :: Denotes(source, operands[k], trees[k])
      modifies this
      ensures (copy, refs) == EmitAll(trees, old(copy))
      ensures copied == old(copied) + CopiesAll(source, operands, trees)
      decreases trees, 0
    {
      refs := [];
      if operands != [] {
        ghost var before := copied;
        var ref := Copy(operands[0], trees[0]);
        refs := CopyAll(operands[1..], trees[1..]);
        refs := [ref] + refs;
        Regrouped(before, Copies(source, operands[0], trees[0]), CopiesAll(source, operands[1..], trees[1..]));
      }
    }
  }

  method DeclaredBy(stmts: seq<StmtNode>) returns (declared: seq<nat>)
    ensures declared == Declared(stmts)
  {
    declared := [];
    for i := 0 to |stmts|
      invariant declared == Declared(stmts[..i])
    {
      assert stmts[..i + 1][..i] == stmts[..i];
      if stmts[i].declaration.Some? {
        declared := Inserted(declared, stmts[i].declaration.value);
      }
    }
    assert stmts[..|stmts|] == stmts;
  }

  method CopyDeclarations(declarations: seq<Declaration>, declared: seq<nat>) returns (copied: seq<Declaration>)
    requires forall i | 0 <= i < |declared| :: declared[i] < |declarations|
    ensures copied == Copied(declarations, declared)
  {
    copied := [];
    for i := 0 to |declared|
      invariant copied == Copied(declarations, declared)[..i]
    {
      var d := declarations[declared[i]];
      copied := copied + [Declaration(i, d.facts, Kept(declared, d.children))];
    }
  }

  method PatchStatements(source: seq<StmtNode>, declared: seq<nat>) returns (stmts: seq<StmtNode>)
    ensures stmts == Patched(declared, source)
  {
    stmts := source;
    for i := 0 to |stmts|
      invariant |stmts| == |source|
      invariant forall k | 0 <= k < i :: stmts[k] == Patched(declared, source)[k]
      invariant forall k | i <= k < |source| :: stmts[k] == source[k]
    {
      stmts := stmts[i := stmts[i].(declaration := Renumber(declared, stmts[i].declaration))];
    }
  }

  /** The tables of the unit at statement `root`. */
  method Extract(t: Tables, root: nat, ghost tree: Tree) returns (u: Tables)
    requires Denotes(t.nodes, S(root), tree) && Indexed(t)
    ensures DeclaresIn(tree, |t.declarations|)
    ensures u == Unit(tree, t.declarations)
  {
    DenotedDeclares(t, S(root), tree);
    EmitDeclares(tree, NO_NODES, |t.declarations|);
    var copy := new Extraction(t.nodes);
    var r := copy.Copy(S(root), tree);
    var declared := DeclaredBy(copy.copy.stmts);
    assert forall i | 0 <= i < |declared| :: declared[i] in declared;
    var declarations := CopyDeclarations(t.declarations, declared);
    var stmts := PatchStatements(copy.copy.stmts, declared);
    u := Tables(copy.copy.(stmts := stmts), declarations, [r.id]);
  }
}
