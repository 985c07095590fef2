/**
 * The checked arena: expression and statement nodes in two index-addressed
 * tables that name each other by index.
 *
 * A node holds its operation's shape and the nodes the operation names, in the
 * order `map_operands` visits them; the shape says how that list divides into
 * operands and bodies. What the check recorded at a node is one opaque
 * attribute, `Facts`. A tree is what a node unfolds to, and `Emit` is the
 * layout that stores a tree children first.
 */
module Arena {
  import opened Prelude

  type Facts = string

  datatype Ref = E(id: nat) | S(id: nat)

  // -------------------------------------------------------- expression shapes

  datatype ParamShape =
    | Attribute(value: string, applications: nat)
    | Value
    | Named(name: string, inner: ParamShape)

  /** A `for` clause's iterable, then the target expressions and the value of
      its destructuring; an `if` clause's condition. */
  datatype ClauseShape = ForClause(binder: string, unpack: Option<nat>) | IfClause

  datatype ExprShape =
    | Leaf(text: string)
    | Operands(op: string, count: nat)
    | Call(name: string, params: seq<ParamShape>, args: nat, keywords: seq<string>)
    | Invoke(params: seq<ParamShape>, args: nat, keywords: seq<string>)
    | Comprehension(clauses: seq<ClauseShape>, key: bool)
    | Lambda

  function ParamArity(p: ParamShape): nat {
    match p
    case Attribute(_, applications) => applications
    case Value => 1
    case Named(_, inner) => ParamArity(inner)
  }

  function ParamsArity(ps: seq<ParamShape>): nat {
    if ps == [] then 0 else ParamArity(ps[0]) + ParamsArity(ps[1..])
  }

  function ClausesArity(cs: seq<ClauseShape>): nat {
    if cs == [] then 0
    else
      (match cs[0]
       case ForClause(_, None) => 1
       case ForClause(_, Some(targets)) => 2 + targets
       case IfClause => 1) + ClausesArity(cs[1..])
  }

  function ExprArity(shape: ExprShape): nat {
    match shape
    case Leaf(_) => 0
    case Operands(_, count) => count
    case Call(_, params, args, keywords) => ParamsArity(params) + args + |keywords|
    case Invoke(params, args, keywords) => 1 + ParamsArity(params) + args + |keywords|
    case Comprehension(clauses, key) => ClausesArity(clauses) + (if key then 2 else 1)
    case Lambda => 1
  }

  // --------------------------------------------------------- statement shapes

  /** An enum test names its discriminant's declaration before the test. */
  datatype CommandShape =
    | Equal
    | ListLength
    | EnumTag(case_: nat)
    | Bind
    | Alternatives(lists: seq<CommandList>)

  datatype CommandList = Commands(items: seq<CommandShape>)

  /** `CaseTest` names the value, the pattern's expressions, the anchor, the
      path reads, then the commands' nodes. */
  datatype ConditionShape =
    | Test
    | CaseTest(pattern: nat, anchor: bool, pathReads: nat, commands: seq<CommandShape>)

  datatype BranchShape = Branch(condition: ConditionShape, body: nat)

  /** The pattern's expressions, the reads, the commands' nodes, the guard, the
      compile-time condition, then the body. */
  datatype CaseShape =
    Case(pattern: nat, pathReads: nat, commands: seq<CommandShape>, guard: bool, condition: bool, body: nat)

  datatype MethodShape = Method(name: string, defaults: nat, wheres: nat, body: nat)

  datatype RequirementShape = Requirement(defaults: nat, wheres: nat, default: bool)

  datatype StmtShape =
    | VarDecl(name: string, applications: nat)
    | RefDecl(name: string)
    | Assign(name: string)
    | SetPlace
    | Eval
    | Comptime(name: string, wheres: nat)
    | Def(name: string, defaults: nat, wheres: nat, body: nat)
    | Struct(name: string, conditions: nat, methods: seq<MethodShape>)
    | Trait(name: string, requirements: seq<RequirementShape>)
    | If(branches: seq<BranchShape>, orelse: nat)
    | While(condition: ConditionShape, body: nat, orelse: nat)
    | For(binder: string, body: nat, orelse: nat)
    | Match(anchor: bool, cases: seq<CaseShape>)
    | With(items: nat, body: nat)
    | Try(body: nat, except: Option<(Option<string>, nat)>, orelse: nat, finalbody: nat)
    | Scope(body: nat)
    | Return(value: bool)
    | Raise
    | Pass
    | Break
    | Continue

  function One(present: bool): nat {
    if present then 1 else 0
  }

  function CommandArity(c: CommandShape): nat {
    match c
    case Equal => 1
    case ListLength => 1
    case EnumTag(_) => 2
    case Bind => 1
    case Alternatives(lists) => ListsArity(lists)
  }

  function CommandsArity(cs: seq<CommandShape>): nat {
    if cs == [] then 0 else CommandArity(cs[0]) + CommandsArity(cs[1..])
  }

  function ListsArity(ls: seq<CommandList>): nat {
    if ls == [] then 0 else CommandsArity(ls[0].items) + ListsArity(ls[1..])
  }

  function ConditionArity(c: ConditionShape): nat {
    match c
    case Test => 1
    case CaseTest(pattern, anchor, pathReads, commands) =>
      1 + pattern + One(anchor) + pathReads + CommandsArity(commands)
  }

  function BranchArity(b: BranchShape): nat {
    ConditionArity(b.condition) + b.body
  }

  function BranchesArity(bs: seq<BranchShape>): nat {
    if bs == [] then 0 else BranchArity(bs[0]) + BranchesArity(bs[1..])
  }

  function CaseArity(c: CaseShape): nat {
    c.pattern + c.pathReads + CommandsArity(c.commands) + One(c.guard) + One(c.condition) + c.body
  }

  function CasesArity(cs: seq<CaseShape>): nat {
    if cs == [] then 0 else CaseArity(cs[0]) + CasesArity(cs[1..])
  }

  function MethodsArity(ms: seq<MethodShape>): nat {
    if ms == [] then 0 else ms[0].defaults + ms[0].wheres + ms[0].body + MethodsArity(ms[1..])
  }

  function RequirementsArity(rs: seq<RequirementShape>): nat {
    if rs == [] then 0
    else rs[0].defaults + rs[0].wheres + One(rs[0].default) + RequirementsArity(rs[1..])
  }

  function StmtArity(shape: StmtShape): nat {
    match shape
    case VarDecl(_, applications) => applications + 1
    case RefDecl(_) => 1
    case Assign(_) => 1
    case SetPlace => 2
    case Eval => 1
    case Comptime(_, wheres) => wheres + 1
    case Def(_, defaults, wheres, body) => defaults + wheres + body
    case Struct(_, conditions, methods) => conditions + MethodsArity(methods)
    case Trait(_, requirements) => RequirementsArity(requirements)
    case If(branches, orelse) => BranchesArity(branches) + orelse
    case While(condition, body, orelse) => ConditionArity(condition) + body + orelse
    case For(_, body, orelse) => 1 + body + orelse
    case Match(anchor, cases) => One(anchor) + CasesArity(cases)
    case With(items, body) => items + body
    case Try(body, except, orelse, finalbody) =>
      body + (if except.Some? then except.value.1 else 0) + orelse + finalbody
    case Scope(body) => body
    case Return(value) => One(value)
    case Raise => 1
    case Pass => 0
    case Break => 0
    case Continue => 0
  }

  // -------------------------------------------------------------- the tables

  datatype ExprNode = ExprNode(id: nat, shape: ExprShape, refs: seq<Ref>, facts: Facts)

  datatype StmtNode =
    StmtNode(id: nat, shape: StmtShape, refs: seq<Ref>, facts: Facts, declaration: Option<nat>)

  datatype Nodes = Nodes(exprs: seq<ExprNode>, stmts: seq<StmtNode>)

  datatype Declaration = Declaration(id: nat, facts: Facts, children: seq<nat>)

  datatype Tables = Tables(nodes: Nodes, declarations: seq<Declaration>, roots: seq<nat>)

  const NO_NODES := Nodes([], [])

  predicate Holds(n: Nodes, r: Ref) {
    match r
    case E(i) => i < |n.exprs|
    case S(i) => i < |n.stmts|
  }

  function RefsAt(n: Nodes, r: Ref): seq<Ref>
    requires Holds(n, r)
  {
    match r
    case E(i) => n.exprs[i].refs
    case S(i) => n.stmts[i].refs
  }

  /** What a node unfolds to. */
  datatype Tree =
    | ExprTree(shape: ExprShape, facts: Facts, kids: seq<Tree>)
    | StmtTree(stmt: StmtShape, facts: Facts, declaration: Option<nat>, kids: seq<Tree>)

  /** Node `r` unfolds to `tree`: everything under it is stored, and no path
      from it comes back to it. */
  ghost predicate Denotes(n: Nodes, r: Ref, tree: Tree)
    decreases tree
  {
    && Holds(n, r)
    && |RefsAt(n, r)| == |tree.kids|
    && (match r
        case E(i) =>
          && tree.ExprTree?
          && n.exprs[i].shape == tree.shape
          && n.exprs[i].facts == tree.facts
          && |tree.kids| == ExprArity(tree.shape)
        case S(i) =>
          && tree.StmtTree?
          && n.stmts[i].shape == tree.stmt
          && n.stmts[i].facts == tree.facts
          && n.stmts[i].declaration == tree.declaration
          && |tree.kids| == StmtArity(tree.stmt))
    && forall k | 0 <= k < |tree.kids| :: Denotes(n, RefsAt(n, r)[k], tree.kids[k])
  }

  /** A node unfolds to at most one tree. */
  lemma {:induction false} DenotesUnique(n: Nodes, r: Ref, a: Tree, b: Tree)
    requires Denotes(n, r, a) && Denotes(n, r, b)
    ensures a == b
    decreases a
  {
    forall k | 0 <= k < |a.kids| ensures a.kids[k] == b.kids[k] {
      DenotesUnique(n, RefsAt(n, r)[k], a.kids[k], b.kids[k]);
    }
    assert a.kids == b.kids;
  }

  ghost predicate Grows(n: Nodes, m: Nodes) {
    n.exprs <= m.exprs && n.stmts <= m.stmts
  }

  lemma {:induction false} DenotesGrows(n: Nodes, m: Nodes, r: Ref, tree: Tree)
    requires Grows(n, m) && Denotes(n, r, tree)
    ensures Denotes(m, r, tree)
    decreases tree
  {
    assert RefsAt(m, r) == RefsAt(n, r);
    forall k | 0 <= k < |tree.kids| ensures Denotes(m, RefsAt(m, r)[k], tree.kids[k]) {
      DenotesGrows(n, m, RefsAt(n, r)[k], tree.kids[k]);
    }
  }

  /** When each node was stored. */
  datatype Births = Births(exprs: seq<nat>, stmts: seq<nat>, clock: nat)

  predicate Rising(times: seq<nat>, clock: nat) {
    && (forall i | 0 <= i < |times| :: times[i] < clock)
    && (forall i, j | 0 <= i < j < |times| :: times[i] < times[j])
  }

  function BornAt(b: Births, r: Ref): nat {
    match r
    case E(i) => if i < |b.exprs| then b.exprs[i] else b.clock
    case S(i) => if i < |b.stmts| then b.stmts[i] else b.clock
  }

  /** Each node's identity is its position, and each node it names was stored
      before it. */
  ghost predicate StoredInOrder(n: Nodes, b: Births) {
    && |b.exprs| == |n.exprs| && |b.stmts| == |n.stmts|
    && Rising(b.exprs, b.clock) && Rising(b.stmts, b.clock)
    && (forall i | 0 <= i < |n.exprs| ::
          && n.exprs[i].id == i
          && |n.exprs[i].refs| == ExprArity(n.exprs[i].shape)
          && forall k <- n.exprs[i].refs :: Holds(n, k) && BornAt(b, k) < b.exprs[i])
    && (forall i | 0 <= i < |n.stmts| ::
          && n.stmts[i].id == i
          && |n.stmts[i].refs| == StmtArity(n.stmts[i].shape)
          && forall k <- n.stmts[i].refs :: Holds(n, k) && BornAt(b, k) < b.stmts[i])
  }

  /** Node `r` over the trees its operands unfold to. */
  function Over(n: Nodes, r: Ref, kids: seq<Tree>): Tree
    requires Holds(n, r)
  {
    match r
    case E(i) => ExprTree(n.exprs[i].shape, n.exprs[i].facts, kids)
    case S(i) => StmtTree(n.stmts[i].shape, n.stmts[i].facts, n.stmts[i].declaration, kids)
  }

  /** An arena stored children first unfolds from every one of its nodes. */
  lemma {:induction false} Unfolds(n: Nodes, b: Births, r: Ref) returns (tree: Tree)
    requires StoredInOrder(n, b) && Holds(n, r)
    ensures Denotes(n, r, tree)
    decreases BornAt(b, r), 1, 0
  {
    assert forall k <- RefsAt(n, r) :: Holds(n, k) && BornAt(b, k) < BornAt(b, r);
    var kids := UnfoldsAll(n, b, RefsAt(n, r), BornAt(b, r));
    tree := Over(n, r, kids);
  }

  lemma {:induction false} UnfoldsAll(n: Nodes, b: Births, refs: seq<Ref>, bound: nat) returns (trees: seq<Tree>)
    requires StoredInOrder(n, b) && forall k <- refs :: Holds(n, k) && BornAt(b, k) < bound
    ensures |trees| == |refs| && forall k | 0 <= k < |refs| :: Denotes(n, refs[k], trees[k])
    decreases bound, 0, |refs|
  {
    trees := [];
    if refs != [] {
      var first := Unfolds(n, b, refs[0]);
      var rest := UnfoldsAll(n, b, refs[1..], bound);
      trees := [first] + rest;
    }
  }

  // -------------------------------------------------------------- the layout

  /** The tables with `tree` stored after `n`, children first, and its node. */
  function Emit(tree: Tree, n: Nodes): (Nodes, Ref)
    decreases tree
  {
    var (m, refs) := EmitAll(tree.kids, n);
    match tree
    case ExprTree(shape, facts, _) =>
      (m.(exprs := m.exprs + [ExprNode(|m.exprs|, shape, refs, facts)]), E(|m.exprs|))
    case StmtTree(shape, facts, declaration, _) =>
      (m.(stmts := m.stmts + [StmtNode(|m.stmts|, shape, refs, facts, declaration)]), S(|m.stmts|))
  }

  function EmitAll(trees: seq<Tree>, n: Nodes): (r: (Nodes, seq<Ref>))
    decreases trees
  {
    if trees == [] then (n, [])
    else
      var (m, ref) := Emit(trees[0], n);
      var (o, refs) := EmitAll(trees[1..], m);
      (o, [ref] + refs)
  }

  ghost predicate WellShaped(tree: Tree)
    decreases tree
  {
    && |tree.kids| == (match tree
                       case ExprTree(shape, _, _) => ExprArity(shape)
                       case StmtTree(shape, _, _, _) => StmtArity(shape))
    && forall k <- tree.kids :: WellShaped(k)
  }

  lemma {:induction false} DenotedIsWellShaped(n: Nodes, r: Ref, tree: Tree)
    requires Denotes(n, r, tree)
    ensures WellShaped(tree)
    decreases tree
  {
    forall k <- tree.kids ensures WellShaped(k) {
      var i :| 0 <= i < |tree.kids| && tree.kids[i] == k;
      DenotedIsWellShaped(n, RefsAt(n, r)[i], k);
    }
  }

  lemma PushExpr(m: Nodes, d: Births, node: ExprNode)
    requires StoredInOrder(m, d) && node.id == |m.exprs| && |node.refs| == ExprArity(node.shape)
    requires forall k <- node.refs :: Holds(m, k)
    ensures StoredInOrder(m.(exprs := m.exprs + [node]), Births(d.exprs + [d.clock], d.stmts, d.clock + 1))
  {
  }

  lemma PushStmt(m: Nodes, d: Births, node: StmtNode)
    requires StoredInOrder(m, d) && node.id == |m.stmts| && |node.refs| == StmtArity(node.shape)
    requires forall k <- node.refs :: Holds(m, k)
    ensures StoredInOrder(m.(stmts := m.stmts + [node]), Births(d.exprs, d.stmts + [d.clock], d.clock + 1))
  {
  }

  /** The layout of a tree unfolds to it and is stored children first, leaving
      what was stored before in place. */
  lemma {:induction false} EmitDenotes(tree: Tree, n: Nodes, b: Births) returns (c: Births)
    requires WellShaped(tree) && StoredInOrder(n, b)
    ensures var (m, r) := Emit(tree, n);
            Grows(n, m) && StoredInOrder(m, c) && Denotes(m, r, tree) && b.clock <= c.clock
    ensures b.exprs <= c.exprs && b.stmts <= c.stmts
    decreases tree, 1
  {
    var d := EmitAllDenotes(tree.kids, n, b);
    var (m, refs) := EmitAll(tree.kids, n);
    var (o, r) := Emit(tree, n);
    match tree {
      case ExprTree(shape, facts, _) =>
        c := Births(d.exprs + [d.clock], d.stmts, d.clock + 1);
        PushExpr(m, d, ExprNode(|m.exprs|, shape, refs, facts));
      case StmtTree(shape, facts, declaration, _) =>
        c := Births(d.exprs, d.stmts + [d.clock], d.clock + 1);
        PushStmt(m, d, StmtNode(|m.stmts|, shape, refs, facts, declaration));
    }
    assert RefsAt(o, r) == refs;
    forall k | 0 <= k < |tree.kids| ensures Denotes(o, refs[k], tree.kids[k]) {
      DenotesGrows(m, o, refs[k], tree.kids[k]);
    }
  }

  lemma {:induction false} EmitAllDenotes(trees: seq<Tree>, n: Nodes, b: Births) returns (c: Births)
    requires (forall k <- trees :: WellShaped(k)) && StoredInOrder(n, b)
    ensures var (m, refs) := EmitAll(trees, n);
            && Grows(n, m) && StoredInOrder(m, c) && |refs| == |trees| && b.clock <= c.clock
            && forall k | 0 <= k < |trees| :: Denotes(m, refs[k], trees[k])
    ensures b.exprs <= c.exprs && b.stmts <= c.stmts
    decreases trees, 0
  {
    c := b;
    if trees != [] {
      var (m, ref) := Emit(trees[0], n);
      c := EmitDenotes(trees[0], n, b);
      c := EmitAllDenotes(trees[1..], m, c);
      var (o, refs) := EmitAll(trees[1..], m);
      DenotesGrows(m, o, ref, trees[0]);
    }
  }

  // ------------------------------------------------- operands in build order

  /** `o` stores after `m` only nodes that name none of `m`. */
  ghost predicate Apart(m: Nodes, o: Nodes) {
    && Grows(m, o)
    && (forall i | |m.exprs| <= i < |o.exprs| :: forall k <- o.exprs[i].refs :: !Holds(m, k))
    && (forall i | |m.stmts| <= i < |o.stmts| :: forall k <- o.stmts[i].refs :: !Holds(m, k))
  }

  lemma {:induction false} ApartTwice(n: Nodes, m: Nodes, o: Nodes)
    requires Apart(n, m) && Apart(m, o)
    ensures Apart(n, o)
  {
    forall i | |n.exprs| <= i < |o.exprs| ensures forall k <- o.exprs[i].refs :: !Holds(n, k) {
      assert i < |m.exprs| ==> m.exprs[i] == o.exprs[i];
    }
    forall i | |n.stmts| <= i < |o.stmts| ensures forall k <- o.stmts[i].refs :: !Holds(n, k) {
      assert i < |m.stmts| ==> m.stmts[i] == o.stmts[i];
    }
  }

  /** A tree's layout is all new nodes: none names one stored before. */
  lemma {:induction false} EmitsApart(tree: Tree, n: Nodes)
    ensures var (m, r) := Emit(tree, n);
      Apart(n, m) && Holds(m, r) && !Holds(n, r)
    decreases tree, 1
  {
    EmitsAllApart(tree.kids, n);
  }

  lemma {:induction false} EmitsAllApart(trees: seq<Tree>, n: Nodes)
    ensures var (m, refs) := EmitAll(trees, n);
      Apart(n, m) && |refs| == |trees| && forall k <- refs :: Holds(m, k) && !Holds(n, k)
    decreases trees, 0
  {
    if trees != [] {
      var (m, ref) := Emit(trees[0], n);
      EmitsApart(trees[0], n);
      EmitsAllApart(trees[1..], m);
      ApartTwice(n, m, EmitAll(trees[1..], m).0);
    }
  }

  lemma {:induction false} EmitAllSplits(a: seq<Tree>, b: seq<Tree>, n: Nodes)
    ensures var (m, refs) := EmitAll(a, n);
      EmitAll(a + b, n) == (EmitAll(b, m).0, refs + EmitAll(b, m).1)
    decreases |a|
  {
    if a == [] {
      assert a + b == b && [] + EmitAll(b, n).1 == EmitAll(b, n).1;
    } else {
      assert (a + b)[1..] == a[1..] + b;
      var (first, ref) := Emit(a[0], n);
      EmitAllSplits(a[1..], b, first);
      var (m, refs) := EmitAll(a[1..], first);
      Regrouped([ref], refs, EmitAll(b, m).1);
    }
  }

  /** Operands are stored in build order: when the `j`-th is yet to be stored, all
      before it are there, it is not, and nothing stored from then on names what is
      there. */
  lemma {:induction false} EarlierStoredFirst(trees: seq<Tree>, n: Nodes, j: nat)
    requires j < |trees|
    ensures var (o, refs), m := EmitAll(trees, n), EmitAll(trees[..j], n).0;
      && |refs| == |trees| && Apart(m, o)
      && (forall i | 0 <= i < j :: Holds(m, refs[i]))
      && (forall i | j <= i < |refs| :: !Holds(m, refs[i]))
  {
    var (m, refs) := EmitAll(trees[..j], n);
    assert trees[..j] + trees[j..] == trees;
    EmitAllSplits(trees[..j], trees[j..], n);
    EmitsAllApart(trees[..j], n);
    EmitsAllApart(trees[j..], m);
    var all := EmitAll(trees, n).1;
    assert forall i | j <= i < |all| :: all[i] == EmitAll(trees[j..], m).1[i - j];
  }
}
