/**
 * The source preorder walk over the arena, and the nodes an extraction copies.
 */
module ArenaWalk {
  import opened Prelude
  import opened Arena

  datatype WalkResult = Advance | SkipBodies | Skip

  // ------------------------------------------------------------- walk order

  /** Positions in the order they are walked. */
  datatype Order = End | At(p: nat, rest: Order)

  function Append(x: Order, y: Order): Order {
    match x
    case End => y
    case At(p, rest) => At(p, Append(rest, y))
  }

  function Range(a: nat, b: nat): Order
    requires a <= b
    decreases b - a
  {
    if a == b then End else At(a, Range(a + 1, b))
  }

  /** The positions in `[a, b)` holding expressions, or holding statements. */
  function Positions(refs: seq<Ref>, a: nat, b: nat, exprs: bool): Order
    requires a <= b <= |refs|
    decreases b - a
  {
    if a == b then End
    else if refs[a].E? == exprs then At(a, Positions(refs, a + 1, b, exprs))
    else Positions(refs, a + 1, b, exprs)
  }

  /** The expressions in `[a, b)`, then the statements. */
  function Split(refs: seq<Ref>, a: nat, b: nat): Order
    requires a <= b <= |refs|
  {
    Append(Positions(refs, a, b, true), Positions(refs, a, b, false))
  }

  function CommandsOrder(cs: seq<CommandShape>, refs: seq<Ref>, at: nat): Order
    requires at + CommandsArity(cs) <= |refs|
  {
    if cs == [] then End
    else
      var next := at + CommandArity(cs[0]);
      Append(Split(refs, at, next), CommandsOrder(cs[1..], refs, next))
  }

  function BranchesOrder(bs: seq<BranchShape>, refs: seq<Ref>, at: nat): Order
    requires at + BranchesArity(bs) <= |refs|
  {
    if bs == [] then End
    else
      var body := at + ConditionArity(bs[0].condition);
      var next := body + bs[0].body;
      Append(Split(refs, at, body), Append(Range(body, next), BranchesOrder(bs[1..], refs, next)))
  }

  /** A case's pattern, compile-time condition, reads, commands, guard, body. */
  function CaseOrder(c: CaseShape, refs: seq<Ref>, at: nat): Order
    requires at + CaseArity(c) <= |refs|
  {
    var read := at + c.pattern;
    var command := read + c.pathReads;
    var guard := command + CommandsArity(c.commands);
    var condition := guard + One(c.guard);
    var body := condition + One(c.condition);
    Append(Range(at, read),
      Append(Range(condition, body),
        Append(Range(read, command),
          Append(CommandsOrder(c.commands, refs, command),
            Append(Range(guard, condition), Range(body, body + c.body))))))
  }

  function CasesOrder(cs: seq<CaseShape>, refs: seq<Ref>, at: nat): Order
    requires at + CasesArity(cs) <= |refs|
  {
    if cs == [] then End
    else Append(CaseOrder(cs[0], refs, at), CasesOrder(cs[1..], refs, at + CaseArity(cs[0])))
  }

  /** The positions of a statement's operands and bodies in the order they are
      walked: an `if` takes each condition with its own branch, a `match` each
      case in turn, any other statement its expressions before its bodies. */
  function StmtOrder(shape: StmtShape, refs: seq<Ref>): Order
    requires |refs| == StmtArity(shape)
  {
    match shape
    case If(branches, orelse) =>
      var last := BranchesArity(branches);
      Append(BranchesOrder(branches, refs, 0), Range(last, last + orelse))
    case Match(anchor, cases) =>
      Append(Range(0, One(anchor)), CasesOrder(cases, refs, One(anchor)))
    case _ => Split(refs, 0, |refs|)
  }

  /** The weights of the positions `order`, added up. */
  function Total(weight: nat -> nat, order: Order): nat {
    match order
    case End => 0
    case At(p, rest) => weight(p) + Total(weight, rest)
  }

  lemma {:induction false} TotalConcat(w: nat -> nat, a: Order, b: Order)
    ensures Total(w, Append(a, b)) == Total(w, a) + Total(w, b)
    decreases a
  {
    if a.At? {
      TotalConcat(w, a.rest, b);
    }
  }

  lemma {:induction false} TotalRange(w: nat -> nat, a: nat, b: nat, c: nat)
    requires a <= b <= c
    ensures Total(w, Range(a, c)) == Total(w, Range(a, b)) + Total(w, Range(b, c))
    decreases b - a
  {
    if a < b {
      TotalRange(w, a + 1, b, c);
    }
  }

  lemma Joined(w: nat -> nat, x: Order, y: Order, a: nat, b: nat, c: nat)
    requires a <= b <= c
    requires Total(w, x) == Total(w, Range(a, b)) && Total(w, y) == Total(w, Range(b, c))
    ensures Total(w, Append(x, y)) == Total(w, Range(a, c))
  {
    TotalConcat(w, x, y);
    TotalRange(w, a, b, c);
  }

  lemma {:induction false} TotalPositions(w: nat -> nat, refs: seq<Ref>, a: nat, b: nat)
    requires a <= b <= |refs|
    ensures Total(w, Positions(refs, a, b, true)) + Total(w, Positions(refs, a, b, false))
         == Total(w, Range(a, b))
    decreases b - a
  {
    if a < b {
      TotalPositions(w, refs, a + 1, b);
    }
  }

  lemma TotalSplit(w: nat -> nat, refs: seq<Ref>, a: nat, b: nat)
    requires a <= b <= |refs|
    ensures Total(w, Split(refs, a, b)) == Total(w, Range(a, b))
  {
    TotalPositions(w, refs, a, b);
    TotalConcat(w, Positions(refs, a, b, true), Positions(refs, a, b, false));
  }

  lemma {:induction false} TotalCommands(w: nat -> nat, cs: seq<CommandShape>, refs: seq<Ref>, at: nat)
    requires at + CommandsArity(cs) <= |refs|
    ensures Total(w, CommandsOrder(cs, refs, at)) == Total(w, Range(at, at + CommandsArity(cs)))
    decreases |cs|
  {
    if cs != [] {
      var next := at + CommandArity(cs[0]);
      TotalSplit(w, refs, at, next);
      TotalCommands(w, cs[1..], refs, next);
      Joined(w, Split(refs, at, next), CommandsOrder(cs[1..], refs, next), at, next, at + CommandsArity(cs));
    }
  }

  lemma {:induction false} TotalBranch(w: nat -> nat, refs: seq<Ref>, rest: Order, at: nat, body: nat, next: nat,
                                       end: nat)
    requires at <= body <= next <= end <= |refs| && Total(w, rest) == Total(w, Range(next, end))
    ensures Total(w, Append(Split(refs, at, body), Append(Range(body, next), rest))) == Total(w, Range(at, end))
  {
    TotalSplit(w, refs, at, body);
    Joined(w, Range(body, next), rest, body, next, end);
    Joined(w, Split(refs, at, body), Append(Range(body, next), rest), at, body, end);
  }

  lemma {:induction false} TotalBranches(w: nat -> nat, bs: seq<BranchShape>, refs: seq<Ref>, at: nat)
    requires at + BranchesArity(bs) <= |refs|
    ensures Total(w, BranchesOrder(bs, refs, at)) == Total(w, Range(at, at + BranchesArity(bs)))
    decreases |bs|
  {
    if bs != [] {
      var body := at + ConditionArity(bs[0].condition);
      var next := body + bs[0].body;
      TotalBranches(w, bs[1..], refs, next);
      TotalBranch(w, refs, BranchesOrder(bs[1..], refs, next), at, body, next, at + BranchesArity(bs));
    }
  }

  lemma {:induction false} SixRanges(w: nat -> nat, at: nat, read: nat, command: nat, guard: nat, condition: nat,
                                     body: nat, end: nat)
    requires at <= read <= command <= guard <= condition <= body <= end
    ensures Total(w, Range(at, end))
         == Total(w, Range(at, read)) + Total(w, Range(read, command)) + Total(w, Range(command, guard))
            + Total(w, Range(guard, condition)) + Total(w, Range(condition, body)) + Total(w, Range(body, end))
  {
    TotalRange(w, at, read, end);
    TotalRange(w, read, command, end);
    TotalRange(w, command, guard, end);
    TotalRange(w, guard, condition, end);
    TotalRange(w, condition, body, end);
  }

  lemma {:induction false} TotalSix(w: nat -> nat, a: Order, b: Order, c: Order, d: Order, e: Order, f: Order)
    ensures Total(w, Append(a, Append(b, Append(c, Append(d, Append(e, f))))))
         == Total(w, a) + Total(w, b) + Total(w, c) + Total(w, d) + Total(w, e) + Total(w, f)
  {
    var ef := Append(e, f);
    TotalConcat(w, e, f);
    TotalConcat(w, d, ef);
    TotalConcat(w, c, Append(d, ef));
    TotalConcat(w, b, Append(c, Append(d, ef)));
    TotalConcat(w, a, Append(b, Append(c, Append(d, ef))));
  }

  lemma {:induction false} CaseTotals(w: nat -> nat, commands: Order, at: nat, read: nat, command: nat, guard: nat,
                   condition: nat, body: nat, end: nat)
    requires at <= read <= command <= guard <= condition <= body <= end
    requires Total(w, commands) == Total(w, Range(command, guard))
    ensures Total(w, Append(Range(at, read), Append(Range(condition, body), Append(Range(read, command),
                       Append(commands, Append(Range(guard, condition), Range(body, end)))))))
         == Total(w, Range(at, end))
  {
    SixRanges(w, at, read, command, guard, condition, body, end);
    TotalSix(w, Range(at, read), Range(condition, body), Range(read, command), commands,
             Range(guard, condition), Range(body, end));
  }

  lemma {:induction false} TotalCase(w: nat -> nat, c: CaseShape, refs: seq<Ref>, at: nat)
    requires at + CaseArity(c) <= |refs|
    ensures Total(w, CaseOrder(c, refs, at)) == Total(w, Range(at, at + CaseArity(c)))
  {
    var read := at + c.pattern;
    var command := read + c.pathReads;
    var guard := command + CommandsArity(c.commands);
    var condition := guard + One(c.guard);
    var body := condition + One(c.condition);
    var end := body + c.body;
    var commands := CommandsOrder(c.commands, refs, command);
    TotalCommands(w, c.commands, refs, command);
    CaseTotals(w, commands, at, read, command, guard, condition, body, end);
  }

  lemma {:induction false} TotalCases(w: nat -> nat, cs: seq<CaseShape>, refs: seq<Ref>, at: nat)
    requires at + CasesArity(cs) <= |refs|
    ensures Total(w, CasesOrder(cs, refs, at)) == Total(w, Range(at, at + CasesArity(cs)))
    decreases |cs|
  {
    if cs != [] {
      var next := at + CaseArity(cs[0]);
      TotalCase(w, cs[0], refs, at);
      TotalCases(w, cs[1..], refs, next);
      Joined(w, CaseOrder(cs[0], refs, at), CasesOrder(cs[1..], refs, next), at, next, at + CasesArity(cs));
    }
  }

  lemma {:induction false} TotalIf(w: nat -> nat, branches: seq<BranchShape>, orelse: nat, refs: seq<Ref>)
    requires |refs| == BranchesArity(branches) + orelse
    ensures var last := BranchesArity(branches);
      Total(w, Append(BranchesOrder(branches, refs, 0), Range(last, last + orelse))) == Total(w, Range(0, |refs|))
  {
    var last := BranchesArity(branches);
    TotalBranches(w, branches, refs, 0);
    Joined(w, BranchesOrder(branches, refs, 0), Range(last, last + orelse), 0, last, |refs|);
  }

  lemma {:induction false} TotalMatch(w: nat -> nat, anchor: bool, cases: seq<CaseShape>, refs: seq<Ref>)
    requires |refs| == One(anchor) + CasesArity(cases)
    ensures Total(w, Append(Range(0, One(anchor)), CasesOrder(cases, refs, One(anchor)))) == Total(w, Range(0, |refs|))
  {
    TotalCases(w, cases, refs, One(anchor));
    Joined(w, Range(0, One(anchor)), CasesOrder(cases, refs, One(anchor)), 0, One(anchor), |refs|);
  }

  /** The walk takes each operand and body of a statement exactly once: it adds
      up any weights to their sum. */
  lemma {:induction false} WalkTakesEachOnce(w: nat -> nat, shape: StmtShape, refs: seq<Ref>)
    requires |refs| == StmtArity(shape)
    ensures Total(w, StmtOrder(shape, refs)) == Total(w, Range(0, |refs|))
  {
    match shape
    case If(branches, orelse) => TotalIf(w, branches, orelse, refs);
    case Match(anchor, cases) => TotalMatch(w, anchor, cases, refs);
    case _ => TotalSplit(w, refs, 0, |refs|);
  }

  // ----------------------------------------------------- visits and copies

  /** The order in which the walk takes the operands of node `r`. */
  ghost function WalkOrder(n: Nodes, r: Ref, tree: Tree): Order
    requires Denotes(n, r, tree)
  {
    if r.E? then Range(0, |tree.kids|) else StmtOrder(tree.stmt, RefsAt(n, r))
  }

  /** The nodes a walk from `r` visits when its visitor answers as `answer`
      does: a node's bodies, and a lambda's hidden definition, only on
      `Advance`; nothing under it on `Skip`. */
  ghost function Visits(n: Nodes, r: Ref, tree: Tree, answer: Ref -> WalkResult): seq<Ref>
    requires Denotes(n, r, tree)
    decreases tree, 2
  {
    [r] + if answer(r) == Skip then []
          else VisitsUnder(n, r, tree, WalkOrder(n, r, tree), answer(r) == Advance, answer)
  }

  ghost function VisitsUnder(n: Nodes, r: Ref, tree: Tree, order: Order, bodies: bool,
                             answer: Ref -> WalkResult): seq<Ref>
    requires Denotes(n, r, tree)
    decreases tree, 1, order
  {
    match order
    case End => []
    case At(p, rest) =>
      VisitsAt(n, r, tree, p, bodies, answer) + VisitsUnder(n, r, tree, rest, bodies, answer)
  }

  ghost function VisitsAt(n: Nodes, r: Ref, tree: Tree, p: nat, bodies: bool, answer: Ref -> WalkResult): seq<Ref>
    requires Denotes(n, r, tree)
    decreases tree, 0
  {
    if p < |tree.kids| && (RefsAt(n, r)[p].E? || bodies)
    then Visits(n, RefsAt(n, r)[p], tree.kids[p], answer)
    else []
  }

  /** The nodes an extraction from `r` copies, in the order it copies them. */
  ghost function Copies(n: Nodes, r: Ref, tree: Tree): seq<Ref>
    requires Denotes(n, r, tree)
    decreases tree, 1
  {
    CopiesAll(n, RefsAt(n, r), tree.kids) + [r]
  }

  ghost function CopiesAll(n: Nodes, refs: seq<Ref>, trees: seq<Tree>): seq<Ref>
    requires |refs| == |trees| && forall k | 0 <= k < |trees| :: Denotes(n, refs[k], trees[k])
    decreases trees, 0
  {
    if trees == [] then []
    else Copies(n, refs[0], trees[0]) + CopiesAll(n, refs[1..], trees[1..])
  }

  lemma {:induction false} CountIsMultiplicity(s: seq<Ref>, x: Ref)
    ensures Count(s, x) == multiset(s)[x]
    decreases |s|
  {
    if s != [] {
      assert s == [s[0]] + s[1..];
      CountIsMultiplicity(s[1..], x);
    }
  }

  /** How often the subtree of each operand of `r` copies `x`. */
  ghost function Weight(n: Nodes, r: Ref, tree: Tree, x: Ref): nat -> nat
    requires Denotes(n, r, tree)
  {
    (p: nat) => if p < |tree.kids| && Denotes(n, RefsAt(n, r)[p], tree.kids[p])
         then Count(Copies(n, RefsAt(n, r)[p], tree.kids[p]), x) else 0
  }

  lemma {:induction false} CopiesAddUp(n: Nodes, r: Ref, tree: Tree, x: Ref, from: nat)
    requires Denotes(n, r, tree) && from <= |tree.kids|
    ensures Count(CopiesAll(n, RefsAt(n, r)[from..], tree.kids[from..]), x)
         == Total(Weight(n, r, tree, x), Range(from, |tree.kids|))
    decreases |tree.kids| - from
  {
    if from < |tree.kids| {
      var refs, kids := RefsAt(n, r), tree.kids;
      CopiesAddUp(n, r, tree, x, from + 1);
      assert refs[from..][1..] == refs[from + 1..] && kids[from..][1..] == kids[from + 1..];
      CountConcat(Copies(n, refs[from], kids[from]), CopiesAll(n, refs[from + 1..], kids[from + 1..]), x);
    }
  }

  ghost predicate Advances(answer: Ref -> WalkResult) {
    forall k :: answer(k) == Advance
  }

  lemma {:induction false} VisitsCountCopies(n: Nodes, r: Ref, tree: Tree, answer: Ref -> WalkResult, x: Ref)
    requires Denotes(n, r, tree) && Advances(answer)
    ensures Count(Visits(n, r, tree, answer), x) == Count(Copies(n, r, tree), x)
    decreases tree, 2
  {
    var refs := RefsAt(n, r);
    var order := WalkOrder(n, r, tree);
    VisitsAddUp(n, r, tree, order, answer, x);
    CopiesAddUp(n, r, tree, x, 0);
    assert refs[0..] == refs && tree.kids[0..] == tree.kids;
    CountConcat([r], VisitsUnder(n, r, tree, order, true, answer), x);
    CountConcat(CopiesAll(n, refs, tree.kids), [r], x);
    if r.S? {
      WalkTakesEachOnce(Weight(n, r, tree, x), tree.stmt, refs);
    }
  }

  lemma {:induction false} VisitsAddUp(n: Nodes, r: Ref, tree: Tree, order: Order, answer: Ref -> WalkResult, x: Ref)
    requires Denotes(n, r, tree) && Advances(answer)
    ensures Count(VisitsUnder(n, r, tree, order, true, answer), x) == Total(Weight(n, r, tree, x), order)
    decreases tree, 1, order
  {
    if order.At? {
      var p := order.p;
      if p < |tree.kids| {
        VisitsCountCopies(n, RefsAt(n, r)[p], tree.kids[p], answer, x);
      }
      VisitsAddUp(n, r, tree, order.rest, answer, x);
      CountConcat(VisitsAt(n, r, tree, p, true, answer), VisitsUnder(n, r, tree, order.rest, true, answer), x);
    }
  }

  /** A walk whose visitor always advances visits exactly the nodes an
      extraction copies, each as often. */
  lemma WalkVisitsCopies(n: Nodes, r: Ref, tree: Tree, answer: Ref -> WalkResult)
    requires Denotes(n, r, tree) && Advances(answer)
    ensures multiset(Visits(n, r, tree, answer)) == multiset(Copies(n, r, tree))
  {
    var a, b := Visits(n, r, tree, answer), Copies(n, r, tree);
    forall x ensures multiset(a)[x] == multiset(b)[x] {
      VisitsCountCopies(n, r, tree, answer, x);
      CountIsMultiplicity(a, x);
      CountIsMultiplicity(b, x);
    }
  }
}
