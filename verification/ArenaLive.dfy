/**
 * The live prefix of a statement list, and why running only it, in every block,
 * changes nothing.
 */
module ArenaLive {
  import opened Prelude
  import opened Arena

  /** Whether a statement ends its block: it leaves it, or it is a scope whose
      own live statements end that way. */
  predicate EndsBlock(t: Tree)
    decreases t, 0
  {
    t.StmtTree? &&
    match t.stmt
    case Return(_) => true
    case Raise => true
    case Break => true
    case Continue => true
    case Scope(_) =>
      var live := LiveLength(t.kids);
      live > 0 && EndsBlock(t.kids[live - 1])
    case _ => false
  }

  /** How many statements are live: up to and including the first that ends the
      block. */
  function LiveLength(ts: seq<Tree>): (n: nat)
    ensures n <= |ts|
    decreases ts, 1
  {
    if ts == [] then 0
    else if EndsBlock(ts[0]) then 1
    else 1 + LiveLength(ts[1..])
  }

  function Live(ts: seq<Tree>): seq<Tree> {
    ts[..LiveLength(ts)]
  }

  /** Nothing before the live prefix's last statement ends the block, and
      nothing is dead unless that last one does. */
  lemma {:induction false} LiveIsFirstEnding(ts: seq<Tree>)
    ensures forall i | 0 <= i < LiveLength(ts) - 1 :: !EndsBlock(ts[i])
    ensures LiveLength(ts) < |ts| ==> LiveLength(ts) > 0 && EndsBlock(ts[LiveLength(ts) - 1])
    decreases |ts|
  {
    if ts != [] && !EndsBlock(ts[0]) {
      LiveIsFirstEnding(ts[1..]);
      forall i | 0 <= i < LiveLength(ts) - 1 ensures !EndsBlock(ts[i]) {
        if i > 0 {
          assert ts[i] == ts[1..][i - 1];
        }
      }
    }
  }

  /** The live prefix is its own live prefix. */
  lemma {:induction false} LiveIsFixpoint(ts: seq<Tree>)
    ensures Live(Live(ts)) == Live(ts)
    decreases |ts|
  {
    if ts != [] {
      var live := Live(ts);
      assert live[0] == ts[0];
      if !EndsBlock(ts[0]) {
        assert live[1..] == Live(ts[1..]);
        LiveIsFixpoint(ts[1..]);
      }
    }
  }

  /** A scope ends its block exactly when some statement of it does. */
  lemma {:induction false} ScopeEndsWhenSomeDoes(t: Tree)
    requires t.StmtTree? && t.stmt.Scope?
    ensures EndsBlock(t) <==> exists i | 0 <= i < |t.kids| :: EndsBlock(t.kids[i])
  {
    LiveIsFirstEnding(t.kids);
    if LiveLength(t.kids) == |t.kids| {
      assert forall i | 0 <= i < |t.kids| - 1 :: !EndsBlock(t.kids[i]);
    }
  }

  lemma {:induction false} LiveLengthFound(ts: seq<Tree>, i: nat)
    requires i <= |ts| && forall k | 0 <= k < i :: !EndsBlock(ts[k])
    requires i < |ts| ==> EndsBlock(ts[i])
    ensures LiveLength(ts) == if i < |ts| then i + 1 else i
    decreases i
  {
    if i > 0 {
      LiveLengthFound(ts[1..], i - 1);
    }
  }

  /** The statements that leave their block, and the scopes some statement of which
      does; nothing else stops a block. */
  ghost predicate Stops(t: Tree)
    decreases t
  {
    && t.StmtTree?
    && (|| t.stmt.Return? || t.stmt.Raise? || t.stmt.Break? || t.stmt.Continue?
        || (t.stmt.Scope? && exists i | 0 <= i < |t.kids| :: Stops(t.kids[i])))
  }

  lemma {:induction false} EndsWhenStops(t: Tree)
    ensures EndsBlock(t) <==> Stops(t)
    decreases t
  {
    if t.StmtTree? && t.stmt.Scope? {
      ScopeEndsWhenSomeDoes(t);
      forall i | 0 <= i < |t.kids| ensures EndsBlock(t.kids[i]) <==> Stops(t.kids[i]) {
        EndsWhenStops(t.kids[i]);
      }
    }
  }

  /** A statement is live exactly when none before it stops the block: whatever
      follows a `return`, `raise`, `break` or `continue` is dropped, and nothing
      else is. */
  lemma {:induction false} LiveUntilStopped(ts: seq<Tree>, k: nat)
    requires k < |ts|
    ensures k < LiveLength(ts) <==> forall j | 0 <= j < k :: !Stops(ts[j])
  {
    LiveIsFirstEnding(ts);
    forall j | 0 <= j < |ts| ensures EndsBlock(ts[j]) <==> Stops(ts[j]) {
      EndsWhenStops(ts[j]);
    }
  }

  /** Whether statement node `r` ends its block. */
  method NodeEndsBlock(n: Nodes, r: Ref, ghost t: Tree) returns (ends: bool)
    requires Denotes(n, r, t)
    ensures ends == EndsBlock(t)
    decreases t, 0
  {
    if r.E? {
      return false;
    }
    match n.stmts[r.id].shape {
      case Return(_) => ends := true;
      case Raise => ends := true;
      case Break => ends := true;
      case Continue => ends := true;
      case Scope(_) =>
        var live := LiveStatements(n, n.stmts[r.id].refs, t.kids);
        if live == [] {
          return false;
        }
        ends := NodeEndsBlock(n, live[|live| - 1], t.kids[|live| - 1]);
      case _ => ends := false;
    }
  }

  /** The live prefix of the statement nodes `body`. */
  method LiveStatements(n: Nodes, body: seq<Ref>, ghost trees: seq<Tree>) returns (live: seq<Ref>)
    requires |body| == |trees| && forall k | 0 <= k < |trees| :: Denotes(n, body[k], trees[k])
    ensures live == body[..LiveLength(trees)]
    decreases trees, 1
  {
    for i := 0 to |body|
      invariant forall k | 0 <= k < i :: !EndsBlock(trees[k])
    {
      var ends := NodeEndsBlock(n, body[i], trees[i]);
      if ends {
        LiveLengthFound(trees, i);
        return body[..i + 1];
      }
    }
    LiveLengthFound(trees, |trees|);
    live := body;
  }

  // ------------------------------------------------- under any semantics

  datatype How = Returned | Raised | Broke | Continued

  /** What running a statement comes to. */
  datatype Outcome<St> = Done(st: St) | Left(how: How, st: St) | Stuck

  function RunList<St>(run: (Tree, St) -> Outcome<St>, ts: seq<Tree>, s: St): Outcome<St>
    decreases |ts|
  {
    if ts == [] then Done(s)
    else
      match run(ts[0], s)
      case Done(next) => RunList(run, ts[1..], next)
      case other => other
  }

  /** Statements that leave a block never complete normally, and a scope
      completes as its body does. */
  ghost predicate Lawful<St(!new)>(run: (Tree, St) -> Outcome<St>) {
    && (forall t: Tree, s: St | t.StmtTree? && (t.stmt.Return? || t.stmt.Raise? || t.stmt.Break? || t.stmt.Continue?) ::
          !run(t, s).Done?)
    && (forall t: Tree, s: St | t.StmtTree? && t.stmt.Scope? :: run(t, s) == RunList(run, t.kids, s))
  }

  lemma {:induction false} EndingNeverCompletes<St(!new)>(run: (Tree, St) -> Outcome<St>, t: Tree, s: St)
    requires Lawful(run) && EndsBlock(t)
    ensures !run(t, s).Done?
    decreases t, 0
  {
    if t.stmt.Scope? {
      EndedListNeverCompletes(run, t.kids, s);
    }
  }

  lemma {:induction false} EndedListNeverCompletes<St(!new)>(run: (Tree, St) -> Outcome<St>, ts: seq<Tree>, s: St)
    requires Lawful(run) && LiveLength(ts) > 0 && EndsBlock(ts[LiveLength(ts) - 1])
    ensures !RunList(run, ts, s).Done?
    decreases ts, 1
  {
    if EndsBlock(ts[0]) {
      EndingNeverCompletes(run, ts[0], s);
    } else if run(ts[0], s).Done? {
      EndedListNeverCompletes(run, ts[1..], run(ts[0], s).st);
    }
  }

  /** Running the live prefix has the outcome of running the whole list. */
  lemma {:induction false} LiveRunsTheSame<St(!new)>(run: (Tree, St) -> Outcome<St>, ts: seq<Tree>, s: St)
    requires Lawful(run)
    ensures RunList(run, Live(ts), s) == RunList(run, ts, s)
    decreases |ts|
  {
    if ts != [] {
      var live := Live(ts);
      assert live[0] == ts[0];
      if EndsBlock(ts[0]) {
        EndingNeverCompletes(run, ts[0], s);
      } else if run(ts[0], s).Done? {
        assert live[1..] == Live(ts[1..]);
        LiveRunsTheSame(run, ts[1..], run(ts[0], s).st);
      }
    }
  }

  // ------------------------------------- in every block of structured code

  datatype Choice<St> = Arm(index: nat, st: St) | NoArm(st: St) | Escapes(out: Outcome<St>)

  /** The meaning of what is not control flow: a statement's own effect, and
      which arm a branch, a case list or a loop takes. */
  datatype Sem<!St> = Sem(effect: (Tree, St) -> Outcome<St>, choose: (Tree, St) -> Choice<St>)

  function Slice(ts: seq<Tree>, at: nat, n: nat): seq<Tree> {
    if at + n <= |ts| then ts[at..at + n] else []
  }

  function BranchBody(bs: seq<BranchShape>, kids: seq<Tree>, at: nat, index: nat): Option<seq<Tree>> {
    if bs == [] then None
    else if index == 0 then Some(Slice(kids, at + ConditionArity(bs[0].condition), bs[0].body))
    else BranchBody(bs[1..], kids, at + BranchArity(bs[0]), index - 1)
  }

  function CaseBody(cs: seq<CaseShape>, kids: seq<Tree>, at: nat, index: nat): Option<seq<Tree>> {
    if cs == [] then None
    else if index == 0 then Some(Slice(kids, at + CaseArity(cs[0]) - cs[0].body, cs[0].body))
    else CaseBody(cs[1..], kids, at + CaseArity(cs[0]), index - 1)
  }

  /** The body of arm `index`, `None` past the last arm. */
  function ArmBody(t: Tree, index: nat): Option<seq<Tree>>
    requires t.StmtTree?
  {
    match t.stmt
    case If(branches, _) => BranchBody(branches, t.kids, 0, index)
    case Match(anchor, cases) => CaseBody(cases, t.kids, One(anchor), index)
    case While(condition, body, _) =>
      if index == 0 then Some(Slice(t.kids, ConditionArity(condition), body)) else None
    case For(_, body, _) => if index == 0 then Some(Slice(t.kids, 1, body)) else None
    case _ => None
  }

  /** The `else` body, empty when there is none. */
  function ElseBody(t: Tree): seq<Tree>
    requires t.StmtTree?
  {
    match t.stmt
    case If(branches, orelse) => Slice(t.kids, BranchesArity(branches), orelse)
    case While(condition, body, orelse) => Slice(t.kids, ConditionArity(condition) + body, orelse)
    case For(_, body, orelse) => Slice(t.kids, 1 + body, orelse)
    case _ => []
  }

  /** The operand is evaluated, and may itself raise, before control leaves. */
  function Leaving<St>(sem: Sem<St>, t: Tree, s: St, how: How): Outcome<St> {
    match sem.effect(t, s)
    case Done(next) => Left(how, next)
    case other => other
  }

  /** Run a statement for at most `fuel` nested steps, only the live prefix of
      each block when `live` says so. */
  function Exec<St>(sem: Sem<St>, t: Tree, s: St, live: bool, fuel: nat): Outcome<St>
    decreases fuel, 0
  {
    if fuel == 0 || t.ExprTree? then Stuck
    else
      match t.stmt
      case Return(_) => Leaving(sem, t, s, Returned)
      case Raise => Leaving(sem, t, s, Raised)
      case Break => Leaving(sem, t, s, Broke)
      case Continue => Leaving(sem, t, s, Continued)
      case Scope(_) => ExecBlock(sem, t.kids, s, live, fuel - 1)
      case If(_, _) => ExecArms(sem, t, s, live, fuel)
      case Match(_, _) => ExecArms(sem, t, s, live, fuel)
      case While(_, _, _) => ExecLoop(sem, t, s, live, fuel)
      case For(_, _, _) => ExecLoop(sem, t, s, live, fuel)
      case With(items, body) =>
        (match sem.effect(t, s)
         case Done(next) => ExecBlock(sem, Slice(t.kids, items, body), next, live, fuel - 1)
         case other => other)
      case Try(body, except, orelse, finalbody) => ExecTry(sem, t, s, live, fuel)
      case _ => sem.effect(t, s)
  }

  function ExecArms<St>(sem: Sem<St>, t: Tree, s: St, live: bool, fuel: nat): Outcome<St>
    requires fuel > 0 && t.StmtTree?
    decreases fuel - 1, 3, 0
  {
    match sem.choose(t, s)
    case Escapes(out) => out
    case NoArm(next) => ExecBlock(sem, ElseBody(t), next, live, fuel - 1)
    case Arm(index, next) =>
      match ArmBody(t, index)
      case None => Stuck
      case Some(body) => ExecBlock(sem, body, next, live, fuel - 1)
  }

  function ExecLoop<St>(sem: Sem<St>, t: Tree, s: St, live: bool, fuel: nat): Outcome<St>
    requires fuel > 0 && t.StmtTree?
    decreases fuel - 1, 3, 0
  {
    match sem.choose(t, s)
    case Escapes(out) => out
    case NoArm(next) => ExecBlock(sem, ElseBody(t), next, live, fuel - 1)
    case Arm(index, next) =>
      match ArmBody(t, index)
      case None => Stuck
      case Some(body) =>
        match ExecBlock(sem, body, next, live, fuel - 1)
        case Done(again) => Exec(sem, t, again, live, fuel - 1)
        case Left(Continued, again) => Exec(sem, t, again, live, fuel - 1)
        case Left(Broke, after) => Done(after)
        case other => other
  }

  /** A `try` body with its handler or its `else` body. */
  function ExecGuarded<St>(sem: Sem<St>, t: Tree, s: St, live: bool, fuel: nat): Outcome<St>
    requires fuel > 0 && t.StmtTree? && t.stmt.Try?
    decreases fuel - 1, 3, 0
  {
    var caught := if t.stmt.except.Some? then t.stmt.except.value.1 else 0;
    match ExecBlock(sem, Slice(t.kids, 0, t.stmt.body), s, live, fuel - 1)
    case Left(Raised, after) =>
      if t.stmt.except.Some? then ExecBlock(sem, Slice(t.kids, t.stmt.body, caught), after, live, fuel - 1)
      else Left(Raised, after)
    case Done(after) =>
      ExecBlock(sem, Slice(t.kids, t.stmt.body + caught, t.stmt.orelse), after, live, fuel - 1)
    case other => other
  }

  function FinalBody(t: Tree): seq<Tree>
    requires t.StmtTree? && t.stmt.Try?
  {
    var caught := if t.stmt.except.Some? then t.stmt.except.value.1 else 0;
    Slice(t.kids, t.stmt.body + caught + t.stmt.orelse, t.stmt.finalbody)
  }

  function ExecTry<St>(sem: Sem<St>, t: Tree, s: St, live: bool, fuel: nat): Outcome<St>
    requires fuel > 0 && t.StmtTree? && t.stmt.Try?
    decreases fuel - 1, 4, 0
  {
    match ExecGuarded(sem, t, s, live, fuel)
    case Stuck => Stuck
    case Done(after) => ExecBlock(sem, FinalBody(t), after, live, fuel - 1)
    case Left(how, after) =>
      match ExecBlock(sem, FinalBody(t), after, live, fuel - 1)
      case Done(end) => Left(how, end)
      case other => other
  }

  function ExecBlock<St>(sem: Sem<St>, ts: seq<Tree>, s: St, live: bool, fuel: nat): Outcome<St>
    decreases fuel, 2, |ts|
  {
    ExecList(sem, if live then Live(ts) else ts, s, live, fuel)
  }

  function ExecList<St>(sem: Sem<St>, ts: seq<Tree>, s: St, live: bool, fuel: nat): Outcome<St>
    decreases fuel, 1, |ts|
  {
    if ts == [] then Done(s)
    else
      match Exec(sem, ts[0], s, live, fuel)
      case Done(next) => ExecList(sem, ts[1..], next, live, fuel)
      case other => other
  }

  lemma {:induction false} EndingExecNeverCompletes<St>(sem: Sem<St>, t: Tree, s: St, fuel: nat)
    requires EndsBlock(t)
    ensures !Exec(sem, t, s, false, fuel).Done?
    decreases t, 0
  {
    if t.stmt.Scope? && fuel > 0 {
      EndedExecNeverCompletes(sem, t.kids, s, fuel - 1);
    }
  }

  lemma {:induction false} EndedExecNeverCompletes<St>(sem: Sem<St>, ts: seq<Tree>, s: St, fuel: nat)
    requires LiveLength(ts) > 0 && EndsBlock(ts[LiveLength(ts) - 1])
    ensures !ExecList(sem, ts, s, false, fuel).Done?
    decreases ts, 1
  {
    var first := Exec(sem, ts[0], s, false, fuel);
    if EndsBlock(ts[0]) {
      EndingExecNeverCompletes(sem, ts[0], s, fuel);
    } else if first.Done? {
      EndedExecNeverCompletes(sem, ts[1..], first.st, fuel);
    }
  }

  lemma {:induction false} ExecSame<St>(sem: Sem<St>, t: Tree, s: St, fuel: nat)
    ensures Exec(sem, t, s, true, fuel) == Exec(sem, t, s, false, fuel)
    decreases fuel, 0
  {
    if fuel > 0 && t.StmtTree? {
      match t.stmt
      case Scope(_) => BlockSame(sem, t.kids, s, fuel - 1);
      case If(_, _) => ArmsSame(sem, t, s, fuel);
      case Match(_, _) => ArmsSame(sem, t, s, fuel);
      case While(_, _, _) => LoopSame(sem, t, s, fuel);
      case For(_, _, _) => LoopSame(sem, t, s, fuel);
      case With(items, body) =>
        if sem.effect(t, s).Done? {
          BlockSame(sem, Slice(t.kids, items, body), sem.effect(t, s).st, fuel - 1);
        }
      case Try(_, _, _, _) => TrySame(sem, t, s, fuel);
      case _ =>
    }
  }

  lemma {:induction false} ArmsSame<St>(sem: Sem<St>, t: Tree, s: St, fuel: nat)
    requires fuel > 0 && t.StmtTree?
    ensures ExecArms(sem, t, s, true, fuel) == ExecArms(sem, t, s, false, fuel)
    decreases fuel - 1, 4
  {
    match sem.choose(t, s)
    case Escapes(_) =>
    case NoArm(next) => BlockSame(sem, ElseBody(t), next, fuel - 1);
    case Arm(index, next) =>
      if ArmBody(t, index).Some? {
        BlockSame(sem, ArmBody(t, index).value, next, fuel - 1);
      }
  }

  lemma {:induction false} LoopSame<St>(sem: Sem<St>, t: Tree, s: St, fuel: nat)
    requires fuel > 0 && t.StmtTree?
    ensures ExecLoop(sem, t, s, true, fuel) == ExecLoop(sem, t, s, false, fuel)
    decreases fuel - 1, 4
  {
    match sem.choose(t, s)
    case Escapes(_) =>
    case NoArm(next) => BlockSame(sem, ElseBody(t), next, fuel - 1);
    case Arm(index, next) =>
      if ArmBody(t, index).Some? {
        var body := ArmBody(t, index).value;
        BlockSame(sem, body, next, fuel - 1);
        match ExecBlock(sem, body, next, false, fuel - 1)
        case Done(again) => ExecSame(sem, t, again, fuel - 1);
        case Left(_, again) => ExecSame(sem, t, again, fuel - 1);
        case Stuck =>
      }
  }

  lemma {:induction false} TrySame<St>(sem: Sem<St>, t: Tree, s: St, fuel: nat)
    requires fuel > 0 && t.StmtTree? && t.stmt.Try?
    ensures ExecTry(sem, t, s, true, fuel) == ExecTry(sem, t, s, false, fuel)
    decreases fuel - 1, 4
  {
    var caught := if t.stmt.except.Some? then t.stmt.except.value.1 else 0;
    BlockSame(sem, Slice(t.kids, 0, t.stmt.body), s, fuel - 1);
    match ExecBlock(sem, Slice(t.kids, 0, t.stmt.body), s, false, fuel - 1) {
      case Left(_, after) => BlockSame(sem, Slice(t.kids, t.stmt.body, caught), after, fuel - 1);
      case Done(after) => BlockSame(sem, Slice(t.kids, t.stmt.body + caught, t.stmt.orelse), after, fuel - 1);
      case Stuck =>
    }
    match ExecGuarded(sem, t, s, false, fuel) {
      case Left(_, after) => BlockSame(sem, FinalBody(t), after, fuel - 1);
      case Done(after) => BlockSame(sem, FinalBody(t), after, fuel - 1);
      case Stuck =>
    }
  }

  lemma {:induction false} ListSame<St>(sem: Sem<St>, ts: seq<Tree>, s: St, fuel: nat)
    ensures ExecList(sem, ts, s, true, fuel) == ExecList(sem, ts, s, false, fuel)
    decreases fuel, 2, |ts|
  {
    if ts != [] {
      ExecSame(sem, ts[0], s, fuel);
      var first := Exec(sem, ts[0], s, false, fuel);
      if first.Done? {
        ListSame(sem, ts[1..], first.st, fuel);
      }
    }
  }

  lemma {:induction false} LiveListSame<St>(sem: Sem<St>, ts: seq<Tree>, s: St, fuel: nat)
    ensures ExecList(sem, Live(ts), s, false, fuel) == ExecList(sem, ts, s, false, fuel)
    decreases |ts|
  {
    if ts != [] {
      var live := Live(ts);
      assert live[0] == ts[0];
      var first := Exec(sem, ts[0], s, false, fuel);
      if EndsBlock(ts[0]) {
        EndingExecNeverCompletes(sem, ts[0], s, fuel);
      } else if first.Done? {
        assert live[1..] == Live(ts[1..]);
        LiveListSame(sem, ts[1..], first.st, fuel);
      }
    }
  }

  /** Erasing the dead tail of every block, at any depth inside branches, loops,
      `try` statements and scopes, changes no run's outcome. */
  lemma {:induction false} BlockSame<St>(sem: Sem<St>, ts: seq<Tree>, s: St, fuel: nat)
    ensures ExecBlock(sem, ts, s, true, fuel) == ExecBlock(sem, ts, s, false, fuel)
    decreases fuel, 3
  {
    ListSame(sem, Live(ts), s, fuel);
    LiveListSame(sem, ts, s, fuel);
  }
}
