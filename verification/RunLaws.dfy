/**
 * What holds of whole runs: how each start ends, what is given up holds back,
 * which entries a run can start, and how often.
 */
module RunLaws {
  import opened Prelude
  import opened Roadmap
  import opened Scheduler
  import opened RunLoop

  // --------------------------------------------------------- how a start ends

  /** The session left `id` open with an open prerequisite it had not before. */
  ghost predicate Gains(rm: Entries, after: Entries, id: nat) {
    && id in OpenIds(after)
    && exists d <- GraphOf(after)[id] :: id in OpenIds(rm) ==> d !in GraphOf(rm)[id]
  }

  /** Every session did its part, and the smoke check passes. */
  predicate Clean(turn: Turn) {
    !turn.planFailed && turn.ok && !turn.smokeFailed
  }

  /** The turn left `id` off the roadmap. */
  ghost predicate Lands(id: nat, turn: Turn) {
    Clean(turn) && id !in OpenIds(turn.executed)
  }

  /** A session failed, or left `id` open with no new prerequisite, or with some
      once too often or under `--only`. */
  ghost predicate Fails(l: Loop, id: nat, turn: Turn, scope: Scope) {
    || turn.planFailed || !turn.ok || turn.smokeFailed
    || (id in OpenIds(turn.executed)
        && (!Gains(l.rm, turn.executed, id) || scope.Only? || SplitsOf(l, id) >= MAX_SPLITS))
  }

  /** The turn left `id` waiting on new work, which the run may still do. */
  ghost predicate Divides(l: Loop, id: nat, turn: Turn, scope: Scope) {
    Clean(turn) && Gains(l.rm, turn.executed, id) && !scope.Only? && SplitsOf(l, id) < MAX_SPLITS
  }

  /** An entry is given up when its turn fails, finished with when it lands, and
      started again when it was divided; the run goes on with the roadmap left. */
  ghost predicate Ends(l: Loop, id: nat, turn: Turn, next: Loop, scope: Scope) {
    && id !in l.done && next.rm == turn.left
    && (Fails(l, id, turn, scope) ==>
          && next.done == l.done + {id} && next.troubled == l.troubled + {id}
          && next.splits == l.splits && next.window == l.window)
    && (Lands(id, turn) ==>
          && next.done == l.done + {id} && next.troubled == l.troubled
          && next.splits == l.splits && next.window == l.window)
    && (Divides(l, id, turn, scope) ==>
          && next.done == l.done && next.troubled == l.troubled
          && next.splits == l.splits[id := SplitsOf(l, id) + 1]
          && (l.window.None? ==> next.window.None?)
          && (l.window.Some? ==> next.window == Some(l.window.value + turn.grown)))
  }

  lemma {:induction false} GainsNewPrerequisites(l: Loop, id: nat, turn: Turn)
    ensures !turn.planFailed && turn.ok && id in OpenIds(turn.executed) ==>
      (SplitInto(l, id, turn) != {} <==> Gains(l.rm, turn.executed, id))
  {
    if !turn.planFailed && turn.ok && id in OpenIds(turn.executed) {
      var gained := SplitInto(l, id, turn);
      assert forall d :: d in OpenPrerequisites(turn.executed, id) <==> d in GraphOf(turn.executed)[id];
      assert id in OpenIds(l.rm) ==> forall d :: d in OpenPrerequisites(l.rm, id) <==> d in GraphOf(l.rm)[id];
      if Gains(l.rm, turn.executed, id) {
        var d :| d in GraphOf(turn.executed)[id] && (id in OpenIds(l.rm) ==> d !in GraphOf(l.rm)[id]);
        assert d in gained;
      }
      if gained != {} {
        var d :| d in gained;
        assert d in GraphOf(turn.executed)[id];
      }
    }
  }

  lemma {:induction false} StartIsNew(l: Loop, id: nat, turn: Turn, next: Loop, scope: Scope)
    requires Steps(l, id, turn, next, scope)
    ensures id !in l.done && id in InRange(l, scope) && id !in HeldBack(l.rm, l.troubled)
  {
    var tasks := Pending(l, scope);
    assert tasks[0] in tasks;
  }

  lemma {:induction false} JudgeIs(l: Loop, id: nat, turn: Turn, scope: Scope)
    ensures Judge(l, id, turn, scope).GaveUp? <==> Fails(l, id, turn, scope)
    ensures Judge(l, id, turn, scope).Landed? <==> Lands(id, turn)
    ensures Judge(l, id, turn, scope).Split? <==> Divides(l, id, turn, scope)
  {
    GainsNewPrerequisites(l, id, turn);
    var open, gains := id in OpenIds(turn.executed), Gains(l.rm, turn.executed, id);
    assert gains ==> open;
    if !turn.planFailed && turn.ok {
      assert SplitInto(l, id, turn) != {} <==> gains;
    }
  }

  /** Each start ends in just one of the three ways. */
  lemma {:induction false} StepEnds(l: Loop, id: nat, turn: Turn, next: Loop, scope: Scope)
    requires Steps(l, id, turn, next, scope)
    ensures Ends(l, id, turn, next, scope)
    ensures Fails(l, id, turn, scope) <==> !Lands(id, turn) && !Divides(l, id, turn, scope)
    ensures !(Lands(id, turn) && Divides(l, id, turn, scope))
  {
    StartIsNew(l, id, turn, next, scope);
    JudgeIs(l, id, turn, scope);
  }

  /** The starts of a run and how they end. */
  ghost predicate AllEnd(states: seq<Loop>, starts: seq<nat>, turns: seq<Turn>, scope: Scope) {
    && |states| == |starts| + 1 && |starts| <= |turns|
    && forall k | 0 <= k < |starts| :: Ends(states[k], starts[k], turns[k], states[k + 1], scope)
  }

  lemma {:induction false} RunEnds(states: seq<Loop>, starts: seq<nat>, turns: seq<Turn>, scope: Scope)
    requires Run(states, starts, turns, scope)
    ensures AllEnd(states, starts, turns, scope)
  {
    forall k | 0 <= k < |starts| ensures Ends(states[k], starts[k], turns[k], states[k + 1], scope) {
      StepEnds(states[k], starts[k], turns[k], states[k + 1], scope);
    }
  }

  ghost predicate FailedAt(states: seq<Loop>, starts: seq<nat>, turns: seq<Turn>, scope: Scope, k: nat, id: nat)
    requires k < |starts| <= |turns| && k < |states|
  {
    starts[k] == id && Fails(states[k], id, turns[k], scope)
  }

  ghost predicate LandedAt(starts: seq<nat>, turns: seq<Turn>, k: nat, id: nat)
    requires k < |starts| <= |turns|
  {
    starts[k] == id && Lands(id, turns[k])
  }

  /** The entries given up are those whose turn failed, and the ones finished with
      those and the ones that landed. */
  lemma {:induction false} RunBooks(states: seq<Loop>, starts: seq<nat>, turns: seq<Turn>, scope: Scope,
                                    m: nat, id: nat)
    requires AllEnd(states, starts, turns, scope) && m <= |starts|
    requires states[0] == Begin(states[0].rm, states[0].window)
    ensures id in states[m].troubled
       <==> exists k | 0 <= k < m :: FailedAt(states, starts, turns, scope, k, id)
    ensures id in states[m].done
       <==> exists k | 0 <= k < m :: FailedAt(states, starts, turns, scope, k, id) || LandedAt(starts, turns, k, id)
    ensures states[0].window.None? ==> states[m].window.None?
    decreases m
  {
    if m > 0 {
      var k := m - 1;
      RunBooks(states, starts, turns, scope, k, id);
      assert Ends(states[k], starts[k], turns[k], states[k + 1], scope);
      assert FailedAt(states, starts, turns, scope, k, id) || !FailedAt(states, starts, turns, scope, k, id);
      assert LandedAt(starts, turns, k, id) || !LandedAt(starts, turns, k, id);
    }
  }

  // --------------------------------------------------------- how often

  /** Every start of `id` is a division of it, or the one that ended it. */
  ghost predicate Accounted(l: Loop, starts: seq<nat>, id: nat) {
    && SplitsOf(l, id) <= MAX_SPLITS
    && Count(starts, id) == SplitsOf(l, id) + if id in l.done then 1 else 0
  }

  lemma {:induction false} StepAccounts(l: Loop, first: nat, turn: Turn, next: Loop, scope: Scope, starts: seq<nat>,
                                        id: nat)
    requires Ends(l, first, turn, next, scope) && Accounted(l, starts, id)
    ensures Accounted(next, starts + [first], id)
  {
    CountConcat(starts, [first], id);
    assert Fails(l, first, turn, scope) || Lands(first, turn) || Divides(l, first, turn, scope);
  }

  lemma {:induction false} RunAccounts(states: seq<Loop>, starts: seq<nat>, turns: seq<Turn>, scope: Scope,
                                       id: nat, n: nat)
    requires AllEnd(states, starts, turns, scope) && n <= |starts| && Accounted(states[0], [], id)
    ensures Accounted(states[n], starts[..n], id)
    decreases n
  {
    if n > 0 {
      var k := n - 1;
      RunAccounts(states, starts, turns, scope, id, k);
      assert Ends(states[k], starts[k], turns[k], states[k + 1], scope);
      StepAccounts(states[k], starts[k], turns[k], states[n], scope, starts[..k], id);
      assert starts[..n] == starts[..k] + [starts[k]];
    }
  }

  /** Whatever the sessions, the scope and the window, a run starts an entry at
      most `MAX_SPLITS + 1` times. */
  lemma {:induction false} RunStartsBounded(states: seq<Loop>, starts: seq<nat>, turns: seq<Turn>, scope: Scope,
                                            id: nat, n: nat)
    requires Run(states, starts, turns, scope) && n <= |starts|
    requires states[0] == Begin(states[0].rm, states[0].window)
    ensures Accounted(states[n], starts[..n], id)
    ensures Count(starts[..n], id) <= MAX_SPLITS + 1
  {
    RunEnds(states, starts, turns, scope);
    RunAccounts(states, starts, turns, scope, id, n);
  }

  // --------------------------------------------------------- which entries

  /** The entries the options ask for: those named, or those some entry of the
      track, some named one, or any is or waits on, but standing ones. */
  ghost predicate Serves(scope: Scope, rm: Entries, v: nat) {
    match scope
    case All => v !in StandingIds(rm) && exists e <- rm :: !e.checked && Reaches(GraphOf(rm), e.id, v)
    case OfTrack(track) =>
      v !in StandingIds(rm) && exists e <- rm :: !e.checked && e.track == track && Reaches(GraphOf(rm), e.id, v)
    case Tasks(ids) =>
      v !in StandingIds(rm) && exists e <- rm :: !e.checked && e.id in ids && Reaches(GraphOf(rm), e.id, v)
    case Only(ids) => v in ids && v in OpenIds(rm)
  }

  lemma {:induction false} RootsAreScoped(rm: Entries, scope: Scope, t: nat)
    ensures t in AllRoots(rm, Scoped(scope, Open(rm)))
       <==> exists e <- rm :: !e.checked && InScope(scope, e) && e.id == t
  {
  }

  lemma {:induction false} RootsReach(rm: Entries, scope: Scope, v: nat)
    ensures (exists t <- AllRoots(rm, Scoped(scope, Open(rm))) :: Reaches(GraphOf(rm), t, v))
       <==> exists e <- rm :: !e.checked && InScope(scope, e) && Reaches(GraphOf(rm), e.id, v)
  {
    var g, roots := GraphOf(rm), AllRoots(rm, Scoped(scope, Open(rm)));
    if t :| t in roots && Reaches(g, t, v) {
      RootsAreScoped(rm, scope, t);
    }
    if e :| e in rm && !e.checked && InScope(scope, e) && Reaches(g, e.id, v) {
      RootsAreScoped(rm, scope, e.id);
    }
  }

  /** A run's order lists just the entries its options ask for. */
  lemma {:induction false} OrderServes(rm: Entries, scope: Scope, v: nat)
    ensures v in RunOrder(rm, scope) <==> Serves(scope, rm, v)
  {
    if scope.Only? {
      RootsAreScoped(rm, scope, v);
    } else {
      WorkOrderIsRight(rm, AllRoots(rm, Scoped(scope, Open(rm))));
      RootsReach(rm, scope, v);
    }
  }

  /** A run starts only entries its options ask for, kept to its range. */
  lemma {:induction false} RunStartsAskedFor(states: seq<Loop>, starts: seq<nat>, turns: seq<Turn>, scope: Scope,
                                             k: nat)
    requires Run(states, starts, turns, scope) && k < |starts|
    ensures Serves(scope, states[k].rm, starts[k])
    ensures states[k].window.Some? ==> starts[k] in states[k].window.value
  {
    StartIsNew(states[k], starts[k], turns[k], states[k + 1], scope);
    OrderServes(states[k].rm, scope, starts[k]);
  }

  // ------------------------------------------------------- what waits on what

  /** Of the entries listed, those pending are the ones neither finished with nor,
      but for standing ones, waiting on one given up. */
  lemma {:induction false} PendingAre(l: Loop, scope: Scope, v: nat)
    requires Acyclic(GraphOf(l.rm)) && v in InRange(l, scope) && v !in StandingIds(l.rm)
    ensures v in Pending(l, scope)
       <==> v !in l.done && forall t <- l.troubled :: !WaitsOn(GraphOf(l.rm), StandingIds(l.rm), v, t)
  {
    PendingIsOpen(l, scope, v);
    HeldBackMarksExactly(l.rm, l.troubled, v);
    var blockers := Blockers(GraphOf(l.rm), StandingIds(l.rm), l.troubled, v);
    assert forall t :: t in blockers <==> t in l.troubled && WaitsOn(GraphOf(l.rm), StandingIds(l.rm), v, t);
  }

  /** Once the turn of an entry has failed, the run starts neither it again nor,
      standing entries apart, any that waits on it through open entries that are
      not standing, however the sessions rewrite the roadmap. */
  lemma {:induction false} GivenUpHoldsBack(states: seq<Loop>, starts: seq<nat>, turns: seq<Turn>, scope: Scope,
                                            k: nat, m: nat)
    requires Run(states, starts, turns, scope) && states[0] == Begin(states[0].rm, states[0].window)
    requires k < m < |starts| && Fails(states[k], starts[k], turns[k], scope)
    requires Acyclic(GraphOf(states[m].rm))
    ensures starts[m] != starts[k]
    ensures !scope.Only? ==> starts[m] !in StandingIds(states[m].rm)
    ensures starts[m] !in StandingIds(states[m].rm) ==>
      !WaitsOn(GraphOf(states[m].rm), StandingIds(states[m].rm), starts[m], starts[k])
  {
    RunEnds(states, starts, turns, scope);
    RunBooks(states, starts, turns, scope, m, starts[k]);
    assert FailedAt(states, starts, turns, scope, k, starts[k]);
    var l := states[m];
    StartIsNew(l, starts[m], turns[m], states[m + 1], scope);
    PendingIsOpen(l, scope, starts[m]);
    if starts[m] !in StandingIds(l.rm) {
      HeldBackMarksExactly(l.rm, l.troubled, starts[m]);
      assert starts[k] !in Blockers(GraphOf(l.rm), StandingIds(l.rm), l.troubled, starts[m]);
    }
  }

  /** The roadmap is acyclic whenever the loop reads it to start an entry, and no
      session reopens an entry whose turn landed it. */
  ghost predicate FaithfulSessions(states: seq<Loop>, starts: seq<nat>, turns: seq<Turn>)
    requires |starts| <= |turns| && |starts| <= |states|
  {
    && (forall k | 0 <= k < |states| :: Acyclic(GraphOf(states[k].rm)))
    && (forall k, m | 0 <= k < |starts| && k < m < |states| ::
          Lands(starts[k], turns[k]) ==> starts[k] !in OpenIds(states[m].rm))
  }

  lemma {:induction false} FaithfulStayLanded(states: seq<Loop>, starts: seq<nat>, turns: seq<Turn>, scope: Scope,
                                              m: nat)
    requires Run(states, starts, turns, scope) && states[0] == Begin(states[0].rm, states[0].window)
    requires FaithfulSessions(states, starts, turns) && m <= |starts|
    ensures LandedStayLanded(states[m]) && states[m].troubled <= states[m].done
  {
    RunEnds(states, starts, turns, scope);
    forall id <- states[m].done ensures id in states[m].troubled || id !in OpenIds(states[m].rm) {
      RunBooks(states, starts, turns, scope, m, id);
      if id !in states[m].troubled {
        var k :| 0 <= k < m && (FailedAt(states, starts, turns, scope, k, id) || LandedAt(starts, turns, k, id));
        assert LandedAt(starts, turns, k, id);
      }
    }
    forall id <- states[m].troubled ensures id in states[m].done {
      RunBooks(states, starts, turns, scope, m, id);
    }
  }

  /** However the sessions rewrite the roadmap between turns, and whatever the
      scope and the range, an entry is started with no open prerequisite that is
      not standing exactly when it is listed after those it has. */
  lemma {:induction false} RunStartsFree(states: seq<Loop>, starts: seq<nat>, turns: seq<Turn>, scope: Scope, k: nat)
    requires Run(states, starts, turns, scope) && states[0] == Begin(states[0].rm, states[0].window)
    requires FaithfulSessions(states, starts, turns) && k < |starts|
    ensures Free(states[k].rm, starts[k])
       <==> ListedAfterPrerequisites(states[k].rm, InRange(states[k], scope), starts[k])
  {
    FaithfulStayLanded(states, starts, turns, scope, k);
    assert Steps(states[k], starts[k], turns[k], states[k + 1], scope);
    FirstPendingIsFree(states[k], scope);
  }

  /** Without `--only`, an entry is started with no open prerequisite that is not
      standing exactly when the range, if there is one, leaves out no such
      prerequisite; with no range, always. */
  lemma {:induction false} RunNeverStartsWaiting(states: seq<Loop>, starts: seq<nat>, turns: seq<Turn>, scope: Scope,
                                                 k: nat)
    requires Run(states, starts, turns, scope) && states[0] == Begin(states[0].rm, states[0].window)
    requires FaithfulSessions(states, starts, turns) && !scope.Only? && k < |starts|
    ensures starts[k] in GraphOf(states[k].rm)
    ensures var l := states[k];
      Free(l.rm, starts[k]) <==>
      (l.window.Some? ==> forall d <- GraphOf(l.rm)[starts[k]] :: d in StandingIds(l.rm) || d in l.window.value)
    ensures states[0].window.None? ==> Free(states[k].rm, starts[k])
  {
    RunEnds(states, starts, turns, scope);
    RunBooks(states, starts, turns, scope, k, 0);
    StartIsNew(states[k], starts[k], turns[k], states[k + 1], scope);
    PendingIsOpen(states[k], scope, starts[k]);
    RangeHoldsPrerequisites(states[k], scope, starts[k]);
    RunStartsFree(states, starts, turns, scope, k);
  }
}
