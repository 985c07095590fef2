/**
 * The run loop: it starts the first pending entry, judges the roadmap its
 * sessions leave, and goes on. Sessions are the environment; each may rewrite
 * the roadmap.
 */
module RunLoop {
  import opened Prelude
  import opened Roadmap
  import opened Scheduler
  import opened RoadmapPasses

  const MAX_SPLITS: nat := 3

  /** The entries a run is for. */
  datatype Scope = All | OfTrack(track: Slug) | Tasks(ids: set<nat>) | Only(ids: set<nat>)

  predicate InScope(scope: Scope, e: Entry) {
    match scope
    case All => true
    case OfTrack(track) => e.track == track
    case Tasks(ids) => e.id in ids
    case Only(ids) => e.id in ids
  }

  function Scoped(scope: Scope, open: Entries): (r: Entries)
    ensures forall e :: e in r <==> e in open && InScope(scope, e)
  {
    if open == [] then []
    else
      assert open == [open[0]] + open[1..];
      (if InScope(scope, open[0]) then [open[0]] else []) + Scoped(scope, open[1..])
  }

  /** The run's entries in order: the work order under its roots, or exactly the
      named ones. */
  function RunOrder(rm: Entries, scope: Scope): seq<nat> {
    var roots := AllRoots(rm, Scoped(scope, Open(rm)));
    if scope.Only? then roots else WorkOrder(rm, roots)
  }

  /** What the loop has done: entries finished or given up on, the ones given up
      on, and how often each was split; and the `--start`/`--until` range it is
      kept to, if any. */
  datatype Loop = Loop(rm: Entries, done: set<nat>, troubled: set<nat>, splits: map<nat, nat>, window: Option<set<nat>>)

  function SplitsOf(l: Loop, id: nat): nat {
    if id in l.splits then l.splits[id] else 0
  }

  /** The run's entries in order, kept to the range. */
  function InRange(l: Loop, scope: Scope): seq<nat> {
    var order := RunOrder(l.rm, scope);
    match l.window
    case None => order
    case Some(ids) => Without(order, (set v | v in order) - ids)
  }

  /** The entries still to start. */
  function Pending(l: Loop, scope: Scope): seq<nat> {
    Without(InRange(l, scope), l.done + HeldBack(l.rm, l.troubled).Keys)
  }

  /** One turn of the loop: whether its plan pass failed, the roadmap its execute
      session left and whether it succeeded, whether the smoke check fails after
      its repairs, the roadmap when the turn is over, and what a split in the turn
      adds to the range: the work order of the entries it was split into. */
  datatype Turn =
    Turn(planFailed: bool, executed: Entries, ok: bool, smokeFailed: bool, left: Entries, grown: set<nat>)

  datatype Verdict = Landed | Split | GaveUp

  function OpenPrerequisites(rm: Entries, id: nat): set<nat> {
    if id in OpenIds(rm) then set d | d in Prerequisites(rm, Named(rm, id)) else {}
  }

  /** The new open prerequisites the session left its entry with. */
  function SplitInto(l: Loop, id: nat, turn: Turn): set<nat> {
    if !turn.planFailed && turn.ok && id in OpenIds(turn.executed)
    then OpenPrerequisites(turn.executed, id) - OpenPrerequisites(l.rm, id)
    else {}
  }

  function Judge(l: Loop, id: nat, turn: Turn, scope: Scope): Verdict {
    var split := SplitInto(l, id, turn);
    var stuck := turn.ok && id in OpenIds(turn.executed) && split == {};
    if turn.planFailed || !turn.ok || stuck || turn.smokeFailed then GaveUp
    else if split != {} && (scope.Only? || SplitsOf(l, id) >= MAX_SPLITS) then GaveUp
    else if split != {} then Split
    else Landed
  }

  function Widened(window: Option<set<nat>>, grown: set<nat>): Option<set<nat>> {
    match window
    case None => None
    case Some(ids) => Some(ids + grown)
  }

  function Booked(l: Loop, id: nat, turn: Turn, verdict: Verdict): Loop {
    match verdict
    case GaveUp => l.(rm := turn.left, done := l.done + {id}, troubled := l.troubled + {id})
    case Split =>
      l.(rm := turn.left, splits := l.splits[id := SplitsOf(l, id) + 1], window := Widened(l.window, turn.grown))
    case Landed => l.(rm := turn.left, done := l.done + {id})
  }

  function After(l: Loop, id: nat, turn: Turn, scope: Scope): Loop {
    Booked(l, id, turn, Judge(l, id, turn, scope))
  }

  /** The loop starts `id`, the first pending entry, and the turn is `turn`. */
  predicate Steps(l: Loop, id: nat, turn: Turn, next: Loop, scope: Scope) {
    && Pending(l, scope) != []
    && id == Pending(l, scope)[0]
    && next == After(l, id, turn, scope)
  }

  /** A run: the entries it starts, and the states it goes through. */
  ghost predicate Run(states: seq<Loop>, starts: seq<nat>, turns: seq<Turn>, scope: Scope) {
    && |states| == |starts| + 1 && |starts| <= |turns|
    && forall k | 0 <= k < |starts| :: Steps(states[k], starts[k], turns[k], states[k + 1], scope)
  }

  lemma {:induction false} RunGrows(states: seq<Loop>, starts: seq<nat>, turns: seq<Turn>, scope: Scope,
                                    id: nat, next: Loop, k: nat)
    requires Run(states, starts, turns, scope) && |starts| < |turns|
    requires Steps(states[|starts|], id, turns[|starts|], next, scope)
    requires k <= |starts|
    ensures Steps((states + [next])[k], (starts + [id])[k], turns[k], (states + [next])[k + 1], scope)
  {
    if k < |starts| {
      assert Steps(states[k], starts[k], turns[k], states[k + 1], scope);
    }
  }

  function Begin(rm: Entries, window: Option<set<nat>>): Loop {
    Loop(rm, {}, {}, map[], window)
  }

  // ---------------------------------------------------------------- safety

  /** No entry that landed is open. */
  ghost predicate LandedStayLanded(l: Loop) {
    forall id <- l.done :: id in l.troubled || id !in OpenIds(l.rm)
  }

  /** `id` has no open prerequisite that is not standing. */
  ghost predicate Free(rm: Entries, id: nat) {
    id in GraphOf(rm) && forall d <- GraphOf(rm)[id] :: d in StandingIds(rm)
  }

  /** Each open prerequisite of `id` is standing, or listed before it; a standing
      entry, which the list can hold under `--only` alone, waits on none listed. */
  ghost predicate ListedAfterPrerequisites(rm: Entries, listed: seq<nat>, id: nat) {
    && id in GraphOf(rm) && id in listed
    && forall d <- GraphOf(rm)[id] ::
         d in StandingIds(rm) || (id !in StandingIds(rm) && d in listed[..Index(listed, id)])
  }

  lemma {:induction false} IndexInPrefix(order: seq<nat>, n: nat, v: nat)
    requires n <= |order| && v in order[..n]
    ensures v in order && Index(order, v) == Index(order[..n], v)
    ensures order[..Index(order, v)] == order[..n][..Index(order[..n], v)]
  {
    var i := Index(order[..n], v);
    assert order[i] == v && order[..n][..i] == order[..i];
    assert v !in order[..n][..i];
  }

  /** What `Without` skips before the first element it keeps was to be dropped. */
  lemma {:induction false} FirstKept(order: seq<nat>, drop: set<nat>)
    requires Without(order, drop) != []
    ensures var first := Without(order, drop)[0];
      first in order && first !in drop && forall v <- order[..Index(order, first)] :: v in drop
    decreases |order|
  {
    var n := |order| - 1;
    var init := order[..n];
    var first := Without(order, drop)[0];
    assert first in Without(order, drop);
    if Without(init, drop) != [] {
      FirstKept(init, drop);
      IndexInPrefix(order, n, first);
    } else {
      forall v <- init ensures v in drop {
        assert v in drop || v in Without(init, drop);
      }
      assert first == order[n];
      assert Index(order, first) <= n;
    }
  }

  lemma {:induction false} PendingIsOpen(l: Loop, scope: Scope, id: nat)
    requires id in InRange(l, scope)
    ensures id in GraphOf(l.rm) && (!scope.Only? ==> id !in StandingIds(l.rm))
  {
    var roots := AllRoots(l.rm, Scoped(scope, Open(l.rm)));
    assert id in RunOrder(l.rm, scope);
    WorkOrderWithin(l.rm, roots);
    assert Within(GraphOf(l.rm), RunOrder(l.rm, scope));
  }

  /** An entry one of whose open prerequisites is finished with or held back is
      itself held back. */
  lemma {:induction false} PrerequisiteBlocks(l: Loop, e: nat, d: nat)
    requires Acyclic(GraphOf(l.rm)) && LandedStayLanded(l) && l.troubled <= l.done
    requires e in GraphOf(l.rm) && e !in StandingIds(l.rm)
    requires d in GraphOf(l.rm)[e] && d !in StandingIds(l.rm)
    requires d in l.done + HeldBack(l.rm, l.troubled).Keys
    ensures e in HeldBack(l.rm, l.troubled)
  {
    var g, standing := GraphOf(l.rm), StandingIds(l.rm);
    var i :| 0 <= i < |g[e]| && g[e][i] == d;
    assert d in g;
    HeldBackMarksExactly(l.rm, l.troubled, d);
    HeldBackMarksExactly(l.rm, l.troubled, e);
    var blockers := Blockers(g, standing, l.troubled, d);
    if d in l.done {
      assert d in blockers;
    }
    var t :| t in blockers;
    WaitsOnStep(g, standing, e, d, t);
    assert t in Blockers(g, standing, l.troubled, e);
  }

  /** Whatever the scope and the range, the first pending entry has no open
      prerequisite that is not standing exactly when it is listed after those it
      has. */
  lemma {:induction false} FirstPendingIsFree(l: Loop, scope: Scope)
    requires Acyclic(GraphOf(l.rm)) && LandedStayLanded(l) && l.troubled <= l.done
    requires Pending(l, scope) != []
    ensures var first := Pending(l, scope)[0];
      Free(l.rm, first) <==> ListedAfterPrerequisites(l.rm, InRange(l, scope), first)
  {
    var listed := InRange(l, scope);
    var skip := l.done + HeldBack(l.rm, l.troubled).Keys;
    FirstKept(listed, skip);
    var first := Pending(l, scope)[0];
    PendingIsOpen(l, scope, first);
    forall d <- GraphOf(l.rm)[first] | first !in StandingIds(l.rm)
      ensures d in StandingIds(l.rm) || d !in listed[..Index(listed, first)]
    {
      if d !in StandingIds(l.rm) && d in skip {
        PrerequisiteBlocks(l, first, d);
      }
    }
  }

  lemma {:induction false} WithoutKeepsOrder(order: seq<nat>, drop: set<nat>, id: nat, d: nat)
    requires id in order && id !in drop && d in order[..Index(order, id)]
    ensures id in Without(order, drop)
    ensures d in Without(order, drop)[..Index(Without(order, drop), id)] <==> d !in drop
    decreases |order|
  {
    var n := |order| - 1;
    var init, kept := order[..n], Without(order, drop);
    if id in init {
      IndexInPrefix(order, n, id);
      WithoutKeepsOrder(init, drop, id, d);
      assert kept[..|Without(init, drop)|] == Without(init, drop);
      IndexInPrefix(kept, |Without(init, drop)|, id);
    } else {
      assert id == order[n] && Index(order, id) <= n;
      assert id !in Without(init, drop) && kept == Without(init, drop) + [id];
      assert Index(kept, id) == |Without(init, drop)|;
      assert order[..Index(order, id)] == init by {
        assert order[Index(order, id)] == id && forall k | 0 <= k < n :: order[k] in init;
      }
      assert kept[..Index(kept, id)] == Without(init, drop);
    }
  }

  /** Without `--only`, an entry is listed after its open prerequisites exactly
      when a range, if there is one, leaves out none that is not standing. */
  lemma {:induction false} RangeHoldsPrerequisites(l: Loop, scope: Scope, id: nat)
    requires Acyclic(GraphOf(l.rm)) && !scope.Only? && id in InRange(l, scope)
    ensures id in GraphOf(l.rm)
    ensures ListedAfterPrerequisites(l.rm, InRange(l, scope), id)
       <==> (l.window.Some? ==> forall d <- GraphOf(l.rm)[id] :: d in StandingIds(l.rm) || d in l.window.value)
  {
    var g, standing, order := GraphOf(l.rm), StandingIds(l.rm), RunOrder(l.rm, scope);
    PendingIsOpen(l, scope, id);
    WorkOrderIsRight(l.rm, AllRoots(l.rm, Scoped(scope, Open(l.rm))));
    assert id in order;
    assert Placed(g, standing, order, Index(order, id));
    if l.window.Some? {
      var drop := (set v | v in order) - l.window.value;
      forall d <- g[id] | d !in standing
        ensures d in InRange(l, scope)[..Index(InRange(l, scope), id)] <==> d in l.window.value
      {
        assert d in order[..Index(order, id)];
        assert d in order;
        WithoutKeepsOrder(order, drop, id, d);
      }
    }
  }

  // -------------------------------------------- why the conditions are needed

  lemma {:induction false} NothingMarked(g: Graph, order: seq<nat>)
    requires Within(g, order)
    ensures HeldBackIn(g, order, Troubled({})) == map[]
    decreases |order|
  {
    if order != [] {
      NothingMarked(g, order[..|order| - 1]);
    }
  }

  lemma {:induction false} NothingHeld(rm: Entries)
    ensures HeldBack(rm, {}).Keys == {}
  {
    var order := WorkOrder(rm, AllRoots(rm, Open(rm)));
    WorkOrderWithin(rm, AllRoots(rm, Open(rm)));
    NothingMarked(GraphOf(rm), order);
  }

  /** At the start nothing is finished with or held back. */
  lemma {:induction false} AllPendingAtFirst(rm: Entries, window: Option<set<nat>>, scope: Scope)
    ensures forall v :: v in Pending(Begin(rm, window), scope) <==> v in InRange(Begin(rm, window), scope)
  {
    NothingHeld(rm);
  }

  /** `id` is the first of `tasks`, which names no other. */
  predicate OnlyTask(tasks: seq<nat>, id: nat) {
    tasks != [] && tasks[0] == id && forall v <- tasks :: v == id
  }

  lemma {:induction false} IsOnlyTask(tasks: seq<nat>, id: nat)
    requires forall v :: v in tasks <==> v == id
    ensures OnlyTask(tasks, id)
  {
    assert id in tasks && tasks[0] in tasks;
  }

  /** `--only` starts the entry it names, and so one with an open prerequisite
      `d` that is not standing. */
  lemma {:induction false} OnlyStartsRegardless(rm: Entries, id: nat, d: nat)
    requires id in OpenIds(rm)
    ensures OnlyTask(Pending(Begin(rm, None), Only({id})), id)
    ensures d in GraphOf(rm)[id] && d !in StandingIds(rm) ==> !Free(rm, id)
  {
    var l := Begin(rm, None);
    AllPendingAtFirst(rm, None, Only({id}));
    assert Named(rm, id) in Scoped(Only({id}), Open(rm));
    assert forall v :: v in InRange(l, Only({id})) <==> v == id;
    IsOnlyTask(Pending(l, Only({id})), id);
  }

  lemma {:induction false} AllListed(rm: Entries, id: nat)
    requires id in OpenIds(rm) && id !in StandingIds(rm)
    ensures id in RunOrder(rm, All)
  {
    var roots := AllRoots(rm, Scoped(All, Open(rm)));
    assert Named(rm, id) in Scoped(All, Open(rm));
    assert id in roots;
    ReachesSelf(GraphOf(rm), id);
    WorkOrderIsRight(rm, roots);
  }

  /** A range of one entry starts it likewise. */
  lemma {:induction false} RangeStartsRegardless(rm: Entries, id: nat, d: nat)
    requires id in OpenIds(rm) && id !in StandingIds(rm)
    ensures OnlyTask(Pending(Begin(rm, Some({id})), All), id)
    ensures d in GraphOf(rm)[id] && d !in StandingIds(rm) ==> !Free(rm, id)
  {
    AllPendingAtFirst(rm, Some({id}), All);
    AllListed(rm, id);
    IsOnlyTask(Pending(Begin(rm, Some({id})), All), id);
  }

  /** An entry and one that depends on it. */
  const CHAIN: Entries := [
    Entry(1, Slug("track"), false, false, [], false),
    Entry(2, Slug("track"), false, false, [1], false)]

  lemma {:induction false} ChainWaits()
    ensures 1 in OpenIds(CHAIN) && 2 in OpenIds(CHAIN)
    ensures 1 in GraphOf(CHAIN)[2] && 1 !in StandingIds(CHAIN) && 2 !in StandingIds(CHAIN)
  {
    var first, second := CHAIN[0], CHAIN[1];
    assert first in CHAIN && second in CHAIN;
    EdgesArePrerequisites(CHAIN, first);
    EdgesArePrerequisites(CHAIN, second);
    assert second.depends[0] == 1 && 1 in second.depends;
  }

  /** `--only R2`, and `--start R2 --until R2`, start the second entry of the chain
      while the first is open. */
  lemma {:induction false} WaitingEntriesStart()
    ensures 1 in OpenIds(CHAIN) && !Free(CHAIN, 2)
    ensures OnlyTask(Pending(Begin(CHAIN, None), Only({2})), 2)
    ensures OnlyTask(Pending(Begin(CHAIN, Some({2})), All), 2)
  {
    ChainWaits();
    var rm := CHAIN;
    OnlyStartsRegardless(rm, 2, 1);
    RangeStartsRegardless(rm, 2, 1);
  }

  // ---------------------------------------------------------------- the loop

  class Runner {
    var done: set<nat>
    var troubled: set<nat>
    var splits: map<nat, nat>
    var window: Option<set<nat>>

    constructor (window: Option<set<nat>>)
      ensures forall rm :: State(rm) == Begin(rm, window)
    {
      done, troubled, splits, this.window := {}, {}, map[], window;
    }

    ghost function State(rm: Entries): Loop
      reads this
    {
      Loop(rm, done, troubled, splits, window)
    }

    method ListPending(rm: Entries, scope: Scope) returns (tasks: seq<nat>)
      ensures tasks == Pending(State(rm), scope)
    {
      var blocked := MarkHeldBack(rm, troubled);
      var roots := AllRoots(rm, Scoped(scope, Open(rm)));
      var order := roots;
      if !scope.Only? {
        order := ListWorkOrder(rm, roots);
      }
      if window.Some? {
        order := Without(order, (set v | v in order) - window.value);
      }
      tasks := Without(order, done + blocked.Keys);
    }

    /** What the turn's sessions leave: new prerequisites of `current`, or reasons
        to give it up. */
    method Inspect(rm: Entries, current: nat, turn: Turn) returns (split: set<nat>, reasons: bool)
      ensures split == SplitInto(State(rm), current, turn)
      ensures reasons <==> turn.planFailed || !turn.ok || turn.smokeFailed
                           || (current in OpenIds(turn.executed) && split == {})
    {
      var before := OpenPrerequisites(rm, current);
      split, reasons := {}, turn.planFailed;
      if !turn.planFailed {
        var landed := current !in OpenIds(turn.executed);
        if !turn.ok {
          reasons := true;
        } else if !landed {
          split := OpenPrerequisites(turn.executed, current) - before;
          if split == {} {
            reasons := true;
          }
        }
        if turn.smokeFailed {
          reasons := true;
        }
      }
    }

    /** Judge the turn that ran `current` on the roadmap `rm`. */
    method Finish(rm: Entries, current: nat, turn: Turn, scope: Scope)
      modifies this
      ensures State(turn.left) == After(old(State(rm)), current, turn, scope)
    {
      var split, reasons := Inspect(rm, current, turn);
      var count := if current in splits then splits[current] else 0;
      if split != {} && !reasons && (scope.Only? || count >= MAX_SPLITS) {
        reasons := true;
      }
      if reasons {
        troubled := troubled + {current};
        done := done + {current};
      } else if split != {} {
        splits := splits[current := count + 1];
        if window.Some? {
          window := Some(window.value + turn.grown);
        }
      } else {
        done := done + {current};
      }
    }

    /** Run while entries are pending and the sessions last. */
    method Drive(first: Entries, turns: seq<Turn>, scope: Scope)
      returns (starts: seq<nat>, ghost states: seq<Loop>)
      modifies this
      ensures Run(states, starts, turns, scope)
      ensures states[0] == old(State(first))
      ensures |starts| == |turns| || Pending(states[|starts|], scope) == []
    {
      var rm := first;
      starts, states := [], [State(rm)];
      var tasks := ListPending(rm, scope);
      while tasks != [] && |starts| < |turns|
        invariant Run(states, starts, turns, scope)
        invariant states[0] == old(State(first)) && states[|starts|] == State(rm)
        invariant tasks == Pending(State(rm), scope)
        decreases |turns| - |starts|
      {
        var current, turn := tasks[0], turns[|starts|];
        Finish(rm, current, turn, scope);
        rm := turn.left;
        forall k | 0 <= k <= |starts|
          ensures Steps((states + [State(rm)])[k], (starts + [current])[k], turns[k], (states + [State(rm)])[k + 1],
                        scope)
        {
          RunGrows(states, starts, turns, scope, current, State(rm), k);
        }
        starts, states := starts + [current], states + [State(rm)];
        tasks := ListPending(rm, scope);
      }
    }
  }
}
