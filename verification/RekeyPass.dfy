/**
 * The rekeying pass over a syntax tree whose identities and hidden lambda names
 * are updated in place.
 */
module RekeyPass {
  import opened Prelude
  import opened SyntaxIds
  import opened Rekey
  import opened RekeyTree
  import opened RekeyBound
  import opened RekeyExact

  class Pass {
    var next: nat
    var used: set<Id>
    var names: set<Name>
    var replaced: map<Id, Id>

    constructor ()
      ensures Now() == START
    {
      next, used, names, replaced := 1, {}, {}, map[];
    }

    ghost function Now(): State
      reads this
    {
      State(next, used, names, replaced)
    }

    method FreshId(current: Id) returns (id: Id)
      modifies this
      ensures Ident(id) == Relabeled(old(Now()), Ident(current))
      ensures Now() == After(old(Now()), Ident(current))
    {
      if current !in used {
        used := used + {current};
        return current;
      }
      while Plain(next) in used
        invariant FreeId(used, next) == FreeId(used, old(next))
        invariant used == old(used) && names == old(names) && replaced == old(replaced)
        decreases IdsFrom(used, next)
      {
        assert Plain(next) in IdsFrom(used, next);
        next := next + 1;
      }
      id := Plain(next);
      next := next + 1;
      used := used + {id};
      replaced := replaced[id := current];
    }

    method FreshName(current: Name) returns (name: Name)
      modifies this
      ensures Hidden(name) == Relabeled(old(Now()), Hidden(current))
      ensures Now() == After(old(Now()), Hidden(current))
    {
      if current !in names {
        names := names + {current};
        return current;
      }
      while Suffixed(current, next) in names
        invariant FreeName(names, current, next) == FreeName(names, current, old(next))
        invariant used == old(used) && names == old(names) && replaced == old(replaced)
        decreases NamesFrom(names, current, next)
      {
        NamesShrink(names, current, next);
        next := next + 1;
      }
      name := Suffixed(current, next);
      next := next + 1;
      names := names + {name};
    }

    method VisitId(at: IdCell, ghost after: Labels)
      modifies this, at
      ensures AllRelabeled(old(Now()), Cons(Ident(old(at.id)), after)) == Cons(Ident(at.id), AllRelabeled(Now(), after))
      ensures AfterAll(old(Now()), Cons(Ident(old(at.id)), after)) == AfterAll(Now(), after)
    {
      at.id := FreshId(at.id);
    }

    method VisitName(at: NameCell, ghost after: Labels)
      modifies this, at
      ensures AllRelabeled(old(Now()), Cons(Hidden(old(at.name)), after))
           == Cons(Hidden(at.name), AllRelabeled(Now(), after))
      ensures AfterAll(old(Now()), Cons(Hidden(old(at.name)), after)) == AfterAll(Now(), after)
    {
      at.name := FreshName(at.name);
    }

    /** `after` is what is still to visit once `x` is done. */
    method Visit(x: Syntax, ghost after: Labels)
      requires Owned(x) && this !in Cells(x)
      modifies this, Cells(x)
      ensures AllRelabeled(old(Now()), old(LabelsOf(x, after))) == LabelsOf(x, AllRelabeled(Now(), after))
      ensures AfterAll(old(Now()), old(LabelsOf(x, after))) == AfterAll(Now(), after)
      decreases x, 2
    {
      CellsExist(x);
      match x
      case Unidentified(parts) =>
        VisitAll(parts, after);
      case Identified(at, parts) =>
        VisitId(at, AllLabels(parts, after));
        VisitAll(parts, after);
      case Lambda(at, def, name, parts) =>
        VisitLambda(at, def, name, parts, after);
      case Skipped(_) =>
    }

    /** A lambda's own identity, its definition's, the hidden name, the parts. */
    method VisitLambda(at: IdCell, def: IdCell, name: NameCell, parts: Parts, ghost after: Labels)
      requires Owned(Lambda(at, def, name, parts)) && this !in Cells(Lambda(at, def, name, parts))
      requires forall o <- AllCells(parts) :: allocated(o)
      modifies this, at, def, name, AllCells(parts)
      ensures AllRelabeled(old(Now()), old(LabelsOf(Lambda(at, def, name, parts), after)))
           == LabelsOf(Lambda(at, def, name, parts), AllRelabeled(Now(), after))
      ensures AfterAll(old(Now()), old(LabelsOf(Lambda(at, def, name, parts), after))) == AfterAll(Now(), after)
      decreases parts, 1
    {
      ghost var todo := AllLabels(parts, after);
      ghost var named := Cons(Hidden(name.name), todo);
      VisitId(at, Cons(Ident(def.id), named));
      VisitId(def, named);
      VisitName(name, todo);
      VisitAll(parts, after);
    }

    method VisitAll(parts: Parts, ghost after: Labels)
      requires AllOwned(parts) && this !in AllCells(parts)
      modifies this, AllCells(parts)
      ensures AllRelabeled(old(Now()), old(AllLabels(parts, after))) == AllLabels(parts, AllRelabeled(Now(), after))
      ensures AfterAll(old(Now()), old(AllLabels(parts, after))) == AfterAll(Now(), after)
      decreases parts, 0
    {
      if parts.More? {
        AllCellsExist(parts);
        ghost var todo := AllLabels(parts.rest, after);
        Visit(parts.first, todo);
        assert AllLabels(parts.rest, after) == todo;
        ghost var left := AllRelabeled(Now(), todo);
        ghost var done := LabelsOf(parts.first, left);
        VisitAll(parts.rest, after);
        assert LabelsOf(parts.first, left) == done;
      }
    }
  }

  lemma {:induction false} PassIsNoCell(parts: Parts, pass: Pass)
    ensures pass !in AllCells(parts)
    decreases parts
  {
    if parts.More? {
      if !parts.first.Skipped? {
        PassIsNoCell(parts.first.parts, pass);
      }
      PassIsNoCell(parts.rest, pass);
    }
  }

  /** Rekey a whole program; the tree's shape is untouched, each identity and name
      visited becomes the one the labels' law says, and what is skipped stays. So
      what is visited is unique; and all the tree is, when what is skipped is
      labeled as the parser labels, exactly when what is skipped is unique and
      apart from what is visited to begin with; and, however it is labeled, when
      no lambda name repeats, exactly when it is also no generated number. */
  method RekeySyntax(statements: Parts) returns (replaced: map<Id, Id>)
    requires AllOwned(statements) && SkippedCells(statements, false) !! AllCells(statements)
    modifies AllCells(statements)
    ensures AllLabels(statements, Nil) == AllRelabeled(START, old(AllLabels(statements, Nil)))
    ensures SkippedLabels(statements, false, Nil) == old(SkippedLabels(statements, false, Nil))
    ensures replaced == AfterAll(START, old(AllLabels(statements, Nil))).replaced
    ensures forall s, t | InSight(s, statements) && InSight(t, statements) && s != t :: Shown(s) != Shown(t)
    ensures forall s | old(allocated(s)) && InSight(s, statements) :: Shown(s) == old(Shown(s)) <==>
      forall t | InSight(t, statements) && Place(t, statements) < Place(s, statements) :: Shown(t) != old(Shown(s))
    ensures forall s | old(allocated(s)) && OutOfSight(s, statements) :: Shown(s) == old(Shown(s))
    ensures Distinct(AllLabels(statements, Nil))
    ensures var visited, skipped := old(AllLabels(statements, Nil)), old(SkippedLabels(statements, false, Nil));
      NoneSmall(skipped, Length(visited)) ==>
      (AllDistinct(AllLabels(statements, Nil), SkippedLabels(statements, false, Nil)) <==>
       Distinct(skipped) && Apart(visited, skipped))
    ensures var visited, skipped := old(AllLabels(statements, Nil)), old(SkippedLabels(statements, false, Nil));
      NamesOnce(visited) ==>
      (AllDistinct(AllLabels(statements, Nil), SkippedLabels(statements, false, Nil)) <==>
       Distinct(skipped) && Apart(visited, skipped) && NoneGenerated(visited, skipped))
  {
    ghost var visited, skipped := AllLabels(statements, Nil), SkippedLabels(statements, false, Nil);
    AllCellsExist(statements);
    SkippedCellsExist(statements, false);
    AllShownAtPlaces(statements);
    var pass := new Pass();
    PassIsNoCell(statements, pass);
    pass.VisitAll(statements, Nil);
    replaced := pass.replaced;
    if visited.Cons? {
      RekeyingMakesUnique(visited, 0);
    }
    SlotsRelabeled(statements, visited);
    if NoneSmall(skipped, Length(visited)) {
      WholeTreeIsUnique(visited, skipped);
    }
    if NamesOnce(visited) {
      WholeTreeExactly(visited, skipped);
    }
  }

  /** The pass sees nothing of what it skips. */
  lemma {:induction false} SkippedIsUnseen(parts: Parts, after: Labels)
    ensures AllOwned(More(Skipped(parts), End)) && AllCells(More(Skipped(parts), End)) == {}
    ensures AllLabels(More(Skipped(parts), End), after) == after
  {
    var x := Skipped(parts);
    assert Owned(x) && AllOwned(End) && Cells(x) == {} && AllCells(End) == {};
    assert LabelsOf(x, after) == after == AllLabels(End, after);
    assert AllLabels(More(x, End), after) == LabelsOf(x, AllLabels(End, after));
  }

  lemma {:induction false} AloneIsSeen(at: IdCell, parts: Parts, after: Labels)
    requires AllOwned(parts) && AllCells(parts) == {} && AllLabels(parts, after) == after
    ensures var program := More(Identified(at, parts), End);
      AllOwned(program) && AllCells(program) == {at} && AllLabels(program, after) == Cons(Ident(at.id), after)
  {
    var x := Identified(at, parts);
    assert Owned(x) && AllOwned(End) && Cells(x) == {at} && AllCells(End) == {};
    assert LabelsOf(x, after) == Cons(Ident(at.id), after) && AllLabels(End, after) == after;
    assert AllLabels(More(x, End), after) == LabelsOf(x, AllLabels(End, after));
  }

  lemma {:induction false} OneSkipped(visited: IdCell, skipped: IdCell)
    ensures var origin := More(Skipped(More(Identified(skipped, End), End)), End);
      var program := More(Identified(visited, origin), End);
      SkippedCells(program, false) == {skipped} && SkippedLabels(program, false, Nil) == Cons(Ident(skipped.id), Nil)
  {
    var parts := More(Identified(skipped, End), End);
    assert SkippedCells(parts, true) == {skipped};
    assert SkippedLabels(parts, true, Nil) == Cons(Ident(skipped.id), Nil);
    assert SkippedCells(More(Skipped(parts), End), false) == {skipped};
    assert SkippedLabels(More(Skipped(parts), End), false, Nil) == SkippedLabels(parts, true, Nil);
  }

  /** A program that holds `id` twice, once where the pass does not go. */
  method WithSkipped(id: Id) returns (program: Parts)
    ensures AllOwned(program) && SkippedCells(program, false) !! AllCells(program)
    ensures fresh(AllCells(program)) && fresh(SkippedCells(program, false))
    ensures AllLabels(program, Nil) == SkippedLabels(program, false, Nil) == Cons(Ident(id), Nil)
  {
    var visited := new IdCell(id);
    var skipped := new IdCell(id);
    var origin := More(Skipped(More(Identified(skipped, End), End)), End);
    program := More(Identified(visited, origin), End);
    SkippedIsUnseen(origin.first.parts, Nil);
    AloneIsSeen(visited, origin, Nil);
    OneSkipped(visited, skipped);
  }

  /** Rekeying such a program leaves the duplicate. */
  method RekeyWithSkipped(id: Id) returns (program: Parts)
    ensures AllLabels(program, Nil) == SkippedLabels(program, false, Nil) == Cons(Ident(id), Nil)
    ensures !AllDistinct(AllLabels(program, Nil), SkippedLabels(program, false, Nil))
  {
    program := WithSkipped(id);
    SkippedStaysDuplicate(id);
    var _ := RekeySyntax(program);
  }
}
