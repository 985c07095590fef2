/**
 * A syntax tree whose identities and hidden lambda names are cells, updated in
 * place; its labels in the order the rekeying pass visits them, and where in that
 * order each cell of the tree is.
 */
module RekeyTree {
  import opened Prelude
  import opened SyntaxIds
  import opened Rekey
  import opened RekeyBound

  class IdCell {
    var id: Id

    constructor (id: Id)
      ensures this.id == id
    {
      this.id := id;
    }
  }

  class NameCell {
    var name: Name

    constructor (name: Name)
      ensures this.name == name
    {
      this.name := name;
    }
  }

  /** A node with its parts in the order the pass visits them. Statements,
      expressions, patterns and targets carry an identity; types, arguments,
      parameters, conditions and clauses carry none. A lambda's parts are its
      hidden definition's, which has an identity of its own. The pass does not go
      into a parameter's origin or a trait constant's default. */
  datatype Syntax =
    | Identified(at: IdCell, parts: Parts)
    | Unidentified(parts: Parts)
    | Lambda(at: IdCell, def: IdCell, name: NameCell, parts: Parts)
    | Skipped(parts: Parts)

  datatype Parts = End | More(first: Syntax, rest: Parts)

  /** The cells of what the pass visits. */
  function Cells(x: Syntax): set<object> {
    match x
    case Identified(at, parts) => {at} + AllCells(parts)
    case Unidentified(parts) => AllCells(parts)
    case Lambda(at, def, name, parts) => {at, def, name} + AllCells(parts)
    case Skipped(_) => {}
  }

  function AllCells(parts: Parts): set<object> {
    if parts.End? then {} else Cells(parts.first) + AllCells(parts.rest)
  }

  /** No node is in two places of the tree. */
  predicate Owned(x: Syntax) {
    && (x.Skipped? || AllOwned(x.parts))
    && match x
       case Identified(at, parts) => at !in AllCells(parts)
       case Unidentified(_) => true
       case Lambda(at, def, name, parts) =>
         at != def && at !in AllCells(parts) && def !in AllCells(parts) && name !in AllCells(parts)
       case Skipped(_) => true
  }

  predicate AllOwned(parts: Parts) {
    parts.More? ==> Owned(parts.first) && AllOwned(parts.rest) && Cells(parts.first) !! AllCells(parts.rest)
  }

  /** The labels of `x` in visiting order, then `after`. */
  function LabelsOf(x: Syntax, after: Labels): Labels
    reads Cells(x)
  {
    match x
    case Identified(at, parts) => Cons(Ident(at.id), AllLabels(parts, after))
    case Unidentified(parts) => AllLabels(parts, after)
    case Lambda(at, def, name, parts) =>
      Cons(Ident(at.id), Cons(Ident(def.id), Cons(Hidden(name.name), AllLabels(parts, after))))
    case Skipped(_) => after
  }

  function AllLabels(parts: Parts, after: Labels): Labels
    reads AllCells(parts)
  {
    if parts.End? then after else LabelsOf(parts.first, AllLabels(parts.rest, after))
  }

  /** The cells of what the pass does not visit; `inside` says that `parts` is in
      such a place. */
  function SkippedCells(parts: Parts, inside: bool): set<object> {
    match parts
    case End => {}
    case More(first, rest) =>
      SkippedCells(rest, inside) +
      match first
      case Identified(at, within) => (if inside then {at} else {}) + SkippedCells(within, inside)
      case Unidentified(within) => SkippedCells(within, inside)
      case Lambda(at, def, name, within) =>
        (if inside then {at, def, name} else {}) + SkippedCells(within, inside)
      case Skipped(within) => SkippedCells(within, true)
  }

  /** Their labels, then `after`. */
  function SkippedLabels(parts: Parts, inside: bool, after: Labels): Labels
    reads SkippedCells(parts, inside)
  {
    match parts
    case End => after
    case More(first, rest) =>
      var later := SkippedLabels(rest, inside, after);
      match first
      case Identified(at, within) =>
        var l := SkippedLabels(within, inside, later);
        if inside then Cons(Ident(at.id), l) else l
      case Unidentified(within) => SkippedLabels(within, inside, later)
      case Lambda(at, def, name, within) =>
        var l := SkippedLabels(within, inside, later);
        if inside then Cons(Ident(at.id), Cons(Ident(def.id), Cons(Hidden(name.name), l))) else l
      case Skipped(within) => SkippedLabels(within, true, later)
  }

  lemma {:induction false} SkippedCellsExist(parts: Parts, inside: bool)
    ensures forall o <- SkippedCells(parts, inside) :: allocated(o)
    decreases parts
  {
    match parts
    case End =>
    case More(first, rest) =>
      SkippedCellsExist(rest, inside);
      match first
      case Identified(at, within) =>
        assert allocated(at);
        SkippedCellsExist(within, inside);
      case Unidentified(within) =>
        SkippedCellsExist(within, inside);
      case Lambda(at, def, name, within) =>
        assert allocated(at) && allocated(def) && allocated(name);
        SkippedCellsExist(within, inside);
      case Skipped(within) =>
        SkippedCellsExist(within, true);
  }

  lemma {:induction false} CellsExist(x: Syntax)
    ensures forall o <- Cells(x) :: allocated(o)
    decreases x
  {
    match x
    case Identified(at, parts) =>
      assert allocated(at);
      AllCellsExist(parts);
    case Unidentified(parts) =>
      AllCellsExist(parts);
    case Lambda(at, def, name, parts) =>
      assert allocated(at) && allocated(def) && allocated(name);
      AllCellsExist(parts);
    case Skipped(_) =>
  }

  lemma {:induction false} AllCellsExist(parts: Parts)
    ensures forall o <- AllCells(parts) :: allocated(o)
    decreases parts
  {
    if parts.More? {
      CellsExist(parts.first);
      AllCellsExist(parts.rest);
    }
  }

  // --------------------------------------------------- the cells of the tree

  /** A place of the tree that holds a label. */
  datatype Slot = OfId(id: IdCell) | OfName(name: NameCell)

  function Shown(s: Slot): Label
    reads match s case OfId(c) => {c as object} case OfName(c) => {c}
  {
    match s
    case OfId(c) => Ident(c.id)
    case OfName(c) => Hidden(c.name)
  }

  predicate OwnSlot(x: Syntax, s: Slot) {
    match x
    case Identified(at, _) => s == OfId(at)
    case Unidentified(_) => false
    case Lambda(at, def, name, _) => s == OfId(at) || s == OfId(def) || s == OfName(name)
    case Skipped(_) => false
  }

  /** `s` is somewhere in the tree. */
  predicate InTree(s: Slot, parts: Parts) {
    parts.More? && (OwnSlot(parts.first, s) || InTree(s, parts.first.parts) || InTree(s, parts.rest))
  }

  /** `s` is in the tree, under nothing that is skipped. */
  predicate InSight(s: Slot, parts: Parts) {
    parts.More? &&
    (OwnSlot(parts.first, s) || (!parts.first.Skipped? && InSight(s, parts.first.parts)) || InSight(s, parts.rest))
  }

  /** `s` is in the tree, under something that is skipped. */
  predicate OutOfSight(s: Slot, parts: Parts) {
    parts.More? &&
    (OutOfSight(s, parts.rest) ||
     if parts.first.Skipped? then InTree(s, parts.first.parts) else OutOfSight(s, parts.first.parts))
  }

  function OwnSlots(x: Syntax): nat {
    match x
    case Identified(_, _) => 1
    case Unidentified(_) => 0
    case Lambda(_, _, _, _) => 3
    case Skipped(_) => 0
  }

  function SlotsInSight(parts: Parts): nat {
    if parts.End? then 0
    else
      OwnSlots(parts.first) + SlotsWithin(parts.first) + SlotsInSight(parts.rest)
  }

  function SlotsWithin(x: Syntax): nat {
    if x.Skipped? then 0 else SlotsInSight(x.parts)
  }

  function OwnPlace(x: Syntax, s: Slot): nat {
    if !x.Lambda? || s == OfId(x.at) then 0 else if s == OfId(x.def) then 1 else 2
  }

  /** How many slots come before `s` in the text of the program: those of the
      nodes around it, and those of everything to its left. */
  function Place(s: Slot, parts: Parts): nat
    requires InSight(s, parts)
  {
    var first := parts.first;
    if OwnSlot(first, s) then OwnPlace(first, s)
    else if !first.Skipped? && InSight(s, first.parts) then OwnSlots(first) + Place(s, first.parts)
    else OwnSlots(first) + SlotsWithin(first) + Place(s, parts.rest)
  }

  lemma {:induction false} TreeIsSplit(s: Slot, parts: Parts)
    ensures InTree(s, parts) <==> InSight(s, parts) || OutOfSight(s, parts)
    decreases parts
  {
    if parts.More? {
      TreeIsSplit(s, parts.first.parts);
      TreeIsSplit(s, parts.rest);
    }
  }

  predicate SlotIn(s: Slot, cells: set<object>) {
    match s
    case OfId(c) => c in cells
    case OfName(c) => c in cells
  }

  lemma {:induction false} InSightIsVisited(s: Slot, parts: Parts)
    ensures InSight(s, parts) ==> SlotIn(s, AllCells(parts))
    decreases parts
  {
    if parts.More? {
      if !parts.first.Skipped? {
        InSightIsVisited(s, parts.first.parts);
      }
      InSightIsVisited(s, parts.rest);
    }
  }

  lemma {:induction false} InsideIsSkipped(s: Slot, parts: Parts)
    ensures InTree(s, parts) ==> SlotIn(s, SkippedCells(parts, true))
    decreases parts
  {
    if parts.More? {
      InsideIsSkipped(s, parts.first.parts);
      InsideIsSkipped(s, parts.rest);
    }
  }

  lemma {:induction false} OutOfSightIsSkipped(s: Slot, parts: Parts)
    ensures OutOfSight(s, parts) ==> SlotIn(s, SkippedCells(parts, false))
    decreases parts
  {
    if parts.More? {
      if parts.first.Skipped? {
        InsideIsSkipped(s, parts.first.parts);
      } else {
        OutOfSightIsSkipped(s, parts.first.parts);
      }
      OutOfSightIsSkipped(s, parts.rest);
    }
  }

  /** The labels of what is within `x`, then `after`. */
  function Within(x: Syntax, after: Labels): Labels
    reads Cells(x)
  {
    if x.Skipped? then after else AllLabels(x.parts, after)
  }

  lemma {:induction false} ThreeFirst(a: Label, b: Label, c: Label, l: Labels)
    ensures var all := Cons(a, Cons(b, Cons(c, l)));
      && Length(all) == 3 + Length(l) && At(all, 0) == a && At(all, 1) == b && At(all, 2) == c
      && forall i | 0 <= i < Length(l) :: At(all, 3 + i) == At(l, i)
  {
    var all := Cons(a, Cons(b, Cons(c, l)));
    var two := all.tail;
    assert Length(two.tail) == 1 + Length(l);
    assert Length(two) == 2 + Length(l);
    assert At(all, 2) == At(two, 1) == At(two.tail, 0);
    forall i | 0 <= i < Length(l) ensures At(all, 3 + i) == At(l, i) {
      assert At(two.tail, 1 + i) == At(l, i);
      assert At(two, 2 + i) == At(two.tail, 1 + i);
    }
  }

  lemma {:induction false} OwnAreCounted(x: Syntax, after: Labels)
    ensures Length(LabelsOf(x, after)) == OwnSlots(x) + Length(Within(x, after))
  {
    if x.Lambda? {
      ThreeFirst(Ident(x.at.id), Ident(x.def.id), Hidden(x.name.name), Within(x, after));
    }
  }

  lemma {:induction false} AtWithin(x: Syntax, after: Labels, i: nat)
    requires i < Length(Within(x, after))
    ensures Length(LabelsOf(x, after)) == OwnSlots(x) + Length(Within(x, after))
    ensures At(LabelsOf(x, after), OwnSlots(x) + i) == At(Within(x, after), i)
  {
    if x.Lambda? {
      ThreeFirst(Ident(x.at.id), Ident(x.def.id), Hidden(x.name.name), Within(x, after));
    }
  }

  lemma {:induction false} ShownAtOwnPlace(x: Syntax, after: Labels, s: Slot)
    requires OwnSlot(x, s)
    ensures OwnPlace(x, s) < OwnSlots(x)
    ensures Length(LabelsOf(x, after)) == OwnSlots(x) + Length(Within(x, after))
    ensures At(LabelsOf(x, after), OwnPlace(x, s)) == Shown(s)
  {
    if x.Lambda? {
      ThreeFirst(Ident(x.at.id), Ident(x.def.id), Hidden(x.name.name), Within(x, after));
    }
  }

  lemma {:induction false} LabelsAreCounted(parts: Parts, after: Labels)
    ensures Length(AllLabels(parts, after)) == SlotsInSight(parts) + Length(after)
    decreases parts
  {
    if parts.More? {
      LabelsAreCounted(parts.rest, after);
      OwnAreCounted(parts.first, AllLabels(parts.rest, after));
      if !parts.first.Skipped? {
        LabelsAreCounted(parts.first.parts, AllLabels(parts.rest, after));
      }
    }
  }

  lemma {:induction false} WithinIsCounted(x: Syntax, after: Labels)
    ensures Length(Within(x, after)) == SlotsWithin(x) + Length(after)
  {
    if !x.Skipped? {
      LabelsAreCounted(x.parts, after);
    }
  }

  lemma {:induction false} AtAfter(parts: Parts, after: Labels, i: nat)
    requires i < Length(after)
    ensures Length(AllLabels(parts, after)) == SlotsInSight(parts) + Length(after)
    ensures At(AllLabels(parts, after), SlotsInSight(parts) + i) == At(after, i)
    decreases parts
  {
    LabelsAreCounted(parts, after);
    if parts.More? {
      AtAfter(parts.rest, after, i);
      AtAfterNode(parts.first, AllLabels(parts.rest, after), SlotsInSight(parts.rest) + i);
    }
  }

  lemma {:induction false} AtAfterNode(x: Syntax, after: Labels, i: nat)
    requires i < Length(after)
    ensures Length(LabelsOf(x, after)) == OwnSlots(x) + SlotsWithin(x) + Length(after)
    ensures At(LabelsOf(x, after), OwnSlots(x) + SlotsWithin(x) + i) == At(after, i)
    decreases x
  {
    WithinIsCounted(x, after);
    if !x.Skipped? {
      AtAfter(x.parts, after, i);
    }
    AtWithin(x, after, SlotsWithin(x) + i);
  }

  /** What a slot in sight shows is the label at its place. */
  lemma {:induction false} ShownAtPlace(s: Slot, parts: Parts, after: Labels)
    requires InSight(s, parts)
    ensures Length(AllLabels(parts, after)) == SlotsInSight(parts) + Length(after)
    ensures Place(s, parts) < SlotsInSight(parts)
    ensures At(AllLabels(parts, after), Place(s, parts)) == Shown(s)
    decreases parts
  {
    LabelsAreCounted(parts, after);
    var first, later := parts.first, AllLabels(parts.rest, after);
    if OwnSlot(first, s) {
      ShownAtOwnPlace(first, later, s);
    } else if !first.Skipped? && InSight(s, first.parts) {
      ShownAtPlace(s, first.parts, later);
      AtWithin(first, later, Place(s, first.parts));
    } else {
      ShownAtPlace(s, parts.rest, after);
      AtAfterNode(first, later, Place(s, parts.rest));
    }
  }

  lemma {:induction false} PlaceIsWithin(s: Slot, parts: Parts)
    requires InSight(s, parts)
    ensures Place(s, parts) < SlotsInSight(parts)
    decreases parts
  {
    ShownAtPlace(s, parts, Nil);
  }

  lemma {:induction false} PlacesDiffer(s: Slot, t: Slot, parts: Parts)
    requires InSight(s, parts) && InSight(t, parts) && s != t
    ensures Place(s, parts) != Place(t, parts)
    decreases parts
  {
    var first := parts.first;
    forall u | u in {s, t} && !OwnSlot(first, u) && !first.Skipped? && InSight(u, first.parts)
      ensures Place(u, first.parts) < SlotsInSight(first.parts)
    {
      PlaceIsWithin(u, first.parts);
    }
    if !OwnSlot(first, s) && !OwnSlot(first, t) {
      var sInside, tInside := !first.Skipped? && InSight(s, first.parts), !first.Skipped? && InSight(t, first.parts);
      if sInside && tInside {
        PlacesDiffer(s, t, first.parts);
      } else if !sInside && !tInside {
        PlacesDiffer(s, t, parts.rest);
      }
    }
  }

  /** Nothing else is listed: each place is some slot's. */
  lemma {:induction false} SlotAtPlace(parts: Parts, i: nat) returns (s: Slot)
    requires AllOwned(parts) && i < SlotsInSight(parts)
    ensures InSight(s, parts) && Place(s, parts) == i
    decreases parts
  {
    var first := parts.first;
    var own := OwnSlots(first);
    if i < own {
      s := if i == 0 then OfId(first.at) else if i == 1 then OfId(first.def) else OfName(first.name);
    } else if i < own + SlotsWithin(first) {
      s := SlotAtPlace(first.parts, i - own);
      InSightIsVisited(s, first.parts);
    } else {
      s := SlotAtPlace(parts.rest, i - own - SlotsWithin(first));
      InSightIsVisited(s, parts.rest);
      assert SlotIn(s, AllCells(parts.rest)) ==> !SlotIn(s, Cells(first));
      if !first.Skipped? {
        InSightIsVisited(s, first.parts);
      }
    }
  }

  lemma {:induction false} HoldsCons(l: Labels, x: Label)
    requires l.Cons?
    ensures Holds(l, x) <==> l.head == x || Holds(l.tail, x)
  {
    BeforeShift(l, Length(l), x);
  }

  /** A node's own labels, then `after`. */
  function OwnLabels(x: Syntax, after: Labels): Labels
    reads Cells(x)
  {
    match x
    case Identified(at, _) => Cons(Ident(at.id), after)
    case Lambda(at, def, name, _) => Cons(Ident(at.id), Cons(Ident(def.id), Cons(Hidden(name.name), after)))
    case _ => after
  }

  lemma {:induction false} OwnAreSkipped(node: Syntax, after: Labels, x: Label, s: Slot)
    ensures Holds(after, x) ==> Holds(OwnLabels(node, after), x)
    ensures OwnSlot(node, s) && Shown(s) == x ==> Holds(OwnLabels(node, after), x)
  {
    var l := OwnLabels(node, after);
    if node.Identified? {
      HoldsCons(l, x);
    } else if node.Lambda? {
      HoldsCons(l, x);
      HoldsCons(l.tail, x);
      HoldsCons(l.tail.tail, x);
    }
  }

  /** What a slot out of sight shows is among the labels skipped. */
  lemma {:induction false} ShownIsSkipped(s: Slot, parts: Parts, inside: bool, after: Labels, x: Label)
    requires Holds(after, x) || (Shown(s) == x && if inside then InTree(s, parts) else OutOfSight(s, parts))
    ensures Holds(SkippedLabels(parts, inside, after), x)
    decreases parts
  {
    if parts.More? {
      var first, later := parts.first, SkippedLabels(parts.rest, inside, after);
      var within := inside || first.Skipped?;
      if Holds(after, x) || if inside then InTree(s, parts.rest) else OutOfSight(s, parts.rest) {
        ShownIsSkipped(s, parts.rest, inside, after, x);
      }
      if Holds(later, x) || if within then InTree(s, first.parts) else OutOfSight(s, first.parts) {
        ShownIsSkipped(s, first.parts, within, later, x);
      }
      if inside {
        OwnAreSkipped(first, SkippedLabels(first.parts, within, later), x, s);
      }
    }
  }

  lemma {:induction false} DistinctDiffer(l: Labels, i: nat, j: nat)
    requires Distinct(l) && i < j < Length(l)
    ensures At(l, i) != At(l, j)
  {
    assert !Before(l, j, At(l, j));
  }

  /** Two slots in sight show different labels when those are distinct. */
  lemma {:induction false} SlotsDiffer(parts: Parts, s: Slot, t: Slot)
    requires Distinct(AllLabels(parts, Nil)) && InSight(s, parts) && InSight(t, parts) && s != t
    ensures Shown(s) != Shown(t)
  {
    ShownAtPlace(s, parts, Nil);
    ShownAtPlace(t, parts, Nil);
    PlacesDiffer(s, t, parts);
    var l, i, j := AllLabels(parts, Nil), Place(s, parts), Place(t, parts);
    if i < j {
      DistinctDiffer(l, i, j);
    } else {
      DistinctDiffer(l, j, i);
    }
  }

  /** A slot whose label was at its place in `was` shows it still, exactly when no
      slot to its left shows it now. */
  lemma {:induction false} KeptWhenFree(parts: Parts, was: Labels, s: Slot)
    requires AllOwned(parts) && InSight(s, parts)
    requires AllLabels(parts, Nil) == AllRelabeled(START, was)
    ensures Place(s, parts) < Length(was)
    ensures Shown(s) == At(was, Place(s, parts)) <==>
      forall t | InSight(t, parts) && Place(t, parts) < Place(s, parts) :: Shown(t) != At(was, Place(s, parts))
  {
    var now, i := AllLabels(parts, Nil), Place(s, parts);
    AllKept(START, was);
    ShownAtPlace(s, parts, Nil);
    RekeyingMakesUnique(was, i);
    if Before(now, i, At(was, i)) {
      var j :| 0 <= j < i && At(now, j) == At(was, i);
      var t := SlotAtPlace(parts, j);
      ShownAtPlace(t, parts, Nil);
      assert Shown(t) == At(was, i);
    }
    forall t | InSight(t, parts) && Place(t, parts) < i ensures Shown(t) == At(now, Place(t, parts)) {
      ShownAtPlace(t, parts, Nil);
    }
  }

  /** Every slot in sight shows the label at its place, and is among the visited. */
  lemma {:induction false} AllShownAtPlaces(parts: Parts)
    ensures forall s | InSight(s, parts) ::
      && SlotIn(s, AllCells(parts)) && Place(s, parts) < Length(AllLabels(parts, Nil))
      && At(AllLabels(parts, Nil), Place(s, parts)) == Shown(s)
    ensures forall s | OutOfSight(s, parts) :: SlotIn(s, SkippedCells(parts, false))
  {
    forall s | InSight(s, parts)
      ensures SlotIn(s, AllCells(parts)) && Place(s, parts) < Length(AllLabels(parts, Nil))
      ensures At(AllLabels(parts, Nil), Place(s, parts)) == Shown(s)
    {
      InSightIsVisited(s, parts);
      ShownAtPlace(s, parts, Nil);
    }
    forall s | OutOfSight(s, parts) ensures SlotIn(s, SkippedCells(parts, false)) {
      OutOfSightIsSkipped(s, parts);
    }
  }

  /** No two slots in sight show the same label, and each shows its old one exactly
      when no slot to its left shows that now. */
  lemma {:induction false} SlotsRelabeled(parts: Parts, was: Labels)
    requires AllOwned(parts) && AllLabels(parts, Nil) == AllRelabeled(START, was)
    ensures forall s, t | InSight(s, parts) && InSight(t, parts) && s != t :: Shown(s) != Shown(t)
    ensures forall s | InSight(s, parts) :: Place(s, parts) < Length(was)
    ensures forall s | InSight(s, parts) :: Shown(s) == At(was, Place(s, parts)) <==>
      forall t | InSight(t, parts) && Place(t, parts) < Place(s, parts) :: Shown(t) != At(was, Place(s, parts))
  {
    if was.Cons? {
      RekeyingMakesUnique(was, 0);
    }
    forall s, t | InSight(s, parts) && InSight(t, parts) && s != t ensures Shown(s) != Shown(t) {
      SlotsDiffer(parts, s, t);
    }
    forall s | InSight(s, parts)
      ensures Place(s, parts) < Length(was)
      ensures Shown(s) == At(was, Place(s, parts)) <==>
        forall t | InSight(t, parts) && Place(t, parts) < Place(s, parts) :: Shown(t) != At(was, Place(s, parts))
    {
      KeptWhenFree(parts, was, s);
    }
  }
}
