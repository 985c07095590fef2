/**
 * Rekeying a final syntax tree: every identity and every hidden lambda name the
 * pass visits is made unique, in place, and the identity each re-keyed
 * occurrence had before is recorded.
 *
 * The laws are proved of the labels in visiting order; the in-place pass is
 * proved to write exactly those labels.
 */
module Rekey {
  import opened Prelude
  import opened Numerals
  import opened SyntaxIds

  /** What the pass visits: an identity, or the hidden name of a lambda. */
  datatype Label = Ident(id: Id) | Hidden(name: Name)

  datatype Labels = Nil | Cons(head: Label, tail: Labels)

  function Length(l: Labels): nat {
    if l.Nil? then 0 else 1 + Length(l.tail)
  }

  function At(l: Labels, i: nat): Label
    requires i < Length(l)
  {
    if i == 0 then l.head else At(l.tail, i - 1)
  }

  /** Whether `x` is among the first `n`. */
  ghost predicate Before(l: Labels, n: nat, x: Label)
    requires n <= Length(l)
  {
    exists j | 0 <= j < n :: At(l, j) == x
  }

  lemma {:induction false} BeforeShift(l: Labels, n: nat, x: Label)
    requires 0 < n <= Length(l)
    ensures Before(l, n, x) <==> l.head == x || Before(l.tail, n - 1, x)
  {
    assert At(l, 0) == l.head;
    if Before(l.tail, n - 1, x) {
      var j :| 0 <= j < n - 1 && At(l.tail, j) == x;
      assert At(l, j + 1) == x;
    }
    if Before(l, n, x) && l.head != x {
      var j :| 0 <= j < n && At(l, j) == x;
      assert At(l.tail, j - 1) == x;
    }
  }

  ghost predicate Distinct(l: Labels) {
    forall i | 0 <= i < Length(l) :: !Before(l, i, At(l, i))
  }

  // ----------------------------------------------------------------- naming

  function Suffixed(name: Name, n: nat): Name {
    Name(name.text + "$" + Decimal(n))
  }

  lemma {:induction false} SuffixedIsInjective(name: Name, a: nat, b: nat)
    requires Suffixed(name, a) == Suffixed(name, b)
    ensures a == b
  {
    var s, t := Suffixed(name, a).text, Suffixed(name, b).text;
    var n := |name.text| + 1;
    assert s[n..] == Decimal(a) && t[n..] == Decimal(b);
    DecimalIsInjective(a, b);
  }

  // ------------------------------------------------------------ the searches

  /** The used identities a search from `next` can still meet. */
  ghost function IdsFrom(used: set<Id>, next: nat): set<Id> {
    set id | id in used && id.Plain? && next <= id.number
  }

  /** The least free number from `next` on; the search always ends. */
  ghost function FreeId(used: set<Id>, next: nat): (n: nat)
    ensures next <= n && Plain(n) !in used
    ensures forall m | next <= m < n :: Plain(m) in used
    decreases IdsFrom(used, next)
  {
    if Plain(next) in used then
      assert Plain(next) in IdsFrom(used, next);
      FreeId(used, next + 1)
    else next
  }

  ghost predicate SuffixedFrom(name: Name, next: nat, taken: Name) {
    exists n :: next <= n && taken == Suffixed(name, n)
  }

  ghost function NamesFrom(names: set<Name>, name: Name, next: nat): set<Name> {
    set taken | taken in names && SuffixedFrom(name, next, taken)
  }

  lemma {:induction false} NamesShrink(names: set<Name>, name: Name, next: nat)
    requires Suffixed(name, next) in names
    ensures NamesFrom(names, name, next + 1) < NamesFrom(names, name, next)
  {
    assert Suffixed(name, next) in NamesFrom(names, name, next);
    if Suffixed(name, next) in NamesFrom(names, name, next + 1) {
      var n :| next + 1 <= n && Suffixed(name, next) == Suffixed(name, n);
      SuffixedIsInjective(name, next, n);
    }
  }

  ghost function FreeName(names: set<Name>, name: Name, next: nat): (n: nat)
    ensures next <= n && Suffixed(name, n) !in names
    ensures forall m | next <= m < n :: Suffixed(name, m) in names
    decreases NamesFrom(names, name, next)
  {
    if Suffixed(name, next) in names then
      NamesShrink(names, name, next);
      FreeName(names, name, next + 1)
    else next
  }

  // --------------------------------------------------------------- the pass

  /** The pass's fields; one counter serves both searches. */
  datatype State = State(next: nat, used: set<Id>, names: set<Name>, replaced: map<Id, Id>)

  const START: State := State(1, {}, {}, map[])

  ghost predicate Taken(s: State, tag: Label) {
    match tag
    case Ident(id) => id in s.used
    case Hidden(name) => name in s.names
  }

  ghost function Fresh(s: State, tag: Label): nat {
    match tag
    case Ident(_) => FreeId(s.used, s.next)
    case Hidden(name) => FreeName(s.names, name, s.next)
  }

  /** The label an occurrence ends with. */
  ghost function Relabeled(s: State, tag: Label): Label {
    if !Taken(s, tag) then tag
    else
      match tag
      case Ident(_) => Ident(Plain(Fresh(s, tag)))
      case Hidden(name) => Hidden(Suffixed(name, Fresh(s, tag)))
  }

  ghost function After(s: State, tag: Label): State {
    var next := if Taken(s, tag) then Fresh(s, tag) + 1 else s.next;
    match Relabeled(s, tag)
    case Ident(id) =>
      State(next, s.used + {id}, s.names, if Taken(s, tag) then s.replaced[id := tag.id] else s.replaced)
    case Hidden(name) =>
      State(next, s.used, s.names + {name}, s.replaced)
  }

  ghost function AllRelabeled(s: State, l: Labels): Labels
    decreases l
  {
    if l.Nil? then Nil else Cons(Relabeled(s, l.head), AllRelabeled(After(s, l.head), l.tail))
  }

  ghost function AfterAll(s: State, l: Labels): State
    decreases l
  {
    if l.Nil? then s else AfterAll(After(s, l.head), l.tail)
  }

  // -------------------------------------------------------------- uniqueness

  lemma {:induction false} AllKept(s: State, l: Labels)
    ensures Length(AllRelabeled(s, l)) == Length(l)
    decreases l
  {
    if l.Cons? {
      AllKept(After(s, l.head), l.tail);
    }
  }

  /** No occurrence ends with a label already taken, and each keeps its own
      exactly when that was still free. */
  lemma {:induction false} EndsFree(s: State, l: Labels, i: nat)
    requires i < Length(l)
    ensures Length(AllRelabeled(s, l)) == Length(l)
    ensures var r := AllRelabeled(s, l);
      && !Taken(s, At(r, i)) && !Before(r, i, At(r, i))
      && (At(r, i) == At(l, i) <==> !Taken(s, At(l, i)) && !Before(r, i, At(l, i)))
    decreases l
  {
    AllKept(s, l);
    if i > 0 {
      var t, r := After(s, l.head), AllRelabeled(s, l);
      EndsFree(t, l.tail, i - 1);
      BeforeShift(r, i, At(r, i));
      BeforeShift(r, i, At(l, i));
    }
  }

  /** All identities are distinct and so are all lambda names; an occurrence
      keeps its identity, or name, exactly when no earlier one ended with it. */
  lemma {:induction false} RekeyingMakesUnique(l: Labels, i: nat)
    requires i < Length(l)
    ensures Length(AllRelabeled(START, l)) == Length(l)
    ensures var r := AllRelabeled(START, l);
      Distinct(r) && (At(r, i) == At(l, i) <==> !Before(r, i, At(l, i)))
  {
    AllKept(START, l);
    EndsFree(START, l, i);
    forall k | 0 <= k < Length(l) ensures !Before(AllRelabeled(START, l), k, At(AllRelabeled(START, l), k)) {
      EndsFree(START, l, k);
    }
  }

  /** Distinct labels, none of them taken, all stay and nothing is recorded. */
  lemma {:induction false} DistinctStay(s: State, l: Labels)
    requires Distinct(l) && forall i | 0 <= i < Length(l) :: !Taken(s, At(l, i))
    ensures AllRelabeled(s, l) == l && AfterAll(s, l).replaced == s.replaced
    decreases l
  {
    if l.Cons? {
      var t := After(s, l.head);
      assert At(l, 0) == l.head;
      forall i | 0 <= i < Length(l.tail)
        ensures !Taken(t, At(l.tail, i)) && !Before(l.tail, i, At(l.tail, i))
      {
        assert At(l.tail, i) == At(l, i + 1);
        BeforeShift(l, i + 1, At(l, i + 1));
      }
      DistinctStay(t, l.tail);
    }
  }

  /** The pass changes nothing exactly when nothing repeats, so a second run
      changes nothing and records nothing. */
  lemma {:induction false} SecondRunChangesNothing(l: Labels)
    ensures AllRelabeled(START, l) == l <==> Distinct(l)
    ensures var once := AllRelabeled(START, l);
      AllRelabeled(START, once) == once && AfterAll(START, once).replaced == map[]
  {
    if l.Cons? {
      RekeyingMakesUnique(l, 0);
      if Distinct(l) {
        DistinctStay(START, l);
      }
      DistinctStay(START, AllRelabeled(START, l));
    }
  }

  /** An identity that occurs once can still lose it, to a number generated for
      an earlier repeat. */
  lemma {:induction false} UniqueIdentityLost()
    ensures var l := Cons(Ident(Plain(2)), Cons(Ident(Plain(2)), Cons(Ident(Plain(1)), Nil)));
      && At(l, 2) != At(l, 0) && At(l, 2) != At(l, 1)
      && At(AllRelabeled(START, l), 2) == Ident(Plain(3))
  {
  }

  // ----------------------------------------------------------------- origins

  /** The identity `id` was copied with. */
  function Origin(replaced: map<Id, Id>, id: Id): Id {
    if id in replaced then replaced[id]
    else if id.Derived? then Derived(Origin(replaced, id.parent), id.ordinal)
    else id
  }

  /** Whether the pass gave out an identity `id` is derived from, or `id`. */
  predicate FromGenerated(replaced: map<Id, Id>, id: Id) {
    id in replaced || (id.Derived? && FromGenerated(replaced, id.parent))
  }

  /** Records name generated numbers, each given to an occurrence that had
      another identity. */
  ghost predicate Recorded(s: State) {
    forall id <- s.replaced :: id in s.used && id.Plain? && s.replaced[id] != id
  }

  /** What the rest of a run records: earlier records stay, and a record is the
      identity its occurrence had. */
  lemma {:induction false} RunRecords(s: State, l: Labels, id: Id)
    requires Recorded(s)
    ensures Recorded(AfterAll(s, l))
    ensures id in s.replaced ==> id in AfterAll(s, l).replaced && AfterAll(s, l).replaced[id] == s.replaced[id]
    ensures id in s.used && id !in s.replaced ==> id !in AfterAll(s, l).replaced
    decreases l
  {
    if l.Cons? {
      RunRecords(After(s, l.head), l.tail, id);
    }
  }

  lemma {:induction false} OccurrenceRecorded(s: State, l: Labels, i: nat)
    requires Recorded(s) && i < Length(l) && At(l, i).Ident?
    ensures Length(AllRelabeled(s, l)) == Length(l) && At(AllRelabeled(s, l), i).Ident?
    ensures var id, replaced := At(AllRelabeled(s, l), i).id, AfterAll(s, l).replaced;
      && (id in replaced <==> id != At(l, i).id)
      && (id in replaced ==> replaced[id] == At(l, i).id)
    decreases l
  {
    AllKept(s, l);
    var t := After(s, l.head);
    if i == 0 {
      RunRecords(t, l.tail, Relabeled(s, l.head).id);
    } else {
      OccurrenceRecorded(t, l.tail, i - 1);
      assert At(l, i) == At(l.tail, i - 1);
      assert At(AllRelabeled(s, l), i) == At(AllRelabeled(t, l.tail), i - 1);
    }
  }

  lemma {:induction false} OriginOfUntouched(replaced: map<Id, Id>, id: Id)
    requires forall n <- replaced :: replaced[n] != n
    ensures Origin(replaced, id) == id <==> !FromGenerated(replaced, id)
    decreases id
  {
    if id !in replaced && id.Derived? {
      OriginOfUntouched(replaced, id.parent);
    }
  }

  /** The origin of an occurrence's new identity is the one it had before,
      exactly when it was re-keyed or kept an identity that is derived from no
      generated one. */
  lemma {:induction false} OriginIsExact(l: Labels, i: nat)
    requires i < Length(l) && At(l, i).Ident?
    ensures Length(AllRelabeled(START, l)) == Length(l) && At(AllRelabeled(START, l), i).Ident?
    ensures var was, now := At(l, i).id, At(AllRelabeled(START, l), i).id;
      var replaced := AfterAll(START, l).replaced;
      Origin(replaced, now) == was <==> now != was || !FromGenerated(replaced, was)
  {
    OccurrenceRecorded(START, l, i);
    RunRecords(START, l, At(l, i).id);
    OriginOfUntouched(AfterAll(START, l).replaced, At(l, i).id);
  }

  /** `id` derived by each ordinal in turn. */
  function Under(id: Id, ordinals: seq<nat>): Id {
    if ordinals == [] then id
    else Derived(Under(id, ordinals[..|ordinals| - 1]), ordinals[|ordinals| - 1])
  }

  lemma {:induction false} OriginUnder(replaced: map<Id, Id>, id: Id, ordinals: seq<nat>)
    requires forall n <- replaced :: n.Plain?
    ensures Origin(replaced, Under(id, ordinals)) == Under(Origin(replaced, id), ordinals)
    decreases |ordinals|
  {
    if ordinals != [] {
      OriginUnder(replaced, id, ordinals[..|ordinals| - 1]);
    }
  }

  /** A derived identity that is kept while its parent is generated for another
      occurrence is traced to the wrong node. */
  lemma {:induction false} DerivedOriginWrong()
    ensures var l := Cons(Ident(Plain(2)), Cons(Ident(Plain(2)), Cons(Ident(Derived(Plain(1), 0)), Nil)));
      && At(AllRelabeled(START, l), 2) == At(l, 2)
      && Origin(AfterAll(START, l).replaced, Derived(Plain(1), 0)) == Derived(Plain(2), 0)
  {
  }
}
