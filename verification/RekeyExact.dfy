/**
 * Which numbers rekeying generates, read off its input, when no lambda name
 * repeats: and so exactly which identities are retained, whose origins are
 * right, and when a whole tree ends up unique.
 */
module RekeyExact {
  import opened Prelude
  import opened SyntaxIds
  import opened Rekey
  import opened RekeyBound

  /** No lambda name occurs twice. */
  ghost predicate NamesOnce(l: Labels) {
    forall i | 0 <= i < Length(l) && At(l, i).Hidden? :: !Before(l, i, At(l, i))
  }

  /** How many of the first `p` labels are identities met before. */
  ghost function Repeats(l: Labels, p: nat): nat
    requires p <= Length(l)
  {
    if p == 0 then 0
    else Repeats(l, p - 1) + if At(l, p - 1).Ident? && Before(l, p - 1, At(l, p - 1)) then 1 else 0
  }

  /** How many of the numbers from 1 to `n` are not among the first `p` labels. */
  ghost function Unmet(l: Labels, p: nat, n: nat): nat
    requires p <= Length(l)
  {
    if n == 0 then 0 else Unmet(l, p, n - 1) + if Before(l, p, Ident(Plain(n))) then 0 else 1
  }

  /** Where `x` is first met, or the end. */
  function MetAt(l: Labels, x: Label): nat {
    if l.Nil? || l.head == x then 0 else 1 + MetAt(l.tail, x)
  }

  lemma {:induction false} MetAtIsFirst(l: Labels, x: Label)
    ensures MetAt(l, x) <= Length(l) && !Before(l, MetAt(l, x), x)
    ensures MetAt(l, x) < Length(l) ==> At(l, MetAt(l, x)) == x
    decreases l
  {
    if l.Cons? && l.head != x {
      MetAtIsFirst(l.tail, x);
      BeforeShift(l, MetAt(l, x), x);
    }
  }

  /** Whether the pass generates `n`: before `n` is first met there are as many
      repeats as numbers up to `n` not met. */
  ghost predicate Generates(l: Labels, n: nat) {
    var p := MetAt(l, Ident(Plain(n)));
    MetAtIsFirst(l, Ident(Plain(n)));
    1 <= n && Unmet(l, p, n) <= Repeats(l, p)
  }

  /** Whether `x` is a number the pass generates. */
  ghost predicate IsGenerated(l: Labels, x: Label) {
    x.Ident? && x.id.Plain? && Generates(l, x.id.number)
  }

  // ------------------------------------------------------ the state part way

  /** The pass's state after the first `p` labels. */
  ghost function Reach(l: Labels, p: nat): State
    requires p <= Length(l)
  {
    AfterAll(START, Take(l, p))
  }

  lemma {:induction false} ReachStep(s: State, l: Labels, p: nat)
    requires p < Length(l)
    ensures AfterAll(s, Take(l, p + 1)) == After(AfterAll(s, Take(l, p)), At(l, p))
    decreases l
  {
    if p > 0 {
      ReachStep(After(s, l.head), l.tail, p - 1);
    } else {
      assert AfterAll(s, Take(l, 1)) == AfterAll(After(s, l.head), Nil);
    }
  }

  lemma {:induction false} TakeAll(l: Labels)
    ensures Take(l, Length(l)) == l
    decreases l
  {
    if l.Cons? {
      TakeAll(l.tail);
    }
  }

  /** Met, or passed by the counter. */
  ghost predicate MetOrPassed(l: Labels, p: nat, next: nat, id: Id)
    requires p <= Length(l)
  {
    Before(l, p, Ident(id)) || (id.Plain? && 1 <= id.number < next)
  }

  /** The used identities are those met and those passed, the names those met. */
  ghost predicate UsedAre(l: Labels, p: nat, s: State)
    requires p <= Length(l)
  {
    && 1 <= s.next
    && (forall id :: id in s.used <==> MetOrPassed(l, p, s.next, id))
    && (forall name :: name in s.names <==> Before(l, p, Hidden(name)))
  }

  /** Of the numbers not met, those passed are the generated ones. */
  ghost predicate GeneratedArePassed(l: Labels, p: nat, s: State)
    requires p <= Length(l)
  {
    && (forall n: nat :: !Before(l, p, Ident(Plain(n))) ==> (Plain(n) in s.replaced <==> 1 <= n < s.next))
    && 1 <= s.next && Unmet(l, p, s.next - 1) == Repeats(l, p)
  }

  lemma {:induction false} BeforeGrows(l: Labels, p: nat, x: Label)
    requires p < Length(l)
    ensures Before(l, p + 1, x) <==> Before(l, p, x) || At(l, p) == x
  {
  }

  lemma {:induction false} UnmetSame(l: Labels, p: nat, n: nat)
    requires p < Length(l)
    requires forall m | 1 <= m <= n :: At(l, p) == Ident(Plain(m)) ==> Before(l, p, At(l, p))
    ensures Unmet(l, p + 1, n) == Unmet(l, p, n)
    decreases n
  {
    if n > 0 {
      UnmetSame(l, p, n - 1);
      BeforeGrows(l, p, Ident(Plain(n)));
    }
  }

  lemma {:induction false} UnmetMet(l: Labels, p: nat, n: nat, k: nat)
    requires p < Length(l) && At(l, p) == Ident(Plain(k)) && !Before(l, p, At(l, p)) && 1 <= k <= n
    ensures Unmet(l, p + 1, n) + 1 == Unmet(l, p, n)
    decreases n
  {
    BeforeGrows(l, p, Ident(Plain(n)));
    if k < n {
      UnmetMet(l, p, n - 1, k);
    } else {
      UnmetSame(l, p, n - 1);
    }
  }

  lemma {:induction false} UnmetSteps(l: Labels, p: nat, a: nat, b: nat)
    requires p <= Length(l) && a <= b && forall m | a < m <= b :: Before(l, p, Ident(Plain(m)))
    ensures Unmet(l, p, b) == Unmet(l, p, a)
    decreases b
  {
    if a < b {
      UnmetSteps(l, p, a, b - 1);
    }
  }

  lemma {:induction false} UnmetGrows(l: Labels, p: nat, a: nat, b: nat)
    requires p <= Length(l) && a <= b
    ensures Unmet(l, p, a) <= Unmet(l, p, b)
    decreases b
  {
    if a < b {
      UnmetGrows(l, p, a, b - 1);
    }
  }

  lemma {:induction false} StepUsed(l: Labels, p: nat, s: State)
    requires p < Length(l) && NamesOnce(l) && UsedAre(l, p, s)
    ensures UsedAre(l, p + 1, After(s, At(l, p)))
  {
    var x, t := At(l, p), After(s, At(l, p));
    forall name ensures name in t.names <==> Before(l, p + 1, Hidden(name)) {
      BeforeGrows(l, p, Hidden(name));
    }
    forall id ensures id in t.used <==> MetOrPassed(l, p + 1, t.next, id) {
      BeforeGrows(l, p, Ident(id));
      assert id in s.used <==> MetOrPassed(l, p, s.next, id);
      if x.Ident? && x.id in s.used && id.Plain? && s.next <= id.number < Fresh(s, x) {
        assert Plain(id.number) in s.used;
      }
    }
  }

  /** A fresh identity, or a name, is kept and counts for nothing. */
  lemma {:induction false} KeptStep(l: Labels, p: nat, s: State)
    requires p < Length(l) && UsedAre(l, p, s) && GeneratedArePassed(l, p, s) && !Taken(s, At(l, p))
    ensures GeneratedArePassed(l, p + 1, After(s, At(l, p)))
  {
    var x := At(l, p);
    forall n: nat ensures !Before(l, p + 1, Ident(Plain(n))) ==> !Before(l, p, Ident(Plain(n))) {
      BeforeGrows(l, p, Ident(Plain(n)));
    }
    forall m: nat | 1 <= m <= s.next - 1 ensures x != Ident(Plain(m)) {
      assert MetOrPassed(l, p, s.next, Plain(m));
    }
    if x.Ident? {
      assert x.id in s.used <==> MetOrPassed(l, p, s.next, x.id);
    }
    UnmetSame(l, p, s.next - 1);
  }

  /** A used identity gets the next free number: one that repeats adds a repeat,
      and one generated before it was met is met now. */
  lemma {:induction false} TakenStep(l: Labels, p: nat, s: State)
    requires p < Length(l) && UsedAre(l, p, s) && GeneratedArePassed(l, p, s)
    requires At(l, p).Ident? && Taken(s, At(l, p))
    ensures GeneratedArePassed(l, p + 1, After(s, At(l, p)))
  {
    var x, m, t := At(l, p), Fresh(s, At(l, p)), After(s, At(l, p));
    assert MetOrPassed(l, p, s.next, x.id);
    forall n: nat | s.next - 1 < n <= m - 1 ensures Before(l, p, Ident(Plain(n))) {
      assert Plain(n) in s.used;
      assert MetOrPassed(l, p, s.next, Plain(n));
    }
    UnmetSteps(l, p, s.next - 1, m - 1);
    assert Plain(m) in s.used <==> MetOrPassed(l, p, s.next, Plain(m));
    assert Unmet(l, p, m) == Repeats(l, p) + 1;
    if Before(l, p, x) {
      UnmetSame(l, p, m);
    } else {
      UnmetMet(l, p, m, x.id.number);
    }
    forall n: nat | !Before(l, p + 1, Ident(Plain(n))) ensures Plain(n) in t.replaced <==> 1 <= n < t.next {
      BeforeGrows(l, p, Ident(Plain(n)));
    }
  }

  lemma {:induction false} StateStep(l: Labels, p: nat, s: State)
    requires p < Length(l) && NamesOnce(l) && UsedAre(l, p, s) && GeneratedArePassed(l, p, s)
    ensures UsedAre(l, p + 1, After(s, At(l, p))) && GeneratedArePassed(l, p + 1, After(s, At(l, p)))
  {
    StepUsed(l, p, s);
    if Taken(s, At(l, p)) {
      TakenStep(l, p, s);
    } else {
      KeptStep(l, p, s);
    }
  }

  lemma {:induction false} StateAtFirst(l: Labels)
    ensures UsedAre(l, 0, START) && GeneratedArePassed(l, 0, START)
  {
    assert forall id :: !MetOrPassed(l, 0, 1, id);
  }

  lemma {:induction false} StateKnown(l: Labels, p: nat)
    requires p <= Length(l) && NamesOnce(l)
    ensures UsedAre(l, p, Reach(l, p)) && GeneratedArePassed(l, p, Reach(l, p))
    decreases p
  {
    if p == 0 {
      StateAtFirst(l);
    } else {
      StateKnown(l, p - 1);
      ReachStep(START, l, p - 1);
      StateStep(l, p - 1, Reach(l, p - 1));
    }
  }

  // --------------------------------------------------------- what is generated

  /** A number not met yet has been generated exactly when no more numbers up to
      it are unmet than there were repeats. */
  lemma {:induction false} PassedWhenFew(l: Labels, p: nat, n: nat)
    requires p <= Length(l) && NamesOnce(l) && !Before(l, p, Ident(Plain(n)))
    ensures Plain(n) in Reach(l, p).replaced <==> 1 <= n && Unmet(l, p, n) <= Repeats(l, p)
    ensures Plain(n) in Reach(l, p).used <==> Plain(n) in Reach(l, p).replaced
  {
    StateKnown(l, p);
    var s := Reach(l, p);
    assert Plain(n) in s.used <==> MetOrPassed(l, p, s.next, Plain(n));
    if 1 <= n < s.next {
      UnmetGrows(l, p, n, s.next - 1);
    } else if 1 <= n {
      UnmetGrows(l, p, s.next - 1, n - 1);
    }
  }

  /** Once used, a number is generated or not for good. */
  lemma {:induction false} SettledOnceUsed(l: Labels, p: nat, q: nat, id: Id)
    requires p <= q <= Length(l) && id in Reach(l, p).used
    ensures id in Reach(l, q).used && (id in Reach(l, q).replaced <==> id in Reach(l, p).replaced)
    decreases q
  {
    if p < q {
      SettledOnceUsed(l, p, q - 1, id);
      ReachStep(START, l, q - 1);
    }
  }

  /** When no lambda name repeats, the pass generates `n` exactly when there are
      as many repeats before `n` is first met, or in all when it never is, as
      numbers up to `n` not met by then. */
  lemma {:induction false} GeneratedExactly(l: Labels, n: nat)
    requires NamesOnce(l)
    ensures Plain(n) in AfterAll(START, l).replaced <==> Generates(l, n)
  {
    var x := Ident(Plain(n));
    var p := MetAt(l, x);
    MetAtIsFirst(l, x);
    PassedWhenFew(l, p, n);
    TakeAll(l);
    if p < Length(l) {
      ReachStep(START, l, p);
      StateKnown(l, p + 1);
      BeforeGrows(l, p, x);
      assert MetOrPassed(l, p + 1, Reach(l, p + 1).next, Plain(n));
      SettledOnceUsed(l, p + 1, Length(l), Plain(n));
    }
  }

  // ------------------------------------------------------------- consequences

  lemma {:induction false} PrefixTaken(s: State, l: Labels, i: nat)
    requires i < Length(l)
    ensures Length(AllRelabeled(s, l)) == Length(l)
    ensures At(AllRelabeled(s, l), i) == Relabeled(AfterAll(s, Take(l, i)), At(l, i))
    decreases l
  {
    AllKept(s, l);
    if i > 0 {
      PrefixTaken(After(s, l.head), l.tail, i - 1);
    }
  }

  lemma {:induction false} FirstIsMetAt(l: Labels, x: Label, i: nat)
    requires i < Length(l) && At(l, i) == x && !Before(l, i, x)
    ensures MetAt(l, x) == i
  {
    MetAtIsFirst(l, x);
  }

  /** When no lambda name repeats, an occurrence is retained exactly where its
      label is met first and, for a number, was not generated before. */
  lemma {:induction false} RetainedExactly(l: Labels, i: nat)
    requires i < Length(l) && NamesOnce(l)
    ensures Length(AllRelabeled(START, l)) == Length(l)
    ensures At(AllRelabeled(START, l), i) == At(l, i)
       <==> !Before(l, i, At(l, i)) && !IsGenerated(l, At(l, i))
  {
    var x, s := At(l, i), Reach(l, i);
    PrefixTaken(START, l, i);
    StateKnown(l, i);
    EndsFree(START, l, i);
    if x.Ident? {
      assert x.id in s.used <==> MetOrPassed(l, i, s.next, x.id);
      if x.id.Plain? && !Before(l, i, x) {
        MetAtIsFirst(l, x);
        FirstIsMetAt(l, x, i);
        PassedWhenFew(l, i, x.id.number);
      }
    }
  }

  lemma {:induction false} GeneratedAtRoot(replaced: map<Id, Id>, id: Id)
    requires forall n <- replaced :: n.Plain?
    ensures FromGenerated(replaced, id) <==> Plain(Root(id)) in replaced
    decreases id
  {
    if id.Derived? {
      GeneratedAtRoot(replaced, id.parent);
    }
  }

  /** An occurrence's origin is right exactly when it came in with a plain
      identity, or a repeated one, or one derived from a number not generated. */
  lemma {:induction false} OriginAtRoot(l: Labels, i: nat)
    requires i < Length(l) && At(l, i).Ident?
    ensures Length(AllRelabeled(START, l)) == Length(l) && At(AllRelabeled(START, l), i).Ident?
    ensures var was, now := At(l, i).id, At(AllRelabeled(START, l), i).id;
      var replaced := AfterAll(START, l).replaced;
      Origin(replaced, now) == was <==> was.Plain? || Before(l, i, At(l, i)) || Plain(Root(was)) !in replaced
  {
    var was, replaced := At(l, i).id, AfterAll(START, l).replaced;
    OriginIsExact(l, i);
    OccurrenceRecorded(START, l, i);
    GeneratedWithinCount(l);
    GeneratedAtRoot(replaced, was);
    if was.Derived? {
      FirstMetIsRetained(l, i);
    }
  }

  /** And so, when no lambda name repeats, by a condition on the input alone. */
  lemma {:induction false} OriginExactly(l: Labels, i: nat)
    requires i < Length(l) && At(l, i).Ident? && NamesOnce(l)
    ensures Length(AllRelabeled(START, l)) == Length(l) && At(AllRelabeled(START, l), i).Ident?
    ensures var was, now := At(l, i).id, At(AllRelabeled(START, l), i).id;
      Origin(AfterAll(START, l).replaced, now) == was <==>
      was.Plain? || Before(l, i, At(l, i)) || !Generates(l, Root(was))
  {
    OriginAtRoot(l, i);
    GeneratedExactly(l, Root(At(l, i).id));
  }

  lemma {:induction false} UsedAreHeld(s: State, l: Labels, x: Label)
    ensures Taken(AfterAll(s, l), x) <==> Taken(s, x) || Holds(AllRelabeled(s, l), x)
    decreases l
  {
    if l.Cons? {
      var t, r := After(s, l.head), AllRelabeled(s, l);
      UsedAreHeld(t, l.tail, x);
      AllKept(s, l);
      AllKept(t, l.tail);
      BeforeShift(r, Length(r), x);
    }
  }

  /** What the visited labels end up holding: what they held, and what is
      generated. */
  lemma {:induction false} EndsHolding(l: Labels, x: Label)
    requires NamesOnce(l)
    ensures Holds(AllRelabeled(START, l), x)
       <==> Holds(l, x) || IsGenerated(l, x)
  {
    var r, n := AllRelabeled(START, l), Length(l);
    AllKept(START, l);
    StateKnown(l, n);
    TakeAll(l);
    UsedAreHeld(START, l, x);
    if x.Ident? {
      assert x.id in Reach(l, n).used <==> MetOrPassed(l, n, Reach(l, n).next, x.id);
      if x.id.Plain? {
        GeneratedExactly(l, x.id.number);
        if !Holds(l, x) {
          PassedWhenFew(l, n, x.id.number);
        }
      }
    }
  }

  /** No label of `skipped` is a number the pass generates. */
  ghost predicate NoneGenerated(visited: Labels, skipped: Labels) {
    forall j | 0 <= j < Length(skipped) :: !IsGenerated(visited, At(skipped, j))
  }

  /** When no visited lambda name repeats, the whole final tree is unique exactly
      when the labels skipped are distinct, none of them is also a visited one, and
      none is a number the pass generates. */
  lemma {:induction false} WholeTreeExactly(visited: Labels, skipped: Labels)
    requires NamesOnce(visited)
    ensures AllDistinct(AllRelabeled(START, visited), skipped)
       <==> Distinct(skipped) && Apart(visited, skipped) && NoneGenerated(visited, skipped)
  {
    var r := AllRelabeled(START, visited);
    AllKept(START, visited);
    if visited.Cons? {
      RekeyingMakesUnique(visited, 0);
    }
    forall j | 0 <= j < Length(skipped)
      ensures Holds(r, At(skipped, j)) <==> Holds(visited, At(skipped, j)) || IsGenerated(visited, At(skipped, j))
    {
      EndsHolding(visited, At(skipped, j));
    }
    assert Apart(r, skipped) <==> Apart(visited, skipped) && NoneGenerated(visited, skipped);
  }
}
