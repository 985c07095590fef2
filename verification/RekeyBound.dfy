/**
 * Rekeying gives out small numbers: none exceeds the number of occurrences the
 * pass visits. So the numbers stay clear of the tagged ones, and of the origins
 * of derived identities made from larger numbers.
 */
module RekeyBound {
  import opened Prelude
  import opened Numerals
  import opened SyntaxIds
  import opened Rekey

  lemma {:induction false} DecimalIsDigits(n: nat, i: nat)
    requires i < |Decimal(n)|
    ensures Decimal(n)[i] != '$'
    decreases n
  {
    if i < |Decimal(n)| - 1 {
      DecimalIsDigits(n / 10, i);
    }
  }

  lemma {:induction false} SuffixNotShorter(a: Name, i: nat, b: Name, j: nat)
    requires Suffixed(a, i) == Suffixed(b, j)
    ensures |a.text| <= |b.text|
  {
    if |b.text| < |a.text| {
      var k := |a.text| - |b.text| - 1;
      assert Suffixed(a, i).text[|a.text|] == '$';
      assert Suffixed(b, j).text[|a.text|] == Decimal(j)[k];
      DecimalIsDigits(j, k);
    }
  }

  /** A suffixed name tells its suffix, whatever the name before it. */
  lemma {:induction false} SuffixIsKnown(a: Name, i: nat, b: Name, j: nat)
    requires Suffixed(a, i) == Suffixed(b, j)
    ensures i == j
  {
    SuffixNotShorter(a, i, b, j);
    SuffixNotShorter(b, j, a, i);
    var s, t := Suffixed(a, i).text, Suffixed(b, j).text;
    assert s[|a.text| + 1..] == Decimal(i) && t[|b.text| + 1..] == Decimal(j);
    DecimalIsInjective(i, j);
  }

  // ----------------------------------------------------------- the budget

  ghost predicate SuffixedPast(next: nat, name: Name) {
    exists base, n :: next <= n && name == Suffixed(base, n)
  }

  /** The names the counter can still run into. */
  ghost function NamesPast(names: set<Name>, next: nat): set<Name> {
    set name | name in names && SuffixedPast(next, name)
  }

  /** The counter, and what it can still skip. */
  ghost function Budget(s: State): nat {
    s.next + |IdsFrom(s.used, s.next)| + |NamesPast(s.names, s.next)|
  }

  lemma {:induction false} Fewer<T>(s: set<T>, t: set<T>)
    requires s <= t
    ensures |s| <= |t|
    decreases |s|
  {
    if s != {} {
      var x :| x in s;
      Fewer(s - {x}, t - {x});
    }
  }

  lemma {:induction false} Grows<T>(s: set<T>, t: set<T>, x: T)
    requires t <= s + {x}
    ensures |t| <= |s| + 1
  {
    Fewer(t, s + {x});
  }

  /** Passing the used numbers up to `n` takes each off what is ahead. */
  lemma {:induction false} IdsPassed(used: set<Id>, next: nat, n: nat)
    requires next <= n && forall m | next <= m < n :: Plain(m) in used
    ensures |IdsFrom(used, n)| + n - next <= |IdsFrom(used, next)|
    decreases n - next
  {
    if next < n {
      IdsPassed(used, next + 1, n);
      var ahead := IdsFrom(used, next);
      assert Plain(next) in ahead;
      Fewer(IdsFrom(used, next + 1), ahead - {Plain(next)});
    }
  }

  lemma {:induction false} NamesPassed(names: set<Name>, base: Name, next: nat, n: nat)
    requires next <= n && forall m | next <= m < n :: Suffixed(base, m) in names
    ensures |NamesPast(names, n)| + n - next <= |NamesPast(names, next)|
    decreases n - next
  {
    if next < n {
      NamesPassed(names, base, next + 1, n);
      var ahead, passed := NamesPast(names, next), Suffixed(base, next);
      assert passed in ahead;
      forall name <- NamesPast(names, next + 1) ensures name in ahead - {passed} {
        var other, k :| next + 1 <= k && name == Suffixed(other, k);
        if name == passed {
          SuffixIsKnown(other, k, base, next);
        }
      }
      Fewer(NamesPast(names, next + 1), ahead - {passed});
    }
  }

  lemma {:induction false} IdsShrink(used: set<Id>, more: set<Id>, next: nat, n: nat)
    requires 0 < n && next <= n && more <= used + {Plain(n - 1)}
    ensures |IdsFrom(more, n)| <= |IdsFrom(used, n)| <= |IdsFrom(used, next)|
  {
    Fewer(IdsFrom(more, n), IdsFrom(used, n));
    Fewer(IdsFrom(used, n), IdsFrom(used, next));
  }

  lemma {:induction false} NamesShrinkPast(names: set<Name>, next: nat, n: nat)
    requires next <= n
    ensures |NamesPast(names, n)| <= |NamesPast(names, next)|
  {
    Fewer(NamesPast(names, n), NamesPast(names, next));
  }

  lemma {:induction false} NewNameIsPast(names: set<Name>, base: Name, n: nat)
    ensures |NamesPast(names + {Suffixed(base, n)}, n + 1)| <= |NamesPast(names, n + 1)|
  {
    var past := NamesPast(names + {Suffixed(base, n)}, n + 1);
    forall name <- past ensures name in NamesPast(names, n + 1) {
      var other, k :| n + 1 <= k && name == Suffixed(other, k);
      if name == Suffixed(base, n) {
        SuffixIsKnown(other, k, base, n);
      }
    }
    Fewer(past, NamesPast(names, n + 1));
  }

  /** Each occurrence adds one to the budget at most. */
  lemma {:induction false} StepSpends(s: State, tag: Label)
    ensures Budget(After(s, tag)) <= Budget(s) + 1
  {
    var t := After(s, tag);
    if !Taken(s, tag) {
      match tag
      case Ident(id) => Grows(IdsFrom(s.used, s.next), IdsFrom(t.used, s.next), id);
      case Hidden(name) => Grows(NamesPast(s.names, s.next), NamesPast(t.names, s.next), name);
    } else {
      var n := Fresh(s, tag);
      match tag
      case Ident(_) =>
        IdsPassed(s.used, s.next, n);
        IdsShrink(s.used, t.used, n, n + 1);
        NamesShrinkPast(s.names, s.next, n + 1);
      case Hidden(name) =>
        NamesPassed(s.names, name, s.next, n);
        NamesShrinkPast(s.names, n, n + 1);
        NewNameIsPast(s.names, name, n);
        IdsShrink(s.used, s.used, s.next, n + 1);
    }
  }

  ghost predicate GivenBelow(s: State) {
    forall id <- s.replaced :: id.Plain? && id.number < s.next
  }

  lemma {:induction false} RunSpends(s: State, l: Labels)
    requires GivenBelow(s)
    ensures GivenBelow(AfterAll(s, l)) && Budget(AfterAll(s, l)) <= Budget(s) + Length(l)
    decreases l
  {
    if l.Cons? {
      StepSpends(s, l.head);
      RunSpends(After(s, l.head), l.tail);
    }
  }

  /** No number the pass gives out exceeds the number of occurrences it visits,
      and its counter ends at most one past that. */
  lemma {:induction false} GeneratedWithinCount(l: Labels)
    ensures AfterAll(START, l).next <= Length(l) + 1
    ensures forall id <- AfterAll(START, l).replaced :: id.Plain? && id.number <= Length(l)
  {
    RunSpends(START, l);
    assert IdsFrom({}, 1) == {} && NamesPast({}, 1) == {};
  }

  /** The number an identity is derived from, at any depth. */
  function Root(id: Id): nat {
    match id
    case Plain(n) => n
    case Derived(parent, _) => Root(parent)
  }

  lemma {:induction false} LargeIsNotGenerated(replaced: map<Id, Id>, bound: nat, id: Id)
    requires forall n <- replaced :: n.Plain? && n.number <= bound
    requires Root(id) > bound
    ensures !FromGenerated(replaced, id)
    decreases id
  {
    if id.Derived? {
      LargeIsNotGenerated(replaced, bound, id.parent);
    }
  }

  /** When an occurrence came in with a plain identity, or one derived from a
      number larger than the number of occurrences, the origin of every identity
      derived, to any depth, from its new one is derived alike from the identity
      it had before. */
  lemma {:induction false} OriginsReachThroughDerivations(l: Labels, i: nat, ordinals: seq<nat>)
    requires i < Length(l) && At(l, i).Ident?
    requires At(l, i).id.Derived? ==> Root(At(l, i).id) > Length(l)
    ensures Length(AllRelabeled(START, l)) == Length(l) && At(AllRelabeled(START, l), i).Ident?
    ensures Origin(AfterAll(START, l).replaced, Under(At(AllRelabeled(START, l), i).id, ordinals))
         == Under(At(l, i).id, ordinals)
  {
    var replaced := AfterAll(START, l).replaced;
    GeneratedWithinCount(l);
    OccurrenceRecorded(START, l, i);
    if At(l, i).id.Derived? {
      LargeIsNotGenerated(replaced, Length(l), At(l, i).id);
    }
    OriginIsExact(l, i);
    OriginUnder(replaced, At(AllRelabeled(START, l), i).id, ordinals);
  }

  // ------------------------------------------------- what is always retained

  /** A label of the kind the pass generates from numbers up to `bound`. A
      parser's identity is none: its high bit makes it larger than any count of
      occurrences. */
  ghost predicate Small(tag: Label, bound: nat) {
    match tag
    case Ident(Plain(n)) => n <= bound
    case Ident(Derived(_, _)) => false
    case Hidden(name) => exists base, n: nat :: n <= bound && name == Suffixed(base, n)
  }

  lemma {:induction false} CounterGrows(s: State, l: Labels)
    ensures s.next <= AfterAll(s, l).next
    decreases l
  {
    if l.Cons? {
      CounterGrows(After(s, l.head), l.tail);
    }
  }

  /** A label the pass changes becomes one generated below the final counter. */
  lemma {:induction false} ChangedIsSmall(s: State, l: Labels, i: nat, bound: nat)
    requires i < Length(l) && AfterAll(s, l).next <= bound + 1
    ensures Length(AllRelabeled(s, l)) == Length(l)
    ensures At(AllRelabeled(s, l), i) != At(l, i) ==> Small(At(AllRelabeled(s, l), i), bound)
    decreases l
  {
    AllKept(s, l);
    var t := After(s, l.head);
    if i == 0 {
      CounterGrows(t, l.tail);
      assert Taken(s, l.head) ==> Fresh(s, l.head) < t.next;
    } else {
      ChangedIsSmall(t, l.tail, i - 1, bound);
      assert At(l, i) == At(l.tail, i - 1);
      assert At(AllRelabeled(s, l), i) == At(AllRelabeled(t, l.tail), i - 1);
    }
  }

  function Take(l: Labels, n: nat): (r: Labels)
    requires n <= Length(l)
    ensures Length(r) == n
  {
    if n == 0 then Nil else Cons(l.head, Take(l.tail, n - 1))
  }

  lemma {:induction false} TakeRelabeled(s: State, l: Labels, n: nat, j: nat)
    requires j < n <= Length(l)
    ensures Length(AllRelabeled(s, l)) == Length(l) && Length(AllRelabeled(s, Take(l, n))) == n
    ensures At(Take(l, n), j) == At(l, j) && At(AllRelabeled(s, Take(l, n)), j) == At(AllRelabeled(s, l), j)
    decreases l
  {
    AllKept(s, l);
    AllKept(s, Take(l, n));
    if j > 0 {
      TakeRelabeled(After(s, l.head), l.tail, n - 1, j - 1);
    }
  }

  /** An identity that is derived, or larger than the number of occurrences before
      it, as the parser's are, is retained exactly where it is met first; and so is
      a lambda name that does not look generated. */
  lemma {:induction false} FirstMetIsRetained(l: Labels, i: nat)
    requires i < Length(l) && !Small(At(l, i), i)
    ensures Length(AllRelabeled(START, l)) == Length(l)
    ensures At(AllRelabeled(START, l), i) == At(l, i) <==> !Before(l, i, At(l, i))
  {
    var r, x := AllRelabeled(START, l), At(l, i);
    GeneratedWithinCount(Take(l, i));
    RekeyingMakesUnique(l, i);
    forall j | 0 <= j < i ensures At(r, j) == x ==> At(l, j) == x {
      TakeRelabeled(START, l, i, j);
      ChangedIsSmall(START, Take(l, i), j, i);
    }
    if j :| 0 <= j < i && At(l, j) == x {
      RekeyingMakesUnique(l, j);
      if At(r, j) != x {
        var m :| 0 <= m < j && At(r, m) == x;
        assert Before(r, i, x);
      }
    }
  }

  ghost predicate Holds(l: Labels, x: Label) {
    Before(l, Length(l), x)
  }

  lemma {:induction false} FirstMet(l: Labels, x: Label, n: nat) returns (j: nat)
    requires n <= Length(l) && Before(l, n, x)
    ensures j < n && At(l, j) == x && !Before(l, j, x)
    decreases n
  {
    if Before(l, n - 1, x) {
      j := FirstMet(l, x, n - 1);
    } else {
      j := n - 1;
    }
  }

  lemma {:induction false} RetainedSomewhere(l: Labels, x: Label)
    requires !Small(x, Length(l))
    ensures Holds(AllRelabeled(START, l), x) <==> Holds(l, x)
  {
    AllKept(START, l);
    GeneratedWithinCount(l);
    var r := AllRelabeled(START, l);
    if j :| 0 <= j < Length(r) && At(r, j) == x {
      ChangedIsSmall(START, l, j, Length(l));
      assert At(l, j) == x;
    }
    if Holds(l, x) {
      var j := FirstMet(l, x, Length(l));
      assert Small(x, j) ==> Small(x, Length(l));
      FirstMetIsRetained(l, j);
      assert At(r, j) == x;
    }
  }

  /** No label of `skipped` is one of `visited`. */
  ghost predicate Apart(visited: Labels, skipped: Labels) {
    forall j | 0 <= j < Length(skipped) :: !Holds(visited, At(skipped, j))
  }

  /** The labels of `visited` and `skipped`, all together, are distinct. */
  ghost predicate AllDistinct(visited: Labels, skipped: Labels) {
    Distinct(visited) && Distinct(skipped) && Apart(visited, skipped)
  }

  /** No label is one the pass could generate among `count` occurrences. */
  ghost predicate NoneSmall(l: Labels, count: nat) {
    forall j | 0 <= j < Length(l) :: !Small(At(l, j), count)
  }

  /** When what the pass does not visit is labeled as the parser labels, the whole
      final tree is distinct exactly when those labels are distinct and none is
      also the label of something visited. */
  lemma {:induction false} WholeTreeIsUnique(visited: Labels, skipped: Labels)
    requires NoneSmall(skipped, Length(visited))
    ensures AllDistinct(AllRelabeled(START, visited), skipped) <==> Distinct(skipped) && Apart(visited, skipped)
  {
    var r := AllRelabeled(START, visited);
    AllKept(START, visited);
    if visited.Cons? {
      RekeyingMakesUnique(visited, 0);
    }
    forall j | 0 <= j < Length(skipped) ensures Holds(r, At(skipped, j)) <==> Holds(visited, At(skipped, j)) {
      RetainedSomewhere(visited, At(skipped, j));
    }
    assert Apart(r, skipped) <==> Apart(visited, skipped);
  }

  /** The whole tree need not end up unique: any identity met once that is also
      skipped once is left in both places. */
  lemma {:induction false} SkippedStaysDuplicate(id: Id)
    ensures var l := Cons(Ident(id), Nil);
      AllRelabeled(START, l) == l && !AllDistinct(AllRelabeled(START, l), l)
  {
    var l := Cons(Ident(id), Nil);
    assert AllRelabeled(START, l) == l;
    assert At(l, 0) == Ident(id) && Holds(l, At(l, 0));
  }
}
