/** Result shapes and notions of sequences shared by every module. */
module Prelude {
  datatype Option<+T> = None | Some(value: T)

  datatype Result<+T, +E> = Ok(value: T) | Err(error: E)

  /** A name, compared whole. */
  datatype Name = Name(text: string)

  predicate Increasing(s: seq<nat>) {
    forall i, j | 0 <= i < j < |s| :: s[i] < s[j]
  }

  ghost predicate NoRepeats<T>(s: seq<T>) {
    forall i, j | 0 <= i < j < |s| :: s[i] != s[j]
  }

  /** How often `x` occurs in `s`. */
  function Count<T(==)>(s: seq<T>, x: T): nat {
    if s == [] then 0 else (if s[0] == x then 1 else 0) + Count(s[1..], x)
  }

  lemma {:induction false} CountConcat<T>(a: seq<T>, b: seq<T>, x: T)
    ensures Count(a + b, x) == Count(a, x) + Count(b, x)
    decreases |a|
  {
    if a == [] {
      assert a + b == b;
    } else {
      assert (a + b)[1..] == a[1..] + b;
      CountConcat(a[1..], b, x);
    }
  }

  /** Where `x` first is in `s`, if it is. */
  function Position<T(==)>(s: seq<T>, x: T): (p: Option<nat>)
    ensures p.None? <==> x !in s
    ensures p.Some? ==> p.value < |s| && s[p.value] == x
    ensures p.Some? ==> forall i | 0 <= i < p.value :: s[i] != x
  {
    if s == [] then None
    else if s[0] == x then Some(0)
    else
      match Position(s[1..], x)
      case None => None
      case Some(p) => Some(p + 1)
  }

  function Index<T(==)>(s: seq<T>, x: T): (i: nat)
    requires x in s
    ensures i < |s| && s[i] == x
    ensures forall j | 0 <= j < i :: s[j] != x
  {
    Position(s, x).value
  }

  /** `order` is one iteration order of a collection holding `keys`. */
  predicate Enumerates<K(==)>(order: seq<K>, keys: set<K>) {
    && (forall k <- keys :: k in order)
    && (forall k <- order :: k in keys)
  }

  /** Some order of `keys`. */
  ghost function Listed<T>(keys: set<T>): (order: seq<T>)
    ensures Enumerates(order, keys)
  {
    if keys == {} then []
    else
      var x :| x in keys;
      [x] + Listed(keys - {x})
  }

  lemma {:induction false} Regrouped<T>(a: seq<T>, b: seq<T>, c: seq<T>)
    ensures a + b + c == a + (b + c)
  {
  }
}
