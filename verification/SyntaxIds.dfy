/**
 * Syntax identities: plain numbers, and identities derived from another by an
 * ordinal. The program hands derived identities out as numbers, through a
 * table; the table is proved to represent the derivation trees faithfully.
 */
module SyntaxIds {
  import opened Prelude

  /** An identity as its derivation tree. */
  datatype Id = Plain(number: nat) | Derived(parent: Id, ordinal: nat)

  /** An identity as the program holds it: a number whose tag bit says that the
      rest is the table's index of a derived identity. */
  datatype Code = Untagged(number: nat) | Tagged(index: nat)

  type Pair = (Code, nat)

  /** What the table's rows say; row `i` was added `i`-th. */
  ghost predicate Grown(rows: seq<Pair>) {
    && (forall i | 0 <= i < |rows| :: rows[i].0.Tagged? ==> rows[i].0.index < i)
    && (forall i, j | 0 <= i < j < |rows| :: rows[i] != rows[j])
  }

  ghost predicate Known(rows: seq<Pair>, code: Code) {
    code.Tagged? ==> code.index < |rows|
  }

  function Height(code: Code): nat {
    if code.Tagged? then code.index + 1 else 0
  }

  ghost function Meaning(rows: seq<Pair>, code: Code): Id
    requires Grown(rows) && Known(rows, code)
    decreases Height(code)
  {
    match code
    case Untagged(n) => Plain(n)
    case Tagged(i) => Derived(Meaning(rows, rows[i].0), rows[i].1)
  }

  /** Two codes never stand for the same identity. */
  lemma {:induction false} MeaningIsInjective(rows: seq<Pair>, a: Code, b: Code)
    requires Grown(rows) && Known(rows, a) && Known(rows, b)
    requires Meaning(rows, a) == Meaning(rows, b)
    ensures a == b
    decreases Height(a)
  {
    if a.Tagged? {
      MeaningIsInjective(rows, rows[a.index].0, rows[b.index].0);
      assert rows[a.index] == rows[b.index];
    }
  }

  /** Handing out more identities changes what no earlier one means. */
  lemma {:induction false} MeaningIsStable(rows: seq<Pair>, more: seq<Pair>, code: Code)
    requires Grown(rows) && Grown(more) && rows <= more && Known(rows, code)
    ensures Meaning(more, code) == Meaning(rows, code)
    decreases Height(code)
  {
    if code.Tagged? {
      MeaningIsStable(rows, more, rows[code.index].0);
    }
  }

  lemma {:induction false} GrownSnoc(rows: seq<Pair>, pair: Pair)
    requires Grown(rows) && Known(rows, pair.0) && pair !in rows
    ensures Grown(rows + [pair])
  {
  }

  /** `forward` finds the row of each pair and no other. */
  ghost predicate FindsRows(forward: map<Pair, Code>, rows: seq<Pair>) {
    && |forward| == |rows|
    && (forall i | 0 <= i < |rows| :: rows[i] in forward && forward[rows[i]] == Tagged(i))
    && (forall pair <- forward :: pair in rows)
  }

  /** `backward` reads each row. */
  ghost predicate ReadsRows(backward: map<Code, Pair>, rows: seq<Pair>) {
    && (forall code <- backward :: code.Tagged? && code.index < |rows|)
    && (forall i | 0 <= i < |rows| :: Tagged(i) in backward && backward[Tagged(i)] == rows[i])
  }

  lemma {:induction false} ReadsRowsSnoc(backward: map<Code, Pair>, rows: seq<Pair>, pair: Pair)
    requires ReadsRows(backward, rows)
    ensures ReadsRows(backward[Tagged(|rows|) := pair], rows + [pair])
  {
  }

  class Derivations {
    var forward: map<Pair, Code>
    var backward: map<Code, Pair>
    ghost var rows: seq<Pair>

    ghost predicate Valid()
      reads this
    {
      Grown(rows) && FindsRows(forward, rows) && ReadsRows(backward, rows)
    }

    constructor ()
      ensures Valid() && rows == []
    {
      forward, backward, rows := map[], map[], [];
    }

    /** The identity of the `ordinal`-th node synthesized from `parent`: the
        same pair always gives the same one, and it means just that. */
    method Derive(parent: Code, ordinal: nat) returns (code: Code)
      requires Valid() && Known(rows, parent)
      modifies this
      ensures Valid() && old(rows) <= rows
      ensures Known(rows, code) && Known(rows, parent)
      ensures Meaning(rows, code) == Derived(Meaning(rows, parent), ordinal)
      ensures (parent, ordinal) in old(forward) ==> rows == old(rows) && code == old(forward)[(parent, ordinal)]
      ensures (parent, ordinal) !in old(forward) ==> !Known(old(rows), code)
    {
      var pair := (parent, ordinal);
      if pair in forward {
        return forward[pair];
      }
      ReadsRowsSnoc(backward, rows, pair);
      GrownSnoc(rows, pair);
      MeaningIsStable(rows, rows + [pair], parent);
      code := Tagged(|forward|);
      forward := forward[pair := code];
      backward := backward[code := pair];
      rows := rows + [pair];
    }

    /** The pair a derived identity was made from. */
    method Derivation(code: Code) returns (pair: Option<Pair>)
      requires Valid()
      ensures pair.Some? <==> code.Tagged? && Known(rows, code)
      ensures pair.Some? ==> Known(rows, pair.value.0)
                             && Meaning(rows, code) == Derived(Meaning(rows, pair.value.0), pair.value.1)
    {
      pair := if code.Tagged? && code in backward then Some(backward[code]) else None;
    }
  }
}
