/**
 * Pruning the package cache: the current package stays, and of the others the
 * three most recently modified.
 */
module PackagePrune {
  import opened Prelude

  const KEPT: nat := 3

  /** A directory entry. Paths are numbered in their order; `modified` is absent
      when it cannot be read; `package` says that the name starts as packages'
      names do. */
  datatype Entry = Entry(path: nat, modified: Option<nat>, package: bool)

  /** Whether `e` is a package other than the current one, with a known time. */
  predicate Other(e: Entry, current: nat) {
    e.path != current && e.package && e.modified.Some?
  }

  /** `a` sorts after `b`: modified later, or at once and later in path order. */
  predicate Newer(a: Entry, b: Entry)
    requires a.modified.Some? && b.modified.Some?
  {
    || a.modified.value > b.modified.value
    || (a.modified.value == b.modified.value && a.path > b.path)
  }

  predicate Timed(entries: seq<Entry>) {
    forall i | 0 <= i < |entries| :: entries[i].modified.Some?
  }

  ghost predicate DistinctPaths(entries: seq<Entry>) {
    forall i, j | 0 <= i < j < |entries| :: entries[i].path != entries[j].path
  }

  /** How many of `entries` are other packages newer than `e`. */
  function NewerOthers(entries: seq<Entry>, current: nat, e: Entry): nat
    requires e.modified.Some?
  {
    if entries == [] then 0
    else (if Other(entries[0], current) && Newer(entries[0], e) then 1 else 0)
         + NewerOthers(entries[1..], current, e)
  }

  /** `sorted` runs from newest to oldest. */
  ghost predicate Descending(sorted: seq<Entry>)
    requires Timed(sorted)
  {
    forall i, j | 0 <= i < j < |sorted| :: Newer(sorted[i], sorted[j])
  }

  /** `sorted` with `e` put in its place. */
  function Inserted(sorted: seq<Entry>, e: Entry): (r: seq<Entry>)
    requires Timed(sorted) && e.modified.Some?
    ensures Timed(r) && |r| == |sorted| + 1
    ensures forall x :: x in r <==> x in sorted || x == e
  {
    if sorted == [] || Newer(e, sorted[0]) then [e] + sorted
    else
      assert sorted == [sorted[0]] + sorted[1..];
      [sorted[0]] + Inserted(sorted[1..], e)
  }

  lemma {:induction false} InsertedDescends(sorted: seq<Entry>, e: Entry)
    requires Timed(sorted) && Descending(sorted) && e.modified.Some?
    requires forall x <- sorted :: x.path != e.path
    ensures Descending(Inserted(sorted, e))
    decreases |sorted|
  {
    if sorted != [] && !Newer(e, sorted[0]) {
      var rest := sorted[1..];
      assert forall x <- rest :: x in sorted && Newer(sorted[0], x);
      InsertedDescends(rest, e);
      var r := Inserted(rest, e);
      assert sorted[0] in sorted;
      forall k | 0 <= k < |r| ensures Newer(sorted[0], r[k]) {
        assert r[k] in r;
      }
    }
  }

  /** The other packages from newest to oldest. */
  function Ranking(entries: seq<Entry>, current: nat): (r: seq<Entry>)
    ensures Timed(r)
    ensures forall x :: x in r <==> x in entries && Other(x, current)
  {
    if entries == [] then []
    else
      assert entries == [entries[0]] + entries[1..];
      var rest := Ranking(entries[1..], current);
      if Other(entries[0], current) then Inserted(rest, entries[0]) else rest
  }

  lemma {:induction false} RankingDescends(entries: seq<Entry>, current: nat)
    requires DistinctPaths(entries)
    ensures Descending(Ranking(entries, current))
    decreases |entries|
  {
    if entries != [] {
      RankingDescends(entries[1..], current);
      var rest := Ranking(entries[1..], current);
      if Other(entries[0], current) {
        forall x <- rest ensures x.path != entries[0].path {
          var k :| 0 <= k < |entries| - 1 && entries[1..][k] == x;
          assert entries[k + 1] == x;
        }
        InsertedDescends(rest, entries[0]);
      }
    }
  }

  /** How many of `sorted` are newer than `e`. */
  function Ahead(sorted: seq<Entry>, e: Entry): nat
    requires Timed(sorted) && e.modified.Some?
  {
    if sorted == [] then 0 else (if Newer(sorted[0], e) then 1 else 0) + Ahead(sorted[1..], e)
  }

  lemma {:induction false} InsertedAhead(sorted: seq<Entry>, x: Entry, e: Entry)
    requires Timed(sorted) && x.modified.Some? && e.modified.Some?
    ensures Ahead(Inserted(sorted, x), e) == Ahead(sorted, e) + if Newer(x, e) then 1 else 0
    decreases |sorted|
  {
    var r := Inserted(sorted, x);
    if sorted == [] || Newer(x, sorted[0]) {
      assert r[1..] == sorted;
    } else {
      InsertedAhead(sorted[1..], x, e);
      assert r[1..] == Inserted(sorted[1..], x);
    }
  }

  lemma {:induction false} RankingAhead(entries: seq<Entry>, current: nat, e: Entry)
    requires e.modified.Some?
    ensures Ahead(Ranking(entries, current), e) == NewerOthers(entries, current, e)
    decreases |entries|
  {
    if entries != [] {
      RankingAhead(entries[1..], current, e);
      if Other(entries[0], current) {
        InsertedAhead(Ranking(entries[1..], current), entries[0], e);
      }
    }
  }

  lemma {:induction false} NoneAhead(sorted: seq<Entry>, e: Entry)
    requires Timed(sorted) && e.modified.Some? && forall x <- sorted :: !Newer(x, e)
    ensures Ahead(sorted, e) == 0
    decreases |sorted|
  {
    if sorted != [] {
      assert sorted[0] in sorted && forall x <- sorted[1..] :: x in sorted;
      NoneAhead(sorted[1..], e);
    }
  }

  /** In a ranking, the place of an entry is how many are newer. */
  lemma {:induction false} PlaceIsAhead(sorted: seq<Entry>, i: nat)
    requires Timed(sorted) && Descending(sorted) && i < |sorted|
    ensures Ahead(sorted, sorted[i]) == i
    decreases |sorted|
  {
    var rest := sorted[1..];
    if i == 0 {
      NoneAhead(rest, sorted[0]);
    } else {
      PlaceIsAhead(rest, i - 1);
    }
  }

  ghost predicate Past(others: seq<Entry>, n: nat, path: nat) {
    exists k | KEPT <= k < |others| && k < n :: others[k].path == path
  }

  lemma {:induction false} PastIsOld(entries: seq<Entry>, current: nat, e: Entry)
    requires DistinctPaths(entries) && e in entries
    ensures var others := Ranking(entries, current);
      Past(others, |others|, e.path) <==> Other(e, current) && NewerOthers(entries, current, e) >= KEPT
  {
    var others := Ranking(entries, current);
    RankingDescends(entries, current);
    forall k | 0 <= k < |others| && others[k].path == e.path
      ensures others[k] == e && k == NewerOthers(entries, current, e)
    {
      assert others[k] in others;
      RankingAhead(entries, current, e);
      PlaceIsAhead(others, k);
    }
    if Other(e, current) {
      assert e in others;
      var k :| 0 <= k < |others| && others[k] == e;
    }
  }

  /** Remove every other package but the newest; a package is removed exactly
      when `KEPT` others are newer. */
  method Prune(entries: seq<Entry>, current: nat) returns (removed: set<nat>)
    requires DistinctPaths(entries)
    ensures forall e <- entries ::
      e.path in removed <==> Other(e, current) && NewerOthers(entries, current, e) >= KEPT
    ensures forall path <- removed :: exists e <- entries :: e.path == path
  {
    var others := Ranking(entries, current);
    RankingDescends(entries, current);
    removed := {};
    var i := KEPT;
    while i < |others|
      invariant KEPT <= i
      invariant forall path :: path in removed <==> Past(others, i, path)
    {
      removed := removed + {others[i].path};
      i := i + 1;
    }
    forall e <- entries
      ensures e.path in removed <==> Other(e, current) && NewerOthers(entries, current, e) >= KEPT
    {
      assert Past(others, i, e.path) <==> Past(others, |others|, e.path);
      PastIsOld(entries, current, e);
    }
    forall path <- removed ensures exists e <- entries :: e.path == path {
      var k :| KEPT <= k < |others| && others[k].path == path;
      assert others[k] in others;
    }
  }
}
