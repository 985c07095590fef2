/**
 * Speculative fact stores: a map, a set and a vector whose writes are logged by
 * key, and journaled while a probe is open so that rolling back undoes them.
 *
 * A store's state is a value (`MapState`, `SetState`); each writer of the
 * classes below is proved equal to a function on that value, and the laws are
 * proved for whole scripts of writes and nested probes.
 */
module FactStore {
  import opened Prelude

  /** A store's log and journal lengths when a probe opened. */
  datatype ProbeMark = ProbeMark(log: nat, undo: nat)

  datatype MapState<K, V> =
    MapState(facts: map<K, V>, log: seq<K>, undo: seq<(K, Option<V>)>, probes: nat)

  function Lookup<K, V>(m: map<K, V>, k: K): Option<V> {
    if k in m then Some(m[k]) else None
  }

  /** `m` with `k` bound as `v` says, `None` leaving it absent. */
  function Store<K, V>(m: map<K, V>, k: K, v: Option<V>): map<K, V> {
    match v
    case Some(x) => m[k := x]
    case None => m - {k}
  }

  function Cut<T>(s: seq<T>, n: nat): seq<T> {
    if n <= |s| then s[..n] else s
  }

  // ---------------------------------------------------------------- the map

  /** One writer call. `Entry` and `GetMut` hand out a place: `left` is what the
      caller leaves in it. `order` is the iteration order the hash map yields,
      `kept` what the `retain` closure leaves. */
  datatype Write<K, V> =
    | Insert(key: K, value: V)
    | Entry(key: K, left: Option<V>)
    | GetMut(key: K, value: V)
    | Remove(key: K)
    | Extend(entries: seq<(K, V)>)
    | Retain(order: seq<K>, kept: map<K, V>)
    | Clear(order: seq<K>)

  /** Whether `w` describes a call that can happen on a map holding `facts`. */
  ghost predicate Fits<K, V>(w: Write<K, V>, facts: map<K, V>) {
    match w
    case Retain(order, kept) =>
      && Enumerates(order, facts.Keys)
      && kept.Keys <= facts.Keys
    case Clear(order) => Enumerates(order, facts.Keys)
    case _ => true
  }

  function Journaled<K, V>(s: MapState<K, V>, key: K): MapState<K, V> {
    if s.probes == 0 then s else s.(undo := s.undo + [(key, Lookup(s.facts, key))])
  }

  function Inserted<K, V>(s: MapState<K, V>, key: K, value: V): MapState<K, V> {
    Journaled(s, key).(log := s.log + [key], facts := s.facts[key := value])
  }

  function Extended<K, V>(s: MapState<K, V>, entries: seq<(K, V)>): MapState<K, V>
    decreases |entries|
  {
    if entries == [] then s
    else Extended(Inserted(s, entries[0].0, entries[0].1), entries[1..])
  }

  /** The journal entries of every fact, in the order `order`. */
  function Snapshot<K, V>(facts: map<K, V>, order: seq<K>): seq<(K, Option<V>)> {
    seq(|order|, i requires 0 <= i < |order| => (order[i], Lookup(facts, order[i])))
  }

  function Applied<K, V>(w: Write<K, V>, s: MapState<K, V>): MapState<K, V> {
    match w
    case Insert(key, value) => Inserted(s, key, value)
    case Entry(key, left) =>
      Journaled(s, key).(log := s.log + [key], facts := Store(s.facts, key, left))
    case GetMut(key, value) =>
      if key in s.facts then Inserted(s, key, value) else s
    case Remove(key) =>
      if key in s.facts then Journaled(s, key).(facts := s.facts - {key}) else s
    case Extend(entries) => Extended(s, entries)
    case Retain(order, kept) =>
      s.(undo := if s.probes == 0 then s.undo else s.undo + Snapshot(s.facts, order), facts := kept)
    case Clear(order) =>
      s.(undo := if s.probes == 0 then s.undo else s.undo + Snapshot(s.facts, order), facts := map[])
  }

  function Mark<K, V>(s: MapState<K, V>): ProbeMark {
    ProbeMark(|s.log|, |s.undo|)
  }

  function Opened<K, V>(s: MapState<K, V>): MapState<K, V> {
    s.(probes := s.probes + 1)
  }

  /** The map before the writes `journal` records, undone newest first. */
  function Undone<K, V>(m: map<K, V>, journal: seq<(K, Option<V>)>): map<K, V>
    decreases |journal|
  {
    if journal == [] then m
    else
      var newest := journal[|journal| - 1];
      Undone(Store(m, newest.0, newest.1), journal[..|journal| - 1])
  }

  /** `None` is a drain out of range or a probe count below zero. */
  function RolledBack<K, V>(s: MapState<K, V>, mark: ProbeMark): Option<MapState<K, V>> {
    if mark.undo <= |s.undo| && s.probes > 0 then
      Some(MapState(Undone(s.facts, s.undo[mark.undo..]), Cut(s.log, mark.log),
                    s.undo[..mark.undo], s.probes - 1))
    else None
  }

  /** A run: writes, probes rolled back after a run of their own, and probes
      that are opened and never rolled back. */
  datatype Script<W> =
    | Done
    | Then(write: W, rest: Script<W>)
    | Probe(inner: Script<W>, rest: Script<W>)
    | Abandon(rest: Script<W>)

  function Abandoned<W>(script: Script<W>): nat {
    match script
    case Done => 0
    case Then(_, rest) => Abandoned(rest)
    case Probe(inner, rest) => Abandoned(inner) + Abandoned(rest)
    case Abandon(rest) => 1 + Abandoned(rest)
  }

  /** What rolling back a probe opened at `s` gives, when its run ends in `t`. */
  function Ended<K, V>(s: MapState<K, V>, t: Option<MapState<K, V>>): Option<MapState<K, V>> {
    match t
    case None => None
    case Some(end) => RolledBack(end, Mark(s))
  }

  /** The state a run ends in; `None` when a roll-back in it fails. */
  function Run<K, V>(script: Script<Write<K, V>>, s: MapState<K, V>): Option<MapState<K, V>>
    decreases script
  {
    match script
    case Done => Some(s)
    case Then(w, rest) => Run(rest, Applied(w, s))
    case Abandon(rest) => Run(rest, Opened(s))
    case Probe(inner, rest) =>
      match Ended(s, Run(inner, Opened(s)))
      case None => None
      case Some(u) => Run(rest, u)
  }

  /** Whether every write of the run can happen where it is made. */
  ghost predicate Possible<K, V>(script: Script<Write<K, V>>, s: MapState<K, V>)
    decreases script
  {
    match script
    case Done => true
    case Then(w, rest) => Fits(w, s.facts) && Possible(rest, Applied(w, s))
    case Abandon(rest) => Possible(rest, Opened(s))
    case Probe(inner, rest) =>
      && Possible(inner, Opened(s))
      && match Ended(s, Run(inner, Opened(s)))
         case None => true
         case Some(u) => Possible(rest, u)
  }

  lemma {:induction false} UndoneConcat<K, V>(m: map<K, V>, a: seq<(K, Option<V>)>, b: seq<(K, Option<V>)>)
    ensures Undone(m, a + b) == Undone(Undone(m, b), a)
    decreases |b|
  {
    if b == [] {
      assert a + b == a;
    } else {
      var init, newest := b[..|b| - 1], b[|b| - 1];
      assert (a + b)[..|a + b| - 1] == a + init;
      UndoneConcat(Store(m, newest.0, newest.1), a, init);
    }
  }

  /** Undoing a snapshot gives back each key it names, whatever came between. */
  lemma {:induction false} UndoneSnapshot<K, V>(m: map<K, V>, facts: map<K, V>, order: seq<K>)
    requires forall k <- order :: k in facts
    ensures var r := Undone(m, Snapshot(facts, order));
            forall k :: Lookup(r, k) == if k in order then Lookup(facts, k) else Lookup(m, k)
    decreases |order|
  {
    if order != [] {
      var init, k := order[..|order| - 1], order[|order| - 1];
      var j := Snapshot(facts, order);
      assert j[..|j| - 1] == Snapshot(facts, init);
      UndoneSnapshot(Store(m, k, Lookup(facts, k)), facts, init);
    }
  }

  lemma SameLookups<K, V>(a: map<K, V>, b: map<K, V>)
    requires forall k :: Lookup(a, k) == Lookup(b, k)
    ensures a == b
  {
    assert forall k :: (k in a <==> Lookup(a, k).Some?) && (k in b <==> Lookup(b, k).Some?);
    assert a.Keys == b.Keys;
    forall k | k in a ensures a[k] == b[k] {
      assert Lookup(a, k) == Lookup(b, k);
    }
  }

  /** Everything `s` wrote since `base` is undone by its journal's new part. */
  ghost predicate Extends<K, V>(base: MapState<K, V>, s: MapState<K, V>) {
    && base.log <= s.log
    && base.undo <= s.undo
    && Undone(s.facts, s.undo[|base.undo|..]) == base.facts
    && s.probes > base.probes
  }

  lemma ExtendsStep<K, V>(base: MapState<K, V>, s: MapState<K, V>, t: MapState<K, V>, j: seq<(K, Option<V>)>)
    requires Extends(base, s)
    requires s.log <= t.log && t.undo == s.undo + j && t.probes == s.probes
    requires Undone(t.facts, j) == s.facts
    ensures Extends(base, t)
  {
    assert t.undo[|base.undo|..] == s.undo[|base.undo|..] + j;
    UndoneConcat(t.facts, s.undo[|base.undo|..], j);
  }

  lemma {:induction false} WriteExtends<K, V>(base: MapState<K, V>, s: MapState<K, V>, w: Write<K, V>)
    requires Extends(base, s) && Fits(w, s.facts)
    ensures Extends(base, Applied(w, s)) && Applied(w, s).probes == s.probes
    decreases if w.Extend? then |w.entries| else 0
  {
    var t := Applied(w, s);
    match w
    case Insert(key, value) =>
      ExtendsStep(base, s, t, [(key, Lookup(s.facts, key))]);
    case Entry(key, left) =>
      ExtendsStep(base, s, t, [(key, Lookup(s.facts, key))]);
    case GetMut(key, value) =>
      if key in s.facts {
        ExtendsStep(base, s, t, [(key, Lookup(s.facts, key))]);
      }
    case Remove(key) =>
      if key in s.facts {
        ExtendsStep(base, s, t, [(key, Lookup(s.facts, key))]);
      }
    case Extend(entries) =>
      if entries != [] {
        var first := Insert(entries[0].0, entries[0].1);
        ExtendsStep(base, s, Applied(first, s), [(first.key, Lookup(s.facts, first.key))]);
        WriteExtends(base, Applied(first, s), Extend(entries[1..]));
      }
    case Retain(order, kept) =>
      UndoneSnapshot(kept, s.facts, order);
      SameLookups(Undone(kept, Snapshot(s.facts, order)), s.facts);
      ExtendsStep(base, s, t, Snapshot(s.facts, order));
    case Clear(order) =>
      UndoneSnapshot(map[], s.facts, order);
      SameLookups(Undone(map[], Snapshot(s.facts, order)), s.facts);
      ExtendsStep(base, s, t, Snapshot(s.facts, order));
  }

  lemma ExtendsRollsBack<K, V>(base: MapState<K, V>, t: MapState<K, V>)
    requires Extends(base, t)
    ensures RolledBack(t, Mark(base)) == Some(base.(probes := t.probes - 1))
  {
    assert t.undo[..|base.undo|] == base.undo;
    assert t.log[..|base.log|] == base.log;
  }

  lemma {:induction false} RunExtends<K, V>(base: MapState<K, V>, s: MapState<K, V>, script: Script<Write<K, V>>)
    requires Extends(base, s) && Possible(script, s)
    ensures Run(script, s).Some?
    ensures Extends(base, Run(script, s).value)
    ensures Run(script, s).value.probes == s.probes + Abandoned(script)
    decreases script
  {
    match script
    case Done =>
    case Then(w, rest) =>
      WriteExtends(base, s, w);
      RunExtends(base, Applied(w, s), rest);
    case Abandon(rest) =>
      RunExtends(base, Opened(s), rest);
    case Probe(inner, rest) =>
      assert Extends(s, Opened(s));
      RunExtends(s, Opened(s), inner);
      var t := Run(inner, Opened(s)).value;
      ExtendsRollsBack(s, t);
      RunExtends(base, RolledBack(t, Mark(s)).value, rest);
  }

  /** Rolling back after any run restores the map, the log and the journal
      exactly, never drains out of range and never takes the probe count below
      zero; the count is the old one exactly when the run rolled back every
      probe it opened. */
  lemma RollBackRestores<K, V>(s: MapState<K, V>, script: Script<Write<K, V>>)
    requires Possible(script, Opened(s))
    ensures Run(script, Opened(s)).Some?
    ensures var r := RolledBack(Run(script, Opened(s)).value, Mark(s));
            && r == Some(s.(probes := s.probes + Abandoned(script)))
            && (r == Some(s) <==> Abandoned(script) == 0)
  {
    assert Extends(s, Opened(s));
    RunExtends(s, Opened(s), script);
    ExtendsRollsBack(s, Run(script, Opened(s)).value);
  }

  // ------------------------------------------------------- what the log covers

  /** The binding of `k` to `v` is the one it had in `before`, or logged from
      `mark` on. */
  ghost predicate Explained<K, V>(before: map<K, V>, mark: nat, log: seq<K>, k: K, v: V)
    requires mark <= |log|
  {
    k in log[mark..] || (k in before && before[k] == v)
  }

  /** Every binding that is new or different since `before` is logged from `mark` on. */
  ghost predicate Covered<K, V>(before: map<K, V>, mark: nat, s: MapState<K, V>) {
    && mark <= |s.log|
    && forall k <- s.facts :: Explained(before, mark, s.log, k, s.facts[k])
  }

  /** A `retain` closure leaves nothing new behind: each value it keeps is the
      one of old, or its key was logged already. */
  ghost predicate LeavesNothingNew<K, V>(before: map<K, V>, mark: nat, s: MapState<K, V>, w: Write<K, V>)
    requires mark <= |s.log|
  {
    w.Retain? ==> forall k <- w.kept :: Explained(before, mark, s.log, k, w.kept[k])
  }

  /** `before` with the current value of each logged key copied over it. */
  function Overlay<K, V>(before: map<K, V>, logged: seq<K>, now: map<K, V>): map<K, V> {
    before + map k | k in logged && k in now :: now[k]
  }

  lemma {:induction false} InsertCovers<K, V>(before: map<K, V>, mark: nat, s: MapState<K, V>, key: K, left: Option<V>)
    requires Covered(before, mark, s)
    ensures Covered(before, mark, s.(log := s.log + [key], facts := Store(s.facts, key, left)))
  {
    assert (s.log + [key])[mark..] == s.log[mark..] + [key];
  }

  /** A write keeps the log's cover exactly when it is no `retain` that leaves
      something new behind. */
  lemma {:induction false} WriteCovers<K, V>(before: map<K, V>, mark: nat, s: MapState<K, V>, w: Write<K, V>)
    requires Covered(before, mark, s) && Fits(w, s.facts)
    ensures Covered(before, mark, Applied(w, s)) <==> LeavesNothingNew(before, mark, s, w)
    decreases if w.Extend? then |w.entries| else 0
  {
    match w
    case Insert(key, value) => InsertCovers(before, mark, s, key, Some(value));
    case Entry(key, left) => InsertCovers(before, mark, s, key, left);
    case GetMut(key, value) => InsertCovers(before, mark, s, key, Some(value));
    case Remove(_) =>
    case Retain(_, _) =>
    case Clear(_) =>
    case Extend(entries) =>
      if entries != [] {
        InsertCovers(before, mark, s, entries[0].0, Some(entries[0].1));
        WriteCovers(before, mark, Inserted(s, entries[0].0, entries[0].1), Extend(entries[1..]));
      }
  }

  /** The log covers at every state of a run, those inside its probes too when
      `within` says so. */
  ghost predicate CoversThroughout<K, V>(before: map<K, V>, mark: nat, script: Script<Write<K, V>>,
                                         s: MapState<K, V>, within: bool)
    decreases script
  {
    && Covered(before, mark, s)
    && match script
       case Done => true
       case Then(w, rest) => CoversThroughout(before, mark, rest, Applied(w, s), within)
       case Abandon(rest) => CoversThroughout(before, mark, rest, Opened(s), within)
       case Probe(inner, rest) =>
         && (within ==> CoversThroughout(before, mark, inner, Opened(s), within))
         && match Ended(s, Run(inner, Opened(s)))
            case None => true
            case Some(u) => CoversThroughout(before, mark, rest, u, within)
  }

  /** No `retain` the run meets leaves something new behind, those inside its
      probes counting when `within` says so. */
  ghost predicate RetainsNothingNew<K, V>(before: map<K, V>, mark: nat, script: Script<Write<K, V>>,
                                          s: MapState<K, V>, within: bool)
    decreases script
  {
    mark <= |s.log| &&
    match script
    case Done => true
    case Then(w, rest) =>
      LeavesNothingNew(before, mark, s, w) && RetainsNothingNew(before, mark, rest, Applied(w, s), within)
    case Abandon(rest) => RetainsNothingNew(before, mark, rest, Opened(s), within)
    case Probe(inner, rest) =>
      && (within ==> RetainsNothingNew(before, mark, inner, Opened(s), within))
      && match Ended(s, Run(inner, Opened(s)))
         case None => true
         case Some(u) => RetainsNothingNew(before, mark, rest, u, within)
  }

  /** From a covered state the log covers throughout a run exactly when no
      `retain` in it leaves something new behind; what happens in a probe that is
      rolled back matters to the states inside it alone. */
  lemma {:induction false} RunCovers<K, V>(before: map<K, V>, mark: nat, s: MapState<K, V>, script: Script<Write<K, V>>,
                                           within: bool)
    requires Covered(before, mark, s) && Possible(script, s)
    ensures CoversThroughout(before, mark, script, s, within) <==> RetainsNothingNew(before, mark, script, s, within)
    decreases script
  {
    match script
    case Done =>
    case Then(w, rest) =>
      WriteCovers(before, mark, s, w);
      if LeavesNothingNew(before, mark, s, w) {
        RunCovers(before, mark, Applied(w, s), rest, within);
      }
    case Abandon(rest) =>
      RunCovers(before, mark, Opened(s), rest, within);
    case Probe(inner, rest) =>
      RollBackRestores(s, inner);
      RunCovers(before, mark, Opened(s), inner, within);
      RunCovers(before, mark, s.(probes := s.probes + Abandoned(inner)), rest, within);
  }

  lemma {:induction false} CoversAtEnd<K, V>(before: map<K, V>, mark: nat, script: Script<Write<K, V>>,
                                             s: MapState<K, V>, within: bool)
    requires CoversThroughout(before, mark, script, s, within) && Run(script, s).Some?
    ensures Covered(before, mark, Run(script, s).value)
    decreases script
  {
    match script
    case Done =>
    case Then(w, rest) => CoversAtEnd(before, mark, rest, Applied(w, s), within);
    case Abandon(rest) => CoversAtEnd(before, mark, rest, Opened(s), within);
    case Probe(inner, rest) =>
      CoversAtEnd(before, mark, rest, Ended(s, Run(inner, Opened(s))).value, within);
  }

  lemma {:induction false} AlwaysEnds<K, V>(s: MapState<K, V>, script: Script<Write<K, V>>)
    requires Possible(script, s)
    ensures Run(script, s).Some?
    decreases script
  {
    match script
    case Done =>
    case Then(w, rest) => AlwaysEnds(Applied(w, s), rest);
    case Abandon(rest) => AlwaysEnds(Opened(s), rest);
    case Probe(inner, rest) =>
      RollBackRestores(s, inner);
      AlwaysEnds(Ended(s, Run(inner, Opened(s))).value, rest);
  }

  lemma {:induction false} CoveredRebuilds<K, V>(before: map<K, V>, mark: nat, t: MapState<K, V>)
    requires Covered(before, mark, t)
    ensures forall k <- t.facts :: Lookup(t.facts, k) != Lookup(before, k) ==> k in t.log[mark..]
    ensures Overlay(before, t.log[mark..], t.facts) == t.facts <==> before.Keys <= t.facts.Keys
  {
    forall k <- t.facts ensures Lookup(t.facts, k) != Lookup(before, k) ==> k in t.log[mark..] {
      assert Explained(before, mark, t.log, k, t.facts[k]);
    }
    var r := Overlay(before, t.log[mark..], t.facts);
    assert before.Keys <= r.Keys;
    if before.Keys <= t.facts.Keys {
      assert r.Keys == t.facts.Keys;
    }
  }

  /** After any run whose `retain` closures, but for those in probes rolled back,
      leave nothing new behind, the keys logged since its start include every key
      whose entry is new or different, and copying them over the old map rebuilds
      the new one exactly when no old key is gone. */
  lemma {:induction false} LoggedKeysRebuild<K, V>(s: MapState<K, V>, script: Script<Write<K, V>>)
    requires Possible(script, s) && RetainsNothingNew(s.facts, |s.log|, script, s, false)
    ensures Run(script, s).Some?
    ensures var t := Run(script, s).value;
            && |s.log| <= |t.log|
            && (forall k <- t.facts ::
                  Lookup(t.facts, k) != Lookup(s.facts, k) ==> k in t.log[|s.log|..])
            && (Overlay(s.facts, t.log[|s.log|..], t.facts) == t.facts
                <==> s.facts.Keys <= t.facts.Keys)
  {
    AlwaysEnds(s, script);
    RunCovers(s.facts, |s.log|, s, script, false);
    CoversAtEnd(s.facts, |s.log|, script, s, false);
    CoveredRebuilds(s.facts, |s.log|, Run(script, s).value);
  }

  /** A `retain` that changes a value it keeps escapes the log. */
  lemma RetainEditEscapesLog()
    ensures exists s: MapState<int, int>, w: Write<int, int>, k ::
              && Fits(w, s.facts) && w.Retain?
              && k in Applied(w, s).facts
              && Lookup(Applied(w, s).facts, k) != Lookup(s.facts, k)
              && k !in Applied(w, s).log[|s.log|..]
  {
    var s := MapState(map[0 := 0], [], [], 0);
    var w := Retain([0], map[0 := 1]);
    assert Fits(w, s.facts);
    assert Lookup(Applied(w, s).facts, 0) != Lookup(s.facts, 0);
    assert 0 in Applied(w, s).facts && 0 !in Applied(w, s).log[|s.log|..];
  }

  // ---------------------------------------------------------------- the set

  datatype SetState<K> = SetState(keys: set<K>, log: seq<K>, undo: seq<(K, bool)>, probes: nat)

  /** `order` lists the keys a `retain` drops, or all of them for `clear`, in
      the order the hash set gives them up. */
  datatype SetWrite<K> =
    | Add(key: K)
    | Discard(key: K)
    | AddAll(keys: seq<K>)
    | Keep(order: seq<K>, kept: set<K>)
    | Empty(order: seq<K>)

  predicate SetFits<K(==)>(w: SetWrite<K>, keys: set<K>) {
    match w
    case Keep(order, kept) => kept <= keys && Enumerates(order, keys - kept)
    case Empty(order) => Enumerates(order, keys)
    case _ => true
  }

  function Added<K>(s: SetState<K>, key: K): SetState<K> {
    s.(keys := s.keys + {key},
       log := s.log + [key],
       undo := if s.probes > 0 && key !in s.keys then s.undo + [(key, false)] else s.undo)
  }

  function AddedAll<K>(s: SetState<K>, keys: seq<K>): SetState<K>
    decreases |keys|
  {
    if keys == [] then s else AddedAll(Added(s, keys[0]), keys[1..])
  }

  function Gone<K>(order: seq<K>): seq<(K, bool)> {
    seq(|order|, i requires 0 <= i < |order| => (order[i], true))
  }

  function SetApplied<K>(w: SetWrite<K>, s: SetState<K>): SetState<K> {
    match w
    case Add(key) => Added(s, key)
    case Discard(key) =>
      if key in s.keys then
        s.(keys := s.keys - {key},
           undo := if s.probes > 0 then s.undo + [(key, true)] else s.undo)
      else s
    case AddAll(keys) => AddedAll(s, keys)
    case Keep(order, kept) =>
      s.(keys := kept, undo := if s.probes > 0 then s.undo + Gone(order) else s.undo)
    case Empty(order) =>
      s.(keys := {}, undo := if s.probes > 0 then s.undo + Gone(order) else s.undo)
  }

  function SetMark<K>(s: SetState<K>): ProbeMark {
    ProbeMark(|s.log|, |s.undo|)
  }

  function SetOpened<K>(s: SetState<K>): SetState<K> {
    s.(probes := s.probes + 1)
  }

  function SetUndone<K>(keys: set<K>, journal: seq<(K, bool)>): set<K>
    decreases |journal|
  {
    if journal == [] then keys
    else
      var newest := journal[|journal| - 1];
      SetUndone(if newest.1 then keys + {newest.0} else keys - {newest.0}, journal[..|journal| - 1])
  }

  function SetRolledBack<K>(s: SetState<K>, mark: ProbeMark): Option<SetState<K>> {
    if mark.undo <= |s.undo| && s.probes > 0 then
      Some(SetState(SetUndone(s.keys, s.undo[mark.undo..]), Cut(s.log, mark.log),
                    s.undo[..mark.undo], s.probes - 1))
    else None
  }

  function SetRun<K>(script: Script<SetWrite<K>>, s: SetState<K>): Option<SetState<K>>
    decreases script
  {
    match script
    case Done => Some(s)
    case Then(w, rest) => SetRun(rest, SetApplied(w, s))
    case Abandon(rest) => SetRun(rest, SetOpened(s))
    case Probe(inner, rest) =>
      match SetRun(inner, SetOpened(s))
      case None => None
      case Some(t) =>
        match SetRolledBack(t, SetMark(s))
        case None => None
        case Some(u) => SetRun(rest, u)
  }

  ghost predicate SetPossible<K>(script: Script<SetWrite<K>>, s: SetState<K>)
    decreases script
  {
    match script
    case Done => true
    case Then(w, rest) => SetFits(w, s.keys) && SetPossible(rest, SetApplied(w, s))
    case Abandon(rest) => SetPossible(rest, SetOpened(s))
    case Probe(inner, rest) =>
      && SetPossible(inner, SetOpened(s))
      && (match SetRun(inner, SetOpened(s))
          case None => true
          case Some(t) =>
            match SetRolledBack(t, SetMark(s))
            case None => true
            case Some(u) => SetPossible(rest, u))
  }

  lemma {:induction false} SetUndoneConcat<K>(keys: set<K>, a: seq<(K, bool)>, b: seq<(K, bool)>)
    ensures SetUndone(keys, a + b) == SetUndone(SetUndone(keys, b), a)
    decreases |b|
  {
    if b == [] {
      assert a + b == a;
    } else {
      var init, newest := b[..|b| - 1], b[|b| - 1];
      assert (a + b)[..|a + b| - 1] == a + init;
      SetUndoneConcat(if newest.1 then keys + {newest.0} else keys - {newest.0}, a, init);
    }
  }

  lemma {:induction false} SetUndoneGone<K>(keys: set<K>, order: seq<K>)
    ensures SetUndone(keys, Gone(order)) == keys + (set k | k in order)
    decreases |order|
  {
    if order != [] {
      var init, k := order[..|order| - 1], order[|order| - 1];
      assert Gone(order)[..|Gone(order)| - 1] == Gone(init);
      SetUndoneGone(keys + {k}, init);
    }
  }

  ghost predicate SetExtends<K>(base: SetState<K>, s: SetState<K>) {
    && base.log <= s.log
    && base.undo <= s.undo
    && SetUndone(s.keys, s.undo[|base.undo|..]) == base.keys
    && s.probes > base.probes
  }

  lemma SetExtendsStep<K>(base: SetState<K>, s: SetState<K>, t: SetState<K>, j: seq<(K, bool)>)
    requires SetExtends(base, s)
    requires s.log <= t.log && t.undo == s.undo + j && t.probes == s.probes
    requires SetUndone(t.keys, j) == s.keys
    ensures SetExtends(base, t)
  {
    assert t.undo[|base.undo|..] == s.undo[|base.undo|..] + j;
    SetUndoneConcat(t.keys, s.undo[|base.undo|..], j);
  }

  lemma AddExtends<K>(base: SetState<K>, s: SetState<K>, key: K)
    requires SetExtends(base, s)
    ensures SetExtends(base, Added(s, key))
  {
    if key in s.keys {
      assert s.keys + {key} == s.keys;
      SetExtendsStep(base, s, Added(s, key), []);
    } else {
      assert s.keys + {key} - {key} == s.keys;
      assert [(key, false)][..0] == [];
      SetExtendsStep(base, s, Added(s, key), [(key, false)]);
    }
  }

  lemma {:induction false} SetWriteExtends<K>(base: SetState<K>, s: SetState<K>, w: SetWrite<K>)
    requires SetExtends(base, s) && SetFits(w, s.keys)
    ensures SetExtends(base, SetApplied(w, s)) && SetApplied(w, s).probes == s.probes
    decreases if w.AddAll? then |w.keys| else 0
  {
    var t := SetApplied(w, s);
    match w
    case Add(key) => AddExtends(base, s, key);
    case Discard(key) =>
      if key in s.keys {
        assert s.keys - {key} + {key} == s.keys;
        assert [(key, true)][..0] == [];
        SetExtendsStep(base, s, t, [(key, true)]);
      }
    case AddAll(keys) =>
      if keys != [] {
        AddExtends(base, s, keys[0]);
        SetWriteExtends(base, Added(s, keys[0]), AddAll(keys[1..]));
      }
    case Keep(order, kept) =>
      SetUndoneGone(kept, order);
      assert kept + (set k | k in order) == s.keys;
      SetExtendsStep(base, s, t, Gone(order));
    case Empty(order) =>
      SetUndoneGone({}, order);
      assert (set k | k in order) == s.keys;
      SetExtendsStep(base, s, t, Gone(order));
  }

  lemma SetExtendsRollsBack<K>(base: SetState<K>, t: SetState<K>)
    requires SetExtends(base, t)
    ensures SetRolledBack(t, SetMark(base)) == Some(base.(probes := t.probes - 1))
  {
    assert t.undo[..|base.undo|] == base.undo;
    assert t.log[..|base.log|] == base.log;
  }

  lemma {:induction false} SetRunExtends<K>(base: SetState<K>, s: SetState<K>, script: Script<SetWrite<K>>)
    requires SetExtends(base, s) && SetPossible(script, s)
    ensures SetRun(script, s).Some?
    ensures SetExtends(base, SetRun(script, s).value)
    ensures SetRun(script, s).value.probes == s.probes + Abandoned(script)
    decreases script
  {
    match script
    case Done =>
    case Then(w, rest) =>
      SetWriteExtends(base, s, w);
      SetRunExtends(base, SetApplied(w, s), rest);
    case Abandon(rest) =>
      SetRunExtends(base, SetOpened(s), rest);
    case Probe(inner, rest) =>
      assert SetExtends(s, SetOpened(s));
      SetRunExtends(s, SetOpened(s), inner);
      var t := SetRun(inner, SetOpened(s)).value;
      SetExtendsRollsBack(s, t);
      SetRunExtends(base, SetRolledBack(t, SetMark(s)).value, rest);
  }

  /** The set store keeps the map store's contract although it journals only
      the insertions and removals that change it. */
  lemma SetRollBackRestores<K>(s: SetState<K>, script: Script<SetWrite<K>>)
    requires SetPossible(script, SetOpened(s))
    ensures SetRun(script, SetOpened(s)).Some?
    ensures var r := SetRolledBack(SetRun(script, SetOpened(s)).value, SetMark(s));
            && r == Some(s.(probes := s.probes + Abandoned(script)))
            && (r == Some(s) <==> Abandoned(script) == 0)
  {
    assert SetExtends(s, SetOpened(s));
    SetRunExtends(s, SetOpened(s), script);
    SetExtendsRollsBack(s, SetRun(script, SetOpened(s)).value);
  }

  // ------------------------------------- the set store is a map store to unit

  ghost predicate Agree<K>(m: MapState<K, ()>, s: SetState<K>) {
    m.facts.Keys == s.keys && m.log == s.log && m.probes == s.probes
  }

  function ToUnit<K>(keys: set<K>): map<K, ()> {
    map k | k in keys :: ()
  }

  function Pairs<K>(keys: seq<K>): seq<(K, ())> {
    seq(|keys|, i requires 0 <= i < |keys| => (keys[i], ()))
  }

  /** The map store's call doing what `w` does. */
  ghost function AsMapWrite<K>(w: SetWrite<K>): Write<K, ()> {
    match w
    case Add(key) => Insert(key, ())
    case Discard(key) => Remove(key)
    case AddAll(keys) => Extend(Pairs(keys))
    case Keep(order, kept) => Retain(order + Listed(kept), ToUnit(kept))
    case Empty(order) => Clear(order)
  }

  ghost function AsMapScript<K>(script: Script<SetWrite<K>>): Script<Write<K, ()>> {
    match script
    case Done => Done
    case Then(w, rest) => Then(AsMapWrite(w), AsMapScript(rest))
    case Probe(inner, rest) => Probe(AsMapScript(inner), AsMapScript(rest))
    case Abandon(rest) => Abandon(AsMapScript(rest))
  }

  lemma {:induction false} ExtendAgrees<K>(m: MapState<K, ()>, s: SetState<K>, keys: seq<K>)
    requires Agree(m, s)
    ensures Agree(Extended(m, Pairs(keys)), AddedAll(s, keys))
    decreases |keys|
  {
    if keys != [] {
      assert Pairs(keys)[1..] == Pairs(keys[1..]);
      ExtendAgrees(Inserted(m, keys[0], ()), Added(s, keys[0]), keys[1..]);
    }
  }

  lemma WriteAgrees<K>(m: MapState<K, ()>, s: SetState<K>, w: SetWrite<K>)
    requires Agree(m, s) && SetFits(w, s.keys)
    ensures Fits(AsMapWrite(w), m.facts)
    ensures Agree(Applied(AsMapWrite(w), m), SetApplied(w, s))
  {
    if w.AddAll? {
      ExtendAgrees(m, s, w.keys);
    }
  }

  lemma SameAbandoned<K>(script: Script<SetWrite<K>>)
    ensures Abandoned(AsMapScript(script)) == Abandoned(script)
  {
  }

  /** From agreeing states, a run of the set store and the same run of a map
      store to `()` end in agreeing states, roll-backs included. */
  lemma {:induction false} SetAgreesWithMap<K>(m: MapState<K, ()>, s: SetState<K>, script: Script<SetWrite<K>>)
    requires Agree(m, s) && SetPossible(script, s)
    ensures Possible(AsMapScript(script), m)
    ensures Run(AsMapScript(script), m).Some? && SetRun(script, s).Some?
    ensures Agree(Run(AsMapScript(script), m).value, SetRun(script, s).value)
    decreases script
  {
    match script
    case Done =>
    case Then(w, rest) =>
      WriteAgrees(m, s, w);
      SetAgreesWithMap(Applied(AsMapWrite(w), m), SetApplied(w, s), rest);
    case Abandon(rest) =>
      SetAgreesWithMap(Opened(m), SetOpened(s), rest);
    case Probe(inner, rest) =>
      var inner' := AsMapScript(inner);
      SetAgreesWithMap(Opened(m), SetOpened(s), inner);
      RollBackRestores(m, inner');
      SetRollBackRestores(s, inner);
      SameAbandoned(inner);
      SetAgreesWithMap(m.(probes := m.probes + Abandoned(inner')),
                       s.(probes := s.probes + Abandoned(inner)), rest);
  }
}
