/** The stores as objects: every writer is equal to its function in `FactStore`. */
module FactStoreClasses {
  import opened Prelude
  import opened FactStore

  /** The last value `entries` have for `key`, `before` when they have none. */
  function LastValue<K(==), V>(entries: seq<(K, V)>, key: K, before: Option<V>): Option<V> {
    if entries == [] then before
    else
      var last := entries[|entries| - 1];
      if last.0 == key then Some(last.1) else LastValue(entries[..|entries| - 1], key, before)
  }

  function KeysOf<K, V>(entries: seq<(K, V)>): seq<K> {
    seq(|entries|, i requires 0 <= i < |entries| => entries[i].0)
  }

  lemma {:induction false} LastValueFirst<K, V>(entries: seq<(K, V)>, key: K, before: Option<V>)
    requires entries != []
    ensures LastValue(entries, key, before)
         == LastValue(entries[1..], key, if entries[0].0 == key then Some(entries[0].1) else before)
    decreases |entries|
  {
    var n := |entries| - 1;
    if n > 0 && entries[n].0 != key {
      LastValueFirst(entries[..n], key, before);
      assert entries[..n][1..] == entries[1..][..n - 1];
    }
  }

  lemma {:induction false} ExtendedLeaves<K, V>(s: MapState<K, V>, entries: seq<(K, V)>)
    ensures forall key :: Lookup(Extended(s, entries).facts, key) == LastValue(entries, key, Lookup(s.facts, key))
    ensures Extended(s, entries).log == s.log + KeysOf(entries) && Extended(s, entries).probes == s.probes
    decreases |entries|
  {
    if entries != [] {
      ExtendedLeaves(Inserted(s, entries[0].0, entries[0].1), entries[1..]);
      forall key
        ensures Lookup(Extended(s, entries).facts, key) == LastValue(entries, key, Lookup(s.facts, key))
      {
        LastValueFirst(entries, key, Lookup(s.facts, key));
      }
    }
  }

  lemma {:induction false} AddedAllKeys<K>(s: SetState<K>, more: seq<K>, key: K)
    ensures key in AddedAll(s, more).keys <==> key in s.keys || key in more
    decreases |more|
  {
    if more != [] {
      AddedAllKeys(Added(s, more[0]), more[1..], key);
      assert more == [more[0]] + more[1..];
    }
  }

  lemma {:induction false} AddedAllLogs<K>(s: SetState<K>, more: seq<K>)
    ensures AddedAll(s, more).log == s.log + more && AddedAll(s, more).probes == s.probes
    decreases |more|
  {
    if more != [] {
      AddedAllLogs(Added(s, more[0]), more[1..]);
      Regrouped(s.log, [more[0]], more[1..]);
      assert more == [more[0]] + more[1..];
    }
  }

  /** Undoing one entry first is undoing the journal up to it. */
  lemma {:induction false} UndoneStep<K, V>(m: map<K, V>, journal: seq<(K, Option<V>)>, from: nat, i: nat)
    requires from <= i < |journal|
    ensures Undone(m, journal[from..i + 1]) == Undone(Store(m, journal[i].0, journal[i].1), journal[from..i])
  {
    var part := journal[from..i + 1];
    assert part[|part| - 1] == journal[i] && part[..|part| - 1] == journal[from..i];
  }

  lemma {:induction false} SetUndoneStep<K>(keys: set<K>, journal: seq<(K, bool)>, from: nat, i: nat)
    requires from <= i < |journal|
    ensures SetUndone(keys, journal[from..i + 1])
         == SetUndone(if journal[i].1 then keys + {journal[i].0} else keys - {journal[i].0}, journal[from..i])
  {
    var part := journal[from..i + 1];
    assert part[|part| - 1] == journal[i] && part[..|part| - 1] == journal[from..i];
  }

  class FactMap<K(==), V> {
    var facts: map<K, V>
    var log: seq<K>
    var undo: seq<(K, Option<V>)>
    var probes: nat

    ghost function State(): MapState<K, V>
      reads this
    {
      MapState(facts, log, undo, probes)
    }

    /** Seeding entries are not logged. */
    constructor From(seed: map<K, V>)
      ensures State() == MapState(seed, [], [], 0)
    {
      facts, log, undo, probes := seed, [], [], 0;
    }

    method Journal(key: K)
      modifies this
      ensures State() == Journaled(old(State()), key)
    {
      if probes > 0 {
        undo := undo + [(key, Lookup(facts, key))];
      }
    }

    method Insert(key: K, value: V) returns (previous: Option<V>)
      modifies this
      ensures State() == Applied(Write.Insert(key, value), old(State()))
      ensures facts == old(facts)[key := value] && log == old(log) + [key] && probes == old(probes)
      ensures undo == if probes > 0 then old(undo) + [(key, previous)] else old(undo)
      ensures previous == Lookup(old(facts), key)
    {
      log := log + [key];
      previous := Lookup(facts, key);
      facts := facts[key := value];
      if probes == 0 {
        return;
      }
      undo := undo + [(key, previous)];
    }

    /** `left` is what the caller leaves in the entry handed out. */
    method Entry(key: K, left: Option<V>)
      modifies this
      ensures State() == Applied(Write.Entry(key, left), old(State()))
      ensures Lookup(facts, key) == left && facts - {key} == old(facts) - {key}
      ensures log == old(log) + [key] && probes == old(probes)
      ensures undo == if probes > 0 then old(undo) + [(key, Lookup(old(facts), key))] else old(undo)
    {
      log := log + [key];
      Journal(key);
      facts := Store(facts, key, left);
    }

    /** `value` is what the caller leaves in the place handed out. */
    method GetMut(key: K, value: V) returns (found: bool)
      modifies this
      ensures State() == Applied(Write.GetMut(key, value), old(State()))
      ensures found == (key in old(facts))
      ensures facts == if found then old(facts)[key := value] else old(facts)
      ensures log == if found then old(log) + [key] else old(log)
      ensures undo == if found && probes > 0 then old(undo) + [(key, Lookup(old(facts), key))] else old(undo)
      ensures probes == old(probes)
    {
      if key !in facts {
        return false;
      }
      log := log + [key];
      Journal(key);
      facts := facts[key := value];
      found := true;
    }

    method Remove(key: K) returns (removed: Option<V>)
      modifies this
      ensures State() == Applied(Write.Remove(key), old(State()))
      ensures removed == Lookup(old(facts), key)
      ensures facts == old(facts) - {key} && log == old(log) && probes == old(probes)
      ensures undo == if removed.Some? && probes > 0 then old(undo) + [(key, removed)] else old(undo)
    {
      removed := Lookup(facts, key);
      facts := facts - {key};
      if probes > 0 && removed.Some? {
        undo := undo + [(key, removed)];
      }
    }

    method Extend(entries: seq<(K, V)>)
      modifies this
      ensures State() == Applied(Write.Extend(entries), old(State()))
      ensures forall key :: Lookup(facts, key) == LastValue(entries, key, Lookup(old(facts), key))
      ensures log == old(log) + KeysOf(entries) && probes == old(probes)
    {
      ghost var before := State();
      for i := 0 to |entries|
        invariant Extended(State(), entries[i..]) == Extended(before, entries)
      {
        assert entries[i..][1..] == entries[i + 1..];
        var _ := Insert(entries[i].0, entries[i].1);
      }
      assert State() == Extended(before, entries);
      ExtendedLeaves(before, entries);
    }

    /** Journal every fact in some iteration order. */
    method JournalAll() returns (ghost order: seq<K>)
      modifies this
      ensures Enumerates(order, facts.Keys)
      ensures State() == old(State()).(undo := old(undo) + Snapshot(old(facts), order))
    {
      order := [];
      var left := facts.Keys;
      while left != {}
        invariant left <= facts.Keys
        invariant Enumerates(order, facts.Keys - left)
        invariant State() == old(State()).(undo := old(undo) + Snapshot(old(facts), order))
      {
        var key :| key in left;
        undo := undo + [(key, Lookup(facts, key))];
        assert Snapshot(old(facts), order + [key])
            == Snapshot(old(facts), order) + [(key, Lookup(facts, key))];
        order := order + [key];
        left := left - {key};
      }
    }

    /** `keep` answers, for each entry, the value it is kept with, if any. */
    method Retain(keep: (K, V) -> Option<V>) returns (ghost order: seq<K>)
      modifies this
      ensures facts == map k | k in old(facts) && keep(k, old(facts)[k]).Some? :: keep(k, old(facts)[k]).value
      ensures Fits(Write.Retain(order, facts), old(facts))
      ensures State() == Applied(Write.Retain(order, facts), old(State()))
      ensures log == old(log) && probes == old(probes)
    {
      order := Listed(facts.Keys);
      if probes > 0 {
        order := JournalAll();
      }
      facts := map k | k in facts && keep(k, facts[k]).Some? :: keep(k, facts[k]).value;
    }

    method Clear() returns (ghost order: seq<K>)
      modifies this
      ensures Fits(Write.Clear(order), old(facts))
      ensures State() == Applied(Write.Clear(order), old(State()))
      ensures facts == map[] && log == old(log) && probes == old(probes)
    {
      order := Listed(facts.Keys);
      if probes > 0 {
        order := JournalAll();
      }
      facts := map[];
    }

    method OpenProbe() returns (mark: ProbeMark)
      modifies this
      ensures State() == Opened(old(State()))
      ensures probes == old(probes) + 1 && facts == old(facts) && log == old(log) && undo == old(undo)
      ensures mark == FactStore.Mark(old(State()))
    {
      probes := probes + 1;
      mark := ProbeMark(|log|, |undo|);
    }

    method RollBack(mark: ProbeMark)
      requires mark.undo <= |undo| && probes > 0
      modifies this
      ensures RolledBack(old(State()), mark) == Some(State())
      ensures undo == old(undo)[..mark.undo] && probes == old(probes) - 1
      ensures log == if mark.log <= |old(log)| then old(log)[..mark.log] else old(log)
    {
      var i := |undo|;
      assert undo[mark.undo..i] == undo[mark.undo..];
      while i > mark.undo
        invariant mark.undo <= i <= |undo|
        invariant log == old(log) && undo == old(undo) && probes == old(probes)
        invariant Undone(facts, undo[mark.undo..i]) == Undone(old(facts), undo[mark.undo..])
      {
        i := i - 1;
        UndoneStep(facts, undo, mark.undo, i);
        var (key, previous) := undo[i];
        match previous {
          case Some(value) => facts := facts[key := value];
          case None => facts := facts - {key};
        }
      }
      undo := undo[..mark.undo];
      log := Cut(log, mark.log);
      probes := probes - 1;
    }
  }

  class FactSet<K(==)> {
    var keys: set<K>
    var log: seq<K>
    var undo: seq<(K, bool)>
    var probes: nat

    ghost function State(): SetState<K>
      reads this
    {
      SetState(keys, log, undo, probes)
    }

    constructor From(seed: set<K>)
      ensures State() == SetState(seed, [], [], 0)
    {
      keys, log, undo, probes := seed, [], [], 0;
    }

    method Insert(key: K) returns (added: bool)
      modifies this
      ensures State() == SetApplied(Add(key), old(State()))
      ensures added == (key !in old(keys))
      ensures keys == old(keys) + {key} && log == old(log) + [key] && probes == old(probes)
      ensures undo == if added && probes > 0 then old(undo) + [(key, false)] else old(undo)
    {
      log := log + [key];
      added := key !in keys;
      keys := keys + {key};
      if probes > 0 && added {
        undo := undo + [(key, false)];
      }
    }

    method Remove(key: K) returns (removed: bool)
      modifies this
      ensures State() == SetApplied(Discard(key), old(State()))
      ensures removed == (key in old(keys))
      ensures keys == old(keys) - {key} && log == old(log) && probes == old(probes)
      ensures undo == if removed && probes > 0 then old(undo) + [(key, true)] else old(undo)
    {
      removed := key in keys;
      keys := keys - {key};
      if removed && probes > 0 {
        undo := undo + [(key, true)];
      }
    }

    method Extend(more: seq<K>)
      modifies this
      ensures State() == SetApplied(AddAll(more), old(State()))
      ensures forall key :: key in keys <==> key in old(keys) || key in more
      ensures log == old(log) + more && probes == old(probes)
    {
      ghost var before := State();
      for i := 0 to |more|
        invariant AddedAll(State(), more[i..]) == AddedAll(before, more)
      {
        assert more[i..][1..] == more[i + 1..];
        var _ := Insert(more[i]);
      }
      assert State() == AddedAll(before, more);
      AddedAllLogs(before, more);
      forall key ensures key in keys <==> key in before.keys || key in more {
        AddedAllKeys(before, more, key);
      }
    }

    /** Journal `dropped` as present before, in some iteration order. */
    method JournalGone(dropped: set<K>) returns (ghost order: seq<K>)
      modifies this
      ensures Enumerates(order, dropped)
      ensures State() == old(State()).(undo := old(undo) + Gone(order))
    {
      order := [];
      var left := dropped;
      while left != {}
        invariant left <= dropped
        invariant Enumerates(order, dropped - left)
        invariant State() == old(State()).(undo := old(undo) + Gone(order))
      {
        var key :| key in left;
        undo := undo + [(key, true)];
        assert Gone(order + [key]) == Gone(order) + [(key, true)];
        order := order + [key];
        left := left - {key};
      }
    }

    method Retain(keep: K -> bool) returns (ghost order: seq<K>)
      modifies this
      ensures keys == set k | k in old(keys) && keep(k)
      ensures SetFits(Keep(order, keys), old(keys))
      ensures State() == SetApplied(Keep(order, keys), old(State()))
      ensures log == old(log) && probes == old(probes)
    {
      var dropped := set k | k in keys && !keep(k);
      order := Listed(dropped);
      if probes > 0 {
        order := JournalGone(dropped);
      }
      assert keys - (keys - dropped) == dropped;
      keys := keys - dropped;
    }

    method Clear() returns (ghost order: seq<K>)
      modifies this
      ensures SetFits(Empty(order), old(keys))
      ensures State() == SetApplied(Empty(order), old(State()))
      ensures keys == {} && log == old(log) && probes == old(probes)
    {
      order := Listed(keys);
      if probes > 0 {
        order := JournalGone(keys);
      }
      keys := {};
    }

    method OpenProbe() returns (mark: ProbeMark)
      modifies this
      ensures State() == SetOpened(old(State()))
      ensures probes == old(probes) + 1 && keys == old(keys) && log == old(log) && undo == old(undo)
      ensures mark == SetMark(old(State()))
    {
      probes := probes + 1;
      mark := ProbeMark(|log|, |undo|);
    }

    method RollBack(mark: ProbeMark)
      requires mark.undo <= |undo| && probes > 0
      modifies this
      ensures SetRolledBack(old(State()), mark) == Some(State())
      ensures undo == old(undo)[..mark.undo] && probes == old(probes) - 1
      ensures log == if mark.log <= |old(log)| then old(log)[..mark.log] else old(log)
    {
      var i := |undo|;
      assert undo[mark.undo..i] == undo[mark.undo..];
      while i > mark.undo
        invariant mark.undo <= i <= |undo|
        invariant log == old(log) && undo == old(undo) && probes == old(probes)
        invariant SetUndone(keys, undo[mark.undo..i]) == SetUndone(old(keys), undo[mark.undo..])
      {
        i := i - 1;
        SetUndoneStep(keys, undo, mark.undo, i);
        var (key, present) := undo[i];
        if present {
          keys := keys + {key};
        } else {
          keys := keys - {key};
        }
      }
      undo := undo[..mark.undo];
      log := Cut(log, mark.log);
      probes := probes - 1;
    }
  }

  /** An append-only store: the log is the store itself, and nothing is journaled. */
  class FactVec<T> {
    var items: seq<T>

    constructor ()
      ensures items == []
    {
      items := [];
    }

    method Push(item: T)
      modifies this
      ensures items == old(items) + [item]
    {
      items := items + [item];
    }

    method Extend(more: seq<T>)
      modifies this
      ensures items == old(items) + more
    {
      for i := 0 to |more|
        invariant items == old(items) + more[..i]
      {
        Push(more[i]);
        assert more[..i + 1] == more[..i] + [more[i]];
      }
      assert more[..|more|] == more;
    }

    method OpenProbe() returns (mark: ProbeMark)
      ensures mark == ProbeMark(|items|, 0)
    {
      mark := ProbeMark(|items|, 0);
    }

    /** Rolling back to a mark made when the store held `before` restores it. */
    method RollBack(mark: ProbeMark, ghost before: seq<T>)
      requires before <= items && mark.log == |before|
      modifies this
      ensures items == before
    {
      items := Cut(items, mark.log);
    }
  }
}
