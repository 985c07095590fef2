/**
 * Compile-time display bindings: a name bound once to a display stands for it,
 * and so does a name bound once to such a name. The loop that finds them takes
 * the aliases in whatever order a hash map yields them.
 */
module Aliases {
  import opened Prelude

  /** A display expression, told apart by a number. */
  datatype Display = Display(id: nat)

  /** A statement or scope the walk meets, with what it binds: a plain compile-time
      binding of a display or of another name, any other statement that binds a
      name, or a scope's names. */
  datatype Binder =
    | ToDisplay(name: Name, display: Display)
    | ToName(name: Name, target: Name)
    | Other(name: Name)
    | Scope(names: seq<Name>)

  function Unstarred(text: string): string {
    if text != "" && text[0] == '*' then Unstarred(text[1..]) else text
  }

  /** How often `names` hold `name`, but for leading stars. */
  function Times(names: seq<Name>, name: Name): nat {
    if names == [] then 0
    else
      var last := names[|names| - 1];
      Times(names[..|names| - 1], name) + if Name(Unstarred(last.text)) == name then 1 else 0
  }

  function Binds(binder: Binder, name: Name): nat {
    match binder
    case ToDisplay(n, _) => if n == name then 1 else 0
    case ToName(n, _) => if n == name then 1 else 0
    case Other(n) => if n == name then 1 else 0
    case Scope(names) => Times(names, name)
  }

  function Bindings(binders: seq<Binder>, name: Name): nat {
    if binders == [] then 0
    else Bindings(binders[..|binders| - 1], name) + Binds(binders[|binders| - 1], name)
  }

  /** Bound once, by `binder`. */
  ghost predicate Once(binders: seq<Binder>, name: Name, binder: Binder) {
    binder in binders && Binds(binder, name) > 0 && Bindings(binders, name) == 1
  }

  /** `name` is bound once, to `display`, or once to a name for which that holds
      within `n` further steps. */
  ghost predicate Leads(binders: seq<Binder>, name: Name, display: Display, n: nat)
    decreases n
  {
    if n == 0 then Once(binders, name, ToDisplay(name, display))
    else exists target :: Once(binders, name, ToName(name, target)) && Leads(binders, target, display, n - 1)
  }

  ghost predicate Names(binders: seq<Binder>, name: Name, display: Display) {
    exists n: nat :: Leads(binders, name, display, n)
  }

  // ----------------------------------------------------------- once is unique

  lemma {:induction false} BindersCount(binders: seq<Binder>, name: Name, i: nat)
    requires i < |binders|
    ensures Bindings(binders, name) >= Binds(binders[i], name)
    decreases |binders|
  {
    if i < |binders| - 1 {
      BindersCount(binders[..|binders| - 1], name, i);
    }
  }

  lemma {:induction false} TwoBindersCount(binders: seq<Binder>, name: Name, i: nat, j: nat)
    requires i < j < |binders|
    ensures Bindings(binders, name) >= Binds(binders[i], name) + Binds(binders[j], name)
    decreases |binders|
  {
    var init := binders[..|binders| - 1];
    if j < |init| {
      TwoBindersCount(init, name, i, j);
    } else {
      BindersCount(init, name, i);
    }
  }

  lemma {:induction false} OnceIsUnique(binders: seq<Binder>, name: Name, a: Binder, b: Binder)
    requires Once(binders, name, a) && b in binders && Binds(b, name) > 0
    ensures a == b
  {
    var i :| 0 <= i < |binders| && binders[i] == a;
    var j :| 0 <= j < |binders| && binders[j] == b;
    if i < j {
      TwoBindersCount(binders, name, i, j);
    } else if j < i {
      TwoBindersCount(binders, name, j, i);
    }
  }

  // --------------------------------------------------- who binds a name

  /** `text` is `name` after some stars, and `name` starts with none. */
  ghost predicate StarredAs(text: string, name: string) {
    && (name == "" || name[0] != '*')
    && exists k | 0 <= k <= |text| :: text[k..] == name && forall j | 0 <= j < k :: text[j] == '*'
  }

  lemma {:induction false} UnstarredStripsStars(text: string, name: string)
    ensures Unstarred(text) == name <==> StarredAs(text, name)
    decreases |text|
  {
    if text != "" && text[0] == '*' {
      UnstarredStripsStars(text[1..], name);
      if StarredAs(text[1..], name) {
        var k :| 0 <= k <= |text[1..]| && text[1..][k..] == name && forall j | 0 <= j < k :: text[1..][j] == '*';
        assert text[k + 1..] == name && forall j | 0 < j < k + 1 :: text[j] == text[1..][j - 1];
      }
      if StarredAs(text, name) {
        var k :| 0 <= k <= |text| && text[k..] == name && forall j | 0 <= j < k :: text[j] == '*';
        assert text[1..][k - 1..] == name && forall j | 0 <= j < k - 1 :: text[1..][j] == text[j + 1];
      }
    } else {
      assert text[0..] == text;
    }
  }

  /** The statement binds `name`, or the scope binds it among its names. */
  ghost predicate Has(binder: Binder, name: Name) {
    || (!binder.Scope? && binder.name == name)
    || (binder.Scope? && exists i | 0 <= i < |binder.names| :: StarredAs(binder.names[i].text, name.text))
  }

  lemma {:induction false} TimesCount(names: seq<Name>, name: Name)
    ensures Times(names, name) > 0 <==> exists i | 0 <= i < |names| :: StarredAs(names[i].text, name.text)
    decreases |names|
  {
    if names != [] {
      var init, last := names[..|names| - 1], |names| - 1;
      TimesCount(init, name);
      UnstarredStripsStars(names[last].text, name.text);
      assert forall i | 0 <= i < last :: init[i] == names[i];
    }
  }

  lemma {:induction false} BindsWhatItHas(binder: Binder, name: Name)
    ensures Binds(binder, name) > 0 <==> Has(binder, name)
  {
    if binder.Scope? {
      TimesCount(binder.names, name);
    }
  }

  lemma {:induction false} AloneCounts(binders: seq<Binder>, name: Name, i: nat)
    requires forall j | 0 <= j < |binders| && j != i :: !Has(binders[j], name)
    ensures Bindings(binders, name) == if i < |binders| then Binds(binders[i], name) else 0
    decreases |binders|
  {
    if binders != [] {
      AloneCounts(binders[..|binders| - 1], name, i);
      BindsWhatItHas(binders[|binders| - 1], name);
    }
  }

  /** The binder at `i` has `name`, and no other has. */
  ghost predicate AloneAt(binders: seq<Binder>, name: Name, i: nat) {
    i < |binders| && forall j | 0 <= j < |binders| :: Has(binders[j], name) <==> j == i
  }

  /** A statement is the one binding of its name exactly when nothing else has that
      name: no other statement, and no scope, whatever stars its names carry. */
  lemma {:induction false} OnceIsAlone(binders: seq<Binder>, name: Name, binder: Binder)
    requires !binder.Scope? && binder.name == name
    ensures Once(binders, name, binder)
       <==> exists i | 0 <= i < |binders| :: binders[i] == binder && AloneAt(binders, name, i)
  {
    if Once(binders, name, binder) {
      var i :| 0 <= i < |binders| && binders[i] == binder;
      forall j | 0 <= j < |binders| ensures Has(binders[j], name) <==> j == i {
        BindsWhatItHas(binders[j], name);
        if j < i {
          TwoBindersCount(binders, name, j, i);
        } else if i < j {
          TwoBindersCount(binders, name, i, j);
        }
      }
      assert AloneAt(binders, name, i);
    }
    if i :| 0 <= i < |binders| && binders[i] == binder && AloneAt(binders, name, i) {
      AloneCounts(binders, name, i);
    }
  }

  /** A name some scope binds, or a statement that is no plain binding of a display
      or a name, stands for no display, however else it is bound. */
  lemma {:induction false} ScopedLeadsNowhere(binders: seq<Binder>, name: Name, binder: Binder, d: Display, n: nat)
    requires binder in binders && (binder.Scope? || binder.Other?) && Has(binder, name)
    ensures !Leads(binders, name, d, n)
  {
    BindsWhatItHas(binder, name);
    if Leads(binders, name, d, n) {
      if n == 0 {
        OnceIsUnique(binders, name, ToDisplay(name, d), binder);
      } else {
        var target :| Once(binders, name, ToName(name, target)) && Leads(binders, target, d, n - 1);
        OnceIsUnique(binders, name, ToName(name, target), binder);
      }
    }
  }

  /** A name stands for one display at most, found in one number of steps. */
  lemma {:induction false} LeadsToOne(binders: seq<Binder>, name: Name, d: Display, n: nat, e: Display, m: nat)
    requires Leads(binders, name, d, n) && Leads(binders, name, e, m)
    ensures d == e && n == m
    decreases n
  {
    if n == 0 {
      if m == 0 {
        OnceIsUnique(binders, name, ToDisplay(name, d), ToDisplay(name, e));
      } else {
        var target :| Once(binders, name, ToName(name, target)) && Leads(binders, target, e, m - 1);
        OnceIsUnique(binders, name, ToDisplay(name, d), ToName(name, target));
      }
    } else {
      var target :| Once(binders, name, ToName(name, target)) && Leads(binders, target, d, n - 1);
      if m == 0 {
        OnceIsUnique(binders, name, ToName(name, target), ToDisplay(name, e));
      } else {
        var other :| Once(binders, name, ToName(name, other)) && Leads(binders, other, e, m - 1);
        OnceIsUnique(binders, name, ToName(name, target), ToName(name, other));
        LeadsToOne(binders, target, d, n - 1, e, m - 1);
      }
    }
  }

  /** Aliases of each other alone, as on a cycle, stay unresolved. */
  lemma {:induction false} CyclesStayUnresolved(binders: seq<Binder>, cycle: map<Name, Name>, name: Name, d: Display,
                                                n: nat)
    requires forall x <- cycle :: ToName(x, cycle[x]) in binders && cycle[x] in cycle
    requires name in cycle
    ensures !Leads(binders, name, d, n)
    decreases n
  {
    if Leads(binders, name, d, n) {
      var bound := ToName(name, cycle[name]);
      if n == 0 {
        OnceIsUnique(binders, name, ToDisplay(name, d), bound);
      } else {
        var target :| Once(binders, name, ToName(name, target)) && Leads(binders, target, d, n - 1);
        OnceIsUnique(binders, name, ToName(name, target), bound);
        CyclesStayUnresolved(binders, cycle, target, d, n - 1);
      }
    }
  }

  /** What the search knows part way: displays found, aliases left. */
  ghost predicate Resolving(binders: seq<Binder>, displays: map<Name, Display>, aliases: map<Name, Name>) {
    && (forall name <- displays :: Names(binders, name, displays[name]))
    && (forall name <- aliases :: Once(binders, name, ToName(name, aliases[name])))
    && (forall name, d :: Once(binders, name, ToDisplay(name, d)) ==> name in displays)
    && (forall name, target :: Once(binders, name, ToName(name, target)) ==> name in displays || name in aliases)
  }

  lemma {:induction false} AliasNames(binders: seq<Binder>, name: Name, target: Name, d: Display)
    requires Once(binders, name, ToName(name, target)) && Names(binders, target, d)
    ensures Names(binders, name, d)
  {
    var n: nat :| Leads(binders, target, d, n);
    assert Leads(binders, name, d, n + 1);
  }

  lemma {:induction false} ResolvingStep(binders: seq<Binder>, displays: map<Name, Display>, aliases: map<Name, Name>,
                                         name: Name)
    requires Resolving(binders, displays, aliases) && name in aliases && aliases[name] in displays
    ensures Resolving(binders, displays[name := displays[aliases[name]]], aliases - {name})
    ensures |aliases - {name}| < |aliases|
  {
    AliasNames(binders, name, aliases[name], displays[aliases[name]]);
    assert (aliases - {name}).Keys == aliases.Keys - {name};
  }

  /** When no alias left leads to a display found, all are found. */
  lemma {:induction false} AllFound(binders: seq<Binder>, displays: map<Name, Display>, aliases: map<Name, Name>,
                                    name: Name, d: Display, n: nat)
    requires Resolving(binders, displays, aliases)
    requires forall x <- aliases :: aliases[x] !in displays
    requires Leads(binders, name, d, n)
    ensures name in displays && displays[name] == d
    decreases n
  {
    if n > 0 {
      var target :| Once(binders, name, ToName(name, target)) && Leads(binders, target, d, n - 1);
      AllFound(binders, displays, aliases, target, d, n - 1);
      if name in aliases {
        OnceIsUnique(binders, name, ToName(name, aliases[name]), ToName(name, target));
      }
    }
    assert name in displays;
    var m: nat :| Leads(binders, name, displays[name], m);
    LeadsToOne(binders, name, d, n, displays[name], m);
  }

  // ------------------------------------------------------------- the search

  class Finder {
    var displays: map<Name, Display>
    var aliases: map<Name, Name>
    var bindings: map<Name, nat>

    constructor ()
      ensures displays == map[] && aliases == map[] && bindings == map[]
    {
      displays, aliases, bindings := map[], map[], map[];
    }

    /** What the fields say after the walk met `binders`. */
    ghost predicate Met(binders: seq<Binder>)
      reads this
    {
      && (forall name :: Bindings(binders, name) == if name in bindings then bindings[name] else 0)
      && (forall name <- displays :: ToDisplay(name, displays[name]) in binders)
      && (forall name <- aliases :: ToName(name, aliases[name]) in binders)
      && (forall name, d :: ToDisplay(name, d) in binders ==> name in displays)
      && (forall name, target :: ToName(name, target) in binders ==> name in aliases)
    }

    method Bind(name: Name)
      modifies this`bindings
      ensures bindings == old(bindings)[name := (if name in old(bindings) then old(bindings)[name] else 0) + 1]
    {
      bindings := bindings[name := (if name in bindings then bindings[name] else 0) + 1];
    }

    method EnterScope(names: seq<Name>)
      modifies this`bindings
      ensures forall name :: (if name in bindings then bindings[name] else 0)
                          == (if name in old(bindings) then old(bindings)[name] else 0) + Times(names, name)
    {
      var i := 0;
      while i < |names|
        invariant 0 <= i <= |names|
        invariant forall name :: (if name in bindings then bindings[name] else 0)
                              == (if name in old(bindings) then old(bindings)[name] else 0) + Times(names[..i], name)
      {
        assert names[..i + 1][..i] == names[..i];
        Bind(Name(Unstarred(names[i].text)));
        i := i + 1;
      }
      assert names[..|names|] == names;
    }

    method Visit(ghost before: seq<Binder>, binder: Binder)
      requires Met(before)
      modifies this
      ensures Met(before + [binder])
    {
      ghost var after := before + [binder];
      assert after[..|before|] == before;
      match binder
      case ToDisplay(name, display) =>
        Bind(name);
        displays := displays[name := display];
      case ToName(name, target) =>
        Bind(name);
        aliases := aliases[name := target];
      case Other(name) =>
        Bind(name);
      case Scope(names) =>
        EnterScope(names);
    }

    method Walk(binders: seq<Binder>)
      requires Met([])
      modifies this
      ensures Met(binders)
    {
      var i := 0;
      while i < |binders|
        invariant 0 <= i <= |binders| && Met(binders[..i])
      {
        assert binders[..i + 1] == binders[..i] + [binders[i]];
        Visit(binders[..i], binders[i]);
        i := i + 1;
      }
      assert binders[..|binders|] == binders;
    }

    /** Keep the names bound once. */
    method Retain(ghost binders: seq<Binder>)
      requires Met(binders)
      modifies this
      ensures Resolving(binders, displays, aliases)
    {
      displays := map name | name in displays && name in bindings && bindings[name] == 1 :: displays[name];
      aliases := map name | name in aliases && name in bindings && bindings[name] == 1 :: aliases[name];
      forall name <- displays ensures Names(binders, name, displays[name]) {
        assert Leads(binders, name, displays[name], 0);
      }
    }
  }

  /** Resolve aliases one at a time, any that can be next. */
  method Resolve(ghost binders: seq<Binder>, found: map<Name, Display>, aliases: map<Name, Name>)
    returns (displays: map<Name, Display>, ghost left: map<Name, Name>)
    requires Resolving(binders, found, aliases)
    ensures Resolving(binders, displays, left)
    ensures forall name <- left :: left[name] !in displays
  {
    var rest := aliases;
    displays := found;
    while exists name <- rest :: rest[name] in displays
      invariant Resolving(binders, displays, rest)
      decreases |rest|
    {
      var name :| name in rest && rest[name] in displays;
      ResolvingStep(binders, displays, rest, name);
      displays, rest := displays[name := displays[rest[name]]], rest - {name};
    }
    left := rest;
  }

  /** Whatever order the aliases come in, the search ends with the same result:
      a name is bound to a display exactly when its chain of names bound once
      ends at a name bound once to that display. */
  method DisplayBindings(binders: seq<Binder>) returns (displays: map<Name, Display>)
    ensures forall name, d :: (name in displays && displays[name] == d) <==> Names(binders, name, d)
  {
    var finder := new Finder();
    finder.Walk(binders);
    finder.Retain(binders);
    ghost var left;
    displays, left := Resolve(binders, finder.displays, finder.aliases);
    forall name, d | Names(binders, name, d) ensures name in displays && displays[name] == d {
      var n: nat :| Leads(binders, name, d, n);
      AllFound(binders, displays, left, name, d, n);
    }
  }
}
