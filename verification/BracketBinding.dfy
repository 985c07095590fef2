/**
 * Binding a compile-time bracket list to a declaration's parameters.
 */
module BracketBinding {
  import opened Prelude
  import opened CallBinding

  datatype Param = Param(keyword: Name, inferOnly: bool, variadic: bool)

  datatype ParamMatchError =
    | UnexpectedParameter(skippedInferOnly: bool, expected: nat, got: nat)
    | UnexpectedKeyword(name: Name)
    | UnknownParameter(name: Name)
    | MisplacedRest

  /** An argument's keyword, `None` for a positional one. */
  type Args = seq<Option<Name>>

  function Keywords(params: seq<Param>): seq<Name> {
    seq(|params|, p requires 0 <= p < |params| => params[p].keyword)
  }

  function ParamIndex(params: seq<Param>, name: Name): (r: Option<nat>)
    ensures r.Some? ==> r.value < |params| && params[r.value].keyword == name
    ensures r.Some? ==> forall p | 0 <= p < r.value :: params[p].keyword != name
    ensures r.None? ==> forall p | 0 <= p < |params| :: params[p].keyword != name
  {
    assert forall p | 0 <= p < |params| :: Keywords(params)[p] == params[p].keyword;
    Position(Keywords(params), name)
  }

  function Bindable(params: seq<Param>): nat {
    if params == [] then 0 else (if params[0].inferOnly then 0 else 1) + Bindable(params[1..])
  }

  // --------------------------------------------------------- legal bindings

  predicate Below(q: nat, slots: seq<nat>, j: nat)
    requires j < |slots|
  {
    q < slots[j]
  }

  /** The positional arguments before `n` fill the parameters that are not
      infer-only in order, skipping none, a pack taking all from its turn on. */
  ghost predicate PositionalsBound(params: seq<Param>, args: Args, slots: seq<nat>, n: nat)
    requires n <= |args| == |slots|
  {
    && (forall i | 0 <= i < n && args[i].None? :: slots[i] < |params| && !params[slots[i]].inferOnly)
    && (forall i, j | 0 <= i < j < n && args[i].None? && args[j].None? ::
          slots[i] <= slots[j] && (slots[i] == slots[j] <==> params[slots[i]].variadic))
    && (forall j: nat, q: nat {:trigger Below(q, slots, j)}
          | j < n && args[j].None? && Below(q, slots, j) && !params[q].inferOnly ::
          exists i | 0 <= i < j :: args[i].None? && slots[i] == q)
  }

  /** Each keyword before `n` binds the parameter it names, alone. */
  ghost predicate KeywordsBound(params: seq<Param>, args: Args, slots: seq<nat>, n: nat)
    requires n <= |args| == |slots|
  {
    && (forall i | 0 <= i < n && args[i].Some? :: ParamIndex(params, args[i].value) == Some(slots[i]))
    && (forall i, j | 0 <= i < n && 0 <= j < |args| && i != j && args[i].Some? && (j < n || args[j].None?) ::
          slots[i] != slots[j])
  }

  ghost predicate Legal(params: seq<Param>, args: Args, slots: seq<nat>) {
    && |slots| == |args|
    && PositionalsBound(params, args, slots, |args|)
    && KeywordsBound(params, args, slots, |args|)
  }

  /** Bindings of the positional arguments agree. */
  lemma {:induction false} PositionalsAgree(params: seq<Param>, args: Args, a: seq<nat>, b: seq<nat>, n: nat, i: nat)
    requires n <= |args| == |a| == |b| && i < n && args[i].None?
    requires PositionalsBound(params, args, a, n) && PositionalsBound(params, args, b, n)
    ensures a[i] == b[i]
    decreases i
  {
    forall k | 0 <= k < i && args[k].None? ensures a[k] == b[k] {
      PositionalsAgree(params, args, a, b, n, k);
    }
    assert a[i] < b[i] ==> Below(a[i], b, i);
    assert b[i] < a[i] ==> Below(b[i], a, i);
  }

  /** A bracket list has at most one legal binding. */
  lemma {:induction false} LegalIsUnique(params: seq<Param>, args: Args, a: seq<nat>, b: seq<nat>)
    requires Legal(params, args, a) && Legal(params, args, b)
    ensures a == b
  {
    forall i | 0 <= i < |args| ensures a[i] == b[i] {
      if args[i].None? {
        PositionalsAgree(params, args, a, b, |args|, i);
      }
    }
  }

  /** Every argument binds one parameter; a parameter that is not a pack is bound
      at most once, and an infer-only one only by keyword. */
  lemma {:induction false} BoundOnce(params: seq<Param>, args: Args, slots: seq<nat>)
    requires Legal(params, args, slots)
    ensures forall i | 0 <= i < |slots| :: slots[i] < |params|
    ensures forall i, j | 0 <= i < j < |slots| && slots[i] == slots[j] :: params[slots[i]].variadic
    ensures forall i | 0 <= i < |slots| && params[slots[i]].inferOnly :: args[i].Some?
  {
  }

  /** `moved` lists the arguments of `args` with the keywords moved about, the
      positional ones in the same order. */
  ghost predicate KeywordsMoved(args: Args, moved: Args, there: seq<nat>, back: seq<nat>) {
    && Renumbering(there, back, |args|) && |moved| == |args|
    && (forall i | 0 <= i < |args| :: moved[i] == args[there[i]])
    && (forall i, j | 0 <= i < j < |args| && moved[i].None? && moved[j].None? :: there[i] < there[j])
  }

  lemma {:induction false} MovedPositionals(params: seq<Param>, args: Args, moved: Args, there: seq<nat>,
                                            back: seq<nat>, slots: seq<nat>, after: seq<nat>)
    requires KeywordsMoved(args, moved, there, back) && Legal(params, args, slots)
    requires |after| == |args| && forall i | 0 <= i < |args| :: after[i] == slots[there[i]]
    ensures PositionalsBound(params, moved, after, |moved|)
  {
    forall j: nat, q: nat {:trigger Below(q, after, j)}
      | j < |args| && moved[j].None? && Below(q, after, j) && !params[q].inferOnly
      ensures exists i | 0 <= i < j :: moved[i].None? && after[i] == q
    {
      assert Below(q, slots, there[j]);
      var k :| 0 <= k < there[j] && args[k].None? && slots[k] == q;
      var i := back[k];
      assert there[i] == k;
      assert moved[i].None? && after[i] == q;
    }
  }

  /** Moving the keywords among the positional arguments changes neither whether
      the list binds nor which parameter any argument binds. */
  lemma {:induction false} KeywordPlaceIsIrrelevant(params: seq<Param>, args: Args, moved: Args, there: seq<nat>,
                                                    back: seq<nat>, slots: seq<nat>)
    returns (after: seq<nat>)
    requires KeywordsMoved(args, moved, there, back) && Legal(params, args, slots)
    ensures Legal(params, moved, after)
    ensures forall i | 0 <= i < |args| :: after[i] == slots[there[i]]
  {
    after := seq(|args|, i requires 0 <= i < |args| => slots[there[i]]);
    MovedPositionals(params, args, moved, there, back, slots, after);
    forall i, j | 0 <= i < |args| && 0 <= j < |args| && i != j && moved[i].Some? ensures after[i] != after[j] {
      assert back[there[i]] == i && back[there[j]] == j;
    }
  }

  // ------------------------------------------------------------ the matcher

  predicate Passed(q: nat, next: nat) {
    q < next
  }

  /** After the positional arguments before `n`: `next` is past every parameter
      they filled, except a pack they are filling. */
  ghost predicate Reached(params: seq<Param>, args: Args, slots: seq<nat>, n: nat, next: nat)
    requires n <= |args| == |slots|
  {
    && next <= |params|
    && PositionalsBound(params, args, slots, n)
    && (forall i | 0 <= i < n && args[i].None? ::
          if params[slots[i]].variadic then slots[i] == next else slots[i] < next)
    && (forall q: nat {:trigger Passed(q, next)} | Passed(q, next) && !params[q].inferOnly ::
          exists i | 0 <= i < n :: args[i].None? && slots[i] == q)
  }

  lemma {:induction false} ReachedNext(params: seq<Param>, args: Args, slots: seq<nat>, n: nat, next: nat,
                                       after: seq<nat>)
    requires n < |args| == |slots| && Reached(params, args, slots, n, next) && args[n].None?
    requires next < |params| && !params[next].inferOnly && after == slots[n := next]
    ensures Reached(params, args, after, n + 1, if params[next].variadic then next else next + 1)
  {
    forall i | 0 <= i < n ensures after[i] == slots[i] {}
    forall j: nat, q: nat {:trigger Below(q, after, j)}
      | j < n + 1 && args[j].None? && Below(q, after, j) && !params[q].inferOnly
      ensures exists i | 0 <= i < j :: args[i].None? && after[i] == q
    {
      if j < n {
        assert Below(q, slots, j);
        var i :| 0 <= i < j && args[i].None? && slots[i] == q;
        assert after[i] == q;
      } else {
        assert Passed(q, next);
        var i :| 0 <= i < n && args[i].None? && slots[i] == q;
        assert after[i] == q;
      }
    }
    var next' := if params[next].variadic then next else next + 1;
    forall q: nat {:trigger Passed(q, next')} | Passed(q, next') && !params[q].inferOnly
      ensures exists i | 0 <= i < n + 1 :: args[i].None? && after[i] == q
    {
      if Passed(q, next) {
        var i :| 0 <= i < n && args[i].None? && slots[i] == q;
        assert after[i] == q;
      } else {
        assert after[n] == q;
      }
    }
  }

  lemma {:induction false} ReachedSkips(params: seq<Param>, args: Args, slots: seq<nat>, n: nat, next: nat)
    requires n <= |args| == |slots| && Reached(params, args, slots, n, next)
    requires next < |params| && params[next].inferOnly
    ensures Reached(params, args, slots, n, next + 1)
  {
    assert forall q: nat {:trigger Passed(q, next + 1)} | Passed(q, next + 1) && q != next :: Passed(q, next);
  }

  /** A positional argument left over when every parameter is passed leaves no
      legal binding. */
  lemma {:induction false} LeftOver(params: seq<Param>, args: Args, slots: seq<nat>, n: nat, b: seq<nat>)
    requires n < |args| == |slots| && Reached(params, args, slots, n, |params|) && args[n].None?
    ensures !Legal(params, args, b)
  {
    if Legal(params, args, b) {
      assert Passed(b[n], |params|);
      var i :| 0 <= i < n && args[i].None? && slots[i] == b[n];
      PositionalsAgree(params, args, slots, b, n, i);
    }
  }

  /** Parameter `p` is bound by a positional argument before `m` or a keyword
      before `n`. */
  ghost predicate Taken(args: Args, slots: seq<nat>, m: nat, n: nat, p: nat)
    requires |slots| == |args|
  {
    exists i | 0 <= i < |args| :: slots[i] == p && (if args[i].None? then i < m else i < n)
  }

  ghost predicate Tracks(filled: seq<bool>, args: Args, slots: seq<nat>, m: nat, n: nat)
    requires |slots| == |args|
  {
    forall p | 0 <= p < |filled| :: filled[p] <==> Taken(args, slots, m, n, p)
  }

  predicate SomeInferOnly(params: seq<Param>, n: nat)
    requires n <= |params|
  {
    exists p | 0 <= p < n :: params[p].inferOnly
  }

  /** What each refusal says of the list. */
  ghost predicate Names(params: seq<Param>, args: Args, e: ParamMatchError) {
    match e
    case UnexpectedParameter(skipped, expected, got) =>
      (skipped <==> SomeInferOnly(params, |params|)) && expected == Bindable(params) && got == |args|
    case UnknownParameter(name) => Some(name) in args && ParamIndex(params, name).None?
    case UnexpectedKeyword(name) => Some(name) in args && ParamIndex(params, name).Some?
    case MisplacedRest => false
  }

  lemma {:induction false} NoneLeft(params: seq<Param>, args: Args, slots: seq<nat>, n: nat)
    requires n < |args| == |slots| && Reached(params, args, slots, n, |params|) && args[n].None?
    ensures forall b :: !Legal(params, args, b)
  {
    forall b {
      LeftOver(params, args, slots, n, b);
    }
  }

  lemma {:induction false} ReachedPastKeyword(params: seq<Param>, args: Args, slots: seq<nat>, n: nat, next: nat)
    requires n < |args| == |slots| && Reached(params, args, slots, n, next) && args[n].Some?
    ensures Reached(params, args, slots, n + 1, next)
  {
  }

  method BindNext(params: seq<Param>, args: Args, before: seq<nat>, taken: seq<bool>, n: nat, at: nat)
    returns (slots: seq<nat>, filled: seq<bool>, next: nat)
    requires n < |args| == |before| && |taken| == |params| && args[n].None?
    requires Reached(params, args, before, n, at) && at < |params| && !params[at].inferOnly
    requires Tracks(taken, args, before, n, 0)
    ensures |slots| == |args| && |filled| == |params|
    ensures Reached(params, args, slots, n + 1, next)
    ensures Tracks(filled, args, slots, n + 1, 0)
    ensures next == if params[at].variadic then at else at + 1
  {
    ReachedNext(params, args, before, n, at, before[n := at]);
    slots, filled, next := before[n := at], taken[at := true], at;
    if !params[at].variadic {
      next := at + 1;
    }
  }

  method SkipInferOnly(params: seq<Param>, ghost args: Args, ghost slots: seq<nat>, ghost n: nat, from: nat,
                       before: bool)
    returns (next: nat, skipped: bool)
    requires n <= |args| == |slots| && Reached(params, args, slots, n, from)
    requires before <==> SomeInferOnly(params, from)
    ensures Reached(params, args, slots, n, next)
    ensures skipped <==> SomeInferOnly(params, next)
    ensures next == |params| || !params[next].inferOnly
  {
    next, skipped := from, before;
    while next < |params| && params[next].inferOnly
      invariant Reached(params, args, slots, n, next)
      invariant skipped <==> SomeInferOnly(params, next)
    {
      ReachedSkips(params, args, slots, n, next);
      skipped := true;
      next := next + 1;
    }
  }

  method BindPositionals(params: seq<Param>, args: Args) returns (r: Result<(seq<nat>, seq<bool>), ParamMatchError>)
    ensures r.Ok? ==>
      && |r.value.0| == |args| && |r.value.1| == |params|
      && PositionalsBound(params, args, r.value.0, |args|)
      && Tracks(r.value.1, args, r.value.0, |args|, 0)
    ensures r.Err? ==>
      && r.error == UnexpectedParameter(SomeInferOnly(params, |params|), Bindable(params), |args|)
      && forall b :: !Legal(params, args, b)
  {
    var slots: seq<nat> := seq(|args|, i => 0);
    var filled := seq(|params|, p => false);
    var next, skipped := 0, false;
    for n := 0 to |args|
      invariant |slots| == |args| && |filled| == |params|
      invariant Reached(params, args, slots, n, next)
      invariant skipped <==> SomeInferOnly(params, next)
      invariant Tracks(filled, args, slots, n, 0)
    {
      if args[n].None? {
        next, skipped := SkipInferOnly(params, args, slots, n, next, skipped);
        if next == |params| {
          NoneLeft(params, args, slots, n);
          return Err(UnexpectedParameter(skipped, Bindable(params), |args|));
        }
        slots, filled, next := BindNext(params, args, slots, filled, n, next);
      } else {
        ReachedPastKeyword(params, args, slots, n, next);
      }
    }
    r := Ok((slots, filled));
  }

  lemma {:induction false} UnknownHasNone(params: seq<Param>, args: Args, n: nat, b: seq<nat>)
    requires n < |args| && args[n].Some? && ParamIndex(params, args[n].value).None?
    ensures !Legal(params, args, b)
  {
  }

  lemma {:induction false} FilledHasNone(params: seq<Param>, args: Args, slots: seq<nat>, n: nat, p: nat, b: seq<nat>)
    requires n < |args| == |slots| && args[n].Some? && ParamIndex(params, args[n].value) == Some(p)
    requires PositionalsBound(params, args, slots, |args|) && KeywordsBound(params, args, slots, n)
    requires Taken(args, slots, |args|, n, p)
    ensures !Legal(params, args, b)
  {
    if Legal(params, args, b) {
      var i :| 0 <= i < |args| && slots[i] == p && (if args[i].None? then i < |args| else i < n);
      if args[i].None? {
        PositionalsAgree(params, args, slots, b, |args|, i);
      }
    }
  }

  lemma {:induction false} PositionalsKept(params: seq<Param>, args: Args, slots: seq<nat>, n: nat, p: nat)
    requires n < |args| == |slots| && args[n].Some?
    requires PositionalsBound(params, args, slots, |args|)
    ensures PositionalsBound(params, args, slots[n := p], |args|)
  {
    var after := slots[n := p];
    assert forall i | 0 <= i < |args| && args[i].None? :: after[i] == slots[i];
    forall j: nat, q: nat {:trigger Below(q, after, j)}
      | j < |args| && args[j].None? && Below(q, after, j) && !params[q].inferOnly
      ensures exists i | 0 <= i < j :: args[i].None? && after[i] == q
    {
      assert Below(q, slots, j);
      var i :| 0 <= i < j && args[i].None? && slots[i] == q;
      assert after[i] == q;
    }
  }

  method BindKeywords(params: seq<Param>, args: Args, positional: seq<nat>, taken: seq<bool>)
    returns (r: Result<seq<nat>, ParamMatchError>)
    requires |positional| == |args| && |taken| == |params|
    requires PositionalsBound(params, args, positional, |args|) && Tracks(taken, args, positional, |args|, 0)
    ensures r.Ok? ==> Legal(params, args, r.value)
    ensures r.Err? ==> forall b :: !Legal(params, args, b)
    ensures r.Err? ==> !r.error.UnexpectedParameter? && Names(params, args, r.error)
  {
    var slots, filled := positional, taken;
    for n := 0 to |args|
      invariant |slots| == |args| && |filled| == |params|
      invariant PositionalsBound(params, args, slots, |args|)
      invariant KeywordsBound(params, args, slots, n)
      invariant Tracks(filled, args, slots, |args|, n)
    {
      if args[n].Some? {
        assert args[n] in args;
        var name := args[n].value;
        var index := ParamIndex(params, name);
        if index.None? {
          forall b {
            UnknownHasNone(params, args, n, b);
          }
          return Err(UnknownParameter(name));
        }
        var p := index.value;
        if filled[p] {
          forall b {
            FilledHasNone(params, args, slots, n, p, b);
          }
          return Err(UnexpectedKeyword(name));
        }
        PositionalsKept(params, args, slots, n, p);
        slots, filled := slots[n := p], filled[p := true];
      }
    }
    r := Ok(slots);
  }

  /** The parameter each argument binds: refused only when no legal binding
      exists. */
  method MatchParameterSlots(params: seq<Param>, args: Args) returns (r: Result<seq<nat>, ParamMatchError>)
    ensures r.Ok? ==> Legal(params, args, r.value)
    ensures r.Ok? <==> exists b :: Legal(params, args, b)
    ensures r.Err? ==> Names(params, args, r.error)
  {
    var bound := BindPositionals(params, args);
    match bound {
      case Err(error) => r := Err(error);
      case Ok((slots, filled)) =>
        r := BindKeywords(params, args, slots, filled);
        if r.Ok? {
          assert Legal(params, args, r.value);
        }
    }
  }

  // -------------------------------------------------------- unbound markers

  /** How an argument leaves a parameter unbound, if it does. */
  datatype Unbound = Bound | Hole | Rest

  /** A bracket argument: its keyword, and the unbound marker it spells. */
  datatype Argument = Argument(keyword: Option<Name>, marker: Unbound)

  datatype UnboundSlots = UnboundSlots(listed: nat, kept: seq<nat>, open: seq<Unbound>)

  function ArgumentKeywords(arguments: seq<Argument>): Args {
    seq(|arguments|, i requires 0 <= i < |arguments| => arguments[i].keyword)
  }

  /** Whether the list ends in a `...` of its own. */
  predicate EndsInRest(arguments: seq<Argument>) {
    && arguments != []
    && arguments[|arguments| - 1] == Argument(None, Rest)
  }

  function Listed(arguments: seq<Argument>): seq<Argument> {
    if EndsInRest(arguments) then arguments[..|arguments| - 1] else arguments
  }

  ghost predicate Filled(slots: seq<nat>, n: nat, p: nat)
    requires n <= |slots|
  {
    exists i | 0 <= i < n :: slots[i] == p
  }

  /** Some argument before `n` that binds `p` is a hole. */
  ghost predicate Holed(listed: seq<Argument>, slots: seq<nat>, n: nat, p: nat)
    requires n <= |slots| == |listed|
  {
    exists i | 0 <= i < n :: slots[i] == p && listed[i].marker == Hole
  }

  /** `kept` lists, in order, the arguments before `n` that bind a value. */
  predicate Keeps(kept: seq<nat>, listed: seq<Argument>, n: nat)
    requires n <= |listed|
  {
    && Increasing(kept)
    && (forall i <- kept :: i < n && listed[i].marker.Bound?)
    && (forall i | 0 <= i < n && listed[i].marker.Bound? :: i in kept)
  }

  /** What the slots `open` and the arguments `kept` say of a binding. */
  ghost predicate Describes(params: seq<Param>, arguments: seq<Argument>, slots: seq<nat>, u: UnboundSlots) {
    var listed := Listed(arguments);
    && u.listed == |listed| == |slots|
    && |u.open| == |params|
    && Keeps(u.kept, listed, |listed|)
    && (forall p | 0 <= p < |params| ::
          u.open[p] == if Holed(listed, slots, |slots|, p) then Hole
                       else if EndsInRest(arguments) && !Filled(slots, |slots|, p) && !params[p].inferOnly then Rest
                       else Bound)
  }

  method MarkRest(params: seq<Param>, before: seq<Unbound>, filled: seq<bool>) returns (open: seq<Unbound>)
    requires |before| == |filled| == |params|
    ensures |open| == |params|
    ensures forall p | 0 <= p < |params| ::
      open[p] == if !filled[p] && !params[p].inferOnly then Rest else before[p]
  {
    open := before;
    for p := 0 to |params|
      invariant |open| == |params|
      invariant forall q | p <= q < |params| :: open[q] == before[q]
      invariant forall q | 0 <= q < p ::
        open[q] == if !filled[q] && !params[q].inferOnly then Rest else before[q]
    {
      if !filled[p] && !params[p].inferOnly {
        open := open[p := Rest];
      }
    }
  }

  lemma {:induction false} KeepsStep(kept: seq<nat>, listed: seq<Argument>, n: nat)
    requires n < |listed| && Keeps(kept, listed, n)
    ensures Keeps(if listed[n].marker.Bound? then kept + [n] else kept, listed, n + 1)
  {
    assert forall i | 0 <= i < |kept| :: kept[i] in kept;
  }

  method MarkHoles(params: nat, bound: seq<Argument>, slots: seq<nat>)
    returns (open: seq<Unbound>, filled: seq<bool>, kept: seq<nat>)
    requires |slots| == |bound|
    requires forall i | 0 <= i < |bound| :: slots[i] < params && bound[i].marker != Rest
    ensures |open| == |filled| == params
    ensures forall p | 0 <= p < params :: filled[p] <==> Filled(slots, |slots|, p)
    ensures forall p | 0 <= p < params :: open[p] == if Holed(bound, slots, |slots|, p) then Hole else Bound
    ensures Keeps(kept, bound, |bound|)
  {
    open := seq(params, p => Bound);
    filled := seq(params, p => false);
    kept := [];
    for n := 0 to |bound|
      invariant |open| == |filled| == params
      invariant forall p | 0 <= p < params :: filled[p] <==> Filled(slots, n, p)
      invariant forall p | 0 <= p < params :: open[p] == if Holed(bound, slots, n, p) then Hole else Bound
      invariant Keeps(kept, bound, n)
    {
      KeepsStep(kept, bound, n);
      filled := filled[slots[n] := true];
      if bound[n].marker == Hole {
        open := open[slots[n] := Hole];
      } else {
        kept := kept + [n];
      }
    }
  }

  /** The parameters a bracket list leaves unbound. */
  method BracketUnboundSlots(params: seq<Param>, arguments: seq<Argument>)
    returns (r: Result<UnboundSlots, ParamMatchError>)
    ensures r.Ok? ==> exists slots ::
      Legal(params, ArgumentKeywords(Listed(arguments)), slots) && Describes(params, arguments, slots, r.value)
    ensures r.Ok? <==>
      && (forall a <- Listed(arguments) :: a.marker != Rest)
      && exists slots :: Legal(params, ArgumentKeywords(Listed(arguments)), slots)
    ensures r == Err(MisplacedRest) <==> exists a <- Listed(arguments) :: a.marker == Rest
    ensures r.Err? && !r.error.MisplacedRest? ==> Names(params, ArgumentKeywords(Listed(arguments)), r.error)
  {
    var bound := Listed(arguments);
    if exists a <- bound :: a.marker == Rest {
      return Err(MisplacedRest);
    }
    var matched := MatchParameterSlots(params, ArgumentKeywords(bound));
    if matched.Err? {
      return Err(matched.error);
    }
    var slots := matched.value;
    BoundOnce(params, ArgumentKeywords(bound), slots);
    assert forall i | 0 <= i < |bound| :: bound[i] in bound;
    var open, filled, kept := MarkHoles(|params|, bound, slots);
    if EndsInRest(arguments) {
      open := MarkRest(params, open, filled);
    }
    r := Ok(UnboundSlots(|bound|, kept, open));
    assert Describes(params, arguments, slots, r.value);
  }

  /** With a trailing `...` every parameter that is not infer-only is filled or
      left open, only the unfilled ones by the `...`; the kept arguments and the
      holes are all the listed ones, none both. */
  lemma {:induction false} MarkersPartition(params: seq<Param>, arguments: seq<Argument>, slots: seq<nat>,
                                            u: UnboundSlots)
    requires Describes(params, arguments, slots, u)
    requires forall a <- Listed(arguments) :: a.marker != Rest
    ensures EndsInRest(arguments) ==> forall p | 0 <= p < |params| && !params[p].inferOnly ::
              !u.open[p].Bound? || Filled(slots, |slots|, p)
    ensures forall p | 0 <= p < |params| && u.open[p] == Rest ::
              EndsInRest(arguments) && !params[p].inferOnly && !Filled(slots, |slots|, p)
    ensures forall i: nat | i < u.listed :: (i in u.kept) != (Listed(arguments)[i].marker == Hole)
  {
  }
}
