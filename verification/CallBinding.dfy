/**
 * Matching a call's positional and keyword arguments to regular parameters,
 * against a declarative notion of a legal binding.
 */
module CallBinding {
  import opened Prelude

  datatype ArgSlot = Positional(index: nat) | Keyword(index: nat) | Default

  datatype MatchError =
    | TooManyPositional(expected: nat, got: nat)
    | UnknownKeyword(name: Name)
    | PositionalOnly(name: Name)
    | Duplicate(name: Name)
    | Missing(name: Name)
    | RepeatedSpread
    | PositionalAfterSpread
    | SpreadOutsideVariadic
    | KeywordsBesideForward

  datatype Signature = Signature(
    names: seq<Name>,
    required: seq<bool>,
    positionalOnly: Option<nat>,
    keywordOnly: Option<nat>,
    collectsPositional: bool,
    collectsKeywords: bool)

  datatype Call = Call(npos: nat, keywords: seq<Name>)

  datatype CallSlots =
    CallSlots(slots: seq<ArgSlot>, positionalOverflow: seq<nat>, keywordOverflow: seq<nat>)

  ghost predicate WellFormed(sig: Signature) {
    |sig.required| == |sig.names|
  }

  /** How many leading parameters a positional argument can fill. */
  function Limit(sig: Signature): nat {
    match sig.keywordOnly
    case Some(k) => if k < |sig.names| then k else |sig.names|
    case None => |sig.names|
  }

  predicate OnlyPositional(sig: Signature, p: nat) {
    sig.positionalOnly.Some? && p < sig.positionalOnly.value
  }

  // --------------------------------------------------------- legal bindings

  /** Positional arguments fill the parameters below the limit in order, the
      rest going to a collector. */
  ghost predicate PositionalsPlaced(sig: Signature, call: Call, b: CallSlots)
    requires |b.slots| == |sig.names|
  {
    && (forall i | 0 <= i < call.npos && i < Limit(sig) :: b.slots[i] == Positional(i))
    && (forall p | 0 <= p < |b.slots| && b.slots[p].Positional? :: p < call.npos && p < Limit(sig))
    && |b.positionalOverflow| == (if call.npos > Limit(sig) then call.npos - Limit(sig) else 0)
    && (forall j | 0 <= j < |b.positionalOverflow| :: b.positionalOverflow[j] == Limit(sig) + j)
    && (call.npos > Limit(sig) ==> sig.collectsPositional)
  }

  /** Each keyword is given once, and fills the parameter it names, which is not
      positional-only, or goes to a collector when it names none. */
  ghost predicate KeywordsPlaced(sig: Signature, call: Call, b: CallSlots)
    requires |b.slots| == |sig.names|
  {
    && NoRepeats(call.keywords)
    && (forall p | 0 <= p < |b.slots| && b.slots[p].Keyword? ::
          && b.slots[p].index < |call.keywords|
          && call.keywords[b.slots[p].index] == sig.names[p]
          && !OnlyPositional(sig, p))
    && (forall k | 0 <= k < |call.keywords| :: Keyword(k) in b.slots || k in b.keywordOverflow)
    && Increasing(b.keywordOverflow)
    && (forall k <- b.keywordOverflow ::
          k < |call.keywords| && call.keywords[k] !in sig.names && sig.collectsKeywords)
  }

  ghost predicate Legal(sig: Signature, call: Call, b: CallSlots)
    requires WellFormed(sig)
  {
    && |b.slots| == |sig.names|
    && PositionalsPlaced(sig, call, b)
    && KeywordsPlaced(sig, call, b)
    && forall p | 0 <= p < |b.slots| :: sig.required[p] ==> b.slots[p] != Default
  }

  lemma {:induction false} IncreasingSameElements(a: seq<nat>, b: seq<nat>)
    requires Increasing(a) && Increasing(b) && forall x :: x in a <==> x in b
    ensures a == b
    decreases |a|
  {
    var x, y := if a == [] then 0 else a[0], if b == [] then 0 else b[0];
    assert (a != [] ==> x in a) && (b != [] ==> y in b);
    if a != [] && b != [] {
      assert x in b && y in a;
      forall z ensures z in a[1..] <==> z in b[1..] {
        assert z in a[1..] <==> z in a && z != x;
        assert z in b[1..] <==> z in b && z != y;
      }
      IncreasingSameElements(a[1..], b[1..]);
      assert a == [x] + a[1..] && b == [y] + b[1..];
    }
  }

  lemma {:induction false} KeywordSlotAgrees(sig: Signature, call: Call, a: CallSlots, b: CallSlots, p: nat)
    requires WellFormed(sig) && NoRepeats(sig.names) && Legal(sig, call, a) && Legal(sig, call, b)
    requires p < |a.slots| && a.slots[p].Keyword?
    ensures b.slots[p] == a.slots[p]
  {
  }

  /** A collected keyword fills no slot of any legal binding. */
  lemma {:induction false} OverflowNamesNone(sig: Signature, call: Call, a: CallSlots, k: nat)
    requires WellFormed(sig) && Legal(sig, call, a) && k in a.keywordOverflow
    ensures Keyword(k) !in a.slots
  {
  }

  /** A call has at most one legal binding. */
  lemma {:induction false} LegalBindingIsUnique(sig: Signature, call: Call, a: CallSlots, b: CallSlots)
    requires WellFormed(sig) && NoRepeats(sig.names) && Legal(sig, call, a) && Legal(sig, call, b)
    ensures a == b
  {
    forall p | 0 <= p < |a.slots| ensures a.slots[p] == b.slots[p] {
      if a.slots[p].Keyword? {
        KeywordSlotAgrees(sig, call, a, b, p);
      } else if b.slots[p].Keyword? {
        KeywordSlotAgrees(sig, call, b, a, p);
      }
    }
    assert a.slots == b.slots;
    forall k ensures k in a.keywordOverflow <==> k in b.keywordOverflow {
      if k in a.keywordOverflow {
        OverflowNamesNone(sig, call, a, k);
      }
      if k in b.keywordOverflow {
        OverflowNamesNone(sig, call, b, k);
      }
    }
    IncreasingSameElements(a.keywordOverflow, b.keywordOverflow);
  }

  /** Every argument supplied is in exactly one place: each positional in its own
      slot or the overflow, each keyword in one slot or the overflow. */
  lemma {:induction false} EachArgumentPlacedOnce(sig: Signature, call: Call, b: CallSlots)
    requires WellFormed(sig) && NoRepeats(sig.names) && Legal(sig, call, b)
    ensures forall i | 0 <= i < call.npos :: (Positional(i) in b.slots) != (i in b.positionalOverflow)
    ensures forall k | 0 <= k < |call.keywords| :: (Keyword(k) in b.slots) != (k in b.keywordOverflow)
    ensures forall p, q | 0 <= p < q < |b.slots| && b.slots[p] == b.slots[q] :: b.slots[p] == Default
    ensures Increasing(b.positionalOverflow) && Increasing(b.keywordOverflow)
  {
    forall i | 0 <= i < call.npos ensures (Positional(i) in b.slots) != (i in b.positionalOverflow) {
      if i < Limit(sig) {
        assert b.slots[i] == Positional(i);
      } else {
        assert b.positionalOverflow[i - Limit(sig)] == i;
      }
    }
    forall k | 0 <= k < |call.keywords| ensures (Keyword(k) in b.slots) != (k in b.keywordOverflow) {
      if k in b.keywordOverflow {
        OverflowNamesNone(sig, call, b, k);
      }
    }
  }

  // ------------------------------------------------------------ the matcher

  function Regular(sig: Signature, call: Call): nat {
    if call.npos < Limit(sig) then call.npos else Limit(sig)
  }

  /** What each refusal says of the call. */
  ghost predicate Refuses(sig: Signature, call: Call, e: MatchError)
    requires WellFormed(sig)
  {
    match e
    case TooManyPositional(expected, got) =>
      && expected == Limit(sig) && got == call.npos + |call.keywords|
      && call.npos > Limit(sig) && !sig.collectsPositional
    case UnknownKeyword(name) =>
      name in call.keywords && name !in sig.names && !sig.collectsKeywords
    case PositionalOnly(name) =>
      && name in call.keywords && name in sig.names
      && OnlyPositional(sig, Position(sig.names, name).value)
    case Duplicate(name) =>
      || (exists i, j | 0 <= i < j < |call.keywords| :: call.keywords[i] == call.keywords[j] == name)
      || (name in call.keywords && name in sig.names
          && Position(sig.names, name).value < Regular(sig, call))
    case Missing(name) =>
      exists p | 0 <= p < |sig.names| ::
        && p >= Regular(sig, call) && sig.required[p] && sig.names[p] == name
        && (name in call.keywords ==> Position(sig.names, name) != Some(p))
    case _ => false
  }

  /** A call refused for any reason has no legal binding. */
  lemma {:induction false} RefusedHasNoBinding(sig: Signature, call: Call, e: MatchError, b: CallSlots)
    requires WellFormed(sig) && NoRepeats(sig.names)
    ensures Refuses(sig, call, e) ==> !Legal(sig, call, b)
  {
  }

  /** The keyword arguments before `k` are placed. */
  ghost predicate Placed(sig: Signature, call: Call, k: nat, slots: seq<Option<ArgSlot>>, overflow: seq<nat>)
    requires k <= |call.keywords|
  {
    && |slots| == |sig.names|
    && NoRepeats(call.keywords[..k])
    && (forall p | 0 <= p < Regular(sig, call) :: slots[p] == Some(Positional(p)))
    && (forall p | Regular(sig, call) <= p < |slots| && slots[p].Some? ::
          && slots[p].value.Keyword? && slots[p].value.index < k
          && call.keywords[slots[p].value.index] == sig.names[p]
          && !OnlyPositional(sig, p))
    && (forall j | 0 <= j < k ::
          if call.keywords[j] in sig.names
          then slots[Position(sig.names, call.keywords[j]).value] == Some(Keyword(j))
          else j in overflow)
    && Increasing(overflow)
    && (forall j <- overflow :: j < k && call.keywords[j] !in sig.names && sig.collectsKeywords)
  }

  lemma {:induction false} NewKeyword(call: Call, k: nat)
    requires k < |call.keywords| && NoRepeats(call.keywords[..k]) && call.keywords[k] !in call.keywords[..k]
    ensures NoRepeats(call.keywords[..k + 1])
  {
  }

  lemma {:induction false} PlacedInSlot(sig: Signature, call: Call, k: nat, slots: seq<Option<ArgSlot>>,
                                        overflow: seq<nat>, p: nat)
    requires k < |call.keywords| && Placed(sig, call, k, slots, overflow)
    requires call.keywords[k] !in call.keywords[..k]
    requires Position(sig.names, call.keywords[k]) == Some(p) && slots[p].None? && !OnlyPositional(sig, p)
    ensures Placed(sig, call, k + 1, slots[p := Some(Keyword(k))], overflow)
  {
    NewKeyword(call, k);
  }

  lemma {:induction false} PlacedInOverflow(sig: Signature, call: Call, k: nat, slots: seq<Option<ArgSlot>>,
                                            overflow: seq<nat>)
    requires k < |call.keywords| && Placed(sig, call, k, slots, overflow)
    requires call.keywords[k] !in call.keywords[..k]
    requires call.keywords[k] !in sig.names && sig.collectsKeywords
    ensures Placed(sig, call, k + 1, slots, overflow + [k])
  {
    NewKeyword(call, k);
    assert forall i | 0 <= i < |overflow| :: overflow[i] in overflow;
  }

  lemma {:induction false} FilledIsDuplicate(sig: Signature, call: Call, k: nat, slots: seq<Option<ArgSlot>>,
                                             overflow: seq<nat>, p: nat)
    requires WellFormed(sig) && k < |call.keywords| && Placed(sig, call, k, slots, overflow)
    requires Position(sig.names, call.keywords[k]) == Some(p) && slots[p].Some?
    ensures Refuses(sig, call, Duplicate(call.keywords[k]))
  {
  }

  method PlaceKeyword(sig: Signature, call: Call, k: nat, slots: seq<Option<ArgSlot>>, overflow: seq<nat>)
    returns (r: Result<(seq<Option<ArgSlot>>, seq<nat>), MatchError>)
    requires WellFormed(sig) && k < |call.keywords| && Placed(sig, call, k, slots, overflow)
    ensures r.Ok? ==> Placed(sig, call, k + 1, r.value.0, r.value.1)
    ensures r.Err? ==> Refuses(sig, call, r.error)
  {
    var keyword := call.keywords[k];
    if keyword in call.keywords[..k] {
      assert exists i | 0 <= i < k :: call.keywords[i] == call.keywords[k];
      return Err(Duplicate(keyword));
    }
    var position := Position(sig.names, keyword);
    match position {
      case None =>
        if !sig.collectsKeywords {
          return Err(UnknownKeyword(keyword));
        }
        PlacedInOverflow(sig, call, k, slots, overflow);
        r := Ok((slots, overflow + [k]));
      case Some(p) =>
        if OnlyPositional(sig, p) {
          return Err(PositionalOnly(keyword));
        }
        if slots[p].Some? {
          FilledIsDuplicate(sig, call, k, slots, overflow, p);
          return Err(Duplicate(keyword));
        }
        PlacedInSlot(sig, call, k, slots, overflow, p);
        r := Ok((slots[p := Some(Keyword(k))], overflow));
    }
  }

  /** Fill the positional slots, then place the keywords one by one. */
  method PlaceKeywords(sig: Signature, call: Call) returns (r: Result<(seq<Option<ArgSlot>>, seq<nat>), MatchError>)
    requires WellFormed(sig)
    ensures r.Ok? ==> Placed(sig, call, |call.keywords|, r.value.0, r.value.1)
    ensures r.Err? ==> Refuses(sig, call, r.error)
  {
    var regular := Regular(sig, call);
    var slots: seq<Option<ArgSlot>> := seq(|sig.names|, (p: nat) => if p < regular then Some(Positional(p)) else None);
    var overflow: seq<nat> := [];
    for k := 0 to |call.keywords|
      invariant Placed(sig, call, k, slots, overflow)
    {
      var placed := PlaceKeyword(sig, call, k, slots, overflow);
      match placed {
        case Err(error) => return Err(error);
        case Ok((s, o)) => slots, overflow := s, o;
      }
    }
    r := Ok((slots, overflow));
  }

  /** The slots before `n` are filled, by their defaults where nothing else does. */
  ghost predicate FilledUpTo(sig: Signature, slots: seq<Option<ArgSlot>>, matched: seq<ArgSlot>, n: nat)
    requires WellFormed(sig) && n <= |slots| == |sig.names|
  {
    && |matched| == n
    && forall p | 0 <= p < n ::
         && matched[p] == (if slots[p].Some? then slots[p].value else Default)
         && (slots[p].None? ==> !sig.required[p])
  }

  lemma {:induction false} FilledPositionals(sig: Signature, call: Call, slots: seq<Option<ArgSlot>>, b: CallSlots)
    requires WellFormed(sig) && Placed(sig, call, |call.keywords|, slots, b.keywordOverflow)
    requires FilledUpTo(sig, slots, b.slots, |slots|)
    requires call.npos > Limit(sig) ==> sig.collectsPositional
    requires |b.positionalOverflow| == (if call.npos > Limit(sig) then call.npos - Limit(sig) else 0)
    requires forall j | 0 <= j < |b.positionalOverflow| :: b.positionalOverflow[j] == Limit(sig) + j
    ensures PositionalsPlaced(sig, call, b)
    ensures forall p | 0 <= p < |b.slots| :: sig.required[p] ==> b.slots[p] != Default
  {
    forall p | 0 <= p < |b.slots| ensures b.slots[p].Positional? ==> p < Regular(sig, call) {}
  }

  lemma {:induction false} FilledKeywords(sig: Signature, call: Call, slots: seq<Option<ArgSlot>>, b: CallSlots)
    requires WellFormed(sig) && Placed(sig, call, |call.keywords|, slots, b.keywordOverflow)
    requires FilledUpTo(sig, slots, b.slots, |slots|)
    ensures KeywordsPlaced(sig, call, b)
  {
    assert call.keywords[..|call.keywords|] == call.keywords;
    forall k | 0 <= k < |call.keywords| ensures Keyword(k) in b.slots || k in b.keywordOverflow {
      if call.keywords[k] in sig.names {
        assert b.slots[Position(sig.names, call.keywords[k]).value] == Keyword(k);
      }
    }
  }

  lemma {:induction false} MissingRefuses(sig: Signature, call: Call, slots: seq<Option<ArgSlot>>, overflow: seq<nat>,
                                          p: nat)
    requires WellFormed(sig) && Placed(sig, call, |call.keywords|, slots, overflow)
    requires p < |slots| && slots[p].None? && sig.required[p]
    ensures Refuses(sig, call, Missing(sig.names[p]))
  {
    assert p >= Regular(sig, call);
  }

  /** The unfilled slots take their defaults; or the first that is required. */
  method FillSlots(sig: Signature, slots: seq<Option<ArgSlot>>) returns (r: Result<seq<ArgSlot>, nat>)
    requires WellFormed(sig) && |slots| == |sig.names|
    ensures r.Ok? ==> FilledUpTo(sig, slots, r.value, |slots|)
    ensures r.Err? ==> r.error < |slots| && slots[r.error].None? && sig.required[r.error]
  {
    var matched: seq<ArgSlot> := [];
    for p := 0 to |slots|
      invariant FilledUpTo(sig, slots, matched, p)
    {
      match slots[p] {
        case Some(slot) => matched := matched + [slot];
        case None =>
          if sig.required[p] {
            return Err(p);
          }
          matched := matched + [Default];
      }
    }
    r := Ok(matched);
  }

  method FillDefaults(sig: Signature, call: Call, slots: seq<Option<ArgSlot>>, overflow: seq<nat>)
    returns (r: Result<CallSlots, MatchError>)
    requires WellFormed(sig) && Placed(sig, call, |call.keywords|, slots, overflow)
    requires call.npos > Limit(sig) ==> sig.collectsPositional
    ensures r.Ok? ==> Legal(sig, call, r.value)
    ensures r.Err? ==> Refuses(sig, call, r.error)
  {
    var matched := FillSlots(sig, slots);
    match matched {
      case Err(p) =>
        MissingRefuses(sig, call, slots, overflow, p);
        r := Err(Missing(sig.names[p]));
      case Ok(filled) =>
        var extra := if call.npos > Limit(sig) then call.npos - Limit(sig) else 0;
        var b := CallSlots(filled, seq(extra, j requires 0 <= j < extra => Limit(sig) + j), overflow);
        FilledPositionals(sig, call, slots, b);
        FilledKeywords(sig, call, slots, b);
        r := Ok(b);
    }
  }

  method MatchSlots(sig: Signature, call: Call) returns (r: Result<CallSlots, MatchError>)
    requires WellFormed(sig)
    ensures r.Ok? ==> Legal(sig, call, r.value)
    ensures r.Err? ==> Refuses(sig, call, r.error)
  {
    var limit := Limit(sig);
    if call.npos > limit && !sig.collectsPositional {
      return Err(TooManyPositional(limit, call.npos + |call.keywords|));
    }
    var placed := PlaceKeywords(sig, call);
    match placed {
      case Err(error) => r := Err(error);
      case Ok((slots, overflow)) => r := FillDefaults(sig, call, slots, overflow);
    }
  }

  /** Match a call's arguments to the parameters: refused for a reason it has,
      or bound legally. */
  method MatchCallSlots(sig: Signature, call: Call) returns (r: Result<CallSlots, MatchError>)
    requires WellFormed(sig)
    ensures r.Ok? ==> Legal(sig, call, r.value)
    ensures r.Err? ==> Refuses(sig, call, r.error)
    ensures NoRepeats(sig.names) ==> (r.Ok? <==> exists b :: Legal(sig, call, b))
  {
    r := MatchSlots(sig, call);
    if r.Ok? {
      assert Legal(sig, call, r.value);
    } else if NoRepeats(sig.names) {
      forall b {
        RefusedHasNoBinding(sig, call, r.error, b);
      }
    }
  }

  // --------------------------------------------------------------- spreads

  function SpreadPosition(spreads: seq<nat>, npos: nat): Result<Option<nat>, MatchError> {
    if spreads == [] then Ok(None)
    else if |spreads| == 1 && spreads[0] + 1 == npos then Ok(Some(spreads[0]))
    else if |spreads| == 1 then Err(PositionalAfterSpread)
    else Err(RepeatedSpread)
  }

  function BindSpread(b: CallSlots, spread: nat): Result<(), MatchError> {
    if b.positionalOverflow == [spread] then Ok(()) else Err(SpreadOutsideVariadic)
  }

  function BindKeywordForward(b: CallSlots, forwarded: bool): Result<(), MatchError> {
    if forwarded && b.keywordOverflow != [] then Err(KeywordsBesideForward) else Ok(())
  }

  /** The spread of a matched call binds alone to the collector exactly when
      there is one and the other positional arguments fill every slot below the
      limit. */
  lemma {:induction false} SpreadBindsAlone(sig: Signature, call: Call, b: CallSlots, spreads: seq<nat>, spread: nat)
    requires WellFormed(sig) && Legal(sig, call, b)
    requires SpreadPosition(spreads, call.npos) == Ok(Some(spread))
    ensures BindSpread(b, spread).Ok? <==> sig.collectsPositional && call.npos - 1 == Limit(sig)
  {
  }

  /** A forwarded `**kwargs` binds alone exactly when every keyword of the call
      names a parameter. */
  lemma {:induction false} ForwardBindsAlone(sig: Signature, call: Call, b: CallSlots, forwarded: bool)
    requires WellFormed(sig) && Legal(sig, call, b)
    ensures BindKeywordForward(b, forwarded).Ok?
       <==> (forwarded ==> forall k | 0 <= k < |call.keywords| :: call.keywords[k] in sig.names)
  {
    if b.keywordOverflow != [] {
      var k := b.keywordOverflow[0];
      assert k in b.keywordOverflow;
      assert call.keywords[k] !in sig.names;
    } else {
      forall k | 0 <= k < |call.keywords| ensures call.keywords[k] in sig.names {
        assert Keyword(k) in b.slots;
        var p :| 0 <= p < |b.slots| && b.slots[p] == Keyword(k);
      }
    }
  }

  // --------------------------------------------------------- keyword order

  /** `there` and `back` are inverse renumberings of `n` things. */
  ghost predicate Renumbering(there: seq<nat>, back: seq<nat>, n: nat) {
    && |there| == |back| == n
    && (forall i | 0 <= i < n :: there[i] < n && back[i] < n)
    && (forall i, j | 0 <= i < n && 0 <= j < n :: there[i] == j <==> back[j] == i)
  }

  /** The positions below `n` that `there` sends into `among`, in order. */
  function Preimage(there: seq<nat>, among: seq<nat>, n: nat): (r: seq<nat>)
    requires n <= |there|
    ensures Increasing(r)
    ensures forall i: nat :: i in r <==> i < n && there[i] in among
  {
    if n == 0 then []
    else
      var rest := Preimage(there, among, n - 1);
      assert forall i | 0 <= i < |rest| :: rest[i] in rest;
      if there[n - 1] in among then rest + [n - 1] else rest
  }

  /** `moved` is `call` with its keywords written in another order. */
  ghost predicate Reordered(call: Call, moved: Call, there: seq<nat>, back: seq<nat>) {
    && Renumbering(there, back, |call.keywords|)
    && moved.npos == call.npos
    && |moved.keywords| == |call.keywords|
    && forall i | 0 <= i < |there| :: moved.keywords[i] == call.keywords[there[i]]
  }

  /** `slots` with each keyword given its new index. */
  ghost predicate Moves(slots: seq<ArgSlot>, after: seq<ArgSlot>, back: seq<nat>) {
    && |after| == |slots|
    && forall p | 0 <= p < |slots| ::
         if slots[p].Keyword? then slots[p].index < |back| && after[p] == Keyword(back[slots[p].index])
         else after[p] == slots[p]
  }

  lemma {:induction false} MovedIsPlaced(sig: Signature, call: Call, there: seq<nat>, back: seq<nat>, b: CallSlots,
                                         slots: seq<ArgSlot>, i: nat)
    requires WellFormed(sig) && Legal(sig, call, b)
    requires Renumbering(there, back, |call.keywords|) && i < |there| && Moves(b.slots, slots, back)
    ensures Keyword(i) in slots || there[i] in b.keywordOverflow
  {
  }

  lemma {:induction false} MovedDistinct(call: Call, moved: Call, there: seq<nat>, back: seq<nat>)
    requires Reordered(call, moved, there, back) && NoRepeats(call.keywords)
    ensures NoRepeats(moved.keywords)
  {
    forall i, j | 0 <= i < j < |moved.keywords| ensures moved.keywords[i] != moved.keywords[j] {
      assert back[there[i]] == i && back[there[j]] == j;
    }
  }

  lemma {:induction false} MovedSlotsAgree(sig: Signature, call: Call, moved: Call, there: seq<nat>, back: seq<nat>,
                                           b: CallSlots, c: CallSlots, p: nat)
    requires WellFormed(sig) && Legal(sig, call, b) && Reordered(call, moved, there, back)
    requires Moves(b.slots, c.slots, back) && p < |c.slots| && c.slots[p].Keyword?
    ensures c.slots[p].index < |moved.keywords| && moved.keywords[c.slots[p].index] == sig.names[p]
    ensures !OnlyPositional(sig, p)
  {
    var k := b.slots[p].index;
    assert there[back[k]] == k;
  }

  lemma {:induction false} MovedKeywords(sig: Signature, call: Call, moved: Call, there: seq<nat>, back: seq<nat>,
                                         b: CallSlots, c: CallSlots)
    requires WellFormed(sig) && Legal(sig, call, b) && Reordered(call, moved, there, back)
    requires Moves(b.slots, c.slots, back) && c.keywordOverflow == Preimage(there, b.keywordOverflow, |there|)
    ensures KeywordsPlaced(sig, moved, c)
  {
    MovedDistinct(call, moved, there, back);
    forall i | 0 <= i < |moved.keywords| ensures Keyword(i) in c.slots || i in c.keywordOverflow {
      MovedIsPlaced(sig, call, there, back, b, c.slots, i);
    }
    forall p | 0 <= p < |c.slots| && c.slots[p].Keyword?
      ensures c.slots[p].index < |moved.keywords| && moved.keywords[c.slots[p].index] == sig.names[p]
      ensures !OnlyPositional(sig, p)
    {
      MovedSlotsAgree(sig, call, moved, there, back, b, c, p);
    }
  }

  function MovedSlots(slots: seq<ArgSlot>, back: seq<nat>): (r: seq<ArgSlot>)
    requires forall p | 0 <= p < |slots| && slots[p].Keyword? :: slots[p].index < |back|
    ensures Moves(slots, r, back)
  {
    seq(|slots|, p requires 0 <= p < |slots| =>
      if slots[p].Keyword? then Keyword(back[slots[p].index]) else slots[p])
  }

  lemma {:induction false} MovedPositionals(sig: Signature, call: Call, moved: Call, b: CallSlots, c: CallSlots,
                                            back: seq<nat>)
    requires WellFormed(sig) && |b.slots| == |sig.names| && PositionalsPlaced(sig, call, b)
    requires forall p | 0 <= p < |b.slots| :: sig.required[p] ==> b.slots[p] != Default
    requires moved.npos == call.npos && Moves(b.slots, c.slots, back)
    requires c.positionalOverflow == b.positionalOverflow
    ensures PositionalsPlaced(sig, moved, c)
    ensures forall p | 0 <= p < |c.slots| :: sig.required[p] ==> c.slots[p] != Default
  {
  }

  /** Writing the keyword arguments in another order binds every parameter to
      the same argument, and collects the same keywords. */
  lemma {:induction false} KeywordOrderIsIrrelevant(sig: Signature, call: Call, moved: Call, there: seq<nat>,
                                                    back: seq<nat>, b: CallSlots)
    returns (c: CallSlots)
    requires WellFormed(sig) && Legal(sig, call, b) && Reordered(call, moved, there, back)
    ensures Legal(sig, moved, c)
    ensures c.positionalOverflow == b.positionalOverflow
    ensures Moves(b.slots, c.slots, back)
    ensures forall i: nat :: i in c.keywordOverflow <==> i < |there| && there[i] in b.keywordOverflow
  {
    c := CallSlots(MovedSlots(b.slots, back), b.positionalOverflow, Preimage(there, b.keywordOverflow, |there|));
    MovedKeywords(sig, call, moved, there, back, b, c);
    MovedPositionals(sig, call, moved, b, c, back);
  }
}
