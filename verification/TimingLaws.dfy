/**
 * What the timing report says, read off the log: each span's time up to its
 * own exit, and the laws that make the report's columns add up.
 */
module TimingLaws {
  import opened Prelude
  import opened Timing

  // ----------------------------------------------------------- the reference

  /** When the `k`-th innermost of the spans open before `events` closes. */
  function ExitAt(events: seq<Event>, k: nat, now: nat): nat
    decreases |events|
  {
    if events == [] then now
    else
      match events[0]
      case Enter(_, _, _) => ExitAt(events[1..], k + 1, now)
      case Exit(at) => if k == 0 then at else ExitAt(events[1..], k - 1, now)
      case Count(_, _) => ExitAt(events[1..], k, now)
      case Note(_, _) => ExitAt(events[1..], k, now)
  }

  /** The time of the spans in `events` directly inside that span; with `k` one
      past the outermost, of the top-level ones. */
  function Inside(events: seq<Event>, k: nat, now: nat): nat
    decreases |events|
  {
    if events == [] then 0
    else
      match events[0]
      case Enter(_, _, at) =>
        (if k == 0 then Micros(ExitAt(events[1..], 0, now), at) else 0) + Inside(events[1..], k + 1, now)
      case Exit(_) => if k == 0 then 0 else Inside(events[1..], k - 1, now)
      case Count(_, _) => Inside(events[1..], k, now)
      case Note(_, _) => Inside(events[1..], k, now)
  }

  /** The record of the span that opens at `at`, just before `events`. */
  function SpanOf(at: nat, events: seq<Event>, now: nat): Record {
    Span(ExitAt(events, 0, now), at, Inside(events, 0, now))
  }

  /** The report's columns. */
  datatype Column = Inclusive | Self | Times

  function Entry(r: Record, column: Column): nat {
    match column
    case Inclusive => r.inclusive
    case Self => r.self
    case Times => r.count
  }

  /** A cell of the report: a path and a column. */
  datatype Cell = Cell(path: Path, column: Column)

  function CellOf(f: Fold, cell: Cell): nat {
    Entry(RecordOf(f, cell.path), cell.column)
  }

  /** What a span at `path` adds to a cell. */
  function Share(path: Path, cell: Cell, span: Record): nat {
    if path == cell.path then Entry(span, cell.column) else 0
  }

  datatype Paths = Top | In(path: Path, outer: Paths)

  function Joined(outer: Paths, name: string, round: Option<nat>): Path {
    Entered(if outer.In? then Push(Open(outer.path, 0, 0), Bottom) else Bottom, name, round)
  }

  function Left(outer: Paths): Paths {
    if outer.In? then outer.outer else Top
  }

  /** The records of the spans `events` enter, as they add to a cell. */
  function Spent(outer: Paths, events: seq<Event>, now: nat, cell: Cell): nat
    decreases |events|
  {
    if events == [] then 0
    else
      match events[0]
      case Enter(name, round, at) =>
        var path := Joined(outer, name, round);
        Share(path, cell, SpanOf(at, events[1..], now)) + Spent(In(path, outer), events[1..], now, cell)
      case Exit(_) => Spent(Left(outer), events[1..], now, cell)
      case Count(_, _) => Spent(outer, events[1..], now, cell)
      case Note(_, _) => Spent(outer, events[1..], now, cell)
  }

  // ------------------------------------------------ the fold meets the reference

  function PathsOf(stack: Stack): Paths {
    if stack.Bottom? then Top else In(stack.top.path, PathsOf(stack.below))
  }

  /** What the spans open before `events`, from the `k`-th innermost on, still
      add to a cell; `inner` is the time of the one open inside the `k`-th. */
  function Pending(stack: Stack, events: seq<Event>, k: nat, inner: nat, now: nat, cell: Cell): nat
    decreases Depth(stack)
  {
    if stack.Bottom? then 0
    else
      var open := stack.top;
      var span := Span(ExitAt(events, k, now), open.start, open.children + inner + Inside(events, k, now));
      Share(open.path, cell, span) + Pending(stack.below, events, k + 1, span.inclusive, now, cell)
  }

  lemma {:induction false} PendingShifts(stack: Stack, events: seq<Event>, k: nat, rest: seq<Event>, m: nat,
                                         inner: nat, now: nat, cell: Cell)
    requires forall j :: j >= k ==> m + j - k >= 0 && ExitAt(events, j, now) == ExitAt(rest, m + j - k, now)
                                    && Inside(events, j, now) == Inside(rest, m + j - k, now)
    ensures Pending(stack, events, k, inner, now, cell) == Pending(stack, rest, m, inner, now, cell)
    decreases Depth(stack)
  {
    if stack.Push? {
      var span := Span(ExitAt(events, k, now), stack.top.start, stack.top.children + inner + Inside(events, k, now));
      assert m + k - k == m;
      PendingShifts(stack.below, events, k + 1, rest, m + 1, span.inclusive, now, cell);
    }
  }

  /** Closing the innermost span hands its time to the next. */
  lemma {:induction false} PendingCredited(stack: Stack, time: nat, events: seq<Event>, k: nat, rest: seq<Event>,
                                           now: nat, cell: Cell)
    requires forall j :: j >= k ==> ExitAt(events, j, now) == ExitAt(rest, j - k, now)
                                    && Inside(events, j, now) == Inside(rest, j - k, now)
    ensures Pending(Credited(stack, time), rest, 0, 0, now, cell) == Pending(stack, events, k, time, now, cell)
  {
    if stack.Push? {
      assert ExitAt(events, k, now) == ExitAt(rest, k - k, now);
      assert Inside(events, k, now) == Inside(rest, k - k, now);
      var span := Span(ExitAt(rest, 0, now), stack.top.start, stack.top.children + time + Inside(rest, 0, now));
      PendingShifts(stack.below, events, k + 1, rest, 1, span.inclusive, now, cell);
    }
  }

  lemma {:induction false} RecordClosed(f: Fold, at: nat, cell: Cell)
    requires f.stack.Push?
    ensures var open := f.stack.top;
      CellOf(Closed(f, at), cell)
        == CellOf(f, cell) + Share(open.path, cell, Span(at, open.start, open.children))
  {
    match cell.column
    case Inclusive =>
    case Self =>
    case Times =>
  }

  lemma {:induction false} DrainAdds(f: Fold, now: nat, cell: Cell)
    ensures CellOf(Drained(f, now), cell) == CellOf(f, cell) + Pending(f.stack, [], 0, 0, now, cell)
    decreases Depth(f.stack)
  {
    if f.stack.Push? {
      var open, next := f.stack.top, Closed(f, now);
      var share := Share(open.path, cell, Span(now, open.start, open.children));
      var rest := Pending(f.stack.below, [], 1, Micros(now, open.start), now, cell);
      RecordClosed(f, now, cell);
      DrainAdds(next, now, cell);
      PendingCredited(f.stack.below, Micros(now, open.start), [], 1, [], now, cell);
    }
  }

  /** What a log adds to a cell from a fold on. */
  function Added(f: Fold, events: seq<Event>, now: nat, cell: Cell): nat {
    Pending(f.stack, events, 0, 0, now, cell) + Spent(PathsOf(f.stack), events, now, cell)
  }

  /** A span entered is, for those around it, time inside the innermost. */
  lemma {:induction false} PendingEntered(stack: Stack, events: seq<Event>, now: nat, cell: Cell)
    requires events != [] && events[0].Enter?
    ensures Pending(stack, events, 0, 0, now, cell)
         == Pending(stack, events[1..], 1, SpanOf(events[0].at, events[1..], now).inclusive, now, cell)
  {
    if stack.Push? {
      var rest, open := events[1..], stack.top;
      var time := SpanOf(events[0].at, rest, now).inclusive;
      var outer := Span(ExitAt(rest, 1, now), open.start, open.children + time + Inside(rest, 1, now));
      PendingShifts(stack.below, events, 1, rest, 2, outer.inclusive, now, cell);
    }
  }

  lemma {:induction false} EnterAdds(f: Fold, events: seq<Event>, now: nat, cell: Cell)
    requires events != [] && events[0].Enter?
    ensures var next := Step(f, events[0]).value;
      CellOf(next, cell) == CellOf(f, cell) && Added(next, events[1..], now, cell) == Added(f, events, now, cell)
  {
    var next, rest := Step(f, events[0]).value, events[1..];
    var share := Share(next.stack.top.path, cell, SpanOf(events[0].at, rest, now));
    var pending := Pending(f.stack, events, 0, 0, now, cell);
    var spent := Spent(PathsOf(next.stack), rest, now, cell);
    PendingEntered(f.stack, events, now, cell);
    assert Pending(next.stack, rest, 0, 0, now, cell) == share + pending;
    assert Spent(PathsOf(f.stack), events, now, cell) == share + spent;
  }

  lemma {:induction false} PathsCredited(stack: Stack, time: nat)
    ensures PathsOf(Credited(stack, time)) == PathsOf(stack)
  {
  }

  lemma {:induction false} ExitMoves(stack: Stack, events: seq<Event>, now: nat, cell: Cell)
    requires events != [] && events[0].Exit? && stack.Push?
    ensures var span := Span(events[0].at, stack.top.start, stack.top.children);
      && Pending(stack, events, 0, 0, now, cell)
           == Share(stack.top.path, cell, span)
              + Pending(Credited(stack.below, span.inclusive), events[1..], 0, 0, now, cell)
      && Spent(PathsOf(stack), events, now, cell)
           == Spent(PathsOf(Credited(stack.below, span.inclusive)), events[1..], now, cell)
  {
    var time := Micros(events[0].at, stack.top.start);
    PendingCredited(stack.below, time, events, 1, events[1..], now, cell);
    PathsCredited(stack.below, time);
  }

  /** Closing a span loses nothing and counts nothing twice: what its cells gain
      they no longer await, and its time is awaited by the span around it. */
  lemma {:induction false} ExitAdds(f: Fold, events: seq<Event>, now: nat, cell: Cell)
    requires events != [] && events[0].Exit? && f.stack.Push?
    ensures var next := Closed(f, events[0].at);
      CellOf(next, cell) + Added(next, events[1..], now, cell) == CellOf(f, cell) + Added(f, events, now, cell)
  {
    RecordClosed(f, events[0].at, cell);
    ExitMoves(f.stack, events, now, cell);
  }

  lemma {:induction false} OtherAdds(f: Fold, events: seq<Event>, now: nat, cell: Cell)
    requires events != [] && (events[0].Count? || events[0].Note?)
    ensures var next := Step(f, events[0]).value;
      CellOf(next, cell) == CellOf(f, cell) && Added(next, events[1..], now, cell) == Added(f, events, now, cell)
  {
    PendingShifts(f.stack, events, 0, events[1..], 0, 0, now, cell);
  }

  lemma {:induction false} FoldAdds(f: Fold, events: seq<Event>, now: nat, cell: Cell)
    requires Reported(f, events, now).Some?
    ensures CellOf(Reported(f, events, now).value, cell) == CellOf(f, cell) + Added(f, events, now, cell)
    decreases |events|
  {
    if events == [] {
      DrainAdds(f, now, cell);
    } else {
      FoldAdds(Step(f, events[0]).value, events[1..], now, cell);
      match events[0]
      case Enter(_, _, _) => EnterAdds(f, events, now, cell);
      case Exit(_) => ExitAdds(f, events, now, cell);
      case Count(_, _) => OtherAdds(f, events, now, cell);
      case Note(_, _) => OtherAdds(f, events, now, cell);
    }
  }

  /** Each path's record adds up, over the spans entered at that path, the time
      to the span's own exit, that time less its direct children's, and one. */
  lemma {:induction false} ReportIsSpent(events: seq<Event>, now: nat, cell: Cell)
    requires Reported(START, events, now).Some?
    ensures CellOf(Reported(START, events, now).value, cell) == Spent(Top, events, now, cell)
  {
    FoldAdds(START, events, now, cell);
  }

  // ------------------------------------------------------- when there is a report

  function Balance(events: seq<Event>): int
    decreases |events|
  {
    if events == [] then 0
    else (if events[0].Enter? then 1 else if events[0].Exit? then -1 else 0) + Balance(events[1..])
  }

  /** No prefix has more than `depth` exits beyond its enters. */
  ghost predicate Balanced(events: seq<Event>, depth: nat) {
    forall n | 0 <= n <= |events| :: Balance(events[..n]) + depth >= 0
  }

  lemma {:induction false} BalancedRest(events: seq<Event>, depth: nat)
    requires events != []
    ensures var step := depth + Balance(events[..1]);
      Balanced(events, depth) <==> step >= 0 && Balanced(events[1..], step)
  {
    var rest := events[1..];
    forall n | 0 <= n < |events| ensures Balance(events[..n + 1]) == Balance(events[..1]) + Balance(rest[..n]) {
      assert events[..n + 1][1..] == rest[..n];
      assert events[..1][1..] == [];
    }
    var step := depth + Balance(events[..1]);
    if Balanced(events, depth) {
      forall n | 0 <= n <= |rest| ensures Balance(rest[..n]) + step >= 0 {
        assert Balance(events[..n + 1]) + depth >= 0;
      }
    }
    if step >= 0 && Balanced(rest, step) {
      forall n | 0 <= n <= |events| ensures Balance(events[..n]) + depth >= 0 {
        if n > 0 {
          assert Balance(rest[..n - 1]) + step >= 0;
          assert Balance(events[..n - 1 + 1]) == Balance(events[..1]) + Balance(rest[..n - 1]);
        }
      }
    }
  }

  /** How deep the stack is after `event`. */
  function DepthAfter(depth: nat, event: Event): int {
    if event.Enter? then depth + 1 else if event.Exit? then depth - 1 else depth
  }

  lemma {:induction false} BalancedStep(events: seq<Event>, depth: nat)
    requires events != []
    ensures var next := DepthAfter(depth, events[0]);
      Balanced(events, depth) <==> next >= 0 && Balanced(events[1..], next)
  {
    BalancedRest(events, depth);
    assert events[..1] == [events[0]] && events[..1][1..] == [];
  }

  lemma {:induction false} FoldsWhenBalanced(f: Fold, events: seq<Event>)
    ensures Folded(f, events).Some? <==> Balanced(events, Depth(f.stack))
    decreases |events|
  {
    if events == [] {
      assert Balance(events[..0]) == 0;
    } else {
      BalancedStep(events, Depth(f.stack));
      var step := Step(f, events[0]);
      if step.Some? {
        FoldsWhenBalanced(step.value, events[1..]);
        assert Folded(f, events) == Folded(step.value, events[1..]);
      } else {
        assert Folded(f, events).None?;
      }
    }
  }

  /** There is a report exactly when no prefix of the log has more exits than
      enters. */
  lemma {:induction false} ReportsWhenBalanced(events: seq<Event>, now: nat)
    ensures Reported(START, events, now).Some? <==> Balanced(events, 0)
  {
    FoldsWhenBalanced(START, events);
  }

  // ------------------------------------------------------------- conservation

  function TimeOf(event: Event, otherwise: nat): nat {
    match event
    case Enter(_, _, at) => at
    case Exit(at) => at
    case Count(_, _) => otherwise
    case Note(_, _) => otherwise
  }

  /** Time never runs backwards from `from` through the log to `now`. */
  predicate Monotone(from: nat, events: seq<Event>, now: nat)
    decreases |events|
  {
    if events == [] then from <= now
    else from <= TimeOf(events[0], from) && Monotone(TimeOf(events[0], from), events[1..], now)
  }

  /** The spans directly inside an open one fit, after `from` or the exit of the
      span inside it, before its exit, whatever the flooring. */
  lemma {:induction false} InsideFits(from: nat, events: seq<Event>, k: nat, now: nat)
    requires Monotone(from, events, now)
    ensures (if k == 0 then from else ExitAt(events, k - 1, now)) + 1000 * Inside(events, k, now)
         <= ExitAt(events, k, now)
    ensures from <= ExitAt(events, k, now)
    decreases |events|, k
  {
    if events != [] {
      var at, rest := TimeOf(events[0], from), events[1..];
      match events[0]
      case Enter(_, _, _) =>
        InsideFits(at, rest, k + 1, now);
        InsideFits(at, rest, k, now);
      case Exit(_) =>
        if k > 0 {
          InsideFits(at, rest, k - 1, now);
        }
      case Count(_, _) => InsideFits(at, rest, k, now);
      case Note(_, _) => InsideFits(at, rest, k, now);
    }
  }

  /** On monotone times no subtraction of a span's children clips. */
  lemma {:induction false} NeverClips(from: nat, events: seq<Event>, now: nat)
    requires Monotone(from, events, now)
    ensures Inside(events, 0, now) <= Micros(ExitAt(events, 0, now), from)
    ensures SpanOf(from, events, now).self == SpanOf(from, events, now).inclusive - Inside(events, 0, now)
  {
    InsideFits(from, events, 0, now);
  }

  /** A path's self time is at most its inclusive time. */
  lemma {:induction false} SelfWithinInclusive(outer: Paths, events: seq<Event>, now: nat, p: Path)
    ensures Spent(outer, events, now, Cell(p, Self)) <= Spent(outer, events, now, Cell(p, Inclusive))
    decreases |events|
  {
    if events != [] {
      var rest := events[1..];
      match events[0]
      case Enter(name, round, _) => SelfWithinInclusive(In(Joined(outer, name, round), outer), rest, now, p);
      case Exit(_) => SelfWithinInclusive(Left(outer), rest, now, p);
      case Count(_, _) => SelfWithinInclusive(outer, rest, now, p);
      case Note(_, _) => SelfWithinInclusive(outer, rest, now, p);
    }
  }

  /** The self times of all the spans `events` enter. */
  function AllSelf(events: seq<Event>, now: nat): nat
    decreases |events|
  {
    if events == [] then 0
    else
      (if events[0].Enter? then SpanOf(events[0].at, events[1..], now).self else 0) + AllSelf(events[1..], now)
  }

  /** The time inside the `k`-th innermost open span up to the outermost, and
      then that of the top-level spans. */
  function InsideAll(events: seq<Event>, k: nat, depth: nat, now: nat): nat
    requires k <= depth + 1
    decreases depth + 1 - k
  {
    if k == depth + 1 then 0 else Inside(events, k, now) + InsideAll(events, k + 1, depth, now)
  }

  lemma {:induction false} InsideAllShifts(events: seq<Event>, k: nat, depth: nat, rest: seq<Event>, m: nat, deep: nat,
                                           now: nat)
    requires k <= depth + 1 && m <= deep + 1 && depth + m == deep + k
    requires forall j :: k <= j ==> j + m - k >= 0 && Inside(events, j, now) == Inside(rest, j + m - k, now)
    ensures InsideAll(events, k, depth, now) == InsideAll(rest, m, deep, now)
    decreases depth + 1 - k
  {
    if k < depth + 1 {
      assert k + m - k == m;
      InsideAllShifts(events, k + 1, depth, rest, m + 1, deep, now);
    }
  }

  lemma {:induction false} NothingInside(k: nat, depth: nat, now: nat)
    requires k <= depth + 1
    ensures InsideAll([], k, depth, now) == 0
    decreases depth + 1 - k
  {
    if k < depth + 1 {
      NothingInside(k + 1, depth, now);
    }
  }

  /** Self times add up to the time inside the spans already open, and the
      top-level spans. */
  lemma {:induction false} SelfAddsUp(from: nat, events: seq<Event>, depth: nat, now: nat)
    requires Monotone(from, events, now) && Balanced(events, depth)
    ensures AllSelf(events, now) == InsideAll(events, 0, depth, now)
    decreases |events|
  {
    if events == [] {
      NothingInside(0, depth, now);
    } else {
      var at, rest := TimeOf(events[0], from), events[1..];
      BalancedStep(events, depth);
      match events[0]
      case Enter(_, _, _) =>
        SelfAddsUp(at, rest, depth + 1, now);
        NeverClips(at, rest, now);
        InsideAllShifts(events, 1, depth, rest, 2, depth + 1, now);
      case Exit(_) =>
        SelfAddsUp(at, rest, depth - 1, now);
        InsideAllShifts(events, 1, depth, rest, 0, depth - 1, now);
      case Count(_, _) =>
        SelfAddsUp(at, rest, depth, now);
        InsideAllShifts(events, 0, depth, rest, 0, depth, now);
      case Note(_, _) =>
        SelfAddsUp(at, rest, depth, now);
        InsideAllShifts(events, 0, depth, rest, 0, depth, now);
    }
  }

  // ---------------------------------------------------------------- the lines

  /** The paths `events` enter, in order. */
  function Entries(outer: Paths, events: seq<Event>): seq<Path>
    decreases |events|
  {
    if events == [] then []
    else
      match events[0]
      case Enter(name, round, _) =>
        var path := Joined(outer, name, round);
        [path] + Entries(In(path, outer), events[1..])
      case Exit(_) => Entries(Left(outer), events[1..])
      case Count(_, _) => Entries(outer, events[1..])
      case Note(_, _) => Entries(outer, events[1..])
  }

  ghost predicate FirstBefore(past: seq<Path>, p: Path, q: Path) {
    p in past && q in past && Index(past, p) < Index(past, q)
  }

  /** `order` lists what `past` holds once each, by first appearance. */
  ghost predicate ByFirst(order: seq<Path>, past: seq<Path>) {
    && (forall p :: p in order <==> p in past)
    && (forall i, j | 0 <= i < j < |order| :: FirstBefore(past, order[i], order[j]))
  }

  lemma {:induction false} FirstStays(past: seq<Path>, more: Path, p: Path)
    ensures p in past ==> Index(past + [more], p) == Index(past, p)
    ensures p !in past && p == more ==> Index(past + [more], p) == |past|
  {
    var longer := past + [more];
    if p in past {
      var i, j := Index(past, p), Index(longer, p);
      assert longer[i] == p && longer[..j] == past[..j];
    }
  }

  lemma {:induction false} ByFirstGrows(order: seq<Path>, past: seq<Path>, p: Path)
    requires ByFirst(order, past)
    ensures ByFirst(if p in order then order else order + [p], past + [p])
  {
    var longer, next := past + [p], if p in order then order else order + [p];
    forall i, j | 0 <= i < j < |next| ensures FirstBefore(longer, next[i], next[j]) {
      assert next[i] in order;
      FirstStays(past, p, next[i]);
      FirstStays(past, p, next[j]);
      if j < |order| {
        assert FirstBefore(past, order[i], order[j]);
      }
    }
  }

  ghost predicate Listed(f: Fold, past: seq<Path>) {
    ByFirst(f.order, past) && forall p :: p in f.records <==> p in f.order
  }

  /** The open spans' paths are listed. */
  ghost predicate OpenListed(stack: Stack, order: seq<Path>) {
    stack.Push? ==> stack.top.path in order && OpenListed(stack.below, order)
  }

  lemma {:induction false} OpenStaysListed(stack: Stack, order: seq<Path>, more: seq<Path>, time: nat)
    requires OpenListed(stack, order) && forall p <- order :: p in more
    ensures OpenListed(stack, more) && OpenListed(Credited(stack, time), more)
    decreases Depth(stack)
  {
    if stack.Push? {
      OpenStaysListed(stack.below, order, more, 0);
    }
  }

  lemma {:induction false} DrainLists(f: Fold, now: nat, past: seq<Path>)
    requires Listed(f, past) && OpenListed(f.stack, f.order)
    ensures Listed(Drained(f, now), past)
    decreases Depth(f.stack)
  {
    if f.stack.Push? {
      OpenStaysListed(f.stack.below, f.order, f.order, Micros(now, f.stack.top.start));
      DrainLists(Closed(f, now), now, past);
    }
  }

  /** The path `event` enters, if it enters one. */
  function Enters(outer: Paths, event: Event): seq<Path> {
    if event.Enter? then [Joined(outer, event.name, event.round)] else []
  }

  lemma {:induction false} StepLists(f: Fold, event: Event, past: seq<Path>)
    requires Step(f, event).Some? && Listed(f, past) && OpenListed(f.stack, f.order)
    ensures var next := Step(f, event).value;
      Listed(next, past + Enters(PathsOf(f.stack), event)) && OpenListed(next.stack, next.order)
  {
    var next := Step(f, event).value;
    match event
    case Enter(name, round, _) =>
      ByFirstGrows(f.order, past, Entered(f.stack, name, round));
      OpenStaysListed(f.stack, f.order, next.order, 0);
    case Exit(at) =>
      OpenStaysListed(f.stack.below, f.order, f.order, Micros(at, f.stack.top.start));
      assert past + [] == past;
    case Count(_, _) => assert past + [] == past;
    case Note(_, _) => assert past + [] == past;
  }

  lemma {:induction false} StepEnters(f: Fold, events: seq<Event>)
    requires events != [] && Step(f, events[0]).Some?
    ensures var next := Step(f, events[0]).value;
      Entries(PathsOf(f.stack), events)
        == Enters(PathsOf(f.stack), events[0]) + Entries(PathsOf(next.stack), events[1..])
  {
  }

  lemma {:induction false} FoldLists(f: Fold, events: seq<Event>, now: nat, past: seq<Path>)
    requires Reported(f, events, now).Some? && Listed(f, past) && OpenListed(f.stack, f.order)
    ensures Listed(Reported(f, events, now).value, past + Entries(PathsOf(f.stack), events))
    decreases |events|
  {
    if events == [] {
      DrainLists(f, now, past);
      assert past + [] == past;
    } else {
      var next, enters := Step(f, events[0]).value, Enters(PathsOf(f.stack), events[0]);
      StepLists(f, events[0], past);
      StepEnters(f, events);
      FoldLists(next, events[1..], now, past + enters);
      assert past + (enters + Entries(PathsOf(next.stack), events[1..]))
          == past + enters + Entries(PathsOf(next.stack), events[1..]);
    }
  }

  /** The report has one line for each path entered, by first entry. */
  lemma {:induction false} LinesByFirstEntry(events: seq<Event>, now: nat)
    requires Reported(START, events, now).Some?
    ensures var report := Reported(START, events, now).value;
      ByFirst(report.order, Entries(Top, events)) && forall p :: p in report.records <==> p in report.order
  {
    FoldLists(START, events, now, []);
    assert [] + Entries(Top, events) == Entries(Top, events);
  }

  /** The self column of the report's lines. */
  function SelfSum(order: seq<Path>, f: Fold): nat {
    if order == [] then 0 else CellOf(f, Cell(order[0], Self)) + SelfSum(order[1..], f)
  }

  function SpentSum(order: seq<Path>, outer: Paths, events: seq<Event>, now: nat): nat {
    if order == [] then 0
    else Spent(outer, events, now, Cell(order[0], Self)) + SpentSum(order[1..], outer, events, now)
  }

  lemma {:induction false} SumsAgree(order: seq<Path>, events: seq<Event>, now: nat)
    requires Reported(START, events, now).Some?
    ensures SelfSum(order, Reported(START, events, now).value) == SpentSum(order, Top, events, now)
    decreases |order|
  {
    if order != [] {
      ReportIsSpent(events, now, Cell(order[0], Self));
      SumsAgree(order[1..], events, now);
    }
  }

  /** One span's self time is on its own path's line and no other. */
  lemma {:induction false} EnterSums(order: seq<Path>, outer: Paths, events: seq<Event>, now: nat)
    requires events != [] && events[0].Enter? && NoRepeats(order)
    ensures var path := Joined(outer, events[0].name, events[0].round);
      SpentSum(order, outer, events, now)
        == (if path in order then SpanOf(events[0].at, events[1..], now).self else 0)
           + SpentSum(order, In(path, outer), events[1..], now)
    decreases |order|
  {
    if order != [] {
      EnterSums(order[1..], outer, events, now);
      assert order == [order[0]] + order[1..];
    }
  }

  lemma {:induction false} RestSums(order: seq<Path>, outer: Paths, events: seq<Event>, now: nat)
    requires events != [] && !events[0].Enter?
    ensures SpentSum(order, outer, events, now)
         == SpentSum(order, if events[0].Exit? then Left(outer) else outer, events[1..], now)
    decreases |order|
  {
    if order != [] {
      RestSums(order[1..], outer, events, now);
    }
  }

  lemma {:induction false} NothingSums(order: seq<Path>, outer: Paths, now: nat)
    ensures SpentSum(order, outer, [], now) == 0
    decreases |order|
  {
    if order != [] {
      NothingSums(order[1..], outer, now);
    }
  }

  lemma {:induction false} LinesHoldAllSelf(order: seq<Path>, outer: Paths, events: seq<Event>, now: nat)
    requires NoRepeats(order) && forall p <- Entries(outer, events) :: p in order
    ensures SpentSum(order, outer, events, now) == AllSelf(events, now)
    decreases |events|
  {
    if events == [] {
      NothingSums(order, outer, now);
    } else {
      var rest := events[1..];
      match events[0]
      case Enter(name, round, _) =>
        var path := Joined(outer, name, round);
        assert Entries(outer, events) == [path] + Entries(In(path, outer), rest);
        EnterSums(order, outer, events, now);
        LinesHoldAllSelf(order, In(path, outer), rest, now);
      case Exit(_) =>
        RestSums(order, outer, events, now);
        LinesHoldAllSelf(order, Left(outer), rest, now);
      case Count(_, _) =>
        RestSums(order, outer, events, now);
        LinesHoldAllSelf(order, outer, rest, now);
      case Note(_, _) =>
        RestSums(order, outer, events, now);
        LinesHoldAllSelf(order, outer, rest, now);
    }
  }

  /** On monotone times the report's self times add up exactly to the inclusive
      times of the top-level spans, though each span is floored on its own. */
  lemma {:induction false} SelfTimesConserved(from: nat, events: seq<Event>, now: nat)
    requires Monotone(from, events, now) && Balanced(events, 0)
    ensures Reported(START, events, now).Some?
    ensures var report := Reported(START, events, now).value;
      SelfSum(report.order, report) == Inside(events, 0, now)
  {
    ReportsWhenBalanced(events, now);
    LinesByFirstEntry(events, now);
    var report := Reported(START, events, now).value;
    forall i, j | 0 <= i < j < |report.order| ensures report.order[i] != report.order[j] {
      assert FirstBefore(Entries(Top, events), report.order[i], report.order[j]);
    }
    SumsAgree(report.order, events, now);
    LinesHoldAllSelf(report.order, Top, events, now);
    SelfAddsUp(from, events, 0, now);
    assert InsideAll(events, 0, 0, now) == Inside(events, 0, now) + InsideAll(events, 1, 0, now);
  }

  // ------------------------------------------------------------- the counters

  function CounterOf(f: Fold, p: Path): nat {
    if p in f.counters then f.counters[p] else 0
  }

  /** What the counts in `events` add to the counter `p`. */
  function Counted(outer: Paths, events: seq<Event>, p: Path): nat
    decreases |events|
  {
    if events == [] then 0
    else
      match events[0]
      case Enter(name, round, _) => Counted(In(Joined(outer, name, round), outer), events[1..], p)
      case Exit(_) => Counted(Left(outer), events[1..], p)
      case Count(name, n) => (if Joined(outer, name, None) == p then n else 0) + Counted(outer, events[1..], p)
      case Note(_, _) => Counted(outer, events[1..], p)
  }

  lemma {:induction false} DrainKeepsCounters(f: Fold, now: nat)
    ensures Drained(f, now).counters == f.counters
    decreases Depth(f.stack)
  {
    if f.stack.Push? {
      DrainKeepsCounters(Closed(f, now), now);
    }
  }

  /** A counter's total is the sum of its counts, each under the innermost span
      open when it was made. */
  lemma {:induction false} CountersAddUp(f: Fold, events: seq<Event>, now: nat, p: Path)
    requires Reported(f, events, now).Some?
    ensures CounterOf(Reported(f, events, now).value, p) == CounterOf(f, p) + Counted(PathsOf(f.stack), events, p)
    decreases |events|
  {
    if events == [] {
      DrainKeepsCounters(f, now);
    } else {
      var next, rest := Step(f, events[0]).value, events[1..];
      CountersAddUp(next, rest, now, p);
      match events[0]
      case Enter(_, _, _) =>
      case Exit(at) => PathsCredited(f.stack.below, Micros(at, f.stack.top.start));
      case Count(name, n) =>
        assert Under(f.stack, name).text + "" == Under(f.stack, name).text;
        assert Joined(PathsOf(f.stack), name, None) == Under(f.stack, name);
      case Note(_, _) =>
    }
  }
}
