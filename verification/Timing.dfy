/**
 * The timing report: a log of span entries and exits, counts and notes folded
 * into one record per hierarchical path, in the order paths are first entered.
 *
 * Instants are nanoseconds; spans are timed in whole microseconds. The fold is
 * proved against a reference that reads each span's time off the log directly.
 */
module Timing {
  import opened Prelude
  import opened Numerals

  datatype Path = Path(text: string)

  datatype Event =
    | Enter(name: string, round: Option<nat>, at: nat)
    | Exit(at: nat)
    | Count(name: string, n: nat)
    | Note(kind: string, subject: string)

  datatype Record = Record(inclusive: nat, self: nat, count: nat)

  const ZERO: Record := Record(0, 0, 0)

  function Plus(a: Record, b: Record): Record {
    Record(a.inclusive + b.inclusive, a.self + b.self, a.count + b.count)
  }

  /** A span not closed yet; `children` is the time of those it closed. */
  datatype Open = Open(path: Path, start: nat, children: nat)

  datatype Stack = Bottom | Push(top: Open, below: Stack)

  datatype Line = Line(path: Path, kind: string, subject: string)

  datatype Fold = Fold(
    stack: Stack,
    order: seq<Path>,
    records: map<Path, Record>,
    counters: map<Path, nat>,
    counted: seq<Path>,
    notes: seq<Line>)

  const START: Fold := Fold(Bottom, [], map[], map[], [], [])

  function Micros(at: nat, start: nat): nat {
    if at < start then 0 else (at - start) / 1000
  }

  /** Subtraction that stops at zero. */
  function Less(a: nat, b: nat): nat {
    if a < b then 0 else a - b
  }

  /** The time of a span that closes at `at`, `children` of it in its children. */
  function Span(at: nat, start: nat, children: nat): Record {
    Record(Micros(at, start), Less(Micros(at, start), children), 1)
  }

  function Entered(stack: Stack, name: string, round: Option<nat>): Path {
    Path((if stack.Push? then stack.top.path.text + "." else "") + name
         + if round.Some? then "[" + Decimal(round.value) + "]" else "")
  }

  function Under(stack: Stack, name: string): Path {
    Path((if stack.Push? then stack.top.path.text + "." else "") + name)
  }

  function RecordOf(f: Fold, p: Path): Record {
    if p in f.records then f.records[p] else ZERO
  }

  function Depth(stack: Stack): nat {
    if stack.Bottom? then 0 else 1 + Depth(stack.below)
  }

  function Credited(stack: Stack, time: nat): (r: Stack)
    ensures Depth(r) == Depth(stack)
  {
    if stack.Bottom? then Bottom else Push(stack.top.(children := stack.top.children + time), stack.below)
  }

  /** The innermost span closed at `at`. */
  function Closed(f: Fold, at: nat): Fold
    requires f.stack.Push?
  {
    var open := f.stack.top;
    var span := Span(at, open.start, open.children);
    f.(records := f.records[open.path := Plus(RecordOf(f, open.path), span)],
       stack := Credited(f.stack.below, span.inclusive))
  }

  function Opened(f: Fold, path: Path, at: nat): Fold {
    f.(stack := Push(Open(path, at, 0), f.stack),
       order := if path in f.records then f.order else f.order + [path],
       records := if path in f.records then f.records else f.records[path := ZERO])
  }

  function Tallied(f: Fold, path: Path, n: nat): Fold {
    if path in f.counters then f.(counters := f.counters[path := f.counters[path] + n])
    else f.(counters := f.counters[path := n], counted := f.counted + [path])
  }

  /** `None` is an exit without an enter. */
  function Step(f: Fold, event: Event): Option<Fold> {
    match event
    case Enter(name, round, at) => Some(Opened(f, Entered(f.stack, name, round), at))
    case Exit(at) => if f.stack.Bottom? then None else Some(Closed(f, at))
    case Count(name, n) => Some(Tallied(f, Under(f.stack, name), n))
    case Note(kind, subject) =>
      Some(f.(notes := f.notes + [Line(if f.stack.Push? then f.stack.top.path else Path(""), kind, subject)]))
  }

  function Folded(f: Fold, events: seq<Event>): Option<Fold>
    decreases |events|
  {
    if events == [] then Some(f)
    else
      match Step(f, events[0])
      case None => None
      case Some(next) => Folded(next, events[1..])
  }

  /** The spans still open closed at `now`. */
  function Drained(f: Fold, now: nat): Fold
    decreases Depth(f.stack)
  {
    if f.stack.Bottom? then f
    else
      Drained(Closed(f, now), now)
  }

  function Reported(f: Fold, events: seq<Event>, now: nat): Option<Fold> {
    match Folded(f, events)
    case None => None
    case Some(last) => Some(Drained(last, now))
  }

  // -------------------------------------------------------------- the report

  method Close(f: Fold, at: nat) returns (r: Fold)
    requires f.stack.Push?
    ensures r == Closed(f, at) && Depth(r.stack) == Depth(f.stack) - 1
  {
    var open := f.stack.top;
    var span := Span(at, open.start, open.children);
    var record := if open.path in f.records then f.records[open.path] else ZERO;
    r := f.(stack := Credited(f.stack.below, span.inclusive), records := f.records[open.path := Plus(record, span)]);
  }

  /** Fold the log, then close what is still open. */
  method Report(events: seq<Event>, now: nat) returns (report: Option<Fold>)
    ensures report == Reported(START, events, now)
  {
    var f := START;
    var i := 0;
    while i < |events|
      invariant 0 <= i <= |events|
      invariant Folded(START, events) == Folded(f, events[i..])
      decreases |events| - i
    {
      assert events[i..][0] == events[i] && events[i..][1..] == events[i + 1..];
      match events[i] {
        case Enter(name, round, at) =>
          var path := Entered(f.stack, name, round);
          if path !in f.records {
            f := f.(order := f.order + [path], records := f.records[path := ZERO]);
          }
          f := f.(stack := Push(Open(path, at, 0), f.stack));
        case Exit(at) =>
          if f.stack.Bottom? {
            return None;
          }
          f := Close(f, at);
        case Count(name, n) =>
          f := Tallied(f, Under(f.stack, name), n);
        case Note(kind, subject) =>
          var path := if f.stack.Push? then f.stack.top.path else Path("");
          f := f.(notes := f.notes + [Line(path, kind, subject)]);
      }
      i := i + 1;
    }
    while f.stack.Push?
      invariant Folded(START, events).Some?
      invariant Drained(Folded(START, events).value, now) == Drained(f, now)
      decreases Depth(f.stack)
    {
      f := Close(f, now);
    }
    report := Some(f);
  }
}
