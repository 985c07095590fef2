/**
 * The paths a timing report speaks of: the names of the spans open at the time,
 * read off the log, joined by dots, a span's round in brackets after its name.
 */
module TimingPaths {
  import opened Prelude
  import opened Numerals
  import opened Timing
  import opened TimingLaws

  /** A span as its entry names it. */
  datatype Called = Called(name: string, round: Option<nat>)

  function Spelled(span: Called): string {
    match span.round
    case None => span.name
    case Some(n) => span.name + "[" + Decimal(n) + "]"
  }

  /** The spans' names, outermost first, joined by dots. */
  function Dotted(spans: seq<Called>): string {
    if spans == [] then ""
    else if |spans| == 1 then Spelled(spans[0])
    else Dotted(spans[..|spans| - 1]) + "." + Spelled(spans[|spans| - 1])
  }

  /** The spans open after `event`. */
  function OpenAfter(spans: seq<Called>, event: Event): seq<Called> {
    match event
    case Enter(name, round, _) => spans + [Called(name, round)]
    case Exit(_) => if spans == [] then [] else spans[..|spans| - 1]
    case Count(_, _) => spans
    case Note(_, _) => spans
  }

  /** The paths `events` enter with `spans` open, in order. */
  function Entering(spans: seq<Called>, events: seq<Event>): seq<Path>
    decreases |events|
  {
    if events == [] then []
    else
      var e := events[0];
      (if e.Enter? then [Path(Dotted(spans + [Called(e.name, e.round)]))] else []) +
      Entering(OpenAfter(spans, e), events[1..])
  }

  function CountsAt(spans: seq<Called>, e: Event): seq<Path> {
    if e.Count? then [Path(Dotted(spans + [Called(e.name, None)]))] else []
  }

  function NotesAt(spans: seq<Called>, e: Event): seq<Line> {
    if e.Note? then [Line(Path(Dotted(spans)), e.kind, e.subject)] else []
  }

  /** The paths `events` count at, in order. */
  function Counting(spans: seq<Called>, events: seq<Event>): seq<Path>
    decreases |events|
  {
    if events == [] then []
    else
      var e := events[0];
      CountsAt(spans, e) + Counting(OpenAfter(spans, e), events[1..])
  }

  /** The notes of `events`, each with the path of the span it was made in. */
  function Noting(spans: seq<Called>, events: seq<Event>): seq<Line>
    decreases |events|
  {
    if events == [] then []
    else
      var e := events[0];
      NotesAt(spans, e) + Noting(OpenAfter(spans, e), events[1..])
  }

  lemma {:induction false} SpelledApart(name: string, a: Option<nat>, b: Option<nat>)
    requires Spelled(Called(name, a)) == Spelled(Called(name, b))
    ensures a == b
  {
    if a.Some? && b.Some? {
      var s, t, n := Spelled(Called(name, a)), Spelled(Called(name, b)), |name| + 1;
      assert s[n..|s| - 1] == Decimal(a.value) && t[n..|t| - 1] == Decimal(b.value);
      DecimalIsInjective(a.value, b.value);
    }
  }

  /** Two rounds of a span in one place are two lines. */
  lemma {:induction false} RoundsApart(spans: seq<Called>, name: string, a: Option<nat>, b: Option<nat>)
    requires Dotted(spans + [Called(name, a)]) == Dotted(spans + [Called(name, b)])
    ensures a == b
  {
    var s, t := spans + [Called(name, a)], spans + [Called(name, b)];
    assert s[..|s| - 1] == spans == t[..|t| - 1];
    if spans != [] {
      var n := |Dotted(spans)| + 1;
      assert Dotted(s)[n..] == Spelled(Called(name, a)) && Dotted(t)[n..] == Spelled(Called(name, b));
    }
    SpelledApart(name, a, b);
  }

  // ------------------------------------------------------- the fold's paths

  /** The stack holds the paths of `spans`, innermost on top. */
  ghost predicate Stacked(stack: Stack, spans: seq<Called>)
    decreases stack
  {
    if stack.Bottom? then spans == []
    else spans != [] && stack.top.path == Path(Dotted(spans)) && Stacked(stack.below, spans[..|spans| - 1])
  }

  lemma {:induction false} CreditedStacked(stack: Stack, time: nat, spans: seq<Called>)
    requires Stacked(stack, spans)
    ensures Stacked(Credited(stack, time), spans)
  {
  }

  lemma {:induction false} LastDotted(spans: seq<Called>, last: Called)
    ensures Dotted(spans + [last]) == (if spans == [] then "" else Dotted(spans) + ".") + Spelled(last)
  {
    var longer := spans + [last];
    assert longer[..|longer| - 1] == spans;
    if spans == [] {
      assert "" + Spelled(last) == Spelled(last);
    }
  }

  lemma {:induction false} SpelledIs(name: string, round: Option<nat>)
    ensures Spelled(Called(name, round)) == name + if round.Some? then "[" + Decimal(round.value) + "]" else ""
  {
    assert name + "" == name;
    if round.Some? {
      Regrouped(name, "[", Decimal(round.value));
      Regrouped(name, "[" + Decimal(round.value), "]");
    }
  }

  lemma {:induction false} EnteredIsDotted(stack: Stack, spans: seq<Called>, name: string, round: Option<nat>)
    requires Stacked(stack, spans)
    ensures Entered(stack, name, round) == Path(Dotted(spans + [Called(name, round)]))
  {
    LastDotted(spans, Called(name, round));
    SpelledIs(name, round);
    var outer := if spans == [] then "" else Dotted(spans) + ".";
    Regrouped(outer, name, if round.Some? then "[" + Decimal(round.value) + "]" else "");
  }

  lemma {:induction false} UnderIsDotted(stack: Stack, spans: seq<Called>, name: string)
    requires Stacked(stack, spans)
    ensures Under(stack, name) == Path(Dotted(spans + [Called(name, None)]))
  {
    LastDotted(spans, Called(name, None));
  }

  /** What the fold has counted and noted is what its log says. */
  ghost predicate Logged(f: Fold, counts: seq<Path>, notes: seq<Line>) {
    && ByFirst(f.counted, counts) && (forall p :: p in f.counters <==> p in f.counted)
    && f.notes == notes
  }

  lemma {:induction false} StepStacked(f: Fold, event: Event, spans: seq<Called>)
    requires Step(f, event).Some? && Stacked(f.stack, spans)
    ensures Stacked(Step(f, event).value.stack, OpenAfter(spans, event))
  {
    match event
    case Enter(name, round, _) =>
      EnteredIsDotted(f.stack, spans, name, round);
      assert (spans + [Called(name, round)])[..|spans|] == spans;
    case Exit(at) => CreditedStacked(f.stack.below, Micros(at, f.stack.top.start), spans[..|spans| - 1]);
    case Count(_, _) =>
    case Note(_, _) =>
  }

  lemma {:induction false} StepLogged(f: Fold, event: Event, spans: seq<Called>, counts: seq<Path>, notes: seq<Line>)
    requires Step(f, event).Some? && Stacked(f.stack, spans) && Logged(f, counts, notes)
    ensures Logged(Step(f, event).value, counts + CountsAt(spans, event), notes + NotesAt(spans, event))
  {
    assert counts + [] == counts && notes + [] == notes;
    if event.Count? {
      UnderIsDotted(f.stack, spans, event.name);
      ByFirstGrows(f.counted, counts, Under(f.stack, event.name));
    }
  }

  lemma {:induction false} DrainedLogged(f: Fold, now: nat, counts: seq<Path>, notes: seq<Line>)
    requires Logged(f, counts, notes)
    ensures Logged(Drained(f, now), counts, notes)
    decreases Depth(f.stack)
  {
    if f.stack.Push? {
      DrainedLogged(Closed(f, now), now, counts, notes);
    }
  }

  lemma {:induction false} FoldLogged(f: Fold, events: seq<Event>, now: nat, spans: seq<Called>, counts: seq<Path>,
                                      notes: seq<Line>)
    requires Reported(f, events, now).Some? && Stacked(f.stack, spans) && Logged(f, counts, notes)
    ensures Logged(Reported(f, events, now).value, counts + Counting(spans, events), notes + Noting(spans, events))
    decreases |events|
  {
    if events == [] {
      assert counts + [] == counts && notes + [] == notes;
      DrainedLogged(f, now, counts, notes);
    } else {
      var e, next, open := events[0], Step(f, events[0]).value, OpenAfter(spans, events[0]);
      StepStacked(f, e, spans);
      StepLogged(f, e, spans, counts, notes);
      FoldLogged(next, events[1..], now, open, counts + CountsAt(spans, e), notes + NotesAt(spans, e));
      Regrouped(counts, CountsAt(spans, e), Counting(open, events[1..]));
      Regrouped(notes, NotesAt(spans, e), Noting(open, events[1..]));
    }
  }

  lemma {:induction false} FoldEnters(f: Fold, events: seq<Event>, spans: seq<Called>)
    requires Folded(f, events).Some? && Stacked(f.stack, spans)
    ensures Entries(PathsOf(f.stack), events) == Entering(spans, events)
    decreases |events|
  {
    if events != [] {
      var next := Step(f, events[0]).value;
      StepStacked(f, events[0], spans);
      StepEnters(f, events);
      if events[0].Enter? {
        EnteredIsDotted(f.stack, spans, events[0].name, events[0].round);
      }
      FoldEnters(next, events[1..], OpenAfter(spans, events[0]));
    }
  }

  /** A report's lines are, by first entry, the dotted names of the spans open when
      one is entered; its counters, by first count, those names and the counter's;
      its notes all of them, in order, each under the span it was made in. */
  lemma {:induction false} ReportIsDotted(events: seq<Event>, now: nat)
    requires Reported(START, events, now).Some?
    ensures var report := Reported(START, events, now).value;
      && ByFirst(report.order, Entering([], events))
      && ByFirst(report.counted, Counting([], events))
      && report.notes == Noting([], events)
  {
    FoldEnters(START, events, []);
    LinesByFirstEntry(events, now);
    FoldLogged(START, events, now, [], [], []);
    assert [] + Counting([], events) == Counting([], events) && [] + Noting([], events) == Noting([], events);
  }
}
