/** The traffic reporting protocol between one service of an agent (observeStats,
    sendTrafficReport) and the panel's /flow/upload, under every interleaving. */
module Reporting {
  import opened Text

  datatype Bytes = Bytes(input: int, output: int)
  const ZERO := Bytes(0, 0)

  function Plus(a: Bytes, b: Bytes): Bytes { Bytes(a.input + b.input, a.output + b.output) }
  function Minus(a: Bytes, b: Bytes): Bytes { Bytes(a.input - b.input, a.output - b.output) }
  predicate AtMost(a: Bytes, b: Bytes) { a.input <= b.input && a.output <= b.output }

  // A report: on its way, then handled by the panel, which answers "ok" whether or not it
  // booked the bytes; acknowledged once the agent has seen that answer in time.
  datatype Report = Report(bytes: Bytes, handled: bool, booked: bool, acked: bool)

  function Unsent(bytes: Bytes): Report { Report(bytes, false, false, false) }

  // `moved` and the history of reports are what an observer sees; the agent itself has the
  // counter, the updated flag, events still to be observed, and the report it waits for.
  datatype State = State(moved: Bytes, counter: Bytes, updated: bool, events: bool, waiting: Option<nat>, reports: seq<Report>)

  const START := State(ZERO, ZERO, false, false, None, [])

  datatype Event =
    | Traffic(bytes: Bytes)
    | Tick(observed: bool)
    | Handle(report: nat, booked: bool)
    | Acknowledge(observed: bool)
    | GiveUp(observed: bool)

  predicate Enabled(s: State, e: Event) {
    match e
    case Traffic(b) => b.input >= 0 && b.output >= 0
    case Tick(_) => s.waiting.None?
    case Handle(i, _) => i < |s.reports| && !s.reports[i].handled
    case Acknowledge(_) => s.waiting.Some? && s.waiting.value < |s.reports| && s.reports[s.waiting.value].handled
    case GiveUp(_) => s.waiting.Some?
  }

  // The counter after an acknowledgement: what it reads now, less what was reported.
  function Reset(counter: Bytes, reported: Bytes): Bytes { Minus(counter, reported) }

  function Step(s: State, e: Event): State
    requires Enabled(s, e)
  {
    match e
    case Traffic(b) => s.(moved := Plus(s.moved, b), counter := Plus(s.counter, b), updated := true)
    case Tick(observed) =>
      // Pending events take the whole tick; nothing new since the last look takes none.
      if s.events then s.(events := !observed)
      else if !s.updated then s
      else if s.counter.output > 0 || s.counter.input > 0
      then s.(updated := false, waiting := Some(|s.reports|), reports := s.reports + [Unsent(s.counter)])
      else s.(updated := false, events := !observed)
    case Handle(i, booked) => s.(reports := s.reports[i := s.reports[i].(handled := true, booked := booked)])
    case Acknowledge(observed) =>
      var r := s.reports[s.waiting.value];
      s.(counter := Reset(s.counter, r.bytes), waiting := None, events := !observed, reports := s.reports[s.waiting.value := r.(acked := true)])
    case GiveUp(observed) => s.(waiting := None, events := !observed)
  }

  // ---- sums over the history ----

  datatype Kind = Acked | Booked | BookedOnly | AckedOnly

  predicate Counts(r: Report, k: Kind) {
    match k
    case Acked => r.acked
    case Booked => r.booked
    case BookedOnly => r.booked && !r.acked
    case AckedOnly => r.acked && !r.booked
  }

  function Amount(b: Bytes, input: bool): int { if input then b.input else b.output }

  function Weight(r: Report, k: Kind, input: bool): int { if Counts(r, k) then Amount(r.bytes, input) else 0 }

  function Sum(reports: seq<Report>, k: Kind, input: bool): int {
    if reports == [] then 0 else Sum(reports[..|reports| - 1], k, input) + Weight(reports[|reports| - 1], k, input)
  }

  function Total(reports: seq<Report>, k: Kind): Bytes { Bytes(Sum(reports, k, true), Sum(reports, k, false)) }

  lemma {:induction false} SumUpdate(reports: seq<Report>, i: nat, r: Report, k: Kind, input: bool)
    requires i < |reports|
    ensures Sum(reports[i := r], k, input) == Sum(reports, k, input) - Weight(reports[i], k, input) + Weight(r, k, input)
  {
    var n := |reports| - 1;
    if i < n {
      SumUpdate(reports[..n], i, r, k, input);
      assert reports[i := r][..n] == reports[..n][i := r];
    } else {
      assert reports[i := r][..n] == reports[..n];
    }
  }

  // What the panel booked and what the agent was told differ by the two kinds of report
  // that only one side knows about.
  lemma {:induction false} BookedAgainstAcked(reports: seq<Report>, input: bool)
    ensures Sum(reports, Booked, input) + Sum(reports, AckedOnly, input) == Sum(reports, Acked, input) + Sum(reports, BookedOnly, input)
  {
    if reports != [] { BookedAgainstAcked(reports[..|reports| - 1], input); }
  }

  lemma {:induction false} SumZero(reports: seq<Report>, k: Kind, input: bool)
    requires forall r :: r in reports ==> !Counts(r, k)
    ensures Sum(reports, k, input) == 0
  {
    if reports != [] {
      assert reports[|reports| - 1] in reports;
      SumZero(reports[..|reports| - 1], k, input);
    }
  }

  lemma {:induction false} SumPositive(reports: seq<Report>, k: Kind, input: bool)
    requires forall r :: r in reports ==> AtMost(ZERO, r.bytes)
    ensures Sum(reports, k, input) >= 0
  {
    if reports != [] {
      assert reports[|reports| - 1] in reports;
      SumPositive(reports[..|reports| - 1], k, input);
    }
  }

  // ---- conservation ----

  predicate SoundReport(r: Report) { AtMost(ZERO, r.bytes) && (r.booked || r.acked ==> r.handled) }

  ghost predicate Conserved(s: State) {
    && s.moved == Plus(s.counter, Total(s.reports, Acked))
    && (s.waiting.Some? ==> s.waiting.value < |s.reports| && !s.reports[s.waiting.value].acked && AtMost(s.reports[s.waiting.value].bytes, s.counter))
    && (forall r :: r in s.reports ==> SoundReport(r))
    && AtMost(ZERO, s.counter)
  }

  lemma UpdatedReports(reports: seq<Report>, i: nat, r: Report)
    requires i < |reports| && SoundReport(r) && forall x :: x in reports ==> SoundReport(x)
    ensures forall x :: x in reports[i := r] ==> SoundReport(x)
    ensures Total(reports[i := r], Acked) ==
            Bytes(Total(reports, Acked).input - Weight(reports[i], Acked, true) + Weight(r, Acked, true),
                  Total(reports, Acked).output - Weight(reports[i], Acked, false) + Weight(r, Acked, false))
  {
    SumUpdate(reports, i, r, Acked, true);
    SumUpdate(reports, i, r, Acked, false);
  }

  lemma StepConserves(s: State, e: Event)
    requires Conserved(s) && Enabled(s, e)
    ensures Conserved(Step(s, e))
  {
    match e
    case Traffic(_) =>
    case Tick(_) => TickConserves(s, e);
    case Handle(_, _) => HandleConserves(s, e);
    case Acknowledge(_) => AcknowledgeConserves(s, e);
    case GiveUp(_) =>
  }

  lemma TickConserves(s: State, e: Event)
    requires Conserved(s) && Enabled(s, e) && e.Tick?
    ensures Conserved(Step(s, e))
  {
  }

  lemma HandleConserves(s: State, e: Event)
    requires Conserved(s) && Enabled(s, e) && e.Handle?
    ensures Conserved(Step(s, e))
  {
    assert s.reports[e.report] in s.reports;
    UpdatedReports(s.reports, e.report, s.reports[e.report].(handled := true, booked := e.booked));
  }

  lemma AcknowledgeConserves(s: State, e: Event)
    requires Conserved(s) && Enabled(s, e) && e.Acknowledge?
    ensures Conserved(Step(s, e))
  {
    assert s.reports[s.waiting.value] in s.reports;
    UpdatedReports(s.reports, s.waiting.value, s.reports[s.waiting.value].(acked := true));
  }

  // A run: every event is enabled when it happens.
  ghost predicate IsRun(s: State, events: seq<Event>)
    decreases |events|
  {
    events != [] ==> Enabled(s, events[0]) && IsRun(Step(s, events[0]), events[1..])
  }

  ghost function After(s: State, events: seq<Event>): State
    requires IsRun(s, events)
    decreases |events|
  {
    if events == [] then s else After(Step(s, events[0]), events[1..])
  }

  lemma {:induction false} RunConserves(s: State, events: seq<Event>)
    requires Conserved(s) && IsRun(s, events)
    ensures Conserved(After(s, events))
    decreases |events|
  {
    if events != [] {
      StepConserves(s, events[0]);
      RunConserves(Step(s, events[0]), events[1..]);
    }
  }

  lemma ReachedConserves(start: State, events: seq<Event>, s: State)
    requires start == START && IsRun(start, events) && s == After(start, events)
    ensures Conserved(s)
  {
    assert Conserved(start);
    RunConserves(start, events);
  }

  lemma SumsOf(s: State)
    requires Conserved(s)
    ensures Total(s.reports, Booked) == Minus(Plus(Minus(s.moved, s.counter), Total(s.reports, BookedOnly)), Total(s.reports, AckedOnly))
  {
    BookedAgainstAcked(s.reports, true);
    BookedAgainstAcked(s.reports, false);
  }

  // Under every interleaving of traffic, ticks, and handled, lost or late reports, the
  // bytes moved are the bytes in the counter plus the bytes acknowledged, and what the
  // panel booked is what moved, less the counter and the reports answered without being
  // booked, plus the reports booked without being acknowledged. No byte is lost on the
  // agent; a booked report whose answer was lost is booked again.
  lemma BytesAreConserved(start: State, events: seq<Event>, s: State)
    requires start == START && IsRun(start, events) && s == After(start, events)
    ensures s.moved == Plus(s.counter, Total(s.reports, Acked))
    ensures Total(s.reports, Booked) == Minus(Plus(Minus(s.moved, s.counter), Total(s.reports, BookedOnly)), Total(s.reports, AckedOnly))
  {
    ReachedConserves(start, events, s);
    SumsOf(s);
  }

  lemma BookedEverything(s: State, input: bool)
    requires Conserved(s) && forall r :: r in s.reports && r.handled ==> r.booked
    ensures Sum(s.reports, Booked, input) == Sum(s.reports, Acked, input) + Sum(s.reports, BookedOnly, input)
    ensures Sum(s.reports, BookedOnly, input) >= 0
  {
    forall r | r in s.reports ensures !Counts(r, AckedOnly) && AtMost(ZERO, r.bytes) { assert SoundReport(r); }
    BookedAgainstAcked(s.reports, input);
    SumZero(s.reports, AckedOnly, input);
    SumPositive(s.reports, BookedOnly, input);
  }

  lemma ExcessOf(s: State)
    requires Conserved(s) && forall r :: r in s.reports && r.handled ==> r.booked
    ensures Minus(Total(s.reports, Booked), Total(s.reports, Acked)) == Total(s.reports, BookedOnly)
    ensures AtMost(Total(s.reports, Acked), Total(s.reports, Booked))
  {
    BookedEverything(s, true);
    BookedEverything(s, false);
  }

  // When the panel books every report it handles, its raw total exceeds the acknowledged
  // total by exactly the booked reports that are not acknowledged.
  lemma BookingPanelExceedsByUnacknowledged(start: State, events: seq<Event>, s: State)
    requires start == START && IsRun(start, events) && s == After(start, events)
    requires forall r :: r in s.reports && r.handled ==> r.booked
    ensures Minus(Total(s.reports, Booked), Total(s.reports, Acked)) == Total(s.reports, BookedOnly)
    ensures AtMost(Total(s.reports, Acked), Total(s.reports, Booked))
  {
    ReachedConserves(start, events, s);
    ExcessOf(s);
  }

  // ---- the reset is a read followed by a write ----

  // Traffic that arrives between reading the counter and writing it back is overwritten:
  // bytes are conserved exactly when there is none, for an answer to a handled report.
  lemma SplitResetLosesExactly(s: State, between: Bytes)
    requires Conserved(s) && s.waiting.Some? && Enabled(s, Traffic(between))
    ensures var r := s.reports[s.waiting.value];
            var written := Reset(s.counter, r.bytes);
            var after := Step(s, Traffic(between)).(counter := written, waiting := None, reports := s.reports[s.waiting.value := r.(acked := true)]);
            && Minus(after.moved, Plus(after.counter, Total(after.reports, Acked))) == between
            && (Conserved(after) <==> between == ZERO && r.handled)
  {
    assert s.reports[s.waiting.value] in s.reports && SoundReport(s.reports[s.waiting.value]);
    SumUpdate(s.reports, s.waiting.value, s.reports[s.waiting.value].(acked := true), Acked, true);
    SumUpdate(s.reports, s.waiting.value, s.reports[s.waiting.value].(acked := true), Acked, false);
    var answered := s.reports[s.waiting.value].(acked := true);
    assert s.reports[s.waiting.value := answered][s.waiting.value] in s.reports[s.waiting.value := answered];
    if between == ZERO && answered.handled { StepConserves(Step(s, Traffic(ZERO)), Acknowledge(!s.events)); }
  }

  // ---- nothing is sent without new traffic ----

  ghost predicate HasTraffic(events: seq<Event>) { exists i :: 0 <= i < |events| && events[i].Traffic? }

  lemma TrafficLater(events: seq<Event>)
    requires events != []
    ensures HasTraffic(events) <==> events[0].Traffic? || HasTraffic(events[1..])
  {
    if HasTraffic(events[1..]) {
      var i :| 0 <= i < |events[1..]| && events[1..][i].Traffic?;
      assert events[i + 1].Traffic?;
    }
    if HasTraffic(events) && !events[0].Traffic? {
      var i :| 0 <= i < |events| && events[i].Traffic?;
      assert events[1..][i - 1].Traffic?;
    }
  }

  predicate SomeBytes(b: Bytes) { b.input > 0 || b.output > 0 }

  // No report is out, and the counter holds bytes.
  predicate Idle(s: State) { s.waiting.None? && SomeBytes(s.counter) }

  // A tick of an idle agent sends exactly when traffic was seen and no event is pending, and
  // then it sends the whole counter.
  lemma TickSendsExactly(s: State, observed: bool)
    requires Idle(s)
    ensures var next := Step(s, Tick(observed));
            next.reports == (if s.updated && !s.events then s.reports + [Unsent(s.counter)] else s.reports)
            && (next.waiting.None? <==> next.reports == s.reports)
  {
    assert s.reports + [Unsent(s.counter)] != s.reports;
  }

  lemma {:induction false} ReportsGrow(s: State, events: seq<Event>)
    requires IsRun(s, events)
    ensures |s.reports| <= |After(s, events).reports|
    decreases |events|
  {
    if events != [] { ReportsGrow(Step(s, events[0]), events[1..]); }
  }

  // As long as an idle agent sends nothing it stays idle and its counter only grows; its flag
  // is up exactly when it was or traffic was seen since.
  lemma {:induction false} UnsentSoFar(s: State, events: seq<Event>)
    requires Idle(s) && IsRun(s, events) && |After(s, events).reports| == |s.reports|
    ensures var now := After(s, events);
            && Idle(now) && AtMost(s.counter, now.counter)
            && (now.updated <==> s.updated || HasTraffic(events))
            && (HasTraffic(events) || now.counter == s.counter)
    decreases |events|
  {
    if events != [] {
      var next := Step(s, events[0]);
      TrafficLater(events);
      ReportsGrow(next, events[1..]);
      if events[0].Tick? { TickSendsExactly(s, events[0].observed); }
      UnsentSoFar(next, events[1..]);
    }
  }

  lemma {:induction false} QuietRun(s: State, events: seq<Event>)
    requires Idle(s) && !s.updated && IsRun(s, events) && !HasTraffic(events)
    ensures |After(s, events).reports| == |s.reports|
    decreases |events|
  {
    if events != [] {
      TrafficLater(events);
      QuietRun(Step(s, events[0]), events[1..]);
    }
  }

  // A report that went out and was given up.
  ghost predicate GaveUp(s: State, observed: bool, failed: State) {
    s.waiting.None? && !s.events && s.updated && SomeBytes(s.counter) && failed == Step(Step(s, Tick(true)), GiveUp(observed))
  }

  // After a failed report the bytes stay in the counter, but no run without further traffic
  // sends them again: the flag was taken down before the report went out.
  lemma FailedReportWaitsForTraffic(s: State, observed: bool, failed: State, events: seq<Event>)
    requires GaveUp(s, observed, failed) && IsRun(failed, events) && !HasTraffic(events)
    ensures failed.reports == s.reports + [Unsent(s.counter)]
    ensures var now := After(failed, events); now.counter == s.counter && |now.reports| == |failed.reports| && now.waiting.None?
  {
    QuietRun(failed, events);
    UnsentSoFar(failed, events);
  }

  // At any time after a failed report, as long as nothing was sent since: the next tick sends
  // exactly when there was traffic and no event is pending, and then it sends the whole
  // counter, the bytes of the failed report among them. A pending event delays it by the one
  // tick that passes it on.
  lemma ResentExactlyAfterTraffic(s: State, gaveUp: bool, failed: State, events: seq<Event>, observed: bool)
    requires GaveUp(s, gaveUp, failed) && IsRun(failed, events) && |After(failed, events).reports| == |failed.reports|
    ensures var now := After(failed, events);
            var resent := now.reports + [Unsent(now.counter)];
            && AtMost(s.counter, now.counter) && Enabled(now, Tick(observed))
            && (Step(now, Tick(observed)).reports == resent <==> HasTraffic(events) && !now.events)
            && (!(HasTraffic(events) && !now.events) ==> Step(now, Tick(observed)).reports == now.reports)
            && (HasTraffic(events) && now.events ==> Step(Step(now, Tick(true)), Tick(observed)).reports == resent)
  {
    var now := After(failed, events);
    UnsentSoFar(failed, events);
    TickSendsExactly(now, observed);
    assert now.reports + [Unsent(now.counter)] != now.reports;
    if now.events { TickSendsExactly(Step(now, Tick(true)), observed); }
  }
}
