/** From the bytes a service moves to the forward's ledger: the services of one forward, each
    with its own reporting, and the panel, under every interleaving of traffic, reports, lost
    replies and any other requests to the panel. */
module Accounting {
  import opened Text
  import opened PanelTables
  import opened Ledgers
  import Agents = Reporting

  // A forward, the names under which its services report, and the node they run on.
  datatype Site = Site(id: nat, names: seq<string>, node: nat)

  // How far each service has got, and the requests the panel has handled.
  datatype World = World(agents: seq<Agents.State>, ops: seq<Op>)

  datatype Event =
    | Inside(k: nat, event: Agents.Event)
    | Arrive(k: nat, report: nat)
    | Request(op: Op)

  // The request is a report that the panel accepts for the forward.
  predicate Accepted(ops: seq<Op>, op: Op, id: nat) {
    op.OpReport? && BookedOn(Run(NEW, ops), op.report.service, op.node) == Some(id)
  }

  // A report carries what went out as upload, what came in as download.
  function Sent(site: Site, k: nat, b: Agents.Bytes): Op
    requires k < |site.names|
  {
    OpReport(Report(site.names[k], b.output, b.input), site.node)
  }

  function Arriving(site: Site, w: World, k: nat, i: nat): Op
    requires k < |site.names| && k < |w.agents| && i < |w.agents[k].reports|
  {
    Sent(site, k, w.agents[k].reports[i].bytes)
  }

  // The tunnel of the forward has this ratio when a report is accepted; other requests are
  // whatever they like, but nobody else reports for the forward.
  predicate Enabled(site: Site, tenths: nat, w: World, e: Event) {
    |w.agents| == |site.names| &&
    match e
    case Inside(k, event) => k < |w.agents| && !event.Handle? && Agents.Enabled(w.agents[k], event)
    case Arrive(k, i) =>
      && k < |w.agents| && Agents.Enabled(w.agents[k], Agents.Handle(i, true))
      && (Accepted(w.ops, Arriving(site, w, k, i), site.id) ==> Ratio(Run(NEW, w.ops), site.id) == tenths)
    case Request(op) => !Accepted(w.ops, op, site.id)
  }

  function Ratio(db: Tables, id: nat): int {
    if id in db.forwards && db.forwards[id].tunnel in db.tunnels then db.tunnels[db.forwards[id].tunnel].tenths else 0
  }

  function Step(site: Site, tenths: nat, w: World, e: Event): World
    requires Enabled(site, tenths, w, e)
  {
    match e
    case Inside(k, event) => w.(agents := w.agents[k := Agents.Step(w.agents[k], event)])
    case Arrive(k, i) =>
      var op := Arriving(site, w, k, i);
      World(w.agents[k := Agents.Step(w.agents[k], Agents.Handle(i, Accepted(w.ops, op, site.id)))], w.ops + [op])
    case Request(op) => w.(ops := w.ops + [op])
  }

  // ---- what the reports of the services add up to ----

  function BookedCount(reports: seq<Agents.Report>): nat {
    if reports == [] then 0 else BookedCount(reports[..|reports| - 1]) + if reports[|reports| - 1].booked then 1 else 0
  }

  function RawOf(s: Agents.State): Raw {
    var sum := Agents.Total(s.reports, Agents.Booked);
    Raw(BookedCount(s.reports), sum.output, sum.input)
  }

  function Join(a: Raw, b: Raw): Raw { Raw(a.count + b.count, a.up + b.up, a.down + b.down) }

  function JoinAll(raws: seq<Raw>): Raw {
    if raws == [] then Raw(0, 0, 0) else Join(JoinAll(raws[..|raws| - 1]), raws[|raws| - 1])
  }

  function RawsOf(agents: seq<Agents.State>): (raws: seq<Raw>)
    ensures |raws| == |agents| && forall k :: 0 <= k < |raws| ==> raws[k] == RawOf(agents[k])
  {
    seq(|agents|, k requires 0 <= k < |agents| => RawOf(agents[k]))
  }

  function RawOfAll(agents: seq<Agents.State>): Raw { JoinAll(RawsOf(agents)) }

  lemma {:induction false} CountUpdate(reports: seq<Agents.Report>, i: nat, r: Agents.Report)
    requires i < |reports|
    ensures BookedCount(reports[i := r]) ==
            BookedCount(reports) - (if reports[i].booked then 1 else 0) + if r.booked then 1 else 0
  {
    var n := |reports| - 1;
    if i < n {
      CountUpdate(reports[..n], i, r);
      assert reports[i := r][..n] == reports[..n][i := r];
    } else {
      assert reports[i := r][..n] == reports[..n];
    }
  }

  lemma ReplacedReport(s: Agents.State, i: nat, r: Agents.Report, after: Agents.State)
    requires i < |s.reports| && after.reports == s.reports[i := r] && r.bytes == s.reports[i].bytes
    requires s.reports[i].booked ==> r.booked
    ensures RawOf(after) == if r.booked && !s.reports[i].booked then Join(RawOf(s), Raw(1, r.bytes.output, r.bytes.input)) else RawOf(s)
  {
    CountUpdate(s.reports, i, r);
    Agents.SumUpdate(s.reports, i, r, Agents.Booked, true);
    Agents.SumUpdate(s.reports, i, r, Agents.Booked, false);
  }

  lemma NewReport(s: Agents.State, b: Agents.Bytes, after: Agents.State)
    requires after.reports == s.reports + [Agents.Unsent(b)]
    ensures RawOf(after) == RawOf(s)
  {
    assert after.reports[..|s.reports|] == s.reports;
  }

  // Only the handling of a report changes what a service has booked.
  lemma InsideKeepsRaw(s: Agents.State, e: Agents.Event)
    requires Agents.Enabled(s, e) && !e.Handle?
    ensures RawOf(Agents.Step(s, e)) == RawOf(s)
  {
    var after := Agents.Step(s, e);
    if e.Tick? && after.reports != s.reports {
      NewReport(s, s.counter, after);
    } else if e.Acknowledge? {
      ReplacedReport(s, s.waiting.value, s.reports[s.waiting.value].(acked := true), after);
    }
  }

  lemma HandleBooks(s: Agents.State, i: nat, booked: bool)
    requires Agents.Conserved(s) && Agents.Enabled(s, Agents.Handle(i, booked))
    ensures var b := s.reports[i].bytes;
            RawOf(Agents.Step(s, Agents.Handle(i, booked))) == if booked then Join(RawOf(s), Raw(1, b.output, b.input)) else RawOf(s)
    ensures s.reports[i].bytes.output >= 0 && s.reports[i].bytes.input >= 0
  {
    assert s.reports[i] in s.reports && Agents.SoundReport(s.reports[i]);
    ReplacedReport(s, i, s.reports[i].(handled := true, booked := booked), Agents.Step(s, Agents.Handle(i, booked)));
  }

  lemma {:induction false} ReplacedRaw(raws: seq<Raw>, k: nat, raw: Raw, more: Raw)
    requires k < |raws| && raw == Join(raws[k], more)
    ensures JoinAll(raws[k := raw]) == Join(JoinAll(raws), more)
  {
    var n := |raws| - 1;
    if k < n {
      ReplacedRaw(raws[..n], k, raw, more);
      assert raws[k := raw][..n] == raws[..n][k := raw];
    } else {
      assert raws[k := raw][..n] == raws[..n];
    }
  }

  lemma ReplacedAgent(agents: seq<Agents.State>, k: nat, s: Agents.State, more: Raw)
    requires k < |agents| && RawOf(s) == Join(RawOf(agents[k]), more)
    ensures RawOfAll(agents[k := s]) == Join(RawOfAll(agents), more)
  {
    assert RawsOf(agents[k := s]) == RawsOf(agents)[k := RawOf(s)];
    ReplacedRaw(RawsOf(agents), k, RawOf(s), more);
  }

  // ---- the invariant of the joint machine ----

  // Every service conserves its bytes, and the panel has accepted for the forward exactly the
  // reports the services know as booked, all at this ratio.
  ghost predicate Consistent(site: Site, tenths: nat, w: World) {
    && |w.agents| == |site.names|
    && (forall k :: 0 <= k < |w.agents| ==> Agents.Conserved(w.agents[k]))
    && RawReports(w.ops, site.id) == RawOfAll(w.agents)
    && SteadyRatio(w.ops, site.id, tenths)
  }

  lemma OneMore(ops: seq<Op>, op: Op, id: nat, tenths: nat)
    requires SteadyRatio(ops, id, tenths)
    requires Accepted(ops, op, id) ==> op.report.up >= 0 && op.report.down >= 0 && Ratio(Run(NEW, ops), id) == tenths
    ensures SteadyRatio(ops + [op], id, tenths)
    ensures RawReports(ops + [op], id) ==
            if Accepted(ops, op, id) then Join(RawReports(ops, id), Raw(1, op.report.up, op.report.down)) else RawReports(ops, id)
  {
    assert (ops + [op])[..|ops|] == ops;
    RawStep(ops + [op], id);
  }

  lemma StepIsConsistent(site: Site, tenths: nat, w: World, e: Event)
    requires Consistent(site, tenths, w) && Enabled(site, tenths, w, e)
    ensures Consistent(site, tenths, Step(site, tenths, w, e))
  {
    match e
    case Inside(k, event) => InsideIsConsistent(site, tenths, w, k, event);
    case Arrive(k, i) => ArriveIsConsistent(site, tenths, w, k, i);
    case Request(op) => OneMore(w.ops, op, site.id, tenths);
  }

  lemma InsideIsConsistent(site: Site, tenths: nat, w: World, k: nat, event: Agents.Event)
    requires Consistent(site, tenths, w) && Enabled(site, tenths, w, Inside(k, event))
    ensures Consistent(site, tenths, Step(site, tenths, w, Inside(k, event)))
  {
    InsideKeepsRaw(w.agents[k], event);
    Agents.StepConserves(w.agents[k], event);
    ReplacedAgent(w.agents, k, Agents.Step(w.agents[k], event), Raw(0, 0, 0));
  }

  lemma ArriveIsConsistent(site: Site, tenths: nat, w: World, k: nat, i: nat)
    requires Consistent(site, tenths, w) && Enabled(site, tenths, w, Arrive(k, i))
    ensures Consistent(site, tenths, Step(site, tenths, w, Arrive(k, i)))
  {
    var op := Arriving(site, w, k, i);
    var booked := Accepted(w.ops, op, site.id);
    HandleBooks(w.agents[k], i, booked);
    OneMore(w.ops, op, site.id, tenths);
    Agents.StepConserves(w.agents[k], Agents.Handle(i, booked));
    ReplacedAgent(w.agents, k, Agents.Step(w.agents[k], Agents.Handle(i, booked)),
                  if booked then Raw(1, op.report.up, op.report.down) else Raw(0, 0, 0));
  }

  // ---- whole runs ----

  function Start(site: Site): World { World(seq(|site.names|, i => Agents.START), []) }

  ghost predicate IsRun(site: Site, tenths: nat, w: World, events: seq<Event>)
    decreases |events|
  {
    events != [] ==> Enabled(site, tenths, w, events[0]) && IsRun(site, tenths, Step(site, tenths, w, events[0]), events[1..])
  }

  ghost function After(site: Site, tenths: nat, w: World, events: seq<Event>): World
    requires IsRun(site, tenths, w, events)
    decreases |events|
  {
    if events == [] then w else After(site, tenths, Step(site, tenths, w, events[0]), events[1..])
  }

  lemma {:induction false} RunIsConsistent(site: Site, tenths: nat, w: World, events: seq<Event>)
    requires Consistent(site, tenths, w) && IsRun(site, tenths, w, events)
    ensures Consistent(site, tenths, After(site, tenths, w, events))
    decreases |events|
  {
    if events != [] {
      StepIsConsistent(site, tenths, w, events[0]);
      RunIsConsistent(site, tenths, Step(site, tenths, w, events[0]), events[1..]);
    }
  }

  lemma {:induction false} NothingAtFirst(raws: seq<Raw>, nothing: Raw)
    requires Join(nothing, nothing) == nothing && forall k :: 0 <= k < |raws| ==> raws[k] == nothing
    ensures JoinAll(raws) == nothing
  {
    if raws != [] {
      var init := raws[..|raws| - 1];
      NothingAtFirst(init, nothing);
      assert JoinAll(raws) == Join(JoinAll(init), raws[|raws| - 1]);
    }
  }

  // What the panel should have on its books for a service: what moved, less what is still in
  // the counter and what was answered without being booked, plus what was booked without the
  // agent learning of it.
  function Due(s: Agents.State): Agents.Bytes {
    Agents.Minus(Agents.Plus(Agents.Minus(s.moved, s.counter), Agents.Total(s.reports, Agents.BookedOnly)),
                 Agents.Total(s.reports, Agents.AckedOnly))
  }

  function DueOfAll(agents: seq<Agents.State>): Agents.Bytes {
    if agents == [] then Agents.ZERO else Agents.Plus(DueOfAll(agents[..|agents| - 1]), Due(agents[|agents| - 1]))
  }

  lemma {:induction false} RawIsDue(agents: seq<Agents.State>)
    requires forall k :: 0 <= k < |agents| ==> Agents.Conserved(agents[k])
    ensures RawOfAll(agents).up == DueOfAll(agents).output && RawOfAll(agents).down == DueOfAll(agents).input
  {
    if agents != [] {
      RawIsDue(agents[..|agents| - 1]);
      assert RawsOf(agents)[..|agents| - 1] == RawsOf(agents[..|agents| - 1]);
      Agents.SumsOf(agents[|agents| - 1]);
    }
  }

  lemma EmptyIsConsistent(site: Site, tenths: nat, w: World, nothing: Raw)
    requires w.ops == [] && |w.agents| == |site.names| && nothing == RawReports(w.ops, site.id)
    requires forall k :: 0 <= k < |w.agents| ==> Agents.Conserved(w.agents[k]) && RawOf(w.agents[k]) == nothing
    ensures Consistent(site, tenths, w)
  {
    assert SteadyRatio(w.ops, site.id, tenths) && Join(nothing, nothing) == nothing by { NothingAccepted(w.ops, site.id, tenths, nothing); }
    assert RawOfAll(w.agents) == nothing by { NothingAtFirst(RawsOf(w.agents), nothing); }
  }

  lemma StartIsConsistent(site: Site, tenths: nat, w: World, nothing: Raw)
    requires w == Start(site) && nothing == RawReports(w.ops, site.id)
    ensures Consistent(site, tenths, w)
  {
    assert nothing == Raw(0, 0, 0) by { NothingAccepted(w.ops, site.id, tenths, nothing); }
    forall k | 0 <= k < |w.agents| ensures Agents.Conserved(w.agents[k]) && RawOf(w.agents[k]) == nothing {
      StartConserves(w.agents[k], nothing);
    }
    EmptyIsConsistent(site, tenths, w, nothing);
  }

  lemma StartConserves(s: Agents.State, nothing: Raw)
    requires s == Agents.START && nothing == Raw(0, 0, 0)
    ensures Agents.Conserved(s) && RawOf(s) == nothing
  {
    Agents.ReachedConserves(s, [], s);
  }

  lemma NothingAccepted(ops: seq<Op>, id: nat, tenths: nat, nothing: Raw)
    requires ops == [] && nothing == RawReports(ops, id)
    ensures SteadyRatio(ops, id, tenths) && nothing == Raw(0, 0, 0) && Join(nothing, nothing) == nothing
  {
  }

  lemma ConsistentLedger(site: Site, tenths: nat, w: World, f: ForwardRow)
    requires Consistent(site, tenths, w) && site.id in Run(NEW, w.ops).forwards && f == Run(NEW, w.ops).forwards[site.id]
    ensures var due, n := DueOfAll(w.agents), RawOfAll(w.agents).count;
            Near(due.output, f.inFlow, n, tenths) && Near(due.input, f.outFlow, n, tenths)
  {
    assert ForwardCredits(w.ops, site.id) == Amount(f.inFlow, f.outFlow) by { ForwardLedger(w.ops, site.id); }
    RawIsDue(w.agents);
    RoundingIsBounded(w.ops, site.id, tenths);
  }

  // In every joint run ten times the forward's ledger is within five, for each report booked,
  // of the ratio in tenths times the bytes due, in both directions, and exactly that for a
  // whole ratio: from the wire to the ledger only rounding and unacknowledged reports count.
  lemma LedgerFollowsTraffic(site: Site, tenths: nat, events: seq<Event>, w: World)
    requires IsRun(site, tenths, Start(site), events) && w == After(site, tenths, Start(site), events)
    ensures var db, due, n := Run(NEW, w.ops), DueOfAll(w.agents), RawOfAll(w.agents).count;
            site.id in db.forwards ==>
              && Near(due.output, db.forwards[site.id].inFlow, n, tenths)
              && Near(due.input, db.forwards[site.id].outFlow, n, tenths)
  {
    StartIsConsistent(site, tenths, Start(site), RawReports([], site.id));
    RunIsConsistent(site, tenths, Start(site), events);
    if site.id in Run(NEW, w.ops).forwards { ConsistentLedger(site, tenths, w, Run(NEW, w.ops).forwards[site.id]); }
  }
}
