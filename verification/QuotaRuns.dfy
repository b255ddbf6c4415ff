/** The quota machine over whole runs. */
module QuotaRuns {
  import opened Text
  import opened PanelTables
  import opened PortExclusivity
  import opened QuotaMachine

  // A row a reconciliation of the tunnel has to pause.
  predicate MustPause(db: Tables, tunnel: nat, id: nat) {
    id in db.forwards && db.forwards[id].tunnel == tunnel && db.forwards[id].status == RUNNING && Exceeded(db, id)
  }

  // The reporting forward is not running, its report takes the tunnel to the limit, and a
  // sibling is running.
  ghost predicate LateReport(db: Tables, id: nat, up: nat, down: nat)
    requires id in db.forwards
  {
    && db.forwards[id].status != RUNNING && TunnelQuotaReached(Credit(db, id, up, down), db.forwards[id].tunnel)
    && exists other :: other in db.forwards && db.forwards[other].tunnel == db.forwards[id].tunnel && db.forwards[other].status == RUNNING
  }

  // The requests after which a forward keeps running over a limit.
  ghost predicate LosesQuota(db: Tables, op: Op) {
    match op
    case OpReport(r, node) => var b := Booked(db, r, node); b.Some? && LateReport(db, b.value.0, b.value.1, b.value.2)
    case OpUpdateForward(r, caller, acks) =>
      UpdateRefusal(db, r, caller).None? && exists id :: MustPause(SavedForward(db, r), db.forwards[r.id].tunnel, id) && !acks(id)
    case OpUpdateTunnel(t, oneWay, limitGb, tenths, synced, acks) =>
      && limitGb >= 0 && t in db.tunnels
      && exists id :: MustPause(SavedTunnel(db, t, oneWay, limitGb, tenths), t, id) && !(synced && acks(id))
    case _ => false
  }

  // The assumptions of an orderly run: reports come from running forwards, synchronisations
  // succeed, and the nodes acknowledge the pauses that updates ask of them.
  ghost predicate Disciplined(db: Tables, op: Op) {
    match op
    case OpReport(r, node) => var b := Booked(db, r, node); b.Some? ==> db.forwards[b.value.0].status == RUNNING
    case OpUpdateForward(r, _, acks) =>
      r.id in db.forwards ==> forall id :: MustPause(SavedForward(db, r), db.forwards[r.id].tunnel, id) ==> acks(id)
    case OpUpdateTunnel(t, oneWay, limitGb, tenths, synced, acks) =>
      synced && forall id :: MustPause(SavedTunnel(db, t, oneWay, limitGb, tenths), t, id) ==> acks(id)
    case _ => true
  }

  // Rows kept as they are, usage not higher, tunnels of the kept rows unchanged.
  ghost predicate Calmer(db: Tables, after: Tables) {
    && (forall id :: id in after.forwards ==> id in db.forwards && after.forwards[id] == db.forwards[id])
    && (forall id :: id in after.forwards ==>
          var t := db.forwards[id].tunnel; t in db.tunnels && t in after.tunnels && after.tunnels[t] == db.tunnels[t])
    && after.nextForward == db.nextForward
  }

  lemma CalmerKeeps(db: Tables, after: Tables)
    requires Inv(db) && Calmer(db, after)
    ensures Counted(after) && QuotaKept(after)
  {
    forall id | id in after.forwards && after.forwards[id].status == RUNNING ensures !Exceeded(after, id) {
      var t := db.forwards[id].tunnel;
      assert GoodForward(db, db.forwards[id]);
      UsageShrinks(db.forwards, after.forwards, t, db.tunnels[t].oneWay, db.nextForward);
    }
  }

  // ---- creating ----

  lemma UsageOfNewRow(db: Tables, after: Tables, t: nat)
    requires WellFormed(db) && t in db.tunnels && after.tunnels == db.tunnels && after.nextForward == db.nextForward + 1
    requires after.forwards == db.forwards
             || (db.nextForward in after.forwards && after.forwards == db.forwards[db.nextForward := after.forwards[db.nextForward]]
                 && after.forwards[db.nextForward].inFlow == 0 && after.forwards[db.nextForward].outFlow == 0)
    ensures TunnelUsage(after, t) == TunnelUsage(db, t)
  {
    UsageSame(db.forwards, after.forwards, t, db.tunnels[t].oneWay, db.nextForward);
    assert db.nextForward !in db.forwards;
  }

  lemma CreateKeepsQuota(db: Tables, r: CreateRequest, caller: Caller, provisioned: bool)
    requires Inv(db)
    ensures var after := CreateForward(db, r, caller, provisioned).db; Counted(after) && QuotaKept(after)
  {
    var result := CreateForward(db, r, caller, provisioned);
    var after := result.db;
    CreateShape(db, r, caller, provisioned);
    assert db.nextForward !in db.forwards;
    if after != db {
      forall id | id in after.forwards && after.forwards[id].status == RUNNING ensures !Exceeded(after, id) {
        var t := after.forwards[id].tunnel;
        if id in db.forwards { assert GoodForward(db, db.forwards[id]); }
        UsageOfNewRow(db, after, t);
        if id !in db.forwards { assert !TunnelQuotaReached(db, r.tunnel); }
      }
    }
  }

  // ---- updating ----

  lemma SavedRow(db: Tables, id: nat, g: ForwardRow, other: nat)
    requires WellFormed(db) && id in db.forwards && g.tunnel == db.forwards[id].tunnel && SameFlows(db.forwards[id], g)
    requires other in db.forwards && other != id
    ensures Exceeded(db.(forwards := db.forwards[id := g]), other) <==> Exceeded(db, other)
  {
    var after := db.(forwards := db.forwards[id := g]);
    var t := db.forwards[other].tunnel;
    assert GoodForward(db, db.forwards[other]);
    UsageSame(db.forwards, after.forwards, t, db.tunnels[t].oneWay, db.nextForward);
  }

  lemma UpdateKeepsQuotaExactly(db: Tables, r: UpdateRequest, caller: Caller, acks: Acks)
    requires Inv(db)
    ensures var after := UpdateForward(db, r, caller, acks).db;
            Counted(after) && (QuotaKept(after) <==> !LosesQuota(db, OpUpdateForward(r, caller, acks)))
  {
    if UpdateRefusal(db, r, caller).None? {
      var tunnel, saved := db.forwards[r.id].tunnel, SavedForward(db, r);
      forall id | id in saved.forwards && saved.forwards[id].status == RUNNING && saved.forwards[id].tunnel != tunnel ensures !Exceeded(saved, id) {
        SavedRow(db, r.id, saved.forwards[r.id], id);
      }
      ReconcileKeepsQuotaExactly(saved, tunnel, acks);
    }
  }

  lemma ReconcileKeepsQuotaExactly(saved: Tables, tunnel: nat, acks: Acks)
    requires Counted(saved) && tunnel in saved.tunnels
    requires forall id :: id in saved.forwards && saved.forwards[id].status == RUNNING && saved.forwards[id].tunnel != tunnel ==> !Exceeded(saved, id)
    ensures Counted(Reconcile(saved, tunnel, acks))
    ensures QuotaKept(Reconcile(saved, tunnel, acks)) <==> forall id :: MustPause(saved, tunnel, id) ==> acks(id)
  {
    ReconcileEnforcesExactly(saved, tunnel, acks);
    ReconcileCounted(saved, tunnel, acks);
  }

  lemma SavedTunnelRows(db: Tables, t: nat, oneWay: bool, limitGb: int, tenths: int)
    requires Inv(db) && t in db.tunnels
    ensures var saved := SavedTunnel(db, t, oneWay, limitGb, tenths);
            Counted(saved)
            && forall id :: id in saved.forwards && saved.forwards[id].status == RUNNING && saved.forwards[id].tunnel != t ==> !Exceeded(saved, id)
  {
    assert forall id :: id in db.forwards ==> GoodForward(db, db.forwards[id]);
  }

  lemma UpdateTunnelKeepsQuotaExactly(db: Tables, t: nat, oneWay: bool, limitGb: int, tenths: int, synced: bool, acks: Acks)
    requires Inv(db)
    ensures var after := UpdateTunnel(db, t, oneWay, limitGb, tenths, synced, acks);
            Counted(after) && (QuotaKept(after) <==> !LosesQuota(db, OpUpdateTunnel(t, oneWay, limitGb, tenths, synced, acks)))
  {
    if limitGb >= 0 && t in db.tunnels {
      var saved := SavedTunnel(db, t, oneWay, limitGb, tenths);
      SavedTunnelRows(db, t, oneWay, limitGb, tenths);
      if synced { ReconcileKeepsQuotaExactly(saved, t, acks); } else { UnsyncedKeepsExactly(saved, t); }
    }
  }

  lemma UnsyncedKeepsExactly(saved: Tables, t: nat)
    requires forall id :: id in saved.forwards && saved.forwards[id].status == RUNNING && saved.forwards[id].tunnel != t ==> !Exceeded(saved, id)
    ensures QuotaKept(saved) <==> forall id :: !MustPause(saved, t, id)
  {
    if forall id :: !MustPause(saved, t, id) {
      forall id | id in saved.forwards && saved.forwards[id].status == RUNNING ensures !Exceeded(saved, id) { assert !MustPause(saved, t, id); }
    }
  }

  // ---- reports and status changes ----

  lemma ReportCounted(db: Tables, id: nat, up: nat, down: nat)
    requires Counted(db) && id in db.forwards
    ensures Counted(Enforce(Credit(db, id, up, down), id))
  {
    assert Counted(Credit(db, id, up, down));
  }

  lemma ReportKeepsQuota(db: Tables, r: Report, node: nat)
    requires Inv(db)
    ensures Counted(ApplyReport(db, r, node)) && (QuotaKept(ApplyReport(db, r, node)) <==> !LosesQuota(db, OpReport(r, node)))
  {
    var b := Booked(db, r, node);
    if b.Some? {
      ReportKeepsQuotaExactly(db, b.value.0, b.value.1, b.value.2);
      ReportCounted(db, b.value.0, b.value.1, b.value.2);
    }
  }

  lemma ChangeStatusKeepsQuota(db: Tables, id: nat, resume: bool, ack: bool)
    requires Inv(db)
    ensures var after := ChangeStatus(db, id, resume, ack).db; Counted(after) && QuotaKept(after)
  {
    var after := ChangeStatus(db, id, resume, ack).db;
    if after != db {
      forall other ensures Exceeded(after, other) <==> Exceeded(db, other) { StatusKeepsExceeded(db, after, other); }
    }
  }

  lemma SameRowsKeep(db: Tables, after: Tables)
    requires Inv(db) && after.forwards == db.forwards && after.nextForward == db.nextForward
    requires forall id :: id in db.forwards && db.forwards[id].tunnel in db.tunnels ==>
               db.forwards[id].tunnel in after.tunnels && after.tunnels[db.forwards[id].tunnel] == db.tunnels[db.forwards[id].tunnel]
    ensures Counted(after) && QuotaKept(after)
  {
  }

  lemma FewerRowsKeep(db: Tables, after: Tables)
    requires Inv(db) && after.tunnels == db.tunnels && after.nextForward == db.nextForward
    requires forall id :: id in after.forwards ==> id in db.forwards && after.forwards[id] == db.forwards[id]
    ensures Counted(after) && QuotaKept(after)
  {
    assert forall id :: id in db.forwards ==> GoodForward(db, db.forwards[id]);
    CalmerKeeps(db, after);
  }

  lemma RestKeepsQuota(db: Tables, op: Op)
    requires Inv(db)
    requires !op.OpCreateForward? && !op.OpUpdateForward? && !op.OpReport? && !op.OpUpdateTunnel? && !op.OpChangeStatus?
    ensures Counted(Step(db, op)) && QuotaKept(Step(db, op))
  {
    if op.OpDeleteForward? || op.OpDeleteUser? {
      FewerRows(db, op);
      FewerRowsKeep(db, Step(db, op));
    } else {
      SameRows(db, op);
      SameRowsKeep(db, Step(db, op));
    }
  }

  lemma FewerRows(db: Tables, op: Op)
    requires op.OpDeleteForward? || op.OpDeleteUser?
    ensures var after := Step(db, op);
            after.tunnels == db.tunnels && after.nextForward == db.nextForward
            && forall id :: id in after.forwards ==> id in db.forwards && after.forwards[id] == db.forwards[id]
  {
  }

  lemma SameRows(db: Tables, op: Op)
    requires forall t :: t in db.tunnels ==> t < db.nextTunnel
    requires !op.OpCreateForward? && !op.OpUpdateForward? && !op.OpReport? && !op.OpUpdateTunnel? && !op.OpChangeStatus?
    requires !op.OpDeleteForward? && !op.OpDeleteUser?
    ensures var after := Step(db, op);
            after.forwards == db.forwards && after.nextForward == db.nextForward
            && forall id :: id in db.forwards && db.forwards[id].tunnel in db.tunnels ==>
                 db.forwards[id].tunnel in after.tunnels && after.tunnels[db.forwards[id].tunnel] == db.tunnels[db.forwards[id].tunnel]
  {
    if AboutUsers(op) { AboutUsersFrame(db, op); }
  }

  // From tables that keep the quota, a request keeps it exactly when it is none of these:
  // a late report over a running sibling, or an update that needs a pause it does not get.
  lemma StepKeepsQuotaExactly(db: Tables, op: Op)
    requires Inv(db) && Exclusive(db)
    ensures WellFormed(Step(db, op)) && Counted(Step(db, op))
    ensures QuotaKept(Step(db, op)) <==> !LosesQuota(db, op)
  {
    StepKeepsPorts(db, op);
    match op
    case OpCreateForward(r, caller, provisioned) => CreateKeepsQuota(db, r, caller, provisioned);
    case OpUpdateForward(r, caller, acks) => UpdateKeepsQuotaExactly(db, r, caller, acks);
    case OpReport(r, node) => ReportKeepsQuota(db, r, node);
    case OpUpdateTunnel(t, oneWay, limitGb, tenths, synced, acks) => UpdateTunnelKeepsQuotaExactly(db, t, oneWay, limitGb, tenths, synced, acks);
    case OpChangeStatus(id, resume, ack) => ChangeStatusKeepsQuota(db, id, resume, ack);
    case _ => RestKeepsQuota(db, op);
  }

  ghost predicate KeepingRun(ops: seq<Op>) {
    ops != [] ==> KeepingRun(ops[..|ops| - 1]) && !LosesQuota(Run(NEW, ops[..|ops| - 1]), ops[|ops| - 1])
  }

  ghost predicate QuotaKeptThroughout(ops: seq<Op>) {
    QuotaKept(Run(NEW, ops)) && (ops != [] ==> QuotaKeptThroughout(ops[..|ops| - 1]))
  }

  // In every run, the quota is kept after each of its steps exactly when none of them loses it.
  lemma {:induction false} RunKeepsQuotaExactly(ops: seq<Op>)
    ensures QuotaKeptThroughout(ops) <==> KeepingRun(ops)
    ensures QuotaKeptThroughout(ops) ==> Inv(Run(NEW, ops))
  {
    if ops != [] {
      RunKeepsQuotaExactly(ops[..|ops| - 1]);
      PortsNeverClash(ops[..|ops| - 1]);
      if KeepingRun(ops[..|ops| - 1]) { StepKeepsQuotaExactly(Run(NEW, ops[..|ops| - 1]), ops[|ops| - 1]); }
    }
  }

  ghost predicate OrderlyRun(ops: seq<Op>) {
    ops != [] ==> OrderlyRun(ops[..|ops| - 1]) && Disciplined(Run(NEW, ops[..|ops| - 1]), ops[|ops| - 1])
  }

  lemma {:induction false} OrderlyRunsKeep(ops: seq<Op>)
    requires OrderlyRun(ops)
    ensures KeepingRun(ops)
  {
    if ops != [] { OrderlyRunsKeep(ops[..|ops| - 1]); }
  }

  // In an orderly run, whatever happens to resume commands, no forward rests at running over
  // a limit.
  lemma QuotaHoldsInOrderlyRuns(ops: seq<Op>)
    requires OrderlyRun(ops)
    ensures Inv(Run(NEW, ops))
    ensures forall id :: id in Run(NEW, ops).forwards && Run(NEW, ops).forwards[id].status == RUNNING
                         ==> !OwnQuotaReached(Run(NEW, ops), id) && !TunnelQuotaReached(Run(NEW, ops), Run(NEW, ops).forwards[id].tunnel)
  {
    OrderlyRunsKeep(ops);
    RunKeepsQuotaExactly(ops);
  }

  // ---- status transitions, in any run whatsoever ----

  // What one step may do to the status of a row that exists before and after it.
  ghost predicate LegalMove(db: Tables, op: Op, id: nat) {
    var after := Step(db, op);
    id in db.forwards && id in after.forwards ==>
      && (db.forwards[id].status == PAUSED && after.forwards[id].status != PAUSED ==> op == OpChangeStatus(id, true, true))
      && (db.forwards[id].status != RUNNING && after.forwards[id].status == RUNNING ==> !Exceeded(after, id))
      && (after.forwards[id].status == PAUSED && db.forwards[id].status != PAUSED ==> op == OpChangeStatus(id, false, true))
      && (after.forwards[id].status == EXHAUSTED && db.forwards[id].status != EXHAUSTED ==> db.forwards[id].status == RUNNING && Exceeded(after, id))
  }

  // Pausing by hand is left only by an explicit resume; running is re-entered only with both
  // quotas open and left for exhausted only with one reached; whatever the nodes answer and whoever reports.
  lemma MovesAreLegal(db: Tables, op: Op, id: nat)
    requires WellFormed(db)
    ensures LegalMove(db, op, id)
  {
    if id in db.forwards && id in Step(db, op).forwards {
      match op
      case OpCreateForward(r, caller, provisioned) => CreateMoves(db, op, id);
      case OpUpdateForward(r, caller, acks) => UpdateMoves(db, r, caller, acks, id);
      case OpReport(r, node) => ReportMoves(db, r, node, id);
      case OpUpdateTunnel(t, oneWay, limitGb, tenths, synced, acks) => UpdateTunnelMoves(db, op, id);
      case OpChangeStatus(i, resume, ack) => ChangeStatusMoves(db, op, id);
      case _ => RestMoves(db, op, id);
    }
  }

  lemma CreateMoves(db: Tables, op: Op, id: nat)
    requires WellFormed(db) && op.OpCreateForward? && id in db.forwards && id in Step(db, op).forwards
    ensures Step(db, op).forwards[id] == db.forwards[id]
  {
    CreateShape(db, op.create, op.caller, op.provisioned);
  }

  lemma ChangeStatusMoves(db: Tables, op: Op, id: nat)
    requires op.OpChangeStatus? && id in db.forwards && id in Step(db, op).forwards
    ensures LegalMove(db, op, id)
  {
    var after := Step(db, op);
    if after != db { StatusKeepsExceeded(db, after, id); }
  }

  // So in every run, at every step.
  lemma MovesAreLegalInRuns(ops: seq<Op>, k: nat, id: nat)
    requires k < |ops|
    ensures LegalMove(Run(NEW, ops[..k]), ops[k], id)
    ensures Step(Run(NEW, ops[..k]), ops[k]) == Run(NEW, ops[..k + 1])
  {
    PortsNeverClash(ops[..k]);
    MovesAreLegal(Run(NEW, ops[..k]), ops[k], id);
    assert ops[..k + 1][..k] == ops[..k];
  }

  lemma RestMoves(db: Tables, op: Op, id: nat)
    requires !op.OpCreateForward? && !op.OpUpdateForward? && !op.OpReport? && !op.OpUpdateTunnel? && !op.OpChangeStatus?
    requires id in db.forwards && id in Step(db, op).forwards
    ensures Step(db, op).forwards[id] == db.forwards[id]
  {
  }

  lemma UpdateMoves(db: Tables, r: UpdateRequest, caller: Caller, acks: Acks, id: nat)
    requires WellFormed(db) && id in db.forwards && id in UpdateForward(db, r, caller, acks).db.forwards
    ensures LegalMove(db, OpUpdateForward(r, caller, acks), id)
  {
    if UpdateRefusal(db, r, caller).None? {
      ReconcileKeepsUsage(SavedForward(db, r), db.forwards[r.id].tunnel, acks, id);
    }
  }

  lemma UpdateTunnelMoves(db: Tables, op: Op, id: nat)
    requires op.OpUpdateTunnel? && id in db.forwards && id in Step(db, op).forwards
    ensures LegalMove(db, op, id)
  {
    if op.limitGb >= 0 && op.id in db.tunnels && op.synced {
      ReconcileKeepsUsage(SavedTunnel(db, op.id, op.oneWay, op.limitGb, op.tenths), op.id, op.acks, id);
    }
  }

  lemma ReportMoves(db: Tables, r: Report, node: nat, id: nat)
    requires id in db.forwards && id in ApplyReport(db, r, node).forwards
    ensures var after := ApplyReport(db, r, node);
            || after.forwards[id].status == db.forwards[id].status
            || (db.forwards[id].status == RUNNING && after.forwards[id].status == EXHAUSTED && Exceeded(after, id))
  {
    ReportStopsExactly(db, r, node, id);
    var b := Booked(db, r, node);
    if b.Some? { assert ApplyReport(db, r, node).forwards[id].tunnel == db.forwards[id].tunnel; }
  }
}
