/** The three traffic ledgers: forward, owner and permission. */
module Ledgers {
  import opened Text
  import opened PanelTables
  import opened PortExclusivity

  // ---- one report ----

  lemma EnforceFrame(db: Tables, id: nat)
    requires id in db.forwards
    ensures var after := Enforce(db, id);
            && after.users == db.users && after.permissions == db.permissions && after.tunnels == db.tunnels && after.nextUser == db.nextUser
            && (forall f :: f in after.forwards <==> f in db.forwards)
            && (forall f :: f in db.forwards ==> after.forwards[f] == db.forwards[f].(status := after.forwards[f].status))
  {
  }

  // An accepted report adds the same two amounts to the forward, to its owner and to the
  // owner's permission on the tunnel, if there is one, and to nothing else; any other
  // report changes no table at all.
  lemma ReportMovesLedgersTogether(db: Tables, r: Report, node: nat)
    ensures var b, after := Booked(db, r, node), ApplyReport(db, r, node);
            && (b.None? ==> after == db)
            && (b.Some? ==>
                  var (id, up, down) := b.value;
                  var f := db.forwards[id];
                  && (up > 0 || down > 0) && f.owner in db.users
                  && after.forwards.Keys == db.forwards.Keys && after.users.Keys == db.users.Keys && after.permissions.Keys == db.permissions.Keys
                  && (forall g :: g in db.forwards ==> Added(db.forwards[g].inFlow, db.forwards[g].outFlow, after.forwards[g].inFlow, after.forwards[g].outFlow, g == id, up, down))
                  && (forall u :: u in db.users ==> Added(db.users[u].inFlow, db.users[u].outFlow, after.users[u].inFlow, after.users[u].outFlow, u == f.owner, up, down))
                  && (forall p :: p in db.permissions ==> Added(db.permissions[p].inFlow, db.permissions[p].outFlow, after.permissions[p].inFlow, after.permissions[p].outFlow,
                                                                 db.permissions[p].owner == f.owner && db.permissions[p].tunnel == f.tunnel, up, down)))
  {
    var b := Booked(db, r, node);
    if b.Some? {
      var (id, up, down) := b.value;
      EnforceFrame(Credit(db, id, up, down), id);
      assert Enforce(Credit(db, id, up, down), id).forwards.Keys == db.forwards.Keys;
    }
  }

  predicate Added(inBefore: int, outBefore: int, inAfter: int, outAfter: int, concerned: bool, up: nat, down: nat) {
    if concerned then inAfter == inBefore + up && outAfter == outBefore + down else inAfter == inBefore && outAfter == outBefore
  }

  // ---- whole runs ----

  datatype Amount = Amount(up: int, down: int)
  const ZERO := Amount(0, 0)

  function Plus(a: Amount, up: int, down: int): Amount { Amount(a.up + up, a.down + down) }

  // What the last step of a run books, if it is an accepted report.
  function LastBooking(ops: seq<Op>): Option<(nat, nat, nat)>
    requires ops != []
  {
    match ops[|ops| - 1]
    case OpReport(r, node) => Booked(Run(NEW, ops[..|ops| - 1]), r, node)
    case _ => None
  }

  // All credits to a forward, all credits to a user or permission since its last reset.
  function ForwardCredits(ops: seq<Op>, id: nat): Amount {
    if ops == [] then ZERO
    else
      var before, b := ForwardCredits(ops[..|ops| - 1], id), LastBooking(ops);
      if b.Some? && b.value.0 == id then Plus(before, b.value.1, b.value.2) else before
  }

  function UserCredits(ops: seq<Op>, u: nat): Amount {
    if ops == [] then ZERO
    else if ops[|ops| - 1] == OpResetUser(u) then ZERO
    else
      var before, b, db := UserCredits(ops[..|ops| - 1], u), LastBooking(ops), Run(NEW, ops[..|ops| - 1]);
      if b.Some? && db.forwards[b.value.0].owner == u then Plus(before, b.value.1, b.value.2) else before
  }

  function PermissionCredits(ops: seq<Op>, p: nat): Amount {
    if ops == [] then ZERO
    else if ops[|ops| - 1] == OpResetPermission(p) then ZERO
    else
      var before, b, db := PermissionCredits(ops[..|ops| - 1], p), LastBooking(ops), Run(NEW, ops[..|ops| - 1]);
      if b.Some? && p in db.permissions && db.permissions[p].owner == db.forwards[b.value.0].owner && db.permissions[p].tunnel == db.forwards[b.value.0].tunnel
      then Plus(before, b.value.1, b.value.2) else before
  }

  function BookingOf(db: Tables, op: Op): Option<(nat, nat, nat)> {
    if op.OpReport? then Booked(db, op.report, op.node) else None
  }

  // ---- forwards ----

  predicate EmptyForward(db: Tables, f: nat) { f in db.forwards && db.forwards[f].inFlow == 0 && db.forwards[f].outFlow == 0 }

  // A step adds its booking to the row, keeps it, or makes it, empty, under the next number.
  ghost predicate ForwardStep(db: Tables, after: Tables, b: Option<(nat, nat, nat)>, f: nat) {
    && after.nextForward >= db.nextForward
    && (f in after.forwards ==>
          if f in db.forwards
          then b.Some? ==> Added(db.forwards[f].inFlow, db.forwards[f].outFlow, after.forwards[f].inFlow, after.forwards[f].outFlow, f == b.value.0, b.value.1, b.value.2)
          else db.nextForward <= f < after.nextForward && EmptyForward(after, f))
    && (f in after.forwards && f in db.forwards && b.None? ==> after.forwards[f].inFlow == db.forwards[f].inFlow && after.forwards[f].outFlow == db.forwards[f].outFlow)
  }

  lemma ReconcileForward(db: Tables, tunnel: nat, acks: Acks, f: nat)
    ensures var after := Reconcile(db, tunnel, acks);
            after.nextForward == db.nextForward && (f in after.forwards <==> f in db.forwards)
            && (f in db.forwards ==> after.forwards[f].inFlow == db.forwards[f].inFlow && after.forwards[f].outFlow == db.forwards[f].outFlow)
  {
  }

  lemma UpdateOnForward(db: Tables, r: UpdateRequest, caller: Caller, acks: Acks, f: nat)
    ensures ForwardStep(db, UpdateForward(db, r, caller, acks).db, None, f)
  {
  }

  lemma CreateOnForward(db: Tables, r: CreateRequest, caller: Caller, provisioned: bool, f: nat)
    requires db.nextForward !in db.forwards
    ensures ForwardStep(db, CreateForward(db, r, caller, provisioned).db, None, f)
  {
    CreateShape(db, r, caller, provisioned);
  }

  lemma UpdateTunnelOnForward(db: Tables, op: Op, f: nat)
    requires op.OpUpdateTunnel?
    ensures ForwardStep(db, Step(db, op), None, f)
  {
    if op.id in db.tunnels {
      ReconcileForward(SavedTunnel(db, op.id, op.oneWay, op.limitGb, op.tenths), op.id, op.acks, f);
    }
  }

  // The requests that leave the flows of forwards alone.
  lemma RestOnForward(db: Tables, op: Op, f: nat)
    requires !op.OpCreateForward? && !op.OpUpdateForward? && !op.OpUpdateTunnel? && !op.OpReport?
    ensures ForwardStep(db, Step(db, op), None, f)
  {
    if AboutUsers(op) { AboutUsersFrame(db, op); }
  }

  lemma StepOnForward(db: Tables, op: Op, f: nat)
    requires db.nextForward !in db.forwards
    ensures ForwardStep(db, Step(db, op), BookingOf(db, op), f)
  {
    match op
    case OpCreateForward(r, caller, provisioned) => CreateOnForward(db, r, caller, provisioned, f);
    case OpUpdateForward(r, caller, acks) => UpdateOnForward(db, r, caller, acks, f);
    case OpUpdateTunnel(id, oneWay, limitGb, tenths, synced, acks) => UpdateTunnelOnForward(db, op, f);
    case OpReport(r, node) => ReportMovesLedgersTogether(db, r, node); ReportKeepsNumbers(db, r, node);
    case _ => RestOnForward(db, op, f);
  }

  lemma ReportKeepsNumbers(db: Tables, r: Report, node: nat)
    ensures var after := ApplyReport(db, r, node);
            after.nextForward == db.nextForward && after.nextUser == db.nextUser && after.nextPermission == db.nextPermission
  {
  }

  // In every run a forward's ledger equals the credits it received; it is never reset.
  lemma {:induction false} ForwardLedger(ops: seq<Op>, f: nat)
    ensures var db := Run(NEW, ops);
            && (f in db.forwards ==> f < db.nextForward && ForwardCredits(ops, f) == Amount(db.forwards[f].inFlow, db.forwards[f].outFlow))
            && (f >= db.nextForward ==> ForwardCredits(ops, f) == ZERO)
  {
    if ops != [] {
      var init := ops[..|ops| - 1];
      var db := Run(NEW, init);
      ForwardLedger(init, f);
      ForwardLedger(init, db.nextForward);
      StepOnForward(db, ops[|ops| - 1], f);
      assert LastBooking(ops) == BookingOf(db, ops[|ops| - 1]);
      BookedExists(init, LastBooking(ops));
    }
  }

  lemma BookedExists(init: seq<Op>, b: Option<(nat, nat, nat)>)
    requires b.Some? ==> b.value.0 in Run(NEW, init).forwards
    ensures b.Some? ==> b.value.0 < Run(NEW, init).nextForward
  {
    PortsNeverClash(init);
  }

  // ---- users ----

  ghost predicate UserStep(db: Tables, after: Tables, op: Op, u: nat) {
    var b := BookingOf(db, op);
    && after.nextUser >= db.nextUser
    && (u in after.users ==>
          if u !in db.users then db.nextUser <= u < after.nextUser && after.users[u].inFlow == 0 && after.users[u].outFlow == 0
          else if op == OpResetUser(u) then after.users[u].inFlow == 0 && after.users[u].outFlow == 0
          else if b.Some? && b.value.0 in db.forwards then
            Added(db.users[u].inFlow, db.users[u].outFlow, after.users[u].inFlow, after.users[u].outFlow, db.forwards[b.value.0].owner == u, b.value.1, b.value.2)
          else after.users[u].inFlow == db.users[u].inFlow && after.users[u].outFlow == db.users[u].outFlow)
  }

  lemma UsersUntouched(db: Tables, op: Op)
    requires !op.OpReport? && !op.OpCreateUser? && !op.OpDeleteUser? && !op.OpResetUser?
    ensures Step(db, op).users == db.users && Step(db, op).nextUser == db.nextUser
  {
  }

  lemma StepOnUser(db: Tables, op: Op, u: nat)
    requires db.nextUser !in db.users
    ensures UserStep(db, Step(db, op), op, u)
  {
    if op.OpReport? {
      ReportMovesLedgersTogether(db, op.report, op.node);
      ReportKeepsNumbers(db, op.report, op.node);
    } else if !op.OpCreateUser? && !op.OpDeleteUser? && !op.OpResetUser? {
      UsersUntouched(db, op);
    }
  }

  // In every run a user's ledger equals the credits of the user's forwards since the
  // account was created or last reset.
  lemma {:induction false} UserLedger(ops: seq<Op>, u: nat)
    ensures var db := Run(NEW, ops);
            && (u in db.users ==> u < db.nextUser && UserCredits(ops, u) == Amount(db.users[u].inFlow, db.users[u].outFlow))
            && (u >= db.nextUser ==> UserCredits(ops, u) == ZERO)
  {
    if ops != [] {
      var init := ops[..|ops| - 1];
      var db, op := Run(NEW, init), ops[|ops| - 1];
      UserLedger(init, u);
      UserLedger(init, db.nextUser);
      StepOnUser(db, op, u);
      assert LastBooking(ops) == BookingOf(db, op);
      if LastBooking(ops).Some? { UserLedger(init, db.forwards[LastBooking(ops).value.0].owner); }
    }
  }

  // ---- permissions ----

  ghost predicate PermissionStep(db: Tables, after: Tables, op: Op, p: nat) {
    var b := BookingOf(db, op);
    && after.nextPermission >= db.nextPermission
    && (p in after.permissions ==>
          if p !in db.permissions then db.nextPermission <= p < after.nextPermission && after.permissions[p].inFlow == 0 && after.permissions[p].outFlow == 0
          else if op == OpResetPermission(p) then after.permissions[p].inFlow == 0 && after.permissions[p].outFlow == 0
          else if b.Some? && b.value.0 in db.forwards then
            Added(db.permissions[p].inFlow, db.permissions[p].outFlow, after.permissions[p].inFlow, after.permissions[p].outFlow,
                  db.permissions[p].owner == db.forwards[b.value.0].owner && db.permissions[p].tunnel == db.forwards[b.value.0].tunnel, b.value.1, b.value.2)
          else after.permissions[p].inFlow == db.permissions[p].inFlow && after.permissions[p].outFlow == db.permissions[p].outFlow)
  }

  predicate TouchesPermissions(op: Op) {
    op.OpReport? || op.OpDeleteUser? || op.OpAssign? || op.OpSetPermission? || op.OpRemovePermission? || op.OpResetPermission?
  }

  lemma PermissionsUntouched(db: Tables, op: Op)
    requires !TouchesPermissions(op)
    ensures Step(db, op).permissions == db.permissions && Step(db, op).nextPermission == db.nextPermission
  {
  }

  lemma StepOnPermission(db: Tables, op: Op, p: nat)
    requires db.nextPermission !in db.permissions
    ensures PermissionStep(db, Step(db, op), op, p)
  {
    if op.OpReport? {
      ReportOnPermission(db, op, p);
    } else if !TouchesPermissions(op) {
      PermissionsUntouched(db, op);
    }
  }

  lemma ReportOnPermission(db: Tables, op: Op, p: nat)
    requires op.OpReport?
    ensures PermissionStep(db, Step(db, op), op, p)
  {
    ReportMovesLedgersTogether(db, op.report, op.node);
    ReportKeepsNumbers(db, op.report, op.node);
  }

  // In every run a permission's ledger equals the credits of its owner's forwards on its
  // tunnel since it was assigned or last reset.
  lemma {:induction false} PermissionLedger(ops: seq<Op>, p: nat)
    ensures var db := Run(NEW, ops);
            && (p in db.permissions ==> p < db.nextPermission && PermissionCredits(ops, p) == Amount(db.permissions[p].inFlow, db.permissions[p].outFlow))
            && (p >= db.nextPermission ==> PermissionCredits(ops, p) == ZERO)
  {
    if ops != [] {
      var init := ops[..|ops| - 1];
      var db, op := Run(NEW, init), ops[|ops| - 1];
      PermissionLedger(init, p);
      PermissionLedger(init, db.nextPermission);
      StepOnPermission(db, op, p);
      assert LastBooking(ops) == BookingOf(db, op);
    }
  }

  // ---- rounding ----

  // Reports the panel accepts for a forward: how many, and their raw bytes.
  datatype Raw = Raw(count: nat, up: int, down: int)

  function RawReports(ops: seq<Op>, id: nat): Raw {
    if ops == [] then Raw(0, 0, 0)
    else
      var before := RawReports(ops[..|ops| - 1], id);
      match ops[|ops| - 1]
      case OpReport(r, node) =>
        if BookedOn(Run(NEW, ops[..|ops| - 1]), r.service, node) == Some(id) then Raw(before.count + 1, before.up + r.up, before.down + r.down) else before
      case _ => before
  }

  // All reports accepted for the forward carry non-negative bytes and meet this ratio.
  ghost predicate SteadyRatio(ops: seq<Op>, id: nat, tenths: nat) {
    ops != [] ==>
      && SteadyRatio(ops[..|ops| - 1], id, tenths)
      && var db := Run(NEW, ops[..|ops| - 1]);
         match ops[|ops| - 1]
         case OpReport(r, node) => BookedOn(db, r.service, node) == Some(id) ==> r.up >= 0 && r.down >= 0 && db.tunnels[db.forwards[id].tunnel].tenths == tenths
         case _ => true
  }

  lemma ScaleError(bytes: nat, tenths: nat)
    ensures -5 <= 10 * Scale(bytes, tenths) - tenths * bytes <= 5
    ensures tenths % 10 == 0 ==> 10 * Scale(bytes, tenths) == tenths * bytes
  {
    var scaled := bytes * tenths;
    assert scaled >= 0;
    if tenths % 10 == 0 {
      assert scaled == 10 * (bytes * (tenths / 10));
    }
  }

  // The ledger is within count halves of ratio times raw bytes, and exact for a whole ratio.
  predicate Near(raw: int, booked: int, count: nat, tenths: nat) {
    -5 * count <= 10 * booked - tenths * raw <= 5 * count && (tenths % 10 == 0 ==> 10 * booked == tenths * raw)
  }

  lemma RoundOne(raw: int, booked: int, count: nat, bytes: nat, tenths: nat)
    requires Near(raw, booked, count, tenths)
    ensures Near(raw + bytes, booked + Scale(bytes, tenths), count + 1, tenths)
  {
    ScaleError(bytes, tenths);
    assert tenths * (raw + bytes) == tenths * raw + tenths * bytes;
  }

  // A report booked as nothing still counts as one of the n.
  lemma BookedScale(ops: seq<Op>, id: nat, tenths: nat)
    requires ops != [] && SteadyRatio(ops, id, tenths)
    ensures var op, before, now := ops[|ops| - 1], ForwardCredits(ops[..|ops| - 1], id), ForwardCredits(ops, id);
            if op.OpReport? && BookedOn(Run(NEW, ops[..|ops| - 1]), op.report.service, op.node) == Some(id)
            then op.report.up >= 0 && op.report.down >= 0 && now == Plus(before, Scale(op.report.up, tenths), Scale(op.report.down, tenths))
            else now == before
  {
  }

  lemma RawStep(ops: seq<Op>, id: nat)
    requires ops != []
    ensures var op, before, now := ops[|ops| - 1], RawReports(ops[..|ops| - 1], id), RawReports(ops, id);
            if op.OpReport? && BookedOn(Run(NEW, ops[..|ops| - 1]), op.report.service, op.node) == Some(id)
            then now == Raw(before.count + 1, before.up + op.report.up, before.down + op.report.down)
            else now == before
  {
  }

  predicate BothNear(raw: Raw, booked: Amount, tenths: nat) {
    Near(raw.up, booked.up, raw.count, tenths) && Near(raw.down, booked.down, raw.count, tenths)
  }

  lemma RoundBoth(raw: Raw, booked: Amount, up: nat, down: nat, tenths: nat)
    requires BothNear(raw, booked, tenths)
    ensures BothNear(Raw(raw.count + 1, raw.up + up, raw.down + down), Plus(booked, Scale(up, tenths), Scale(down, tenths)), tenths)
  {
    RoundOne(raw.up, booked.up, raw.count, up, tenths);
    RoundOne(raw.down, booked.down, raw.count, down, tenths);
  }

  // After n accepted reports a forward's ledger is within n/2 of ratio times raw bytes in
  // either direction, and exact when the ratio is a whole number.
  lemma {:induction false} RoundingIsBounded(ops: seq<Op>, id: nat, tenths: nat)
    requires SteadyRatio(ops, id, tenths)
    ensures BothNear(RawReports(ops, id), ForwardCredits(ops, id), tenths)
  {
    if ops != [] {
      var init, op := ops[..|ops| - 1], ops[|ops| - 1];
      RoundingIsBounded(init, id, tenths);
      BookedScale(ops, id, tenths);
      RawStep(ops, id);
      if op.OpReport? && BookedOn(Run(NEW, init), op.report.service, op.node) == Some(id) {
        RoundBoth(RawReports(init, id), ForwardCredits(init, id), op.report.up, op.report.down, tenths);
      }
    }
  }
}
