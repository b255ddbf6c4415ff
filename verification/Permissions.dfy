/** The permission that names a forward's services: which one creation and deletion find, and
    that it outlives the forward. */
module Permissions {
  import opened Text
  import opened Panel = PanelTables
  import PortExclusivity
  import Compensation
  import Fleet
  import opened Provisioning
  import opened RemovalRuns
  import Removal
  import RowWiring

  // One permission per owner and tunnel, all of them numbered.
  ghost predicate Sole(db: Tables) {
    && (forall p, q :: p in db.permissions && q in db.permissions && SameRights(db.permissions[p], db.permissions[q]) ==> p == q)
    && (forall p :: p in db.permissions ==> 1 <= p < db.nextPermission) && db.nextPermission >= 1
  }

  predicate SameRights(a: PermissionRow, b: PermissionRow) { a.owner == b.owner && a.tunnel == b.tunnel }

  predicate Grants(db: Tables, p: nat, owner: nat, tunnel: nat) {
    p in db.permissions && db.permissions[p].owner == owner && db.permissions[p].tunnel == tunnel
  }

  lemma ReportKeepsRights(db: Tables, r: Report, node: nat)
    ensures var after := ApplyReport(db, r, node);
            && after.nextPermission == db.nextPermission && after.permissions.Keys == db.permissions.Keys
            && forall p :: p in db.permissions ==> after.permissions[p] == db.permissions[p].(inFlow := after.permissions[p].inFlow, outFlow := after.permissions[p].outFlow)
  {
  }

  // What a request may do to the permissions besides their flows and their switch.
  ghost predicate RightsKept(db: Tables, after: Tables) {
    && after.nextPermission == db.nextPermission && after.permissions.Keys <= db.permissions.Keys
    && forall p :: p in after.permissions ==> SameRights(after.permissions[p], db.permissions[p])
  }

  lemma OtherRequestsKeepRights(db: Tables, op: Op)
    requires !op.OpAssign?
    ensures RightsKept(db, Panel.Step(db, op))
  {
    if op.OpReport? { ReportKeepsRights(db, op.report, op.node); }
  }

  lemma StepKeepsSole(db: Tables, op: Op)
    requires Sole(db)
    ensures Sole(Panel.Step(db, op))
  {
    if !op.OpAssign? { OtherRequestsKeepRights(db, op); }
  }

  lemma {:induction false} RunKeepsSole(ops: seq<Op>)
    ensures Sole(Panel.Run(NEW, ops))
  {
    if ops != [] {
      RunKeepsSole(ops[..|ops| - 1]);
      StepKeepsSole(Panel.Run(NEW, ops[..|ops| - 1]), ops[|ops| - 1]);
    }
  }

  // ---- a permission outlives the forwards made under it ----

  lemma GrantStays(db: Tables, op: Op, id: nat, p: nat)
    requires Sole(db) && id in db.forwards && Grants(db, p, db.forwards[id].owner, db.forwards[id].tunnel)
    ensures id in Panel.Step(db, op).forwards ==> Grants(Panel.Step(db, op), p, db.forwards[id].owner, db.forwards[id].tunnel)
  {
    if op.OpReport? { ReportKeepsRights(db, op.report, op.node); }
  }

  // What the joint machine does to the tables is a request, too.
  lemma StepIsRequest(w: World, e: Event)
    ensures Provisioning.Step(w, e).db == w.db || exists op :: Provisioning.Step(w, e).db == Panel.Step(w.db, op)
  {
    match e
    case Creates(r, caller, d, luck) => CreationIsRequest(w, r, caller, d, luck);
    case Deletes(id, caller, _, _) => assert Panel.Step(w.db, OpDeleteForward(id, caller)) == Panel.DeleteForward(w.db, id, caller).db;
    case Writes(op) =>
    case _ =>
  }

  lemma CreationIsRequest(w: World, r: CreateRequest, caller: Caller, d: Details, luck: Fleet.Luck)
    ensures exists op :: Provisioning.CreateForward(w, r, caller, d, luck).world.db == Panel.Step(w.db, op)
  {
    assert Panel.Step(w.db, OpCreateForward(r, caller, true)) == Panel.CreateForward(w.db, r, caller, true).db;
    assert Panel.Step(w.db, OpCreateForward(r, caller, false)) == Panel.CreateForward(w.db, r, caller, false).db;
  }

  lemma StepIsSole(w: World, e: Event)
    requires Sole(w.db)
    ensures Sole(Provisioning.Step(w, e).db)
  {
    StepIsRequest(w, e);
    if op :| Provisioning.Step(w, e).db == Panel.Step(w.db, op) { StepKeepsSole(w.db, op); }
  }

  lemma {:induction false} RunIsSole(w: World, events: seq<Event>)
    requires Sole(w.db)
    ensures Sole(After(w, events).db)
    decreases |events|
  {
    if events != [] {
      StepIsSole(w, events[0]);
      RunIsSole(Provisioning.Step(w, events[0]), events[1..]);
    }
  }

  // A permission is there as long as a forward of its owner on its tunnel is.
  ghost predicate Outlives(w: World, later: World, id: nat, owner: nat, tunnel: nat, p: nat) {
    id in later.db.forwards ==>
      later.db.forwards[id].owner == owner && later.db.forwards[id].tunnel == tunnel && (Grants(w.db, p, owner, tunnel) ==> Grants(later.db, p, owner, tunnel))
  }

  lemma {:induction false} PermissionOutlivesForward(w: World, events: seq<Event>, id: nat, owner: nat, tunnel: nat, p: nat)
    requires Coherent(w) && Sole(w.db) && IsRun(w, events) && id < w.db.nextForward
    requires id in w.db.forwards ==> w.db.forwards[id].owner == owner && w.db.forwards[id].tunnel == tunnel
    ensures Outlives(w, After(w, events), id, owner, tunnel, p) && (id in After(w, events).db.forwards ==> id in w.db.forwards)
    decreases |events|
  {
    if events != [] {
      var next := Provisioning.Step(w, events[0]);
      StepIsCoherent(w, events[0]);
      StepIsSole(w, events[0]);
      StepStays(w, events[0], id);
      if id in w.db.forwards && Grants(w.db, p, owner, tunnel) { StepGrants(w, events[0], id, p); }
      PermissionOutlivesForward(next, events[1..], id, owner, tunnel, p);
    }
  }

  lemma StepGrants(w: World, e: Event, id: nat, p: nat)
    requires Sole(w.db) && id in w.db.forwards && Grants(w.db, p, w.db.forwards[id].owner, w.db.forwards[id].tunnel)
    ensures id in Provisioning.Step(w, e).db.forwards ==> Grants(Provisioning.Step(w, e).db, p, w.db.forwards[id].owner, w.db.forwards[id].tunnel)
  {
    StepIsRequest(w, e);
    if op :| Provisioning.Step(w, e).db == Panel.Step(w.db, op) { GrantStays(w.db, op, id, p); }
  }

  // ---- the names at creation and at deletion ----

  lemma DeletionFinds(db: Tables, owner: nat, tunnel: nat)
    requires Sole(db)
    ensures forall p :: Grants(db, p, owner, tunnel) ==> DeletionRelation(db, owner, tunnel) == p
    ensures (forall p :: !Grants(db, p, owner, tunnel)) <==> DeletionRelation(db, owner, tunnel) == 0
  {
    var found := DeletionRelation(db, owner, tunnel);
    RowWiring.PermissionIs(db, owner, tunnel, false, 0);
    forall p ensures RowWiring.Counts(db, owner, tunnel, false, p) <==> Grants(db, p, owner, tunnel) {}
    forall p | Grants(db, p, owner, tunnel) ensures found == p != 0 { assert RowWiring.Counts(db, owner, tunnel, false, p); }
  }

  lemma CreationFinds(db: Tables, owner: nat, tunnel: nat)
    requires Sole(db)
    ensures var found := CreationRelation(db, owner, tunnel);
            if exists p :: Grants(db, p, owner, tunnel) && db.permissions[p].enabled
            then Grants(db, found, owner, tunnel) && db.permissions[found].enabled
            else found == 0
  {
    RowWiring.PermissionIs(db, owner, tunnel, true, 0);
    forall p | Grants(db, p, owner, tunnel) && db.permissions[p].enabled ensures RowWiring.Counts(db, owner, tunnel, true, p) {}
  }

  // Whatever happens between a creation and the deletion of its forward, deletion finds the
  // permission that creation found exactly when there was an enabled one at creation, or there
  // is none at deletion: enabled or not by then, it cannot be removed while the forward is there.
  lemma SamePermissionFoundExactly(w: World, r: CreateRequest, caller: Caller, d: Details, luck: Fleet.Luck, events: seq<Event>, later: World)
    requires Coherent(w) && Sole(w.db) && Provisioning.CreateForward(w, r, caller, d, luck).result.Done?
    requires IsRun(Provisioning.CreateForward(w, r, caller, d, luck).world, events)
    requires later == After(Provisioning.CreateForward(w, r, caller, d, luck).world, events) && w.db.nextForward in later.db.forwards
    ensures var owner := Owner(r, caller);
            DeletionRelation(later.db, owner, r.tunnel) == CreationRelation(w.db, owner, r.tunnel) <==>
              || (exists p :: Grants(w.db, p, owner, r.tunnel) && w.db.permissions[p].enabled)
              || (forall p :: !Grants(later.db, p, owner, r.tunnel))
  {
    var c, id, owner := Provisioning.CreateForward(w, r, caller, d, luck).world, w.db.nextForward, Owner(r, caller);
    var found := CreationRelation(w.db, owner, r.tunnel);
    CreatedWorld(w, r, caller, d, luck);
    StepIsCoherent(w, Creates(r, caller, d, luck));
    PermissionOutlivesForward(c, events, id, owner, r.tunnel, found);
    assert Sole(c.db);
    RunIsSole(c, events);
    CreationFinds(w.db, owner, r.tunnel);
    DeletionFinds(later.db, owner, r.tunnel);
  }

  lemma {:induction false} QuietIsRun(w: World, events: seq<Event>, id: nat, m: Removal.Marks)
    requires QuietRun(w, events, id, m)
    ensures IsRun(w, events)
    decreases |events|
  {
    if events != [] { QuietIsRun(Provisioning.Step(w, events[0]), events[1..], id, m); }
  }

  lemma RunsAreOrderly(before: seq<Event>)
    requires IsRun(START, before)
    ensures Coherent(After(START, before)) && Sole(After(START, before).db)
  {
    PortExclusivity.PortsNeverClash([]);
    assert Panel.Run(NEW, []) == NEW;
    RunIsCoherent(START, before);
    RunIsSole(START, before);
  }

  // After any run a forward is created; after any further run that leaves it alone it is deleted,
  // with the node that carries its traffic online. Nothing of it is left on any node exactly when
  // its owner had an enabled permission at creation or has none at deletion, and deletion names
  // the services that creation made.
  lemma DeletionClearsAfterRuns(before: seq<Event>, w: World, r: CreateRequest, caller: Caller, d: Details, luck: Fleet.Luck,
                                events: seq<Event>, later: World, user: Caller, columns: Details)
    requires IsRun(START, before) && w == After(START, before)
    requires r.tunnel in w.db.tunnels && Provisioning.CreateForward(w, r, caller, d, luck).result.Done?
    requires var c := Provisioning.CreateForward(w, r, caller, d, luck).world;
             QuietRun(c, events, w.db.nextForward, MadeBy(w, r, caller, d)) && later == After(c, events)
    requires w.db.nextForward in later.db.forwards && (user.admin || user.id == Owner(r, caller))
    requires Compensation.TrafficNode(TunnelOf(w.db, r.tunnel, d)) in later.nodes
    ensures var owner := Owner(r, caller);
            Removal.NoneLeft(Provisioning.DeleteForward(later, w.db.nextForward, user, columns, false).nodes, w.db.nextForward) <==>
              && ((exists p :: Grants(w.db, p, owner, r.tunnel) && w.db.permissions[p].enabled) || (forall p :: !Grants(later.db, p, owner, r.tunnel)))
              && Removal.Fits(TunnelOf(w.db, r.tunnel, d), columns.protocol)
  {
    RunsAreOrderly(before);
    QuietIsRun(Provisioning.CreateForward(w, r, caller, d, luck).world, events, w.db.nextForward, MadeBy(w, r, caller, d));
    DeletionLeavesNothingExactly(w, r, caller, d, luck, events, later, user, columns);
    SamePermissionFoundExactly(w, r, caller, d, luck, events, later);
  }
}
