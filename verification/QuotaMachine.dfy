/** The quota machine: paused (0), running (1), exhausted (2). */
module QuotaMachine {
  import opened Text
  import opened PanelTables
  import opened PortExclusivity

  // No forward runs once its own or its tunnel's usage has reached a non-zero limit.
  ghost predicate QuotaKept(db: Tables) {
    forall id :: id in db.forwards && db.forwards[id].status == RUNNING ==> !Exceeded(db, id)
  }

  ghost predicate Counted(db: Tables) {
    && (forall id :: id in db.forwards ==> db.forwards[id].inFlow >= 0 && db.forwards[id].outFlow >= 0)
    && (forall id :: id in db.forwards ==> db.forwards[id].status in {PAUSED, RUNNING, EXHAUSTED})
  }

  ghost predicate Inv(db: Tables) { WellFormed(db) && Counted(db) && QuotaKept(db) }

  // ---- usage sums ----

  predicate SameFlows(f: ForwardRow, g: ForwardRow) { f.tunnel == g.tunnel && f.inFlow == g.inFlow && f.outFlow == g.outFlow }

  lemma {:induction false} UsageSame(m: map<nat, ForwardRow>, k: map<nat, ForwardRow>, tunnel: nat, oneWay: bool, n: nat)
    requires forall i :: 0 <= i < n ==> (i in m && m[i].tunnel == tunnel <==> i in k && k[i].tunnel == tunnel)
    requires forall i :: 0 <= i < n && i in m && m[i].tunnel == tunnel ==> SameFlows(m[i], k[i])
    ensures UsageBelow(m, tunnel, oneWay, n) == UsageBelow(k, tunnel, oneWay, n)
  {
    if n > 0 { UsageSame(m, k, tunnel, oneWay, n - 1); }
  }

  lemma {:induction false} UsageShrinks(m: map<nat, ForwardRow>, k: map<nat, ForwardRow>, tunnel: nat, oneWay: bool, n: nat)
    requires forall i :: i in k ==> i in m && k[i] == m[i]
    requires forall i :: i in m ==> m[i].inFlow >= 0 && m[i].outFlow >= 0
    ensures UsageBelow(k, tunnel, oneWay, n) <= UsageBelow(m, tunnel, oneWay, n)
  {
    if n > 0 { UsageShrinks(m, k, tunnel, oneWay, n - 1); }
  }

  // ---- reconciliation ----

  lemma ReconcileKeepsUsage(db: Tables, tunnel: nat, acks: Acks, id: nat)
    ensures id in db.forwards <==> id in Reconcile(db, tunnel, acks).forwards
    ensures Exceeded(Reconcile(db, tunnel, acks), id) <==> Exceeded(db, id)
  {
    var after := Reconcile(db, tunnel, acks);
    if id in db.forwards && db.forwards[id].tunnel in db.tunnels {
      var t := db.forwards[id].tunnel;
      UsageSame(db.forwards, after.forwards, t, db.tunnels[t].oneWay, db.nextForward);
    }
  }

  const ALL_ACKED: Acks := (id: nat) => true

  // A reconciliation whose commands succeed leaves paused rows alone and puts every other
  // row of the tunnel at exhausted exactly when a limit is reached, at running otherwise;
  // rows of other tunnels keep their status; and a second run has no command to send.
  lemma ReconcileSettles(db: Tables, tunnel: nat, id: nat)
    requires Counted(db) && tunnel in db.tunnels && id in db.forwards
    ensures var after := Reconcile(db, tunnel, ALL_ACKED);
            var f, g := db.forwards[id], after.forwards[id];
            && g == f.(status := g.status)
            && (f.tunnel != tunnel || f.status == PAUSED ==> g.status == f.status)
            && (f.tunnel == tunnel && f.status != PAUSED ==> g.status == if Exceeded(db, id) then EXHAUSTED else RUNNING)
            && !Pending(after, tunnel, id)
            && Reconcile(after, tunnel, ALL_ACKED).forwards[id] == after.forwards[id]
  {
    ReconcileKeepsUsage(db, tunnel, ALL_ACKED, id);
    ReconcileKeepsUsage(Reconcile(db, tunnel, ALL_ACKED), tunnel, ALL_ACKED, id);
  }

  // Whatever the replies: a row of the tunnel that is not paused and whose command, if there is
  // one, succeeds ends at exhausted exactly when a limit is reached, at running otherwise; every
  // other row keeps its status, and nothing but statuses changes.
  lemma ReconcileFollowsReplies(db: Tables, tunnel: nat, acks: Acks, id: nat)
    requires Counted(db)
    ensures var after := Reconcile(db, tunnel, acks);
            && after == db.(forwards := after.forwards) && after.forwards.Keys == db.forwards.Keys
            && (id in db.forwards ==>
                  var f, g := db.forwards[id], after.forwards[id];
                  && g == f.(status := g.status)
                  && g.status == if tunnel in db.tunnels && f.tunnel == tunnel && f.status != PAUSED && acks(id)
                                 then (if Exceeded(db, id) then EXHAUSTED else RUNNING) else f.status)
  {
  }

  // With arbitrary replies, the quota holds on the tunnel afterwards exactly when every
  // forward that had to be paused was.
  lemma ReconcileEnforcesExactly(db: Tables, tunnel: nat, acks: Acks)
    requires tunnel in db.tunnels
    requires forall id :: id in db.forwards && db.forwards[id].status == RUNNING && db.forwards[id].tunnel != tunnel ==> !Exceeded(db, id)
    ensures QuotaKept(Reconcile(db, tunnel, acks)) <==>
            forall id :: id in db.forwards && db.forwards[id].tunnel == tunnel && db.forwards[id].status == RUNNING && Exceeded(db, id) ==> acks(id)
  {
    var after := Reconcile(db, tunnel, acks);
    forall id ensures Exceeded(after, id) <==> Exceeded(db, id) { ReconcileKeepsUsage(db, tunnel, acks, id); }
    if QuotaKept(after) {
      forall id | id in db.forwards && db.forwards[id].tunnel == tunnel && db.forwards[id].status == RUNNING && Exceeded(db, id) ensures acks(id) {
        assert Exceeded(after, id) && id in after.forwards;
      }
    }
  }

  lemma ReconcileCounted(db: Tables, tunnel: nat, acks: Acks)
    requires Counted(db)
    ensures Counted(Reconcile(db, tunnel, acks))
  {
  }

  // ---- reports ----

  lemma {:induction false} UsageCredited(m: map<nat, ForwardRow>, id: nat, up: nat, down: nat, tunnel: nat, oneWay: bool, n: nat)
    requires id in m
    ensures var k := m[id := m[id].(inFlow := m[id].inFlow + up, outFlow := m[id].outFlow + down)];
            UsageBelow(k, tunnel, oneWay, n) ==
            UsageBelow(m, tunnel, oneWay, n) + if id < n && m[id].tunnel == tunnel then (if oneWay then up else up + down) else 0
  {
    if n > 0 { UsageCredited(m, id, up, down, tunnel, oneWay, n - 1); }
  }

  // A credit moves only the tunnel of the credited forward, and upwards.
  lemma CreditExceeds(db: Tables, id: nat, up: nat, down: nat, other: nat)
    requires WellFormed(db) && id in db.forwards && other in db.forwards && other != id
    ensures var after := Credit(db, id, up, down);
            Exceeded(after, other) <==> Exceeded(db, other) || (db.forwards[other].tunnel == db.forwards[id].tunnel && TunnelQuotaReached(after, db.forwards[id].tunnel))
  {
    var t := db.forwards[other].tunnel;
    assert GoodForward(db, db.forwards[other]);
    UsageCredited(db.forwards, id, up, down, t, db.tunnels[t].oneWay, db.nextForward);
  }

  lemma StatusKeepsExceeded(db: Tables, after: Tables, id: nat)
    requires after.tunnels == db.tunnels && after.nextForward == db.nextForward
    requires forall i :: i in db.forwards <==> i in after.forwards
    requires forall i :: i in db.forwards ==> after.forwards[i] == db.forwards[i].(status := after.forwards[i].status)
    ensures Exceeded(after, id) <==> Exceeded(db, id)
    ensures forall t :: TunnelQuotaReached(after, t) <==> TunnelQuotaReached(db, t)
  {
    forall t ensures TunnelUsage(after, t) == TunnelUsage(db, t) {
      if t in db.tunnels { UsageSame(db.forwards, after.forwards, t, db.tunnels[t].oneWay, db.nextForward); }
    }
    if id in db.forwards { assert SameFlows(db.forwards[id], after.forwards[id]); }
  }

  lemma EnforceExceeded(db: Tables, id: nat, other: nat)
    requires id in db.forwards
    ensures var after := Enforce(db, id);
            && (other in after.forwards <==> other in db.forwards) && (Exceeded(after, other) <==> Exceeded(db, other))
            && (other in db.forwards ==> after.forwards[other] == db.forwards[other].(status := after.forwards[other].status))
  {
    StatusKeepsExceeded(db, Enforce(db, id), other);
  }

  // A report stops a row exactly when it is booked on a running forward, the row is running, and
  // with the booked bytes the limit of their common tunnel is reached, or the row is that forward
  // and its own limit is. A stopped row is exhausted; no report starts or pauses anything.
  lemma ReportStopsExactly(db: Tables, r: Report, node: nat, id: nat)
    requires id in db.forwards
    ensures var after, b := ApplyReport(db, r, node), Booked(db, r, node);
            && id in after.forwards
            && (after.forwards[id].status != db.forwards[id].status <==>
                  && b.Some? && db.forwards[b.value.0].status == RUNNING && db.forwards[id].status == RUNNING
                  && ((db.forwards[id].tunnel == db.forwards[b.value.0].tunnel && TunnelQuotaReached(after, db.forwards[id].tunnel))
                      || (id == b.value.0 && OwnQuotaReached(after, id))))
            && (after.forwards[id].status != db.forwards[id].status ==> after.forwards[id].status == EXHAUSTED)
  {
    var b := Booked(db, r, node);
    if b.Some? {
      var credited := Credit(db, b.value.0, b.value.1, b.value.2);
      EnforceReaches(credited, b.value.0, id);
      EnforceReaches(credited, b.value.0, b.value.0);
      assert credited.forwards[id].status == db.forwards[id].status && credited.forwards[id].tunnel == db.forwards[id].tunnel;
    }
  }

  // Stopping changes what is reached by nobody.
  lemma EnforceReaches(db: Tables, id: nat, other: nat)
    requires id in db.forwards && other in db.forwards
    ensures var after := Enforce(db, id);
            && other in after.forwards && (OwnQuotaReached(after, other) <==> OwnQuotaReached(db, other))
            && (TunnelQuotaReached(after, db.forwards[other].tunnel) <==> TunnelQuotaReached(db, db.forwards[other].tunnel))
  {
    EnforceExceeded(db, id, other);
    StatusKeepsExceeded(db, Enforce(db, id), other);
  }

  // A booked report keeps the quota exactly when its forward is running, or the report does
  // not bring the tunnel to its limit, or no sibling is running: only a running forward's
  // report stops the siblings.
  lemma ReportKeepsQuotaExactly(db: Tables, id: nat, up: nat, down: nat)
    requires Inv(db) && id in db.forwards
    ensures var credited := Credit(db, id, up, down);
            var tunnel := db.forwards[id].tunnel;
            QuotaKept(Enforce(credited, id)) <==>
              || db.forwards[id].status == RUNNING
              || !TunnelQuotaReached(credited, tunnel)
              || forall other :: other in db.forwards && db.forwards[other].tunnel == tunnel ==> db.forwards[other].status != RUNNING
  {
    var credited := Credit(db, id, up, down);
    var after := Enforce(credited, id);
    var tunnel := db.forwards[id].tunnel;
    forall other | other in db.forwards
      ensures other in after.forwards && (Exceeded(after, other) <==> Exceeded(credited, other))
      ensures other != id ==> (Exceeded(credited, other) <==> Exceeded(db, other) || (db.forwards[other].tunnel == tunnel && TunnelQuotaReached(credited, tunnel)))
    {
      EnforceExceeded(credited, id, other);
      if other != id { CreditExceeds(db, id, up, down, other); }
    }
    if db.forwards[id].status == RUNNING || !TunnelQuotaReached(credited, tunnel) {
      ReportKeeps(db, id, up, down, credited, after);
    } else {
      assert after == credited;
      assert forall other :: other in db.forwards && db.forwards[other].tunnel == tunnel ==> Exceeded(credited, other);
    }
  }

  lemma ReportKeeps(db: Tables, id: nat, up: nat, down: nat, credited: Tables, after: Tables)
    requires Inv(db) && id in db.forwards && credited == Credit(db, id, up, down) && after == Enforce(credited, id)
    requires db.forwards[id].status == RUNNING || !TunnelQuotaReached(credited, db.forwards[id].tunnel)
    requires forall other :: other in db.forwards ==> (Exceeded(after, other) <==> Exceeded(credited, other))
    requires forall other :: other in db.forwards && other != id ==>
               (Exceeded(credited, other) <==> Exceeded(db, other) || (db.forwards[other].tunnel == db.forwards[id].tunnel && TunnelQuotaReached(credited, db.forwards[id].tunnel)))
    ensures QuotaKept(after)
  {
    forall other | other in after.forwards && after.forwards[other].status == RUNNING ensures !Exceeded(after, other) {
      EnforceExceeded(credited, id, other);
    }
  }

  // Two forwards on one tunnel: the report of the paused one exhausts the tunnel, and the
  // other keeps running over the limit.
  lemma LateReportLeavesSiblingRunning(db: Tables, id: nat, sibling: nat, up: nat, down: nat)
    requires Inv(db) && id in db.forwards && sibling in db.forwards && db.forwards[id].tunnel == db.forwards[sibling].tunnel
    requires db.forwards[id].status != RUNNING && db.forwards[sibling].status == RUNNING
    requires var t := db.tunnels[db.forwards[id].tunnel];
             ToBytes(t.limitGb) > 0 && TunnelUsage(db, db.forwards[id].tunnel) + (if t.oneWay then up else up + down) >= ToBytes(t.limitGb)
    ensures var after := Enforce(Credit(db, id, up, down), id);
            sibling in after.forwards && after.forwards[sibling].status == RUNNING && Exceeded(after, sibling)
  {
    var tunnel := db.forwards[id].tunnel;
    assert GoodForward(db, db.forwards[id]);
    UsageCredited(db.forwards, id, up, down, tunnel, db.tunnels[tunnel].oneWay, db.nextForward);
    CreditExceeds(db, id, up, down, sibling);
    assert Enforce(Credit(db, id, up, down), id) == Credit(db, id, up, down);
  }
}
