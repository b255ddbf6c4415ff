/** No two forwards ever hold the same port on the same node. */
module PortExclusivity {
  import opened Text
  import opened PortPool
  import opened Protocol
  import opened PanelTables

  predicate InRange(p: int) { 1 <= p <= 65535 }

  predicate GoodForward(db: Tables, f: ForwardRow) {
    f.tunnel in db.tunnels && InRange(f.inPort) && (f.outPort.Some? ==> InRange(f.outPort.value))
  }

  predicate GoodTunnel(db: Tables, t: TunnelRow) {
    t.inNode in db.nodes && t.outNode in db.nodes && (t.kind.Relay? ==> t.inNode != t.outNode) && (t.kind.Direct? ==> t.inNode == t.outNode)
  }

  ghost predicate WellFormed(db: Tables) {
    && (forall id :: id in db.forwards ==> id < db.nextForward && GoodForward(db, db.forwards[id]))
    && (forall id :: id in db.tunnels ==> id < db.nextTunnel && GoodTunnel(db, db.tunnels[id]))
    && (forall id :: id in db.nodes ==> 1 <= id < db.nextNode) && db.nextNode >= 1
  }

  ghost predicate Exclusive(db: Tables) {
    forall i, j, node :: i in db.forwards && j in db.forwards && i != j ==> PortsOf(db, i, node) !! PortsOf(db, j, node)
  }

  // ---- steps that only drop forwards or change what is not about ports ----

  predicate SamePlace(t: TunnelRow, u: TunnelRow) { t.kind == u.kind && t.inNode == u.inNode && t.outNode == u.outNode }

  predicate SamePorts(f: ForwardRow, g: ForwardRow) { f.tunnel == g.tunnel && f.inPort == g.inPort && f.outPort == g.outPort }

  ghost predicate Within(db: Tables, after: Tables) {
    && (forall id :: id in after.forwards ==> id in db.forwards && SamePorts(db.forwards[id], after.forwards[id]))
    && (forall id :: id in after.forwards ==> after.forwards[id].tunnel in after.tunnels)
    && (forall id :: id in after.tunnels && id in db.tunnels ==> SamePlace(db.tunnels[id], after.tunnels[id]))
  }

  lemma WithinKeeps(db: Tables, after: Tables)
    requires WellFormed(db) && Exclusive(db) && Within(db, after)
    ensures Exclusive(after)
  {
    forall i, node | i in after.forwards ensures PortsOf(after, i, node) == PortsOf(db, i, node) {
      assert db.forwards[i].tunnel in db.tunnels;
    }
  }

  // ---- a row written with free ports ----

  // The row's ports are free on its nodes, not counting the row it replaces.
  predicate FreeFor(db: Tables, id: nat, f: ForwardRow, t: TunnelRow) {
    && f.inPort !in UsedPorts(db, t.inNode, Some(id))
    && (f.outPort.Some? && !t.kind.Direct? ==> f.outPort.value !in UsedPorts(db, RelayNode(t), Some(id)))
  }

  lemma WriteKeeps(db: Tables, id: nat, f: ForwardRow)
    requires Exclusive(db) && f.tunnel in db.tunnels && FreeFor(db, id, f, db.tunnels[f.tunnel])
    ensures Exclusive(db.(forwards := db.forwards[id := f]))
  {
    var after := db.(forwards := db.forwards[id := f]);
    forall j, node | j in after.forwards && j != id
      ensures PortsOf(after, j, node) == PortsOf(db, j, node) && PortsOf(after, j, node) !! PortsOf(after, id, node)
    {
      forall p | p in PortsOf(after, id, node) ensures p !in PortsOf(db, j, node) {
        assert p in PortsOf(db, j, node) ==> p in UsedPorts(db, node, Some(id));
      }
    }
  }

  lemma UnusedIdExcludesNothing(db: Tables, node: nat, id: nat)
    requires id !in db.forwards
    ensures UsedPorts(db, node, Some(id)) == UsedPorts(db, node, None)
  {
  }

  // ---- automatic assignment ----

  lemma {:induction false} FirstUnusedIs(pool: seq<int>, used: set<int>)
    requires forall i :: 0 <= i < |pool| ==> 1 <= pool[i] <= 65535
    ensures var p := FirstUnused(pool, used);
            if forall i :: 0 <= i < |pool| ==> pool[i] in used then p == 0 else FirstFree(pool, used, p)
  {
    if pool != [] && pool[0] in used {
      FirstUnusedIs(pool[1..], used);
      var p := FirstUnused(pool[1..], used);
      if FirstFree(pool[1..], used, p) {
        var k :| 0 <= k < |pool[1..]| && pool[1..][k] == p && p !in used && forall j :: 0 <= j < k ==> pool[1..][j] in used;
        forall j | 0 <= j < k + 1 ensures pool[j] in used {
          if j > 0 { assert pool[1..][j - 1] == pool[j]; }
        }
        assert pool[k + 1] == p;
      }
      assert (forall i :: 0 <= i < |pool| ==> pool[i] in used) <==> forall i :: 0 <= i < |pool[1..]| ==> pool[1..][i] in used by {
        forall i | 0 <= i < |pool| && (forall k :: 0 <= k < |pool[1..]| ==> pool[1..][k] in used) ensures pool[i] in used {
          if i > 0 { assert pool[1..][i - 1] == pool[i]; }
        }
      }
    }
  }

  // The port assigned on a node is the one the two loops of NextPort return.
  lemma NextPortOnIs(db: Tables, node: nat, reserved: Option<int>)
    ensures var n := if node in db.nodes then db.nodes[node] else NodeRow("", 0, 0);
            IsNextPort(n.portRange, n.portStart, n.portEnd, Reserve(UsedPorts(db, node, None), reserved), NextPortOn(db, node, reserved))
    ensures NextPortOn(db, node, reserved) == 0
            || (InRange(NextPortOn(db, node, reserved)) && NextPortOn(db, node, reserved) !in Reserve(UsedPorts(db, node, None), reserved))
  {
    var n := if node in db.nodes then db.nodes[node] else NodeRow("", 0, 0);
    var ranges := Ranges(n.portRange, n.portStart, n.portEnd);
    var used := Reserve(UsedPorts(db, node, None), reserved);
    if ranges.Some? {
      NormalizationIsStable(n.portRange, n.portStart, n.portEnd, 0, 0);
      PortsInBounds(ranges.value);
      FirstUnusedIs(Ports(ranges.value), used);
      NextPortZero(n.portRange, n.portStart, n.portEnd, used, NextPortOn(db, node, reserved));
    }
  }

  lemma NextPortSafe(db: Tables, node: nat, reserved: Option<int>)
    ensures var p := NextPortOn(db, node, reserved);
            p == 0 || (InRange(p) && p !in UsedPorts(db, node, None) && reserved != Some(p))
  {
    NextPortOnIs(db, node, reserved);
  }

  // Ports the panel picks itself are never turned down by the checks that follow: with no
  // port given, only a missing pool (or a negative limit) can refuse the request.
  lemma AutomaticPortsAreAccepted(db: Tables, r: CreateRequest)
    requires r.tunnel in db.tunnels && r.inPort.None? && r.outPort.None?
    ensures PortRefusal(db, r) in {None, Some(NoPool), Some(NegativeLimit)}
  {
    var t := db.tunnels[r.tunnel];
    NextPortSafe(db, t.inNode, None);
    if EntryPort(db, t, r) > 0 { AutomaticRelay(db, t, r, EntryPort(db, t, r)); }
  }

  lemma AutomaticRelay(db: Tables, t: TunnelRow, r: CreateRequest, entry: int)
    requires r.inPort.None? && r.outPort.None? && entry > 0
    ensures var p := RelayPort(db, t, r, entry);
            p.None? || p == Some(0) || (p.value !in UsedPorts(db, RelayNode(t), None) && (RelayNode(t) == t.inNode ==> p.value != entry))
  {
    NextPortSafe(db, t.outNode, if t.inNode == t.outNode then Some(entry) else None);
    NextPortSafe(db, t.inNode, Some(entry));
  }

  // ---- every step ----

  lemma EntryPortIsFree(db: Tables, r: CreateRequest)
    requires r.tunnel in db.tunnels && PortRefusal(db, r).None?
    ensures var t := db.tunnels[r.tunnel]; var p := EntryPort(db, t, r);
            InRange(p) && p !in UsedPorts(db, t.inNode, None)
  {
    NextPortSafe(db, db.tunnels[r.tunnel].inNode, None);
  }

  lemma RelayPortInRange(db: Tables, t: TunnelRow, r: CreateRequest, entry: int)
    requires ValidPort(r.inPort) && ValidPort(r.outPort)
    ensures var p := RelayPort(db, t, r, entry); (t.kind.Direct? <==> p.None?) && (p.Some? ==> p.value == 0 || InRange(p.value))
  {
    NextPortSafe(db, t.outNode, if t.inNode == t.outNode then Some(entry) else None);
    NextPortSafe(db, t.inNode, Some(entry));
  }

  lemma RelayPortIsFree(db: Tables, r: CreateRequest)
    requires r.tunnel in db.tunnels && PortRefusal(db, r).None?
    ensures var t := db.tunnels[r.tunnel]; var entry := EntryPort(db, t, r); var p := RelayPort(db, t, r, entry);
            p.Some? ==> InRange(p.value) && !t.kind.Direct? && p.value !in UsedPorts(db, RelayNode(t), None)
                        && (RelayNode(t) == t.inNode ==> p.value != entry)
  {
    var t := db.tunnels[r.tunnel];
    var entry := EntryPort(db, t, r);
    RelayChecks(db, r, t, entry, RelayPort(db, t, r, entry));
    RelayPortInRange(db, t, r, entry);
  }

  lemma RelayChecks(db: Tables, r: CreateRequest, t: TunnelRow, entry: int, relay: Option<int>)
    requires r.tunnel in db.tunnels && PortRefusal(db, r).None?
    requires t == db.tunnels[r.tunnel] && entry == EntryPort(db, t, r) && relay == RelayPort(db, t, r, entry)
    ensures ValidPort(r.inPort) && ValidPort(r.outPort) && relay != Some(0)
    ensures !(relay == Some(entry) && RelayNode(t) == t.inNode)
    ensures relay.Some? && relay.value > 0 ==> relay.value !in UsedPorts(db, RelayNode(t), None)
  {
  }

  lemma CreatedPorts(db: Tables, r: CreateRequest, owner: nat)
    requires r.tunnel in db.tunnels && PortRefusal(db, r).None?
    ensures var t, f := db.tunnels[r.tunnel], NewForward(db, r, owner);
            && InRange(f.inPort) && (f.outPort.Some? ==> InRange(f.outPort.value))
            && f.inPort !in UsedPorts(db, t.inNode, None) && (f.outPort.Some? ==> !t.kind.Direct? && f.outPort.value !in UsedPorts(db, RelayNode(t), None))
            && (RelayNode(t) == t.inNode ==> f.outPort != Some(f.inPort))
  {
    EntryPortIsFree(db, r);
    RelayPortIsFree(db, r);
  }

  lemma InsertKeepsPorts(db: Tables, r: CreateRequest, owner: nat)
    requires WellFormed(db) && Exclusive(db) && r.tunnel in db.tunnels && PortRefusal(db, r).None?
    ensures var after := db.(forwards := db.forwards[db.nextForward := NewForward(db, r, owner)], nextForward := db.nextForward + 1);
            WellFormed(after) && Exclusive(after)
  {
    var f := NewForward(db, r, owner);
    CreatedPorts(db, r, owner);
    UnusedIdExcludesNothing(db, db.tunnels[r.tunnel].inNode, db.nextForward);
    UnusedIdExcludesNothing(db, RelayNode(db.tunnels[r.tunnel]), db.nextForward);
    WriteKeeps(db, db.nextForward, f);
    var after := db.(forwards := db.forwards[db.nextForward := f], nextForward := db.nextForward + 1);
    forall i, node ensures PortsOf(after, i, node) == PortsOf(db.(forwards := after.forwards), i, node) {}
  }

  lemma CreateShape(db: Tables, r: CreateRequest, caller: Caller, provisioned: bool)
    ensures var after := CreateForward(db, r, caller, provisioned);
            if after.result.Done? then
              && r.tunnel in db.tunnels && PortRefusal(db, r).None? && CreateRefusal(db, r, caller, Owner(r, caller)).None? && provisioned
              && after.result.id == db.nextForward
              && after.db == db.(forwards := db.forwards[db.nextForward := NewForward(db, r, Owner(r, caller))], nextForward := db.nextForward + 1)
            else after.db == db || (db.nextForward !in db.forwards ==> after.db == db.(nextForward := db.nextForward + 1))
  {
    if db.nextForward !in db.forwards && r.tunnel in db.tunnels {
      assert db.forwards[db.nextForward := NewForward(db, r, Owner(r, caller))] - {db.nextForward} == db.forwards;
    }
  }

  lemma SkippedIdKeeps(db: Tables)
    requires WellFormed(db) && Exclusive(db)
    ensures var after := db.(nextForward := db.nextForward + 1); WellFormed(after) && Exclusive(after)
  {
    var after := db.(nextForward := db.nextForward + 1);
    forall i, node ensures PortsOf(after, i, node) == PortsOf(db, i, node) {}
    forall i | i in after.forwards ensures GoodForward(after, after.forwards[i]) { assert GoodForward(db, db.forwards[i]); }
  }

  // A create that is refused, also by a node, leaves the forward table as it was.
  lemma CreateKeepsPorts(db: Tables, r: CreateRequest, caller: Caller, provisioned: bool)
    requires WellFormed(db) && Exclusive(db)
    ensures var after := CreateForward(db, r, caller, provisioned); WellFormed(after.db) && Exclusive(after.db)
    ensures var after := CreateForward(db, r, caller, provisioned); !after.result.Done? ==> after.db.forwards == db.forwards
  {
    CreateShape(db, r, caller, provisioned);
    assert db.nextForward !in db.forwards;
    if CreateForward(db, r, caller, provisioned).result.Done? {
      InsertKeepsPorts(db, r, Owner(r, caller));
    } else {
      SkippedIdKeeps(db);
    }
  }

  lemma ReconcileWithin(db: Tables, tunnel: nat, acks: Acks)
    requires WellFormed(db)
    ensures Within(db, Reconcile(db, tunnel, acks)) && WellFormed(Reconcile(db, tunnel, acks))
  {
  }

  lemma UpdateKeepsPorts(db: Tables, r: UpdateRequest, caller: Caller, acks: Acks)
    requires WellFormed(db) && Exclusive(db)
    ensures var after := UpdateForward(db, r, caller, acks).db; WellFormed(after) && Exclusive(after)
  {
    if UpdateRefusal(db, r, caller).None? {
      var f := db.forwards[r.id];
      var saved := SavedForward(db, r);
      assert GoodForward(db, f) && GoodTunnel(db, db.tunnels[f.tunnel]);
      WriteKeeps(db, r.id, Edited(f, r));
      ReconcileWithin(saved, f.tunnel, acks);
      WithinKeeps(saved, Reconcile(saved, f.tunnel, acks));
    }
  }

  lemma CreditWithin(db: Tables, id: nat, up: nat, down: nat)
    requires WellFormed(db) && id in db.forwards
    ensures Within(db, Credit(db, id, up, down)) && WellFormed(Credit(db, id, up, down))
  {
  }

  lemma ExhaustWithin(db: Tables, tunnel: nat)
    requires WellFormed(db)
    ensures Within(db, ExhaustTunnel(db, tunnel)) && WellFormed(ExhaustTunnel(db, tunnel))
  {
  }

  lemma StatusWithin(db: Tables, id: nat, status: int)
    requires WellFormed(db) && id in db.forwards
    ensures var after := db.(forwards := db.forwards[id := db.forwards[id].(status := status)]); Within(db, after) && WellFormed(after)
  {
  }

  lemma EnforceWithin(db: Tables, id: nat)
    requires WellFormed(db) && id in db.forwards
    ensures Within(db, Enforce(db, id)) && WellFormed(Enforce(db, id))
  {
    ExhaustWithin(db, db.forwards[id].tunnel);
    StatusWithin(db, id, EXHAUSTED);
    NothingWithin(db, db);
  }

  lemma NothingWithin(db: Tables, after: Tables)
    requires WellFormed(db) && after.forwards == db.forwards && after.tunnels == db.tunnels && after.nodes == db.nodes
    requires after.nextForward == db.nextForward && after.nextTunnel == db.nextTunnel && after.nextNode == db.nextNode
    ensures Within(db, after) && WellFormed(after)
  {
    forall f | f in after.forwards ensures GoodForward(after, after.forwards[f]) { assert GoodForward(db, db.forwards[f]); }
    forall t | t in after.tunnels ensures GoodTunnel(after, after.tunnels[t]) { assert GoodTunnel(db, db.tunnels[t]); }
  }

  lemma ReportKeepsPorts(db: Tables, r: Report, node: nat)
    requires WellFormed(db) && Exclusive(db)
    ensures WellFormed(ApplyReport(db, r, node)) && Exclusive(ApplyReport(db, r, node))
  {
    var b := Booked(db, r, node);
    if b.Some? {
      var credited := Credit(db, b.value.0, b.value.1, b.value.2);
      CreditWithin(db, b.value.0, b.value.1, b.value.2);
      WithinKeeps(db, credited);
      EnforceWithin(credited, b.value.0);
      WithinKeeps(credited, Enforce(credited, b.value.0));
    }
  }

  lemma UpdateTunnelKeepsPorts(db: Tables, id: nat, oneWay: bool, limitGb: int, tenths: int, synced: bool, acks: Acks)
    requires WellFormed(db) && Exclusive(db)
    ensures var after := UpdateTunnel(db, id, oneWay, limitGb, tenths, synced, acks); WellFormed(after) && Exclusive(after)
  {
    if limitGb >= 0 && id in db.tunnels {
      var saved := db.(tunnels := db.tunnels[id := db.tunnels[id].(oneWay := oneWay, limitGb := limitGb, tenths := tenths)]);
      assert Within(db, saved) && WellFormed(saved);
      WithinKeeps(db, saved);
      ReconcileWithin(saved, id, acks);
      WithinKeeps(saved, Reconcile(saved, id, acks));
    }
  }

  lemma DeleteUserWithin(db: Tables, id: nat)
    requires WellFormed(db)
    ensures Within(db, DeleteUser(db, id)) && WellFormed(DeleteUser(db, id))
  {
  }

  lemma DeleteForwardWithin(db: Tables, id: nat, caller: Caller)
    requires WellFormed(db)
    ensures Within(db, DeleteForward(db, id, caller).db) && WellFormed(DeleteForward(db, id, caller).db)
  {
  }

  lemma NodesWithin(db: Tables, after: Tables)
    requires WellFormed(db) && after.forwards == db.forwards && after.tunnels == db.tunnels
    requires after.nextForward == db.nextForward && after.nextTunnel == db.nextTunnel
    requires forall t :: t in db.tunnels ==> db.tunnels[t].inNode in after.nodes && db.tunnels[t].outNode in after.nodes
    requires forall n :: n in after.nodes ==> 1 <= n < after.nextNode
    requires after.nextNode >= 1
    ensures Within(db, after) && WellFormed(after)
  {
    forall f | f in after.forwards ensures GoodForward(after, after.forwards[f]) { assert GoodForward(db, db.forwards[f]); }
    forall t | t in after.tunnels ensures GoodTunnel(after, after.tunnels[t]) { assert GoodTunnel(db, db.tunnels[t]); }
  }

  lemma CreateNodeWithin(db: Tables, range: string)
    requires WellFormed(db)
    ensures Within(db, CreateNode(db, range)) && WellFormed(CreateNode(db, range))
  {
    TunnelNodesExist(db);
    NodesWithin(db, CreateNode(db, range));
  }

  lemma UpdateNodeWithin(db: Tables, id: nat, range: string)
    requires WellFormed(db)
    ensures Within(db, UpdateNode(db, id, range)) && WellFormed(UpdateNode(db, id, range))
  {
    TunnelNodesExist(db);
    NodesWithin(db, UpdateNode(db, id, range));
  }

  lemma DeleteNodeWithin(db: Tables, id: nat)
    requires WellFormed(db)
    ensures Within(db, DeleteNode(db, id)) && WellFormed(DeleteNode(db, id))
  {
    TunnelNodesExist(db);
    NodesWithin(db, DeleteNode(db, id));
  }

  lemma TunnelNodesExist(db: Tables)
    requires WellFormed(db)
    ensures forall t :: t in db.tunnels ==> db.tunnels[t].inNode in db.nodes && db.tunnels[t].outNode in db.nodes
  {
  }

  lemma TunnelsWithin(db: Tables, after: Tables)
    requires WellFormed(db) && after.forwards == db.forwards && after.nodes == db.nodes
    requires after.nextForward == db.nextForward && after.nextNode == db.nextNode
    requires forall f :: f in db.forwards ==> db.forwards[f].tunnel in after.tunnels
    requires forall t :: t in after.tunnels ==> t < after.nextTunnel && (if t in db.tunnels then after.tunnels[t] == db.tunnels[t] else GoodTunnel(db, after.tunnels[t]))
    ensures Within(db, after) && WellFormed(after)
  {
    forall f | f in after.forwards ensures GoodForward(after, after.forwards[f]) { assert GoodForward(db, db.forwards[f]); }
    forall t | t in after.tunnels ensures GoodTunnel(after, after.tunnels[t]) {
      if t in db.tunnels { assert GoodTunnel(db, db.tunnels[t]); }
    }
  }

  lemma CreateTunnelWithin(db: Tables, kind: Kind, inNode: nat, out: Option<nat>, oneWay: bool, limitGb: int, tenths: int)
    requires WellFormed(db)
    ensures var after := CreateTunnel(db, kind, inNode, out, oneWay, limitGb, tenths); Within(db, after) && WellFormed(after)
  {
    forall f | f in db.forwards ensures db.forwards[f].tunnel in db.tunnels { assert GoodForward(db, db.forwards[f]); }
    TunnelsWithin(db, CreateTunnel(db, kind, inNode, out, oneWay, limitGb, tenths));
  }

  lemma DeleteTunnelWithin(db: Tables, id: nat)
    requires WellFormed(db)
    ensures Within(db, DeleteTunnel(db, id)) && WellFormed(DeleteTunnel(db, id))
  {
    forall f | f in db.forwards ensures db.forwards[f].tunnel in db.tunnels { assert GoodForward(db, db.forwards[f]); }
    TunnelsWithin(db, DeleteTunnel(db, id));
  }

  // Requests about users and permissions alone.
  predicate AboutUsers(op: Op) {
    op.OpCreateUser? || op.OpResetUser? || op.OpAssign? || op.OpSetPermission? || op.OpRemovePermission? || op.OpResetPermission?
  }

  lemma AboutUsersFrame(db: Tables, op: Op)
    requires AboutUsers(op)
    ensures var after := Step(db, op);
            after.forwards == db.forwards && after.tunnels == db.tunnels && after.nodes == db.nodes
            && after.nextForward == db.nextForward && after.nextTunnel == db.nextTunnel && after.nextNode == db.nextNode
  {
  }

  lemma {:induction false} AboutUsersWithin(db: Tables, op: Op)
    requires WellFormed(db) && AboutUsers(op)
    ensures Within(db, Step(db, op)) && WellFormed(Step(db, op))
  {
    AboutUsersFrame(db, op);
    NothingWithin(db, Step(db, op));
  }

  lemma ChangeStatusWithin(db: Tables, id: nat, resume: bool, ack: bool)
    requires WellFormed(db)
    ensures var after := ChangeStatus(db, id, resume, ack).db; Within(db, after) && WellFormed(after)
  {
    NothingWithin(db, db);
    if id in db.forwards { StatusWithin(db, id, if resume then RUNNING else PAUSED); }
  }

  lemma RestWithin(db: Tables, op: Op)
    requires WellFormed(db)
    requires !op.OpCreateForward? && !op.OpUpdateForward? && !op.OpReport? && !op.OpUpdateTunnel?
    ensures Within(db, Step(db, op)) && WellFormed(Step(db, op))
  {
    match op
    case OpDeleteForward(id, caller) => DeleteForwardWithin(db, id, caller);
    case OpChangeStatus(id, resume, ack) => ChangeStatusWithin(db, id, resume, ack);
    case OpCreateNode(range) => CreateNodeWithin(db, range);
    case OpUpdateNode(id, range) => UpdateNodeWithin(db, id, range);
    case OpDeleteNode(id) => DeleteNodeWithin(db, id);
    case OpCreateTunnel(kind, i, o, oneWay, limitGb, tenths) => CreateTunnelWithin(db, kind, i, o, oneWay, limitGb, tenths);
    case OpDeleteTunnel(id) => DeleteTunnelWithin(db, id);
    case OpDeleteUser(id) => DeleteUserWithin(db, id);
    case _ => AboutUsersWithin(db, op);
  }

  // Every request keeps the ports of distinct forwards apart on every node.
  lemma StepKeepsPorts(db: Tables, op: Op)
    requires WellFormed(db) && Exclusive(db)
    ensures WellFormed(Step(db, op)) && Exclusive(Step(db, op))
  {
    match op
    case OpCreateForward(r, caller, provisioned) => CreateKeepsPorts(db, r, caller, provisioned);
    case OpUpdateForward(r, caller, acks) => UpdateKeepsPorts(db, r, caller, acks);
    case OpReport(r, node) => ReportKeepsPorts(db, r, node);
    case OpUpdateTunnel(id, oneWay, limitGb, tenths, synced, acks) => UpdateTunnelKeepsPorts(db, id, oneWay, limitGb, tenths, synced, acks);
    case _ => RestWithin(db, op); WithinKeeps(db, Step(db, op));
  }

  // In every state reached from the initial tables by any requests, whatever the nodes
  // answer, no two forwards hold the same port on the same node.
  lemma {:induction false} PortsNeverClash(ops: seq<Op>)
    ensures WellFormed(Run(NEW, ops)) && Exclusive(Run(NEW, ops))
    ensures forall i, j, node, port :: Holds(Run(NEW, ops), i, node, port) && Holds(Run(NEW, ops), j, node, port) ==> i == j
  {
    if ops != [] {
      PortsNeverClash(ops[..|ops| - 1]);
      StepKeepsPorts(Run(NEW, ops[..|ops| - 1]), ops[|ops| - 1]);
    }
  }

  // ---- a forward's own two ports ----

  // Entry and relay listen on the same node and port.
  predicate OwnClash(db: Tables, id: nat) {
    && id in db.forwards && db.forwards[id].tunnel in db.tunnels
    && var f, t := db.forwards[id], db.tunnels[db.forwards[id].tunnel];
       !t.kind.Direct? && RelayNode(t) == t.inNode && f.outPort == Some(f.inPort)
  }

  lemma CreationKeepsOwnPortsApart(db: Tables, r: CreateRequest, caller: Caller)
    requires WellFormed(db) && CreateForward(db, r, caller, true).result.Done?
    ensures var after := CreateForward(db, r, caller, true); !OwnClash(after.db, after.result.id)
  {
    CreatedPorts(db, r, Owner(r, caller));
  }

  // An update checks other forwards only: an administrator's update of a forward on a
  // reverse tunnel to a port that nobody else uses is accepted for both ports at once.
  lemma UpdateMergesOwnPorts(db: Tables, id: nat, p: int, caller: Caller, acks: Acks)
    requires WellFormed(db) && caller.admin && InRange(p)
    requires id in db.forwards && db.tunnels[db.forwards[id].tunnel].kind.Reverse?
    requires p !in UsedPorts(db, db.tunnels[db.forwards[id].tunnel].inNode, Some(id))
    ensures var after := UpdateForward(db, UpdateRequest(id, "n", "r", Some(p), Some(p), 0), caller, acks);
            after.result.Done? && OwnClash(after.db, id)
  {
    var r := UpdateRequest(id, "n", "r", Some(p), Some(p), 0);
    assert UpdateRefusal(db, r, caller).None?;
    var f := db.forwards[id];
    var saved := db.(forwards := db.forwards[id := f.(name := "n", remote := "r", inPort := p, outPort := Some(p), limitGb := 0)]);
    assert id in Reconcile(saved, f.tunnel, acks).forwards;
  }

  // An accepted update makes a forward's own ports collide exactly when the requested and
  // kept ports coincide on a tunnel whose relay listens on the entry node.
  lemma UpdateClashesExactly(db: Tables, r: UpdateRequest, caller: Caller, acks: Acks)
    requires WellFormed(db) && UpdateForward(db, r, caller, acks).result.Done?
    ensures var f, t := db.forwards[r.id], db.tunnels[db.forwards[r.id].tunnel];
            OwnClash(UpdateForward(db, r, caller, acks).db, r.id) <==>
              t.kind.Reverse? && (if r.outPort.Some? then r.outPort else f.outPort) == Some(if r.inPort.Some? then r.inPort.value else f.inPort)
  {
    var f := db.forwards[r.id];
    assert GoodForward(db, f) && GoodTunnel(db, db.tunnels[f.tunnel]);
  }
}
