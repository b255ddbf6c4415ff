/** The panel's operations as they run: row by row, command by command. */
module PanelService {
  import opened Text
  import opened PortPool
  import opened PanelTables
  import PortExclusivity
  import opened QuotaMachine

  // How many rows below n a reconciliation sends a command for.
  function Commands(db: Tables, tunnel: nat, n: nat): nat {
    if n == 0 then 0 else Commands(db, tunnel, n - 1) + if Pending(db, tunnel, n - 1) then 1 else 0
  }

  lemma {:induction false} NoCommands(db: Tables, tunnel: nat, n: nat)
    ensures Commands(db, tunnel, n) == 0 <==> forall id: nat :: id < n ==> !Pending(db, tunnel, id)
  {
    if n > 0 { NoCommands(db, tunnel, n - 1); }
  }

  // The rows when those below n have been visited.
  function PartlySettled(rows: Tables, tunnel: nat, acks: Acks, n: nat): map<nat, ForwardRow> {
    map k | k in rows.forwards :: if k < n then Settled(rows, tunnel, k, acks(k)) else rows.forwards[k]
  }

  lemma SettledNext(rows: Tables, tunnel: nat, acks: Acks, id: nat)
    ensures id == 0 ==> PartlySettled(rows, tunnel, acks, id) == rows.forwards
    ensures PartlySettled(rows, tunnel, acks, id + 1) ==
            if id in rows.forwards && rows.forwards[id].tunnel == tunnel
            then PartlySettled(rows, tunnel, acks, id)[id := Settled(rows, tunnel, id, acks(id))] else PartlySettled(rows, tunnel, acks, id)
  {
  }

  lemma AllSettled(rows: Tables, tunnel: nat, acks: Acks)
    requires tunnel in rows.tunnels && forall id :: id in rows.forwards ==> id < rows.nextForward
    ensures rows.(forwards := PartlySettled(rows, tunnel, acks, rows.nextForward)) == Reconcile(rows, tunnel, acks)
  {
  }

  // A reconciliation whose commands all succeed leaves nothing to send for a second one.
  lemma SecondReconcileSendsNothing(db: Tables, tunnel: nat)
    requires Counted(db)
    ensures Commands(Reconcile(db, tunnel, ALL_ACKED), tunnel, db.nextForward) == 0
  {
    var after := Reconcile(db, tunnel, ALL_ACKED);
    forall id: nat | id < db.nextForward ensures !Pending(after, tunnel, id) {
      if tunnel in db.tunnels && id in db.forwards { ReconcileSettles(db, tunnel, id); }
    }
    NoCommands(after, tunnel, db.nextForward);
  }

  class Service {
    var db: Tables

    constructor ()
      ensures db == NEW
    {
      db := NEW;
    }

    // NextPort with the tables as they are.
    method AssignPort(node: nat, reserved: Option<int>) returns (port: int)
      ensures var n := if node in db.nodes then db.nodes[node] else NodeRow("", 0, 0);
              IsNextPort(n.portRange, n.portStart, n.portEnd, Reserve(UsedPorts(db, node, None), reserved), port)
      ensures port == NextPortOn(db, node, reserved)
    {
      var n := if node in db.nodes then db.nodes[node] else NodeRow("", 0, 0);
      port := NextPort(n.portRange, n.portStart, n.portEnd, UsedPorts(db, node, None), reserved);
      PortExclusivity.NextPortOnIs(db, node, reserved);
      NextPortIsUnique(n.portRange, n.portStart, n.portEnd, Reserve(UsedPorts(db, node, None), reserved), port, NextPortOn(db, node, reserved));
    }

    method SetStatus(id: nat, status: int)
      requires id in db.forwards
      modifies this
      ensures db == old(db).(forwards := old(db).forwards[id := old(db).forwards[id].(status := status)])
    {
      db := db.(forwards := db.forwards[id := db.forwards[id].(status := status)]);
    }

    // The body of the loop of ReconcileTunnelAsync, with the rows as they were read.
    method SettleRow(rows: Tables, tunnel: nat, id: nat, ack: bool) returns (asked: bool)
      requires tunnel in rows.tunnels && id in rows.forwards && rows.forwards[id].tunnel == tunnel
      requires id in db.forwards && db.forwards[id] == rows.forwards[id]
      modifies this
      ensures db == old(db).(forwards := old(db).forwards[id := Settled(rows, tunnel, id, ack)])
      ensures asked <==> Pending(rows, tunnel, id)
    {
      var exceeded := Exceeded(rows, id);
      asked := false;
      if exceeded && rows.forwards[id].status == RUNNING {
        asked := true;
        if ack { SetStatus(id, EXHAUSTED); }
      } else if !exceeded && rows.forwards[id].status == EXHAUSTED {
        asked := true;
        if ack { SetStatus(id, RUNNING); }
      }
      assert db.forwards == old(db).forwards[id := Settled(rows, tunnel, id, ack)];
    }

    // ReconcileTunnelAsync: rows and usage are read once; each row's command is sent and,
    // if it succeeds, the row is written. `sent` counts the commands.
    method ReconcileTunnel(tunnel: nat, acks: Acks) returns (sent: nat)
      requires forall id :: id in db.forwards ==> id < db.nextForward
      modifies this
      ensures db == Reconcile(old(db), tunnel, acks)
      ensures sent == Commands(old(db), tunnel, old(db).nextForward)
    {
      var rows := db;
      sent := 0;
      if tunnel !in rows.tunnels {
        NoCommands(rows, tunnel, rows.nextForward);
        return;
      }
      for id := 0 to rows.nextForward
        invariant db == rows.(forwards := PartlySettled(rows, tunnel, acks, id))
        invariant sent == Commands(rows, tunnel, id)
      {
        SettledNext(rows, tunnel, acks, id);
        if id in rows.forwards && rows.forwards[id].tunnel == tunnel {
          var asked := SettleRow(rows, tunnel, id, acks(id));
          if asked { sent := sent + 1; }
        }
      }
      AllSettled(rows, tunnel, acks);
    }

    // PauseTunnelForwardsAsync: the replies are not looked at.
    method PauseTunnelForwards(tunnel: nat)
      requires forall id :: id in db.forwards ==> id < db.nextForward
      modifies this
      ensures db == ExhaustTunnel(old(db), tunnel)
    {
      var rows := db;
      for id := 0 to rows.nextForward
        invariant db == rows.(forwards := db.forwards)
        invariant forall k :: k in db.forwards <==> k in rows.forwards
        invariant forall k :: k in rows.forwards ==> db.forwards[k] == if k < id then ExhaustTunnel(rows, tunnel).forwards[k] else rows.forwards[k]
      {
        if id in rows.forwards && rows.forwards[id].tunnel == tunnel && rows.forwards[id].status == RUNNING { SetStatus(id, EXHAUSTED); }
      }
      assert db.forwards == ExhaustTunnel(rows, tunnel).forwards;
    }

    // ApplyAsync: three ledger updates, then the quota checks on the rows as they are now.
    method Apply(r: Report, node: nat)
      requires forall id :: id in db.forwards ==> id < db.nextForward
      modifies this
      ensures db == ApplyReport(old(db), r, node)
    {
      var forward := BookedOn(db, r.service, node);
      if forward.None? { return; }
      var id := forward.value;
      var t := db.tunnels[db.forwards[id].tunnel];
      var up, down := Scale(r.up, t.tenths), Scale(r.down, t.tenths);
      if up == 0 && down == 0 { return; }
      var f := db.forwards[id];
      db := db.(forwards := db.forwards[id := f.(inFlow := f.inFlow + up, outFlow := f.outFlow + down)]);
      db := db.(users := map u | u in db.users ::
        if u == f.owner then db.users[u].(inFlow := db.users[u].inFlow + up, outFlow := db.users[u].outFlow + down) else db.users[u]);
      db := db.(permissions := map p | p in db.permissions ::
        if db.permissions[p].owner == f.owner && db.permissions[p].tunnel == f.tunnel
        then db.permissions[p].(inFlow := db.permissions[p].inFlow + up, outFlow := db.permissions[p].outFlow + down) else db.permissions[p]);
      assert db == Credit(old(db), id, up, down);
      var tunnelExceeded := TunnelQuotaReached(db, f.tunnel);
      var forwardExceeded := OwnQuotaReached(db, id);
      if db.forwards[id].status == RUNNING && (forwardExceeded || tunnelExceeded) {
        if tunnelExceeded { PauseTunnelForwards(f.tunnel); } else { SetStatus(id, EXHAUSTED); }
      }
    }

    method Update(r: UpdateRequest, caller: Caller, acks: Acks) returns (result: Result)
      requires forall id :: id in db.forwards ==> id < db.nextForward
      modifies this
      ensures Stepped(result, db) == UpdateForward(old(db), r, caller, acks)
    {
      if r.id !in db.forwards || db.forwards[r.id].tunnel !in db.tunnels { return Refused(NoForward); }
      var f := db.forwards[r.id];
      var t := db.tunnels[f.tunnel];
      if !caller.admin && f.owner != caller.id { return Refused(NoForward); }
      if r.limitGb < 0 { return Refused(NegativeLimit); }
      var inPort := if r.inPort.Some? then r.inPort.value else f.inPort;
      if inPort < 1 || inPort > 65535 { return Refused(BadPort); }
      var outPort := if r.outPort.Some? then r.outPort else f.outPort;
      if r.outPort.Some? && (r.outPort.value < 1 || r.outPort.value > 65535) { return Refused(BadPort); }
      if inPort in UsedPorts(db, t.inNode, Some(r.id)) { return Refused(EntryPortTaken); }
      var relayNode := if t.kind.Reverse? then t.inNode else if t.kind.Relay? then t.outNode else 0;
      if outPort.Some? && outPort.value > 0 && relayNode > 0 {
        if outPort.value in UsedPorts(db, relayNode, Some(r.id)) { return Refused(RelayPortTaken); }
      }
      db := db.(forwards := db.forwards[r.id := f.(name := r.name, remote := r.remote, inPort := inPort, outPort := outPort, limitGb := r.limitGb)]);
      var _ := ReconcileTunnel(f.tunnel, acks);
      result := Done(r.id);
    }

    // What CreateAsync checks before it looks at ports, in its order.
    method CheckRequest(r: CreateRequest, caller: Caller, owner: nat) returns (refused: Option<Refusal>)
      ensures refused == CreateRefusal(db, r, caller, owner)
    {
      if Trim(r.name) == "" || Trim(r.remote) == "" { return Some(BlankName); }
      if r.tunnel !in db.tunnels { return Some(NoTunnel); }
      if !db.tunnels[r.tunnel].enabled { return Some(TunnelDisabled); }
      var limit := ToBytes(db.tunnels[r.tunnel].limitGb);
      if limit > 0 && TunnelUsage(db, r.tunnel) >= limit { return Some(QuotaExhausted); }
      if !caller.admin && !MayUse(db, owner, r.tunnel) { return Some(NoPermission); }
      return None;
    }

    // The row of an identical forward, if there is one.
    method FindTwin(r: CreateRequest, owner: nat) returns (twin: Option<nat>)
      ensures twin == Twin(db, owner, r, 0)
    {
      for id := 0 to db.nextForward
        invariant Twin(db, owner, r, 0) == Twin(db, owner, r, id)
      {
        if id in db.forwards && SameConfig(db.forwards[id], owner, r) { return Some(id); }
      }
      return None;
    }

    // The relay port of the tunnel's kind: given, taken over from the entry port, or found.
    method PickRelayPort(t: TunnelRow, r: CreateRequest, entry: int) returns (relay: Option<int>)
      ensures relay == RelayPort(db, t, r, entry)
    {
      if t.kind.Direct? { return None; }
      if r.outPort.Some? { return r.outPort; }
      if t.kind.Relay? && r.inPort.Some? { return r.inPort; }
      var port: int;
      if t.kind.Relay? {
        port := AssignPort(t.outNode, if t.inNode == t.outNode then Some(entry) else None);
      } else {
        port := AssignPort(t.inNode, Some(entry));
      }
      return Some(port);
    }

    method CheckRelayPort(t: TunnelRow, entry: int, relay: Option<int>) returns (refused: Option<Refusal>)
      ensures refused ==
              if relay == Some(0) then Some(NoPool)
              else if relay == Some(entry) && RelayNode(t) == t.inNode then Some(SamePorts)
              else if relay.Some? && relay.value > 0 && relay.value in UsedPorts(db, RelayNode(t), None) then Some(RelayPortTaken)
              else None
    {
      if relay == Some(0) { return Some(NoPool); }
      var relayNode := if t.kind.Relay? then t.outNode else t.inNode;
      if relay == Some(entry) && relayNode == t.inNode { return Some(SamePorts); }
      if relay.Some? && relay.value > 0 {
        if relay.value in UsedPorts(db, relayNode, None) { return Some(RelayPortTaken); }
      }
      return None;
    }

    // Each port is checked as soon as it is known; the entry port before a relay port is
    // looked for.
    method PickPorts(t: TunnelRow, r: CreateRequest) returns (refused: Option<Refusal>, entry: int, relay: Option<int>)
      requires r.tunnel in db.tunnels && t == db.tunnels[r.tunnel]
      ensures refused == PortRefusal(db, r)
      ensures refused.None? ==> entry == EntryPort(db, t, r) && relay == RelayPort(db, t, r, entry)
    {
      entry, relay := 0, None;
      if r.inPort.Some? && (r.inPort.value < 1 || r.inPort.value > 65535) { return Some(BadPort), entry, relay; }
      if r.outPort.Some? && (r.outPort.value < 1 || r.outPort.value > 65535) { return Some(BadPort), entry, relay; }
      if r.inPort.Some? { entry := r.inPort.value; } else { entry := AssignPort(t.inNode, None); }
      if entry <= 0 { return Some(NoPool), entry, relay; }
      if entry in UsedPorts(db, t.inNode, None) { return Some(EntryPortTaken), entry, relay; }
      relay := PickRelayPort(t, r, entry);
      refused := CheckRelayPort(t, entry, relay);
      if refused.None? && r.limitGb < 0 { refused := Some(NegativeLimit); }
    }

    // CreateAsync: the row is inserted before the node commands and deleted when they fail.
    method Create(r: CreateRequest, caller: Caller, provisioned: bool) returns (result: Result)
      modifies this
      ensures Stepped(result, db) == CreateForward(old(db), r, caller, provisioned)
    {
      var owner := if caller.admin && r.user.Some? && r.user.value > 0 then r.user.value else caller.id;
      var early := CheckRequest(r, caller, owner);
      if early.Some? { return Refused(early.value); }
      if r.inPort.None? {
        var twin := FindTwin(r, owner);
        if twin.Some? { return Existing(twin.value); }
      }
      var late, entry, relay := PickPorts(db.tunnels[r.tunnel], r);
      if late.Some? { return Refused(late.value); }
      result := Insert(ForwardRow(owner, r.tunnel, Trim(r.name), Trim(r.remote), entry, relay, r.limitGb, 0, 0, RUNNING), provisioned);
    }

    method Insert(f: ForwardRow, provisioned: bool) returns (result: Result)
      modifies this
      ensures var inserted := old(db).(forwards := old(db).forwards[old(db).nextForward := f], nextForward := old(db).nextForward + 1);
              if provisioned then result == Done(old(db).nextForward) && db == inserted
              else result == Refused(NodeFailed) && db == inserted.(forwards := inserted.forwards - {old(db).nextForward})
    {
      var id := db.nextForward;
      db := db.(forwards := db.forwards[id := f], nextForward := id + 1);
      if !provisioned {
        db := db.(forwards := db.forwards - {id});
        return Refused(NodeFailed);
      }
      result := Done(id);
    }
  }
}
