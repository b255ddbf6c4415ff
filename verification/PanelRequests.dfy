/** What the requests on forwards do to the panel's rows, said from the request and the rows
    alone: which requests are accepted, what is written, and what stays. */
module PanelRequests {
  import opened Text
  import opened PortPool
  import opened Protocol
  import opened PanelTables
  import opened QuotaMachine
  import PortExclusivity

  // ---- ports ----

  // The forward listens on the port of the node: with its entry port on the entry node, with
  // its relay port on the exit node of a relay or on the public node of a reverse tunnel.
  predicate ListensOn(db: Tables, f: ForwardRow, node: nat, port: int) {
    f.tunnel in db.tunnels
    && var t := db.tunnels[f.tunnel];
       || (f.inPort == port && t.inNode == node)
       || (f.outPort == Some(port) && t.kind.Relay? && t.outNode == node)
       || (f.outPort == Some(port) && t.kind.Reverse? && t.inNode == node)
  }

  predicate Taken(db: Tables, node: nat, port: int, except: Option<nat>) {
    exists id :: id in db.forwards && except != Some(id) && ListensOn(db, db.forwards[id], node, port)
  }

  lemma UsedAreTaken(db: Tables, node: nat, except: Option<nat>, port: int)
    ensures port in UsedPorts(db, node, except) <==> Taken(db, node, port, except)
  {
    forall id | id in db.forwards ensures port in PortsOf(db, id, node) <==> ListensOn(db, db.forwards[id], node, port) {}
  }

  predicate Free(db: Tables, node: nat, reserved: Option<int>, port: int) { !Taken(db, node, port, None) && reserved != Some(port) }

  // The first free port in the pool of the node; zero without a pool or a free port in it.
  ghost predicate FirstInPool(db: Tables, node: nat, reserved: Option<int>, port: int) {
    var pool := if node in db.nodes then Ranges(db.nodes[node].portRange, db.nodes[node].portStart, db.nodes[node].portEnd) else None;
    if pool.None? then port == 0
    else
      var ports := Ports(pool.value);
      if exists k :: 0 <= k < |ports| && Free(db, node, reserved, ports[k])
      then exists k :: 0 <= k < |ports| && ports[k] == port && Free(db, node, reserved, port) && forall j :: 0 <= j < k ==> !Free(db, node, reserved, ports[j])
      else port == 0
  }

  lemma AssignedIsFirst(db: Tables, node: nat, reserved: Option<int>)
    requires node in db.nodes && (reserved.Some? ==> reserved.value > 0)
    ensures FirstInPool(db, node, reserved, NextPortOn(db, node, reserved))
  {
    var used, port := Reserve(UsedPorts(db, node, None), reserved), NextPortOn(db, node, reserved);
    PortExclusivity.NextPortOnIs(db, node, reserved);
    forall p ensures p in used <==> !Free(db, node, reserved, p) { UsedAreTaken(db, node, None, p); }
    var pool := Ranges(db.nodes[node].portRange, db.nodes[node].portStart, db.nodes[node].portEnd);
    if pool.Some? {
      var ports := Ports(pool.value);
      if exists k :: 0 <= k < |ports| && Free(db, node, reserved, ports[k]) {
        assert FirstFree(ports, used, port);
        var k :| 0 <= k < |ports| && ports[k] == port && port !in used && forall j :: 0 <= j < k ==> ports[j] in used;
      }
    }
  }

  lemma FirstIsUnique(db: Tables, node: nat, reserved: Option<int>, p: int, q: int)
    requires FirstInPool(db, node, reserved, p) && FirstInPool(db, node, reserved, q)
    ensures p == q
  {
  }

  lemma AssignedIsOnly(db: Tables, node: nat, reserved: Option<int>, port: int)
    requires node in db.nodes && (reserved.Some? ==> reserved.value > 0) && FirstInPool(db, node, reserved, port)
    ensures port == NextPortOn(db, node, reserved)
  {
    AssignedIsFirst(db, node, reserved);
    FirstIsUnique(db, node, reserved, port, NextPortOn(db, node, reserved));
  }

  // ---- creation ----

  // The entry port: the requested one, or the first of the entry node's pool.
  ghost predicate EntryPortFor(db: Tables, r: CreateRequest, entry: int) {
    r.tunnel in db.tunnels
    && if r.inPort.Some? then entry == r.inPort.value else FirstInPool(db, db.tunnels[r.tunnel].inNode, None, entry)
  }

  // The relay port: none on a direct tunnel; the requested one; on a relay the requested entry
  // port; otherwise the first of the pool, on the entry node beside the entry port.
  ghost predicate RelayPortFor(db: Tables, r: CreateRequest, entry: int, relay: Option<int>) {
    r.tunnel in db.tunnels
    && var t := db.tunnels[r.tunnel];
       if t.kind.Direct? then relay.None?
       else if r.outPort.Some? then relay == r.outPort
       else if t.kind.Relay? && r.inPort.Some? then relay == r.inPort
       else relay.Some? && if t.kind.Relay? then FirstInPool(db, t.outNode, None, relay.value) else FirstInPool(db, t.inNode, Some(entry), relay.value)
  }

  lemma PortsFor(db: Tables, r: CreateRequest, entry: int, relay: Option<int>)
    requires PortExclusivity.WellFormed(db) && r.tunnel in db.tunnels
    requires entry == EntryPort(db, db.tunnels[r.tunnel], r) && entry > 0 && relay == RelayPort(db, db.tunnels[r.tunnel], r, entry)
    ensures EntryPortFor(db, r, entry) && RelayPortFor(db, r, entry, relay)
  {
    var t := db.tunnels[r.tunnel];
    assert PortExclusivity.GoodTunnel(db, t);
    AssignedIsFirst(db, t.inNode, None);
    AssignedIsFirst(db, t.outNode, None);
    AssignedIsFirst(db, t.inNode, Some(entry));
  }

  // The node the relay of the tunnel listens on.
  predicate RelaysOn(t: TunnelRow, node: nat) { (t.kind.Relay? && node == t.outNode) || (t.kind.Reverse? && node == t.inNode) }

  // Both ports exist, nobody listens on them, and they differ where one node has both.
  ghost predicate PortsAvailable(db: Tables, r: CreateRequest, entry: int, relay: Option<int>) {
    && EntryPortFor(db, r, entry) && RelayPortFor(db, r, entry, relay)
    && entry > 0 && !Taken(db, db.tunnels[r.tunnel].inNode, entry, None)
    && (relay.Some? ==> relay.value > 0 && (db.tunnels[r.tunnel].kind.Reverse? ==> relay.value != entry))
    && forall node :: relay.Some? && RelaysOn(db.tunnels[r.tunnel], node) ==> !Taken(db, node, relay.value, None)
  }

  // The owner: the user an administrator names, otherwise the caller.
  predicate OwnedBy(r: CreateRequest, caller: Caller, owner: nat) {
    owner == if caller.admin && r.user.Some? && r.user.value != 0 then r.user.value else caller.id
  }

  // Somebody's forward on the tunnel with the trimmed name and target of the request.
  predicate SameAs(db: Tables, id: nat, r: CreateRequest, owner: nat) {
    && id in db.forwards && db.forwards[id].owner == owner && db.forwards[id].tunnel == r.tunnel
    && db.forwards[id].name == Trim(r.name) && db.forwards[id].remote == Trim(r.remote)
  }

  // A named forward with a target, on an enabled tunnel within its limit, that its owner may use.
  predicate Permitted(db: Tables, r: CreateRequest, caller: Caller, owner: nat) {
    && Trim(r.name) != "" && Trim(r.remote) != "" && r.tunnel in db.tunnels && db.tunnels[r.tunnel].enabled
    && !TunnelQuotaReached(db, r.tunnel)
    && (caller.admin || exists p :: p in db.permissions && db.permissions[p].owner == owner && db.permissions[p].tunnel == r.tunnel && db.permissions[p].enabled)
  }

  predicate PortNumber(p: Option<int>) { p.Some? ==> 1 <= p.value <= 65535 }

  lemma PermittedExactly(db: Tables, r: CreateRequest, caller: Caller, owner: nat)
    ensures CreateRefusal(db, r, caller, owner).None? <==> Permitted(db, r, caller, owner)
  {
  }

  lemma AvailablePorts(db: Tables, r: CreateRequest)
    requires PortExclusivity.WellFormed(db) && r.tunnel in db.tunnels && PortRefusal(db, r).None?
    ensures var t := db.tunnels[r.tunnel]; var entry := EntryPort(db, t, r); var relay := RelayPort(db, t, r, entry);
            PortsAvailable(db, r, entry, relay) && (t.kind.Direct? <==> relay.None?)
  {
    var t := db.tunnels[r.tunnel];
    var entry := EntryPort(db, t, r);
    var relay := RelayPort(db, t, r, entry);
    PortExclusivity.EntryPortIsFree(db, r);
    PortExclusivity.RelayPortIsFree(db, r);
    UsedAreTaken(db, t.inNode, None, entry);
    if relay.Some? { UsedAreTaken(db, RelayNode(t), None, relay.value); }
    PortsFor(db, r, entry, relay);
  }

  lemma PortsAreUnique(db: Tables, r: CreateRequest, entry: int, relay: Option<int>)
    requires PortExclusivity.WellFormed(db) && PortsAvailable(db, r, entry, relay)
    ensures var t := db.tunnels[r.tunnel]; entry == EntryPort(db, t, r) && relay == RelayPort(db, t, r, entry)
  {
    var t := db.tunnels[r.tunnel];
    assert PortExclusivity.GoodTunnel(db, t);
    if r.inPort.None? { AssignedIsOnly(db, t.inNode, None, entry); }
    if !t.kind.Direct? && r.outPort.None? {
      if t.kind.Reverse? { AssignedIsOnly(db, t.inNode, Some(entry), relay.value); }
      else if r.inPort.None? { AssignedIsOnly(db, t.outNode, None, relay.value); }
    }
  }

  lemma AvailableSuffice(db: Tables, r: CreateRequest, entry: int, relay: Option<int>)
    requires PortExclusivity.WellFormed(db) && PortsAvailable(db, r, entry, relay)
    requires PortNumber(r.inPort) && PortNumber(r.outPort) && r.limitGb >= 0
    ensures PortRefusal(db, r).None?
  {
    var t := db.tunnels[r.tunnel];
    PortsAreUnique(db, r, entry, relay);
    assert PortExclusivity.GoodTunnel(db, t);
    EntryIsFree(db, r, entry, relay);
    RelayIsFree(db, r, entry, relay);
    ChecksPass(db, r, t, entry, relay);
  }

  lemma ChecksPass(db: Tables, r: CreateRequest, t: TunnelRow, entry: int, relay: Option<int>)
    requires r.tunnel in db.tunnels && t == db.tunnels[r.tunnel] && (t.kind.Relay? ==> t.inNode != t.outNode)
    requires entry == EntryPort(db, t, r) && relay == RelayPort(db, t, r, entry)
    requires PortNumber(r.inPort) && PortNumber(r.outPort) && r.limitGb >= 0
    requires entry > 0 && entry !in UsedPorts(db, t.inNode, None) && relay != Some(0)
    requires relay.Some? ==> relay.value !in UsedPorts(db, RelayNode(t), None) && (t.kind.Reverse? ==> relay.value != entry)
    ensures PortRefusal(db, r).None?
  {
  }

  lemma EntryIsFree(db: Tables, r: CreateRequest, entry: int, relay: Option<int>)
    requires PortsAvailable(db, r, entry, relay)
    ensures entry > 0 && entry !in UsedPorts(db, db.tunnels[r.tunnel].inNode, None)
  {
    UsedAreTaken(db, db.tunnels[r.tunnel].inNode, None, entry);
  }

  lemma RelayIsFree(db: Tables, r: CreateRequest, entry: int, relay: Option<int>)
    requires PortsAvailable(db, r, entry, relay)
    ensures relay != Some(0)
    ensures var t := db.tunnels[r.tunnel];
            relay.Some? ==> relay.value !in UsedPorts(db, RelayNode(t), None) && (t.kind.Reverse? ==> relay.value != entry)
  {
    var t := db.tunnels[r.tunnel];
    if relay.Some? {
      UsedAreTaken(db, RelayNode(t), None, relay.value);
      assert RelaysOn(t, RelayNode(t));
    }
  }

  // What a creation asks for besides the permission.
  ghost predicate Acceptable(db: Tables, r: CreateRequest, owner: nat) {
    && PortNumber(r.inPort) && PortNumber(r.outPort) && r.limitGb >= 0
    && (r.inPort.None? ==> forall id :: !SameAs(db, id, r, owner))
    && exists entry, relay :: PortsAvailable(db, r, entry, relay)
  }

  lemma TwinExactly(db: Tables, owner: nat, r: CreateRequest)
    requires PortExclusivity.WellFormed(db)
    ensures Twin(db, owner, r, 0).None? <==> forall id :: !SameAs(db, id, r, owner)
    ensures Twin(db, owner, r, 0).Some? ==> SameAs(db, Twin(db, owner, r, 0).value, r, owner)
  {
    forall id: nat ensures SameAs(db, id, r, owner) <==> id in db.forwards && SameConfig(db.forwards[id], owner, r) {}
    forall id: nat | id in db.forwards ensures id < db.nextForward { assert PortExclusivity.GoodForward(db, db.forwards[id]); }
  }

  lemma AcceptableExactly(db: Tables, r: CreateRequest, owner: nat)
    requires PortExclusivity.WellFormed(db) && r.tunnel in db.tunnels
    ensures Acceptable(db, r, owner) <==> (r.inPort.None? ==> Twin(db, owner, r, 0).None?) && PortRefusal(db, r).None?
  {
    TwinExactly(db, owner, r);
    if PortRefusal(db, r).None? { ChecksPassed(db, r); }
    forall entry, relay | PortsAvailable(db, r, entry, relay) && PortNumber(r.inPort) && PortNumber(r.outPort) && r.limitGb >= 0
      ensures PortRefusal(db, r).None?
    {
      AvailableSuffice(db, r, entry, relay);
    }
  }

  lemma ChecksPassed(db: Tables, r: CreateRequest)
    requires PortExclusivity.WellFormed(db) && r.tunnel in db.tunnels && PortRefusal(db, r).None?
    ensures PortNumber(r.inPort) && PortNumber(r.outPort) && r.limitGb >= 0
    ensures exists entry, relay :: PortsAvailable(db, r, entry, relay)
  {
    LimitChecked(db, r);
    AvailablePorts(db, r);
  }

  lemma LimitChecked(db: Tables, r: CreateRequest)
    requires r.tunnel in db.tunnels && PortRefusal(db, r).None?
    ensures PortNumber(r.inPort) && PortNumber(r.outPort) && r.limitGb >= 0
  {
  }

  // A creation succeeds exactly when it is permitted and acceptable and the nodes go along.
  lemma CreatedExactly(db: Tables, r: CreateRequest, caller: Caller, provisioned: bool, owner: nat)
    requires PortExclusivity.WellFormed(db) && OwnedBy(r, caller, owner)
    ensures CreateForward(db, r, caller, provisioned).result.Done? <==> provisioned && Permitted(db, r, caller, owner) && Acceptable(db, r, owner)
    ensures CreateForward(db, r, caller, provisioned).result == Refused(NodeFailed) <==> !provisioned && Permitted(db, r, caller, owner) && Acceptable(db, r, owner)
  {
    PermittedExactly(db, r, caller, owner);
    if r.tunnel in db.tunnels { AcceptableExactly(db, r, owner); }
  }

  // Without a port given, a forward the owner already has is the answer, and nothing is written.
  lemma ExistingExactly(db: Tables, r: CreateRequest, caller: Caller, provisioned: bool, owner: nat)
    requires PortExclusivity.WellFormed(db) && OwnedBy(r, caller, owner)
    ensures var c := CreateForward(db, r, caller, provisioned);
            && (c.result.Existing? <==> r.inPort.None? && Permitted(db, r, caller, owner) && exists id :: SameAs(db, id, r, owner))
            && (c.result.Existing? ==> SameAs(db, c.result.id, r, owner) && c.db == db)
  {
    PermittedExactly(db, r, caller, owner);
    TwinExactly(db, owner, r);
  }

  // The row a creation writes: the request's owner, tunnel, trimmed name and target, and limit,
  // ports that are requested or first in their pools and that nobody listens on, no flow yet,
  // and running.
  ghost predicate RowOf(db: Tables, f: ForwardRow, r: CreateRequest, caller: Caller) {
    && OwnedBy(r, caller, f.owner) && f.tunnel == r.tunnel && f.name == Trim(r.name) && f.remote == Trim(r.remote) && f.limitGb == r.limitGb
    && PortsAvailable(db, r, f.inPort, f.outPort) && (r.inPort.Some? ==> f.inPort == r.inPort.value)
    && f.inFlow == 0 && f.outFlow == 0 && f.status == 1
  }

  // A creation that is done adds exactly this row under the next number.
  lemma CreationAddsItsRow(db: Tables, r: CreateRequest, caller: Caller, provisioned: bool)
    requires PortExclusivity.WellFormed(db) && CreateForward(db, r, caller, provisioned).result.Done?
    ensures var id, after := db.nextForward, CreateForward(db, r, caller, provisioned).db;
            && CreateForward(db, r, caller, provisioned).result.id == id && id !in db.forwards
            && after == db.(forwards := after.forwards, nextForward := id + 1)
            && after.forwards.Keys == db.forwards.Keys + {id} && (forall k :: k in db.forwards ==> after.forwards[k] == db.forwards[k])
            && RowOf(db, after.forwards[id], r, caller)
  {
    PortExclusivity.CreateShape(db, r, caller, provisioned);
    AvailablePorts(db, r);
  }

  // What can be wrong with the ports or the limit of a request.
  ghost predicate PortsAtFault(db: Tables, r: CreateRequest, why: Refusal)
    requires r.tunnel in db.tunnels
  {
    var t := db.tunnels[r.tunnel];
    match why
    case BadPort => !PortNumber(r.inPort) || !PortNumber(r.outPort)
    case NoPool => r.inPort.None? || r.outPort.None?
    case EntryPortTaken => r.inPort.Some? && Taken(db, t.inNode, r.inPort.value, None)
    case SamePorts => r.outPort.Some? && EntryPortFor(db, r, r.outPort.value)
    case RelayPortTaken => exists node, p :: RelaysOn(t, node) && Taken(db, node, p, None) && Some(p) in {r.inPort, r.outPort}
    case NegativeLimit => r.limitGb < 0
    case _ => false
  }

  ghost predicate AtFault(db: Tables, r: CreateRequest, caller: Caller, owner: nat, why: Refusal) {
    match why
    case BlankName => Trim(r.name) == "" || Trim(r.remote) == ""
    case NoTunnel => r.tunnel !in db.tunnels
    case TunnelDisabled => r.tunnel in db.tunnels && !db.tunnels[r.tunnel].enabled
    case QuotaExhausted => TunnelQuotaReached(db, r.tunnel)
    case NoPermission =>
      !caller.admin && !exists p :: p in db.permissions && db.permissions[p].owner == owner && db.permissions[p].tunnel == r.tunnel && db.permissions[p].enabled
    case _ => r.tunnel in db.tunnels && PortsAtFault(db, r, why)
  }

  // A creation that is not done writes no row; each refusal has its cause in the request.
  lemma RefusalsHaveTheirCause(db: Tables, r: CreateRequest, caller: Caller, provisioned: bool, owner: nat)
    requires PortExclusivity.WellFormed(db) && OwnedBy(r, caller, owner) && CreateForward(db, r, caller, provisioned).result.Refused?
    ensures var c := CreateForward(db, r, caller, provisioned);
            && c.db == db.(nextForward := c.db.nextForward)
            && if c.result.why == NodeFailed then !provisioned else c.db == db && AtFault(db, r, caller, owner, c.result.why)
  {
    PortExclusivity.CreateShape(db, r, caller, provisioned);
    if CreateRefusal(db, r, caller, owner).None? && PortRefusal(db, r).Some? { RefusedPorts(db, r); }
  }

  lemma RefusedPorts(db: Tables, r: CreateRequest)
    requires PortExclusivity.WellFormed(db) && r.tunnel in db.tunnels && PortRefusal(db, r).Some?
    ensures PortsAtFault(db, r, PortRefusal(db, r).value)
  {
    var t := db.tunnels[r.tunnel];
    var entry := EntryPort(db, t, r);
    var relay := RelayPort(db, t, r, entry);
    var why := PortRefusal(db, r).value;
    ChecksInOrder(db, r, t, entry, relay);
    if why == EntryPortTaken {
      EntryTakenCause(db, r, t, entry);
    } else if why == SamePorts {
      SamePortsCause(db, r, t, entry, relay);
    } else if why == RelayPortTaken {
      RelayTakenCause(db, r, t, entry, relay);
    }
  }

  lemma ChecksInOrder(db: Tables, r: CreateRequest, t: TunnelRow, entry: int, relay: Option<int>)
    requires r.tunnel in db.tunnels && t == db.tunnels[r.tunnel] && entry == EntryPort(db, t, r) && relay == RelayPort(db, t, r, entry)
    requires PortRefusal(db, r).Some?
    ensures match PortRefusal(db, r).value
            case BadPort => !PortNumber(r.inPort) || !PortNumber(r.outPort)
            case NoPool => r.inPort.None? || r.outPort.None?
            case EntryPortTaken => entry > 0 && entry in UsedPorts(db, t.inNode, None)
            case SamePorts => entry > 0 && relay == Some(entry) && RelayNode(t) == t.inNode
            case RelayPortTaken => relay.Some? && relay.value > 0 && relay.value in UsedPorts(db, RelayNode(t), None)
            case NegativeLimit => r.limitGb < 0
            case _ => false
  {
  }

  lemma EntryTakenCause(db: Tables, r: CreateRequest, t: TunnelRow, entry: int)
    requires r.tunnel in db.tunnels && t == db.tunnels[r.tunnel] && entry == EntryPort(db, t, r)
    requires entry > 0 && entry in UsedPorts(db, t.inNode, None)
    ensures r.inPort.Some? && Taken(db, t.inNode, r.inPort.value, None)
  {
    if r.inPort.None? { PortExclusivity.NextPortSafe(db, t.inNode, None); }
    UsedAreTaken(db, t.inNode, None, entry);
  }

  lemma SamePortsCause(db: Tables, r: CreateRequest, t: TunnelRow, entry: int, relay: Option<int>)
    requires PortExclusivity.WellFormed(db) && r.tunnel in db.tunnels && t == db.tunnels[r.tunnel] && entry > 0
    requires entry == EntryPort(db, t, r) && relay == RelayPort(db, t, r, entry) && relay == Some(entry) && RelayNode(t) == t.inNode
    ensures r.outPort.Some? && EntryPortFor(db, r, r.outPort.value)
  {
    assert PortExclusivity.GoodTunnel(db, t);
    PortExclusivity.NextPortSafe(db, t.inNode, Some(entry));
    PortsFor(db, r, entry, relay);
  }

  lemma RelayTakenCause(db: Tables, r: CreateRequest, t: TunnelRow, entry: int, relay: Option<int>)
    requires PortExclusivity.WellFormed(db) && r.tunnel in db.tunnels && t == db.tunnels[r.tunnel]
    requires entry == EntryPort(db, t, r) && relay == RelayPort(db, t, r, entry)
    requires relay.Some? && relay.value > 0 && relay.value in UsedPorts(db, RelayNode(t), None)
    ensures exists node, p :: RelaysOn(t, node) && Taken(db, node, p, None) && Some(p) in {r.inPort, r.outPort}
  {
    assert PortExclusivity.GoodTunnel(db, t);
    PortExclusivity.NextPortSafe(db, t.inNode, Some(entry));
    PortExclusivity.NextPortSafe(db, t.outNode, None);
    UsedAreTaken(db, RelayNode(t), None, relay.value);
    assert RelaysOn(t, RelayNode(t)) && Taken(db, RelayNode(t), relay.value, None);
  }

  // ---- update ----

  // An administrator or the owner.
  predicate Reaches(db: Tables, id: nat, caller: Caller) {
    id in db.forwards && db.forwards[id].tunnel in db.tunnels && (caller.admin || db.forwards[id].owner == caller.id)
  }

  // Ports that are sent replace those of the row; a relay port on a direct tunnel is not checked.
  predicate NewPortsFree(db: Tables, r: UpdateRequest, f: ForwardRow, t: TunnelRow) {
    && !Taken(db, t.inNode, if r.inPort.Some? then r.inPort.value else f.inPort, Some(r.id))
    && var relay := if r.outPort.Some? then r.outPort else f.outPort;
       && (relay.Some? && t.kind.Relay? ==> !Taken(db, t.outNode, relay.value, Some(r.id)))
       && (relay.Some? && t.kind.Reverse? ==> !Taken(db, t.inNode, relay.value, Some(r.id)))
  }

  lemma UpdatedExactly(db: Tables, r: UpdateRequest, caller: Caller, acks: Acks)
    requires PortExclusivity.WellFormed(db)
    ensures var u := UpdateForward(db, r, caller, acks);
            && (u.result == Done(r.id) <==>
                  && Reaches(db, r.id, caller) && r.limitGb >= 0 && PortNumber(r.inPort) && PortNumber(r.outPort)
                  && NewPortsFree(db, r, db.forwards[r.id], db.tunnels[db.forwards[r.id].tunnel]))
            && (u.result != Done(r.id) ==> u.result.Refused? && u.db == db)
  {
    if Reaches(db, r.id, caller) {
      var f := db.forwards[r.id];
      var t := db.tunnels[f.tunnel];
      var relay := if r.outPort.Some? then r.outPort else f.outPort;
      assert PortExclusivity.GoodForward(db, f) && PortExclusivity.GoodTunnel(db, t);
      UsedAreTaken(db, t.inNode, Some(r.id), if r.inPort.Some? then r.inPort.value else f.inPort);
      if relay.Some? {
        UsedAreTaken(db, t.outNode, Some(r.id), relay.value);
        UsedAreTaken(db, t.inNode, Some(r.id), relay.value);
      }
    }
  }

  // The row as sent: name, target and limit from the request, ports where they are given; the
  // owner, the tunnel and the flows stay.
  predicate RowAsSent(f: ForwardRow, g: ForwardRow, r: UpdateRequest) {
    && g.name == r.name && g.remote == r.remote && g.limitGb == r.limitGb
    && g.inPort == (if r.inPort.Some? then r.inPort.value else f.inPort) && g.outPort == (if r.outPort.Some? then r.outPort else f.outPort)
    && g.owner == f.owner && g.tunnel == f.tunnel && g.inFlow == f.inFlow && g.outFlow == f.outFlow
  }

  // An accepted update writes its row as sent and nothing else but statuses: with the new row,
  // the forwards of its tunnel that are not paused and whose node goes along are exhausted if a
  // limit is reached and running otherwise.
  lemma UpdateWritesItsRow(db: Tables, r: UpdateRequest, caller: Caller, acks: Acks, id: nat)
    requires Counted(db) && UpdateForward(db, r, caller, acks).result.Done?
    ensures var after := UpdateForward(db, r, caller, acks).db;
            && after == db.(forwards := after.forwards) && after.forwards.Keys == db.forwards.Keys && r.id in db.forwards
            && (id in db.forwards ==>
                  var f, g := db.forwards[id], after.forwards[id];
                  && (if id == r.id then RowAsSent(f, g, r) else g == f.(status := g.status))
                  && g.status == if f.tunnel == db.forwards[r.id].tunnel && f.status != PAUSED && acks(id)
                                 then (if Exceeded(after, id) then EXHAUSTED else RUNNING) else f.status)
  {
    var saved, tunnel := SavedForward(db, r), db.forwards[r.id].tunnel;
    ReconcileFollowsReplies(saved, tunnel, acks, id);
    ReconcileKeepsUsage(saved, tunnel, acks, id);
  }

  // ---- pause, resume and deletion ----

  // A resumption within the limits that the node confirms is written as running, a confirmed
  // pause as paused, and in every other case nothing is written.
  lemma StatusFollowsReply(db: Tables, id: nat, resume: bool, ack: bool)
    requires PortExclusivity.WellFormed(db)
    ensures var c := ChangeStatus(db, id, resume, ack);
            && (c.result == Done(id) <==> id in db.forwards && ack && (resume ==> !Exceeded(db, id)))
            && c.db == db.(forwards := c.db.forwards) && c.db.forwards.Keys == db.forwards.Keys
            && (forall k :: k in db.forwards && k != id ==> c.db.forwards[k] == db.forwards[k])
            && (id in db.forwards ==>
                  c.db.forwards[id] == db.forwards[id].(status := if c.result != Done(id) then db.forwards[id].status else if resume then 1 else 0))
            && (c.result != Done(id) ==> c.result == Refused(if id !in db.forwards then NoForward else if resume && Exceeded(db, id) then QuotaExhausted else NodeFailed))
  {
    if id in db.forwards { assert PortExclusivity.GoodForward(db, db.forwards[id]); }
  }

  // A deletion by the owner or an administrator drops the row and no other.
  lemma DeletionDropsItsRow(db: Tables, id: nat, caller: Caller)
    ensures var d := DeleteForward(db, id, caller);
            && (d.result == Done(id) <==> Reaches(db, id, caller)) && (d.result != Done(id) ==> d.result == Refused(NoForward))
            && d.db == db.(forwards := d.db.forwards)
            && (forall k :: k in d.db.forwards <==> k in db.forwards && !(k == id && Reaches(db, id, caller)))
            && (forall k :: k in d.db.forwards ==> d.db.forwards[k] == db.forwards[k])
  {
  }

  // ---- usage, limits and reports ----

  // The limit in bytes, between zero and the largest 64-bit value.
  lemma LimitInBytes(gigabytes: int)
    ensures ToBytes(gigabytes) <= LONG_MAX && (ToBytes(gigabytes) == 0 <==> gigabytes <= 0)
    ensures gigabytes >= 0 && gigabytes * GIGABYTE <= LONG_MAX ==> ToBytes(gigabytes) == gigabytes * 1073741824
    ensures gigabytes * GIGABYTE > LONG_MAX ==> ToBytes(gigabytes) == LONG_MAX
  {
  }

  // Rounding to the nearest byte, halves upwards, and nothing below zero.
  lemma ScaledBytes(bytes: int, tenths: int)
    ensures bytes * tenths > 0 ==> 10 * Scale(bytes, tenths) - 5 <= bytes * tenths < 10 * Scale(bytes, tenths) + 5
    ensures bytes * tenths <= 0 ==> Scale(bytes, tenths) == 0
  {
    var scaled := bytes * tenths;
    assert 0 <= (scaled + 5) % 10 < 10 && scaled + 5 == 10 * ((scaled + 5) / 10) + (scaled + 5) % 10;
  }

  lemma {:induction false} UsageWithout(m: map<nat, ForwardRow>, id: nat, tunnel: nat, oneWay: bool, n: nat)
    ensures UsageBelow(m, tunnel, oneWay, n) ==
            UsageBelow(m - {id}, tunnel, oneWay, n) + if id < n && id in m && m[id].tunnel == tunnel then Usage(m[id], oneWay) else 0
  {
    if n > 0 { UsageWithout(m, id, tunnel, oneWay, n - 1); }
  }

  lemma {:induction false} UsageOfNone(m: map<nat, ForwardRow>, tunnel: nat, oneWay: bool, n: nat)
    requires forall id :: id in m ==> m[id].tunnel != tunnel
    ensures UsageBelow(m, tunnel, oneWay, n) == 0
  {
    if n > 0 { UsageOfNone(m, tunnel, oneWay, n - 1); }
  }

  // The usage of a tunnel is the sum over its forwards of the inbound bytes, and unless only
  // these count of the outbound ones: nothing without forwards, and each forward adds its own.
  lemma TunnelUsageIsSum(db: Tables, tunnel: nat, id: nat)
    requires PortExclusivity.WellFormed(db) && tunnel in db.tunnels
    ensures (forall k :: k in db.forwards ==> db.forwards[k].tunnel != tunnel) ==> TunnelUsage(db, tunnel) == 0
    ensures id in db.forwards ==>
              var f := db.forwards[id];
              TunnelUsage(db, tunnel) - TunnelUsage(db.(forwards := db.forwards - {id}), tunnel)
              == if f.tunnel != tunnel then 0 else if db.tunnels[tunnel].oneWay then f.inFlow else f.inFlow + f.outFlow
  {
    UsageWithout(db.forwards, id, tunnel, db.tunnels[tunnel].oneWay, db.nextForward);
    if forall k :: k in db.forwards ==> db.forwards[k].tunnel != tunnel {
      UsageOfNone(db.forwards, tunnel, db.tunnels[tunnel].oneWay, db.nextForward);
    }
  }

  // A forward exceeds when a limit that is set is reached by its own usage or its tunnel's.
  lemma ExceededExactly(db: Tables, id: nat)
    requires PortExclusivity.WellFormed(db) && id in db.forwards
    ensures var f := db.forwards[id];
            f.tunnel in db.tunnels
            && (Exceeded(db, id) <==>
                  || (f.limitGb > 0 && (if db.tunnels[f.tunnel].oneWay then f.inFlow else f.inFlow + f.outFlow) >= ToBytes(f.limitGb))
                  || (db.tunnels[f.tunnel].limitGb > 0 && TunnelUsage(db, f.tunnel) >= ToBytes(db.tunnels[f.tunnel].limitGb)))
  {
    assert PortExclusivity.GoodForward(db, db.forwards[id]);
    LimitInBytes(db.forwards[id].limitGb);
    LimitInBytes(db.tunnels[db.forwards[id].tunnel].limitGb);
  }

  // A report under the name of a service of a forward is booked on this forward, if its owner
  // exists and it comes from the node that carries the forward's traffic, and on nothing
  // otherwise.
  lemma ReportsAreBookedExactly(db: Tables, id: nat, owner: nat, relation: nat, transport: string, node: nat)
    requires id <= LONG_MAX && '_' !in transport
    ensures BookedOn(db, ServiceName(id, owner, relation) + "_" + transport, node) == if Carries(db, id, node) then Some(id) else None
  {
    ReportsFindTheirForward(id, owner, relation, transport);
  }

  // The traffic of a forward passes its entry node, on a reverse tunnel the private node.
  predicate Carries(db: Tables, id: nat, node: nat) {
    id in db.forwards && db.forwards[id].owner in db.users && db.forwards[id].tunnel in db.tunnels
    && var t := db.tunnels[db.forwards[id].tunnel]; node == if t.kind.Reverse? then t.outNode else t.inNode
  }

  // What is booked: uploaded bytes as inbound and downloaded ones as outbound flow, each at the
  // ratio of the tunnel.
  lemma ReportsAreCredited(db: Tables, id: nat, owner: nat, relation: nat, transport: string, up: int, down: int, node: nat)
    requires id <= LONG_MAX && '_' !in transport && Carries(db, id, node)
    ensures var report := Report(ServiceName(id, owner, relation) + "_" + transport, up, down);
            var after, tenths := ApplyReport(db, report, node), db.tunnels[db.forwards[id].tunnel].tenths;
            && id in after.forwards
            && after.forwards[id].inFlow == db.forwards[id].inFlow + Scale(up, tenths)
            && after.forwards[id].outFlow == db.forwards[id].outFlow + Scale(down, tenths)
  {
    var report := Report(ServiceName(id, owner, relation) + "_" + transport, up, down);
    var tenths := db.tunnels[db.forwards[id].tunnel].tenths;
    ReportsAreBookedExactly(db, id, owner, relation, transport, node);
    if Scale(up, tenths) > 0 || Scale(down, tenths) > 0 {
      EnforceExceeded(Credit(db, id, Scale(up, tenths), Scale(down, tenths)), id, id);
    }
  }

  // Names of fewer than three parts are no services of forwards.
  lemma ShortNamesAreNotBooked(db: Tables, first: string, second: string, node: nat)
    requires '_' !in first && '_' !in second
    ensures BookedOn(db, first, node).None? && BookedOn(db, first + "_" + second, node).None?
  {
    SplitNothing(first, '_');
    SplitNothing(second, '_');
    SplitPrefix(first, second, '_');
  }

  // ---- nodes and tunnels ----

  // The pool of a node that is added or changed holds the ports of the text that was sent.
  lemma NodesHaveTheirPool(db: Tables, id: nat, range: string)
    requires Trim(range) != "" && Ranges(range, 0, 0).Some?
    ensures var after := CreateNode(db, range);
            && after == db.(nodes := db.nodes[db.nextNode := after.nodes[db.nextNode]], nextNode := db.nextNode + 1)
            && var n := after.nodes[db.nextNode]; Ranges(n.portRange, n.portStart, n.portEnd) == Ranges(range, 0, 0)
    ensures id in db.nodes ==>
              var after := UpdateNode(db, id, range);
              && id in after.nodes && after == db.(nodes := db.nodes[id := after.nodes[id]])
              && var n := after.nodes[id]; Ranges(n.portRange, n.portStart, n.portEnd) == Ranges(range, 0, 0)
  {
    var n := PoolRow(range);
    NormalizationIsStable(range, 0, 0, n.portStart, n.portEnd);
  }

  // A node without ports, from a blank range, has none to give.
  lemma BlankPoolsAreEmpty(db: Tables, range: string, reserved: Option<int>)
    requires Trim(range) == ""
    ensures var after := CreateNode(db, range); db.nextNode in after.nodes && NextPortOn(after, db.nextNode, reserved) == 0
  {
    assert Numeral(0) + "-" + Numeral(0) == "0-0";
    assert Trim("") == "" && Trim("0-0") == "0-0";
    ZeroIsNoPool();
  }

  lemma ZeroIsNoPool()
    ensures Ranges("", 0, 0).None?
  {
    ZeroIsOnePart();
    ZeroIsNoPart();
    assert ["0-0"][..0] == [] && ParseParts(["0-0"]).None?;
  }

  lemma ZeroIsOnePart()
    ensures Parts("", 0, 0) == ["0-0"]
  {
    assert Source("", 0, 0) == "0-0";
    SplitNothing("0-0", ',');
    CleanIdentity(["0-0"]);
  }

  lemma ZeroIsNoPart()
    ensures ParsePart("0-0").None?
  {
    ZeroBounds();
    TryParseDecimal(0, INT_MIN, INT_MAX);
    assert Decimal(0) == "0";
  }

  lemma ZeroBounds()
    ensures CleanPieces(Split("0-0", '-')) == ["0", "0"]
  {
    SplitNothing("0", '-');
    SplitPrefix("0", "0", '-');
    assert "0" + ['-'] + "0" == "0-0" && ["0"] + ["0"] == ["0", "0"];
    CleanIdentity(["0", "0"]);
  }

  // Two places that may carry a tunnel: a direct one has a single node, a relay two.
  predicate PlacesFor(db: Tables, kind: Kind, inNode: nat, outNode: nat) {
    && inNode in db.nodes && outNode in db.nodes
    && (kind.Direct? ==> outNode == inNode) && (kind.Relay? ==> outNode != inNode)
  }

  // A tunnel is added exactly when its nodes exist and suit its kind and its limit is not
  // negative, as it was asked for and enabled; a direct one ignores the exit it was sent.
  lemma TunnelIsAddedExactly(db: Tables, kind: Kind, inNode: nat, requestedOut: Option<nat>, oneWay: bool, limitGb: int, tenths: int, outNode: nat)
    requires db.nextTunnel !in db.tunnels && outNode == if kind.Direct? then inNode else if requestedOut.Some? then requestedOut.value else 0
    ensures var after := CreateTunnel(db, kind, inNode, requestedOut, oneWay, limitGb, tenths);
            if limitGb >= 0 && PlacesFor(db, kind, inNode, outNode) && (kind.Direct? || requestedOut.Some?)
            then after == db.(tunnels := after.tunnels, nextTunnel := db.nextTunnel + 1) && after.tunnels - {db.nextTunnel} == db.tunnels
                 && db.nextTunnel in after.tunnels
                 && after.tunnels[db.nextTunnel] == TunnelRow(kind, inNode, outNode, oneWay, limitGb, tenths, true)
            else after == db
  {
  }

  // A changed tunnel has the limit, ratio and direction it was sent, on the same nodes; its
  // forwards follow the new limit if the synchronisation succeeded, and nothing else changes.
  lemma TunnelUpdateIsFollowed(db: Tables, tunnel: nat, oneWay: bool, limitGb: int, tenths: int, synced: bool, acks: Acks, id: nat)
    requires Counted(db) && tunnel in db.tunnels && limitGb >= 0
    ensures var after, t := UpdateTunnel(db, tunnel, oneWay, limitGb, tenths, synced, acks), db.tunnels[tunnel];
            && after == db.(forwards := after.forwards, tunnels := after.tunnels) && after.forwards.Keys == db.forwards.Keys
            && after.tunnels == db.tunnels[tunnel := TunnelRow(t.kind, t.inNode, t.outNode, oneWay, limitGb, tenths, t.enabled)]
            && (id in db.forwards ==>
                  var f, g := db.forwards[id], after.forwards[id];
                  && g == f.(status := g.status)
                  && g.status == if synced && f.tunnel == tunnel && f.status != PAUSED && acks(id)
                                 then (if Exceeded(after, id) then EXHAUSTED else RUNNING) else f.status)
  {
    var saved := SavedTunnel(db, tunnel, oneWay, limitGb, tenths);
    ReconcileFollowsReplies(saved, tunnel, acks, id);
    ReconcileKeepsUsage(saved, tunnel, acks, id);
  }
}
