/** The panel's tables and the agents on its nodes in one machine: what the panel numbers next is
    used on no node, so creating a forward is all or nothing in both parts, whatever happened
    before. Nodes come and go; a node that is not in the fleet is offline. */
module Provisioning {
  import opened Text
  import opened AgentTables
  import opened AgentAgreement
  import opened AgentReplay
  import opened Protocol
  import opened Fleet
  import opened Compensation
  import opened NodeNames
  import Chains = AgentChains
  import Panel = PanelTables
  import PortExclusivity
  import Replay

  // ---- the compensation with nodes offline ----

  lemma OfflineRollback(nodes: Nodes, t: Tunnel, name: string)
    requires Base(name) && forall k :: k in nodes && k in {t.inNode, t.outNode} ==> Fresh(nodes[k], name)
    ensures Rollback(nodes, t, name) == nodes
  {
    var names := TransportNames(name, t.protocol);
    assert names == TransportNames(name, if t.protocol == "anytls" then "anytls" else "tls");
    forall k | k in nodes && k in {t.inNode, t.outNode}
      ensures Answer(nodes[k], DeleteServices(names), ALL_PARSE).node == nodes[k]
      ensures Answer(nodes[k], DeleteServices([name + "_tls"]), ALL_PARSE).node == nodes[k]
      ensures Answer(nodes[k], DeleteServices([name + "_relay"]), ALL_PARSE).node == nodes[k]
      ensures Answer(nodes[k], DeleteChain(name + "_chains"), ALL_PARSE).node == nodes[k]
      ensures nodes[k := nodes[k]] == nodes
    {
      AbsentUndo(nodes[k], name, names);
      AbsentUndo(nodes[k], name, [name + "_tls"]);
      AbsentUndo(nodes[k], name, [name + "_relay"]);
    }
  }

  lemma HalfRelay(nodes: Nodes, t: Tunnel, f: Forward, name: string, limiter: Option<string>, luck: Luck)
    requires t.kind.Relay? && t.inNode in nodes && t.outNode !in nodes
    ensures var data := EntryServices(name, t, f, limiter);
            var begun := Answer(nodes[t.inNode], AddServices(data), luck(0)).failure.None?;
            var added := Added(nodes[t.inNode], data, luck(0), Chain(name, t, f), luck(1), begun);
            Rollback(Attempt(nodes, t, f, name, limiter, luck).nodes, t, name)
            == nodes[t.inNode := Undone(added, TransportNames(name, t.protocol), name + "_chains")]
  {
    var data := EntryServices(name, t, f, limiter);
    var begun := Answer(nodes[t.inNode], AddServices(data), luck(0)).failure.None?;
    var added := Added(nodes[t.inNode], data, luck(0), Chain(name, t, f), luck(1), begun);
    assert Attempt(nodes, t, f, name, limiter, luck).nodes == nodes[t.inNode := added];
    HalfRelayRollback(nodes, added, t, name);
  }

  lemma HalfRelayRollback(nodes: Nodes, added: Node, t: Tunnel, name: string)
    requires t.kind.Relay? && t.inNode in nodes && t.outNode !in nodes
    ensures Rollback(nodes[t.inNode := added], t, name)
            == nodes[t.inNode := Undone(added, TransportNames(name, t.protocol), name + "_chains")]
  {
  }

  lemma HalfReverse(nodes: Nodes, t: Tunnel, f: Forward, name: string, limiter: Option<string>, luck: Luck)
    requires t.kind.Reverse? && t.inNode in nodes && t.outNode !in nodes
    ensures Rollback(Attempt(nodes, t, f, name, limiter, luck).nodes, t, name)
            == nodes[t.inNode := PublicRemoved(PublicAdded(nodes[t.inNode], t, f, name, limiter, luck(0)), name)]
  {
    assert Attempt(nodes, t, f, name, limiter, luck).nodes
        == nodes[t.inNode := PublicAdded(nodes[t.inNode], t, f, name, limiter, luck(0))];
  }

  // The compensation asks to delete a service that was never made next to one that was.
  predicate GetsStuck(nodes: Nodes, t: Tunnel, luck: Luck) {
    AsksTooMuch(t) && t.inNode in nodes && t.outNode in nodes && luck(0)(0) && luck(1)(0)
  }

  lemma HalfRelayRestores(nodes: Nodes, t: Tunnel, f: Forward, name: string, limiter: Option<string>, luck: Luck)
    requires t.kind.Relay? && t.inNode in nodes && t.outNode !in nodes
    requires Base(name) && Sound(nodes[t.inNode]) && Fresh(nodes[t.inNode], name)
    ensures SameTables(Rollback(Attempt(nodes, t, f, name, limiter, luck).nodes, t, name), nodes)
  {
    HalfRelay(nodes, t, f, name, limiter, luck);
    UndoRelayEntry(nodes[t.inNode], t, f, name, limiter, luck(0), luck(1),
                   Answer(nodes[t.inNode], AddServices(EntryServices(name, t, f, limiter)), luck(0)).failure.None?);
  }

  lemma HalfReverseRestores(nodes: Nodes, t: Tunnel, f: Forward, name: string, limiter: Option<string>, luck: Luck)
    requires t.kind.Reverse? && t.inNode in nodes && t.outNode !in nodes
    requires Base(name) && Sound(nodes[t.inNode]) && Fresh(nodes[t.inNode], name)
    ensures SameTables(Rollback(Attempt(nodes, t, f, name, limiter, luck).nodes, t, name), nodes)
  {
    HalfReverse(nodes, t, f, name, limiter, luck);
    PublicRestored(nodes[t.inNode], t, f, name, limiter, luck(0));
  }

  lemma EntryOffline(nodes: Nodes, t: Tunnel, f: Forward, name: string, limiter: Option<string>, luck: Luck)
    requires t.inNode !in nodes && Base(name) && forall k :: k in nodes ==> Fresh(nodes[k], name)
    ensures SameTables(Rollback(Attempt(nodes, t, f, name, limiter, luck).nodes, t, name), nodes)
  {
    OfflineRollback(nodes, t, name);
  }

  // Rollback restores whichever nodes are there.
  lemma RollbackAnywhere(nodes: Nodes, t: Tunnel, f: Forward, name: string, limiter: Option<string>, luck: Luck)
    requires Base(name) && (t.kind.Relay? ==> t.inNode != t.outNode) && (t.kind.Direct? ==> t.inNode == t.outNode)
    requires forall k :: k in nodes ==> Sound(nodes[k]) && Fresh(nodes[k], name)
    ensures SameTables(Rollback(Attempt(nodes, t, f, name, limiter, luck).nodes, t, name), nodes) <==> !GetsStuck(nodes, t, luck)
  {
    if t.inNode !in nodes {
      EntryOffline(nodes, t, f, name, limiter, luck);
    } else if t.outNode in nodes {
      RollbackRestoresExactly(nodes, t, f, name, limiter, luck);
    } else if t.kind.Relay? {
      HalfRelayRestores(nodes, t, f, name, limiter, luck);
    } else {
      HalfReverseRestores(nodes, t, f, name, limiter, luck);
    }
  }

  // ---- the limiter ----

  lemma LimiterOnNode(n: Node, t: Tunnel)
    ensures var r := Answer(n, EnsureLimiter(Limiter(t)), ALL_PARSE);
            r.failure.None? && r.node.agent == n.agent && r.node.chains == n.chains
  {
    var name := LimiterName(t);
    DecimalVisible(t.id);
    assert name[0] == 'r' && IsDigit(name[|name| - 1]);
    TrimIdentity(name);
  }

  // Ensuring the limiter touches no service and no chain, and fails only on an offline node.
  lemma LimitersOnNodes(nodes: Nodes, t: Tunnel)
    ensures var l := Replay.EnsureLimiters(Answer, nodes, t);
            && l.nodes.Keys == nodes.Keys
            && (forall k :: k in nodes ==> l.nodes[k].agent == nodes[k].agent && l.nodes[k].chains == nodes[k].chains)
            && (t.inNode in nodes && t.outNode in nodes ==> l.failure.None?)
  {
    forall n ensures var r := Answer(n, EnsureLimiter(Limiter(t)), ALL_PARSE);
                     r.failure.None? && r.node.agent == n.agent && r.node.chains == n.chains
    {
      LimiterOnNode(n, t);
    }
  }

  // ---- the joint machine ----

  datatype World = World(db: Panel.Tables, nodes: Nodes)

  // The columns that the panel's tables leave out.
  datatype Details = Details(
    protocol: string, outIp: string, entryIp: string, tcpListen: string, udpListen: string, password: string, speedKbps: int,
    strategy: string, interfaceName: string, secret: string)

  function TunnelOf(db: Panel.Tables, id: nat, d: Details): Tunnel
    requires id in db.tunnels
  {
    var t := db.tunnels[id];
    Tunnel(id, t.kind, d.protocol, t.inNode, t.outNode, d.outIp, d.entryIp, d.tcpListen, d.udpListen, d.password, d.speedKbps)
  }

  function ForwardOf(f: Panel.ForwardRow, id: nat, d: Details): Forward {
    Forward(id, f.owner, f.inPort, if f.outPort.Some? then f.outPort.value else 0, f.remote, d.strategy, d.interfaceName, d.secret)
  }

  datatype Created = Created(result: Panel.Result, world: World)

  // The limiter, then the services and chains with their compensation.
  function Provision(nodes: Nodes, t: Tunnel, f: Forward, name: string, luck: Luck): Provisioned {
    var limiter := Replay.EnsureLimiters(Answer, nodes, t);
    if limiter.failure.Some? then Provisioned(false, limiter.nodes)
    else Fleet.CreateForward(limiter.nodes, t, f, name, limiter.name, luck)
  }

  // The same for the row that is to get the next number.
  function NextProvision(w: World, row: Panel.ForwardRow, tunnel: nat, d: Details, relation: nat, luck: Luck): Provisioned
    requires tunnel in w.db.tunnels
  {
    var id := w.db.nextForward;
    Provision(w.nodes, TunnelOf(w.db, tunnel, d), ForwardOf(row, id, d), ServiceName(id, row.owner, relation), luck)
  }

  // The first permission, from identifier i on, of the owner on the tunnel; zero if there is none.
  function PermissionFrom(db: Panel.Tables, owner: nat, tunnel: nat, enabledOnly: bool, i: nat): nat
    decreases db.nextPermission - i
  {
    if i >= db.nextPermission then 0
    else if i in db.permissions && db.permissions[i].owner == owner && db.permissions[i].tunnel == tunnel
            && (enabledOnly ==> db.permissions[i].enabled) then i
    else PermissionFrom(db, owner, tunnel, enabledOnly, i + 1)
  }

  // CreateAsync only sees an enabled permission; DeleteAsync sees any.
  function CreationRelation(db: Panel.Tables, owner: nat, tunnel: nat): nat { PermissionFrom(db, owner, tunnel, true, 0) }
  function DeletionRelation(db: Panel.Tables, owner: nat, tunnel: nat): nat { PermissionFrom(db, owner, tunnel, false, 0) }

  // CreateAsync: the panel's decision, the limiter, the node commands with their
  // compensation, and the row kept or deleted.
  function CreateForward(w: World, r: Panel.CreateRequest, caller: Panel.Caller, d: Details, luck: Luck): Created {
    var wanted := Panel.CreateForward(w.db, r, caller, true);
    if !wanted.result.Done? || r.tunnel !in w.db.tunnels then Created(wanted.result, World(wanted.db, w.nodes))
    else
      var row := Panel.NewForward(w.db, r, Panel.Owner(r, caller));
      var p := NextProvision(w, row, r.tunnel, d, CreationRelation(w.db, row.owner, r.tunnel), luck);
      var decided := Panel.CreateForward(w.db, r, caller, p.created);
      Created(decided.result, World(decided.db, p.nodes))
  }

  // DeleteAsync; with force the nodes are not asked.
  function DeleteForward(w: World, id: nat, caller: Panel.Caller, d: Details, force: bool): World {
    var deleted := Panel.DeleteForward(w.db, id, caller);
    if !deleted.result.Done? || id !in w.db.forwards || w.db.forwards[id].tunnel !in w.db.tunnels then w
    else
      var f := w.db.forwards[id];
      var name := ServiceName(id, f.owner, DeletionRelation(w.db, f.owner, f.tunnel));
      World(deleted.db, if force then w.nodes else Fleet.DeleteForward(w.nodes, TunnelOf(w.db, f.tunnel, d), id, name))
  }

  datatype Event =
    | Creates(request: Panel.CreateRequest, caller: Panel.Caller, details: Details, luck: Luck)
    | Deletes(id: nat, user: Panel.Caller, columns: Details, force: bool)
    | Writes(op: Panel.Op)
    | Sends(node: int, command: Request, parses: Parses)
    | Joins(node: int, state: Node)
    | Leaves(node: int)

  // Any other request to the tables; any other command to a node, whether or not it succeeds,
  // provided it names no forward that is still to be numbered; and the same for what a node
  // that comes back brings along.
  ghost predicate Enabled(w: World, e: Event) {
    match e
    case Writes(op) => !op.OpCreateForward? && !op.OpDeleteForward?
    case Sends(_, r, _) => NamesNumbered(r, w.db.nextForward)
    case Joins(_, state) => Sound(state) && OldNode(state, w.db.nextForward)
    case _ => true
  }

  function Step(w: World, e: Event): World {
    match e
    case Creates(r, caller, d, luck) => CreateForward(w, r, caller, d, luck).world
    case Deletes(id, caller, d, force) => DeleteForward(w, id, caller, d, force)
    case Writes(op) => w.(db := Panel.Step(w.db, op))
    case Sends(k, r, parses) => w.(nodes := Send(w.nodes, k, r, parses).nodes)
    case Joins(k, state) => w.(nodes := w.nodes[k := state])
    case Leaves(k) => w.(nodes := w.nodes - {k})
  }

  // The tables are well formed, every node is sound, and none knows a forward that the panel
  // has yet to number.
  ghost predicate Coherent(w: World) {
    PortExclusivity.WellFormed(w.db) && PortExclusivity.Exclusive(w.db) && Healthy(w.nodes, w.db.nextForward)
  }

  lemma HealthyLater(nodes: Nodes, m: nat, n: nat)
    requires Healthy(nodes, m) && m <= n
    ensures Healthy(nodes, n)
  {
  }

  lemma ReportKeepsNumber(db: Panel.Tables, r: Panel.Report, node: nat)
    ensures Panel.ApplyReport(db, r, node).nextForward == db.nextForward
  {
  }

  lemma WritesKeepNumber(db: Panel.Tables, op: Panel.Op)
    requires !op.OpCreateForward?
    ensures Panel.Step(db, op).nextForward == db.nextForward
  {
    if op.OpReport? { ReportKeepsNumber(db, op.report, op.node); }
  }

  lemma LimitedIsHealthy(nodes: Nodes, limited: Nodes, m: nat)
    requires Healthy(nodes, m) && limited.Keys == nodes.Keys
    requires forall k :: k in nodes ==> limited[k].agent == nodes[k].agent && limited[k].chains == nodes[k].chains
    ensures Healthy(limited, m)
  {
  }

  lemma FleetCreateKeeps(nodes: Nodes, t: Tunnel, f: Forward, name: string, limiter: Option<string>, luck: Luck, m: nat)
    requires Healthy(nodes, m) && IsNameOf(name, f.id) && Base(name) && f.id < m
    ensures Healthy(Fleet.CreateForward(nodes, t, f, name, limiter, luck).nodes, m)
  {
    AttemptKeeps(nodes, t, f, name, limiter, luck, m);
    RollbackKeeps(Attempt(nodes, t, f, name, limiter, luck).nodes, t, name, m);
  }

  lemma ProvisionKeeps(nodes: Nodes, t: Tunnel, f: Forward, name: string, luck: Luck, m: nat)
    requires Healthy(nodes, m) && IsNameOf(name, f.id) && Base(name) && f.id < m
    ensures Healthy(Provision(nodes, t, f, name, luck).nodes, m)
  {
    var l := Replay.EnsureLimiters(Answer, nodes, t);
    LimitersOnNodes(nodes, t);
    LimitedIsHealthy(nodes, l.nodes, m);
    FleetCreateKeeps(l.nodes, t, f, name, l.name, luck, m);
  }

  // The tables but for the number that was used up.
  predicate SameRows(after: Panel.Tables, before: Panel.Tables) { after == before.(nextForward := after.nextForward) }

  // What the panel does once it has asked the nodes.
  lemma DecidedShape(db: Panel.Tables, r: Panel.CreateRequest, caller: Panel.Caller, provisioned: bool)
    requires Panel.CreateForward(db, r, caller, true).result.Done? && db.nextForward !in db.forwards
    ensures var c := Panel.CreateForward(db, r, caller, provisioned);
            && c.db.nextForward == db.nextForward + 1
            && c.result == (if provisioned then Panel.Done(db.nextForward) else Panel.Refused(Panel.NodeFailed))
            && (!provisioned ==> SameRows(c.db, db))
  {
    PortExclusivity.CreateShape(db, r, caller, provisioned);
  }

  lemma CreatesCoherently(w: World, e: Event)
    requires Coherent(w) && e.Creates?
    ensures Coherent(Step(w, e))
  {
    CreatedTables(w.db, e.request, e.caller, true);
    CreatedTables(w.db, e.request, e.caller, false);
    var wanted := Panel.CreateForward(w.db, e.request, e.caller, true);
    if wanted.result.Done? {
      PortExclusivity.CreateShape(w.db, e.request, e.caller, true);
      CreationKeepsNodes(w, e);
    } else {
      RefusedEarly(w.db, e.request, e.caller);
    }
  }

  lemma CreatedTables(db: Panel.Tables, r: Panel.CreateRequest, caller: Panel.Caller, provisioned: bool)
    requires PortExclusivity.WellFormed(db) && PortExclusivity.Exclusive(db)
    ensures var after := Panel.CreateForward(db, r, caller, provisioned).db; PortExclusivity.WellFormed(after) && PortExclusivity.Exclusive(after)
  {
    PortExclusivity.CreateKeepsPorts(db, r, caller, provisioned);
  }

  lemma CreationKeepsNodes(w: World, e: Event)
    requires Coherent(w) && e.Creates? && Panel.CreateForward(w.db, e.request, e.caller, true).result.Done? && e.request.tunnel in w.db.tunnels
    ensures Healthy(Step(w, e).nodes, w.db.nextForward + 1) && Step(w, e).db.nextForward == w.db.nextForward + 1
  {
    var row := Panel.NewForward(w.db, e.request, Panel.Owner(e.request, e.caller));
    var relation := CreationRelation(w.db, row.owner, e.request.tunnel);
    NextProvisionKeeps(w, row, e.request.tunnel, e.details, relation, e.luck);
    DecidedShape(w.db, e.request, e.caller, NextProvision(w, row, e.request.tunnel, e.details, relation, e.luck).created);
  }

  lemma NextProvisionKeeps(w: World, row: Panel.ForwardRow, tunnel: nat, d: Details, relation: nat, luck: Luck)
    requires Healthy(w.nodes, w.db.nextForward) && tunnel in w.db.tunnels
    ensures Healthy(NextProvision(w, row, tunnel, d, relation, luck).nodes, w.db.nextForward + 1)
  {
    var id := w.db.nextForward;
    HealthyLater(w.nodes, id, id + 1);
    NameIsNameOf(id, row.owner, relation);
    ProvisionKeeps(w.nodes, TunnelOf(w.db, tunnel, d), ForwardOf(row, id, d), ServiceName(id, row.owner, relation), luck, id + 1);
  }

  lemma FleetDeleteKeeps(nodes: Nodes, t: Tunnel, id: nat, name: string, m: nat)
    requires Healthy(nodes, m)
    ensures Healthy(Fleet.DeleteForward(nodes, t, id, name), m)
  {
    RollbackKeeps(nodes, t, name, m);
    RollbackKeeps(Rollback(nodes, t, name), t, Decimal(id), m);
  }

  lemma DeletedTables(db: Panel.Tables, id: nat, caller: Panel.Caller)
    requires PortExclusivity.WellFormed(db) && PortExclusivity.Exclusive(db)
    ensures var after := Panel.DeleteForward(db, id, caller).db;
            PortExclusivity.WellFormed(after) && PortExclusivity.Exclusive(after) && after.nextForward == db.nextForward
  {
    PortExclusivity.StepKeepsPorts(db, Panel.OpDeleteForward(id, caller));
  }

  lemma DeletesCoherently(w: World, e: Event)
    requires Coherent(w) && e.Deletes?
    ensures Coherent(Step(w, e))
  {
    DeletedTables(w.db, e.id, e.user);
    if e.id in w.db.forwards && w.db.forwards[e.id].tunnel in w.db.tunnels {
      var f := w.db.forwards[e.id];
      FleetDeleteKeeps(w.nodes, TunnelOf(w.db, f.tunnel, e.columns), e.id, ServiceName(e.id, f.owner, DeletionRelation(w.db, f.owner, f.tunnel)),
                       w.db.nextForward);
    }
  }

  lemma StepIsCoherent(w: World, e: Event)
    requires Coherent(w) && Enabled(w, e)
    ensures Coherent(Step(w, e))
  {
    match e
    case Creates(_, _, _, _) => CreatesCoherently(w, e);
    case Deletes(_, _, _, _) => DeletesCoherently(w, e);
    case Writes(op) =>
      PortExclusivity.StepKeepsPorts(w.db, op);
      WritesKeepNumber(w.db, op);
    case Sends(k, r, parses) => SendKeeps(w.nodes, k, r, parses, w.db.nextForward);
    case Joins(_, _) =>
    case Leaves(_) =>
  }

  ghost predicate IsRun(w: World, events: seq<Event>)
    decreases |events|
  {
    events != [] ==> Enabled(w, events[0]) && IsRun(Step(w, events[0]), events[1..])
  }

  function After(w: World, events: seq<Event>): World
    decreases |events|
  {
    if events == [] then w else After(Step(w, events[0]), events[1..])
  }

  lemma {:induction false} RunIsCoherent(w: World, events: seq<Event>)
    requires Coherent(w) && IsRun(w, events)
    ensures Coherent(After(w, events))
    decreases |events|
  {
    if events != [] {
      StepIsCoherent(w, events[0]);
      RunIsCoherent(Step(w, events[0]), events[1..]);
    }
  }

  // ---- all or nothing in both parts ----

  const START := World(Panel.NEW, map[])

  lemma SameTablesAgain(x: Nodes, limited: Nodes, nodes: Nodes)
    requires limited.Keys == nodes.Keys
    requires forall k :: k in nodes ==> limited[k].agent == nodes[k].agent && limited[k].chains == nodes[k].chains
    ensures SameTables(x, limited) <==> SameTables(x, nodes)
  {
  }

  lemma LimitedIsFresh(nodes: Nodes, limited: Nodes, name: string, id: nat)
    requires Healthy(nodes, id) && IsNameOf(name, id) && limited.Keys == nodes.Keys
    requires forall k :: k in nodes ==> limited[k].agent == nodes[k].agent && limited[k].chains == nodes[k].chains
    ensures forall k :: k in limited ==> Sound(limited[k]) && Fresh(limited[k], name)
  {
    LimitedIsHealthy(nodes, limited, id);
    forall k | k in limited ensures Fresh(limited[k], name) { NextIsFresh(limited[k], name, id, id); }
  }

  lemma ProvisionRestores(nodes: Nodes, t: Tunnel, f: Forward, name: string, luck: Luck)
    requires Healthy(nodes, f.id) && IsNameOf(name, f.id) && Base(name)
    requires (t.kind.Relay? ==> t.inNode != t.outNode) && (t.kind.Direct? ==> t.inNode == t.outNode)
    ensures var p := Provision(nodes, t, f, name, luck); !p.created ==> (SameTables(p.nodes, nodes) <==> !GetsStuck(nodes, t, luck))
  {
    var l := Replay.EnsureLimiters(Answer, nodes, t);
    LimitersOnNodes(nodes, t);
    if l.failure.None? {
      LimitedRestores(nodes, l.nodes, t, f, name, l.name, luck);
    } else {
      assert SameTables(l.nodes, nodes);
    }
  }

  lemma LimitedRestores(nodes: Nodes, limited: Nodes, t: Tunnel, f: Forward, name: string, limiter: Option<string>, luck: Luck)
    requires Healthy(nodes, f.id) && IsNameOf(name, f.id) && Base(name) && limited.Keys == nodes.Keys
    requires forall k :: k in nodes ==> limited[k].agent == nodes[k].agent && limited[k].chains == nodes[k].chains
    requires (t.kind.Relay? ==> t.inNode != t.outNode) && (t.kind.Direct? ==> t.inNode == t.outNode)
    ensures SameTables(Rollback(Attempt(limited, t, f, name, limiter, luck).nodes, t, name), nodes) <==> !GetsStuck(nodes, t, luck)
  {
    LimitedIsFresh(nodes, limited, name, f.id);
    RollbackAnywhere(limited, t, f, name, limiter, luck);
    SameTablesAgain(Rollback(Attempt(limited, t, f, name, limiter, luck).nodes, t, name), limited, nodes);
  }

  lemma NextProvisionRestores(w: World, row: Panel.ForwardRow, tunnel: nat, d: Details, relation: nat, luck: Luck)
    requires Coherent(w) && tunnel in w.db.tunnels
    ensures var p := NextProvision(w, row, tunnel, d, relation, luck);
            !p.created ==> (SameTables(p.nodes, w.nodes) <==> !GetsStuck(w.nodes, TunnelOf(w.db, tunnel, d), luck))
  {
    var id := w.db.nextForward;
    NameIsNameOf(id, row.owner, relation);
    ProvisionRestores(w.nodes, TunnelOf(w.db, tunnel, d), ForwardOf(row, id, d), ServiceName(id, row.owner, relation), luck);
  }

  // A refused creation, at whatever point and for whatever reason, and one that finds an
  // existing forward, leave the panel's rows and the tables of every node as they were,
  // except that the nodes keep a service exactly when the compensation gets stuck.
  lemma FailedCreateRestoresBoth(w: World, r: Panel.CreateRequest, caller: Panel.Caller, d: Details, luck: Luck)
    requires Coherent(w)
    ensures var c := CreateForward(w, r, caller, d, luck);
            !c.result.Done? ==>
              && SameRows(c.world.db, w.db)
              && (SameTables(c.world.nodes, w.nodes) <==>
                  !(c.result == Panel.Refused(Panel.NodeFailed) && r.tunnel in w.db.tunnels && GetsStuck(w.nodes, TunnelOf(w.db, r.tunnel, d), luck)))
  {
    assert w.db.nextForward !in w.db.forwards;
    if Panel.CreateForward(w.db, r, caller, true).result.Done? {
      PortExclusivity.CreateShape(w.db, r, caller, true);
      var row := Panel.NewForward(w.db, r, Panel.Owner(r, caller));
      var relation := CreationRelation(w.db, row.owner, r.tunnel);
      NextProvisionRestores(w, row, r.tunnel, d, relation, luck);
      DecidedShape(w.db, r, caller, NextProvision(w, row, r.tunnel, d, relation, luck).created);
    } else {
      NothingSent(w, r, caller, d, luck);
      assert SameTables(w.nodes, w.nodes);
    }
  }

  lemma RefusedEarly(db: Panel.Tables, r: Panel.CreateRequest, caller: Panel.Caller)
    requires !Panel.CreateForward(db, r, caller, true).result.Done?
    ensures Panel.CreateForward(db, r, caller, true).db == db
    ensures Panel.CreateForward(db, r, caller, true).result != Panel.Refused(Panel.NodeFailed)
  {
  }

  lemma NothingSent(w: World, r: Panel.CreateRequest, caller: Panel.Caller, d: Details, luck: Luck)
    requires !Panel.CreateForward(w.db, r, caller, true).result.Done?
    ensures var c := CreateForward(w, r, caller, d, luck);
            c == Created(Panel.CreateForward(w.db, r, caller, true).result, w) && c.result != Panel.Refused(Panel.NodeFailed)
  {
    RefusedEarly(w.db, r, caller);
  }

  // ---- creation, then deletion ----

  lemma CreatedOnline(nodes: Nodes, t: Tunnel, f: Forward, name: string, limiter: Option<string>, luck: Luck)
    requires Attempt(nodes, t, f, name, limiter, luck).created
    ensures t.inNode in nodes && (!t.kind.Direct? ==> t.outNode in nodes)
  {
  }

  lemma ProvisionThenDelete(nodes: Nodes, t: Tunnel, f: Forward, name: string, later: string, luck: Luck)
    requires Healthy(nodes, f.id) && IsNameOf(name, f.id) && Base(name) && Base(later) && name != Decimal(f.id) && later != Decimal(f.id)
    requires (t.kind.Relay? ==> t.inNode != t.outNode) && (t.kind.Direct? ==> t.inNode == t.outNode) && Base(Decimal(f.id))
    requires Provision(nodes, t, f, name, luck).created
    ensures SameTables(Fleet.DeleteForward(Provision(nodes, t, f, name, luck).nodes, t, f.id, later), nodes) <==> later == name && !AsksTooMuch(t)
  {
    var l := Replay.EnsureLimiters(Answer, nodes, t);
    LimitersOnNodes(nodes, t);
    LimitedIsFresh(nodes, l.nodes, name, f.id);
    LimitedIsFresh(nodes, l.nodes, Decimal(f.id), f.id);
    CreatedOnline(l.nodes, t, f, name, l.name, luck);
    CreateThenDelete(l.nodes, t, f, name, later, l.name, luck);
    SameTablesAgain(Fleet.DeleteForward(Provision(nodes, t, f, name, luck).nodes, t, f.id, later), l.nodes, nodes);
  }

  lemma NamesDiffer(id: nat, owner: nat, relation: nat, later: nat)
    ensures ServiceName(id, owner, relation) == ServiceName(id, owner, later) <==> relation == later
    ensures ServiceName(id, owner, relation) != Decimal(id)
  {
    if ServiceName(id, owner, relation) == ServiceName(id, owner, later) { ServiceNameInjective(id, owner, relation, id, owner, later); }
    assert |ServiceName(id, owner, relation)| > |Decimal(id)|;
  }

  lemma NextProvisionThenDelete(w: World, row: Panel.ForwardRow, tunnel: nat, d: Details, relation: nat, luck: Luck, later: nat)
    requires Coherent(w) && tunnel in w.db.tunnels && NextProvision(w, row, tunnel, d, relation, luck).created
    ensures var id, t := w.db.nextForward, TunnelOf(w.db, tunnel, d);
            var after := Fleet.DeleteForward(NextProvision(w, row, tunnel, d, relation, luck).nodes, t, id, ServiceName(id, row.owner, later));
            SameTables(after, w.nodes) <==> later == relation && !AsksTooMuch(t)
  {
    var id := w.db.nextForward;
    NameIsNameOf(id, row.owner, relation);
    NameIsNameOf(id, row.owner, later);
    NamesDiffer(id, row.owner, relation, later);
    NamesDiffer(id, row.owner, later, relation);
    ProvisionThenDelete(w.nodes, TunnelOf(w.db, tunnel, d), ForwardOf(row, id, d), ServiceName(id, row.owner, relation),
                        ServiceName(id, row.owner, later), luck);
  }

  lemma CreatedWorld(w: World, r: Panel.CreateRequest, caller: Panel.Caller, d: Details, luck: Luck)
    requires w.db.nextForward !in w.db.forwards && CreateForward(w, r, caller, d, luck).result.Done?
    ensures r.tunnel in w.db.tunnels
    ensures var row := Panel.NewForward(w.db, r, Panel.Owner(r, caller));
            var p := NextProvision(w, row, r.tunnel, d, CreationRelation(w.db, row.owner, r.tunnel), luck);
            var made := w.db.(forwards := w.db.forwards[w.db.nextForward := row], nextForward := w.db.nextForward + 1);
            p.created && CreateForward(w, r, caller, d, luck).world == World(made, p.nodes)
  {
    if !Panel.CreateForward(w.db, r, caller, true).result.Done? { NothingSent(w, r, caller, d, luck); }
    PortExclusivity.CreateShape(w.db, r, caller, true);
    var row := Panel.NewForward(w.db, r, Panel.Owner(r, caller));
    var relation := CreationRelation(w.db, row.owner, r.tunnel);
    DecidedShape(w.db, r, caller, NextProvision(w, row, r.tunnel, d, relation, luck).created);
  }

  // Permissions do not depend on the forwards.
  lemma {:induction false} SamePermission(db: Panel.Tables, other: Panel.Tables, owner: nat, tunnel: nat, enabledOnly: bool, i: nat)
    requires db.permissions == other.permissions && db.nextPermission == other.nextPermission
    ensures PermissionFrom(db, owner, tunnel, enabledOnly, i) == PermissionFrom(other, owner, tunnel, enabledOnly, i)
    decreases db.nextPermission - i
  {
    if i < db.nextPermission { SamePermission(db, other, owner, tunnel, enabledOnly, i + 1); }
  }

  // A forward that was created and is deleted at once is gone from the panel, and from the nodes
  // exactly when deletion finds the permission creation found and the tunnel is not a plain
  // reverse one.
  lemma CreateThenDeleteInBoth(w: World, r: Panel.CreateRequest, caller: Panel.Caller, d: Details, luck: Luck, user: Panel.Caller)
    requires Coherent(w) && CreateForward(w, r, caller, d, luck).result.Done?
    requires user.admin || user.id == Panel.Owner(r, caller)
    ensures var c := CreateForward(w, r, caller, d, luck).world;
            var owner, after := Panel.Owner(r, caller), DeleteForward(c, w.db.nextForward, user, d, false);
            && r.tunnel in w.db.tunnels && SameRows(after.db, w.db)
            && (SameTables(after.nodes, w.nodes) <==>
                CreationRelation(w.db, owner, r.tunnel) == DeletionRelation(w.db, owner, r.tunnel)
                && !AsksTooMuch(TunnelOf(w.db, r.tunnel, d)))
  {
    var row := Panel.NewForward(w.db, r, Panel.Owner(r, caller));
    var later := DeletionRelation(w.db, row.owner, r.tunnel);
    CreatedWorld(w, r, caller, d, luck);
    NextProvisionThenDelete(w, row, r.tunnel, d, CreationRelation(w.db, row.owner, r.tunnel), luck, later);
    var made := CreateForward(w, r, caller, d, luck).world.db;
    InsertedThenDeleted(w.db, row, made, user);
    SamePermission(made, w.db, row.owner, r.tunnel, false, 0);
    assert TunnelOf(made, r.tunnel, d) == TunnelOf(w.db, r.tunnel, d);
  }

  lemma InsertedThenDeleted(db: Panel.Tables, row: Panel.ForwardRow, made: Panel.Tables, user: Panel.Caller)
    requires db.nextForward !in db.forwards && row.tunnel in db.tunnels && (user.admin || user.id == row.owner)
    requires made == db.(forwards := db.forwards[db.nextForward := row], nextForward := db.nextForward + 1)
    ensures var deleted := Panel.DeleteForward(made, db.nextForward, user); deleted.result.Done? && SameRows(deleted.db, db)
  {
    assert made.forwards - {db.nextForward} == db.forwards;
  }

  // So after every run from the start, every creation is all or nothing in both parts.
  lemma CreationIsAllOrNothing(events: seq<Event>, w: World, r: Panel.CreateRequest, caller: Panel.Caller, d: Details, luck: Luck)
    requires IsRun(START, events) && w == After(START, events)
    ensures var c := CreateForward(w, r, caller, d, luck);
            !c.result.Done? ==>
              && SameRows(c.world.db, w.db)
              && (SameTables(c.world.nodes, w.nodes) <==>
                  !(c.result == Panel.Refused(Panel.NodeFailed) && r.tunnel in w.db.tunnels && GetsStuck(w.nodes, TunnelOf(w.db, r.tunnel, d), luck)))
  {
    PortExclusivity.PortsNeverClash([]);
    assert Panel.Run(Panel.NEW, []) == Panel.NEW;
    assert Coherent(START);
    RunIsCoherent(START, events);
    FailedCreateRestoresBoth(w, r, caller, d, luck);
  }
}
