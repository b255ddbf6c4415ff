/** Panel and nodes together: what the nodes do once a creation is done or a tunnel is
    synchronised, read off the rows; and the limiters of the tunnel. */
module RowWiring {
  import opened Text
  import opened Settings
  import opened AgentTables
  import opened AgentReplay
  import opened Protocol
  import opened Fleet
  import opened NodeNames
  import opened Wiring
  import opened Provisioning
  import opened SyncedRemoval
  import opened SyncedWiring
  import Chains = AgentChains
  import Panel = PanelTables
  import Requests = PanelRequests
  import PortExclusivity
  import Replay

  // ---- limiters ----

  predicate Throttles(nodes: Nodes, id: int, name: string, kbps: int) {
    id in nodes && name in nodes[id].limiters.registry && nodes[id].limiters.registry[name] == Chains.Entry(name, Rate(kbps * 1024))
  }

  // A tunnel with a speed has its limiter, at that speed, on every node it uses.
  predicate Limited(nodes: Nodes, t: Tunnel, limiter: Option<string>) {
    if t.speedKbps <= 0 then limiter.None?
    else
      && limiter == Some("relayforge_tunnel_" + Decimal(t.id))
      && Throttles(nodes, t.inNode, limiter.value, t.speedKbps) && (!t.kind.Direct? ==> Throttles(nodes, t.outNode, limiter.value, t.speedKbps))
  }

  lemma LimiterIsSet(n: Node, t: Tunnel)
    ensures var name, r := "relayforge_tunnel_" + Decimal(t.id), Answer(n, EnsureLimiter(Limiter(t)), ALL_PARSE);
            name in r.node.limiters.registry && r.node.limiters.registry[name] == Chains.Entry(name, Rate(t.speedKbps * 1024))
  {
    var name := "relayforge_tunnel_" + Decimal(t.id);
    assert name[0] == 'r' && IsDigit(name[|name| - 1]);
    TrimIdentity(name);
  }

  lemma EnsuredIsLimited(nodes: Nodes, t: Tunnel)
    requires Replay.EnsureLimiters(Answer, nodes, t).failure.None?
    ensures Limited(Replay.EnsureLimiters(Answer, nodes, t).nodes, t, Replay.EnsureLimiters(Answer, nodes, t).name)
  {
    if t.speedKbps > 0 {
      var entry := Replay.Ask(Answer, nodes, t.inNode, EnsureLimiter(Limiter(t)), ALL_PARSE);
      LimiterIsSet(nodes[t.inNode], t);
      if !t.kind.Direct? { LimiterIsSet(entry.nodes[t.outNode], t); }
    }
  }

  predicate SameLimiters(a: Nodes, b: Nodes) { a.Keys == b.Keys && forall k :: k in a ==> a[k].limiters == b[k].limiters }

  lemma SameStaysLimited(a: Nodes, b: Nodes, t: Tunnel, limiter: Option<string>)
    requires Limited(a, t, limiter) && SameLimiters(a, b)
    ensures Limited(b, t, limiter)
  {
  }

  lemma SendKeepsLimiters(nodes: Nodes, id: int, r: Request, p: Parses)
    requires !r.EnsureLimiter?
    ensures SameLimiters(nodes, Send(nodes, id, r, p).nodes)
    ensures Replay.Ask(Answer, nodes, id, r, p) == Send(nodes, id, r, p)
  {
  }

  lemma AttemptKeepsLimiters(nodes: Nodes, t: Tunnel, f: Forward, name: string, limiter: Option<string>, luck: Luck)
    ensures SameLimiters(nodes, Attempt(nodes, t, f, name, limiter, luck).nodes)
  {
    forall n, id, r: Request, p | !r.EnsureLimiter? ensures SameLimiters(n, Send(n, id, r, p).nodes) { SendKeepsLimiters(n, id, r, p); }
  }

  // Agents that keep limiters apart from services and chains, as these do.
  ghost predicate ServicesApart(answer: Replay.Behaviour) {
    forall n, r: Request, p :: !r.EnsureLimiter? ==> answer(n, r, p).node.limiters == n.limiters
  }

  lemma AskKeepsLimiters(answer: Replay.Behaviour, start: Nodes, nodes: Nodes, id: int, r: Request, p: Parses)
    requires ServicesApart(answer) && SameLimiters(start, nodes) && !r.EnsureLimiter?
    ensures SameLimiters(start, Replay.Ask(answer, nodes, id, r, p).nodes)
  {
  }

  lemma SyncRowKeepsLimiters(answer: Replay.Behaviour, nodes: Nodes, t: Tunnel, row: Replay.Row, limiter: Option<string>, luck: nat -> Parses)
    requires ServicesApart(answer)
    ensures SameLimiters(nodes, Replay.SyncRow(answer, nodes, t, row, limiter, luck).nodes)
  {
    var first := Replay.EntryRequest(t, row, limiter);
    var entry := Replay.Ask(answer, nodes, t.inNode, first, luck(0));
    AskKeepsLimiters(answer, nodes, nodes, t.inNode, first, luck(0));
    if entry.failure.None? {
      RelayPartKeepsLimiters(answer, nodes, entry.nodes, t, row, limiter, luck);
      ReversePartKeepsLimiters(answer, nodes, entry.nodes, t, row, limiter, luck);
    }
  }

  lemma RelayPartKeepsLimiters(answer: Replay.Behaviour, start: Nodes, nodes: Nodes, t: Tunnel, row: Replay.Row, limiter: Option<string>, luck: nat -> Parses)
    requires ServicesApart(answer) && SameLimiters(start, nodes)
    ensures var remote := Replay.Ask(answer, nodes, t.outNode, SyncServices([RemoteService(Replay.Name(row), t, row.forward, limiter)]), luck(1));
            && SameLimiters(start, remote.nodes)
            && SameLimiters(start, Replay.Ask(answer, remote.nodes, t.inNode, SyncChain(Chain(Replay.Name(row), t, row.forward)), luck(2)).nodes)
  {
    var second := SyncServices([RemoteService(Replay.Name(row), t, row.forward, limiter)]);
    AskKeepsLimiters(answer, start, nodes, t.outNode, second, luck(1));
    AskKeepsLimiters(answer, start, Replay.Ask(answer, nodes, t.outNode, second, luck(1)).nodes, t.inNode, SyncChain(Chain(Replay.Name(row), t, row.forward)), luck(2));
  }

  lemma ReversePartKeepsLimiters(answer: Replay.Behaviour, start: Nodes, nodes: Nodes, t: Tunnel, row: Replay.Row, limiter: Option<string>, luck: nat -> Parses)
    requires ServicesApart(answer) && SameLimiters(start, nodes)
    ensures var dropped := Replay.DropUdp(answer, nodes, t, row, t.outNode);
            var chain := Replay.Ask(answer, dropped, t.outNode, SyncChain(Chain(Replay.Name(row), t, row.forward)), luck(2));
            && SameLimiters(start, chain.nodes)
            && SameLimiters(start, Replay.Ask(answer, chain.nodes, t.outNode, SyncServices(ReverseServices(Replay.Name(row), t, row.forward, limiter)), luck(1)).nodes)
  {
    var second := SyncChain(Chain(Replay.Name(row), t, row.forward));
    var dropped := Replay.DropUdp(answer, nodes, t, row, t.outNode);
    AskKeepsLimiters(answer, start, nodes, t.outNode, DeleteServices([Replay.Name(row) + "_udp"]), ALL_PARSE);
    AskKeepsLimiters(answer, start, dropped, t.outNode, second, luck(2));
    AskKeepsLimiters(answer, start, Replay.Ask(answer, dropped, t.outNode, second, luck(2)).nodes, t.outNode,
                     SyncServices(ReverseServices(Replay.Name(row), t, row.forward, limiter)), luck(1));
  }

  lemma {:induction false} SyncRowsKeepLimiters(answer: Replay.Behaviour, nodes: Nodes, t: Tunnel, rows: seq<Replay.Row>, limiter: Option<string>, luck: Replay.SyncLuck, i: nat)
    requires ServicesApart(answer)
    ensures SameLimiters(nodes, Replay.SyncRows(answer, nodes, t, rows, limiter, luck, i).nodes)
    decreases |rows| - i
  {
    if i < |rows| {
      var r := Replay.SyncRow(answer, nodes, t, rows[i], limiter, Replay.Turn(luck, i));
      SyncRowKeepsLimiters(answer, nodes, t, rows[i], limiter, Replay.Turn(luck, i));
      SyncRowsKeepLimiters(answer, r.nodes, t, rows, limiter, luck, i + 1);
    }
  }

  // A synchronised tunnel is limited, and each of its forwards is wired with that limiter.
  lemma SyncedIsLimited(nodes: Nodes, t: Tunnel, rows: seq<Replay.Row>, luck: Replay.SyncLuck)
    requires Replay.WellPlaced(t) && OneRowEach(rows) && Replay.SyncTunnel(Answer, nodes, t, rows, luck).failure.None?
    requires forall i :: 0 <= i < |rows| ==> AllAligned(nodes, Replay.Name(rows[i]))
    ensures exists limiter ::
              && Limited(Replay.SyncTunnel(Answer, nodes, t, rows, luck).nodes, t, limiter)
              && forall j :: 0 <= j < |rows| ==>
                   Wired(Replay.SyncTunnel(Answer, nodes, t, rows, luck).nodes, t, rows[j].forward, Replay.Name(rows[j]), limiter)
  {
    var l, after := Replay.EnsureLimiters(Answer, nodes, t), Replay.SyncTunnel(Answer, nodes, t, rows, luck).nodes;
    EnsuredIsLimited(nodes, t);
    assert ServicesApart(Answer);
    SyncRowsKeepLimiters(Answer, l.nodes, t, rows, l.name, luck, 0);
    SameStaysLimited(l.nodes, after, t, l.name);
    forall j | 0 <= j < |rows| ensures Wired(after, t, rows[j].forward, Replay.Name(rows[j]), l.name) { SyncedIsWired(nodes, t, rows, luck, j); }
  }

  // ---- creation on both sides ----

  // The number of the owner's permission on the tunnel, zero if there is none: the first that
  // counts among those numbered so far.
  ghost predicate IsPermission(db: Panel.Tables, owner: nat, tunnel: nat, enabledOnly: bool, relation: nat) {
    if exists p :: Counts(db, owner, tunnel, enabledOnly, p) then Counts(db, owner, tunnel, enabledOnly, relation) && forall p :: Counts(db, owner, tunnel, enabledOnly, p) ==> relation <= p
    else relation == 0
  }

  predicate Counts(db: Panel.Tables, owner: nat, tunnel: nat, enabledOnly: bool, p: nat) {
    && p < db.nextPermission && p in db.permissions && db.permissions[p].owner == owner && db.permissions[p].tunnel == tunnel
    && (enabledOnly ==> db.permissions[p].enabled)
  }

  lemma {:induction false} PermissionIs(db: Panel.Tables, owner: nat, tunnel: nat, enabledOnly: bool, i: nat)
    requires forall p :: Counts(db, owner, tunnel, enabledOnly, p) ==> i <= p
    ensures IsPermission(db, owner, tunnel, enabledOnly, PermissionFrom(db, owner, tunnel, enabledOnly, i))
    decreases db.nextPermission - i
  {
    if i < db.nextPermission && !Counts(db, owner, tunnel, enabledOnly, i) { PermissionIs(db, owner, tunnel, enabledOnly, i + 1); }
  }

  // The forward is wired, with the limiter of its tunnel.
  ghost predicate Fits(nodes: Nodes, t: Tunnel, f: Forward, name: string) {
    exists limiter :: Limited(nodes, t, limiter) && Wired(nodes, t, f, name, limiter)
  }

  lemma ProvisionedIsWired(nodes: Nodes, t: Tunnel, f: Forward, name: string, luck: Luck)
    requires Healthy(nodes, f.id) && IsNameOf(name, f.id) && Base(name) && Replay.WellPlaced(t) && Provision(nodes, t, f, name, luck).created
    ensures Fits(Provision(nodes, t, f, name, luck).nodes, t, f, name)
  {
    var l := Replay.EnsureLimiters(Answer, nodes, t);
    LimitersOnNodes(nodes, t);
    LimitedIsFresh(nodes, l.nodes, name, f.id);
    CreatedOnline(l.nodes, t, f, name, l.name, luck);
    CreatedIsWired(l.nodes, t, f, name, l.name, luck);
    EnsuredIsLimited(nodes, t);
    AttemptKeepsLimiters(l.nodes, t, f, name, l.name, luck);
    SameStaysLimited(l.nodes, Provision(nodes, t, f, name, luck).nodes, t, l.name);
  }

  // The nodes do what the row says: services and chain under the name made of the row's number,
  // its owner and the owner's enabled permission.
  ghost predicate RowWired(nodes: Nodes, db: Panel.Tables, id: nat, d: Details) {
    id in db.forwards && db.forwards[id].tunnel in db.tunnels
    && var row, place := db.forwards[id], db.tunnels[db.forwards[id].tunnel];
       var t := Tunnel(row.tunnel, place.kind, d.protocol, place.inNode, place.outNode, d.outIp, d.entryIp, d.tcpListen, d.udpListen, d.password, d.speedKbps);
       var f := Forward(id, row.owner, row.inPort, if row.outPort.Some? then row.outPort.value else 0, row.remote, d.strategy, d.interfaceName, d.secret);
       && (!place.kind.Direct? ==> row.outPort.Some?)
       && exists relation ::
            IsPermission(db, row.owner, row.tunnel, true, relation)
            && Fits(nodes, t, f, Decimal(id) + "_" + Decimal(row.owner) + "_" + Decimal(relation))
  }

  // One more row, the one of the request.
  ghost predicate Added(db: Panel.Tables, after: Panel.Tables, r: Panel.CreateRequest, caller: Panel.Caller) {
    var id := db.nextForward;
    && id !in db.forwards && after == db.(forwards := after.forwards, nextForward := id + 1)
    && after.forwards.Keys == db.forwards.Keys + {id} && (forall k :: k in db.forwards ==> after.forwards[k] == db.forwards[k])
    && Requests.RowOf(db, after.forwards[id], r, caller)
  }

  // A creation that is done has added the row of the request, and the nodes do what it says.
  lemma CreatedRowIsWired(w: World, c: Created, r: Panel.CreateRequest, caller: Panel.Caller, d: Details, luck: Luck)
    requires Coherent(w) && c == Provisioning.CreateForward(w, r, caller, d, luck) && c.result.Done?
    ensures c.result.id == w.db.nextForward && Added(w.db, c.world.db, r, caller)
    ensures RowWired(c.world.nodes, c.world.db, c.result.id, d)
  {
    CreatedRowIsAdded(w, c, r, caller, d, luck);
    CreatedNodesFit(w, c, r, caller, d, luck);
  }

  lemma CreatedRowIsAdded(w: World, c: Created, r: Panel.CreateRequest, caller: Panel.Caller, d: Details, luck: Luck)
    requires Coherent(w) && c == Provisioning.CreateForward(w, r, caller, d, luck) && c.result.Done?
    ensures c.result.id == w.db.nextForward && Added(w.db, c.world.db, r, caller)
  {
    CreatedWorld(w, r, caller, d, luck);
    CreatedRow(w, r, caller, d, luck);
    InsertedIsAdded(w.db, Panel.NewForward(w.db, r, Panel.Owner(r, caller)), r, caller);
  }

  lemma InsertedIsAdded(db: Panel.Tables, row: Panel.ForwardRow, r: Panel.CreateRequest, caller: Panel.Caller)
    requires db.nextForward !in db.forwards && Requests.RowOf(db, row, r, caller)
    ensures Added(db, db.(forwards := db.forwards[db.nextForward := row], nextForward := db.nextForward + 1), r, caller)
  {
  }

  lemma CreatedNodesFit(w: World, c: Created, r: Panel.CreateRequest, caller: Panel.Caller, d: Details, luck: Luck)
    requires Coherent(w) && c == Provisioning.CreateForward(w, r, caller, d, luck) && c.result.Done?
    ensures RowWired(c.world.nodes, c.world.db, w.db.nextForward, d)
  {
    var row := Panel.NewForward(w.db, r, Panel.Owner(r, caller));
    CreatedWorld(w, r, caller, d, luck);
    CreatedRow(w, r, caller, d, luck);
    assert row.tunnel == r.tunnel && (!w.db.tunnels[r.tunnel].kind.Direct? ==> row.outPort.Some?);
    NextRowIsWired(w, row, d, luck);
  }

  lemma NextRowIsWired(w: World, row: Panel.ForwardRow, d: Details, luck: Luck)
    requires Coherent(w) && row.tunnel in w.db.tunnels && (!w.db.tunnels[row.tunnel].kind.Direct? ==> row.outPort.Some?)
    requires NextProvision(w, row, row.tunnel, d, CreationRelation(w.db, row.owner, row.tunnel), luck).created
    ensures var id, p := w.db.nextForward, NextProvision(w, row, row.tunnel, d, CreationRelation(w.db, row.owner, row.tunnel), luck);
            RowWired(p.nodes, w.db.(forwards := w.db.forwards[id := row], nextForward := id + 1), id, d)
  {
    var id, relation := w.db.nextForward, CreationRelation(w.db, row.owner, row.tunnel);
    var made := w.db.(forwards := w.db.forwards[id := row], nextForward := id + 1);
    MadeFits(w, row, d, luck, made);
    RowFits(NextProvision(w, row, row.tunnel, d, relation, luck).nodes, made, id, d);
  }

  lemma MadeFits(w: World, row: Panel.ForwardRow, d: Details, luck: Luck, made: Panel.Tables)
    requires Coherent(w) && row.tunnel in w.db.tunnels
    requires NextProvision(w, row, row.tunnel, d, CreationRelation(w.db, row.owner, row.tunnel), luck).created
    requires made == w.db.(forwards := w.db.forwards[w.db.nextForward := row], nextForward := w.db.nextForward + 1)
    ensures Fits(NextProvision(w, row, row.tunnel, d, CreationRelation(w.db, row.owner, row.tunnel), luck).nodes,
                 TunnelOf(made, row.tunnel, d), ForwardOf(row, w.db.nextForward, d),
                 Decimal(w.db.nextForward) + "_" + Decimal(row.owner) + "_" + Decimal(CreationRelation(made, row.owner, row.tunnel)))
  {
    NextFits(w, row, row.tunnel, d, CreationRelation(w.db, row.owner, row.tunnel), luck);
    SamePermission(made, w.db, row.owner, row.tunnel, true, 0);
    assert TunnelOf(made, row.tunnel, d) == TunnelOf(w.db, row.tunnel, d);
  }

  lemma RowFits(nodes: Nodes, db: Panel.Tables, id: nat, d: Details)
    requires id in db.forwards && db.forwards[id].tunnel in db.tunnels
    requires !db.tunnels[db.forwards[id].tunnel].kind.Direct? ==> db.forwards[id].outPort.Some?
    requires var row := db.forwards[id];
             Fits(nodes, TunnelOf(db, row.tunnel, d), ForwardOf(row, id, d),
                  Decimal(id) + "_" + Decimal(row.owner) + "_" + Decimal(CreationRelation(db, row.owner, row.tunnel)))
    ensures RowWired(nodes, db, id, d)
  {
    PermissionIs(db, db.forwards[id].owner, db.forwards[id].tunnel, true, 0);
  }

  lemma NextFits(w: World, row: Panel.ForwardRow, tunnel: nat, d: Details, relation: nat, luck: Luck)
    requires Coherent(w) && tunnel in w.db.tunnels && NextProvision(w, row, tunnel, d, relation, luck).created
    ensures Fits(NextProvision(w, row, tunnel, d, relation, luck).nodes, TunnelOf(w.db, tunnel, d), ForwardOf(row, w.db.nextForward, d),
                 Decimal(w.db.nextForward) + "_" + Decimal(row.owner) + "_" + Decimal(relation))
  {
    var id := w.db.nextForward;
    assert PortExclusivity.GoodTunnel(w.db, w.db.tunnels[tunnel]);
    NameIsNameOf(id, row.owner, relation);
    ProvisionedIsWired(w.nodes, TunnelOf(w.db, tunnel, d), ForwardOf(row, id, d), ServiceName(id, row.owner, relation), luck);
  }

  lemma CreatedRow(w: World, r: Panel.CreateRequest, caller: Panel.Caller, d: Details, luck: Luck)
    requires Coherent(w) && Provisioning.CreateForward(w, r, caller, d, luck).result.Done?
    ensures Provisioning.CreateForward(w, r, caller, d, luck).result.id == w.db.nextForward
    ensures Requests.RowOf(w.db, Panel.NewForward(w.db, r, Panel.Owner(r, caller)), r, caller)
  {
    if !Panel.CreateForward(w.db, r, caller, true).result.Done? { NothingSent(w, r, caller, d, luck); }
    Requests.CreationAddsItsRow(w.db, r, caller, true);
    PortExclusivity.CreateShape(w.db, r, caller, true);
    var row := Panel.NewForward(w.db, r, Panel.Owner(r, caller));
    DecidedShape(w.db, r, caller, NextProvision(w, row, r.tunnel, d, CreationRelation(w.db, row.owner, r.tunnel), luck).created);
  }
}
