/** Creation and deletion of a forward with any run of the panel and its nodes in between. */
module RemovalRuns {
  import opened Text
  import opened AgentTables
  import opened AgentAgreement
  import opened AgentReplay
  import opened Protocol
  import opened Fleet
  import opened Compensation
  import opened NodeNames
  import opened Removal
  import opened Provisioning
  import Chains = AgentChains
  import Panel = PanelTables
  import PortExclusivity
  import Replay

  // ---- commands about other forwards ----

  // The names a request registers, drops or replaces. A pause registers and drops none.
  function Mentions(r: Request): seq<string> {
    match r
    case DeleteServices(names) => TrimAll(names)
    case ResumeServices(names) => TrimAll(names)
    case DeleteChain(name) => [Trim(name)]
    case _ => NamesIn(r)
  }

  lemma {:induction false} RestartFrames(a: Agent, names: seq<string>, parses: Parses, i: nat, x: string)
    requires x !in names
    ensures x in Restart(a, names, parses, i).agent.registry <==> x in a.registry
    decreases |names| - i
  {
    if i < |names| && parses(i) { RestartFrames(Launch(Drop(a, names[i]), names[i]), names, parses, i + 1, x); }
  }

  lemma CreateFrames(a: Agent, data: seq<ServiceConfig>, parses: Parses, x: string)
    requires x !in TrimAll(NamesOf(data))
    ensures x in Create(a, data, parses).agent.registry <==> x in a.registry
  {
    CreateIs(a, data, parses);
    LaunchAllNext(a, TrimAll(NamesOf(data)));
  }

  lemma UpdateFrames(a: Agent, data: seq<ServiceConfig>, parses: Parses, x: string)
    requires x !in TrimAll(NamesOf(data))
    ensures x in Update(a, data, parses).agent.registry <==> x in a.registry
  {
    RestartFrames(a, TrimAll(NamesOf(data)), parses, 0, x);
  }

  lemma {:induction false} SyncFrames(a: Agent, data: seq<ServiceConfig>, parses: Parses, i: nat, x: string)
    requires x !in TrimAll(NamesOf(data))
    ensures x in SyncFrom(a, data, parses, i).agent.registry <==> x in a.registry
    decreases |data| - i
  {
    if i < |data| {
      var d := data[i].(name := Trim(data[i].name));
      TrimIdempotent(data[i].name);
      assert TrimAll(NamesOf([d])) == [TrimAll(NamesOf(data))[i]];
      UpdateFrames(a, [d], Always(parses(i)), x);
      CreateFrames(a, [d], Always(parses(i)), x);
      SyncFrames(SyncOne(a, data[i], parses(i)).agent, data, parses, i + 1, x);
    }
  }

  lemma {:induction false} RelaunchFrames(a: Agent, seen: map<string, Handle>, names: seq<string>, parses: Parses, i: nat, x: string)
    requires x !in names
    ensures x in Relaunch(a, seen, names, parses, i).agent.registry <==> x in a.registry
    decreases |names| - i
  {
    if i < |names| {
      var dropped := DropSeen(a, seen, names[i]);
      if parses(i) {
        RelaunchFrames(Launch(dropped, names[i]), seen, names, parses, i + 1, x);
      } else {
        CloseAllFrame(dropped, names[..i]);
      }
    }
  }

  lemma ResumeFrames(a: Agent, services: seq<string>, parses: Parses, x: string)
    requires x !in TrimAll(services)
    ensures x in Resume(a, services, parses).agent.registry <==> x in a.registry
  {
    var todo := PausedNames(a.services, TrimAll(services));
    PausedNamesAre(a.services, TrimAll(services));
    RelaunchFrames(a, a.registry, todo, parses, 0, x);
  }

  lemma PauseFrames(a: Agent, services: seq<string>, x: string)
    ensures x in Pause(a, services).agent.registry <==> x in a.registry
  {
    var names := TrimAll(services);
    CloseAllFrame(a, names);
    CloseAllFrame(a, names[..FirstUnlisted(a.services, names, 0)]);
  }

  lemma DeleteFrames(a: Agent, services: seq<string>, x: string)
    requires x !in TrimAll(services)
    ensures x in Delete(a, services).agent.registry <==> x in a.registry
  {
    DropAllIs(a, TrimAll(services));
  }

  // No command touches a name it does not mention, whether it succeeds or fails.
  lemma AnswerFrames(n: Node, r: Request, parses: Parses, x: string)
    requires x !in Mentions(r)
    ensures x in Answer(n, r, parses).node.agent.registry <==> x in n.agent.registry
    ensures x in Answer(n, r, parses).node.chains.registry <==> x in n.chains.registry
  {
    match r
    case AddServices(data) => CreateFrames(n.agent, data, parses, x);
    case SyncServices(data) => SyncFrames(n.agent, data, parses, 0, x);
    case DeleteServices(names) => DeleteFrames(n.agent, names, x);
    case PauseServices(names) => PauseFrames(n.agent, names, x);
    case ResumeServices(names) => ResumeFrames(n.agent, names, parses, x);
    case _ =>
  }

  // The command leaves every name of the forward on the node registered or not as it was.
  ghost predicate LeavesAlone(n: Node, r: Request, parses: Parses, id: nat) {
    forall x :: Mine(x, id) ==>
      && (x in Answer(n, r, parses).node.agent.registry <==> x in n.agent.registry)
      && (x in Answer(n, r, parses).node.chains.registry <==> x in n.chains.registry)
  }

  predicate About(r: Request, other: nat) { forall i :: 0 <= i < |Mentions(r)| ==> Mine(Mentions(r)[i], other) }

  // So do all commands about another forward, and all pauses.
  lemma OthersLeaveAlone(n: Node, r: Request, parses: Parses, other: nat, id: nat)
    requires r.PauseServices? || (About(r, other) && other != id)
    ensures LeavesAlone(n, r, parses, id)
  {
    forall x | Mine(x, id)
      ensures x in Answer(n, r, parses).node.agent.registry <==> x in n.agent.registry
      ensures x in Answer(n, r, parses).node.chains.registry <==> x in n.chains.registry
    {
      if r.PauseServices? {
        PauseFrames(n.agent, r.names, x);
      } else {
        if x in Mentions(r) { DecimalInjective(id, other); }
        AnswerFrames(n, r, parses, x);
      }
    }
  }

  lemma SendLeavesAlone(nodes: Nodes, k: int, r: Request, parses: Parses, id: nat, m: Marks)
    requires Shows(nodes, id, m) && (k in nodes ==> LeavesAlone(nodes[k], r, parses, id))
    ensures Shows(Send(nodes, k, r, parses).nodes, id, m)
  {
    if k in nodes {
      forall j, x | j in nodes && Mine(x, id)
        ensures x in Send(nodes, k, r, parses).nodes[j].agent.registry <==> (j, x) in m.services
        ensures x in Send(nodes, k, r, parses).nodes[j].chains.registry <==> (j, x) in m.chains
      {
        assert j in nodes;
      }
    }
  }

  lemma SendAboutOther(nodes: Nodes, k: int, r: Request, parses: Parses, other: nat, id: nat, m: Marks)
    requires Shows(nodes, id, m) && About(r, other) && other != id
    ensures Shows(Send(nodes, k, r, parses).nodes, id, m)
  {
    if k in nodes { OthersLeaveAlone(nodes[k], r, parses, other, id); }
    SendLeavesAlone(nodes, k, r, parses, id, m);
  }

  // ---- creating and deleting other forwards ----

  lemma CarriedIsAbout(r: Request, name: string, other: nat)
    requires CarriesOnly(r, name) && (r.AddServices? || r.AddChain?) && Base(name) && IsNameOf(name, other)
    ensures About(r, other)
  {
    NamesAreVisible(name);
    forall i | 0 <= i < |Mentions(r)| ensures Mine(Mentions(r)[i], other) {
      if r.AddChain? {
        SuffixedIsMine(name, other, "_chains");
      } else {
        var s :| s in SUFFIXES && r.data[i].name == name + s;
        SuffixedIsMine(name, other, s);
      }
    }
  }

  lemma OwnDeletionsAreAbout(name: string, protocol: string, other: nat)
    requires Base(name) && IsNameOf(name, other)
    ensures About(DeleteServices(TransportNames(name, protocol)), other) && About(DeleteChain(name + "_chains"), other)
    ensures About(DeleteServices([name + "_tls"]), other) && About(DeleteServices([name + "_relay"]), other)
  {
    OwnLists(name, other, protocol);
    ChainDeletionIsAbout(name, other);
  }

  lemma ChainDeletionIsAbout(name: string, other: nat)
    requires Base(name) && IsNameOf(name, other)
    ensures About(DeleteChain(name + "_chains"), other)
  {
    NamesAreVisible(name);
    SuffixedIsMine(name, other, "_chains");
    assert Mentions(DeleteChain(name + "_chains")) == [name + "_chains"];
  }

  lemma OtherAttempt(nodes: Nodes, t: Tunnel, f: Forward, name: string, limiter: Option<string>, luck: Luck, id: nat, m: Marks)
    requires Shows(nodes, id, m) && Base(name) && IsNameOf(name, f.id) && f.id != id
    ensures Shows(Attempt(nodes, t, f, name, limiter, luck).nodes, id, m)
  {
    OwnRequests(t, f, name, limiter);
    var add, remote := AddServices(FirstServices(t, f, name, limiter)), AddServices([RemoteService(name, t, f, limiter)]);
    var reverse, chain := AddServices(ReverseServices(name, t, f, limiter)), AddChain(Chain(name, t, f));
    CarriedIsAbout(add, name, f.id);
    CarriedIsAbout(remote, name, f.id);
    CarriedIsAbout(reverse, name, f.id);
    CarriedIsAbout(chain, name, f.id);
    SendAboutOther(nodes, t.inNode, add, luck(0), f.id, id, m);
    var n1 := Send(nodes, t.inNode, add, luck(0)).nodes;
    if t.kind.Relay? {
      SendAboutOther(n1, t.inNode, chain, luck(1), f.id, id, m);
      SendAboutOther(Send(n1, t.inNode, chain, luck(1)).nodes, t.outNode, remote, luck(2), f.id, id, m);
    } else if t.kind.Reverse? {
      SendAboutOther(n1, t.outNode, reverse, luck(1), f.id, id, m);
      SendAboutOther(Send(n1, t.outNode, reverse, luck(1)).nodes, t.outNode, chain, luck(2), f.id, id, m);
    }
  }

  lemma OtherRollback(nodes: Nodes, t: Tunnel, name: string, other: nat, id: nat, m: Marks)
    requires Shows(nodes, id, m) && Base(name) && IsNameOf(name, other) && other != id
    ensures Shows(Rollback(nodes, t, name), id, m)
  {
    OwnDeletionsAreAbout(name, t.protocol, other);
    var k, list, chain := TrafficNode(t), DeleteServices(TransportNames(name, t.protocol)), DeleteChain(name + "_chains");
    SendAboutOther(nodes, k, list, ALL_PARSE, other, id, m);
    if !t.kind.Direct? {
      var n1 := Send(nodes, k, list, ALL_PARSE).nodes;
      SendAboutOther(n1, k, chain, ALL_PARSE, other, id, m);
      var n2 := Send(n1, k, chain, ALL_PARSE).nodes;
      if t.kind.Relay? {
        SendAboutOther(n2, t.outNode, DeleteServices([name + "_tls"]), ALL_PARSE, other, id, m);
      } else {
        SendAboutOther(n2, t.inNode, DeleteServices([name + "_relay"]), ALL_PARSE, other, id, m);
      }
    }
  }

  lemma LimitedShows(nodes: Nodes, limited: Nodes, id: nat, m: Marks)
    requires Shows(nodes, id, m) && limited.Keys == nodes.Keys
    requires forall k :: k in nodes ==> limited[k].agent == nodes[k].agent && limited[k].chains == nodes[k].chains
    ensures Shows(limited, id, m)
  {
  }

  lemma OtherProvision(nodes: Nodes, t: Tunnel, f: Forward, name: string, luck: Luck, id: nat, m: Marks)
    requires Shows(nodes, id, m) && Base(name) && IsNameOf(name, f.id) && f.id != id
    ensures Shows(Provision(nodes, t, f, name, luck).nodes, id, m)
  {
    var l := Replay.EnsureLimiters(Answer, nodes, t);
    LimitersOnNodes(nodes, t);
    LimitedShows(nodes, l.nodes, id, m);
    OtherAttempt(l.nodes, t, f, name, l.name, luck, id, m);
    OtherRollback(Attempt(l.nodes, t, f, name, l.name, luck).nodes, t, name, f.id, id, m);
  }

  lemma OtherCreation(w: World, e: Event, id: nat, m: Marks)
    requires Shows(w.nodes, id, m) && e.Creates? && id < w.db.nextForward
    ensures Shows(Step(w, e).nodes, id, m)
  {
    if e.request.tunnel in w.db.tunnels {
      var row := Panel.NewForward(w.db, e.request, Panel.Owner(e.request, e.caller));
      var relation := CreationRelation(w.db, row.owner, e.request.tunnel);
      OtherNext(w, row, e.request.tunnel, e.details, relation, e.luck, id, m);
    }
  }

  lemma OtherNext(w: World, row: Panel.ForwardRow, tunnel: nat, d: Details, relation: nat, luck: Luck, id: nat, m: Marks)
    requires Shows(w.nodes, id, m) && id < w.db.nextForward && tunnel in w.db.tunnels
    ensures Shows(NextProvision(w, row, tunnel, d, relation, luck).nodes, id, m)
  {
    NameIsNameOf(w.db.nextForward, row.owner, relation);
    OtherProvision(w.nodes, TunnelOf(w.db, tunnel, d), ForwardOf(row, w.db.nextForward, d),
                   ServiceName(w.db.nextForward, row.owner, relation), luck, id, m);
  }

  lemma OtherDeletion(w: World, e: Event, id: nat, m: Marks)
    requires Shows(w.nodes, id, m) && e.Deletes? && e.id != id
    ensures Shows(Step(w, e).nodes, id, m)
  {
    if e.id in w.db.forwards && w.db.forwards[e.id].tunnel in w.db.tunnels {
      var f := w.db.forwards[e.id];
      var t, name := TunnelOf(w.db, f.tunnel, e.columns), ServiceName(e.id, f.owner, DeletionRelation(w.db, f.owner, f.tunnel));
      NameIsNameOf(e.id, f.owner, DeletionRelation(w.db, f.owner, f.tunnel));
      OtherRollback(w.nodes, t, name, e.id, id, m);
      OtherRollback(Rollback(w.nodes, t, name), t, Decimal(e.id), e.id, id, m);
    }
  }

  // ---- runs that leave the forward alone ----

  // The forward itself is not deleted, commands leave its names alone, and a node that comes
  // back carries what it carried of it.
  ghost predicate Undisturbed(w: World, e: Event, id: nat, m: Marks) {
    match e
    case Deletes(i, _, _, _) => i != id
    case Sends(k, r, parses) => k in w.nodes ==> LeavesAlone(w.nodes[k], r, parses, id)
    case Joins(k, state) => Shows(map[k := state], id, m)
    case _ => true
  }

  lemma StepShows(w: World, e: Event, id: nat, m: Marks)
    requires Shows(w.nodes, id, m) && id < w.db.nextForward && Undisturbed(w, e, id, m)
    ensures Shows(Step(w, e).nodes, id, m)
  {
    match e
    case Creates(_, _, _, _) => OtherCreation(w, e, id, m);
    case Deletes(_, _, _, _) => OtherDeletion(w, e, id, m);
    case Writes(_) =>
    case Sends(k, r, parses) => SendLeavesAlone(w.nodes, k, r, parses, id, m);
    case Joins(k, state) => ShowsNode(w.nodes, k, state, id, m, m);
    case Leaves(k) =>
      forall j, x | j in w.nodes - {k} && Mine(x, id) ensures j in w.nodes {}
  }

  ghost predicate QuietRun(w: World, events: seq<Event>, id: nat, m: Marks)
    decreases |events|
  {
    events != [] ==> Enabled(w, events[0]) && Undisturbed(w, events[0], id, m) && QuietRun(Step(w, events[0]), events[1..], id, m)
  }

  // ---- the row and its tunnel ----

  // A row that is there after a step was there before, of the same owner and tunnel, and its
  // tunnel has kept kind and nodes.
  ghost predicate Stays(db: Panel.Tables, after: Panel.Tables, id: nat) {
    id in after.forwards ==>
      && id in db.forwards
      && after.forwards[id].owner == db.forwards[id].owner && after.forwards[id].tunnel == db.forwards[id].tunnel
      && var t := db.forwards[id].tunnel;
         t in db.tunnels && t in after.tunnels ==> PortExclusivity.SamePlace(db.tunnels[t], after.tunnels[t])
  }

  lemma ReconcileStays(db: Panel.Tables, tunnel: nat, acks: Panel.Acks, id: nat)
    ensures Stays(db, Panel.Reconcile(db, tunnel, acks), id)
  {
  }

  lemma ReportStays(db: Panel.Tables, r: Panel.Report, node: nat, id: nat)
    ensures Stays(db, Panel.ApplyReport(db, r, node), id)
  {
  }

  lemma UpdateStays(db: Panel.Tables, r: Panel.UpdateRequest, caller: Panel.Caller, acks: Panel.Acks, id: nat)
    ensures Stays(db, Panel.UpdateForward(db, r, caller, acks).db, id)
  {
    if Panel.UpdateRefusal(db, r, caller).None? {
      ReconcileStays(Panel.SavedForward(db, r), db.forwards[r.id].tunnel, acks, id);
    }
  }

  lemma UpdateTunnelStays(db: Panel.Tables, op: Panel.Op, id: nat)
    requires op.OpUpdateTunnel?
    ensures Stays(db, Panel.Step(db, op), id)
  {
    if op.id in db.tunnels {
      ReconcileStays(Panel.SavedTunnel(db, op.id, op.oneWay, op.limitGb, op.tenths), op.id, op.acks, id);
    }
  }

  lemma RestStays(db: Panel.Tables, op: Panel.Op, id: nat)
    requires PortExclusivity.WellFormed(db)
    requires !op.OpCreateForward? && !op.OpUpdateForward? && !op.OpReport? && !op.OpUpdateTunnel?
    ensures Stays(db, Panel.Step(db, op), id)
  {
    if PortExclusivity.AboutUsers(op) { PortExclusivity.AboutUsersFrame(db, op); }
  }

  lemma WriteStays(db: Panel.Tables, op: Panel.Op, id: nat)
    requires PortExclusivity.WellFormed(db) && !op.OpCreateForward?
    ensures Stays(db, Panel.Step(db, op), id)
  {
    match op
    case OpUpdateForward(r, caller, acks) => UpdateStays(db, r, caller, acks, id);
    case OpReport(r, node) => ReportStays(db, r, node, id);
    case OpUpdateTunnel(_, _, _, _, _, _) => UpdateTunnelStays(db, op, id);
    case _ => RestStays(db, op, id);
  }

  lemma CreationStays(db: Panel.Tables, r: Panel.CreateRequest, caller: Panel.Caller, provisioned: bool, id: nat)
    requires id < db.nextForward
    ensures Stays(db, Panel.CreateForward(db, r, caller, provisioned).db, id)
  {
  }

  lemma StepStays(w: World, e: Event, id: nat)
    requires Coherent(w) && Enabled(w, e) && id < w.db.nextForward
    ensures Stays(w.db, Step(w, e).db, id) && id < Step(w, e).db.nextForward
  {
    match e
    case Creates(r, caller, d, luck) => CreatesStay(w, r, caller, d, luck, id);
    case Deletes(_, _, _, _) =>
    case Writes(op) =>
      WriteStays(w.db, op, id);
      WritesKeepNumber(w.db, op);
    case _ =>
  }

  lemma CreatesStay(w: World, r: Panel.CreateRequest, caller: Panel.Caller, d: Details, luck: Luck, id: nat)
    requires id < w.db.nextForward
    ensures var after := Provisioning.CreateForward(w, r, caller, d, luck).world.db; Stays(w.db, after, id) && id < after.nextForward
  {
    CreationStays(w.db, r, caller, true, id);
    CreationStays(w.db, r, caller, false, id);
    CreationCounts(w.db, r, caller, true);
    CreationCounts(w.db, r, caller, false);
  }

  lemma CreationCounts(db: Panel.Tables, r: Panel.CreateRequest, caller: Panel.Caller, provisioned: bool)
    ensures db.nextForward <= Panel.CreateForward(db, r, caller, provisioned).db.nextForward
  {
  }

  // After a quiet run the forward is on the nodes as it was, and the row, if it is still there,
  // is that of the same owner on the same route.
  lemma {:induction false} QuietRunKeeps(w: World, events: seq<Event>, id: nat, m: Marks)
    requires Coherent(w) && QuietRun(w, events, id, m) && Shows(w.nodes, id, m) && id < w.db.nextForward
    ensures var after := After(w, events); Coherent(after) && Shows(after.nodes, id, m) && Stays(w.db, after.db, id)
    decreases |events|
  {
    if events != [] {
      var next := Step(w, events[0]);
      StepIsCoherent(w, events[0]);
      StepShows(w, events[0], id, m);
      StepStays(w, events[0], id);
      QuietRunKeeps(next, events[1..], id, m);
      StaysThrough(w.db, next.db, After(next, events[1..]).db, id);
    }
  }

  lemma StaysThrough(a: Panel.Tables, b: Panel.Tables, c: Panel.Tables, id: nat)
    requires Stays(a, b, id) && Stays(b, c, id) && PortExclusivity.WellFormed(b)
    ensures Stays(a, c, id)
  {
  }

  // ---- creation, a run, deletion ----

  lemma UnknownSoFar(nodes: Nodes, id: nat)
    requires Healthy(nodes, id)
    ensures Shows(nodes, id, Marks({}, {}))
  {
    forall k, x | k in nodes && Mine(x, id) ensures x !in nodes[k].agent.registry && x !in nodes[k].chains.registry {
      ValueOfDecimal(id);
      assert !Numbered(x, id);
    }
  }

  lemma CreationShows(w: World, row: Panel.ForwardRow, tunnel: nat, d: Details, relation: nat, luck: Luck)
    requires Healthy(w.nodes, w.db.nextForward) && tunnel in w.db.tunnels && NextProvision(w, row, tunnel, d, relation, luck).created
    ensures var id, t := w.db.nextForward, TunnelOf(w.db, tunnel, d);
            Shows(NextProvision(w, row, tunnel, d, relation, luck).nodes, id, Made(t, ServiceName(id, row.owner, relation)))
  {
    var id, t := w.db.nextForward, TunnelOf(w.db, tunnel, d);
    var name := ServiceName(id, row.owner, relation);
    var l := Replay.EnsureLimiters(Answer, w.nodes, t);
    NameIsNameOf(id, row.owner, relation);
    UnknownSoFar(w.nodes, id);
    LimitersOnNodes(w.nodes, t);
    LimitedShows(w.nodes, l.nodes, id, Marks({}, {}));
    AttemptShows(l.nodes, t, ForwardOf(row, id, d), name, l.name, luck, id);
  }

  // What a creation leaves on the nodes.
  function MadeBy(w: World, r: Panel.CreateRequest, caller: Panel.Caller, d: Details): Marks
    requires r.tunnel in w.db.tunnels
  {
    var owner := Panel.Owner(r, caller);
    Made(TunnelOf(w.db, r.tunnel, d), ServiceName(w.db.nextForward, owner, CreationRelation(w.db, owner, r.tunnel)))
  }

  lemma DeletionOf(w: World, id: nat, user: Panel.Caller, d: Details, made: Tunnel, relation: nat)
    requires id in w.db.forwards && w.db.forwards[id].tunnel in w.db.tunnels && (user.admin || user.id == w.db.forwards[id].owner)
    requires var f := w.db.forwards[id];
             && SameRoute(made, TunnelOf(w.db, f.tunnel, d)) && TrafficNode(made) in w.nodes
             && Shows(w.nodes, id, Made(made, ServiceName(id, f.owner, relation)))
    ensures var f := w.db.forwards[id];
            && id !in Provisioning.DeleteForward(w, id, user, d, false).db.forwards
            && (NoneLeft(Provisioning.DeleteForward(w, id, user, d, false).nodes, id) <==>
                DeletionRelation(w.db, f.owner, f.tunnel) == relation && Fits(made, d.protocol))
  {
    var f := w.db.forwards[id];
    var later, u := DeletionRelation(w.db, f.owner, f.tunnel), TunnelOf(w.db, f.tunnel, d);
    var name, other := ServiceName(id, f.owner, relation), ServiceName(id, f.owner, later);
    NameIsNameOf(id, f.owner, relation);
    NameIsNameOf(id, f.owner, later);
    NamesDiffer(id, f.owner, relation, later);
    NamesDiffer(id, f.owner, later, relation);
    DeletionClearsExactly(w.nodes, u, other, id, Made(made, name));
    MadeIsCoveredExactly(w.nodes, made, u, name, other, id);
  }

  // A forward is created; then anything happens that leaves it alone, the tunnel's protocol and
  // the permissions changing or not; then it is deleted, with the node that carries its traffic
  // online. Nothing of it is left on any node that is online exactly when deletion finds the permission that creation found and names
  // the services that creation made.
  lemma DeletionLeavesNothingExactly(w: World, r: Panel.CreateRequest, caller: Panel.Caller, d: Details, luck: Luck,
                                     events: seq<Event>, later: World, user: Panel.Caller, columns: Details)
    requires Coherent(w) && r.tunnel in w.db.tunnels && Provisioning.CreateForward(w, r, caller, d, luck).result.Done?
    requires var c := Provisioning.CreateForward(w, r, caller, d, luck).world;
             QuietRun(c, events, w.db.nextForward, MadeBy(w, r, caller, d)) && later == After(c, events)
    requires w.db.nextForward in later.db.forwards && (user.admin || user.id == Panel.Owner(r, caller))
    requires TrafficNode(TunnelOf(w.db, r.tunnel, d)) in later.nodes
    ensures var id, owner := w.db.nextForward, Panel.Owner(r, caller);
            var after := Provisioning.DeleteForward(later, id, user, columns, false);
            && id !in after.db.forwards
            && (NoneLeft(after.nodes, id) <==>
                DeletionRelation(later.db, owner, r.tunnel) == CreationRelation(w.db, owner, r.tunnel)
                && Fits(TunnelOf(w.db, r.tunnel, d), columns.protocol))
  {
    var id, row := w.db.nextForward, Panel.NewForward(w.db, r, Panel.Owner(r, caller));
    var relation, c := CreationRelation(w.db, row.owner, r.tunnel), Provisioning.CreateForward(w, r, caller, d, luck).world;
    CreatedWorld(w, r, caller, d, luck);
    CreationShows(w, row, r.tunnel, d, relation, luck);
    StepIsCoherent(w, Creates(r, caller, d, luck));
    QuietRunKeeps(c, events, id, MadeBy(w, r, caller, d));
    DeletionOf(later, id, user, columns, TunnelOf(w.db, r.tunnel, d), relation);
  }
}
