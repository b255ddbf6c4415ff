/** Creating a forward is all or nothing on its nodes, and deleting it takes everything back;
    the two families where this fails are pinned down exactly. */
module Compensation {
  import opened Text
  import opened AgentTables
  import opened AgentAgreement
  import opened AgentReplay
  import opened Protocol
  import opened Fleet
  import Chains = AgentChains

  // Whatever subset of the creating commands failed, the compensation restores the tables
  // of every node, except when it asks to delete a service that was never made next to one
  // that was.
  lemma RollbackRestoresExactly(nodes: Nodes, t: Tunnel, f: Forward, name: string, limiter: Option<string>, luck: Luck)
    requires Ready(nodes, t, name)
    ensures SameTables(Rollback(Attempt(nodes, t, f, name, limiter, luck).nodes, t, name), nodes)
            <==> !(AsksTooMuch(t) && luck(0)(0) && luck(1)(0))
  {
    match t.kind
    case Direct => UndoDirect(nodes, t, f, name, limiter, luck);
    case Relay => UndoRelay(nodes, t, f, name, limiter, luck);
    case Reverse => UndoReverse(nodes, t, f, name, limiter, luck);
  }

  // A create that fails at any command leaves every node as it was, exactly outside the
  // case of a plain reverse tunnel whose first two commands had gone through.
  lemma FailedCreateRestores(nodes: Nodes, t: Tunnel, f: Forward, name: string, limiter: Option<string>, luck: Luck)
    requires Ready(nodes, t, name)
    ensures var r := CreateForward(nodes, t, f, name, limiter, luck);
            !r.created ==> (SameTables(r.nodes, nodes) <==> !(AsksTooMuch(t) && luck(0)(0) && luck(1)(0)))
  {
    RollbackRestoresExactly(nodes, t, f, name, limiter, luck);
  }

  // ---- deleting what was created ----

  const SUFFIXES: set<string> := {"_tcp", "_udp", "_tls", "_relay"}

  lemma SuffixesApart(a: string, b: string, s: string, u: string)
    requires s in SUFFIXES && u in SUFFIXES && a + s == b + u
    ensures a == b
  {
    var x := a + s;
    assert x[|x| - 1] == s[|s| - 1] == u[|u| - 1] && x[|x| - 3] == s[|s| - 3] == u[|u| - 3];
    assert |s| == |u|;
    assert a == x[..|x| - |s|] == b;
  }

  lemma DeleteRetains(n: Node, names: seq<string>, x: string)
    requires x in n.agent.registry && x !in TrimAll(names)
    ensures x in Answer(n, DeleteServices(names), ALL_PARSE).node.agent.registry
  {
    DropAllIs(n.agent, TrimAll(names));
  }

  lemma NotAmongNames(other: string, protocol: string, x: string)
    requires Base(other) && forall s :: s in SUFFIXES ==> x != other + s
    ensures x !in TrimAll(TransportNames(other, protocol)) && x !in TrimAll([other + "_tls"]) && x !in TrimAll([other + "_relay"])
  {
  }

  // A rollback of one name keeps the services of every other name.
  lemma RollbackRetains(nodes: Nodes, t: Tunnel, other: string, k: int, x: string)
    requires Base(other) && t.inNode in nodes && t.outNode in nodes && (t.kind.Relay? ==> t.inNode != t.outNode)
    requires k in nodes && x in nodes[k].agent.registry && forall s :: s in SUFFIXES ==> x != other + s
    ensures var after := Rollback(nodes, t, other);
            after.Keys == nodes.Keys && x in after[k].agent.registry
  {
    NotAmongNames(other, t.protocol, x);
    var names := TransportNames(other, t.protocol);
    DeleteRetains(nodes[k], names, x);
    match t.kind
    case Direct =>
    case Relay =>
      RollbackOnRelay(nodes, t, other);
      DeleteRetains(nodes[k], [other + "_tls"], x);
    case Reverse =>
      RollbackOnReverse(nodes, t, other);
      var undone := nodes[t.outNode := PrivateUndone(nodes[t.outNode], t, other)];
      DeleteRetains(undone[k], [other + "_relay"], x);
  }

  lemma RelayMark(nodes: Nodes, t: Tunnel, f: Forward, name: string, limiter: Option<string>, luck: Luck)
    requires Ready(nodes, t, name) && !t.kind.Reverse? && Attempt(nodes, t, f, name, limiter, luck).created
    ensures var after := Attempt(nodes, t, f, name, limiter, luck).nodes;
            after.Keys == nodes.Keys && name + "_tcp" in after[t.inNode].agent.registry
  {
    EntryAfterAttempt(nodes, t, f, name, limiter, luck);
    EntryMark(nodes[t.inNode], t, f, name, limiter, luck(0));
  }

  lemma EntryMark(n: Node, t: Tunnel, f: Forward, name: string, limiter: Option<string>, p: Parses)
    requires Base(name)
    ensures var first := Answer(n, AddServices(EntryServices(name, t, f, limiter)), p);
            first.failure.None? ==> name + "_tcp" in first.node.agent.registry
  {
    NamesAreVisible(name);
    assert name + "_" + "tcp" == name + "_tcp";
    FirstRegisters(n, EntryServices(name, t, f, limiter), p);
  }

  lemma ReverseMark(nodes: Nodes, t: Tunnel, f: Forward, name: string, limiter: Option<string>, luck: Luck)
    requires Ready(nodes, t, name) && t.kind.Reverse? && luck(0)(0)
    ensures var after := Attempt(nodes, t, f, name, limiter, luck).nodes;
            after.Keys == nodes.Keys && name + "_relay" in after[t.inNode].agent.registry
  {
    var pub := PublicAdded(nodes[t.inNode], t, f, name, limiter, luck(0));
    PublicMark(nodes[t.inNode], t, f, name, limiter, luck(0));
    AddedRelay(nodes[t.inNode], t, f, name, limiter, luck(0));
    AttemptOnReverse(nodes, t, f, name, limiter, luck);
    PrivateAddRetains(nodes[t.inNode := pub][t.outNode], t, f, name, limiter, luck(1), luck(2), name + "_relay");
  }

  lemma PublicMark(n: Node, t: Tunnel, f: Forward, name: string, limiter: Option<string>, p: Parses)
    requires Base(name) && Sound(n) && Fresh(n, name) && p(0)
    ensures name + "_relay" in PublicAdded(n, t, f, name, limiter, p).agent.registry
  {
    var c := ReverseRelayService(name, t, f, limiter);
    assert c.name == name + "_relay" && Trim(c.name) == c.name by { NamesAreVisible(name); }
    assert Answer(n, AddServices([c]), p).failure.None? by { AddedRelay(n, t, f, name, limiter, p); }
    FirstRegisters(n, [c], p);
  }

  lemma PrivateAddRetains(m: Node, t: Tunnel, f: Forward, name: string, limiter: Option<string>, p: Parses, q: Parses, x: string)
    ensures x in m.agent.registry ==> x in PrivateAdded(m, t, f, name, limiter, p, q).agent.registry
  {
    AddedAgent(m, ReverseServices(name, t, f, limiter), p, Chain(name, t, f), q, true);
    if x in m.agent.registry { AddRetains(m, ReverseServices(name, t, f, limiter), p, x); }
  }

  // A created forward is visible on its entry node.
  lemma CreatedLeavesMark(nodes: Nodes, t: Tunnel, f: Forward, name: string, limiter: Option<string>, luck: Luck)
    requires Ready(nodes, t, name) && Attempt(nodes, t, f, name, limiter, luck).created
    ensures var after := Attempt(nodes, t, f, name, limiter, luck).nodes;
            var x := name + (if t.kind.Reverse? then "_relay" else "_tcp");
            after.Keys == nodes.Keys && x in after[t.inNode].agent.registry && x !in nodes[t.inNode].agent.registry
  {
    if t.kind.Reverse? {
      LuckOfReverse(nodes, t, f, name, limiter, luck);
      ReverseMark(nodes, t, f, name, limiter, luck);
    } else {
      RelayMark(nodes, t, f, name, limiter, luck);
    }
  }

  lemma FirstRegisters(n: Node, data: seq<ServiceConfig>, p: Parses)
    requires data != [] && Trim(data[0].name) == data[0].name
    ensures Answer(n, AddServices(data), p).failure.None? ==> data[0].name in Answer(n, AddServices(data), p).node.agent.registry
  {
    var names := TrimAll(NamesOf(data));
    assert names[0] in names;
    LaunchAllNext(n.agent, names);
  }

  lemma AddRetains(n: Node, data: seq<ServiceConfig>, p: Parses, x: string)
    requires x in n.agent.registry
    ensures x in Answer(n, AddServices(data), p).node.agent.registry
  {
    LaunchAllNext(n.agent, TrimAll(NamesOf(data)));
  }

  // Creating a forward and deleting it under the service name `later` gives back the
  // tables of every node exactly when the name is still the one it was created with and
  // the tunnel is not a plain reverse tunnel.
  lemma CreateThenDelete(nodes: Nodes, t: Tunnel, f: Forward, name: string, later: string, limiter: Option<string>, luck: Luck)
    requires Ready(nodes, t, name) && Ready(nodes, t, Decimal(f.id)) && Base(later)
    requires name != Decimal(f.id) && later != Decimal(f.id)
    requires CreateForward(nodes, t, f, name, limiter, luck).created
    ensures SameTables(DeleteForward(CreateForward(nodes, t, f, name, limiter, luck).nodes, t, f.id, later), nodes)
            <==> later == name && !AsksTooMuch(t)
  {
    var made := Attempt(nodes, t, f, name, limiter, luck).nodes;
    var gone := Rollback(made, t, later);
    if later == name {
      if AsksTooMuch(t) {
        LuckOfReverse(nodes, t, f, name, limiter, luck);
        UndoReverse(nodes, t, f, name, limiter, luck);
        CreatedLeavesMark(nodes, t, f, name, limiter, luck);
        LegacyRetains(nodes, made, gone, t, name, Decimal(f.id), t.outNode, "_tcp");
      } else {
        RollbackRestoresExactly(nodes, t, f, name, limiter, luck);
        RollbackOfAbsentName(gone, t, Decimal(f.id));
      }
    } else {
      CreatedLeavesMark(nodes, t, f, name, limiter, luck);
      var s := if t.kind.Reverse? then "_relay" else "_tcp";
      OthersApart(name, later, s);
      RollbackRetains(made, t, later, t.inNode, name + s);
      LegacyRetains(nodes, made, gone, t, name, Decimal(f.id), t.inNode, s);
    }
  }

  lemma OthersApart(name: string, other: string, s: string)
    requires name != other && s in SUFFIXES
    ensures forall u :: u in SUFFIXES ==> name + s != other + u
  {
    forall u | u in SUFFIXES ensures name + s != other + u {
      if name + s == other + u { SuffixesApart(name, other, s, u); }
    }
  }

  // The second rollback, under the bare identifier, does not help either.
  lemma LegacyRetains(nodes: Nodes, made: Nodes, gone: Nodes, t: Tunnel, name: string, legacy: string, k: int, s: string)
    requires Ready(nodes, t, name) && Base(legacy) && legacy != name && s in SUFFIXES && made.Keys == nodes.Keys
    requires k in {t.inNode, t.outNode} && gone.Keys == made.Keys && name + s in gone[k].agent.registry
    ensures !SameTables(Rollback(gone, t, legacy), nodes)
  {
    OthersApart(name, legacy, s);
    RollbackRetains(gone, t, legacy, k, name + s);
    assert name + s !in nodes[k].agent.registry;
    assert Tables(Rollback(gone, t, legacy)[k].agent).registry != Tables(nodes[k].agent).registry;
  }

  lemma LuckOfReverse(nodes: Nodes, t: Tunnel, f: Forward, name: string, limiter: Option<string>, luck: Luck)
    requires Ready(nodes, t, name) && t.kind.Reverse? && Attempt(nodes, t, f, name, limiter, luck).created
    ensures luck(0)(0) && luck(1)(0)
    ensures var made := Attempt(nodes, t, f, name, limiter, luck).nodes; made.Keys == nodes.Keys && Rollback(made, t, name).Keys == made.Keys
  {
    AddedRelay(nodes[t.inNode], t, f, name, limiter, luck(0));
    AttemptOnReverse(nodes, t, f, name, limiter, luck);
    RollbackOnReverse(Attempt(nodes, t, f, name, limiter, luck).nodes, t, name);
    ReverseNames(name, t, f, limiter);
    var mid := nodes[t.inNode := PublicAdded(nodes[t.inNode], t, f, name, limiter, luck(0))];
    CreateAllOrNothing(mid[t.outNode].agent, ReverseServices(name, t, f, limiter), luck(1));
  }

  // ---- the name at creation and the name at deletion ----

  datatype Permission = Permission(id: nat, enabled: bool)

  // CreateAsync only sees an enabled permission; DeleteAsync sees any.
  function RelationAtCreate(p: Option<Permission>): nat { if p.Some? && p.value.enabled then p.value.id else 0 }
  function RelationAtDelete(p: Option<Permission>): nat { if p.Some? then p.value.id else 0 }

  // With the permission unchanged between the two, create then delete is clean exactly for
  // tunnels whose compensation is exact and owners whose permission row, if any, is enabled.
  lemma CreateThenDeleteByPermission(nodes: Nodes, t: Tunnel, f: Forward, p: Option<Permission>, limiter: Option<string>, luck: Luck)
    requires p.Some? ==> p.value.id > 0
    requires Ready(nodes, t, ServiceName(f.id, f.owner, RelationAtCreate(p))) && Ready(nodes, t, Decimal(f.id))
    requires CreateForward(nodes, t, f, ServiceName(f.id, f.owner, RelationAtCreate(p)), limiter, luck).created
    ensures var name, later := ServiceName(f.id, f.owner, RelationAtCreate(p)), ServiceName(f.id, f.owner, RelationAtDelete(p));
            SameTables(DeleteForward(CreateForward(nodes, t, f, name, limiter, luck).nodes, t, f.id, later), nodes)
            <==> (p.None? || p.value.enabled) && !AsksTooMuch(t)
  {
    var name, later := ServiceName(f.id, f.owner, RelationAtCreate(p)), ServiceName(f.id, f.owner, RelationAtDelete(p));
    ServiceNameIsBase(f.id, f.owner, RelationAtDelete(p));
    DecimalVisible(f.id);
    assert name[|Decimal(f.id)|] == '_' && later[|Decimal(f.id)|] == '_';
    if name == later { ServiceNameInjective(f.id, f.owner, RelationAtCreate(p), f.id, f.owner, RelationAtDelete(p)); }
    CreateThenDelete(nodes, t, f, name, later, limiter, luck);
  }

  // ---- pausing ----

  // FlowOperations pauses with this list on every kind of tunnel, ChangeStatusAsync and
  // ReconcileTunnelAsync on direct and relay tunnels.
  function PauseNames(name: string): seq<string> { [name + "_tcp", name + "_udp", name + "_tls"] }

  // What ChangeStatusAsync and ReconcileTunnelAsync send.
  function StatusNames(name: string, t: Tunnel): seq<string> {
    if t.kind.Reverse? then TransportNames(name, t.protocol) else PauseNames(name)
  }

  // The node that carries the traffic: it reports it, and it is asked to pause.
  function TrafficNode(t: Tunnel): int { if t.kind.Reverse? then t.outNode else t.inNode }

  // The list of ChangeStatusAsync is accepted by the node of a created forward exactly on
  // reverse tunnels whose creation and deletion name the same services; everywhere else it
  // names a service that was never made, and the refusal changes nothing.
  lemma CreatedPauseExactly(nodes: Nodes, t: Tunnel, f: Forward, name: string, limiter: Option<string>, luck: Luck)
    requires Ready(nodes, t, name)
    requires CreateForward(nodes, t, f, name, limiter, luck).created
    ensures var made := CreateForward(nodes, t, f, name, limiter, luck).nodes;
            var r := Send(made, TrafficNode(t), PauseServices(StatusNames(name, t)), ALL_PARSE);
            (r.failure.None? <==> t.kind.Reverse? && !AsksTooMuch(t)) && (r.failure.Some? ==> r.nodes == made)
  {
    var made := Attempt(nodes, t, f, name, limiter, luck).nodes;
    CreatedIsAttempt(nodes, t, f, name, limiter, luck);
    if !t.kind.Reverse? {
      MadeWithoutTls(nodes, t, f, name, limiter, luck);
      PauseWithoutTls(made, t.inNode, name);
    } else {
      ReverseMade(nodes, t, f, name, limiter, luck);
      if AsksTooMuch(t) {
        PauseOfPlainReverse(made, t, f, name, limiter);
      } else {
        PauseOfReverse(made, t, f, name, limiter);
      }
    }
  }

  // The list of FlowOperations is refused by the reporting node of every created forward.
  lemma FlowPauseIsRefused(nodes: Nodes, t: Tunnel, f: Forward, name: string, limiter: Option<string>, luck: Luck)
    requires Ready(nodes, t, name)
    requires CreateForward(nodes, t, f, name, limiter, luck).created
    ensures var made := CreateForward(nodes, t, f, name, limiter, luck).nodes;
            var r := Send(made, TrafficNode(t), PauseServices(PauseNames(name)), ALL_PARSE);
            r.failure.Some? && r.nodes == made
  {
    var made := Attempt(nodes, t, f, name, limiter, luck).nodes;
    CreatedIsAttempt(nodes, t, f, name, limiter, luck);
    if t.kind.Reverse? {
      ReverseMade(nodes, t, f, name, limiter, luck);
      NoTlsAmongReverse(name, t, f, limiter);
    } else {
      MadeWithoutTls(nodes, t, f, name, limiter, luck);
    }
    PauseWithoutTls(made, TrafficNode(t), name);
  }

  // Of the names of the forward, relay apart, exactly these are registered, and they are listed.
  ghost predicate MadeOn(a: Agent, names: seq<string>, name: string) {
    forall s :: s in SUFFIXES && s != "_relay" ==>
      (name + s in a.registry <==> name + s in names) && (name + s in names ==> name + s in NamesOf(a.services))
  }

  // What a created reverse forward leaves on the private node.
  ghost predicate PrivateMade(made: Nodes, t: Tunnel, f: Forward, name: string, limiter: Option<string>) {
    t.outNode in made && MadeOn(made[t.outNode].agent, TrimAll(NamesOf(ReverseServices(name, t, f, limiter))), name)
  }

  lemma ReverseMade(nodes: Nodes, t: Tunnel, f: Forward, name: string, limiter: Option<string>, luck: Luck)
    requires Ready(nodes, t, name) && t.kind.Reverse? && Attempt(nodes, t, f, name, limiter, luck).created
    ensures PrivateMade(Attempt(nodes, t, f, name, limiter, luck).nodes, t, f, name, limiter)
  {
    var m := nodes[t.inNode := PublicAdded(nodes[t.inNode], t, f, name, limiter, luck(0))][t.outNode];
    PrivateBefore(nodes, t, f, name, limiter, luck(0), m);
    ReverseSteps(nodes, t, f, name, limiter, luck, m);
    PrivateAfter(m, t, f, name, limiter, luck(1), luck(2));
  }

  lemma PrivateBefore(nodes: Nodes, t: Tunnel, f: Forward, name: string, limiter: Option<string>, p: Parses, m: Node)
    requires Ready(nodes, t, name) && m == nodes[t.inNode := PublicAdded(nodes[t.inNode], t, f, name, limiter, p)][t.outNode]
    ensures forall s :: s in SUFFIXES && s != "_relay" ==> name + s !in m.agent.registry
  {
    if t.inNode == t.outNode {
      RelayOnly(nodes[t.inNode], t, f, name, limiter, p);
    } else {
      FreshSuffixes(m, name);
    }
  }

  lemma FreshSuffixes(n: Node, name: string)
    requires Fresh(n, name)
    ensures forall s :: s in SUFFIXES ==> name + s !in n.agent.registry
  {
  }

  lemma ReverseSteps(nodes: Nodes, t: Tunnel, f: Forward, name: string, limiter: Option<string>, luck: Luck, m: Node)
    requires t.inNode in nodes && t.outNode in nodes && t.kind.Reverse? && Attempt(nodes, t, f, name, limiter, luck).created
    requires m == nodes[t.inNode := PublicAdded(nodes[t.inNode], t, f, name, limiter, luck(0))][t.outNode]
    ensures Answer(m, AddServices(ReverseServices(name, t, f, limiter)), luck(1)).failure.None?
    ensures var made := Attempt(nodes, t, f, name, limiter, luck).nodes;
            t.outNode in made && made[t.outNode] == PrivateAdded(m, t, f, name, limiter, luck(1), luck(2))
  {
    AttemptOnReverse(nodes, t, f, name, limiter, luck);
  }

  // The relay service is the only one the public node gets.
  lemma RelayOnly(n: Node, t: Tunnel, f: Forward, name: string, limiter: Option<string>, p: Parses)
    requires Base(name) && Sound(n) && Fresh(n, name)
    ensures forall s :: s in SUFFIXES && s != "_relay" ==> name + s !in PublicAdded(n, t, f, name, limiter, p).agent.registry
  {
    var c := ReverseRelayService(name, t, f, limiter);
    NamesAreVisible(name);
    SingleCreate(n.agent, c, p);
    forall s | s in SUFFIXES && s != "_relay" ensures name + s != name + "_relay" { assert |s| < |"_relay"|; }
  }

  lemma PrivateAfter(m: Node, t: Tunnel, f: Forward, name: string, limiter: Option<string>, p: Parses, q: Parses)
    requires forall s :: s in SUFFIXES && s != "_relay" ==> name + s !in m.agent.registry
    requires Answer(m, AddServices(ReverseServices(name, t, f, limiter)), p).failure.None?
    ensures var a := PrivateAdded(m, t, f, name, limiter, p, q).agent;
            MadeOn(a, TrimAll(NamesOf(ReverseServices(name, t, f, limiter))), name)
  {
    var data := ReverseServices(name, t, f, limiter);
    AddedAgent(m, data, p, Chain(name, t, f), q, true);
    LaunchAllNext(m.agent, TrimAll(NamesOf(data)));
    assert NamesOf(m.agent.services + Stored(data)) == NamesOf(m.agent.services) + TrimAll(NamesOf(data));
  }

  lemma NoTlsAmongReverse(name: string, t: Tunnel, f: Forward, limiter: Option<string>)
    requires Base(name)
    ensures name + "_tls" !in TrimAll(NamesOf(ReverseServices(name, t, f, limiter))) && "_tls" in SUFFIXES
  {
    ReverseNames(name, t, f, limiter);
    assert (name + "_tls")[|name| + 3] == 's' && (name + "_tcp")[|name| + 3] == 'p' && (name + "_udp")[|name| + 3] == 'p';
  }

  lemma PauseOfPlainReverse(made: Nodes, t: Tunnel, f: Forward, name: string, limiter: Option<string>)
    requires Base(name) && AsksTooMuch(t) && PrivateMade(made, t, f, name, limiter)
    ensures var r := Send(made, t.outNode, PauseServices(StatusNames(name, t)), ALL_PARSE); r.failure.Some? && r.nodes == made
  {
    LeftoverNames(name, t, f, limiter, ReverseService(name, "tcp", f, limiter));
    ReverseNames(name, t, f, limiter);
    assert "_udp" in SUFFIXES && name + "_udp" !in made[t.outNode].agent.registry;
    PauseNotSent(made, t.outNode, StatusNames(name, t), 1);
  }

  lemma PauseOfReverse(made: Nodes, t: Tunnel, f: Forward, name: string, limiter: Option<string>)
    requires Base(name) && t.kind.Reverse? && !AsksTooMuch(t) && PrivateMade(made, t, f, name, limiter)
    ensures Send(made, t.outNode, PauseServices(StatusNames(name, t)), ALL_PARSE).failure.None?
  {
    NamesToPause(name, t, f, limiter);
    NamesMade(made[t.outNode].agent, TrimAll(NamesOf(ReverseServices(name, t, f, limiter))), name);
    PauseIsAccepted(made[t.outNode].agent, TransportNames(name, t.protocol));
  }

  lemma NamesMade(a: Agent, names: seq<string>, name: string)
    requires MadeOn(a, names, name)
    requires forall j :: 0 <= j < |names| ==> names[j] == name + "_tcp" || names[j] == name + "_udp"
    ensures forall j :: 0 <= j < |names| ==> names[j] in a.registry && names[j] in NamesOf(a.services) && names[j] != ""
  {
    forall j | 0 <= j < |names| ensures names[j] in a.registry && names[j] in NamesOf(a.services) && names[j] != "" {
      var s := if names[j] == name + "_tcp" then "_tcp" else "_udp";
      assert names[j] == name + s && s in SUFFIXES && s != "_relay";
      assert name + s in names;
    }
  }

  lemma NamesToPause(name: string, t: Tunnel, f: Forward, limiter: Option<string>)
    requires Base(name) && t.kind.Reverse? && !AsksTooMuch(t)
    ensures var names := TransportNames(name, t.protocol);
            names != [] && TrimAll(names) == names == TrimAll(NamesOf(ReverseServices(name, t, f, limiter)))
            && forall j :: 0 <= j < |names| ==> names[j] == name + "_tcp" || names[j] == name + "_udp"
  {
    PrivateNames(name, t, f, limiter);
    TransportNamesTrimmed(name, t.protocol);
  }

  lemma PauseIsAccepted(a: Agent, names: seq<string>)
    requires names != []
    requires forall j :: 0 <= j < |names| ==> TrimAll(names)[j] in a.registry && TrimAll(names)[j] in NamesOf(a.services) && TrimAll(names)[j] != ""
    ensures Pause(a, names).error.None?
  {
    PauseAccepted(a, TrimAll(names), 0);
    forall j | 0 <= j < |names| ensures Listed(a.services, TrimAll(names)[j]) { ListedByName(a.services, TrimAll(names)[j]); }
  }

  lemma CreatedIsAttempt(nodes: Nodes, t: Tunnel, f: Forward, name: string, limiter: Option<string>, luck: Luck)
    requires CreateForward(nodes, t, f, name, limiter, luck).created
    ensures CreateForward(nodes, t, f, name, limiter, luck) == Attempt(nodes, t, f, name, limiter, luck)
  {
  }

  lemma PauseWithoutTls(made: Nodes, k: int, name: string)
    requires Base(name) && k in made && name + "_tls" !in made[k].agent.registry
    ensures var r := Send(made, k, PauseServices(PauseNames(name)), ALL_PARSE); r.failure.Some? && r.nodes == made
  {
    assert Trim(PauseNames(name)[2]) == name + "_tls" by { NamesAreVisible(name); }
    PauseNotSent(made, k, PauseNames(name), 2);
  }

  lemma MadeWithoutTls(nodes: Nodes, t: Tunnel, f: Forward, name: string, limiter: Option<string>, luck: Luck)
    requires Ready(nodes, t, name) && !t.kind.Reverse?
    ensures var made := Attempt(nodes, t, f, name, limiter, luck).nodes;
            t.inNode in made && name + "_tls" !in made[t.inNode].agent.registry
  {
    EntryHasNoTls(nodes[t.inNode], t, f, name, limiter, luck(0));
    EntryAfterAttempt(nodes, t, f, name, limiter, luck);
  }

  lemma PauseNotSent(made: Nodes, k: int, names: seq<string>, i: nat)
    requires k in made && i < |names| && Trim(names[i]) !in made[k].agent.registry
    ensures var r := Send(made, k, PauseServices(names), ALL_PARSE); r.failure.Some? && r.nodes == made
  {
    PauseRefused(made[k].agent, names, i);
    assert made[k := made[k]] == made;
  }

  lemma EntryHasNoTls(n: Node, t: Tunnel, f: Forward, name: string, limiter: Option<string>, p: Parses)
    requires Base(name) && Fresh(n, name)
    ensures name + "_tls" !in Answer(n, AddServices(EntryServices(name, t, f, limiter)), p).node.agent.registry
  {
    EntryNames(name, t, f, limiter);
    TransportNamesTrimmed(name, t.protocol);
    LaunchAllNext(n.agent, TransportNames(name, t.protocol));
    assert name + "_tls" !in TransportNames(name, t.protocol) by {
      assert (name + "_tls")[|name| + 3] == 's' && (name + "_tcp")[|name| + 3] == 'p' && (name + "_udp")[|name| + 3] == 'p';
    }
  }

  lemma PauseRefused(a: Agent, names: seq<string>, i: nat)
    requires i < |names| && Trim(names[i]) !in a.registry
    ensures Pause(a, names).error.Some? && Pause(a, names).agent == a
  {
    assert TrimAll(names)[i] !in a.registry;
    if Refusal(a.registry, TrimAll(names), true, ALL_PARSE, 0).None? {
      NotRefused(a.registry, TrimAll(names), true, ALL_PARSE, 0);
      assert false;
    }
  }
}
