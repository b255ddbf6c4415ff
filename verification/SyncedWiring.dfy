/** The same readings after a synchronisation of a whole tunnel. */
module SyncedWiring {
  import opened Text
  import opened Settings
  import opened AgentTables
  import opened AgentAgreement
  import opened AgentReplay
  import opened Protocol
  import opened Fleet
  import opened Compensation
  import opened NodeNames
  import opened Removal
  import opened RemovalRuns
  import opened Replay
  import opened SyncedRemoval
  import opened Wiring
  import opened Provisioning
  import Chains = AgentChains

  // ---- one request ----

  lemma SyncedConfig(n: Node, data: seq<ServiceConfig>, p: Parses, x: string)
    requires Answer(n, SyncServices(data), p).failure.None? && forall j :: 0 <= j < |data| ==> Aligned(n.agent, Trim(data[j].name))
    ensures ServiceAt(Answer(n, SyncServices(data), p).node, x) == Overridden(n.agent.services, Stored(data), x)
  {
    SyncSucceedsExactly(n.agent, data, p);
    PutAllConfig(n.agent, Stored(data), |data|, x);
    assert Stored(data)[..|data|] == Stored(data);
  }

  lemma SyncAligned(n: Node, data: seq<ServiceConfig>, p: Parses, x: string)
    requires Answer(n, SyncServices(data), p).failure.None? && Aligned(n.agent, x)
    requires forall j :: 0 <= j < |data| ==> Aligned(n.agent, Trim(data[j].name))
    ensures Aligned(Answer(n, SyncServices(data), p).node.agent, x)
  {
    SyncSucceedsExactly(n.agent, data, p);
    PutAllAligned(n.agent, Stored(data), |data|, x);
  }

  // One or two services, of different names.
  lemma SyncedEach(n: Node, data: seq<ServiceConfig>, p: Parses, i: nat)
    requires 1 <= |data| <= 2 && i < |data| && (|data| == 2 ==> data[0].name != data[1].name)
    requires Answer(n, SyncServices(data), p).failure.None?
    requires forall j :: 0 <= j < |data| ==> Trim(data[j].name) == data[j].name && Aligned(n.agent, data[j].name)
    ensures ServiceAt(Answer(n, SyncServices(data), p).node, data[i].name) == Some(data[i])
  {
    SyncedConfig(n, data, p, data[i].name);
    assert Stored(data) == data;
    LastOfTwo(data, i);
  }

  lemma LastOfTwo(data: seq<ServiceConfig>, i: nat)
    requires 1 <= |data| <= 2 && i < |data| && (|data| == 2 ==> data[0].name != data[1].name)
    ensures LastEntry(data, data[i].name) == Some(data[i])
  {
    if |data| == 2 && i == 0 {
      assert data[..1] == [data[0]];
      assert LastEntry([data[0]], data[0].name) == Some(data[0]);
    }
  }

  lemma {:induction false} PutAllLeaves(a: Agent, stored: seq<ServiceConfig>, k: nat, x: string)
    requires k <= |stored| && forall j :: 0 <= j < |stored| ==> stored[j].name != x
    ensures ConfigOf(PutAll(a, stored, k).services, x) == ConfigOf(a.services, x)
    ensures x in PutAll(a, stored, k).registry <==> x in a.registry
    ensures x in NamesOf(PutAll(a, stored, k).services) <==> x in NamesOf(a.services)
  {
    if k > 0 {
      PutAllLeaves(a, stored, k - 1, x);
      PutLeaves(PutAll(a, stored, k - 1), stored[k - 1], x);
    }
  }

  lemma PutLeaves(a: Agent, c: ServiceConfig, x: string)
    requires c.name != x
    ensures ConfigOf(Put(a, c).services, x) == ConfigOf(a.services, x)
    ensures x in Put(a, c).registry <==> x in a.registry
    ensures x in NamesOf(Put(a, c).services) <==> x in NamesOf(a.services)
  {
    PutIs(a, c);
    if c.name in a.registry {
      assert NamesOf(ReplaceFirst(a.services, c)) == NamesOf(a.services);
      SameNames(a.services, ReplaceFirst(a.services, c), x);
    } else {
      assert NamesOf(a.services + [c]) == NamesOf(a.services) + [c.name];
      OtherConfig(a.services, [c], x);
    }
  }

  lemma {:induction false} WithoutConfig(s: seq<ServiceConfig>, names: seq<string>, x: string)
    requires x !in names
    ensures ConfigOf(Without(s, names), x) == ConfigOf(s, x)
    ensures x in NamesOf(Without(s, names)) <==> x in NamesOf(s)
  {
    if s != [] {
      var k := |s| - 1;
      var init := Without(s[..k], names);
      WithoutConfig(s[..k], names, x);
      assert s == s[..k] + [s[k]];
      assert NamesOf(s) == NamesOf(s[..k]) + [s[k].name] && NamesOf(init + [s[k]]) == NamesOf(init) + [s[k].name];
      SnocConfig(s[..k], s[k], x);
      SnocConfig(init, s[k], x);
    }
  }

  lemma SnocConfig(s: seq<ServiceConfig>, c: ServiceConfig, x: string)
    ensures ConfigOf(s + [c], x) == if ConfigOf(s, x).Some? then ConfigOf(s, x) else if c.name == x then Some(c) else None
  {
    IndexAppend(s, c, x);
  }

  // What a node says about a name: its configuration, whether it is in both stores or in
  // neither, its chain.
  predicate SameReading(m: Node, n: Node, x: string) {
    ServiceAt(m, x) == ServiceAt(n, x) && (Aligned(m.agent, x) <==> Aligned(n.agent, x)) && ChainAt(m, x) == ChainAt(n, x)
  }

  predicate IsSyncStep(r: Request) { r.SyncServices? || r.DeleteServices? || r.SyncChain? }

  lemma BrokenOffLeaves(a: Agent, c: ServiceConfig, parses: bool, x: string)
    requires SyncOne(a, c, parses).error.Some? && x != Trim(c.name)
    ensures var b := SyncOne(a, c, parses).agent; b.services == a.services && (x in b.registry <==> x in a.registry)
  {
    TrimIdempotent(c.name);
    var data := [c.(name := Trim(c.name))];
    assert TrimAll(NamesOf(data)) == [Trim(c.name)];
    CreateIs(a, data, Always(parses));
    RestartFrame(a, [Trim(c.name)], Always(parses), 0);
    RestartFrames(a, [Trim(c.name)], Always(parses), 0, x);
  }

  lemma SyncLeaves(a: Agent, data: seq<ServiceConfig>, parses: Parses, x: string)
    requires forall j :: 0 <= j < |data| ==> Trim(data[j].name) != x
    ensures var b := Sync(a, data, parses).agent;
            ConfigOf(b.services, x) == ConfigOf(a.services, x) && (x in b.registry <==> x in a.registry)
            && (x in NamesOf(b.services) <==> x in NamesOf(a.services))
  {
    var k := FirstStop(data, parses, 0);
    SyncReaches(a, data, parses, k);
    PutAllLeaves(a, Stored(data), k, x);
    if k < |data| {
      var b := PutAll(a, Stored(data), k);
      SyncOneStops(b, data[k], parses(k));
      BrokenOffLeaves(b, data[k], parses(k), x);
    }
  }

  lemma StepLeaves(n: Node, r: Request, p: Parses, x: string)
    requires IsSyncStep(r) && x !in Mentions(r)
    ensures SameReading(Answer(n, r, p).node, n, x)
  {
    match r
    case SyncServices(data) =>
      forall j | 0 <= j < |data| ensures Trim(data[j].name) != x { assert TrimAll(NamesOf(data))[j] == Trim(data[j].name); }
      SyncLeaves(n.agent, data, p, x);
    case DeleteServices(names) =>
      DropAllIs(n.agent, TrimAll(names));
      WithoutConfig(n.agent.services, TrimAll(names), x);
    case SyncChain(c) =>
  }

  lemma SendLeaves(nodes: Nodes, k: int, r: Request, p: Parses, x: string, j: int)
    requires IsSyncStep(r) && x !in Mentions(r) && j in nodes
    ensures var after := Send(nodes, k, r, p).nodes; after.Keys == nodes.Keys && SameReading(after[j], nodes[j], x)
  {
    if k in nodes { StepLeaves(nodes[k], r, p, x); }
  }

  // ---- a row of another forward ----

  // Agents that leave the readings of a name alone when they answer about another forward.
  ghost predicate LeavesReading(answer: Behaviour, other: nat, x: string) {
    forall n, r: Request, p :: IsSyncStep(r) && About(r, other) ==> SameReading(answer(n, r, p).node, n, x)
  }

  // The node says the same about the name as at the start.
  predicate SameSince(start: Nodes, nodes: Nodes, x: string, j: int) {
    nodes.Keys == start.Keys && (j in start ==> SameReading(nodes[j], start[j], x))
  }

  lemma AskLeaves(answer: Behaviour, start: Nodes, nodes: Nodes, k: int, r: Request, p: Parses, other: nat, x: string, j: int)
    requires LeavesReading(answer, other, x) && SameSince(start, nodes, x, j) && IsSyncStep(r) && About(r, other)
    ensures SameSince(start, Ask(answer, nodes, k, r, p).nodes, x, j)
  {
  }

  lemma RelayStepsLeave(answer: Behaviour, start: Nodes, nodes: Nodes, t: Tunnel, row: Row, limiter: Option<string>, luck: nat -> Parses, x: string, j: int)
    requires LeavesReading(answer, row.forward.id, x) && SameSince(start, nodes, x, j)
    ensures var remote := Ask(answer, nodes, t.outNode, SyncServices([RemoteService(Name(row), t, row.forward, limiter)]), luck(1));
            && SameSince(start, remote.nodes, x, j)
            && SameSince(start, Ask(answer, remote.nodes, t.inNode, SyncChain(Chain(Name(row), t, row.forward)), luck(2)).nodes, x, j)
  {
    var f, second := row.forward, SyncServices([RemoteService(Name(row), t, row.forward, limiter)]);
    RowRequests(t, row, limiter);
    AskLeaves(answer, start, nodes, t.outNode, second, luck(1), f.id, x, j);
    AskLeaves(answer, start, Ask(answer, nodes, t.outNode, second, luck(1)).nodes, t.inNode, SyncChain(Chain(Name(row), t, f)), luck(2), f.id, x, j);
  }

  lemma ReverseStepsLeave(answer: Behaviour, start: Nodes, nodes: Nodes, t: Tunnel, row: Row, limiter: Option<string>, luck: nat -> Parses, x: string, j: int)
    requires LeavesReading(answer, row.forward.id, x) && SameSince(start, nodes, x, j)
    ensures var dropped := DropUdp(answer, nodes, t, row, t.outNode);
            var chain := Ask(answer, dropped, t.outNode, SyncChain(Chain(Name(row), t, row.forward)), luck(2));
            && SameSince(start, chain.nodes, x, j)
            && SameSince(start, Ask(answer, chain.nodes, t.outNode, SyncServices(ReverseServices(Name(row), t, row.forward, limiter)), luck(1)).nodes, x, j)
  {
    var name, f := Name(row), row.forward;
    RowRequests(t, row, limiter);
    AskLeaves(answer, start, nodes, t.outNode, DeleteServices([name + "_udp"]), ALL_PARSE, f.id, x, j);
    var n2 := DropUdp(answer, nodes, t, row, t.outNode);
    AskLeaves(answer, start, n2, t.outNode, SyncChain(Chain(name, t, f)), luck(2), f.id, x, j);
    AskLeaves(answer, start, Ask(answer, n2, t.outNode, SyncChain(Chain(name, t, f)), luck(2)).nodes, t.outNode,
              SyncServices(ReverseServices(name, t, f, limiter)), luck(1), f.id, x, j);
  }

  lemma RowStepsLeave(answer: Behaviour, nodes: Nodes, t: Tunnel, row: Row, limiter: Option<string>, luck: nat -> Parses, x: string, j: int)
    requires LeavesReading(answer, row.forward.id, x)
    ensures SameSince(nodes, SyncRow(answer, nodes, t, row, limiter, luck).nodes, x, j)
  {
    var entry := Ask(answer, nodes, t.inNode, EntryRequest(t, row, limiter), luck(0));
    RowRequests(t, row, limiter);
    AskLeaves(answer, nodes, nodes, t.inNode, EntryRequest(t, row, limiter), luck(0), row.forward.id, x, j);
    RelayStepsLeave(answer, nodes, entry.nodes, t, row, limiter, luck, x, j);
    ReverseStepsLeave(answer, nodes, entry.nodes, t, row, limiter, luck, x, j);
  }

  lemma AnswersLeave(other: nat, x: string)
    requires !Mine(x, other)
    ensures LeavesReading(Answer, other, x)
  {
    forall n, r: Request, p | IsSyncStep(r) && About(r, other) ensures SameReading(Answer(n, r, p).node, n, x) {
      StepLeaves(n, r, p, x);
    }
  }

  // A row changes no reading of a name of another forward, whether or not it succeeds.
  lemma RowLeaves(nodes: Nodes, t: Tunnel, row: Row, limiter: Option<string>, luck: nat -> Parses, x: string, j: int)
    requires !Mine(x, row.forward.id) && j in nodes
    ensures var after := SyncRow(Answer, nodes, t, row, limiter, luck).nodes; after.Keys == nodes.Keys && SameReading(after[j], nodes[j], x)
  {
    AnswersLeave(row.forward.id, x);
    RowStepsLeave(Answer, nodes, t, row, limiter, luck, x, j);
  }

  // ---- a row of the forward itself ----

  // On no node of the tunnel a name of the forward is listed without being registered, or the
  // other way round.
  ghost predicate AllAligned(nodes: Nodes, name: string) {
    forall k, s :: k in nodes && s in SUFFIXES ==> Aligned(nodes[k].agent, name + s)
  }

  lemma EntryAt(n: Node, t: Tunnel, f: Forward, name: string, limiter: Option<string>, p: Parses, i: nat)
    requires !t.kind.Reverse? && Base(name) && Aligned(n.agent, name + "_tcp") && Aligned(n.agent, name + "_udp")
    requires i < |EntryServices(name, t, f, limiter)| && Answer(n, SyncServices(EntryServices(name, t, f, limiter)), p).failure.None?
    ensures var c := EntryServices(name, t, f, limiter)[i];
            ServiceAt(Answer(n, SyncServices(EntryServices(name, t, f, limiter)), p).node, c.name) == Some(c)
  {
    BuiltNames(t, f, name, limiter);
    Suffixes(name);
    SyncedEach(n, EntryServices(name, t, f, limiter), p, i);
  }

  lemma EntriesSynced(n: Node, t: Tunnel, f: Forward, name: string, limiter: Option<string>, p: Parses)
    requires !t.kind.Reverse? && Base(name) && Aligned(n.agent, name + "_tcp") && Aligned(n.agent, name + "_udp")
    requires Answer(n, SyncServices(EntryServices(name, t, f, limiter)), p).failure.None?
    ensures EntriesWired(Answer(n, SyncServices(EntryServices(name, t, f, limiter)), p).node, t, f, name, limiter)
  {
    BuiltNames(t, f, name, limiter);
    EntryBuilt(t, f, name, limiter);
    EntryAt(n, t, f, name, limiter, p, 0);
    if t.protocol != "anytls" { EntryAt(n, t, f, name, limiter, p, 1); }
  }

  lemma PrivatesSynced(n: Node, t: Tunnel, f: Forward, name: string, limiter: Option<string>, p: Parses)
    requires t.kind.Reverse? && Base(name) && Aligned(n.agent, name + "_tcp") && Aligned(n.agent, name + "_udp")
    requires Answer(n, SyncServices(ReverseServices(name, t, f, limiter)), p).failure.None?
    ensures PrivatesWired(Answer(n, SyncServices(ReverseServices(name, t, f, limiter)), p).node, t, f, name, limiter)
  {
    var data := ReverseServices(name, t, f, limiter);
    BuiltNames(t, f, name, limiter);
    Suffixes(name);
    ReverseBuilt(t, f, name, limiter);
    SyncedEach(n, data, p, 0);
    if t.protocol == "quic" { SyncedEach(n, data, p, 1); }
  }

  lemma SingleSynced(n: Node, c: ServiceConfig, p: Parses)
    requires Trim(c.name) == c.name && Aligned(n.agent, c.name) && Answer(n, SyncServices([c]), p).failure.None?
    ensures ServiceAt(Answer(n, SyncServices([c]), p).node, c.name) == Some(c)
  {
    SyncedEach(n, [c], p, 0);
  }

  lemma ChainSynced(n: Node, c: Chains.Entry, p: Parses)
    requires Trim(c.name) == c.name && Answer(n, SyncChain(c), p).failure.None?
    ensures ChainAt(Answer(n, SyncChain(c), p).node, c.name) == Some(c) && Answer(n, SyncChain(c), p).node.agent == n.agent
  {
  }

  lemma DirectRowWired(nodes: Nodes, t: Tunnel, row: Row, limiter: Option<string>, luck: nat -> Parses)
    requires t.kind.Direct? && Base(Name(row)) && AllAligned(nodes, Name(row)) && SyncRow(Answer, nodes, t, row, limiter, luck).failure.None?
    ensures Wired(SyncRow(Answer, nodes, t, row, limiter, luck).nodes, t, row.forward, Name(row), limiter)
  {
    AlignedOn(nodes, t.inNode, Name(row));
    EntriesSynced(nodes[t.inNode], t, row.forward, Name(row), limiter, luck(0));
  }

  lemma AlignedOn(nodes: Nodes, k: int, name: string)
    requires AllAligned(nodes, name) && k in nodes
    ensures Aligned(nodes[k].agent, name + "_tcp") && Aligned(nodes[k].agent, name + "_udp")
    ensures Aligned(nodes[k].agent, name + "_tls") && Aligned(nodes[k].agent, name + "_relay")
  {
    assert "_tcp" in SUFFIXES && "_udp" in SUFFIXES && "_tls" in SUFFIXES && "_relay" in SUFFIXES;
  }

  // The two ends of a relay tunnel, each from its own node.
  lemma NearSynced(n: Node, t: Tunnel, f: Forward, name: string, limiter: Option<string>, p: Parses, q: Parses)
    requires t.kind.Relay? && Base(name) && Aligned(n.agent, name + "_tcp") && Aligned(n.agent, name + "_udp")
    requires var entry := Answer(n, SyncServices(EntryServices(name, t, f, limiter)), p);
             entry.failure.None? && Answer(entry.node, SyncChain(Chain(name, t, f)), q).failure.None?
    ensures var m := Answer(Answer(n, SyncServices(EntryServices(name, t, f, limiter)), p).node, SyncChain(Chain(name, t, f)), q).node;
            EntriesWired(m, t, f, name, limiter) && ChainAt(m, name + "_chains") == Some(Chain(name, t, f))
  {
    var entry := Answer(n, SyncServices(EntryServices(name, t, f, limiter)), p).node;
    BuiltNames(t, f, name, limiter);
    EntriesSynced(n, t, f, name, limiter, p);
    ChainSynced(entry, Chain(name, t, f), q);
    SameEntries(entry, Answer(entry, SyncChain(Chain(name, t, f)), q).node, t, f, name, limiter);
  }

  lemma SameEntries(n: Node, m: Node, t: Tunnel, f: Forward, name: string, limiter: Option<string>)
    requires EntriesWired(n, t, f, name, limiter) && m.agent == n.agent
    ensures EntriesWired(m, t, f, name, limiter)
  {
  }

  lemma FarSynced(m: Node, t: Tunnel, f: Forward, name: string, limiter: Option<string>, p: Parses)
    requires t.kind.Relay? && Base(name) && Aligned(m.agent, name + "_tls")
    requires Answer(m, SyncServices([RemoteService(name, t, f, limiter)]), p).failure.None?
    ensures ServiceAt(Answer(m, SyncServices([RemoteService(name, t, f, limiter)]), p).node, name + "_tls") == Some(RemoteService(name, t, f, limiter))
  {
    BuiltNames(t, f, name, limiter);
    SingleSynced(m, RemoteService(name, t, f, limiter), p);
  }

  lemma BothEnds(nodes: Nodes, t: Tunnel, f: Forward, name: string, limiter: Option<string>)
    requires t.kind.Relay? && t.inNode in nodes && t.outNode in nodes
    requires EntriesWired(nodes[t.inNode], t, f, name, limiter) && ChainAt(nodes[t.inNode], name + "_chains") == Some(Chain(name, t, f))
    requires ServiceAt(nodes[t.outNode], name + "_tls") == Some(RemoteService(name, t, f, limiter))
    ensures Wired(nodes, t, f, name, limiter)
  {
    RelayBuilt(t, f, name, limiter);
  }

  lemma RelayRepliesWired(nodes: Nodes, t: Tunnel, row: Row, limiter: Option<string>, luck: nat -> Parses, entry: Reply, remote: Reply, chain: Reply)
    requires t.kind.Relay? && Base(Name(row)) && AllAligned(nodes, Name(row)) && t.inNode != t.outNode
    requires entry == Send(nodes, t.inNode, EntryRequest(t, row, limiter), luck(0)) && entry.failure.None?
    requires remote == Send(entry.nodes, t.outNode, SyncServices([RemoteService(Name(row), t, row.forward, limiter)]), luck(1)) && remote.failure.None?
    requires chain == Send(remote.nodes, t.inNode, SyncChain(Chain(Name(row), t, row.forward)), luck(2)) && chain.failure.None?
    ensures Wired(chain.nodes, t, row.forward, Name(row), limiter)
  {
    AlignedOn(nodes, t.inNode, Name(row));
    AlignedOn(nodes, t.outNode, Name(row));
    NearSynced(nodes[t.inNode], t, row.forward, Name(row), limiter, luck(0), luck(2));
    FarSynced(nodes[t.outNode], t, row.forward, Name(row), limiter, luck(1));
    BothEnds(chain.nodes, t, row.forward, Name(row), limiter);
  }

  lemma RelayRowWired(nodes: Nodes, t: Tunnel, row: Row, limiter: Option<string>, luck: nat -> Parses)
    requires t.kind.Relay? && t.inNode != t.outNode && Base(Name(row)) && AllAligned(nodes, Name(row))
    requires SyncRow(Answer, nodes, t, row, limiter, luck).failure.None?
    ensures Wired(SyncRow(Answer, nodes, t, row, limiter, luck).nodes, t, row.forward, Name(row), limiter)
  {
    var entry := Send(nodes, t.inNode, EntryRequest(t, row, limiter), luck(0));
    var remote := Send(entry.nodes, t.outNode, SyncServices([RemoteService(Name(row), t, row.forward, limiter)]), luck(1));
    var chain := Send(remote.nodes, t.inNode, SyncChain(Chain(Name(row), t, row.forward)), luck(2));
    RelayRepliesWired(nodes, t, row, limiter, luck, entry, remote, chain);
  }

  // After the first step of a reverse row: the relay is there, the names still aligned.
  lemma RelayFirst(n: Node, t: Tunnel, f: Forward, name: string, limiter: Option<string>, p: Parses)
    requires t.kind.Reverse? && Base(name) && Aligned(n.agent, name + "_relay") && Aligned(n.agent, name + "_tcp") && Aligned(n.agent, name + "_udp")
    requires Answer(n, SyncServices([ReverseRelayService(name, t, f, limiter)]), p).failure.None?
    ensures var m := Answer(n, SyncServices([ReverseRelayService(name, t, f, limiter)]), p).node;
            && ServiceAt(m, name + "_relay") == Some(ReverseRelayService(name, t, f, limiter))
            && Aligned(m.agent, name + "_tcp") && Aligned(m.agent, name + "_udp")
  {
    var c := ReverseRelayService(name, t, f, limiter);
    BuiltNames(t, f, name, limiter);
    SingleSynced(n, c, p);
    SyncAligned(n, [c], p, name + "_tcp");
    SyncAligned(n, [c], p, name + "_udp");
  }

  lemma UdpDropped(nodes: Nodes, k: int, j: int, name: string)
    requires Base(name) && j in nodes
    ensures var after := Send(nodes, k, DeleteServices([name + "_udp"]), ALL_PARSE).nodes;
            && after.Keys == nodes.Keys && ServiceAt(after[j], name + "_relay") == ServiceAt(nodes[j], name + "_relay")
            && (Aligned(nodes[j].agent, name + "_tcp") ==> Aligned(after[j].agent, name + "_tcp"))
            && (Aligned(nodes[j].agent, name + "_udp") ==> Aligned(after[j].agent, name + "_udp"))
  {
    var udp := DeleteServices([name + "_udp"]);
    NamesAreVisible(name);
    Suffixes(name);
    assert Mentions(udp) == [name + "_udp"];
    SendLeaves(nodes, k, udp, ALL_PARSE, name + "_relay", j);
    SendLeaves(nodes, k, udp, ALL_PARSE, name + "_tcp", j);
    if j == k && Aligned(nodes[j].agent, name + "_udp") { DeletedAligned(nodes[j], name + "_udp"); }
  }

  lemma PublicSynced(nodes: Nodes, t: Tunnel, row: Row, limiter: Option<string>, luck: nat -> Parses, entry: Reply, dropped: Nodes)
    requires t.kind.Reverse? && Base(Name(row)) && AllAligned(nodes, Name(row))
    requires entry == Send(nodes, t.inNode, EntryRequest(t, row, limiter), luck(0)) && entry.failure.None?
    requires dropped == DropUdp(Answer, entry.nodes, t, row, t.outNode)
    ensures t.inNode in dropped && ServiceAt(dropped[t.inNode], Name(row) + "_relay") == Some(ReverseRelayService(Name(row), t, row.forward, limiter))
    ensures t.outNode in dropped ==> Aligned(dropped[t.outNode].agent, Name(row) + "_tcp") && Aligned(dropped[t.outNode].agent, Name(row) + "_udp")
  {
    AlignedOn(nodes, t.inNode, Name(row));
    RelayFirst(nodes[t.inNode], t, row.forward, Name(row), limiter, luck(0));
    UdpDropped(entry.nodes, t.outNode, t.inNode, Name(row));
    if t.outNode in nodes {
      AlignedOn(nodes, t.outNode, Name(row));
      UdpDropped(entry.nodes, t.outNode, t.outNode, Name(row));
    }
  }

  lemma DeletedAligned(n: Node, x: string)
    requires Aligned(n.agent, x) && Trim(x) == x
    ensures Aligned(Answer(n, DeleteServices([x]), ALL_PARSE).node.agent, x)
  {
    assert TrimAll([x]) == [x];
    DropAllIs(n.agent, [x]);
    WithoutNone(n.agent.services, [x], x);
  }

  lemma {:induction false} WithoutNone(s: seq<ServiceConfig>, names: seq<string>, x: string)
    requires x in names
    ensures x !in NamesOf(Without(s, names))
  {
    if s != [] {
      var k := |s| - 1;
      WithoutNone(s[..k], names, x);
      assert NamesOf(Without(s[..k], names) + [s[k]]) == NamesOf(Without(s[..k], names)) + [s[k].name];
    }
  }

  // The last two steps of a reverse row, on the private node.
  lemma PrivateEndSynced(n: Node, t: Tunnel, f: Forward, name: string, limiter: Option<string>, p: Parses, q: Parses)
    requires t.kind.Reverse? && Base(name) && Aligned(n.agent, name + "_tcp") && Aligned(n.agent, name + "_udp")
    requires var chain := Answer(n, SyncChain(Chain(name, t, f)), q);
             chain.failure.None? && Answer(chain.node, SyncServices(ReverseServices(name, t, f, limiter)), p).failure.None?
    ensures var m := Answer(Answer(n, SyncChain(Chain(name, t, f)), q).node, SyncServices(ReverseServices(name, t, f, limiter)), p).node;
            PrivatesWired(m, t, f, name, limiter) && ChainAt(m, name + "_chains") == Some(Chain(name, t, f))
            && ServiceAt(m, name + "_relay") == ServiceAt(n, name + "_relay")
  {
    var data := ReverseServices(name, t, f, limiter);
    BuiltNames(t, f, name, limiter);
    ChainSynced(n, Chain(name, t, f), q);
    var mid := Answer(n, SyncChain(Chain(name, t, f)), q).node;
    PrivatesSynced(mid, t, f, name, limiter, p);
    ReverseNames(name, t, f, limiter);
    Suffixes(name);
    ChainsApart(name);
    StepLeaves(mid, SyncServices(data), p, name + "_relay");
  }

  lemma ReverseEnds(nodes: Nodes, t: Tunnel, f: Forward, name: string, limiter: Option<string>)
    requires t.kind.Reverse? && t.inNode in nodes && t.outNode in nodes
    requires ServiceAt(nodes[t.inNode], name + "_relay") == Some(ReverseRelayService(name, t, f, limiter))
    requires PrivatesWired(nodes[t.outNode], t, f, name, limiter) && ChainAt(nodes[t.outNode], name + "_chains") == Some(Chain(name, t, f))
    ensures Wired(nodes, t, f, name, limiter)
  {
    ReverseBuilt(t, f, name, limiter);
  }

  lemma ReverseRepliesWired(nodes: Nodes, t: Tunnel, row: Row, limiter: Option<string>, luck: nat -> Parses,
                            dropped: Nodes, chain: Reply, reverse: Reply)
    requires t.kind.Reverse? && Base(Name(row)) && t.inNode in dropped
    requires ServiceAt(dropped[t.inNode], Name(row) + "_relay") == Some(ReverseRelayService(Name(row), t, row.forward, limiter))
    requires t.outNode in dropped ==> Aligned(dropped[t.outNode].agent, Name(row) + "_tcp") && Aligned(dropped[t.outNode].agent, Name(row) + "_udp")
    requires chain == Send(dropped, t.outNode, SyncChain(Chain(Name(row), t, row.forward)), luck(2)) && chain.failure.None?
    requires reverse == Send(chain.nodes, t.outNode, SyncServices(ReverseServices(Name(row), t, row.forward, limiter)), luck(1)) && reverse.failure.None?
    ensures Wired(reverse.nodes, t, row.forward, Name(row), limiter)
  {
    PrivateEndSynced(dropped[t.outNode], t, row.forward, Name(row), limiter, luck(1), luck(2));
    ReverseEnds(reverse.nodes, t, row.forward, Name(row), limiter);
  }

  lemma ChainsApart(name: string)
    ensures forall s :: s in SUFFIXES ==> name + s != name + "_chains"
  {
    forall s | s in SUFFIXES ensures name + s != name + "_chains" { assert |s| < |"_chains"|; }
  }

  lemma ReverseRowWired(nodes: Nodes, t: Tunnel, row: Row, limiter: Option<string>, luck: nat -> Parses)
    requires t.kind.Reverse? && Base(Name(row)) && AllAligned(nodes, Name(row)) && SyncRow(Answer, nodes, t, row, limiter, luck).failure.None?
    ensures Wired(SyncRow(Answer, nodes, t, row, limiter, luck).nodes, t, row.forward, Name(row), limiter)
  {
    var entry := Send(nodes, t.inNode, EntryRequest(t, row, limiter), luck(0));
    var dropped := DropUdp(Answer, entry.nodes, t, row, t.outNode);
    var chain := Send(dropped, t.outNode, SyncChain(Chain(Name(row), t, row.forward)), luck(2));
    var reverse := Send(chain.nodes, t.outNode, SyncServices(ReverseServices(Name(row), t, row.forward, limiter)), luck(1));
    PublicSynced(nodes, t, row, limiter, luck, entry, dropped);
    ReverseRepliesWired(nodes, t, row, limiter, luck, dropped, chain, reverse);
  }

  lemma RowIsWired(nodes: Nodes, t: Tunnel, row: Row, limiter: Option<string>, luck: nat -> Parses)
    requires WellPlaced(t) && AllAligned(nodes, Name(row)) && SyncRow(Answer, nodes, t, row, limiter, luck).failure.None?
    ensures Wired(SyncRow(Answer, nodes, t, row, limiter, luck).nodes, t, row.forward, Name(row), limiter)
  {
    NameIsNameOf(row.forward.id, row.forward.owner, row.relation);
    match t.kind
    case Direct => DirectRowWired(nodes, t, row, limiter, luck);
    case Relay => RelayRowWired(nodes, t, row, limiter, luck);
    case Reverse => ReverseRowWired(nodes, t, row, limiter, luck);
  }

  // ---- the whole tunnel ----

  // What two nodes say about all names of a forward.
  predicate SameReadings(m: Node, n: Node, name: string) {
    && SameReading(m, n, name + "_tcp") && SameReading(m, n, name + "_udp") && SameReading(m, n, name + "_tls")
    && SameReading(m, n, name + "_relay") && SameReading(m, n, name + "_chains")
  }

  // A wired forward stays wired while other forwards are synchronised.
  lemma StaysWired(nodes: Nodes, after: Nodes, t: Tunnel, f: Forward, name: string, limiter: Option<string>)
    requires Wired(nodes, t, f, name, limiter) && after.Keys == nodes.Keys
    requires SameReadings(after[t.inNode], nodes[t.inNode], name)
    requires t.outNode in nodes ==> SameReadings(after[t.outNode], nodes[t.outNode], name)
    ensures Wired(after, t, f, name, limiter)
  {
    match t.kind
    case Direct => EntriesStay(nodes[t.inNode], after[t.inNode], t, f, name, limiter);
    case Relay => EntriesStay(nodes[t.inNode], after[t.inNode], t, f, name, limiter);
    case Reverse => PrivatesStay(nodes[t.outNode], after[t.outNode], t, f, name, limiter);
  }

  lemma EntriesStay(n: Node, m: Node, t: Tunnel, f: Forward, name: string, limiter: Option<string>)
    requires EntriesWired(n, t, f, name, limiter) && SameReadings(m, n, name)
    ensures EntriesWired(m, t, f, name, limiter)
  {
  }

  lemma PrivatesStay(n: Node, m: Node, t: Tunnel, f: Forward, name: string, limiter: Option<string>)
    requires PrivatesWired(n, t, f, name, limiter) && SameReadings(m, n, name)
    ensures PrivatesWired(m, t, f, name, limiter)
  {
  }

  lemma OtherReadings(nodes: Nodes, t: Tunnel, row: Row, other: Row, limiter: Option<string>, luck: nat -> Parses, k: int)
    requires other.forward.id != row.forward.id && k in nodes
    ensures var after := SyncRow(Answer, nodes, t, row, limiter, luck).nodes;
            after.Keys == nodes.Keys && SameReadings(after[k], nodes[k], Name(other))
  {
    OtherReading(nodes, t, row, other, limiter, luck, k, "_tcp");
    OtherReading(nodes, t, row, other, limiter, luck, k, "_udp");
    OtherReading(nodes, t, row, other, limiter, luck, k, "_tls");
    OtherReading(nodes, t, row, other, limiter, luck, k, "_relay");
    OtherReading(nodes, t, row, other, limiter, luck, k, "_chains");
  }

  lemma OtherReading(nodes: Nodes, t: Tunnel, row: Row, other: Row, limiter: Option<string>, luck: nat -> Parses, k: int, s: string)
    requires other.forward.id != row.forward.id && k in nodes
    requires s != "" && s[0] == '_'
    ensures var after := SyncRow(Answer, nodes, t, row, limiter, luck).nodes;
            after.Keys == nodes.Keys && SameReading(after[k], nodes[k], Name(other) + s)
  {
    NameIsNameOf(other.forward.id, other.forward.owner, other.relation);
    SuffixedIsMine(Name(other), other.forward.id, s);
    if Mine(Name(other) + s, row.forward.id) { DecimalInjective(other.forward.id, row.forward.id); }
    RowLeaves(nodes, t, row, limiter, luck, Name(other) + s, k);
  }

  lemma StaysAligned(nodes: Nodes, after: Nodes, name: string)
    requires AllAligned(nodes, name) && after.Keys == nodes.Keys && forall k :: k in nodes ==> SameReadings(after[k], nodes[k], name)
    ensures AllAligned(after, name)
  {
    forall k, s | k in after && s in SUFFIXES ensures Aligned(after[k].agent, name + s) { AlignedOn(nodes, k, name); }
  }

  lemma OtherRowStaysAligned(nodes: Nodes, t: Tunnel, row: Row, other: Row, limiter: Option<string>, luck: nat -> Parses)
    requires other.forward.id != row.forward.id && AllAligned(nodes, Name(other))
    ensures AllAligned(SyncRow(Answer, nodes, t, row, limiter, luck).nodes, Name(other))
  {
    var after := SyncRow(Answer, nodes, t, row, limiter, luck).nodes;
    assert after.Keys == nodes.Keys by { SyncRowOnline(nodes, t, row, limiter, luck); }
    forall k | k in nodes ensures SameReadings(after[k], nodes[k], Name(other)) { OtherReadings(nodes, t, row, other, limiter, luck, k); }
    StaysAligned(nodes, after, Name(other));
  }

  lemma OtherRowStaysWired(nodes: Nodes, t: Tunnel, row: Row, other: Row, limiter: Option<string>, luck: nat -> Parses)
    requires other.forward.id != row.forward.id
    requires Wired(nodes, t, other.forward, Name(other), limiter)
    ensures Wired(SyncRow(Answer, nodes, t, row, limiter, luck).nodes, t, other.forward, Name(other), limiter)
  {
    OtherReadings(nodes, t, row, other, limiter, luck, t.inNode);
    if t.outNode in nodes { OtherReadings(nodes, t, row, other, limiter, luck, t.outNode); }
    StaysWired(nodes, SyncRow(Answer, nodes, t, row, limiter, luck).nodes, t, other.forward, Name(other), limiter);
  }

  // The rows before the k-th are wired, those from there on can be.
  ghost predicate WiredUpTo(nodes: Nodes, t: Tunnel, rows: seq<Row>, limiter: Option<string>, k: nat) {
    forall j :: 0 <= j < |rows| ==>
      if j < k then Wired(nodes, t, rows[j].forward, Name(rows[j]), limiter) else AllAligned(nodes, Name(rows[j]))
  }

  lemma TurnOnRow(nodes: Nodes, t: Tunnel, rows: seq<Row>, limiter: Option<string>, luck: nat -> Parses, k: nat, j: nat)
    requires WellPlaced(t) && OneRowEach(rows) && k < |rows| && j < |rows|
    requires if j < k then Wired(nodes, t, rows[j].forward, Name(rows[j]), limiter) else AllAligned(nodes, Name(rows[j]))
    requires SyncRow(Answer, nodes, t, rows[k], limiter, luck).failure.None?
    ensures var after := SyncRow(Answer, nodes, t, rows[k], limiter, luck).nodes;
            if j < k + 1 then Wired(after, t, rows[j].forward, Name(rows[j]), limiter) else AllAligned(after, Name(rows[j]))
  {
    if j < k {
      OtherRowStaysWired(nodes, t, rows[k], rows[j], limiter, luck);
    } else if j == k {
      RowIsWired(nodes, t, rows[k], limiter, luck);
    } else {
      OtherRowStaysAligned(nodes, t, rows[k], rows[j], limiter, luck);
    }
  }

  lemma TurnWires(nodes: Nodes, t: Tunnel, rows: seq<Row>, limiter: Option<string>, luck: nat -> Parses, k: nat, after: Reply)
    requires WellPlaced(t) && OneRowEach(rows) && k < |rows| && WiredUpTo(nodes, t, rows, limiter, k)
    requires after == SyncRow(Answer, nodes, t, rows[k], limiter, luck) && after.failure.None?
    ensures WiredUpTo(after.nodes, t, rows, limiter, k + 1)
  {
    forall j | 0 <= j < |rows|
      ensures if j < k + 1 then Wired(after.nodes, t, rows[j].forward, Name(rows[j]), limiter) else AllAligned(after.nodes, Name(rows[j]))
    {
      TurnOnRow(nodes, t, rows, limiter, luck, k, j);
    }
  }

  lemma SyncRowsWire(nodes: Nodes, t: Tunnel, rows: seq<Row>, limiter: Option<string>, luck: SyncLuck)
    requires WellPlaced(t) && OneRowEach(rows) && WiredUpTo(nodes, t, rows, limiter, 0)
    requires SyncRows(Answer, nodes, t, rows, limiter, luck, 0).failure.None?
    ensures WiredUpTo(SyncRows(Answer, nodes, t, rows, limiter, luck, 0).nodes, t, rows, limiter, |rows|)
  {
    var keeps := (n: Nodes, k: nat) => WiredUpTo(n, t, rows, limiter, k);
    forall n, k: nat | k < |rows| && keeps(n, k) && SyncRow(Answer, n, t, rows[k], limiter, Turn(luck, k)).failure.None?
      ensures keeps(SyncRow(Answer, n, t, rows[k], limiter, Turn(luck, k)).nodes, k + 1)
    {
      TurnWires(n, t, rows, limiter, Turn(luck, k), k, SyncRow(Answer, n, t, rows[k], limiter, Turn(luck, k)));
    }
    LoopKeeps(nodes, t, rows, limiter, luck, 0, keeps);
  }

  lemma LimitedAligned(nodes: Nodes, limited: Nodes, name: string)
    requires AllAligned(nodes, name) && limited.Keys == nodes.Keys
    requires forall k :: k in nodes ==> limited[k].agent == nodes[k].agent && limited[k].chains == nodes[k].chains
    ensures AllAligned(limited, name)
  {
  }

  // After a successful synchronisation every forward of the tunnel is wired, whatever its nodes
  // held before, provided they listed its names exactly where they had registered them: a stale
  // entry in the list keeps its place before the new one.
  lemma SyncedIsWired(nodes: Nodes, t: Tunnel, rows: seq<Row>, luck: SyncLuck, j: nat)
    requires WellPlaced(t) && OneRowEach(rows) && j < |rows| && SyncTunnel(Answer, nodes, t, rows, luck).failure.None?
    requires forall i :: 0 <= i < |rows| ==> AllAligned(nodes, Name(rows[i]))
    ensures Wired(SyncTunnel(Answer, nodes, t, rows, luck).nodes, t, rows[j].forward, Name(rows[j]), EnsureLimiters(Answer, nodes, t).name)
  {
    var l := EnsureLimiters(Answer, nodes, t);
    LimitersOnNodes(nodes, t);
    forall i | 0 <= i < |rows| ensures AllAligned(l.nodes, Name(rows[i])) { LimitedAligned(nodes, l.nodes, Name(rows[i])); }
    SyncRowsWire(l.nodes, t, rows, l.name, luck);
  }
}
