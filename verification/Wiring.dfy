/** What the panel configures on the nodes, read off the nodes: after a creation or a
    synchronisation every service of a forward listens where its row says, and the two ends of
    a relay fit each other. */
module Wiring {
  import opened Text
  import opened Settings
  import opened AgentTables
  import opened AgentAgreement
  import opened AgentReplay
  import opened Protocol
  import opened Fleet
  import opened Compensation
  import opened NodeNames
  import opened Removal
  import opened RemovalRuns
  import opened SyncedRemoval
  import Chains = AgentChains
  import Replay

  // ---- what is read off a node ----

  function ServiceAt(n: Node, x: string): Option<ServiceConfig> { ConfigOf(n.agent.services, x) }

  function ChainAt(n: Node, x: string): Option<Chains.Entry> {
    if x in n.chains.registry then Some(n.chains.registry[x]) else None
  }

  // The forwarder passes on to the forward's targets, in order.
  predicate Reaches(targets: Option<Targets>, f: Forward) {
    && targets.Some? && targets.value.addrs == CleanPieces(Split(f.remote, ','))
    && targets.value.strategy == if Trim(f.strategy) == "" then "fifo" else f.strategy
  }

  // A list of proper addresses is read back as it is.
  lemma TargetsReadBack(addrs: seq<string>)
    requires addrs != [] && forall i :: 0 <= i < |addrs| ==> ',' !in addrs[i] && addrs[i] != "" && Trim(addrs[i]) == addrs[i]
    ensures CleanPieces(Split(Text.Join(addrs, ','), ',')) == addrs
  {
    SplitJoin(addrs, ',');
    CleanIdentity(addrs);
  }

  // The transport of the tunnel's protocol; AnyTLS needs the tunnel's password.
  predicate Speaks(link: Link, t: Tunnel) {
    link.kind == t.protocol && (if t.protocol == "anytls" then link.password == Some(t.password) else link.password.None?)
  }

  predicate Bound(c: ServiceConfig, f: Forward) {
    c.metadata == if Trim(f.interfaceName) == "" then Nil else Entries(map["interface" := Other(f.interfaceName)])
  }

  // The public service on the entry node: on the entry port, to the targets or into the chain.
  predicate EntryWired(c: Option<ServiceConfig>, transport: string, listen: string, t: Tunnel, f: Forward, name: string, limiter: Option<string>) {
    && c.Some? && c.value.addr == listen + ":" + Numeral(f.inPort) && Bound(c.value, f)
    && var s := c.value.settings;
       && s.handler.kind == transport && s.handler.auth.None? && s.listener == Link(transport, None) && s.route.None? && s.limiter == limiter
       && (if t.kind.Direct? then Reaches(s.forwarder, f) && s.handler.chain.None?
           else s.forwarder.None? && s.handler.chain == Some(name + "_chains"))
  }

  // The relay service on the exit node: on the relay port, to the targets.
  predicate ExitWired(c: Option<ServiceConfig>, t: Tunnel, f: Forward, limiter: Option<string>) {
    && c.Some? && c.value.addr == ":" + Numeral(f.outPort) && Bound(c.value, f)
    && var s := c.value.settings;
       s.handler == Handler("relay", None, None) && Speaks(s.listener, t) && s.route.None? && s.limiter == limiter && Reaches(s.forwarder, f)
  }

  // The relay service on the public node of a reverse tunnel: on the relay port, for the
  // forward's own credentials, to nowhere by itself.
  predicate PublicWired(c: Option<ServiceConfig>, t: Tunnel, f: Forward, name: string, limiter: Option<string>) {
    && c.Some? && c.value.addr == ":" + Numeral(f.outPort) && Bound(c.value, f)
    && var s := c.value.settings;
       && s.handler == Handler("relay", None, Some(Auth("relay-" + name, f.secret)))
       && Speaks(s.listener, t) && s.route.None? && s.limiter == limiter && s.forwarder.None?
  }

  // The service on the private node: it asks for the entry port through the chain.
  predicate PrivateWired(c: Option<ServiceConfig>, transport: string, f: Forward, name: string, limiter: Option<string>) {
    && c.Some? && c.value.addr == ":" + Numeral(f.inPort) && Bound(c.value, f)
    && var s := c.value.settings;
       && s.handler == Handler("r" + transport, None, None) && s.listener == Link("r" + transport, None)
       && s.route == Some(name + "_chains") && s.limiter == limiter && Reaches(s.forwarder, f)
  }

  // The chain dials the port, transport and password of the service at its other end.
  predicate Dials(chain: Option<Chains.Entry>, host: string, end: ServiceConfig, f: Forward) {
    && chain.Some? && chain.value.content.Hop?
    && chain.value.content.addr == host + end.addr && chain.value.content.dialer == end.settings.listener
    && chain.value.content.interfaceName == if Trim(f.interfaceName) == "" then None else Some(f.interfaceName)
  }

  // A relay asks for the credentials the chain presents, except that a chain with a blank
  // secret presents none.
  predicate Authenticates(chain: Chains.Entry, end: ServiceConfig, f: Forward) {
    chain.content.Hop?
    && (chain.content.auth == end.settings.handler.auth <==> end.settings.handler.auth.None? || Trim(f.secret) != "")
    && (chain.content.auth != end.settings.handler.auth ==> chain.content.auth.None?)
  }

  // All services of a forward and its chain are there and fit the row, the tunnel and each other.
  predicate Wired(nodes: Nodes, t: Tunnel, f: Forward, name: string, limiter: Option<string>) {
    && t.inNode in nodes && (!t.kind.Direct? ==> t.outNode in nodes)
    && match t.kind
       case Direct => EntriesWired(nodes[t.inNode], t, f, name, limiter)
       case Relay =>
         && EntriesWired(nodes[t.inNode], t, f, name, limiter)
         && ExitWired(ServiceAt(nodes[t.outNode], name + "_tls"), t, f, limiter)
         && Linked(ChainAt(nodes[t.inNode], name + "_chains"), t.outIp, ServiceAt(nodes[t.outNode], name + "_tls"), f)
       case Reverse =>
         && PublicWired(ServiceAt(nodes[t.inNode], name + "_relay"), t, f, name, limiter)
         && PrivatesWired(nodes[t.outNode], t, f, name, limiter)
         && Linked(ChainAt(nodes[t.outNode], name + "_chains"), t.entryIp, ServiceAt(nodes[t.inNode], name + "_relay"), f)
  }

  predicate EntriesWired(n: Node, t: Tunnel, f: Forward, name: string, limiter: Option<string>) {
    && EntryWired(ServiceAt(n, name + "_tcp"), "tcp", t.tcpListen, t, f, name, limiter)
    && (t.protocol != "anytls" ==> EntryWired(ServiceAt(n, name + "_udp"), "udp", t.udpListen, t, f, name, limiter))
  }

  predicate PrivatesWired(n: Node, t: Tunnel, f: Forward, name: string, limiter: Option<string>) {
    && PrivateWired(ServiceAt(n, name + "_tcp"), "tcp", f, name, limiter)
    && (t.protocol == "quic" ==> PrivateWired(ServiceAt(n, name + "_udp"), "udp", f, name, limiter))
  }

  predicate Linked(chain: Option<Chains.Entry>, host: string, end: Option<ServiceConfig>, f: Forward) {
    end.Some? && Dials(chain, host, end.value, f) && Authenticates(chain.value, end.value, f)
  }

  // ---- what the builders put in ----

  lemma EntryBuilt(t: Tunnel, f: Forward, name: string, limiter: Option<string>)
    requires !t.kind.Reverse?
    ensures EntryWired(Some(Service(name, "tcp", t, f, t.tcpListen, limiter)), "tcp", t.tcpListen, t, f, name, limiter)
    ensures EntryWired(Some(Service(name, "udp", t, f, t.udpListen, limiter)), "udp", t.udpListen, t, f, name, limiter)
  {
  }

  lemma RelayBuilt(t: Tunnel, f: Forward, name: string, limiter: Option<string>)
    requires t.kind.Relay?
    ensures ExitWired(Some(RemoteService(name, t, f, limiter)), t, f, limiter)
    ensures Linked(Some(Chain(name, t, f)), t.outIp, Some(RemoteService(name, t, f, limiter)), f)
  {
    var c, end := Chain(name, t, f), RemoteService(name, t, f, limiter);
    assert t.outIp + ":" + Numeral(f.outPort) == t.outIp + end.addr;
  }

  lemma ReverseBuilt(t: Tunnel, f: Forward, name: string, limiter: Option<string>)
    requires t.kind.Reverse?
    ensures PublicWired(Some(ReverseRelayService(name, t, f, limiter)), t, f, name, limiter)
    ensures PrivateWired(Some(ReverseService(name, "tcp", f, limiter)), "tcp", f, name, limiter)
    ensures PrivateWired(Some(ReverseService(name, "udp", f, limiter)), "udp", f, name, limiter)
    ensures Linked(Some(Chain(name, t, f)), t.entryIp, Some(ReverseRelayService(name, t, f, limiter)), f)
  {
    var c, end := Chain(name, t, f), ReverseRelayService(name, t, f, limiter);
    assert t.entryIp + ":" + Numeral(f.outPort) == t.entryIp + end.addr;
    assert "r" + "tcp" == "rtcp" && "r" + "udp" == "rudp";
  }

  // The names as they are built and as they are looked up.
  lemma BuiltNames(t: Tunnel, f: Forward, name: string, limiter: Option<string>)
    requires Base(name)
    ensures Service(name, "tcp", t, f, t.tcpListen, limiter).name == name + "_tcp" == ReverseService(name, "tcp", f, limiter).name
    ensures Service(name, "udp", t, f, t.udpListen, limiter).name == name + "_udp" == ReverseService(name, "udp", f, limiter).name
    ensures forall s :: s in {"_tcp", "_udp", "_tls", "_relay", "_chains"} ==> Trim(name + s) == name + s != ""
  {
    NamesAreVisible(name);
    assert name + "_" + "tcp" == name + "_tcp" && name + "_" + "udp" == name + "_udp";
  }

  // ---- after an add ----

  lemma AppendedConfig(s: seq<ServiceConfig>, t: seq<ServiceConfig>, i: nat)
    requires i < |t| && t[i].name !in NamesOf(s) && forall j :: 0 <= j < i ==> t[j].name != t[i].name
    ensures ConfigOf(s + t, t[i].name) == Some(t[i])
  {
    forall j | 0 <= j < |s| ensures s[j].name != t[i].name { assert NamesOf(s)[j] in NamesOf(s); }
    assert (s + t)[|s| + i] == t[i];
  }

  lemma OtherConfig(s: seq<ServiceConfig>, t: seq<ServiceConfig>, x: string)
    requires x !in NamesOf(t)
    ensures ConfigOf(s + t, x) == ConfigOf(s, x)
  {
    forall j | 0 <= j < |t| ensures t[j].name != x { assert NamesOf(t)[j] in NamesOf(t); }
    var k, i := IndexOf(s + t, x), IndexOf(s, x);
    if i < |s| { assert (s + t)[i] == s[i]; }
    if k < |s| { assert (s + t)[k] == s[k]; }
  }

  lemma AddedConfig(n: Node, data: seq<ServiceConfig>, p: Parses, i: nat)
    requires i < |data| && Answer(n, AddServices(data), p).failure.None? && Trim(data[i].name) == data[i].name && data[i].name !in NamesOf(n.agent.services)
    ensures ServiceAt(Answer(n, AddServices(data), p).node, data[i].name) == Some(data[i])
  {
    var names := TrimAll(NamesOf(data));
    CreateIs(n.agent, data, p);
    assert forall j, k :: 0 <= j < k < |names| ==> names[j] != names[k];
    forall j | 0 <= j < i ensures Stored(data)[j].name != Stored(data)[i].name { assert names[j] != names[i]; }
    LaunchAllNext(n.agent, names);
    AppendedConfig(n.agent.services, Stored(data), i);
  }

  lemma AddKeepsConfig(n: Node, data: seq<ServiceConfig>, p: Parses, x: string)
    requires x !in TrimAll(NamesOf(data))
    ensures ServiceAt(Answer(n, AddServices(data), p).node, x) == ServiceAt(n, x)
  {
    CreateIs(n.agent, data, p);
    LaunchAllNext(n.agent, TrimAll(NamesOf(data)));
    assert NamesOf(Stored(data)) == TrimAll(NamesOf(data));
    OtherConfig(n.agent.services, Stored(data), x);
  }

  // ---- creation ----

  lemma EntriesAdded(n: Node, t: Tunnel, f: Forward, name: string, limiter: Option<string>, p: Parses)
    requires !t.kind.Reverse? && Base(name) && Fresh(n, name)
    requires Answer(n, AddServices(EntryServices(name, t, f, limiter)), p).failure.None?
    ensures EntriesWired(Answer(n, AddServices(EntryServices(name, t, f, limiter)), p).node, t, f, name, limiter)
  {
    var data := EntryServices(name, t, f, limiter);
    BuiltNames(t, f, name, limiter);
    EntryBuilt(t, f, name, limiter);
    AddedConfig(n, data, p, 0);
    if t.protocol != "anytls" { AddedConfig(n, data, p, 1); }
  }

  lemma ExitAdded(n: Node, t: Tunnel, f: Forward, name: string, limiter: Option<string>, p: Parses)
    requires Base(name) && Fresh(n, name) && Answer(n, AddServices([RemoteService(name, t, f, limiter)]), p).failure.None?
    ensures ServiceAt(Answer(n, AddServices([RemoteService(name, t, f, limiter)]), p).node, name + "_tls") == Some(RemoteService(name, t, f, limiter))
  {
    BuiltNames(t, f, name, limiter);
    AddedConfig(n, [RemoteService(name, t, f, limiter)], p, 0);
  }

  lemma PublicConfig(n: Node, t: Tunnel, f: Forward, name: string, limiter: Option<string>, p: Parses)
    requires Base(name) && Fresh(n, name) && Answer(n, AddServices([ReverseRelayService(name, t, f, limiter)]), p).failure.None?
    ensures ServiceAt(PublicAdded(n, t, f, name, limiter, p), name + "_relay") == Some(ReverseRelayService(name, t, f, limiter))
  {
    BuiltNames(t, f, name, limiter);
    AddedConfig(n, [ReverseRelayService(name, t, f, limiter)], p, 0);
  }

  lemma PrivatesAdded(n: Node, t: Tunnel, f: Forward, name: string, limiter: Option<string>, p: Parses)
    requires t.kind.Reverse? && Base(name) && Untouched(n, name)
    requires Answer(n, AddServices(ReverseServices(name, t, f, limiter)), p).failure.None?
    ensures PrivatesWired(Answer(n, AddServices(ReverseServices(name, t, f, limiter)), p).node, t, f, name, limiter)
    ensures ServiceAt(Answer(n, AddServices(ReverseServices(name, t, f, limiter)), p).node, name + "_relay") == ServiceAt(n, name + "_relay")
  {
    var data := ReverseServices(name, t, f, limiter);
    BuiltNames(t, f, name, limiter);
    ReverseBuilt(t, f, name, limiter);
    AddedConfig(n, data, p, 0);
    if t.protocol == "quic" { AddedConfig(n, data, p, 1); }
    ReverseNames(name, t, f, limiter);
    Suffixes(name);
    AddKeepsConfig(n, data, p, name + "_relay");
  }

  lemma ChainAdded(n: Node, t: Tunnel, f: Forward, name: string, p: Parses)
    requires Base(name) && Answer(n, AddChain(Chain(name, t, f)), p).failure.None?
    ensures ChainAt(Answer(n, AddChain(Chain(name, t, f)), p).node, name + "_chains") == Some(Chain(name, t, f))
    ensures Answer(n, AddChain(Chain(name, t, f)), p).node.agent == n.agent
  {
    NamesAreVisible(name);
  }

  lemma DirectWired(nodes: Nodes, t: Tunnel, f: Forward, name: string, limiter: Option<string>, luck: Luck)
    requires Ready(nodes, t, name) && t.kind.Direct? && Attempt(nodes, t, f, name, limiter, luck).created
    ensures Wired(Attempt(nodes, t, f, name, limiter, luck).nodes, t, f, name, limiter)
  {
    EntriesAdded(nodes[t.inNode], t, f, name, limiter, luck(0));
  }

  lemma RelayWired(nodes: Nodes, t: Tunnel, f: Forward, name: string, limiter: Option<string>, luck: Luck)
    requires Ready(nodes, t, name) && t.kind.Relay? && Attempt(nodes, t, f, name, limiter, luck).created
    ensures Wired(Attempt(nodes, t, f, name, limiter, luck).nodes, t, f, name, limiter)
  {
    var n, m, data := nodes[t.inNode], nodes[t.outNode], EntryServices(name, t, f, limiter);
    var n1 := Answer(n, AddServices(data), luck(0)).node;
    RelaySteps(nodes, t, f, name, limiter, luck);
    EntriesAdded(n, t, f, name, limiter, luck(0));
    ChainAdded(n1, t, f, name, luck(1));
    ExitAdded(m, t, f, name, limiter, luck(2));
    RelayBuilt(t, f, name, limiter);
  }

  lemma RelayReplies(nodes: Nodes, t: Tunnel, f: Forward, name: string, limiter: Option<string>, luck: Luck)
    requires t.kind.Relay? && t.inNode in nodes && t.outNode in nodes && t.inNode != t.outNode && Attempt(nodes, t, f, name, limiter, luck).created
    ensures var first := Answer(nodes[t.inNode], AddServices(EntryServices(name, t, f, limiter)), luck(0));
            && first.failure.None? && Answer(first.node, AddChain(Chain(name, t, f)), luck(1)).failure.None?
            && Answer(nodes[t.outNode], AddServices([RemoteService(name, t, f, limiter)]), luck(2)).failure.None?
  {
  }

  lemma RelaySteps(nodes: Nodes, t: Tunnel, f: Forward, name: string, limiter: Option<string>, luck: Luck)
    requires t.kind.Relay? && t.inNode in nodes && t.outNode in nodes && t.inNode != t.outNode && Attempt(nodes, t, f, name, limiter, luck).created
    ensures var first := Answer(nodes[t.inNode], AddServices(EntryServices(name, t, f, limiter)), luck(0));
            var chain := Answer(first.node, AddChain(Chain(name, t, f)), luck(1));
            var remote := Answer(nodes[t.outNode], AddServices([RemoteService(name, t, f, limiter)]), luck(2));
            var after := Attempt(nodes, t, f, name, limiter, luck).nodes;
            && first.failure.None? && chain.failure.None? && remote.failure.None?
            && t.inNode in after && t.outNode in after && after[t.inNode] == chain.node && after[t.outNode] == remote.node
  {
    RelayReplies(nodes, t, f, name, limiter, luck);
    AttemptOnRelay(nodes, t, f, name, limiter, luck);
  }

  lemma PrivateReplies(nodes: Nodes, t: Tunnel, f: Forward, name: string, limiter: Option<string>, luck: Luck)
    requires t.kind.Reverse? && t.inNode in nodes && t.outNode in nodes && Attempt(nodes, t, f, name, limiter, luck).created
    ensures var first := Answer(nodes[t.inNode], AddServices([ReverseRelayService(name, t, f, limiter)]), luck(0));
            var reverse := Answer(nodes[t.inNode := first.node][t.outNode], AddServices(ReverseServices(name, t, f, limiter)), luck(1));
            first.failure.None? && reverse.failure.None? && Answer(reverse.node, AddChain(Chain(name, t, f)), luck(2)).failure.None?
  {
  }

  lemma PrivateSteps(nodes: Nodes, t: Tunnel, f: Forward, name: string, limiter: Option<string>, luck: Luck)
    requires t.kind.Reverse? && t.inNode in nodes && t.outNode in nodes && Attempt(nodes, t, f, name, limiter, luck).created
    ensures var first := Answer(nodes[t.inNode], AddServices([ReverseRelayService(name, t, f, limiter)]), luck(0));
            var mid := nodes[t.inNode := first.node];
            var reverse := Answer(mid[t.outNode], AddServices(ReverseServices(name, t, f, limiter)), luck(1));
            var chain := Answer(reverse.node, AddChain(Chain(name, t, f)), luck(2));
            && first.failure.None? && reverse.failure.None? && chain.failure.None?
            && Attempt(nodes, t, f, name, limiter, luck).nodes == mid[t.outNode := chain.node]
  {
    PrivateReplies(nodes, t, f, name, limiter, luck);
    AttemptOnReverse(nodes, t, f, name, limiter, luck);
  }

  lemma ReverseWired(nodes: Nodes, t: Tunnel, f: Forward, name: string, limiter: Option<string>, luck: Luck)
    requires Ready(nodes, t, name) && t.kind.Reverse? && Attempt(nodes, t, f, name, limiter, luck).created
    ensures Wired(Attempt(nodes, t, f, name, limiter, luck).nodes, t, f, name, limiter)
  {
    var first := Answer(nodes[t.inNode], AddServices([ReverseRelayService(name, t, f, limiter)]), luck(0));
    var m := nodes[t.inNode := first.node][t.outNode];
    var reverse := Answer(m, AddServices(ReverseServices(name, t, f, limiter)), luck(1));
    PrivateSteps(nodes, t, f, name, limiter, luck);
    PublicConfig(nodes[t.inNode], t, f, name, limiter, luck(0));
    AddedRelay(nodes[t.inNode], t, f, name, limiter, luck(0));
    PrivatesAdded(m, t, f, name, limiter, luck(1));
    ChainAdded(reverse.node, t, f, name, luck(2));
    ReverseBuilt(t, f, name, limiter);
  }

  // A created forward is wired: every service listens where the row says, the forwarders reach
  // the row's targets, and the chain dials the port, transport, password and credentials of the
  // service at its other end.
  lemma CreatedIsWired(nodes: Nodes, t: Tunnel, f: Forward, name: string, limiter: Option<string>, luck: Luck)
    requires Ready(nodes, t, name) && CreateForward(nodes, t, f, name, limiter, luck).created
    ensures Wired(CreateForward(nodes, t, f, name, limiter, luck).nodes, t, f, name, limiter)
  {
    match t.kind
    case Direct => DirectWired(nodes, t, f, name, limiter, luck);
    case Relay => RelayWired(nodes, t, f, name, limiter, luck);
    case Reverse => ReverseWired(nodes, t, f, name, limiter, luck);
  }
}
