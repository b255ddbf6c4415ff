/** GostProtocol: the services, chains and limiters the panel derives from a tunnel and a
    forward, and the names it gives them. */
module Protocol {
  import opened Text
  import opened Settings
  import opened AgentTables
  import Chains = AgentChains

  // Direct exit, relay over a second node, reverse relay into a private network.
  datatype Kind = Direct | Relay | Reverse

  datatype Tunnel = Tunnel(
    id: nat, kind: Kind, protocol: string, inNode: int, outNode: int, outIp: string, entryIp: string,
    tcpListen: string, udpListen: string, password: string, speedKbps: int)

  datatype Forward = Forward(
    id: nat, owner: nat, inPort: int, outPort: int, remote: string, strategy: string, interfaceName: string, secret: string)

  function ServiceName(id: nat, owner: nat, relation: nat): string {
    Decimal(id) + "_" + Decimal(owner) + "_" + Decimal(relation)
  }

  function Interface(interfaceName: string): Metadata {
    if Trim(interfaceName) == "" then Nil else Entries(map["interface" := Other(interfaceName)])
  }

  // Forwarder: the parts of the target text; a blank strategy is fifo.
  function Forwarder(remote: string, strategy: string): Option<Targets> {
    Some(Targets(CleanPieces(Split(remote, ',')), if Trim(strategy) == "" then "fifo" else strategy))
  }

  // How the two ends of a relay talk; only AnyTLS carries a password.
  function RelayLink(protocol: string, password: string): Link {
    Link(protocol, if protocol == "anytls" then Some(password) else None)
  }

  function RelayAuth(name: string, secret: string): Auth { Auth("relay-" + name, secret) }

  function Service(name: string, transport: string, t: Tunnel, f: Forward, listenAddr: string, limiter: Option<string>): ServiceConfig {
    ServiceConfig(name + "_" + transport, listenAddr + ":" + Numeral(f.inPort),
                  ServiceSettings(Handler(transport, if t.kind.Relay? then Some(name + "_chains") else None, None), Link(transport, None), None,
                                  limiter, if t.kind.Direct? then Forwarder(f.remote, f.strategy) else None),
                  Interface(f.interfaceName))
  }

  // Services: AnyTLS carries TCP only.
  function EntryServices(name: string, t: Tunnel, f: Forward, limiter: Option<string>): seq<ServiceConfig> {
    [Service(name, "tcp", t, f, t.tcpListen, limiter)]
    + (if t.protocol == "anytls" then [] else [Service(name, "udp", t, f, t.udpListen, limiter)])
  }

  function RemoteService(name: string, t: Tunnel, f: Forward, limiter: Option<string>): ServiceConfig {
    ServiceConfig(name + "_tls", ":" + Numeral(f.outPort),
                  ServiceSettings(Handler("relay", None, None), RelayLink(t.protocol, t.password), None, limiter, Forwarder(f.remote, f.strategy)),
                  Interface(f.interfaceName))
  }

  function ReverseRelayService(name: string, t: Tunnel, f: Forward, limiter: Option<string>): ServiceConfig {
    ServiceConfig(name + "_relay", ":" + Numeral(f.outPort),
                  ServiceSettings(Handler("relay", None, Some(RelayAuth(name, f.secret))), RelayLink(t.protocol, t.password), None, limiter, None),
                  Interface(f.interfaceName))
  }

  function ReverseService(name: string, transport: string, f: Forward, limiter: Option<string>): ServiceConfig {
    var reverse := if transport == "tcp" then "rtcp" else "rudp";
    ServiceConfig(name + "_" + transport, ":" + Numeral(f.inPort),
                  ServiceSettings(Handler(reverse, None, None), Link(reverse, None), Some(name + "_chains"), limiter, Forwarder(f.remote, f.strategy)),
                  Interface(f.interfaceName))
  }

  // ReverseServices: only QUIC carries UDP.
  function ReverseServices(name: string, t: Tunnel, f: Forward, limiter: Option<string>): seq<ServiceConfig> {
    [ReverseService(name, "tcp", f, limiter)] + (if t.protocol != "quic" then [] else [ReverseService(name, "udp", f, limiter)])
  }

  // The chain of a reverse tunnel authenticates itself, unless the secret is blank.
  function Chain(name: string, t: Tunnel, f: Forward): Chains.Entry {
    var addr := if t.kind.Reverse? then t.entryIp else t.outIp;
    var auth := if t.kind.Reverse? && Trim(f.secret) != "" then Some(RelayAuth(name, f.secret)) else None;
    Chains.Entry(name + "_chains", Hop(addr + ":" + Numeral(f.outPort), RelayLink(t.protocol, t.password), auth,
                                       if Trim(f.interfaceName) == "" then None else Some(f.interfaceName)))
  }

  // The names the panel sends when it deletes the services of the entry node, or of a
  // reverse tunnel's private node.
  function TransportNames(name: string, protocol: string): seq<string> {
    if protocol == "anytls" then [name + "_tcp"] else [name + "_tcp", name + "_udp"]
  }

  function LimiterName(t: Tunnel): string { "relayforge_tunnel_" + Decimal(t.id) }

  function Limiter(t: Tunnel): Chains.Entry {
    Chains.Entry(LimiterName(t), Rate(t.speedKbps * 1024))
  }

  // ---- facts about the names ----

  predicate Base(name: string) { name != "" && !IsSpace(name[0]) }

  lemma NamesAreVisible(name: string)
    requires Base(name)
    ensures forall s :: s in {"_tcp", "_udp", "_tls", "_relay", "_chains"} ==> Trim(name + s) == name + s != ""
  {
  }

  lemma ServiceNameIsBase(id: nat, owner: nat, relation: nat)
    ensures Base(ServiceName(id, owner, relation)) && Base(Decimal(id))
  {
  }

  lemma SplitServiceName(id: nat, owner: nat, relation: nat, rest: string)
    requires '_' !in rest
    ensures Split(ServiceName(id, owner, relation) + "_" + rest, '_') == [Decimal(id), Decimal(owner), Decimal(relation), rest]
  {
    DecimalVisible(id);
    DecimalVisible(owner);
    DecimalVisible(relation);
    SplitFour(Decimal(id), Decimal(owner), Decimal(relation), rest);
  }

  lemma SplitFour(a: string, b: string, c: string, d: string)
    requires '_' !in a && '_' !in b && '_' !in c && '_' !in d
    ensures Split(a + "_" + b + "_" + c + "_" + d, '_') == [a, b, c, d]
  {
    var last := c + "_" + d;
    var rest := b + "_" + last;
    SplitNothing(d, '_');
    SplitPrefix(c, d, '_');
    assert c + ['_'] + d == last;
    SplitPrefix(b, last, '_');
    assert b + ['_'] + last == rest;
    SplitPrefix(a, rest, '_');
    assert a + ['_'] + rest == a + "_" + b + "_" + c + "_" + d;
  }

  // FlowOperations.ApplyAsync finds the forward of a report from the reported service name.
  function ReportedForward(service: string): Option<int> {
    var parts := Split(service, '_');
    if |parts| < 3 then None else TryParse(parts[0], LONG_MIN, LONG_MAX)
  }

  // Whatever service of a forward reports, the panel recovers the identifier of exactly
  // that forward.
  lemma ReportsFindTheirForward(id: nat, owner: nat, relation: nat, transport: string)
    requires id <= LONG_MAX && '_' !in transport
    ensures ReportedForward(ServiceName(id, owner, relation) + "_" + transport) == Some(id)
  {
    SplitServiceName(id, owner, relation, transport);
    TryParseDecimal(id, LONG_MIN, LONG_MAX);
  }

  lemma DecimalInjective(m: nat, n: nat)
    requires Decimal(m) == Decimal(n)
    ensures m == n
  {
    ValueOfDecimal(m);
    ValueOfDecimal(n);
  }

  // Service names identify forward, owner and permission.
  lemma ServiceNameInjective(id: nat, owner: nat, relation: nat, id': nat, owner': nat, relation': nat)
    requires ServiceName(id, owner, relation) == ServiceName(id', owner', relation')
    ensures id == id' && owner == owner' && relation == relation'
  {
    SplitServiceName(id, owner, relation, "");
    SplitServiceName(id', owner', relation', "");
    var left := Split(ServiceName(id, owner, relation) + "_" + "", '_');
    assert left[0] == Decimal(id) == Decimal(id') && left[1] == Decimal(owner) == Decimal(owner') && left[2] == Decimal(relation) == Decimal(relation');
    DecimalInjective(id, id');
    DecimalInjective(owner, owner');
    DecimalInjective(relation, relation');
  }
}
