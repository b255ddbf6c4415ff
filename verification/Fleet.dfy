/** The nodes behind the panel's gateway, and the creation of a forward over two of them with
    its compensation (ForwardOperations.CreateAsync, RollbackNodeConfigAsync, DeleteAsync).

    Every command reaches its node; a node that is not in the fleet is offline. */
module Fleet {
  import opened Text
  import opened AgentTables
  import opened AgentAgreement
  import opened AgentReplay
  import opened Protocol
  import Chains = AgentChains

  datatype Node = Node(agent: Agent, chains: Chains.Store, limiters: Chains.Store)
  type Nodes = map<int, Node>

  datatype Failure = Offline | ServiceError(error: Error) | StoreError(kind: Chains.StoreError)

  datatype NodeReply = NodeReply(failure: Option<Failure>, node: Node)
  datatype Reply = Reply(failure: Option<Failure>, nodes: Nodes)

  datatype Request =
    | AddServices(data: seq<ServiceConfig>)
    | SyncServices(data: seq<ServiceConfig>)
    | DeleteServices(names: seq<string>)
    | PauseServices(names: seq<string>)
    | ResumeServices(names: seq<string>)
    | AddChain(chain: Chains.Entry)
    | SyncChain(chain: Chains.Entry)
    | DeleteChain(name: string)
    | EnsureLimiter(limiter: Chains.Entry)

  function OfServices(n: Node, o: Outcome): NodeReply {
    NodeReply(if o.error.Some? then Some(ServiceError(o.error.value)) else None, n.(agent := o.agent))
  }

  function OfChains(n: Node, o: Chains.StoreOutcome): NodeReply {
    NodeReply(if o.error.Some? then Some(StoreError(o.error.value)) else None, n.(chains := o.store))
  }

  function OfLimiters(n: Node, o: Chains.StoreOutcome): NodeReply {
    NodeReply(if o.error.Some? then Some(StoreError(o.error.value)) else None, n.(limiters := o.store))
  }

  // The agent's side of one request; `parses` answers for the configurations it carries.
  function Answer(n: Node, r: Request, parses: Parses): NodeReply {
    match r
    case AddServices(data) => OfServices(n, Create(n.agent, data, parses))
    case SyncServices(data) => OfServices(n, Sync(n.agent, data, parses))
    case DeleteServices(names) => OfServices(n, Delete(n.agent, names))
    case PauseServices(names) => OfServices(n, Pause(n.agent, names))
    case ResumeServices(names) => OfServices(n, Resume(n.agent, names, parses))
    case AddChain(c) => OfChains(n, Chains.Create(n.chains, c, parses(0)))
    case SyncChain(c) => OfChains(n, Chains.Sync(n.chains, c, parses(0)))
    case DeleteChain(name) => OfChains(n, Chains.Delete(n.chains, name))
    case EnsureLimiter(l) => OfLimiters(n, Chains.Ensure(n.limiters, l))
  }

  // NodeGateway.SendAsync when the command and its answer are delivered.
  function Send(nodes: Nodes, id: int, r: Request, parses: Parses): Reply {
    if id !in nodes then Reply(Some(Offline), nodes)
    else
      var reply := Answer(nodes[id], r, parses);
      Reply(reply.failure, nodes[id := reply.node])
  }

  // ---- creating a forward on its nodes ----

  // Whether the configurations of the k-th creating command parse.
  type Luck = nat -> Parses

  datatype Provisioned = Provisioned(created: bool, nodes: Nodes)

  function Rollback(nodes: Nodes, t: Tunnel, name: string): Nodes {
    match t.kind
    case Direct =>
      Send(nodes, t.inNode, DeleteServices(TransportNames(name, t.protocol)), ALL_PARSE).nodes
    case Relay =>
      var n1 := Send(nodes, t.inNode, DeleteServices(TransportNames(name, t.protocol)), ALL_PARSE).nodes;
      var n2 := Send(n1, t.inNode, DeleteChain(name + "_chains"), ALL_PARSE).nodes;
      Send(n2, t.outNode, DeleteServices([name + "_tls"]), ALL_PARSE).nodes
    case Reverse =>
      var n1 := Send(nodes, t.outNode, DeleteServices(TransportNames(name, t.protocol)), ALL_PARSE).nodes;
      var n2 := Send(n1, t.outNode, DeleteChain(name + "_chains"), ALL_PARSE).nodes;
      Send(n2, t.inNode, DeleteServices([name + "_relay"]), ALL_PARSE).nodes
  }

  // The services the first command puts on the entry node.
  function FirstServices(t: Tunnel, f: Forward, name: string, limiter: Option<string>): seq<ServiceConfig> {
    if t.kind.Reverse? then [ReverseRelayService(name, t, f, limiter)] else EntryServices(name, t, f, limiter)
  }

  // The commands of CreateAsync up to its decision, without the compensation.
  function Attempt(nodes: Nodes, t: Tunnel, f: Forward, name: string, limiter: Option<string>, luck: Luck): Provisioned {
    var first := Send(nodes, t.inNode, AddServices(FirstServices(t, f, name, limiter)), luck(0));
    if first.failure.Some? then Provisioned(false, first.nodes)
    else match t.kind
      case Direct => Provisioned(true, first.nodes)
      case Relay =>
        var chain := Send(first.nodes, t.inNode, AddChain(Chain(name, t, f)), luck(1));
        var remote := Send(chain.nodes, t.outNode, AddServices([RemoteService(name, t, f, limiter)]), luck(2));
        Provisioned(chain.failure.None? && remote.failure.None?, remote.nodes)
      case Reverse =>
        var reverse := Send(first.nodes, t.outNode, AddServices(ReverseServices(name, t, f, limiter)), luck(1));
        var chain := Send(reverse.nodes, t.outNode, AddChain(Chain(name, t, f)), luck(2));
        Provisioned(reverse.failure.None? && chain.failure.None?, chain.nodes)
  }

  function CreateForward(nodes: Nodes, t: Tunnel, f: Forward, name: string, limiter: Option<string>, luck: Luck): Provisioned {
    var attempt := Attempt(nodes, t, f, name, limiter, luck);
    if attempt.created then attempt else Provisioned(false, Rollback(attempt.nodes, t, name))
  }

  // DeleteAsync: the current name, then the legacy name that is the bare identifier.
  function DeleteForward(nodes: Nodes, t: Tunnel, id: nat, name: string): Nodes {
    var n := Rollback(nodes, t, name);
    if name != Decimal(id) then Rollback(n, t, Decimal(id)) else n
  }

  // ---- what restoring means ----

  // Both nodes carry the same service and chain tables; instance numbers may differ.
  predicate SameTables(m: Nodes, n: Nodes) {
    m.Keys == n.Keys && forall k :: k in m ==> SameNode(m[k], n[k])
  }

  predicate SameNode(a: Node, b: Node) {
    Tables(a.agent) == Tables(b.agent) && a.chains == b.chains
  }

  // What holds of every node, also after failed commands: the service stores need not agree.
  ghost predicate Sound(n: Node) { OnlyMadeServe(n.agent) && Chains.Matches(n.chains) }

  // The name is neither registered nor configured.
  predicate Free(a: Agent, x: string) { x !in a.registry && x !in NamesOf(a.services) }

  // None of the names a forward uses is taken on this node.
  predicate Fresh(n: Node, name: string) {
    && Free(n.agent, name + "_tcp") && Free(n.agent, name + "_udp")
    && Free(n.agent, name + "_tls") && Free(n.agent, name + "_relay")
    && name + "_chains" !in n.chains.registry
  }

  ghost predicate Ready(nodes: Nodes, t: Tunnel, name: string) {
    && Base(name)
    && (t.kind.Relay? ==> t.inNode != t.outNode)
    && t.inNode in nodes && t.outNode in nodes
    && Sound(nodes[t.inNode]) && Fresh(nodes[t.inNode], name)
    && Sound(nodes[t.outNode]) && Fresh(nodes[t.outNode], name)
  }

  // The family on which the compensation falls short: a reverse tunnel over plain TLS or
  // TCP adds only the TCP service and asks to delete TCP and UDP.
  predicate AsksTooMuch(t: Tunnel) {
    t.kind.Reverse? && t.protocol != "anytls" && t.protocol != "quic"
  }

  // ---- one node at a time ----

  lemma TablesDecideDelete(a: Agent, b: Agent, names: seq<string>)
    requires Tables(a) == Tables(b)
    ensures Delete(a, names).error == Delete(b, names).error
    ensures Tables(Delete(a, names).agent) == Tables(Delete(b, names).agent)
  {
    DropAllIgnoresNumber(a, b.next, TrimAll(names));
  }

  lemma {:induction false} DropAllIgnoresNumber(a: Agent, next: nat, names: seq<string>)
    ensures DropAll(a.(next := next), names) == DropAll(a, names).(next := next)
  {
    if names != [] { DropAllIgnoresNumber(a, next, names[..|names| - 1]); }
  }

  lemma DeleteAbsent(a: Agent, names: seq<string>)
    requires exists i :: 0 <= i < |names| && Trim(names[i]) !in a.registry
    ensures Delete(a, names).agent == a && Delete(a, names).error.Some?
  {
    DeleteAllOrNothing(a, names);
  }

  lemma TransportNamesTrimmed(name: string, protocol: string)
    requires Base(name)
    ensures TrimAll(TransportNames(name, protocol)) == TransportNames(name, protocol)
  {
  }

  lemma NamesFree(a: Agent, name: string, protocol: string)
    requires Base(name) && Free(a, name + "_tcp") && Free(a, name + "_udp")
    ensures TransportNames(name, protocol) != []
    ensures forall s :: s in TrimAll(TransportNames(name, protocol)) ==> Free(a, s)
  {
  }

  lemma EntryNames(name: string, t: Tunnel, f: Forward, limiter: Option<string>)
    requires Base(name)
    ensures TrimAll(NamesOf(EntryServices(name, t, f, limiter))) == TrimAll(TransportNames(name, t.protocol))
  {
    assert name + "_" + "tcp" == name + "_tcp" && name + "_" + "udp" == name + "_udp";
    assert NamesOf(EntryServices(name, t, f, limiter)) == TransportNames(name, t.protocol);
  }

  lemma UndoServices(a: Agent, data: seq<ServiceConfig>, parses: Parses, names: seq<string>)
    requires OnlyMadeServe(a) && data != [] && names != []
    requires TrimAll(NamesOf(data)) == TrimAll(names)
    requires forall s :: s in TrimAll(names) ==> Free(a, s)
    ensures Tables(Delete(Create(a, data, parses).agent, names).agent) == Tables(a)
    ensures forall s :: s !in TrimAll(names) ==> (s in Create(a, data, parses).agent.registry <==> s in a.registry)
  {
    AttemptThenDelete(a, data, parses, names);
    LaunchAllNext(a, TrimAll(NamesOf(data)));
  }

  // The service side and the chain side of a node do not touch each other.
  lemma SidesApart(n: Node, data: seq<ServiceConfig>, p: Parses, chain: Chains.Entry, q: Parses, names: seq<string>, tried: bool)
    ensures var n1 := Answer(n, AddServices(data), p).node;
            var n2 := if tried then Answer(n1, AddChain(chain), q).node else n1;
            var n3 := Answer(n2, DeleteServices(names), ALL_PARSE).node;
            var n4 := Answer(n3, DeleteChain(chain.name), ALL_PARSE).node;
            && n4.agent == Delete(Create(n.agent, data, p).agent, names).agent
            && n4.chains == Chains.Delete(if tried then Chains.Create(n.chains, chain, q(0)).store else n.chains, chain.name).store
  {
    var n1 := Answer(n, AddServices(data), p).node;
    var n2 := if tried then Answer(n1, AddChain(chain), q).node else n1;
    OneSide(n, AddServices(data), p);
    OneSide(n1, AddChain(chain), q);
    OneSide(n2, DeleteServices(names), ALL_PARSE);
    OneSide(Answer(n2, DeleteServices(names), ALL_PARSE).node, DeleteChain(chain.name), ALL_PARSE);
  }

  lemma OneSide(n: Node, r: Request, p: Parses)
    ensures var m := Answer(n, r, p).node;
            match r
            case AddServices(data) => m == n.(agent := Create(n.agent, data, p).agent)
            case DeleteServices(names) => m == n.(agent := Delete(n.agent, names).agent)
            case AddChain(c) => m == n.(chains := Chains.Create(n.chains, c, p(0)).store)
            case DeleteChain(name) => m == n.(chains := Chains.Delete(n.chains, name).store)
            case _ => true
  {
  }

  // What a node holds after services and (if tried) a chain were added.
  function Added(n: Node, data: seq<ServiceConfig>, p: Parses, chain: Chains.Entry, q: Parses, tried: bool): Node {
    var n1 := Answer(n, AddServices(data), p).node;
    if tried then Answer(n1, AddChain(chain), q).node else n1
  }

  function Undone(n: Node, names: seq<string>, chain: string): Node {
    Answer(Answer(n, DeleteServices(names), ALL_PARSE).node, DeleteChain(chain), ALL_PARSE).node
  }

  // Services and a chain added on one node and deleted again, whatever failed in between.
  lemma UndoServicesAndChain(n: Node, data: seq<ServiceConfig>, p: Parses, chain: Chains.Entry, q: Parses, names: seq<string>, tried: bool)
    requires Sound(n) && data != [] && names != []
    requires TrimAll(NamesOf(data)) == TrimAll(names)
    requires forall s :: s in TrimAll(names) ==> Free(n.agent, s)
    requires Trim(chain.name) !in n.chains.registry
    ensures SameNode(Undone(Added(n, data, p, chain, q, tried), names, chain.name), n)
  {
    SidesApart(n, data, p, chain, q, names, tried);
    assert Tables(Delete(Create(n.agent, data, p).agent, names).agent) == Tables(n.agent) by { UndoServices(n.agent, data, p, names); }
    Chains.AttemptThenDelete(n.chains, chain, q(0));
  }

  lemma AttemptOnRelay(nodes: Nodes, t: Tunnel, f: Forward, name: string, limiter: Option<string>, luck: Luck)
    requires t.inNode in nodes && t.outNode in nodes && t.kind.Relay? && t.inNode != t.outNode
    ensures var n, m, after := nodes[t.inNode], nodes[t.outNode], Attempt(nodes, t, f, name, limiter, luck).nodes;
            var data := EntryServices(name, t, f, limiter);
            var begun := Answer(n, AddServices(data), luck(0)).failure.None?;
            && after.Keys == nodes.Keys && (forall k :: k in nodes && k != t.inNode && k != t.outNode ==> after[k] == nodes[k])
            && after[t.inNode] == Added(n, data, luck(0), Chain(name, t, f), luck(1), begun)
            && after[t.outNode] == if begun then Answer(m, AddServices([RemoteService(name, t, f, limiter)]), luck(2)).node else m
  {
  }

  lemma RollbackOnRelay(nodes: Nodes, t: Tunnel, name: string)
    requires t.inNode in nodes && t.outNode in nodes && t.kind.Relay? && t.inNode != t.outNode
    ensures var after := Rollback(nodes, t, name);
            && after.Keys == nodes.Keys && (forall k :: k in nodes && k != t.inNode && k != t.outNode ==> after[k] == nodes[k])
            && after[t.inNode] == Undone(nodes[t.inNode], TransportNames(name, t.protocol), name + "_chains")
            && after[t.outNode] == Answer(nodes[t.outNode], DeleteServices([name + "_tls"]), ALL_PARSE).node
  {
  }

  lemma AbsentUndo(n: Node, name: string, names: seq<string>)
    requires Base(name) && Fresh(n, name) && names in {TransportNames(name, "anytls"), TransportNames(name, "tls"), [name + "_tls"], [name + "_relay"]}
    ensures Answer(n, DeleteServices(names), ALL_PARSE).node == n
    ensures Answer(n, DeleteChain(name + "_chains"), ALL_PARSE).node == n
  {
    NamesAreVisible(name);
    assert Trim(names[0]) !in n.agent.registry;
    DeleteAbsent(n.agent, names);
  }

  // A rollback of a name nobody uses changes nothing.
  lemma RollbackOfAbsentName(nodes: Nodes, t: Tunnel, name: string)
    requires Base(name) && t.inNode in nodes && t.outNode in nodes
    requires Fresh(nodes[t.inNode], name) && Fresh(nodes[t.outNode], name)
    ensures Rollback(nodes, t, name) == nodes
  {
    var names := TransportNames(name, t.protocol);
    assert names == TransportNames(name, if t.protocol == "anytls" then "anytls" else "tls");
    AbsentUndo(nodes[t.inNode], name, names);
    AbsentUndo(nodes[t.outNode], name, names);
    AbsentUndo(nodes[t.inNode], name, [name + "_relay"]);
    AbsentUndo(nodes[t.outNode], name, [name + "_tls"]);
    assert nodes[t.inNode := nodes[t.inNode]] == nodes;
    assert nodes[t.outNode := nodes[t.outNode]] == nodes;
  }

  lemma UndoDirect(nodes: Nodes, t: Tunnel, f: Forward, name: string, limiter: Option<string>, luck: Luck)
    requires Ready(nodes, t, name) && t.kind.Direct?
    ensures SameTables(Rollback(Attempt(nodes, t, f, name, limiter, luck).nodes, t, name), nodes)
  {
    var n, data, names := nodes[t.inNode], EntryServices(name, t, f, limiter), TransportNames(name, t.protocol);
    DirectCommands(nodes, t, f, name, limiter, luck);
    assert Tables(Delete(Create(n.agent, data, luck(0)).agent, names).agent) == Tables(n.agent) by {
      EntryNames(name, t, f, limiter);
      NamesFree(n.agent, name, t.protocol);
      UndoServices(n.agent, data, luck(0), names);
    }
  }

  lemma DirectCommands(nodes: Nodes, t: Tunnel, f: Forward, name: string, limiter: Option<string>, luck: Luck)
    requires t.kind.Direct? && t.inNode in nodes
    ensures var added := Answer(nodes[t.inNode], AddServices(EntryServices(name, t, f, limiter)), luck(0)).node;
            Rollback(Attempt(nodes, t, f, name, limiter, luck).nodes, t, name) ==
            nodes[t.inNode := Answer(added, DeleteServices(TransportNames(name, t.protocol)), ALL_PARSE).node]
  {
    var added := Answer(nodes[t.inNode], AddServices(EntryServices(name, t, f, limiter)), luck(0)).node;
    assert Attempt(nodes, t, f, name, limiter, luck).nodes == nodes[t.inNode := added];
  }

  lemma AddedAgent(n: Node, data: seq<ServiceConfig>, p: Parses, chain: Chains.Entry, q: Parses, tried: bool)
    ensures Added(n, data, p, chain, q, tried).agent == Answer(n, AddServices(data), p).node.agent
  {
  }

  // What the attempt leaves in the entry node's services.
  lemma EntryAfterAttempt(nodes: Nodes, t: Tunnel, f: Forward, name: string, limiter: Option<string>, luck: Luck)
    requires t.inNode in nodes && t.outNode in nodes && !t.kind.Reverse? && (t.kind.Relay? ==> t.inNode != t.outNode)
    ensures var after := Attempt(nodes, t, f, name, limiter, luck);
            var first := Answer(nodes[t.inNode], AddServices(EntryServices(name, t, f, limiter)), luck(0));
            && after.nodes.Keys == nodes.Keys && after.nodes[t.inNode].agent == first.node.agent
            && (after.created ==> first.failure.None?)
  {
    if t.kind.Relay? {
      var begun := Answer(nodes[t.inNode], AddServices(EntryServices(name, t, f, limiter)), luck(0)).failure.None?;
      AttemptOnRelay(nodes, t, f, name, limiter, luck);
      AddedAgent(nodes[t.inNode], EntryServices(name, t, f, limiter), luck(0), Chain(name, t, f), luck(1), begun);
    }
  }

  lemma UndoRemote(m: Node, c: ServiceConfig, p: Parses, tried: bool)
    requires Sound(m) && Trim(c.name) == c.name && Free(m.agent, c.name)
    ensures var m1 := if tried then Answer(m, AddServices([c]), p).node else m;
            SameNode(Answer(m1, DeleteServices([c.name]), ALL_PARSE).node, m)
  {
    assert TrimAll(NamesOf([c])) == TrimAll([c.name]) == [c.name];
    if tried {
      UndoServices(m.agent, [c], p, [c.name]);
    } else {
      assert Trim([c.name][0]) !in m.agent.registry;
      DeleteAbsent(m.agent, [c.name]);
    }
  }

  lemma UndoRelayEntry(n: Node, t: Tunnel, f: Forward, name: string, limiter: Option<string>, p: Parses, q: Parses, tried: bool)
    requires Base(name) && Sound(n) && Fresh(n, name)
    ensures SameNode(Undone(Added(n, EntryServices(name, t, f, limiter), p, Chain(name, t, f), q, tried), TransportNames(name, t.protocol), name + "_chains"), n)
  {
    NamesAreVisible(name);
    EntryNames(name, t, f, limiter);
    NamesFree(n.agent, name, t.protocol);
    UndoServicesAndChain(n, EntryServices(name, t, f, limiter), p, Chain(name, t, f), q, TransportNames(name, t.protocol), tried);
  }

  lemma UndoRelayExit(m: Node, t: Tunnel, f: Forward, name: string, limiter: Option<string>, p: Parses, tried: bool)
    requires Base(name) && Sound(m) && Fresh(m, name)
    ensures var m1 := if tried then Answer(m, AddServices([RemoteService(name, t, f, limiter)]), p).node else m;
            SameNode(Answer(m1, DeleteServices([name + "_tls"]), ALL_PARSE).node, m)
  {
    NamesAreVisible(name);
    UndoRemote(m, RemoteService(name, t, f, limiter), p, tried);
  }

  lemma UndoRelay(nodes: Nodes, t: Tunnel, f: Forward, name: string, limiter: Option<string>, luck: Luck)
    requires Ready(nodes, t, name) && t.kind.Relay?
    ensures SameTables(Rollback(Attempt(nodes, t, f, name, limiter, luck).nodes, t, name), nodes)
  {
    var begun := Answer(nodes[t.inNode], AddServices(EntryServices(name, t, f, limiter)), luck(0)).failure.None?;
    AttemptOnRelay(nodes, t, f, name, limiter, luck);
    RollbackOnRelay(Attempt(nodes, t, f, name, limiter, luck).nodes, t, name);
    UndoRelayEntry(nodes[t.inNode], t, f, name, limiter, luck(0), luck(1), begun);
    UndoRelayExit(nodes[t.outNode], t, f, name, limiter, luck(2), begun);
  }

  // ---- reverse tunnels: relay on the public node, services and chain on the private one ----

  lemma SingleCreate(a: Agent, c: ServiceConfig, p: Parses)
    requires Trim(c.name) == c.name != "" && c.name !in a.registry
    ensures Create(a, [c], p).error.None? <==> p(0)
    ensures !p(0) ==> Create(a, [c], p).agent == a
    ensures p(0) ==> Create(a, [c], p).agent == Launch(a, c.name).(services := a.services + [c])
  {
    assert TrimAll(NamesOf([c])) == [c.name];
    if p(0) { CreateOne(a, c, p); }
  }

  lemma SingleCreateFrees(a: Agent, c: ServiceConfig, p: Parses, x: string)
    requires Trim(c.name) == c.name != "" && c.name !in a.registry && x != c.name
    ensures OnlyMadeServe(a) ==> OnlyMadeServe(Create(a, [c], p).agent)
    ensures Free(a, x) ==> Free(Create(a, [c], p).agent, x)
  {
    SingleCreate(a, c, p);
    assert NamesOf(a.services + [c]) == NamesOf(a.services) + [c.name];
  }

  function PublicAdded(n: Node, t: Tunnel, f: Forward, name: string, limiter: Option<string>, p: Parses): Node {
    Answer(n, AddServices([ReverseRelayService(name, t, f, limiter)]), p).node
  }

  function PublicRemoved(n: Node, name: string): Node {
    Answer(n, DeleteServices([name + "_relay"]), ALL_PARSE).node
  }

  function PrivateAdded(n: Node, t: Tunnel, f: Forward, name: string, limiter: Option<string>, p: Parses, q: Parses): Node {
    Added(n, ReverseServices(name, t, f, limiter), p, Chain(name, t, f), q, true)
  }

  function PrivateUndone(n: Node, t: Tunnel, name: string): Node {
    Undone(n, TransportNames(name, t.protocol), name + "_chains")
  }

  lemma AttemptOnReverse(nodes: Nodes, t: Tunnel, f: Forward, name: string, limiter: Option<string>, luck: Luck)
    requires t.inNode in nodes && t.outNode in nodes && t.kind.Reverse?
    ensures var begun := Answer(nodes[t.inNode], AddServices([ReverseRelayService(name, t, f, limiter)]), luck(0)).failure.None?;
            var mid := nodes[t.inNode := PublicAdded(nodes[t.inNode], t, f, name, limiter, luck(0))];
            Attempt(nodes, t, f, name, limiter, luck).nodes ==
            if begun then mid[t.outNode := PrivateAdded(mid[t.outNode], t, f, name, limiter, luck(1), luck(2))] else mid
  {
  }

  lemma RollbackOnReverse(nodes: Nodes, t: Tunnel, name: string)
    requires t.inNode in nodes && t.outNode in nodes && t.kind.Reverse?
    ensures var undone := nodes[t.outNode := PrivateUndone(nodes[t.outNode], t, name)];
            Rollback(nodes, t, name) == undone[t.inNode := PublicRemoved(undone[t.inNode], name)]
  {
  }

  lemma ReverseNames(name: string, t: Tunnel, f: Forward, limiter: Option<string>)
    requires Base(name)
    ensures TrimAll(NamesOf(ReverseServices(name, t, f, limiter))) == if t.protocol == "quic" then [name + "_tcp", name + "_udp"] else [name + "_tcp"]
  {
    NamesAreVisible(name);
    assert name + "_" + "tcp" == name + "_tcp" && name + "_" + "udp" == name + "_udp";
  }

  predicate Untouched(n: Node, name: string) {
    Free(n.agent, name + "_tcp") && Free(n.agent, name + "_udp") && name + "_chains" !in n.chains.registry
  }

  // The private node's part is undone completely when creation and deletion name the same
  // services ...
  lemma PrivateRestored(n: Node, t: Tunnel, f: Forward, name: string, limiter: Option<string>, p: Parses, q: Parses)
    requires Base(name) && Sound(n) && t.kind.Reverse? && !AsksTooMuch(t) && Untouched(n, name)
    ensures SameNode(PrivateUndone(PrivateAdded(n, t, f, name, limiter, p, q), t, name), n)
  {
    PrivateNames(name, t, f, limiter);
    NamesFree(n.agent, name, t.protocol);
    UndoServicesAndChain(n, ReverseServices(name, t, f, limiter), p, Chain(name, t, f), q, TransportNames(name, t.protocol), true);
  }

  lemma PrivateNames(name: string, t: Tunnel, f: Forward, limiter: Option<string>)
    requires Base(name) && t.kind.Reverse? && !AsksTooMuch(t)
    ensures TrimAll(NamesOf(ReverseServices(name, t, f, limiter))) == TrimAll(TransportNames(name, t.protocol))
    ensures ReverseServices(name, t, f, limiter) != []
    ensures Chain(name, t, f).name == name + "_chains" && Trim(name + "_chains") == name + "_chains"
  {
    ReverseNames(name, t, f, limiter);
    TransportNamesTrimmed(name, t.protocol);
    NamesAreVisible(name);
  }

  lemma LeftoverNames(name: string, t: Tunnel, f: Forward, limiter: Option<string>, c: ServiceConfig)
    requires Base(name) && AsksTooMuch(t) && c == ReverseService(name, "tcp", f, limiter)
    ensures ReverseServices(name, t, f, limiter) == [c] && c.name == name + "_tcp" && Trim(c.name) == c.name != ""
    ensures TransportNames(name, t.protocol) == [c.name, name + "_udp"]
    ensures Trim(name + "_udp") == name + "_udp" != c.name
    ensures Chain(name, t, f).name == name + "_chains" && Trim(name + "_chains") == name + "_chains"
  {
    assert name + "_" + "tcp" == name + "_tcp";
    NamesAreVisible(name);
    assert (name + "_udp")[|name| + 1] != (name + "_tcp")[|name| + 1];
  }

  // Deleting a service together with one that was never made is refused.
  lemma PairDeleteRefused(a: Agent, c: ServiceConfig, p: Parses, other: string)
    requires Trim(c.name) == c.name != "" && c.name !in a.registry
    requires Trim(other) == other && other !in a.registry && other != c.name
    ensures var a1 := Create(a, [c], p).agent;
            Delete(a1, [c.name, other]).agent == a1 && (if p(0) then c.name in a1.registry else a1 == a)
  {
    SingleCreate(a, c, p);
    var a1 := Create(a, [c], p).agent;
    assert Trim([c.name, other][1]) !in a1.registry;
    DeleteAbsent(a1, [c.name, other]);
  }

  // ... and otherwise exactly when the TCP service had not been added.
  lemma PrivateLeftover(n: Node, t: Tunnel, f: Forward, name: string, limiter: Option<string>, p: Parses, q: Parses)
    requires Base(name) && Sound(n) && AsksTooMuch(t) && Untouched(n, name)
    ensures var u := PrivateUndone(PrivateAdded(n, t, f, name, limiter, p, q), t, name);
            if p(0) then name + "_tcp" in u.agent.registry else SameNode(u, n)
  {
    var c, chain := ReverseService(name, "tcp", f, limiter), Chain(name, t, f);
    LeftoverNames(name, t, f, limiter, c);
    LeftoverSides(n, c, p, chain, q, name + "_udp");
  }

  lemma LeftoverSides(n: Node, c: ServiceConfig, p: Parses, chain: Chains.Entry, q: Parses, other: string)
    requires Chains.Matches(n.chains) && Trim(chain.name) !in n.chains.registry
    requires Trim(c.name) == c.name != "" && c.name !in n.agent.registry
    requires Trim(other) == other && other !in n.agent.registry && other != c.name
    ensures var u := Undone(Added(n, [c], p, chain, q, true), [c.name, other], chain.name);
            if p(0) then c.name in u.agent.registry else SameNode(u, n)
  {
    SidesApart(n, [c], p, chain, q, [c.name, other], true);
    assert Chains.Delete(Chains.Create(n.chains, chain, q(0)).store, chain.name).store == n.chains by { Chains.AttemptThenDelete(n.chains, chain, q(0)); }
    PairDeleteRefused(n.agent, c, p, other);
  }

  lemma PrivateOutcome(n: Node, t: Tunnel, f: Forward, name: string, limiter: Option<string>, p: Parses, q: Parses)
    requires Base(name) && Sound(n) && t.kind.Reverse? && Untouched(n, name)
    ensures var u := PrivateUndone(PrivateAdded(n, t, f, name, limiter, p, q), t, name);
            if AsksTooMuch(t) && p(0) then name + "_tcp" in u.agent.registry else SameNode(u, n)
  {
    if AsksTooMuch(t) { PrivateLeftover(n, t, f, name, limiter, p, q); } else { PrivateRestored(n, t, f, name, limiter, p, q); }
  }

  lemma AddedRelay(n: Node, t: Tunnel, f: Forward, name: string, limiter: Option<string>, p: Parses)
    requires Base(name) && Sound(n) && Fresh(n, name)
    ensures var n1 := PublicAdded(n, t, f, name, limiter, p);
            && (Answer(n, AddServices([ReverseRelayService(name, t, f, limiter)]), p).failure.None? <==> p(0))
            && Sound(n1) && Untouched(n1, name) && (!p(0) ==> n1 == n)
  {
    var c := ReverseRelayService(name, t, f, limiter);
    NamesAreVisible(name);
    SingleCreate(n.agent, c, p);
    assert |name + "_relay"| > |name + "_tcp"| == |name + "_udp"|;
    SingleCreateFrees(n.agent, c, p, name + "_tcp");
    SingleCreateFrees(n.agent, c, p, name + "_udp");
  }

  lemma RemoveRelay(n: Node, m: Node, name: string)
    requires Base(name)
    ensures SameNode(n, m) ==> SameNode(PublicRemoved(n, name), PublicRemoved(m, name))
    ensures name + "_tcp" in n.agent.registry ==> name + "_tcp" in PublicRemoved(n, name).agent.registry
  {
    NamesAreVisible(name);
    assert TrimAll([name + "_relay"]) == [name + "_relay"];
    assert |name + "_relay"| > |name + "_tcp"|;
    if SameNode(n, m) { TablesDecideDelete(n.agent, m.agent, [name + "_relay"]); }
    DropAllIs(n.agent, [name + "_relay"]);
  }

  lemma PublicRestored(n: Node, t: Tunnel, f: Forward, name: string, limiter: Option<string>, p: Parses)
    requires Base(name) && Sound(n) && Fresh(n, name)
    ensures SameNode(PublicRemoved(PublicAdded(n, t, f, name, limiter, p), name), n)
  {
    NamesAreVisible(name);
    UndoRemote(n, ReverseRelayService(name, t, f, limiter), p, true);
  }

  // The part of the state that matters between creation and compensation.
  lemma CompensateReverse(nodes: Nodes, mid: Nodes, undone: Nodes, t: Tunnel, name: string)
    requires Base(name) && t.inNode in nodes && t.outNode in nodes && name + "_tcp" !in nodes[t.outNode].agent.registry
    requires t.inNode in mid && t.outNode in undone
    requires mid == nodes[t.inNode := mid[t.inNode]] && undone == mid[t.outNode := undone[t.outNode]]
    requires SameNode(PublicRemoved(mid[t.inNode], name), nodes[t.inNode])
    ensures var after := undone[t.inNode := PublicRemoved(undone[t.inNode], name)];
            && (SameNode(undone[t.outNode], mid[t.outNode]) ==> SameTables(after, nodes))
            && (name + "_tcp" in undone[t.outNode].agent.registry ==> !SameTables(after, nodes) && name + "_tcp" in after[t.outNode].agent.registry)
  {
    var after := undone[t.inNode := PublicRemoved(undone[t.inNode], name)];
    RemoveRelay(undone[t.inNode], mid[t.inNode], name);
    assert after.Keys == nodes.Keys;
    if name + "_tcp" in undone[t.outNode].agent.registry {
      assert !SameNode(after[t.outNode], nodes[t.outNode]);
    }
  }

  lemma UndoBegunReverse(nodes: Nodes, pub: Node, priv: Node, t: Tunnel, name: string, leftover: bool)
    requires Base(name) && t.kind.Reverse? && t.inNode in nodes && t.outNode in nodes && name + "_tcp" !in nodes[t.outNode].agent.registry
    requires SameNode(PublicRemoved(pub, name), nodes[t.inNode])
    requires var u := PrivateUndone(priv, t, name);
             if leftover then name + "_tcp" in u.agent.registry else SameNode(u, nodes[t.inNode := pub][t.outNode])
    ensures var after := Rollback(nodes[t.inNode := pub][t.outNode := priv], t, name);
            && (SameTables(after, nodes) <==> !leftover)
            && (leftover ==> t.outNode in after && name + "_tcp" in after[t.outNode].agent.registry)
  {
    var mid := nodes[t.inNode := pub];
    var added := mid[t.outNode := priv];
    var undone := added[t.outNode := PrivateUndone(priv, t, name)];
    assert undone == mid[t.outNode := undone[t.outNode]];
    CompensateReverse(nodes, mid, undone, t, name);
    RollbackOnReverse(added, t, name);
  }

  lemma UndoReverse(nodes: Nodes, t: Tunnel, f: Forward, name: string, limiter: Option<string>, luck: Luck)
    requires Ready(nodes, t, name) && t.kind.Reverse?
    ensures var after := Rollback(Attempt(nodes, t, f, name, limiter, luck).nodes, t, name);
            && (SameTables(after, nodes) <==> !(AsksTooMuch(t) && luck(0)(0) && luck(1)(0)))
            && (AsksTooMuch(t) && luck(0)(0) && luck(1)(0) ==> t.outNode in after && name + "_tcp" in after[t.outNode].agent.registry)
  {
    var mid := nodes[t.inNode := PublicAdded(nodes[t.inNode], t, f, name, limiter, luck(0))];
    AttemptOnReverse(nodes, t, f, name, limiter, luck);
    AddedRelay(nodes[t.inNode], t, f, name, limiter, luck(0));
    if luck(0)(0) {
      var m := mid[t.outNode];
      PrivateOutcome(m, t, f, name, limiter, luck(1), luck(2));
      PublicRestored(nodes[t.inNode], t, f, name, limiter, luck(0));
      UndoBegunReverse(nodes, mid[t.inNode], PrivateAdded(m, t, f, name, limiter, luck(1), luck(2)), t, name, AsksTooMuch(t) && luck(1)(0));
    } else {
      assert mid == nodes;
      RollbackOfAbsentName(nodes, t, name);
    }
  }
}
