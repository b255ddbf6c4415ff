/** Which names the services and chains of a node carry: every command, whether it succeeds or
    fails, lists and registers only names it was given, so a node never knows a forward that
    the panel has yet to number. */
module NodeNames {
  import opened Text
  import opened Settings
  import opened AgentTables
  import opened AgentAgreement
  import opened AgentReplay
  import opened AgentCoverage
  import opened Protocol
  import opened Fleet
  import opened Compensation
  import Chains = AgentChains

  // ---- the number in a name ----

  function NumberPart(x: string): string { Split(x, '_')[0] }

  // If the name starts with the number of a forward, as the panel prints it, then below n.
  predicate Numbered(x: string, n: nat) {
    var d := NumberPart(x);
    AllDigits(d) && d == Decimal(Value(d)) ==> Value(d) < n
  }

  lemma NumberOf(id: nat, tail: string, n: nat)
    ensures Numbered(Decimal(id) + "_" + tail, n) <==> id < n
  {
    DecimalVisible(id);
    SplitPrefix(Decimal(id), tail, '_');
    assert Decimal(id) + ['_'] + tail == Decimal(id) + "_" + tail;
    ValueOfDecimal(id);
  }

  // A name of the forward: the one it was created with, or the bare identifier.
  predicate IsNameOf(name: string, id: nat) {
    name == Decimal(id) || (|name| > |Decimal(id)| && name[..|Decimal(id)|] == Decimal(id) && name[|Decimal(id)|] == '_')
  }

  lemma SuffixedNumber(name: string, id: nat, s: string, n: nat)
    requires IsNameOf(name, id) && s != "" && s[0] == '_'
    ensures Numbered(name + s, n) <==> id < n
  {
    var x, k := name + s, |Decimal(id)|;
    assert x == Decimal(id) + "_" + x[k + 1..];
    NumberOf(id, x[k + 1..], n);
  }

  lemma NameIsNameOf(id: nat, owner: nat, relation: nat)
    ensures IsNameOf(ServiceName(id, owner, relation), id) && Base(ServiceName(id, owner, relation)) && Base(Decimal(id))
  {
    ServiceNameIsBase(id, owner, relation);
  }

  // ---- what every command keeps on a node ----

  // Whatever is registered or configured on the node under the name of a forward belongs to
  // one numbered so far.
  ghost predicate OldNode(n: Node, m: nat) {
    && (forall x :: x in n.agent.registry ==> Numbered(x, m))
    && (forall x :: x in NamesOf(n.agent.services) ==> Numbered(x, m))
    && (forall x :: x in n.chains.registry ==> Numbered(x, m))
  }

  ghost predicate Healthy(nodes: Nodes, m: nat) { forall k :: k in nodes ==> Sound(nodes[k]) && OldNode(nodes[k], m) }

  // The names a request may register.
  function NamesIn(r: Request): seq<string> {
    match r
    case AddServices(data) => TrimAll(NamesOf(data))
    case SyncServices(data) => TrimAll(NamesOf(data))
    case AddChain(c) => [Trim(c.name)]
    case SyncChain(c) => [Trim(c.name)]
    case _ => []
  }

  predicate NamesNumbered(r: Request, m: nat) { forall i :: 0 <= i < |NamesIn(r)| ==> Numbered(NamesIn(r)[i], m) }

  // A command lists and registers no name but the ones it carries, and what serves after it
  // was registered at some time, if that was so before.
  ghost predicate OnlyAdds(a: Agent, b: Agent, names: seq<string>) {
    && (OnlyMadeServe(a) ==> OnlyMadeServe(b))
    && (forall x :: x in b.registry ==> x in a.registry || x in names)
    && (forall x :: x in NamesOf(b.services) ==> x in NamesOf(a.services) || x in names)
  }

  lemma LaunchOnlyMakes(a: Agent, names: seq<string>)
    ensures OnlyMadeServe(a) ==> OnlyMadeServe(LaunchAll(a, names))
  {
    LaunchAllNext(a, names);
    forall h | OnlyMadeServe(a) && h in LaunchAll(a, names).serving ensures h < LaunchAll(a, names).next { LaunchAllServing(a, names, h); }
  }

  lemma LaunchedOnlyAdds(a: Agent, data: seq<ServiceConfig>, names: seq<string>)
    requires names == TrimAll(NamesOf(data))
    ensures OnlyAdds(a, LaunchAll(a, names).(services := a.services + Stored(data)), names)
  {
    LaunchOnlyMakes(a, names);
    LaunchAllNext(a, names);
    assert NamesOf(a.services + Stored(data)) == NamesOf(a.services) + names;
  }

  lemma CreateOnlyAdds(a: Agent, data: seq<ServiceConfig>, parses: Parses)
    ensures OnlyAdds(a, Create(a, data, parses).agent, TrimAll(NamesOf(data)))
  {
    CreateIs(a, data, parses);
    LaunchedOnlyAdds(a, data, TrimAll(NamesOf(data)));
  }

  lemma {:induction false} RestartMakes(a: Agent, names: seq<string>, parses: Parses, i: nat)
    requires OnlyMadeServe(a)
    ensures OnlyMadeServe(Restart(a, names, parses, i).agent)
    decreases |names| - i
  {
    if i < |names| && parses(i) { RestartMakes(Launch(Drop(a, names[i]), names[i]), names, parses, i + 1); }
  }

  lemma UpdateOnlyAdds(a: Agent, data: seq<ServiceConfig>, parses: Parses)
    ensures OnlyAdds(a, Update(a, data, parses).agent, [])
  {
    var names := TrimAll(NamesOf(data));
    if Refusal(a.registry, names, true, ALL_PARSE, 0).None? {
      NotRefused(a.registry, names, true, ALL_PARSE, 0);
      RestartAddsNoName(a, names, parses, 0);
      if OnlyMadeServe(a) { RestartMakes(a, names, parses, 0); }
      ReplaceAllKeepsNames(a.services, data);
    }
  }

  lemma {:induction false} SyncOnlyAdds(a: Agent, data: seq<ServiceConfig>, parses: Parses, i: nat)
    ensures OnlyAdds(a, SyncFrom(a, data, parses, i).agent, TrimAll(NamesOf(data)))
    decreases |data| - i
  {
    if i < |data| {
      SyncOneOnlyAdds(a, data[i], parses(i));
      assert Trim(data[i].name) == TrimAll(NamesOf(data))[i];
      SyncOnlyAdds(SyncOne(a, data[i], parses(i)).agent, data, parses, i + 1);
    }
  }

  lemma SyncOneOnlyAdds(a: Agent, c: ServiceConfig, parses: bool)
    ensures OnlyAdds(a, SyncOne(a, c, parses).agent, [Trim(c.name)])
  {
    var d := c.(name := Trim(c.name));
    UpdateOnlyAdds(a, [d], Always(parses));
    CreateOnlyAdds(a, [d], Always(parses));
    TrimIdempotent(c.name);
    assert TrimAll(NamesOf([d])) == [Trim(c.name)];
  }

  lemma {:induction false} WithoutAddsNone(services: seq<ServiceConfig>, names: seq<string>, x: string)
    ensures x in NamesOf(Without(services, names)) ==> x in NamesOf(services)
  {
    if services != [] {
      var k := |services| - 1;
      var init := Without(services[..k], names);
      WithoutAddsNone(services[..k], names, x);
      assert NamesOf(services) == NamesOf(services[..k]) + [services[k].name];
      assert NamesOf(init + [services[k]]) == NamesOf(init) + [services[k].name];
    }
  }

  lemma DeleteOnlyAdds(a: Agent, services: seq<string>)
    ensures OnlyAdds(a, Delete(a, services).agent, [])
  {
    var names, b := TrimAll(services), Delete(a, services).agent;
    DropAllIs(a, names);
    forall x | x in NamesOf(b.services) ensures x in NamesOf(a.services) { WithoutAddsNone(a.services, names, x); }
  }

  lemma PauseOnlyAdds(a: Agent, services: seq<string>)
    ensures OnlyAdds(a, Pause(a, services).agent, [])
  {
    var names := TrimAll(services);
    CloseAllFrame(a, names);
    CloseAllFrame(a, names[..FirstUnlisted(a.services, names, 0)]);
    MarkedNames(a.services, names);
  }

  lemma {:induction false} RelaunchMakes(a: Agent, seen: map<string, Handle>, names: seq<string>, parses: Parses, i: nat)
    requires OnlyMadeServe(a)
    ensures OnlyMadeServe(Relaunch(a, seen, names, parses, i).agent)
    decreases |names| - i
  {
    if i < |names| {
      var dropped := DropSeen(a, seen, names[i]);
      if parses(i) {
        RelaunchMakes(Launch(dropped, names[i]), seen, names, parses, i + 1);
      } else {
        CloseAllFrame(dropped, names[..i]);
      }
    }
  }

  lemma ResumeOnlyAdds(a: Agent, services: seq<string>, parses: Parses)
    ensures OnlyAdds(a, Resume(a, services, parses).agent, [])
  {
    var names := TrimAll(services);
    if ResumeRefusal(a, names, 0).None? {
      var todo := PausedNames(a.services, names);
      PausedNamesAre(a.services, names);
      NotResumeRefused(a, names, 0);
      forall j | 0 <= j < |todo| ensures todo[j] in a.registry { assert todo[j] in names; }
      RelaunchAddsNoName(a, a.registry, todo, parses, 0);
      if OnlyMadeServe(a) { RelaunchMakes(a, a.registry, todo, parses, 0); }
      MarkedNames(a.services, todo);
    }
  }

  lemma AnswerOnlyAdds(n: Node, r: Request, parses: Parses)
    ensures OnlyAdds(n.agent, Answer(n, r, parses).node.agent, NamesIn(r))
  {
    match r
    case AddServices(data) => CreateOnlyAdds(n.agent, data, parses);
    case SyncServices(data) => SyncOnlyAdds(n.agent, data, parses, 0);
    case DeleteServices(names) => DeleteOnlyAdds(n.agent, names);
    case PauseServices(names) => PauseOnlyAdds(n.agent, names);
    case ResumeServices(names) => ResumeOnlyAdds(n.agent, names, parses);
    case _ =>
  }

  // Every command, whether it succeeds or fails, leaves a sound node.
  lemma AnswerIsSound(n: Node, r: Request, parses: Parses)
    requires Sound(n)
    ensures Sound(Answer(n, r, parses).node)
  {
    AnswerOnlyAdds(n, r, parses);
    match r
    case AddChain(e) => Chains.CommandsKeepMatch(n.chains, e, parses(0));
    case SyncChain(e) => Chains.CommandsKeepMatch(n.chains, e, parses(0));
    case DeleteChain(name) => Chains.CommandsKeepMatch(n.chains, Chains.Entry(name, Rate(0)), true);
    case _ =>
  }

  lemma AnswerAddsItsChain(n: Node, r: Request, parses: Parses, x: string)
    ensures x in Answer(n, r, parses).node.chains.registry ==> x in n.chains.registry || x in NamesIn(r)
  {
  }

  lemma AnswerKeepsNumbers(n: Node, r: Request, parses: Parses, m: nat)
    requires OldNode(n, m) && NamesNumbered(r, m)
    ensures OldNode(Answer(n, r, parses).node, m)
  {
    var after := Answer(n, r, parses).node;
    AnswerOnlyAdds(n, r, parses);
    forall x | x in after.chains.registry ensures Numbered(x, m) { AnswerAddsItsChain(n, r, parses, x); }
  }

  lemma SendKeeps(nodes: Nodes, k: int, r: Request, parses: Parses, m: nat)
    requires Healthy(nodes, m) && NamesNumbered(r, m)
    ensures Healthy(Send(nodes, k, r, parses).nodes, m) && Send(nodes, k, r, parses).nodes.Keys == nodes.Keys
  {
    if k in nodes {
      AnswerIsSound(nodes[k], r, parses);
      AnswerKeepsNumbers(nodes[k], r, parses, m);
    }
  }

  // ---- creation and compensation keep the nodes healthy ----

  predicate CarriesOnly(r: Request, name: string) {
    match r
    case AddServices(data) =>
      forall i :: 0 <= i < |data| ==> exists s :: s in SUFFIXES && data[i].name == name + s
    case AddChain(c) => c.name == name + "_chains"
    case DeleteServices(_) => true
    case DeleteChain(_) => true
    case _ => false
  }

  lemma OwnNamesNumbered(r: Request, name: string, id: nat, m: nat)
    requires CarriesOnly(r, name) && IsNameOf(name, id) && Base(name) && id < m
    ensures NamesNumbered(r, m)
  {
    NamesAreVisible(name);
    forall i | 0 <= i < |NamesIn(r)| ensures Numbered(NamesIn(r)[i], m) {
      if r.AddChain? {
        SuffixedNumber(name, id, "_chains", m);
      } else {
        var s :| s in SUFFIXES && r.data[i].name == name + s;
        SuffixedNumber(name, id, s, m);
      }
    }
  }

  lemma SendOwn(nodes: Nodes, k: int, r: Request, parses: Parses, name: string, id: nat, m: nat)
    requires Healthy(nodes, m) && CarriesOnly(r, name) && IsNameOf(name, id) && Base(name) && id < m
    ensures Healthy(Send(nodes, k, r, parses).nodes, m) && Send(nodes, k, r, parses).nodes.Keys == nodes.Keys
  {
    OwnNamesNumbered(r, name, id, m);
    SendKeeps(nodes, k, r, parses, m);
  }

  lemma OwnRequests(t: Tunnel, f: Forward, name: string, limiter: Option<string>)
    ensures CarriesOnly(AddServices(FirstServices(t, f, name, limiter)), name)
    ensures CarriesOnly(AddServices([RemoteService(name, t, f, limiter)]), name)
    ensures CarriesOnly(AddServices(ReverseServices(name, t, f, limiter)), name)
    ensures CarriesOnly(AddChain(Chain(name, t, f)), name)
  {
    assert name + "_" + "tcp" == name + "_tcp" && name + "_" + "udp" == name + "_udp";
    assert "_tcp" in SUFFIXES && "_udp" in SUFFIXES && "_tls" in SUFFIXES && "_relay" in SUFFIXES;
  }

  lemma AttemptKeeps(nodes: Nodes, t: Tunnel, f: Forward, name: string, limiter: Option<string>, luck: Luck, m: nat)
    requires Healthy(nodes, m) && IsNameOf(name, f.id) && Base(name) && f.id < m
    ensures Healthy(Attempt(nodes, t, f, name, limiter, luck).nodes, m) && Attempt(nodes, t, f, name, limiter, luck).nodes.Keys == nodes.Keys
  {
    OwnRequests(t, f, name, limiter);
    var first := Send(nodes, t.inNode, AddServices(FirstServices(t, f, name, limiter)), luck(0));
    SendOwn(nodes, t.inNode, AddServices(FirstServices(t, f, name, limiter)), luck(0), name, f.id, m);
    if first.failure.None? {
      match t.kind
      case Direct =>
      case Relay =>
        SendOwn(first.nodes, t.inNode, AddChain(Chain(name, t, f)), luck(1), name, f.id, m);
        var chain := Send(first.nodes, t.inNode, AddChain(Chain(name, t, f)), luck(1));
        SendOwn(chain.nodes, t.outNode, AddServices([RemoteService(name, t, f, limiter)]), luck(2), name, f.id, m);
      case Reverse =>
        SendOwn(first.nodes, t.outNode, AddServices(ReverseServices(name, t, f, limiter)), luck(1), name, f.id, m);
        var reverse := Send(first.nodes, t.outNode, AddServices(ReverseServices(name, t, f, limiter)), luck(1));
        SendOwn(reverse.nodes, t.outNode, AddChain(Chain(name, t, f)), luck(2), name, f.id, m);
    }
  }

  lemma SendDelete(nodes: Nodes, k: int, r: Request, m: nat)
    requires Healthy(nodes, m) && (r.DeleteServices? || r.DeleteChain?)
    ensures Healthy(Send(nodes, k, r, ALL_PARSE).nodes, m) && Send(nodes, k, r, ALL_PARSE).nodes.Keys == nodes.Keys
  {
    SendKeeps(nodes, k, r, ALL_PARSE, m);
  }

  lemma RollbackKeeps(nodes: Nodes, t: Tunnel, name: string, m: nat)
    requires Healthy(nodes, m)
    ensures Healthy(Rollback(nodes, t, name), m) && Rollback(nodes, t, name).Keys == nodes.Keys
  {
    var node := if t.kind.Reverse? then t.outNode else t.inNode;
    SendDelete(nodes, node, DeleteServices(TransportNames(name, t.protocol)), m);
    if !t.kind.Direct? {
      var n1 := Send(nodes, node, DeleteServices(TransportNames(name, t.protocol)), ALL_PARSE).nodes;
      SendDelete(n1, node, DeleteChain(name + "_chains"), m);
      var n2 := Send(n1, node, DeleteChain(name + "_chains"), ALL_PARSE).nodes;
      if t.kind.Relay? {
        SendDelete(n2, t.outNode, DeleteServices([name + "_tls"]), m);
      } else {
        SendDelete(n2, t.inNode, DeleteServices([name + "_relay"]), m);
      }
    }
  }

  lemma NotOnOldNode(n: Node, x: string, m: nat)
    requires OldNode(n, m) && !Numbered(x, m)
    ensures Free(n.agent, x) && x !in n.chains.registry
  {
  }

  lemma NextIsFresh(n: Node, name: string, id: nat, m: nat)
    requires OldNode(n, m) && IsNameOf(name, id) && m <= id
    ensures Fresh(n, name)
  {
    forall s | s in {"_tcp", "_udp", "_tls", "_relay", "_chains"} ensures Free(n.agent, name + s) && name + s !in n.chains.registry {
      SuffixedNumber(name, id, s, m);
      NotOnOldNode(n, name + s, m);
    }
  }
}
