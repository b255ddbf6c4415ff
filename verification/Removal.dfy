/** What the deletion of a forward leaves of it on the nodes, whatever they hold: each list of
    names is deleted if all of it is there, and refused otherwise. */
module Removal {
  import opened Text
  import opened AgentTables
  import opened AgentAgreement
  import opened AgentReplay
  import opened Protocol
  import opened Fleet
  import opened Compensation
  import opened NodeNames
  import Chains = AgentChains

  // A name of the forward's, under whatever permission it was given.
  predicate Mine(x: string, id: nat) { NumberPart(x) == Decimal(id) }

  // The names of a forward on each node: its services and its chains.
  datatype Marks = Marks(services: set<(int, string)>, chains: set<(int, string)>)

  // These are exactly the forward's names registered on the nodes that are online.
  ghost predicate Shows(nodes: Nodes, id: nat, m: Marks) {
    forall k, x :: k in nodes && Mine(x, id) ==>
      (x in nodes[k].agent.registry <==> (k, x) in m.services) && (x in nodes[k].chains.registry <==> (k, x) in m.chains)
  }

  ghost predicate NoneLeft(nodes: Nodes, id: nat) {
    forall k, x :: k in nodes && Mine(x, id) ==> x !in nodes[k].agent.registry && x !in nodes[k].chains.registry
  }

  function On(k: int, names: seq<string>): set<(int, string)> { set x | x in names :: (k, x) }

  lemma SuffixedIsMine(name: string, id: nat, s: string)
    requires IsNameOf(name, id) && s != "" && s[0] == '_'
    ensures Mine(name + s, id)
  {
    var x, k := name + s, |Decimal(id)|;
    DecimalVisible(id);
    SplitPrefix(Decimal(id), x[k + 1..], '_');
    assert x == Decimal(id) + ['_'] + x[k + 1..];
  }

  // ---- one deletion ----

  function Cleared(m: Marks, k: int, names: seq<string>): Marks {
    if On(k, names) <= m.services then m.(services := m.services - On(k, names)) else m
  }

  // A list of the forward's names, as it is sent.
  predicate OwnList(names: seq<string>, id: nat) {
    names != [] && TrimAll(names) == names && forall i :: 0 <= i < |names| ==> Mine(names[i], id) && names[i] != ""
  }

  lemma DeleteIs(a: Agent, names: seq<string>, x: string)
    requires names != [] && TrimAll(names) == names && forall i :: 0 <= i < |names| ==> names[i] != ""
    ensures x in Delete(a, names).agent.registry <==>
            x in a.registry && !(x in names && forall i :: 0 <= i < |names| ==> names[i] in a.registry)
  {
    DeleteAllOrNothing(a, names);
    DropAllIs(a, names);
    forall i | 0 <= i < |names| ensures Trim(names[i]) == names[i] { assert TrimAll(names)[i] == Trim(names[i]); }
  }

  lemma ListIsThere(n: Node, k: int, id: nat, m: Marks, names: seq<string>)
    requires OwnList(names, id) && Shows(map[k := n], id, m)
    ensures On(k, names) <= m.services <==> forall i :: 0 <= i < |names| ==> names[i] in n.agent.registry
  {
    forall i | 0 <= i < |names| ensures names[i] in n.agent.registry <==> (k, names[i]) in m.services {
      assert k in map[k := n] && Mine(names[i], id);
    }
    if On(k, names) <= m.services {
      forall i | 0 <= i < |names| ensures names[i] in n.agent.registry { assert (k, names[i]) in On(k, names); }
    }
  }

  lemma NodeDeleteShows(n: Node, k: int, id: nat, m: Marks, names: seq<string>)
    requires OwnList(names, id) && Shows(map[k := n], id, m)
    ensures Shows(map[k := Answer(n, DeleteServices(names), ALL_PARSE).node], id, Cleared(m, k, names))
  {
    var after := Answer(n, DeleteServices(names), ALL_PARSE).node;
    ListIsThere(n, k, id, m, names);
    forall x | Mine(x, id)
      ensures x in after.agent.registry <==> (k, x) in Cleared(m, k, names).services
      ensures x in after.chains.registry <==> (k, x) in Cleared(m, k, names).chains
    {
      DeleteIs(n.agent, names, x);
      assert k in map[k := n];
      assert (k, x) in On(k, names) <==> x in names;
    }
  }

  // What changes on one node is shown if the other nodes are not concerned.
  lemma ShowsNode(nodes: Nodes, k: int, after: Node, id: nat, m: Marks, b: Marks)
    requires Shows(nodes, id, m) && Shows(map[k := after], id, b)
    requires forall j, x :: j != k ==> ((j, x) in b.services <==> (j, x) in m.services) && ((j, x) in b.chains <==> (j, x) in m.chains)
    ensures Shows(nodes[k := after], id, b)
  {
    forall j, x | j in nodes[k := after] && Mine(x, id)
      ensures x in nodes[k := after][j].agent.registry <==> (j, x) in b.services
      ensures x in nodes[k := after][j].chains.registry <==> (j, x) in b.chains
    {
      if j == k { assert k in map[k := after]; } else { assert j in nodes; }
    }
  }

  lemma ShowsAt(nodes: Nodes, k: int, id: nat, m: Marks)
    requires Shows(nodes, id, m) && k in nodes
    ensures Shows(map[k := nodes[k]], id, m)
  {
    forall j, x | j in map[k := nodes[k]] && Mine(x, id)
      ensures x in nodes[j].agent.registry <==> (j, x) in m.services
      ensures x in nodes[j].chains.registry <==> (j, x) in m.chains
    {
      assert j in nodes;
    }
  }

  lemma SendDeleteShows(nodes: Nodes, k: int, names: seq<string>, id: nat, m: Marks)
    requires Shows(nodes, id, m) && OwnList(names, id)
    ensures Shows(Send(nodes, k, DeleteServices(names), ALL_PARSE).nodes, id, Cleared(m, k, names))
  {
    if k in nodes {
      ShowsAt(nodes, k, id, m);
      NodeDeleteShows(nodes[k], k, id, m, names);
      ShowsNode(nodes, k, Answer(nodes[k], DeleteServices(names), ALL_PARSE).node, id, m, Cleared(m, k, names));
    } else {
      forall j, x | j in nodes && Mine(x, id) ensures (j, x) in Cleared(m, k, names).services <==> (j, x) in m.services {}
    }
  }

  function Unchained(m: Marks, k: int, chain: string): Marks { m.(chains := m.chains - {(k, chain)}) }

  lemma SendDeleteChainShows(nodes: Nodes, k: int, chain: string, id: nat, m: Marks)
    requires Shows(nodes, id, m) && Trim(chain) == chain
    ensures Shows(Send(nodes, k, DeleteChain(chain), ALL_PARSE).nodes, id, Unchained(m, k, chain))
  {
    if k in nodes {
      var after := Answer(nodes[k], DeleteChain(chain), ALL_PARSE).node;
      ShowsAt(nodes, k, id, m);
      forall x | Mine(x, id)
        ensures x in after.agent.registry <==> (k, x) in m.services
        ensures x in after.chains.registry <==> (k, x) in Unchained(m, k, chain).chains
      {
        assert k in nodes;
      }
      ShowsNode(nodes, k, after, id, m, Unchained(m, k, chain));
    }
  }

  // ---- the deletion of a forward ----

  function Rolled(m: Marks, t: Tunnel, name: string): Marks {
    var m1 := Cleared(m, TrafficNode(t), TransportNames(name, t.protocol));
    match t.kind
    case Direct => m1
    case Relay => Cleared(Unchained(m1, t.inNode, name + "_chains"), t.outNode, [name + "_tls"])
    case Reverse => Cleared(Unchained(m1, t.outNode, name + "_chains"), t.inNode, [name + "_relay"])
  }

  lemma OwnLists(name: string, id: nat, protocol: string)
    requires Base(name) && IsNameOf(name, id)
    ensures OwnList(TransportNames(name, protocol), id) && OwnList([name + "_tls"], id) && OwnList([name + "_relay"], id)
  {
    NamesAreVisible(name);
    TransportNamesTrimmed(name, protocol);
    SuffixedIsMine(name, id, "_tcp");
    SuffixedIsMine(name, id, "_udp");
    SuffixedIsMine(name, id, "_tls");
    SuffixedIsMine(name, id, "_relay");
    assert TrimAll([name + "_tls"]) == [name + "_tls"] && TrimAll([name + "_relay"]) == [name + "_relay"];
  }

  lemma RollbackShows(nodes: Nodes, t: Tunnel, name: string, id: nat, m: Marks)
    requires Shows(nodes, id, m) && Base(name) && IsNameOf(name, id)
    ensures Shows(Rollback(nodes, t, name), id, Rolled(m, t, name))
  {
    OwnLists(name, id, t.protocol);
    NamesAreVisible(name);
    var k, names := TrafficNode(t), TransportNames(name, t.protocol);
    SendDeleteShows(nodes, k, names, id, m);
    if !t.kind.Direct? {
      var n1, m1 := Send(nodes, k, DeleteServices(names), ALL_PARSE).nodes, Cleared(m, k, names);
      SendDeleteChainShows(n1, k, name + "_chains", id, m1);
      var n2, m2 := Send(n1, k, DeleteChain(name + "_chains"), ALL_PARSE).nodes, Unchained(m1, k, name + "_chains");
      if t.kind.Relay? {
        SendDeleteShows(n2, t.outNode, [name + "_tls"], id, m2);
      } else {
        SendDeleteShows(n2, t.inNode, [name + "_relay"], id, m2);
      }
    }
  }

  // The name stands in a list of the rollback that is there completely.
  predicate Asked(m: Marks, t: Tunnel, name: string, k: int, x: string) {
    || (k == TrafficNode(t) && x in TransportNames(name, t.protocol) && On(k, TransportNames(name, t.protocol)) <= m.services)
    || (t.kind.Relay? && k == t.outNode && x == name + "_tls")
    || (t.kind.Reverse? && k == t.inNode && x == name + "_relay")
  }

  predicate AskedChain(t: Tunnel, name: string, k: int, x: string) {
    !t.kind.Direct? && k == TrafficNode(t) && x == name + "_chains"
  }

  lemma ClearedIs(m: Marks, k: int, names: seq<string>, j: int, x: string)
    ensures (j, x) in Cleared(m, k, names).services <==>
            (j, x) in m.services && !(j == k && x in names && On(k, names) <= m.services)
    ensures Cleared(m, k, names).chains == m.chains
  {
    assert (j, x) in On(k, names) <==> j == k && x in names;
  }

  lemma ClearedOne(m: Marks, k: int, name: string, j: int, x: string)
    ensures (j, x) in Cleared(m, k, [name]).services <==> (j, x) in m.services && !(j == k && x == name)
    ensures Cleared(m, k, [name]).chains == m.chains
  {
    ClearedIs(m, k, [name], j, x);
    assert On(k, [name]) == {(k, name)};
  }

  // A rollback takes away exactly what it asks for.
  lemma RolledIs(m: Marks, t: Tunnel, name: string, k: int, x: string)
    ensures (k, x) in Rolled(m, t, name).services <==> (k, x) in m.services && !Asked(m, t, name, k, x)
    ensures (k, x) in Rolled(m, t, name).chains <==> (k, x) in m.chains && !AskedChain(t, name, k, x)
  {
    var m1 := Cleared(m, TrafficNode(t), TransportNames(name, t.protocol));
    ClearedIs(m, TrafficNode(t), TransportNames(name, t.protocol), k, x);
    match t.kind
    case Direct =>
    case Relay => ClearedOne(Unchained(m1, t.inNode, name + "_chains"), t.outNode, name + "_tls", k, x);
    case Reverse => ClearedOne(Unchained(m1, t.outNode, name + "_chains"), t.inNode, name + "_relay", k, x);
  }

  // A rollback under one name does not take away what stands under another.
  lemma OtherListStays(m: Marks, t: Tunnel, name: string, other: string, k: int)
    requires name != other
    ensures On(k, TransportNames(other, t.protocol)) <= Rolled(m, t, name).services <==> On(k, TransportNames(other, t.protocol)) <= m.services
  {
    forall x | x in TransportNames(other, t.protocol) ensures (k, x) in Rolled(m, t, name).services <==> (k, x) in m.services {
      var s := if x == other + "_tcp" then "_tcp" else "_udp";
      assert x == other + s && s in SUFFIXES;
      OthersApart(other, name, s);
      RolledIs(m, t, name, k, x);
      assert name + "_tcp" != x && name + "_udp" != x && name + "_tls" != x && name + "_relay" != x;
    }
    assert forall x :: (k, x) in On(k, TransportNames(other, t.protocol)) <==> x in TransportNames(other, t.protocol);
  }

  lemma RolledTwice(m: Marks, t: Tunnel, name: string, other: string, k: int, x: string)
    requires name != other
    ensures var r := Rolled(Rolled(m, t, name), t, other);
            && ((k, x) in r.services <==> (k, x) in m.services && !Asked(m, t, name, k, x) && !Asked(m, t, other, k, x))
            && ((k, x) in r.chains <==> (k, x) in m.chains && !AskedChain(t, name, k, x) && !AskedChain(t, other, k, x))
  {
    RolledIs(m, t, name, k, x);
    RolledIs(Rolled(m, t, name), t, other, k, x);
    OtherListStays(m, t, name, other, k);
  }

  // Everything there is of the forward is asked for, under its name or its bare identifier, in
  // lists that are there completely.
  ghost predicate Covered(nodes: Nodes, m: Marks, t: Tunnel, name: string, id: nat) {
    forall k, x :: k in nodes && Mine(x, id) ==>
      && ((k, x) in m.services ==> Asked(m, t, name, k, x) || Asked(m, t, Decimal(id), k, x))
      && ((k, x) in m.chains ==> AskedChain(t, name, k, x) || AskedChain(t, Decimal(id), k, x))
  }

  // Whatever the nodes hold of a forward, and whichever of them are online, its deletion leaves
  // nothing of it on them exactly when all that is there is covered.
  lemma DeletionClearsExactly(nodes: Nodes, t: Tunnel, name: string, id: nat, m: Marks)
    requires Shows(nodes, id, m) && Base(name) && IsNameOf(name, id) && name != Decimal(id)
    ensures NoneLeft(DeleteForward(nodes, t, id, name), id) <==> Covered(nodes, m, t, name, id)
  {
    var n1, m1 := Rollback(nodes, t, name), Rolled(m, t, name);
    RollbackShows(nodes, t, name, id, m);
    assert Base(Decimal(id)) by { DecimalVisible(id); }
    RollbackShows(n1, t, Decimal(id), id, m1);
    var after, r := Rollback(n1, t, Decimal(id)), Rolled(m1, t, Decimal(id));
    SameFleet(nodes, t, name);
    SameFleet(n1, t, Decimal(id));
    forall k, x | k in nodes && Mine(x, id)
      ensures x in after[k].agent.registry <==> (k, x) in m.services && !Asked(m, t, name, k, x) && !Asked(m, t, Decimal(id), k, x)
      ensures x in after[k].chains.registry <==> (k, x) in m.chains && !AskedChain(t, name, k, x) && !AskedChain(t, Decimal(id), k, x)
    {
      RolledTwice(m, t, name, Decimal(id), k, x);
    }
  }

  lemma SameFleet(nodes: Nodes, t: Tunnel, name: string)
    ensures Rollback(nodes, t, name).Keys == nodes.Keys
  {
  }

  // ---- what a creation leaves ----

  // The names of the services a creation puts on the node that carries the traffic.
  function MadeNames(t: Tunnel, name: string): seq<string> {
    if t.kind.Reverse? then (if t.protocol == "quic" then [name + "_tcp", name + "_udp"] else [name + "_tcp"])
    else TransportNames(name, t.protocol)
  }

  function Made(t: Tunnel, name: string): Marks {
    var k := TrafficNode(t);
    match t.kind
    case Direct => Marks(On(k, MadeNames(t, name)), {})
    case Relay => Marks(On(k, MadeNames(t, name)) + {(t.outNode, name + "_tls")}, {(k, name + "_chains")})
    case Reverse => Marks(On(k, MadeNames(t, name)) + {(t.inNode, name + "_relay")}, {(k, name + "_chains")})
  }

  lemma SendAddShows(nodes: Nodes, k: int, data: seq<ServiceConfig>, p: Parses, id: nat, m: Marks)
    requires Shows(nodes, id, m) && Send(nodes, k, AddServices(data), p).failure.None?
    ensures Shows(Send(nodes, k, AddServices(data), p).nodes, id, m.(services := m.services + On(k, TrimAll(NamesOf(data)))))
  {
    var names := TrimAll(NamesOf(data));
    var after, b := Answer(nodes[k], AddServices(data), p).node, m.(services := m.services + On(k, names));
    CreateIs(nodes[k].agent, data, p);
    LaunchAllNext(nodes[k].agent, names);
    forall x | Mine(x, id)
      ensures x in after.agent.registry <==> (k, x) in b.services
      ensures x in after.chains.registry <==> (k, x) in b.chains
    {
      assert k in nodes;
      assert (k, x) in On(k, names) <==> x in names;
    }
    ShowsNode(nodes, k, after, id, m, b);
  }

  lemma SendAddChainShows(nodes: Nodes, k: int, c: Chains.Entry, p: Parses, id: nat, m: Marks)
    requires Shows(nodes, id, m) && Send(nodes, k, AddChain(c), p).failure.None? && Trim(c.name) == c.name
    ensures Shows(Send(nodes, k, AddChain(c), p).nodes, id, m.(chains := m.chains + {(k, c.name)}))
  {
    var after, b := Answer(nodes[k], AddChain(c), p).node, m.(chains := m.chains + {(k, c.name)});
    forall x | Mine(x, id)
      ensures x in after.agent.registry <==> (k, x) in b.services
      ensures x in after.chains.registry <==> (k, x) in b.chains
    {
      assert k in nodes;
    }
    ShowsNode(nodes, k, after, id, m, b);
  }

  lemma FirstNames(t: Tunnel, f: Forward, name: string, limiter: Option<string>)
    requires Base(name)
    ensures TrimAll(NamesOf(FirstServices(t, f, name, limiter))) == if t.kind.Reverse? then [name + "_relay"] else MadeNames(t, name)
    ensures TrimAll(NamesOf([RemoteService(name, t, f, limiter)])) == [name + "_tls"]
    ensures t.kind.Reverse? ==> TrimAll(NamesOf(ReverseServices(name, t, f, limiter))) == MadeNames(t, name)
  {
    NamesAreVisible(name);
    EntryNames(name, t, f, limiter);
    TransportNamesTrimmed(name, t.protocol);
    ReverseNames(name, t, f, limiter);
  }

  // A created forward is on its nodes under the names creation gave it, and nothing else of it.
  lemma AttemptShows(nodes: Nodes, t: Tunnel, f: Forward, name: string, limiter: Option<string>, luck: Luck, id: nat)
    requires Shows(nodes, id, Marks({}, {})) && Base(name) && Attempt(nodes, t, f, name, limiter, luck).created
    ensures Shows(Attempt(nodes, t, f, name, limiter, luck).nodes, id, Made(t, name))
  {
    var none := Marks({}, {});
    var first := Send(nodes, t.inNode, AddServices(FirstServices(t, f, name, limiter)), luck(0));
    FirstNames(t, f, name, limiter);
    NamesAreVisible(name);
    SendAddShows(nodes, t.inNode, FirstServices(t, f, name, limiter), luck(0), id, none);
    var m := none.(services := none.services + On(t.inNode, if t.kind.Reverse? then [name + "_relay"] else MadeNames(t, name)));
    if t.kind.Relay? {
      var chain := Send(first.nodes, t.inNode, AddChain(Chain(name, t, f)), luck(1));
      var remote := Send(chain.nodes, t.outNode, AddServices([RemoteService(name, t, f, limiter)]), luck(2));
      RelayShows(first.nodes, t, f, name, limiter, luck, id, m, chain, remote);
    } else if t.kind.Reverse? {
      var reverse := Send(first.nodes, t.outNode, AddServices(ReverseServices(name, t, f, limiter)), luck(1));
      var chain := Send(reverse.nodes, t.outNode, AddChain(Chain(name, t, f)), luck(2));
      ReverseShows(first.nodes, t, f, name, limiter, luck, id, m, reverse, chain);
    }
  }

  lemma ChainIsVisible(t: Tunnel, f: Forward, name: string)
    requires Base(name)
    ensures Trim(Chain(name, t, f).name) == Chain(name, t, f).name == name + "_chains" != ""
  {
    NamesAreVisible(name);
  }

  lemma RelayShows(nodes: Nodes, t: Tunnel, f: Forward, name: string, limiter: Option<string>, luck: Luck, id: nat, m: Marks, chain: Reply, remote: Reply)
    requires t.kind.Relay? && Base(name) && Shows(nodes, id, m) && m == Marks(On(t.inNode, MadeNames(t, name)), {})
    requires chain == Send(nodes, t.inNode, AddChain(Chain(name, t, f)), luck(1)) && chain.failure.None?
    requires remote == Send(chain.nodes, t.outNode, AddServices([RemoteService(name, t, f, limiter)]), luck(2)) && remote.failure.None?
    ensures Shows(remote.nodes, id, Made(t, name))
  {
    FirstNames(t, f, name, limiter);
    ChainIsVisible(t, f, name);
    var m1 := m.(chains := m.chains + {(t.inNode, name + "_chains")});
    SendAddChainShows(nodes, t.inNode, Chain(name, t, f), luck(1), id, m);
    SendAddShows(chain.nodes, t.outNode, [RemoteService(name, t, f, limiter)], luck(2), id, m1);
    assert m1.(services := m1.services + On(t.outNode, [name + "_tls"])) == Made(t, name) by {
      assert On(t.outNode, [name + "_tls"]) == {(t.outNode, name + "_tls")};
    }
  }

  lemma ReverseShows(nodes: Nodes, t: Tunnel, f: Forward, name: string, limiter: Option<string>, luck: Luck, id: nat, m: Marks, reverse: Reply, chain: Reply)
    requires t.kind.Reverse? && Base(name) && Shows(nodes, id, m) && m == Marks(On(t.inNode, [name + "_relay"]), {})
    requires reverse == Send(nodes, t.outNode, AddServices(ReverseServices(name, t, f, limiter)), luck(1)) && reverse.failure.None?
    requires chain == Send(reverse.nodes, t.outNode, AddChain(Chain(name, t, f)), luck(2)) && chain.failure.None?
    ensures Shows(chain.nodes, id, Made(t, name))
  {
    FirstNames(t, f, name, limiter);
    ChainIsVisible(t, f, name);
    SendAddShows(nodes, t.outNode, ReverseServices(name, t, f, limiter), luck(1), id, m);
    SendAddChainShows(reverse.nodes, t.outNode, Chain(name, t, f), luck(2), id, m.(services := m.services + On(t.outNode, MadeNames(t, name))));
    assert On(t.inNode, [name + "_relay"]) == {(t.inNode, name + "_relay")};
    assert m.services + On(t.outNode, MadeNames(t, name)) == Made(t, name).services;
  }

  // ---- what deletion asks for, against what creation made ----

  // The tunnel as it is at creation and at deletion: kind and nodes never change.
  predicate SameRoute(t: Tunnel, u: Tunnel) { t.kind == u.kind && t.inNode == u.inNode && t.outNode == u.outNode }

  // Creation and deletion name the same services on the node that carries the traffic.
  predicate Fits(t: Tunnel, protocol: string) {
    if t.kind.Reverse? then t.protocol == "quic" <==> protocol != "anytls"
    else t.protocol == "anytls" <==> protocol == "anytls"
  }

  lemma FitsMeans(t: Tunnel, u: Tunnel, name: string)
    ensures Fits(t, u.protocol) <==> MadeNames(t, name) == TransportNames(name, u.protocol)
  {
    assert |MadeNames(t, name)| == 1 || |MadeNames(t, name)| == 2;
  }

  // What is made under a name is covered, with the node that carries the traffic online,
  // exactly when deletion uses that name and names the same services.
  lemma MadeIsCoveredExactly(nodes: Nodes, t: Tunnel, u: Tunnel, name: string, later: string, id: nat)
    requires SameRoute(t, u) && TrafficNode(t) in nodes
    requires Base(name) && IsNameOf(name, id) && name != Decimal(id)
    ensures Covered(nodes, Made(t, name), u, later, id) <==> later == name && Fits(t, u.protocol)
  {
    FitsMeans(t, u, name);
    if later != name {
      OtherNameMisses(nodes, t, u, name, later, id);
    } else if Fits(t, u.protocol) {
      FittingCovers(nodes, t, u, name, id);
    } else {
      MisfitMisses(nodes, t, u, name, id);
    }
  }

  lemma MadeHas(t: Tunnel, name: string, k: int, x: string)
    ensures (k, x) in Made(t, name).services <==>
            || (k == TrafficNode(t) && x in MadeNames(t, name))
            || (t.kind.Relay? && k == t.outNode && x == name + "_tls")
            || (t.kind.Reverse? && k == t.inNode && x == name + "_relay")
    ensures (k, x) in Made(t, name).chains <==> AskedChain(t, name, k, x)
  {
    assert (k, x) in On(TrafficNode(t), MadeNames(t, name)) <==> k == TrafficNode(t) && x in MadeNames(t, name);
  }

  lemma NotAsked(m: Marks, u: Tunnel, name: string, other: string, k: int, s: string)
    requires name != other && s in SUFFIXES
    ensures !Asked(m, u, other, k, name + s)
  {
    OthersApart(name, other, s);
  }

  lemma OtherNameMisses(nodes: Nodes, t: Tunnel, u: Tunnel, name: string, later: string, id: nat)
    requires SameRoute(t, u) && TrafficNode(t) in nodes && IsNameOf(name, id) && name != Decimal(id) && later != name
    ensures !Covered(nodes, Made(t, name), u, later, id)
  {
    var k, x, m := TrafficNode(t), name + "_tcp", Made(t, name);
    SuffixedIsMine(name, id, "_tcp");
    MadeHas(t, name, k, x);
    NotAsked(m, u, name, later, k, "_tcp");
    NotAsked(m, u, name, Decimal(id), k, "_tcp");
    assert k in nodes && Mine(x, id);
  }

  lemma FittingCovers(nodes: Nodes, t: Tunnel, u: Tunnel, name: string, id: nat)
    requires SameRoute(t, u) && MadeNames(t, name) == TransportNames(name, u.protocol)
    ensures Covered(nodes, Made(t, name), u, name, id)
  {
    forall k, x | k in nodes && Mine(x, id)
      ensures (k, x) in Made(t, name).services ==> Asked(Made(t, name), u, name, k, x)
      ensures (k, x) in Made(t, name).chains ==> AskedChain(u, name, k, x)
    {
      MadeHas(t, name, k, x);
    }
  }

  lemma Suffixes(name: string)
    ensures name + "_tcp" != name + "_udp" && name + "_tcp" != name + "_tls" && name + "_udp" != name + "_tls"
    ensures name + "_tcp" != name + "_relay" && name + "_udp" != name + "_relay"
  {
    assert (name + "_tcp")[|name| + 1] == 't' && (name + "_udp")[|name| + 1] == 'u' && (name + "_relay")[|name| + 1] == 'r';
    assert (name + "_tcp")[|name| + 2] == 'c' && (name + "_tls")[|name| + 2] == 'l';
  }

  lemma MisfitMisses(nodes: Nodes, t: Tunnel, u: Tunnel, name: string, id: nat)
    requires SameRoute(t, u) && TrafficNode(t) in nodes && IsNameOf(name, id) && name != Decimal(id)
    requires MadeNames(t, name) != TransportNames(name, u.protocol)
    ensures !Covered(nodes, Made(t, name), u, name, id)
  {
    var k, m := TrafficNode(t), Made(t, name);
    Suffixes(name);
    MadeHas(t, name, k, name + "_tcp");
    MadeHas(t, name, k, name + "_udp");
    var s := if |MadeNames(t, name)| == 1 then "_tcp" else "_udp";
    SuffixedIsMine(name, id, s);
    NotAsked(m, u, name, Decimal(id), k, s);
    if |MadeNames(t, name)| == 1 {
      assert (k, name + "_udp") in On(k, TransportNames(name, u.protocol)) && (k, name + "_udp") !in m.services;
    }
    assert k in nodes && Mine(name + s, id) && (k, name + s) in m.services && !Asked(m, u, name, k, name + s);
  }
}
