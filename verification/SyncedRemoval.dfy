/** Deletion after a synchronisation of the tunnel, as every tunnel update runs one: what the
    synchronisation adds to the names that creation made, and what deletion leaves of both. */
module SyncedRemoval {
  import opened Text
  import opened AgentTables
  import opened AgentAgreement
  import opened AgentReplay
  import opened Protocol
  import opened Fleet
  import opened Compensation
  import opened NodeNames
  import opened Removal
  import opened RemovalRuns
  import opened Provisioning
  import opened Replay
  import Chains = AgentChains

  lemma AskIsSend(nodes: Nodes, k: int, r: Request, p: Parses)
    ensures Ask(Answer, nodes, k, r, p) == Send(nodes, k, r, p)
  {
  }

  // ---- one forward ----

  lemma SyncRegisters(a: Agent, data: seq<ServiceConfig>, p: Parses, x: string)
    requires Sync(a, data, p).error.None?
    ensures x in Sync(a, data, p).agent.registry <==> x in a.registry || x in TrimAll(NamesOf(data))
  {
    SyncSucceedsExactly(a, data, p);
    PutAllRegisters(a, Stored(data), |data|, x);
    assert NamesOf(Stored(data))[..|data|] == TrimAll(NamesOf(data));
  }

  lemma SendSyncShows(nodes: Nodes, k: int, data: seq<ServiceConfig>, p: Parses, id: nat, m: Marks)
    requires Shows(nodes, id, m) && Send(nodes, k, SyncServices(data), p).failure.None?
    ensures Shows(Send(nodes, k, SyncServices(data), p).nodes, id, m.(services := m.services + On(k, TrimAll(NamesOf(data)))))
  {
    var names := TrimAll(NamesOf(data));
    var after, b := Answer(nodes[k], SyncServices(data), p).node, m.(services := m.services + On(k, names));
    forall x | Mine(x, id)
      ensures x in after.agent.registry <==> (k, x) in b.services
      ensures x in after.chains.registry <==> (k, x) in b.chains
    {
      SyncRegisters(nodes[k].agent, data, p, x);
      assert k in nodes;
      assert (k, x) in On(k, names) <==> x in names;
    }
    ShowsNode(nodes, k, after, id, m, b);
  }

  lemma SendSyncChainShows(nodes: Nodes, k: int, c: Chains.Entry, p: Parses, id: nat, m: Marks)
    requires Shows(nodes, id, m) && Send(nodes, k, SyncChain(c), p).failure.None? && Trim(c.name) == c.name
    ensures Shows(Send(nodes, k, SyncChain(c), p).nodes, id, m.(chains := m.chains + {(k, c.name)}))
  {
    var after, b := Answer(nodes[k], SyncChain(c), p).node, m.(chains := m.chains + {(k, c.name)});
    forall x | Mine(x, id)
      ensures x in after.agent.registry <==> (k, x) in b.services
      ensures x in after.chains.registry <==> (k, x) in b.chains
    {
      assert k in nodes;
    }
    ShowsNode(nodes, k, after, id, m, b);
  }

  function Union(m: Marks, b: Marks): Marks { Marks(m.services + b.services, m.chains + b.chains) }

  // A reverse tunnel that is not over QUIC first drops a UDP service left by one that was.
  function Synced(m: Marks, t: Tunnel, name: string): Marks {
    Union(if t.kind.Reverse? && t.protocol != "quic" then Cleared(m, t.outNode, [name + "_udp"]) else m, Made(t, name))
  }

  lemma DropUdpShows(nodes: Nodes, t: Tunnel, row: Row, id: nat, m: Marks)
    requires Shows(nodes, id, m) && Base(Name(row)) && IsNameOf(Name(row), id)
    ensures Shows(DropUdp(Answer, nodes, t, row, t.outNode), id,
                  if t.protocol != "quic" then Cleared(m, t.outNode, [Name(row) + "_udp"]) else m)
  {
    var udp := [Name(row) + "_udp"];
    NamesAreVisible(Name(row));
    SuffixedIsMine(Name(row), id, "_udp");
    assert TrimAll(udp) == udp;
    SendDeleteShows(nodes, t.outNode, udp, id, m);
    AskIsSend(nodes, t.outNode, DeleteServices(udp), ALL_PARSE);
  }

  lemma DirectRowShows(nodes: Nodes, t: Tunnel, row: Row, limiter: Option<string>, luck: nat -> Parses, id: nat, m: Marks)
    requires Shows(nodes, id, m) && t.kind.Direct? && Base(Name(row)) && SyncRow(Answer, nodes, t, row, limiter, luck).failure.None?
    ensures Shows(SyncRow(Answer, nodes, t, row, limiter, luck).nodes, id, Synced(m, t, Name(row)))
  {
    FirstNames(t, row.forward, Name(row), limiter);
    AskIsSend(nodes, t.inNode, EntryRequest(t, row, limiter), luck(0));
    SendSyncShows(nodes, t.inNode, FirstServices(t, row.forward, Name(row), limiter), luck(0), id, m);
    assert m.(services := m.services + On(t.inNode, MadeNames(t, Name(row)))) == Synced(m, t, Name(row));
  }

  // The services of the first step, the exit service, the private services, the chain.
  lemma EntryShows(nodes: Nodes, t: Tunnel, row: Row, limiter: Option<string>, p: Parses, id: nat, m: Marks, r: Reply)
    requires Shows(nodes, id, m) && Base(Name(row)) && r == Send(nodes, t.inNode, EntryRequest(t, row, limiter), p) && r.failure.None?
    ensures Shows(r.nodes, id, m.(services := m.services + On(t.inNode, if t.kind.Reverse? then [Name(row) + "_relay"] else MadeNames(t, Name(row)))))
  {
    FirstNames(t, row.forward, Name(row), limiter);
    SendSyncShows(nodes, t.inNode, FirstServices(t, row.forward, Name(row), limiter), p, id, m);
  }

  lemma RemoteShows(nodes: Nodes, t: Tunnel, row: Row, limiter: Option<string>, p: Parses, id: nat, m: Marks, r: Reply)
    requires Shows(nodes, id, m) && Base(Name(row)) && r.failure.None?
    requires r == Send(nodes, t.outNode, SyncServices([RemoteService(Name(row), t, row.forward, limiter)]), p)
    ensures Shows(r.nodes, id, m.(services := m.services + On(t.outNode, [Name(row) + "_tls"])))
  {
    FirstNames(t, row.forward, Name(row), limiter);
    SendSyncShows(nodes, t.outNode, [RemoteService(Name(row), t, row.forward, limiter)], p, id, m);
  }

  lemma PrivateShows(nodes: Nodes, t: Tunnel, row: Row, limiter: Option<string>, p: Parses, id: nat, m: Marks, r: Reply)
    requires Shows(nodes, id, m) && Base(Name(row)) && t.kind.Reverse? && r.failure.None?
    requires r == Send(nodes, t.outNode, SyncServices(ReverseServices(Name(row), t, row.forward, limiter)), p)
    ensures Shows(r.nodes, id, m.(services := m.services + On(t.outNode, MadeNames(t, Name(row)))))
  {
    FirstNames(t, row.forward, Name(row), limiter);
    SendSyncShows(nodes, t.outNode, ReverseServices(Name(row), t, row.forward, limiter), p, id, m);
  }

  lemma ChainShows(nodes: Nodes, t: Tunnel, row: Row, p: Parses, id: nat, m: Marks, r: Reply)
    requires Shows(nodes, id, m) && Base(Name(row)) && r.failure.None?
    requires r == Send(nodes, TrafficNode(t), SyncChain(Chain(Name(row), t, row.forward)), p)
    ensures Shows(r.nodes, id, m.(chains := m.chains + {(TrafficNode(t), Name(row) + "_chains")}))
  {
    NamesAreVisible(Name(row));
    SendSyncChainShows(nodes, TrafficNode(t), Chain(Name(row), t, row.forward), p, id, m);
  }

  lemma RelayMarks(m: Marks, t: Tunnel, name: string)
    requires t.kind.Relay?
    ensures Marks(m.services + On(t.inNode, MadeNames(t, name)) + On(t.outNode, [name + "_tls"]), m.chains + {(t.inNode, name + "_chains")})
            == Synced(m, t, name)
  {
    assert On(t.outNode, [name + "_tls"]) == {(t.outNode, name + "_tls")};
    assert m.services + On(t.inNode, MadeNames(t, name)) + On(t.outNode, [name + "_tls"]) == Synced(m, t, name).services;
  }

  lemma RelayRepliesShow(nodes: Nodes, t: Tunnel, row: Row, limiter: Option<string>, luck: nat -> Parses, id: nat, m: Marks,
                         entry: Reply, remote: Reply, chain: Reply)
    requires Shows(nodes, id, m) && t.kind.Relay? && Base(Name(row))
    requires entry == Send(nodes, t.inNode, EntryRequest(t, row, limiter), luck(0)) && entry.failure.None?
    requires remote == Send(entry.nodes, t.outNode, SyncServices([RemoteService(Name(row), t, row.forward, limiter)]), luck(1)) && remote.failure.None?
    requires chain == Send(remote.nodes, t.inNode, SyncChain(Chain(Name(row), t, row.forward)), luck(2)) && chain.failure.None?
    ensures Shows(chain.nodes, id, Synced(m, t, Name(row)))
  {
    var m1 := m.(services := m.services + On(t.inNode, MadeNames(t, Name(row))));
    var m2 := m1.(services := m1.services + On(t.outNode, [Name(row) + "_tls"]));
    assert Shows(entry.nodes, id, m1) by { EntryShows(nodes, t, row, limiter, luck(0), id, m, entry); }
    assert Shows(remote.nodes, id, m2) by { RemoteShows(entry.nodes, t, row, limiter, luck(1), id, m1, remote); }
    ChainShows(remote.nodes, t, row, luck(2), id, m2, chain);
    RelayMarks(m, t, Name(row));
  }

  lemma RelayRowShows(nodes: Nodes, t: Tunnel, row: Row, limiter: Option<string>, luck: nat -> Parses, id: nat, m: Marks)
    requires Shows(nodes, id, m) && t.kind.Relay? && Base(Name(row)) && SyncRow(Answer, nodes, t, row, limiter, luck).failure.None?
    ensures Shows(SyncRow(Answer, nodes, t, row, limiter, luck).nodes, id, Synced(m, t, Name(row)))
  {
    var entry := Send(nodes, t.inNode, EntryRequest(t, row, limiter), luck(0));
    var remote := Send(entry.nodes, t.outNode, SyncServices([RemoteService(Name(row), t, row.forward, limiter)]), luck(1));
    var chain := Send(remote.nodes, t.inNode, SyncChain(Chain(Name(row), t, row.forward)), luck(2));
    RelayRepliesShow(nodes, t, row, limiter, luck, id, m, entry, remote, chain);
  }

  lemma ReverseRepliesShow(nodes: Nodes, t: Tunnel, row: Row, limiter: Option<string>, luck: nat -> Parses, id: nat, m: Marks,
                           entry: Reply, dropped: Nodes, chain: Reply, reverse: Reply)
    requires Shows(nodes, id, m) && t.kind.Reverse? && Base(Name(row)) && IsNameOf(Name(row), id)
    requires entry == Send(nodes, t.inNode, EntryRequest(t, row, limiter), luck(0)) && entry.failure.None?
    requires dropped == DropUdp(Answer, entry.nodes, t, row, t.outNode)
    requires chain == Send(dropped, t.outNode, SyncChain(Chain(Name(row), t, row.forward)), luck(2)) && chain.failure.None?
    requires reverse == Send(chain.nodes, t.outNode, SyncServices(ReverseServices(Name(row), t, row.forward, limiter)), luck(1)) && reverse.failure.None?
    ensures Shows(reverse.nodes, id, Synced(m, t, Name(row)))
  {
    var name := Name(row);
    var m1 := m.(services := m.services + On(t.inNode, [name + "_relay"]));
    var m2 := if t.protocol != "quic" then Cleared(m1, t.outNode, [name + "_udp"]) else m1;
    var m3 := m2.(chains := m2.chains + {(t.outNode, name + "_chains")});
    assert Shows(entry.nodes, id, m1) by { EntryShows(nodes, t, row, limiter, luck(0), id, m, entry); }
    assert Shows(dropped, id, m2) by { DropUdpShows(entry.nodes, t, row, id, m1); }
    assert Shows(chain.nodes, id, m3) by { ChainShows(dropped, t, row, luck(2), id, m2, chain); }
    PrivateShows(chain.nodes, t, row, limiter, luck(1), id, m3, reverse);
    ReverseMarks(m, m1, m2, t, name);
  }

  lemma ReverseRowShows(nodes: Nodes, t: Tunnel, row: Row, limiter: Option<string>, luck: nat -> Parses, id: nat, m: Marks)
    requires Shows(nodes, id, m) && t.kind.Reverse? && SyncRow(Answer, nodes, t, row, limiter, luck).failure.None?
    requires Base(Name(row)) && IsNameOf(Name(row), id)
    ensures Shows(SyncRow(Answer, nodes, t, row, limiter, luck).nodes, id, Synced(m, t, Name(row)))
  {
    var entry := Send(nodes, t.inNode, EntryRequest(t, row, limiter), luck(0));
    var dropped := DropUdp(Answer, entry.nodes, t, row, t.outNode);
    var chain := Send(dropped, t.outNode, SyncChain(Chain(Name(row), t, row.forward)), luck(2));
    var reverse := Send(chain.nodes, t.outNode, SyncServices(ReverseServices(Name(row), t, row.forward, limiter)), luck(1));
    ReverseRepliesShow(nodes, t, row, limiter, luck, id, m, entry, dropped, chain, reverse);
  }

  lemma ReverseMarks(m: Marks, m1: Marks, m2: Marks, t: Tunnel, name: string)
    requires t.kind.Reverse? && m1 == m.(services := m.services + On(t.inNode, [name + "_relay"]))
    requires m2 == if t.protocol != "quic" then Cleared(m1, t.outNode, [name + "_udp"]) else m1
    ensures Marks(m2.services + On(t.outNode, MadeNames(t, name)), m2.chains + {(t.outNode, name + "_chains")}) == Synced(m, t, name)
  {
    Suffixes(name);
    assert On(t.inNode, [name + "_relay"]) == {(t.inNode, name + "_relay")};
    forall j, x
      ensures (j, x) in m2.services + On(t.outNode, MadeNames(t, name)) <==> (j, x) in Synced(m, t, name).services
    {
      ClearedOne(m1, t.outNode, name + "_udp", j, x);
      ClearedOne(m, t.outNode, name + "_udp", j, x);
    }
    assert m2.services + On(t.outNode, MadeNames(t, name)) == Synced(m, t, name).services;
    ClearedOne(m1, t.outNode, name + "_udp", 0, "");
    ClearedOne(m, t.outNode, name + "_udp", 0, "");
  }

  // A synchronised forward has, next to what there was, the services of its current name.
  lemma SyncRowShows(nodes: Nodes, t: Tunnel, row: Row, limiter: Option<string>, luck: nat -> Parses, id: nat, m: Marks)
    requires Shows(nodes, id, m) && row.forward.id == id && SyncRow(Answer, nodes, t, row, limiter, luck).failure.None?
    ensures Shows(SyncRow(Answer, nodes, t, row, limiter, luck).nodes, id, Synced(m, t, Name(row)))
  {
    NameIsNameOf(id, row.forward.owner, row.relation);
    match t.kind
    case Direct => DirectRowShows(nodes, t, row, limiter, luck, id, m);
    case Relay => RelayRowShows(nodes, t, row, limiter, luck, id, m);
    case Reverse => ReverseRowShows(nodes, t, row, limiter, luck, id, m);
  }

  // ---- the other forwards of the tunnel ----

  lemma SyncIsAbout(data: seq<ServiceConfig>, name: string, other: nat)
    requires CarriesOnly(AddServices(data), name) && Base(name) && IsNameOf(name, other)
    ensures About(SyncServices(data), other)
  {
    CarriedIsAbout(AddServices(data), name, other);
    assert Mentions(SyncServices(data)) == Mentions(AddServices(data));
  }

  lemma RowRequests(t: Tunnel, row: Row, limiter: Option<string>)
    ensures var name, f := Name(row), row.forward;
            && About(EntryRequest(t, row, limiter), f.id) && About(SyncServices([RemoteService(name, t, f, limiter)]), f.id)
            && About(SyncServices(ReverseServices(name, t, f, limiter)), f.id) && About(SyncChain(Chain(name, t, f)), f.id)
            && About(DeleteServices([name + "_udp"]), f.id)
  {
    var name, f := Name(row), row.forward;
    NameIsNameOf(f.id, f.owner, row.relation);
    OwnRequests(t, f, name, limiter);
    SyncIsAbout(FirstServices(t, f, name, limiter), name, f.id);
    SyncIsAbout([RemoteService(name, t, f, limiter)], name, f.id);
    SyncIsAbout(ReverseServices(name, t, f, limiter), name, f.id);
    NamesAreVisible(name);
    SuffixedIsMine(name, f.id, "_chains");
    SuffixedIsMine(name, f.id, "_udp");
    assert Mentions(SyncChain(Chain(name, t, f))) == [name + "_chains"];
    assert Mentions(DeleteServices([name + "_udp"])) == [name + "_udp"];
  }

  lemma OtherRowShows(nodes: Nodes, t: Tunnel, row: Row, limiter: Option<string>, luck: nat -> Parses, id: nat, m: Marks)
    requires Shows(nodes, id, m) && row.forward.id != id && SyncRow(Answer, nodes, t, row, limiter, luck).failure.None?
    ensures Shows(SyncRow(Answer, nodes, t, row, limiter, luck).nodes, id, m)
  {
    var name, f := Name(row), row.forward;
    RowRequests(t, row, limiter);
    SendAboutOther(nodes, t.inNode, EntryRequest(t, row, limiter), luck(0), f.id, id, m);
    var n1 := Send(nodes, t.inNode, EntryRequest(t, row, limiter), luck(0)).nodes;
    match t.kind
    case Direct =>
    case Relay =>
      var remote := SyncServices([RemoteService(name, t, f, limiter)]);
      SendAboutOther(n1, t.outNode, remote, luck(1), f.id, id, m);
      SendAboutOther(Send(n1, t.outNode, remote, luck(1)).nodes, t.inNode, SyncChain(Chain(name, t, f)), luck(2), f.id, id, m);
    case Reverse =>
      SendAboutOther(n1, t.outNode, DeleteServices([name + "_udp"]), ALL_PARSE, f.id, id, m);
      var n2 := DropUdp(Answer, n1, t, row, t.outNode);
      SendAboutOther(n2, t.outNode, SyncChain(Chain(name, t, f)), luck(2), f.id, id, m);
      var n3 := Send(n2, t.outNode, SyncChain(Chain(name, t, f)), luck(2)).nodes;
      SendAboutOther(n3, t.outNode, SyncServices(ReverseServices(name, t, f, limiter)), luck(1), f.id, id, m);
  }

  // The rows of a tunnel: one for each forward.
  predicate OneRowEach(rows: seq<Row>) { forall i, j :: 0 <= i < j < |rows| ==> rows[i].forward.id != rows[j].forward.id }

  // What is shown before the i-th row is synchronised.
  function Before(m: Marks, t: Tunnel, rows: seq<Row>, i: nat, j: nat): Marks
    requires j < |rows|
  {
    if j < i then Synced(m, t, Name(rows[j])) else m
  }

  lemma NextRowShows(nodes: Nodes, t: Tunnel, rows: seq<Row>, limiter: Option<string>, luck: SyncLuck, i: nat, j: nat, id: nat, m: Marks)
    requires OneRowEach(rows) && i < |rows| && j < |rows| && rows[j].forward.id == id
    requires Shows(nodes, id, Before(m, t, rows, i, j)) && SyncRow(Answer, nodes, t, rows[i], limiter, Turn(luck, i)).failure.None?
    ensures Shows(SyncRow(Answer, nodes, t, rows[i], limiter, Turn(luck, i)).nodes, id, Before(m, t, rows, i + 1, j))
  {
    if i == j {
      SyncRowShows(nodes, t, rows[i], limiter, Turn(luck, i), id, m);
    } else {
      OtherRowShows(nodes, t, rows[i], limiter, Turn(luck, i), id, Before(m, t, rows, i, j));
    }
  }

  // What every successful turn of the loop keeps holds after the loop.
  lemma {:induction false} LoopKeeps(nodes: Nodes, t: Tunnel, rows: seq<Row>, limiter: Option<string>, luck: SyncLuck, i: nat, keeps: (Nodes, nat) -> bool)
    requires i <= |rows| && keeps(nodes, i) && SyncRows(Answer, nodes, t, rows, limiter, luck, i).failure.None?
    requires forall n, k: nat :: k < |rows| && keeps(n, k) && SyncRow(Answer, n, t, rows[k], limiter, Turn(luck, k)).failure.None? ==>
               keeps(SyncRow(Answer, n, t, rows[k], limiter, Turn(luck, k)).nodes, k + 1)
    ensures keeps(SyncRows(Answer, nodes, t, rows, limiter, luck, i).nodes, |rows|)
    decreases |rows| - i
  {
    if i < |rows| { LoopKeeps(SyncRow(Answer, nodes, t, rows[i], limiter, Turn(luck, i)).nodes, t, rows, limiter, luck, i + 1, keeps); }
  }

  lemma SyncRowsShow(nodes: Nodes, t: Tunnel, rows: seq<Row>, limiter: Option<string>, luck: SyncLuck, j: nat, id: nat, m: Marks)
    requires OneRowEach(rows) && j < |rows| && rows[j].forward.id == id && Shows(nodes, id, m)
    requires SyncRows(Answer, nodes, t, rows, limiter, luck, 0).failure.None?
    ensures Shows(SyncRows(Answer, nodes, t, rows, limiter, luck, 0).nodes, id, Synced(m, t, Name(rows[j])))
  {
    var keeps := (n: Nodes, k: nat) => Shows(n, id, Before(m, t, rows, k, j));
    forall n, k: nat | k < |rows| && keeps(n, k) && SyncRow(Answer, n, t, rows[k], limiter, Turn(luck, k)).failure.None?
      ensures keeps(SyncRow(Answer, n, t, rows[k], limiter, Turn(luck, k)).nodes, k + 1)
    {
      NextRowShows(n, t, rows, limiter, luck, k, j, id, m);
    }
    LoopKeeps(nodes, t, rows, limiter, luck, 0, keeps);
  }

  lemma SyncTunnelShows(nodes: Nodes, t: Tunnel, rows: seq<Row>, luck: SyncLuck, j: nat, id: nat, m: Marks)
    requires Shows(nodes, id, m) && OneRowEach(rows) && j < |rows| && rows[j].forward.id == id
    requires SyncTunnel(Answer, nodes, t, rows, luck).failure.None?
    ensures Shows(SyncTunnel(Answer, nodes, t, rows, luck).nodes, id, Synced(m, t, Name(rows[j])))
    ensures TrafficNode(t) in SyncTunnel(Answer, nodes, t, rows, luck).nodes
  {
    var l := EnsureLimiters(Answer, nodes, t);
    LimitersOnNodes(nodes, t);
    LimitedShows(nodes, l.nodes, id, m);
    SyncRowsShow(l.nodes, t, rows, l.name, luck, j, id, m);
    SyncRowsOnline(l.nodes, t, rows, l.name, luck, 0, j);
  }

  lemma SyncRowOnline(nodes: Nodes, t: Tunnel, row: Row, limiter: Option<string>, luck: nat -> Parses)
    ensures SyncRow(Answer, nodes, t, row, limiter, luck).nodes.Keys == nodes.Keys
    ensures SyncRow(Answer, nodes, t, row, limiter, luck).failure.None? ==> TrafficNode(t) in nodes
  {
  }

  lemma {:induction false} SyncRowsOnline(nodes: Nodes, t: Tunnel, rows: seq<Row>, limiter: Option<string>, luck: SyncLuck, i: nat, j: nat)
    requires j < |rows| && SyncRows(Answer, nodes, t, rows, limiter, luck, i).failure.None?
    ensures SyncRows(Answer, nodes, t, rows, limiter, luck, i).nodes.Keys == nodes.Keys
    ensures i <= j ==> TrafficNode(t) in nodes
    decreases |rows| - i
  {
    if i < |rows| {
      SyncRowOnline(nodes, t, rows[i], limiter, Turn(luck, i));
      SyncRowsOnline(SyncRow(Answer, nodes, t, rows[i], limiter, Turn(luck, i)).nodes, t, rows, limiter, luck, i + 1, j);
    }
  }

  // ---- deletion ----

  // The tunnel's protocol at the synchronisation against that at creation.
  predicate FitsSynced(t: Tunnel, u: Tunnel) {
    if t.kind.Reverse? then !AsksTooMuch(u) else u.protocol == "anytls" ==> t.protocol == "anytls"
  }

  lemma SyncedHas(t: Tunnel, u: Tunnel, name: string, now: string, k: int, x: string)
    requires SameRoute(t, u)
    ensures (k, x) in Synced(Made(t, name), u, now).services <==>
            || (k, x) in Made(u, now).services
            || ((k, x) in Made(t, name).services && !(u.kind.Reverse? && u.protocol != "quic" && k == u.outNode && x == now + "_udp"))
    ensures (k, x) in Synced(Made(t, name), u, now).chains <==> (k, x) in Made(u, now).chains || (k, x) in Made(t, name).chains
  {
    ClearedOne(Made(t, name), u.outNode, now + "_udp", k, x);
  }

  lemma KeepsBoth(nodes: Nodes, t: Tunnel, u: Tunnel, name: string, now: string, later: string, stays: string, id: nat)
    requires SameRoute(t, u) && TrafficNode(t) in nodes && stays in {name, now} && stays != later && stays != Decimal(id)
    requires IsNameOf(name, id) && IsNameOf(now, id)
    ensures !Covered(nodes, Synced(Made(t, name), u, now), u, later, id)
  {
    var k, x, m := TrafficNode(t), stays + "_tcp", Synced(Made(t, name), u, now);
    SuffixedIsMine(stays, id, "_tcp");
    SyncedHas(t, u, name, now, k, x);
    MadeHas(t, name, k, x);
    MadeHas(u, now, k, x);
    NotUdp(stays, now);
    NotAsked(m, u, stays, later, k, "_tcp");
    NotAsked(m, u, stays, Decimal(id), k, "_tcp");
    assert k in nodes && Mine(x, id);
  }

  lemma NotUdp(a: string, b: string)
    ensures a + "_tcp" != b + "_udp"
  {
    if |a| == |b| { assert (a + "_tcp")[|a| + 1] == 't' && (b + "_udp")[|a| + 1] == 'u'; }
  }

  lemma SyncedFits(nodes: Nodes, t: Tunnel, u: Tunnel, name: string, id: nat)
    requires SameRoute(t, u) && FitsSynced(t, u)
    ensures Covered(nodes, Synced(Made(t, name), u, name), u, name, id)
  {
    var m, list := Synced(Made(t, name), u, name), TransportNames(name, u.protocol);
    Suffixes(name);
    forall k, x | k in nodes && Mine(x, id)
      ensures (k, x) in m.services ==> Asked(m, u, name, k, x)
      ensures (k, x) in m.chains ==> AskedChain(u, name, k, x)
    {
      SyncedHas(t, u, name, name, k, x);
      MadeHas(t, name, k, x);
      MadeHas(u, name, k, x);
      ListIsSynced(t, u, name);
    }
  }

  lemma ListIsSynced(t: Tunnel, u: Tunnel, name: string)
    requires SameRoute(t, u) && FitsSynced(t, u)
    ensures On(TrafficNode(u), TransportNames(name, u.protocol)) <= Synced(Made(t, name), u, name).services
  {
    forall x | x in TransportNames(name, u.protocol) ensures (TrafficNode(u), x) in Synced(Made(t, name), u, name).services {
      SyncedHas(t, u, name, name, TrafficNode(u), x);
      MadeHas(u, name, TrafficNode(u), x);
    }
  }

  lemma SyncedMisfit(nodes: Nodes, t: Tunnel, u: Tunnel, name: string, id: nat)
    requires SameRoute(t, u) && TrafficNode(t) in nodes && IsNameOf(name, id) && name != Decimal(id) && !FitsSynced(t, u)
    ensures !Covered(nodes, Synced(Made(t, name), u, name), u, name, id)
  {
    var k, m := TrafficNode(t), Synced(Made(t, name), u, name);
    var s := if t.kind.Reverse? then "_tcp" else "_udp";
    Suffixes(name);
    SuffixedIsMine(name, id, s);
    SyncedHas(t, u, name, name, k, name + "_tcp");
    SyncedHas(t, u, name, name, k, name + "_udp");
    MadeHas(t, name, k, name + "_tcp");
    MadeHas(u, name, k, name + "_tcp");
    MadeHas(t, name, k, name + "_udp");
    MadeHas(u, name, k, name + "_udp");
    NotAsked(m, u, name, Decimal(id), k, s);
    if t.kind.Reverse? {
      assert (k, name + "_udp") in On(k, TransportNames(name, u.protocol)) && (k, name + "_udp") !in m.services;
    }
    assert k in nodes && Mine(name + s, id) && (k, name + s) in m.services && !Asked(m, u, name, k, name + s);
  }

  // A forward that stands on its nodes as creation made it is synchronised with its tunnel,
  // whose protocol may have changed, and then deleted. Nothing of it is left on any node that is
  // online exactly when creation, synchronisation and deletion used one name and the protocols
  // fit: a synchronisation adds a missing UDP service, but drops one only on reverse tunnels.
  lemma SyncThenDeleteExactly(nodes: Nodes, t: Tunnel, u: Tunnel, name: string, rows: seq<Row>, luck: SyncLuck, j: nat, id: nat, later: string)
    requires Shows(nodes, id, Made(t, name)) && SameRoute(t, u) && IsNameOf(name, id) && name != Decimal(id)
    requires OneRowEach(rows) && j < |rows| && rows[j].forward.id == id && SyncTunnel(Answer, nodes, u, rows, luck).failure.None?
    requires Base(later) && IsNameOf(later, id) && later != Decimal(id)
    ensures NoneLeft(Fleet.DeleteForward(SyncTunnel(Answer, nodes, u, rows, luck).nodes, u, id, later), id) <==>
            name == Name(rows[j]) == later && FitsSynced(t, u)
  {
    var now, synced := Name(rows[j]), SyncTunnel(Answer, nodes, u, rows, luck).nodes;
    var m := Synced(Made(t, name), u, now);
    NameIsNameOf(id, rows[j].forward.owner, rows[j].relation);
    NamesDiffer(id, rows[j].forward.owner, rows[j].relation, 0);
    SyncTunnelShows(nodes, u, rows, luck, j, id, Made(t, name));
    DeletionClearsExactly(synced, u, later, id, m);
    if name != later {
      KeepsBoth(synced, t, u, name, now, later, name, id);
    } else if now != later {
      KeepsBoth(synced, t, u, name, now, later, now, id);
    } else if FitsSynced(t, u) {
      SyncedFits(synced, t, u, name, id);
    } else {
      SyncedMisfit(synced, t, u, name, id);
    }
  }
}
