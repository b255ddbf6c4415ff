/** When a synchronisation or a replay succeeds, and what it has done when it does not
    (ForwardOperations.SyncTunnelAsync, SyncTunnelForNodeAsync). */
module ReplayOutcome {
  import opened Text
  import opened Settings
  import opened AgentTables
  import opened AgentReplay
  import opened Protocol
  import opened Fleet
  import opened Replay
  import opened Removal
  import opened SyncedRemoval
  import opened Wiring
  import opened Provisioning
  import opened SyncedWiring
  import Chains = AgentChains

  // ---- what has to parse ----

  // The services of the first command for a row.
  predicate FirstParse(t: Tunnel, p: Parses) { p(0) && (!t.kind.Reverse? && t.protocol != "anytls" ==> p(1)) }

  predicate ReversePart(t: Tunnel, p: Parses) { p(0) && (t.protocol == "quic" ==> p(1)) }

  // Every service and chain that one node receives for a row.
  predicate RowParsesOn(t: Tunnel, luck: nat -> Parses, id: int) {
    && (t.kind.Direct? || id == t.inNode ==> FirstParse(t, luck(0)))
    && (t.kind.Relay? && id == t.outNode ==> luck(1)(0))
    && (t.kind.Relay? && id == t.inNode ==> luck(2)(0))
    && (t.kind.Reverse? && id == t.outNode ==> luck(2)(0) && ReversePart(t, luck(1)))
  }

  predicate RowParses(t: Tunnel, luck: nat -> Parses) { RowParsesOn(t, luck, t.inNode) && RowParsesOn(t, luck, t.outNode) }

  predicate AllNamed(data: seq<ServiceConfig>) { data != [] && forall j :: 0 <= j < |data| ==> Trim(data[j].name) != "" }

  // Agents that take a named configuration exactly when it parses.
  ghost predicate TakesWhatParses(answer: Behaviour) {
    forall n: Node, r: Request, p: Parses :: Takes(answer(n, r, p), r, p)
  }

  predicate Takes(reply: NodeReply, r: Request, p: Parses) {
    match r
    case SyncServices(data) => AllNamed(data) ==> (reply.failure.None? <==> forall j :: 0 <= j < |data| ==> p(j))
    case SyncChain(c) => Trim(c.name) != "" ==> (reply.failure.None? <==> p(0))
    case _ => true
  }

  lemma ServicesTaken(n: Node, data: seq<ServiceConfig>, p: Parses)
    requires AllNamed(data)
    ensures Answer(n, SyncServices(data), p).failure.None? <==> forall j :: 0 <= j < |data| ==> p(j)
  {
    SyncSucceedsExactly(n.agent, data, p);
    assert Answer(n, SyncServices(data), p).failure.None? <==> Sync(n.agent, data, p).error.None?;
  }

  lemma ChainTaken(n: Node, c: Chains.Entry, p: Parses)
    requires Trim(c.name) != ""
    ensures Answer(n, SyncChain(c), p).failure.None? <==> p(0)
  {
    assert Chains.Sync(n.chains, c, p(0)).error.None? <==> p(0);
  }

  lemma AgentsTakeWhatParses()
    ensures TakesWhatParses(Answer)
  {
    forall n: Node, r: Request, p: Parses ensures Takes(Answer(n, r, p), r, p) {
      if r.SyncServices? && AllNamed(r.data) { ServicesTaken(n, r.data, p); }
      if r.SyncChain? && Trim(r.chain.name) != "" { ChainTaken(n, r.chain, p); }
    }
  }

  // ---- the requests for a row ----

  lemma NamedByTrim(data: seq<ServiceConfig>, names: seq<string>)
    requires TrimAll(NamesOf(data)) == names != [] && forall j :: 0 <= j < |names| ==> names[j] != ""
    ensures AllNamed(data) && |data| == |names|
  {
    forall j | 0 <= j < |data| ensures Trim(data[j].name) != "" { assert TrimAll(NamesOf(data))[j] == names[j]; }
  }

  lemma FirstNamed(t: Tunnel, row: Row, limiter: Option<string>)
    ensures var data := FirstServices(t, row.forward, Name(row), limiter);
            AllNamed(data) && |data| == if !t.kind.Reverse? && t.protocol != "anytls" then 2 else 1
  {
    var name, data := Name(row), FirstServices(t, row.forward, Name(row), limiter);
    ServiceNameIsBase(row.forward.id, row.forward.owner, row.relation);
    FirstNames(t, row.forward, name, limiter);
    NamedByTrim(data, if t.kind.Reverse? then [name + "_relay"] else MadeNames(t, name));
  }

  lemma FirstTaken(answer: Behaviour, n: Node, t: Tunnel, row: Row, limiter: Option<string>, p: Parses)
    requires TakesWhatParses(answer)
    ensures answer(n, EntryRequest(t, row, limiter), p).failure.None? <==> FirstParse(t, p)
  {
    FirstNamed(t, row, limiter);
    TakenAsSent(answer, n, FirstServices(t, row.forward, Name(row), limiter), p);
  }

  lemma TakenAsSent(answer: Behaviour, n: Node, data: seq<ServiceConfig>, p: Parses)
    requires TakesWhatParses(answer) && AllNamed(data)
    ensures answer(n, SyncServices(data), p).failure.None? <==> forall j :: 0 <= j < |data| ==> p(j)
  {
    assert Takes(answer(n, SyncServices(data), p), SyncServices(data), p);
  }

  lemma RemoteTaken(answer: Behaviour, n: Node, t: Tunnel, row: Row, limiter: Option<string>, p: Parses)
    requires TakesWhatParses(answer)
    ensures answer(n, SyncServices([RemoteService(Name(row), t, row.forward, limiter)]), p).failure.None? <==> p(0)
  {
    var c := RemoteService(Name(row), t, row.forward, limiter);
    ServiceNameIsBase(row.forward.id, row.forward.owner, row.relation);
    NamesAreVisible(Name(row));
    assert c.name == Name(row) + "_tls";
    TakenAsSent(answer, n, [c], p);
  }

  lemma PrivateNamed(t: Tunnel, row: Row, limiter: Option<string>)
    ensures var data := ReverseServices(Name(row), t, row.forward, limiter);
            AllNamed(data) && |data| == if t.protocol == "quic" then 2 else 1
  {
    var name, data := Name(row), ReverseServices(Name(row), t, row.forward, limiter);
    ServiceNameIsBase(row.forward.id, row.forward.owner, row.relation);
    ReverseNames(name, t, row.forward, limiter);
    NamedByTrim(data, if t.protocol == "quic" then [name + "_tcp", name + "_udp"] else [name + "_tcp"]);
  }

  lemma PrivateTaken(answer: Behaviour, n: Node, t: Tunnel, row: Row, limiter: Option<string>, p: Parses)
    requires TakesWhatParses(answer)
    ensures answer(n, SyncServices(ReverseServices(Name(row), t, row.forward, limiter)), p).failure.None? <==> ReversePart(t, p)
  {
    PrivateNamed(t, row, limiter);
    TakenAsSent(answer, n, ReverseServices(Name(row), t, row.forward, limiter), p);
  }

  lemma RowChainTaken(answer: Behaviour, n: Node, t: Tunnel, row: Row, p: Parses)
    requires TakesWhatParses(answer)
    ensures answer(n, SyncChain(Chain(Name(row), t, row.forward)), p).failure.None? <==> p(0)
  {
    ServiceNameIsBase(row.forward.id, row.forward.owner, row.relation);
    NamesAreVisible(Name(row));
  }

  // ---- one row ----

  lemma RelaySucceeds(answer: Behaviour, nodes: Nodes, t: Tunnel, row: Row, limiter: Option<string>, luck: nat -> Parses)
    requires TakesWhatParses(answer) && t.inNode in nodes && t.outNode in nodes
    ensures var remote := Ask(answer, nodes, t.outNode, SyncServices([RemoteService(Name(row), t, row.forward, limiter)]), luck(1));
            var chain := Ask(answer, remote.nodes, t.inNode, SyncChain(Chain(Name(row), t, row.forward)), luck(2));
            && (remote.failure.None? <==> luck(1)(0)) && (chain.failure.None? <==> luck(2)(0)) && chain.nodes.Keys == remote.nodes.Keys == nodes.Keys
  {
    var request := SyncServices([RemoteService(Name(row), t, row.forward, limiter)]);
    RemoteTaken(answer, nodes[t.outNode], t, row, limiter, luck(1));
    RowChainTaken(answer, Ask(answer, nodes, t.outNode, request, luck(1)).nodes[t.inNode], t, row, luck(2));
  }

  lemma ReverseSucceeds(answer: Behaviour, nodes: Nodes, t: Tunnel, row: Row, limiter: Option<string>, luck: nat -> Parses)
    requires TakesWhatParses(answer) && t.outNode in nodes
    ensures var chain := Ask(answer, DropUdp(answer, nodes, t, row, t.outNode), t.outNode, SyncChain(Chain(Name(row), t, row.forward)), luck(2));
            var reverse := Ask(answer, chain.nodes, t.outNode, SyncServices(ReverseServices(Name(row), t, row.forward, limiter)), luck(1));
            && (chain.failure.None? <==> luck(2)(0)) && (reverse.failure.None? <==> ReversePart(t, luck(1))) && reverse.nodes.Keys == chain.nodes.Keys == nodes.Keys
  {
    var dropped := DropUdp(answer, nodes, t, row, t.outNode);
    RowChainTaken(answer, dropped[t.outNode], t, row, luck(2));
    PrivateTaken(answer, Ask(answer, dropped, t.outNode, SyncChain(Chain(Name(row), t, row.forward)), luck(2)).nodes[t.outNode], t, row, limiter, luck(1));
  }

  lemma RowSucceedsExactly(answer: Behaviour, nodes: Nodes, t: Tunnel, row: Row, limiter: Option<string>, luck: nat -> Parses)
    requires TakesWhatParses(answer) && WellPlaced(t) && t.inNode in nodes && t.outNode in nodes
    ensures var r := SyncRow(answer, nodes, t, row, limiter, luck);
            r.nodes.Keys == nodes.Keys && (r.failure.None? <==> RowParses(t, luck))
  {
    var entry := Ask(answer, nodes, t.inNode, EntryRequest(t, row, limiter), luck(0));
    FirstTaken(answer, nodes[t.inNode], t, row, limiter, luck(0));
    RelaySucceeds(answer, entry.nodes, t, row, limiter, luck);
    ReverseSucceeds(answer, entry.nodes, t, row, limiter, luck);
  }

  lemma RowSucceedsOn(answer: Behaviour, nodes: Nodes, t: Tunnel, row: Row, limiter: Option<string>, luck: nat -> Parses, id: int)
    requires TakesWhatParses(answer) && WellPlaced(t) && id in {t.inNode, t.outNode} && id in nodes
    ensures var r := SyncRowFor(answer, nodes, t, row, limiter, luck, id);
            r.nodes.Keys == nodes.Keys && (r.failure.None? <==> RowParsesOn(t, luck, id))
  {
    var entry := Ask(answer, nodes, id, EntryRequest(t, row, limiter), luck(0));
    FirstTaken(answer, nodes[id], t, row, limiter, luck(0));
    RemoteTaken(answer, nodes[id], t, row, limiter, luck(1));
    RowChainTaken(answer, entry.nodes[id], t, row, luck(2));
    if t.kind.Reverse? && id == t.outNode {
      ReverseSucceeds(answer, nodes, t, row, limiter, luck);
      ReverseSucceeds(answer, entry.nodes, t, row, limiter, luck);
    }
  }

  // ---- all rows ----

  predicate ParseFrom(t: Tunnel, luck: SyncLuck, n: nat, i: nat) { forall j: nat :: i <= j < n ==> RowParses(t, Turn(luck, j)) }

  predicate ParseFromOn(t: Tunnel, luck: SyncLuck, n: nat, i: nat, id: int) { forall j: nat :: i <= j < n ==> RowParsesOn(t, Turn(luck, j), id) }

  lemma ParseNext(t: Tunnel, luck: SyncLuck, n: nat, i: nat, id: int)
    requires i < n
    ensures ParseFrom(t, luck, n, i) <==> RowParses(t, Turn(luck, i)) && ParseFrom(t, luck, n, i + 1)
    ensures ParseFromOn(t, luck, n, i, id) <==> RowParsesOn(t, Turn(luck, i), id) && ParseFromOn(t, luck, n, i + 1, id)
  {
  }

  lemma LoopNext(answer: Behaviour, nodes: Nodes, t: Tunnel, rows: seq<Row>, limiter: Option<string>, luck: SyncLuck, i: nat, r: Reply)
    requires i < |rows| && r == SyncRow(answer, nodes, t, rows[i], limiter, Turn(luck, i))
    ensures SyncRows(answer, nodes, t, rows, limiter, luck, i) == if r.failure.Some? then r else SyncRows(answer, r.nodes, t, rows, limiter, luck, i + 1)
  {
  }

  lemma LoopNextOn(answer: Behaviour, nodes: Nodes, t: Tunnel, rows: seq<Row>, limiter: Option<string>, luck: SyncLuck, id: int, i: nat, r: Reply)
    requires i < |rows| && r == SyncRowFor(answer, nodes, t, rows[i], limiter, Turn(luck, i), id)
    ensures SyncRowsFor(answer, nodes, t, rows, limiter, luck, id, i) == if r.failure.Some? then r else SyncRowsFor(answer, r.nodes, t, rows, limiter, luck, id, i + 1)
  {
  }

  lemma {:induction false} RowsSucceedExactly(answer: Behaviour, nodes: Nodes, t: Tunnel, rows: seq<Row>, limiter: Option<string>, luck: SyncLuck, i: nat)
    requires TakesWhatParses(answer) && WellPlaced(t) && t.inNode in nodes && t.outNode in nodes && i <= |rows|
    ensures SyncRows(answer, nodes, t, rows, limiter, luck, i).failure.None? <==> ParseFrom(t, luck, |rows|, i)
    decreases |rows| - i
  {
    if i < |rows| {
      var r := SyncRow(answer, nodes, t, rows[i], limiter, Turn(luck, i));
      RowSucceedsExactly(answer, nodes, t, rows[i], limiter, Turn(luck, i));
      RestSucceedsExactly(answer, nodes, t, rows, limiter, luck, i, r);
    }
  }

  lemma {:induction false} RestSucceedsExactly(answer: Behaviour, nodes: Nodes, t: Tunnel, rows: seq<Row>, limiter: Option<string>, luck: SyncLuck, i: nat, r: Reply)
    requires TakesWhatParses(answer) && WellPlaced(t) && t.inNode in nodes && t.outNode in nodes && i < |rows|
    requires r == SyncRow(answer, nodes, t, rows[i], limiter, Turn(luck, i))
    requires r.nodes.Keys == nodes.Keys && (r.failure.None? <==> RowParses(t, Turn(luck, i)))
    ensures SyncRows(answer, nodes, t, rows, limiter, luck, i).failure.None? <==> ParseFrom(t, luck, |rows|, i)
    decreases |rows| - i, 0
  {
    LoopNext(answer, nodes, t, rows, limiter, luck, i, r);
    ParseNext(t, luck, |rows|, i, t.inNode);
    if r.failure.None? { RowsSucceedExactly(answer, r.nodes, t, rows, limiter, luck, i + 1); }
  }

  lemma {:induction false} RowsSucceedOn(answer: Behaviour, nodes: Nodes, t: Tunnel, rows: seq<Row>, limiter: Option<string>, luck: SyncLuck, id: int, i: nat)
    requires TakesWhatParses(answer) && WellPlaced(t) && id in {t.inNode, t.outNode} && id in nodes && i <= |rows|
    ensures SyncRowsFor(answer, nodes, t, rows, limiter, luck, id, i).failure.None? <==> ParseFromOn(t, luck, |rows|, i, id)
    decreases |rows| - i
  {
    if i < |rows| {
      var r := SyncRowFor(answer, nodes, t, rows[i], limiter, Turn(luck, i), id);
      RowSucceedsOn(answer, nodes, t, rows[i], limiter, Turn(luck, i), id);
      RestSucceedsOn(answer, nodes, t, rows, limiter, luck, id, i, r);
    }
  }

  lemma {:induction false} RestSucceedsOn(answer: Behaviour, nodes: Nodes, t: Tunnel, rows: seq<Row>, limiter: Option<string>, luck: SyncLuck, id: int, i: nat, r: Reply)
    requires TakesWhatParses(answer) && WellPlaced(t) && id in {t.inNode, t.outNode} && id in nodes && i < |rows|
    requires r == SyncRowFor(answer, nodes, t, rows[i], limiter, Turn(luck, i), id)
    requires r.nodes.Keys == nodes.Keys && (r.failure.None? <==> RowParsesOn(t, Turn(luck, i), id))
    ensures SyncRowsFor(answer, nodes, t, rows, limiter, luck, id, i).failure.None? <==> ParseFromOn(t, luck, |rows|, i, id)
    decreases |rows| - i, 0
  {
    LoopNextOn(answer, nodes, t, rows, limiter, luck, id, i, r);
    ParseNext(t, luck, |rows|, i, id);
    if r.failure.None? { RowsSucceedOn(answer, r.nodes, t, rows, limiter, luck, id, i + 1); }
  }

  // A synchronisation with its nodes online succeeds exactly when every service and chain that
  // it sends for any of the forwards parses.
  lemma SynchronisationSucceedsExactly(nodes: Nodes, t: Tunnel, rows: seq<Row>, luck: SyncLuck)
    requires WellPlaced(t) && t.inNode in nodes && t.outNode in nodes
    ensures SyncTunnel(Answer, nodes, t, rows, luck).failure.None? <==> forall j: nat :: j < |rows| ==> RowParses(t, Turn(luck, j))
  {
    var l := EnsureLimiters(Answer, nodes, t);
    LimitersOnNodes(nodes, t);
    AgentsTakeWhatParses();
    RowsSucceedExactly(Answer, l.nodes, t, rows, l.name, luck, 0);
  }

  // The replay for one node that is online succeeds exactly when what is for this node parses;
  // the other node may be offline.
  lemma ReplaySucceedsExactly(nodes: Nodes, t: Tunnel, rows: seq<Row>, luck: SyncLuck, id: int)
    requires WellPlaced(t) && id in {t.inNode, t.outNode} && id in nodes
    ensures SyncTunnelFor(Answer, nodes, t, rows, luck, id).failure.None? <==> forall j: nat :: j < |rows| ==> RowParsesOn(t, Turn(luck, j), id)
  {
    var l := EnsureLimiterFor(Answer, nodes, t, id);
    LimiterOnNode(nodes[id], t);
    AgentsTakeWhatParses();
    RowsSucceedOn(Answer, l.nodes, t, rows, l.name, luck, id, 0);
  }

  // So replaying both nodes succeeds exactly when the synchronisation does.
  lemma BothReplaysSucceedExactly(nodes: Nodes, t: Tunnel, rows: seq<Row>, luck: SyncLuck)
    requires WellPlaced(t) && t.inNode in nodes && t.outNode in nodes
    ensures SyncTunnel(Answer, nodes, t, rows, luck).failure.None? <==>
            SyncTunnelFor(Answer, nodes, t, rows, luck, t.inNode).failure.None? && SyncTunnelFor(Answer, nodes, t, rows, luck, t.outNode).failure.None?
  {
    SynchronisationSucceedsExactly(nodes, t, rows, luck);
    ReplaySucceedsExactly(nodes, t, rows, luck, t.inNode);
    ReplaySucceedsExactly(nodes, t, rows, luck, t.outNode);
  }

  // With a node of the tunnel offline and any forward to synchronise, it fails.
  lemma OfflineFails(nodes: Nodes, t: Tunnel, rows: seq<Row>, luck: SyncLuck)
    requires rows != [] && (t.inNode !in nodes || (!t.kind.Direct? && t.outNode !in nodes))
    ensures SyncTunnel(Answer, nodes, t, rows, luck).failure.Some?
  {
    var l := EnsureLimiters(Answer, nodes, t);
    LimitersOnNodes(nodes, t);
    if l.failure.None? { OfflineRowFails(Answer, l.nodes, t, rows[0], l.name, Turn(luck, 0)); }
  }

  lemma OfflineRowFails(answer: Behaviour, nodes: Nodes, t: Tunnel, row: Row, limiter: Option<string>, luck: nat -> Parses)
    requires t.inNode !in nodes || (!t.kind.Direct? && t.outNode !in nodes)
    ensures SyncRow(answer, nodes, t, row, limiter, luck).failure.Some?
  {
  }

  // ---- a failure ----

  // The forwards before the k-th are wired, and nothing is said anew about those after it.
  ghost predicate StoppedAt(start: Nodes, nodes: Nodes, t: Tunnel, rows: seq<Row>, limiter: Option<string>, k: nat) {
    && nodes.Keys == start.Keys
    && (forall j :: 0 <= j < k && j < |rows| ==> Wired(nodes, t, rows[j].forward, Name(rows[j]), limiter))
    && (forall j, n :: k < j < |rows| && n in start ==> SameReadings(nodes[n], start[n], Name(rows[j])))
  }

  lemma StoppedAtRow(nodes: Nodes, t: Tunnel, rows: seq<Row>, limiter: Option<string>, luck: nat -> Parses, k: nat)
    requires WellPlaced(t) && OneRowEach(rows) && k < |rows| && WiredUpTo(nodes, t, rows, limiter, k)
    ensures StoppedAt(nodes, SyncRow(Answer, nodes, t, rows[k], limiter, luck).nodes, t, rows, limiter, k)
  {
    var after := SyncRow(Answer, nodes, t, rows[k], limiter, luck).nodes;
    AnswersLeaveKeys(nodes, t, rows[k], limiter, luck);
    forall j | 0 <= j < k ensures Wired(after, t, rows[j].forward, Name(rows[j]), limiter) {
      OtherRowStaysWired(nodes, t, rows[k], rows[j], limiter, luck);
    }
    forall j, n | k < j < |rows| && n in nodes ensures SameReadings(after[n], nodes[n], Name(rows[j])) {
      OtherReadings(nodes, t, rows[k], rows[j], limiter, luck, n);
    }
  }

  lemma AnswersLeaveKeys(nodes: Nodes, t: Tunnel, row: Row, limiter: Option<string>, luck: nat -> Parses)
    ensures SyncRow(Answer, nodes, t, row, limiter, luck).nodes.Keys == nodes.Keys
  {
  }

  lemma StoppedLater(start: Nodes, next: Nodes, nodes: Nodes, t: Tunnel, rows: seq<Row>, limiter: Option<string>, i: nat, k: nat)
    requires i < k && StoppedAt(start, next, t, rows, limiter, i) && StoppedAt(next, nodes, t, rows, limiter, k)
    ensures StoppedAt(start, nodes, t, rows, limiter, k)
  {
  }

  lemma {:induction false} FailedRowsStop(nodes: Nodes, t: Tunnel, rows: seq<Row>, limiter: Option<string>, luck: SyncLuck, i: nat, k: nat)
    requires WellPlaced(t) && OneRowEach(rows) && i <= k < |rows| && WiredUpTo(nodes, t, rows, limiter, i) && t.inNode in nodes && t.outNode in nodes
    requires (forall j: nat :: i <= j < k ==> RowParses(t, Turn(luck, j))) && !RowParses(t, Turn(luck, k))
    ensures StoppedAt(nodes, SyncRows(Answer, nodes, t, rows, limiter, luck, i).nodes, t, rows, limiter, k)
    decreases k - i
  {
    var r := SyncRow(Answer, nodes, t, rows[i], limiter, Turn(luck, i));
    AgentsTakeWhatParses();
    RowSucceedsExactly(Answer, nodes, t, rows[i], limiter, Turn(luck, i));
    StoppedAtRow(nodes, t, rows, limiter, Turn(luck, i), i);
    if i < k {
      TurnWires(nodes, t, rows, limiter, Turn(luck, i), i, r);
      FailedRowsStop(r.nodes, t, rows, limiter, luck, i + 1, k);
      StoppedLater(nodes, r.nodes, SyncRows(Answer, r.nodes, t, rows, limiter, luck, i + 1).nodes, t, rows, limiter, i, k);
    }
  }

  // A synchronisation that fails at a forward has wired those before it, and found under the
  // names of those after it is what was there before.
  lemma FailedSynchronisationStops(nodes: Nodes, t: Tunnel, rows: seq<Row>, luck: SyncLuck, k: nat)
    requires WellPlaced(t) && OneRowEach(rows) && k < |rows| && t.inNode in nodes && t.outNode in nodes
    requires forall j :: 0 <= j < |rows| ==> AllAligned(nodes, Name(rows[j]))
    requires (forall j: nat :: j < k ==> RowParses(t, Turn(luck, j))) && !RowParses(t, Turn(luck, k))
    ensures StoppedAt(nodes, SyncTunnel(Answer, nodes, t, rows, luck).nodes, t, rows, EnsureLimiters(Answer, nodes, t).name, k)
  {
    var l := EnsureLimiters(Answer, nodes, t);
    LimitersOnNodes(nodes, t);
    forall j | 0 <= j < |rows| ensures AllAligned(l.nodes, Name(rows[j])) { LimitedAligned(nodes, l.nodes, Name(rows[j])); }
    FailedRowsStop(l.nodes, t, rows, l.name, luck, 0, k);
    StartOfLimited(nodes, l.nodes, SyncTunnel(Answer, nodes, t, rows, luck).nodes, t, rows, l.name, k);
  }

  lemma StartOfLimited(nodes: Nodes, limited: Nodes, after: Nodes, t: Tunnel, rows: seq<Row>, limiter: Option<string>, k: nat)
    requires StoppedAt(limited, after, t, rows, limiter, k) && limited.Keys == nodes.Keys
    requires forall n :: n in nodes ==> limited[n].agent == nodes[n].agent && limited[n].chains == nodes[n].chains
    ensures StoppedAt(nodes, after, t, rows, limiter, k)
  {
  }
}
