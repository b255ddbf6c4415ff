/** Replaying a tunnel: one full synchronisation against one replay per connecting node
    (ForwardOperations.SyncTunnelAsync, SyncTunnelForNodeAsync).

    The agents are a parameter: `answer` is any behaviour in which a node's reply and new
    state depend on that node's own state and the request. */
module Replay {
  import opened Text
  import opened AgentTables
  import opened Protocol
  import opened Fleet
  import Chains = AgentChains

  type Behaviour = (Node, Request, Parses) -> NodeReply

  datatype Row = Row(forward: Forward, relation: nat)

  // Whether the configurations sent for a row in a given step parse.
  type SyncLuck = (nat, nat) -> Parses

  function Turn(luck: SyncLuck, i: nat): nat -> Parses { k => luck(i, k) }

  datatype Limiting = Limiting(name: Option<string>, failure: Option<Failure>, nodes: Nodes)

  function Name(row: Row): string { ServiceName(row.forward.id, row.forward.owner, row.relation) }

  function Ask(answer: Behaviour, nodes: Nodes, id: int, r: Request, parses: Parses): Reply {
    if id !in nodes then Reply(Some(Offline), nodes)
    else
      var reply := answer(nodes[id], r, parses);
      Reply(reply.failure, nodes[id := reply.node])
  }

  // EnsureTunnelLimiterAsync: the second node's failure is reported first.
  function EnsureLimiters(answer: Behaviour, nodes: Nodes, t: Tunnel): Limiting {
    if t.speedKbps <= 0 then Limiting(None, None, nodes)
    else
      var entry := Ask(answer, nodes, t.inNode, EnsureLimiter(Limiter(t)), ALL_PARSE);
      var exit := if t.kind.Direct? then Reply(None, entry.nodes) else Ask(answer, entry.nodes, t.outNode, EnsureLimiter(Limiter(t)), ALL_PARSE);
      if exit.failure.Some? then Limiting(None, exit.failure, exit.nodes)
      else if entry.failure.Some? then Limiting(None, entry.failure, exit.nodes)
      else Limiting(Some(LimiterName(t)), None, exit.nodes)
  }

  function EnsureLimiterFor(answer: Behaviour, nodes: Nodes, t: Tunnel, id: int): Limiting {
    if t.speedKbps <= 0 then Limiting(None, None, nodes)
    else
      var r := Ask(answer, nodes, id, EnsureLimiter(Limiter(t)), ALL_PARSE);
      if r.failure.Some? then Limiting(None, r.failure, r.nodes) else Limiting(Some(LimiterName(t)), None, r.nodes)
  }

  function EntryRequest(t: Tunnel, row: Row, limiter: Option<string>): Request {
    SyncServices(FirstServices(t, row.forward, Name(row), limiter))
  }

  // Only QUIC reverse tunnels have a UDP service; a leftover one is deleted, the reply ignored.
  function DropUdp(answer: Behaviour, nodes: Nodes, t: Tunnel, row: Row, id: int): Nodes {
    if t.protocol != "quic" then Ask(answer, nodes, id, DeleteServices([Name(row) + "_udp"]), ALL_PARSE).nodes else nodes
  }

  // One turn of the loop of SyncTunnelAsync.
  function SyncRow(answer: Behaviour, nodes: Nodes, t: Tunnel, row: Row, limiter: Option<string>, luck: nat -> Parses): Reply {
    var entry := Ask(answer, nodes, t.inNode, EntryRequest(t, row, limiter), luck(0));
    if entry.failure.Some? then entry
    else match t.kind
      case Direct => entry
      case Relay =>
        var remote := Ask(answer, entry.nodes, t.outNode, SyncServices([RemoteService(Name(row), t, row.forward, limiter)]), luck(1));
        if remote.failure.Some? then remote
        else Ask(answer, remote.nodes, t.inNode, SyncChain(Chain(Name(row), t, row.forward)), luck(2))
      case Reverse =>
        var dropped := DropUdp(answer, entry.nodes, t, row, t.outNode);
        var chain := Ask(answer, dropped, t.outNode, SyncChain(Chain(Name(row), t, row.forward)), luck(2));
        if chain.failure.Some? then chain
        else Ask(answer, chain.nodes, t.outNode, SyncServices(ReverseServices(Name(row), t, row.forward, limiter)), luck(1))
  }

  function SyncRows(answer: Behaviour, nodes: Nodes, t: Tunnel, rows: seq<Row>, limiter: Option<string>, luck: SyncLuck, i: nat): Reply
    decreases |rows| - i
  {
    if i >= |rows| then Reply(None, nodes)
    else
      var r := SyncRow(answer, nodes, t, rows[i], limiter, Turn(luck, i));
      if r.failure.Some? then r else SyncRows(answer, r.nodes, t, rows, limiter, luck, i + 1)
  }

  function SyncTunnel(answer: Behaviour, nodes: Nodes, t: Tunnel, rows: seq<Row>, luck: SyncLuck): Reply {
    var limiter := EnsureLimiters(answer, nodes, t);
    if limiter.failure.Some? then Reply(limiter.failure, limiter.nodes)
    else SyncRows(answer, limiter.nodes, t, rows, limiter.name, luck, 0)
  }

  // One turn of the loop of SyncTunnelForNodeAsync: four guarded steps in this order.
  function SyncRowFor(answer: Behaviour, nodes: Nodes, t: Tunnel, row: Row, limiter: Option<string>, luck: nat -> Parses, id: int): Reply {
    var isIn, isOut := id == t.inNode, id == t.outNode;
    var entry := if t.kind.Direct? || isIn then Ask(answer, nodes, id, EntryRequest(t, row, limiter), luck(0)) else Reply(None, nodes);
    if entry.failure.Some? then entry
    else
      var remote := if t.kind.Relay? && isOut then Ask(answer, entry.nodes, id, SyncServices([RemoteService(Name(row), t, row.forward, limiter)]), luck(1))
                    else Reply(None, entry.nodes);
      if remote.failure.Some? then remote
      else
        var chain := if t.kind.Relay? && isIn then Ask(answer, remote.nodes, id, SyncChain(Chain(Name(row), t, row.forward)), luck(2))
                     else Reply(None, remote.nodes);
        if chain.failure.Some? then chain
        else if t.kind.Reverse? && isOut then
          var dropped := DropUdp(answer, chain.nodes, t, row, id);
          var reverseChain := Ask(answer, dropped, id, SyncChain(Chain(Name(row), t, row.forward)), luck(2));
          if reverseChain.failure.Some? then reverseChain
          else Ask(answer, reverseChain.nodes, id, SyncServices(ReverseServices(Name(row), t, row.forward, limiter)), luck(1))
        else chain
  }

  function SyncRowsFor(answer: Behaviour, nodes: Nodes, t: Tunnel, rows: seq<Row>, limiter: Option<string>, luck: SyncLuck, id: int, i: nat): Reply
    decreases |rows| - i
  {
    if i >= |rows| then Reply(None, nodes)
    else
      var r := SyncRowFor(answer, nodes, t, rows[i], limiter, Turn(luck, i), id);
      if r.failure.Some? then r else SyncRowsFor(answer, r.nodes, t, rows, limiter, luck, id, i + 1)
  }

  function SyncTunnelFor(answer: Behaviour, nodes: Nodes, t: Tunnel, rows: seq<Row>, luck: SyncLuck, id: int): Reply {
    if id != t.inNode && id != t.outNode then Reply(None, nodes)
    else
      var limiter := EnsureLimiterFor(answer, nodes, t, id);
      if limiter.failure.Some? then Reply(limiter.failure, limiter.nodes)
      else SyncRowsFor(answer, limiter.nodes, t, rows, limiter.name, luck, id, 0)
  }

  // SyncTunnelAsync and SyncTunnelForNodeAsync as they run: the first failure ends the loop.
  method RunSyncTunnel(answer: Behaviour, nodes: Nodes, t: Tunnel, rows: seq<Row>, luck: SyncLuck) returns (failure: Option<Failure>, after: Nodes)
    ensures Reply(failure, after) == SyncTunnel(answer, nodes, t, rows, luck)
  {
    var limiter := EnsureLimiters(answer, nodes, t);
    after := limiter.nodes;
    if limiter.failure.Some? { return limiter.failure, after; }
    for i := 0 to |rows|
      invariant SyncTunnel(answer, nodes, t, rows, luck) == SyncRows(answer, after, t, rows, limiter.name, luck, i)
    {
      var r := SyncRow(answer, after, t, rows[i], limiter.name, Turn(luck, i));
      after := r.nodes;
      if r.failure.Some? { return r.failure, after; }
    }
    failure := None;
  }

  method RunSyncTunnelFor(answer: Behaviour, nodes: Nodes, t: Tunnel, rows: seq<Row>, luck: SyncLuck, id: int) returns (failure: Option<Failure>, after: Nodes)
    ensures Reply(failure, after) == SyncTunnelFor(answer, nodes, t, rows, luck, id)
  {
    after := nodes;
    if id != t.inNode && id != t.outNode { return None, after; }
    var limiter := EnsureLimiterFor(answer, nodes, t, id);
    after := limiter.nodes;
    if limiter.failure.Some? { return limiter.failure, after; }
    for i := 0 to |rows|
      invariant SyncTunnelFor(answer, nodes, t, rows, luck, id) == SyncRowsFor(answer, after, t, rows, limiter.name, luck, id, i)
    {
      var r := SyncRowFor(answer, after, t, rows[i], limiter.name, Turn(luck, i), id);
      after := r.nodes;
      if r.failure.Some? { return r.failure, after; }
    }
    failure := None;
  }

  // A direct tunnel has one node, a relay tunnel two.
  predicate WellPlaced(t: Tunnel) {
    (t.kind.Direct? ==> t.inNode == t.outNode) && (t.kind.Relay? ==> t.inNode != t.outNode)
  }

  // The replay for node `id`, started from any state in which that node is as in `nodes`,
  // does to that node what the full synchronisation does, and nothing to the others.
  ghost predicate Follows(full: Reply, part: Reply, nodes: Nodes, before: Nodes, id: int) {
    && full.nodes.Keys == nodes.Keys && id in full.nodes
    && part.failure.None? && part.nodes == before[id := full.nodes[id]]
  }

  // On a reverse tunnel whose two nodes are one, the full synchronisation sets the limiter
  // twice and the replay once; the second time must not matter.
  ghost predicate RepeatsLimiter(answer: Behaviour, n: Node, t: Tunnel) {
    t.kind.Reverse? && t.inNode == t.outNode ==>
      var once := answer(n, EnsureLimiter(Limiter(t)), ALL_PARSE);
      once.failure.None? ==> answer(once.node, EnsureLimiter(Limiter(t)), ALL_PARSE) == once
  }

  // Nothing happens outside the tunnel's own nodes.
  ghost predicate Aside(full: Reply, nodes: Nodes, t: Tunnel) {
    full.nodes.Keys == nodes.Keys && forall k :: k in nodes && k != t.inNode && k != t.outNode ==> full.nodes[k] == nodes[k]
  }

  lemma EntryRowFollows(answer: Behaviour, nodes: Nodes, before: Nodes, t: Tunnel, row: Row, limiter: Option<string>, luck: nat -> Parses)
    requires WellPlaced(t) && t.kind.Direct? && t.inNode in nodes && t.inNode in before && before[t.inNode] == nodes[t.inNode]
    requires SyncRow(answer, nodes, t, row, limiter, luck).failure.None?
    ensures Follows(SyncRow(answer, nodes, t, row, limiter, luck), SyncRowFor(answer, before, t, row, limiter, luck, t.inNode), nodes, before, t.inNode)
    ensures Aside(SyncRow(answer, nodes, t, row, limiter, luck), nodes, t)
  {
  }

  lemma RelayRowFollows(answer: Behaviour, nodes: Nodes, before: Nodes, t: Tunnel, row: Row, limiter: Option<string>, luck: nat -> Parses, id: int)
    requires WellPlaced(t) && t.kind.Relay? && id in {t.inNode, t.outNode} && id in nodes && id in before && before[id] == nodes[id]
    requires SyncRow(answer, nodes, t, row, limiter, luck).failure.None?
    ensures Follows(SyncRow(answer, nodes, t, row, limiter, luck), SyncRowFor(answer, before, t, row, limiter, luck, id), nodes, before, id)
    ensures Aside(SyncRow(answer, nodes, t, row, limiter, luck), nodes, t)
  {
  }

  lemma ReverseRowAside(answer: Behaviour, nodes: Nodes, t: Tunnel, row: Row, limiter: Option<string>, luck: nat -> Parses)
    requires t.kind.Reverse?
    ensures Aside(SyncRow(answer, nodes, t, row, limiter, luck), nodes, t)
  {
  }

  lemma ReverseEntryFollows(answer: Behaviour, nodes: Nodes, before: Nodes, t: Tunnel, row: Row, limiter: Option<string>, luck: nat -> Parses, id: int)
    requires t.kind.Reverse? && id == t.inNode != t.outNode && id in nodes && id in before && before[id] == nodes[id]
    requires SyncRow(answer, nodes, t, row, limiter, luck).failure.None?
    ensures Follows(SyncRow(answer, nodes, t, row, limiter, luck), SyncRowFor(answer, before, t, row, limiter, luck, id), nodes, before, id)
  {
  }

  lemma ReverseExitFollows(answer: Behaviour, nodes: Nodes, before: Nodes, t: Tunnel, row: Row, limiter: Option<string>, luck: nat -> Parses, id: int)
    requires t.kind.Reverse? && id == t.outNode != t.inNode && id in nodes && id in before && before[id] == nodes[id]
    requires SyncRow(answer, nodes, t, row, limiter, luck).failure.None?
    ensures Follows(SyncRow(answer, nodes, t, row, limiter, luck), SyncRowFor(answer, before, t, row, limiter, luck, id), nodes, before, id)
  {
  }

  lemma ReverseBothFollow(answer: Behaviour, nodes: Nodes, before: Nodes, t: Tunnel, row: Row, limiter: Option<string>, luck: nat -> Parses, id: int)
    requires t.kind.Reverse? && id == t.inNode == t.outNode && id in nodes && id in before && before[id] == nodes[id]
    requires SyncRow(answer, nodes, t, row, limiter, luck).failure.None?
    ensures Follows(SyncRow(answer, nodes, t, row, limiter, luck), SyncRowFor(answer, before, t, row, limiter, luck, id), nodes, before, id)
  {
  }

  lemma ReverseRowFollows(answer: Behaviour, nodes: Nodes, before: Nodes, t: Tunnel, row: Row, limiter: Option<string>, luck: nat -> Parses, id: int)
    requires t.kind.Reverse? && id in {t.inNode, t.outNode} && id in nodes && id in before && before[id] == nodes[id]
    requires SyncRow(answer, nodes, t, row, limiter, luck).failure.None?
    ensures Follows(SyncRow(answer, nodes, t, row, limiter, luck), SyncRowFor(answer, before, t, row, limiter, luck, id), nodes, before, id)
  {
    if t.inNode == t.outNode {
      ReverseBothFollow(answer, nodes, before, t, row, limiter, luck, id);
    } else if id == t.inNode {
      ReverseEntryFollows(answer, nodes, before, t, row, limiter, luck, id);
    } else {
      ReverseExitFollows(answer, nodes, before, t, row, limiter, luck, id);
    }
  }

  lemma RowFollows(answer: Behaviour, nodes: Nodes, before: Nodes, t: Tunnel, row: Row, limiter: Option<string>, luck: nat -> Parses, id: int)
    requires WellPlaced(t) && id in {t.inNode, t.outNode} && id in nodes && id in before && before[id] == nodes[id]
    requires SyncRow(answer, nodes, t, row, limiter, luck).failure.None?
    ensures Follows(SyncRow(answer, nodes, t, row, limiter, luck), SyncRowFor(answer, before, t, row, limiter, luck, id), nodes, before, id)
    ensures Aside(SyncRow(answer, nodes, t, row, limiter, luck), nodes, t)
  {
    match t.kind
    case Direct => EntryRowFollows(answer, nodes, before, t, row, limiter, luck);
    case Relay => RelayRowFollows(answer, nodes, before, t, row, limiter, luck, id);
    case Reverse =>
      ReverseRowFollows(answer, nodes, before, t, row, limiter, luck, id);
      ReverseRowAside(answer, nodes, t, row, limiter, luck);
  }

  lemma Composed(nodes: Nodes, before: Nodes, one: Reply, part: Reply, full: Reply, rest: Reply, t: Tunnel, id: int)
    requires Follows(one, part, nodes, before, id) && Follows(full, rest, one.nodes, part.nodes, id)
    requires Aside(one, nodes, t) && Aside(full, one.nodes, t)
    ensures Follows(full, rest, nodes, before, id) && Aside(full, nodes, t)
  {
  }

  lemma {:induction false} RowsFollow(answer: Behaviour, nodes: Nodes, before: Nodes, t: Tunnel, rows: seq<Row>, limiter: Option<string>, luck: SyncLuck, id: int, i: nat)
    requires WellPlaced(t) && id in {t.inNode, t.outNode} && id in nodes && id in before && before[id] == nodes[id]
    requires SyncRows(answer, nodes, t, rows, limiter, luck, i).failure.None?
    ensures Follows(SyncRows(answer, nodes, t, rows, limiter, luck, i), SyncRowsFor(answer, before, t, rows, limiter, luck, id, i), nodes, before, id)
    ensures Aside(SyncRows(answer, nodes, t, rows, limiter, luck, i), nodes, t)
    decreases |rows| - i
  {
    if i < |rows| {
      var one := SyncRow(answer, nodes, t, rows[i], limiter, Turn(luck, i));
      var part := SyncRowFor(answer, before, t, rows[i], limiter, Turn(luck, i), id);
      RowFollows(answer, nodes, before, t, rows[i], limiter, Turn(luck, i), id);
      RowsFollow(answer, one.nodes, part.nodes, t, rows, limiter, luck, id, i + 1);
      Composed(nodes, before, one, part, SyncRows(answer, one.nodes, t, rows, limiter, luck, i + 1),
               SyncRowsFor(answer, part.nodes, t, rows, limiter, luck, id, i + 1), t, id);
      SyncRowsNext(answer, nodes, before, t, rows, limiter, luck, id, i);
    } else {
      assert before[id := nodes[id]] == before;
    }
  }

  lemma SyncRowsNext(answer: Behaviour, nodes: Nodes, before: Nodes, t: Tunnel, rows: seq<Row>, limiter: Option<string>, luck: SyncLuck, id: int, i: nat)
    requires i < |rows|
    ensures var r := SyncRow(answer, nodes, t, rows[i], limiter, Turn(luck, i));
            r.failure.None? ==> SyncRows(answer, nodes, t, rows, limiter, luck, i) == SyncRows(answer, r.nodes, t, rows, limiter, luck, i + 1)
    ensures var r := SyncRowFor(answer, before, t, rows[i], limiter, Turn(luck, i), id);
            r.failure.None? ==> SyncRowsFor(answer, before, t, rows, limiter, luck, id, i) == SyncRowsFor(answer, r.nodes, t, rows, limiter, luck, id, i + 1)
  {
  }

  lemma LimitersFollow(answer: Behaviour, nodes: Nodes, before: Nodes, t: Tunnel, id: int)
    requires WellPlaced(t) && id in {t.inNode, t.outNode} && t.inNode in nodes && id in nodes && id in before && before[id] == nodes[id]
    requires RepeatsLimiter(answer, nodes[t.inNode], t)
    requires EnsureLimiters(answer, nodes, t).failure.None?
    ensures var full, part := EnsureLimiters(answer, nodes, t), EnsureLimiterFor(answer, before, t, id);
            && full.name == part.name
            && Follows(Reply(None, full.nodes), Reply(part.failure, part.nodes), nodes, before, id)
            && Aside(Reply(None, full.nodes), nodes, t)
  {
    if t.speedKbps <= 0 { assert before[id := nodes[id]] == before; }
  }

  // For any tunnel, any list of forwards and any agents: when a full synchronisation
  // succeeds, so does the replay for either of its nodes alone, and it leaves that node
  // exactly as the full synchronisation does.
  lemma NodeReplayMatchesFullSync(answer: Behaviour, nodes: Nodes, before: Nodes, t: Tunnel, rows: seq<Row>, luck: SyncLuck, id: int)
    requires WellPlaced(t) && t.inNode in nodes && t.outNode in nodes
    requires id in {t.inNode, t.outNode} && id in before && before[id] == nodes[id]
    requires RepeatsLimiter(answer, nodes[t.inNode], t)
    requires SyncTunnel(answer, nodes, t, rows, luck).failure.None?
    ensures Follows(SyncTunnel(answer, nodes, t, rows, luck), SyncTunnelFor(answer, before, t, rows, luck, id), nodes, before, id)
    ensures Aside(SyncTunnel(answer, nodes, t, rows, luck), nodes, t)
  {
    var limiter, part := EnsureLimiters(answer, nodes, t), EnsureLimiterFor(answer, before, t, id);
    LimitersFollow(answer, nodes, before, t, id);
    RowsFollow(answer, limiter.nodes, part.nodes, t, rows, limiter.name, luck, id, 0);
    Composed(nodes, before, Reply(None, limiter.nodes), Reply(part.failure, part.nodes),
             SyncTunnel(answer, nodes, t, rows, luck), SyncTunnelFor(answer, before, t, rows, luck, id), t, id);
  }

  // Replaying first the entry node and then the exit node is the full synchronisation.
  lemma ReplayingBothNodesIsFullSync(answer: Behaviour, nodes: Nodes, t: Tunnel, rows: seq<Row>, luck: SyncLuck)
    requires WellPlaced(t) && t.inNode in nodes && t.outNode in nodes && t.inNode != t.outNode
    requires SyncTunnel(answer, nodes, t, rows, luck).failure.None?
    ensures var entry := SyncTunnelFor(answer, nodes, t, rows, luck, t.inNode);
            var exit := SyncTunnelFor(answer, entry.nodes, t, rows, luck, t.outNode);
            entry.failure.None? && exit.failure.None? && exit.nodes == SyncTunnel(answer, nodes, t, rows, luck).nodes
  {
    var entry := SyncTunnelFor(answer, nodes, t, rows, luck, t.inNode);
    NodeReplayMatchesFullSync(answer, nodes, nodes, t, rows, luck, t.inNode);
    NodeReplayMatchesFullSync(answer, nodes, entry.nodes, t, rows, luck, t.outNode);
    var exit := SyncTunnelFor(answer, entry.nodes, t, rows, luck, t.outNode);
    var full := SyncTunnel(answer, nodes, t, rows, luck);
    forall k | k in full.nodes ensures exit.nodes[k] == full.nodes[k] {}
    assert exit.nodes.Keys == full.nodes.Keys;
  }

  // The agents themselves do not mind the repetition.
  lemma AgentsRepeatLimiter(n: Node, t: Tunnel)
    requires Chains.Matches(n.limiters)
    ensures RepeatsLimiter(Answer, n, t)
  {
    var e := Limiter(t);
    LimiterNameVisible(t);
    Chains.EnsureTwice(n.limiters, e);
  }

  lemma LimiterNameVisible(t: Tunnel)
    ensures Trim(LimiterName(t)) == LimiterName(t) != ""
  {
  }

  // The two replays and the full synchronisation agree on the agents of this model.
  lemma AgentsReplay(nodes: Nodes, t: Tunnel, rows: seq<Row>, luck: SyncLuck)
    requires WellPlaced(t) && t.inNode in nodes && t.outNode in nodes && Chains.Matches(nodes[t.inNode].limiters)
    requires SyncTunnel(Answer, nodes, t, rows, luck).failure.None?
    ensures var full := SyncTunnel(Answer, nodes, t, rows, luck);
            var entry, exit := SyncTunnelFor(Answer, nodes, t, rows, luck, t.inNode), SyncTunnelFor(Answer, nodes, t, rows, luck, t.outNode);
            && entry.failure.None? && exit.failure.None? && full.nodes.Keys == nodes.Keys
            && entry.nodes == nodes[t.inNode := full.nodes[t.inNode]]
            && exit.nodes == nodes[t.outNode := full.nodes[t.outNode]]
  {
    AgentsRepeatLimiter(nodes[t.inNode], t);
    NodeReplayMatchesFullSync(Answer, nodes, nodes, t, rows, luck, t.inNode);
    NodeReplayMatchesFullSync(Answer, nodes, nodes, t, rows, luck, t.outNode);
  }
}
