/** Chain.Route and routePath: a route through a chain of hops. A node whose transport
    multiplexes starts a new route and leaves the route so far inside its transport. Routes and
    transports are shared objects; they are modelled by their addresses. Transport.Copy returns
    its receiver, so the transport that is written to is the node's own. */
module Routes {
  import opened Text

  datatype Node = Node(name: string, transport: nat)

  // The nodes of each route, and the inner route of each transport that has one.
  datatype Heap = Heap(routes: seq<seq<Node>>, inner: map<nat, nat>)

  // ---- routePath ----

  // The nodes of a route in the order they are passed; None is a recursion deeper than the fuel.
  function RoutePath(h: Heap, route: nat, fuel: nat): Option<seq<Node>>
    decreases fuel, 1, 0
  {
    if fuel == 0 then None
    else if route >= |h.routes| then Some([])
    else NodesPath(h, h.routes[route], fuel)
  }

  function NodesPath(h: Heap, nodes: seq<Node>, fuel: nat): Option<seq<Node>>
    requires fuel > 0
    decreases fuel, 0, |nodes|
  {
    if nodes == [] then Some([])
    else
      var before := NodesPath(h, nodes[..|nodes| - 1], fuel);
      var node := nodes[|nodes| - 1];
      var within := if node.transport in h.inner then RoutePath(h, h.inner[node.transport], fuel - 1) else Some([]);
      if before.None? || within.None? then None else Some(before.value + within.value + [node])
  }

  // routePath returns this path.
  ghost predicate Yields(h: Heap, route: nat, path: seq<Node>) {
    exists fuel: nat :: RoutePath(h, route, fuel) == Some(path)
  }

  // routePath never returns.
  ghost predicate Diverges(h: Heap, route: nat) {
    forall fuel: nat :: RoutePath(h, route, fuel) == None
  }

  // ---- Chain.Route ----

  // One turn of the loop; the current route is always the last one created.
  function Extend(h: Heap, node: Node, multiplex: set<nat>): Heap
    requires h.routes != []
  {
    var current := |h.routes| - 1;
    if node.transport in multiplex then Heap(h.routes + [[node]], h.inner[node.transport := current])
    else h.(routes := h.routes[current := h.routes[current] + [node]])
  }

  function Build(h: Heap, nodes: seq<Node>, multiplex: set<nat>): (r: Heap)
    ensures |r.routes| > |h.routes|
  {
    if nodes == [] then h.(routes := h.routes + [[]])
    else Extend(Build(h, nodes[..|nodes| - 1], multiplex), nodes[|nodes| - 1], multiplex)
  }

  function Latest(h: Heap): int { |h.routes| - 1 }

  // What the hops select, up to the first that selects nothing.
  function Selected(hops: seq<Option<Node>>): seq<Node> { SelectedFrom(hops, 0) }

  function SelectedFrom(hops: seq<Option<Node>>, i: nat): seq<Node>
    decreases |hops| - i
  {
    if i >= |hops| || hops[i].None? then [] else [hops[i].value] + SelectedFrom(hops, i + 1)
  }

  // No two selected nodes multiplex over one transport.
  predicate Distinct(nodes: seq<Node>, multiplex: set<nat>) {
    forall i, j :: 0 <= i < j < |nodes| && nodes[i].transport in multiplex ==> nodes[i].transport != nodes[j].transport
  }

  // Transports that do not multiplex were set up without an inner route.
  predicate Plain(h: Heap, nodes: seq<Node>, multiplex: set<nat>) {
    forall i :: 0 <= i < |nodes| && nodes[i].transport !in multiplex ==> nodes[i].transport !in h.inner
  }

  // ---- while the multiplexing transports are distinct ----

  // Inner routes lead to older routes only.
  predicate Downward(h: Heap, base: nat) {
    forall r, i :: base <= r < |h.routes| && 0 <= i < |h.routes[r]| && h.routes[r][i].transport in h.inner ==>
      base <= h.inner[h.routes[r][i].transport] < r
  }

  // Every route after the first starts with the node that multiplexes over the one before.
  predicate Linked(h: Heap, base: nat) {
    forall r :: base < r < |h.routes| ==>
      h.routes[r] != [] && h.routes[r][0].transport in h.inner && h.inner[h.routes[r][0].transport] == r - 1
  }

  // The routes hold nothing but the nodes so far, and those that multiplex start one each.
  ghost predicate Holds(h: Heap, base: nat, nodes: seq<Node>, multiplex: set<nat>) {
    (forall r, i :: base <= r < |h.routes| && 0 <= i < |h.routes[r]| ==> h.routes[r][i] in nodes)
    && (forall v :: v in nodes && v.transport in multiplex ==> Starts(h, base, v.transport))
  }

  ghost predicate Starts(h: Heap, base: nat, transport: nat) {
    exists r :: base < r < |h.routes| && h.routes[r] != [] && h.routes[r][0].transport == transport
  }

  // Two heaps agree on everything a downward route can reach.
  lemma {:induction false} SamePath(h: Heap, k: Heap, base: nat, route: nat, fuel: nat)
    requires Downward(h, base) && base <= route < |h.routes| <= |k.routes|
    requires forall r :: base <= r <= route ==> k.routes[r] == h.routes[r]
    requires forall r, i :: base <= r <= route && 0 <= i < |h.routes[r]| ==>
               SameInner(h, k, h.routes[r][i].transport)
    ensures RoutePath(k, route, fuel) == RoutePath(h, route, fuel)
    decreases fuel, 1, 0
  {
    if fuel > 0 {
      SameNodes(h, k, base, route, |h.routes[route]|, fuel);
      assert h.routes[route][..|h.routes[route]|] == h.routes[route];
    }
  }

  predicate SameInner(h: Heap, k: Heap, t: nat) {
    (t in h.inner <==> t in k.inner) && (t in h.inner ==> k.inner[t] == h.inner[t])
  }

  lemma {:induction false} SameNodes(h: Heap, k: Heap, base: nat, route: nat, n: nat, fuel: nat)
    requires Downward(h, base) && base <= route < |h.routes| <= |k.routes| && n <= |h.routes[route]| && fuel > 0
    requires forall r :: base <= r < route ==> k.routes[r] == h.routes[r]
    requires forall r, i :: base <= r <= route && 0 <= i < |h.routes[r]| ==>
               SameInner(h, k, h.routes[r][i].transport)
    ensures NodesPath(k, h.routes[route][..n], fuel) == NodesPath(h, h.routes[route][..n], fuel)
    decreases fuel, 0, n
  {
    if n > 0 {
      var nodes := h.routes[route][..n];
      assert nodes[..n - 1] == h.routes[route][..n - 1];
      SameNodes(h, k, base, route, n - 1, fuel);
      var t := h.routes[route][n - 1].transport;
      assert SameInner(h, k, t);
      if t in h.inner { SamePath(h, k, base, h.inner[t], fuel - 1); }
    }
  }

  // The state of the loop after these nodes.
  ghost predicate Clean(h: Heap, base: nat, nodes: seq<Node>, multiplex: set<nat>) {
    base < |h.routes| && Downward(h, base) && Linked(h, base) && Holds(h, base, nodes, multiplex)
    && Plain(h, nodes, multiplex)
    && forall fuel: nat :: fuel >= |h.routes| - base ==> RoutePath(h, Latest(h), fuel) == Some(nodes)
  }

  lemma PlainNodePath(h: Heap, base: nat, nodes: seq<Node>, v: Node, k: Heap, fuel: nat)
    requires base < |h.routes| && Downward(h, base) && fuel > 0 && v.transport !in h.inner
    requires k == h.(routes := h.routes[Latest(h) := h.routes[Latest(h)] + [v]])
    requires RoutePath(h, Latest(h), fuel) == Some(nodes)
    ensures RoutePath(k, Latest(k), fuel) == Some(nodes + [v])
  {
    var so := h.routes[Latest(h)];
    assert k.routes[Latest(h)] == so + [v] && (so + [v])[..|so|] == so == so[..|so|];
    SameNodes(h, k, base, Latest(h), |so|, fuel);
    assert nodes + [] + [v] == nodes + [v];
  }

  lemma PlainNodeHolds(h: Heap, base: nat, nodes: seq<Node>, v: Node, k: Heap, multiplex: set<nat>)
    requires base < |h.routes| && Holds(h, base, nodes, multiplex) && v.transport !in multiplex
    requires k == h.(routes := h.routes[Latest(h) := h.routes[Latest(h)] + [v]])
    ensures Holds(k, base, nodes + [v], multiplex)
  {
    forall u | u in nodes + [v] && u.transport in multiplex ensures Starts(k, base, u.transport) {
      assert u in nodes;
      var r :| base < r < |h.routes| && h.routes[r] != [] && h.routes[r][0].transport == u.transport;
      assert k.routes[r] != [] && k.routes[r][0] == h.routes[r][0];
    }
  }

  lemma PlainNodeKeeps(h: Heap, base: nat, nodes: seq<Node>, v: Node, multiplex: set<nat>)
    requires Clean(h, base, nodes, multiplex) && v.transport !in multiplex && v.transport !in h.inner
    ensures Clean(Extend(h, v, multiplex), base, nodes + [v], multiplex)
  {
    var k := Extend(h, v, multiplex);
    forall fuel: nat | fuel >= |k.routes| - base ensures RoutePath(k, Latest(k), fuel) == Some(nodes + [v]) {
      PlainNodePath(h, base, nodes, v, k, fuel);
    }
    PlainNodeHolds(h, base, nodes, v, k, multiplex);
    PlainNodeLinks(h, base, v, k);
  }

  lemma PlainNodeLinks(h: Heap, base: nat, v: Node, k: Heap)
    requires base < |h.routes| && Downward(h, base) && Linked(h, base) && v.transport !in h.inner
    requires k == h.(routes := h.routes[Latest(h) := h.routes[Latest(h)] + [v]])
    ensures Downward(k, base) && Linked(k, base)
  {
  }

  lemma MultiplexedNodePath(h: Heap, base: nat, nodes: seq<Node>, v: Node, k: Heap, fuel: nat)
    requires base < |h.routes| && Downward(h, base) && fuel > 0
    requires k == Heap(h.routes + [[v]], h.inner[v.transport := Latest(h)])
    requires forall r, i :: base <= r < |h.routes| && 0 <= i < |h.routes[r]| ==> h.routes[r][i].transport != v.transport
    requires RoutePath(h, Latest(h), fuel - 1) == Some(nodes)
    ensures RoutePath(k, Latest(k), fuel) == Some(nodes + [v])
  {
    SamePath(h, k, base, Latest(h), fuel - 1);
    assert k.routes[Latest(k)] == [v];
    assert [v][..0] == [] && NodesPath(k, [], fuel) == Some([]);
    assert [] + nodes + [v] == nodes + [v];
  }

  lemma MultiplexedNodeHolds(h: Heap, base: nat, nodes: seq<Node>, v: Node, k: Heap, multiplex: set<nat>)
    requires base < |h.routes| && Holds(h, base, nodes, multiplex)
    requires k == Heap(h.routes + [[v]], h.inner[v.transport := Latest(h)])
    ensures Holds(k, base, nodes + [v], multiplex)
  {
    forall u | u in nodes + [v] && u.transport in multiplex ensures Starts(k, base, u.transport) {
      if u == v {
        assert k.routes[Latest(k)] == [v];
      } else {
        var r :| base < r < |h.routes| && h.routes[r] != [] && h.routes[r][0].transport == u.transport;
        assert k.routes[r] == h.routes[r];
      }
    }
  }

  lemma MultiplexedNodeKeeps(h: Heap, base: nat, nodes: seq<Node>, v: Node, multiplex: set<nat>)
    requires Clean(h, base, nodes, multiplex) && v.transport in multiplex
    requires forall u :: u in nodes ==> u.transport != v.transport
    ensures Clean(Extend(h, v, multiplex), base, nodes + [v], multiplex)
  {
    var k := Extend(h, v, multiplex);
    forall r, i | base <= r < |h.routes| && 0 <= i < |h.routes[r]| ensures h.routes[r][i].transport != v.transport {
      assert h.routes[r][i] in nodes;
    }
    forall fuel: nat | fuel >= |k.routes| - base ensures RoutePath(k, Latest(k), fuel) == Some(nodes + [v]) {
      MultiplexedNodePath(h, base, nodes, v, k, fuel);
    }
    MultiplexedNodeHolds(h, base, nodes, v, k, multiplex);
    MultiplexedNodeLinks(h, base, v, k);
  }

  lemma MultiplexedNodeLinks(h: Heap, base: nat, v: Node, k: Heap)
    requires base < |h.routes| && Downward(h, base) && Linked(h, base)
    requires k == Heap(h.routes + [[v]], h.inner[v.transport := Latest(h)])
    requires forall r, i :: base <= r < |h.routes| && 0 <= i < |h.routes[r]| ==> h.routes[r][i].transport != v.transport
    ensures Downward(k, base) && Linked(k, base)
  {
  }

  lemma {:induction false} BuildIsClean(h: Heap, nodes: seq<Node>, multiplex: set<nat>)
    requires Distinct(nodes, multiplex) && Plain(h, nodes, multiplex)
    ensures Clean(Build(h, nodes, multiplex), |h.routes|, nodes, multiplex)
    ensures forall t :: t !in multiplex ==> (t in Build(h, nodes, multiplex).inner <==> t in h.inner)
  {
    if nodes != [] {
      var init, v := nodes[..|nodes| - 1], nodes[|nodes| - 1];
      assert nodes == init + [v];
      BuildIsClean(h, init, multiplex);
      var k := Build(h, init, multiplex);
      if v.transport in multiplex {
        forall u | u in init ensures u.transport != v.transport {
          var i :| 0 <= i < |init| && init[i] == u;
          assert nodes[i] == u && nodes[|nodes| - 1] == v;
        }
        MultiplexedNodeKeeps(k, |h.routes|, init, v, multiplex);
      } else {
        PlainNodeKeeps(k, |h.routes|, init, v, multiplex);
      }
    }
  }

  // ---- once a multiplexing transport has been used twice ----

  // From each of these routes the path leads back into one of them.
  predicate Trapped(h: Heap, low: nat) {
    low < |h.routes|
    && forall r :: low <= r < |h.routes| ==>
         h.routes[r] != [] && h.routes[r][0].transport in h.inner
         && low <= h.inner[h.routes[r][0].transport] < |h.routes|
  }

  lemma {:induction false} TrappedDiverges(h: Heap, low: nat, route: nat, fuel: nat)
    requires Trapped(h, low) && low <= route < |h.routes|
    ensures RoutePath(h, route, fuel) == None
    decreases fuel
  {
    if fuel > 0 {
      TrappedDiverges(h, low, h.inner[h.routes[route][0].transport], fuel - 1);
      FirstNodeStuck(h, h.routes[route], fuel);
    }
  }

  // A path that gets stuck at its first node gets stuck.
  lemma {:induction false} FirstNodeStuck(h: Heap, nodes: seq<Node>, fuel: nat)
    requires nodes != [] && fuel > 0 && nodes[0].transport in h.inner
    requires RoutePath(h, h.inner[nodes[0].transport], fuel - 1) == None
    ensures NodesPath(h, nodes, fuel) == None
    decreases |nodes|
  {
    if |nodes| > 1 { FirstNodeStuck(h, nodes[..|nodes| - 1], fuel); }
  }

  lemma ReuseTraps(h: Heap, base: nat, nodes: seq<Node>, v: Node, multiplex: set<nat>) returns (low: nat)
    requires Clean(h, base, nodes, multiplex) && v.transport in multiplex
    requires exists u :: u in nodes && u.transport == v.transport
    ensures Trapped(Extend(h, v, multiplex), low)
  {
    var u :| u in nodes && u.transport == v.transport;
    assert Starts(h, base, v.transport);
    var r :| base < r < |h.routes| && h.routes[r] != [] && h.routes[r][0].transport == v.transport;
    low := r;
  }

  lemma StaysTrapped(h: Heap, low: nat, v: Node, multiplex: set<nat>)
    requires Trapped(h, low)
    ensures Trapped(Extend(h, v, multiplex), low)
  {
  }

  lemma ReusedByLast(init: seq<Node>, v: Node, multiplex: set<nat>) returns (u: Node)
    requires Distinct(init, multiplex) && !Distinct(init + [v], multiplex)
    ensures u in init && u.transport == v.transport && v.transport in multiplex
  {
    var nodes := init + [v];
    var i, j :| 0 <= i < j < |nodes| && nodes[i].transport in multiplex && nodes[i].transport == nodes[j].transport;
    assert j == |init| && nodes[i] == init[i];
    u := init[i];
  }

  lemma {:induction false} BuildTraps(h: Heap, nodes: seq<Node>, multiplex: set<nat>) returns (low: nat)
    requires !Distinct(nodes, multiplex) && Plain(h, nodes, multiplex)
    ensures Trapped(Build(h, nodes, multiplex), low)
  {
    var init, v := nodes[..|nodes| - 1], nodes[|nodes| - 1];
    assert nodes == init + [v];
    BuildSnoc(h, init, v, multiplex);
    if Distinct(init, multiplex) {
      BuildIsClean(h, init, multiplex);
      var u := ReusedByLast(init, v, multiplex);
      low := ReuseTraps(Build(h, init, multiplex), |h.routes|, init, v, multiplex);
    } else {
      low := BuildTraps(h, init, multiplex);
      StaysTrapped(Build(h, init, multiplex), low, v, multiplex);
    }
  }

  // ---- the result ----

  // The path of a built route is the selected nodes in hop order exactly when no two of them
  // multiplex over one transport; otherwise routePath never returns.
  lemma PathIsSelectionExactly(h: Heap, hops: seq<Option<Node>>, multiplex: set<nat>)
    requires Plain(h, Selected(hops), multiplex)
    ensures var nodes := Selected(hops);
            var k := Build(h, nodes, multiplex);
            if Distinct(nodes, multiplex) then Yields(k, Latest(k), nodes) else Diverges(k, Latest(k))
  {
    var nodes := Selected(hops);
    var k := Build(h, nodes, multiplex);
    if Distinct(nodes, multiplex) {
      BuildIsClean(h, nodes, multiplex);
      assert RoutePath(k, Latest(k), |k.routes|) == Some(nodes);
    } else {
      var low := BuildTraps(h, nodes, multiplex);
      forall fuel: nat ensures RoutePath(k, Latest(k), fuel) == None {
        TrappedDiverges(k, low, Latest(k), fuel);
      }
    }
  }

  // ---- the loop ----

  lemma BuildSnoc(h: Heap, nodes: seq<Node>, v: Node, multiplex: set<nat>)
    ensures Build(h, nodes + [v], multiplex) == Extend(Build(h, nodes, multiplex), v, multiplex)
  {
    assert (nodes + [v])[..|nodes|] == nodes;
  }

  // After i hops these nodes were selected and the heap is h.
  predicate Reached(start: Heap, hops: seq<Option<Node>>, i: nat, nodes: seq<Node>, h: Heap, multiplex: set<nat>) {
    Selected(hops) == nodes + SelectedFrom(hops, i) && h == Build(start, nodes, multiplex)
  }

  lemma ReachedNext(start: Heap, hops: seq<Option<Node>>, i: nat, nodes: seq<Node>, h: Heap, multiplex: set<nat>)
    requires i < |hops| && hops[i].Some? && Reached(start, hops, i, nodes, h, multiplex) && h.routes != []
    ensures Reached(start, hops, i + 1, nodes + [hops[i].value], Extend(h, hops[i].value, multiplex), multiplex)
  {
    assert nodes + SelectedFrom(hops, i) == nodes + [hops[i].value] + SelectedFrom(hops, i + 1);
    BuildSnoc(start, nodes, hops[i].value, multiplex);
  }

  lemma ReachedEnd(start: Heap, hops: seq<Option<Node>>, i: nat, nodes: seq<Node>, h: Heap, multiplex: set<nat>)
    requires Reached(start, hops, i, nodes, h, multiplex) && (i >= |hops| || hops[i].None?)
    ensures h == Build(start, Selected(hops), multiplex)
  {
    assert nodes + [] == nodes;
  }

  class Network {
    var routes: seq<seq<Node>>
    var inner: map<nat, nat>
    const multiplex: set<nat>

    constructor (multiplex: set<nat>)
      ensures this.multiplex == multiplex && State() == Heap([], map[])
    {
      this.multiplex := multiplex;
      routes, inner := [], map[];
    }

    function State(): Heap
      reads this
    {
      Heap(routes, inner)
    }

    // The body of the loop.
    method AddNode(current: nat, node: Node) returns (rt: nat)
      requires current == |routes| - 1
      modifies this
      ensures State() == Extend(old(State()), node, multiplex) && rt == |routes| - 1
    {
      rt := current;
      if node.transport in multiplex {
        inner := inner[node.transport := rt];
        rt := |routes|;
        routes := routes + [[]];
      }
      routes := routes[rt := routes[rt] + [node]];
      if node.transport in multiplex {
        assert routes[rt] == [] + [node] == [node];
        assert routes == old(routes) + [[node]];
      }
    }

    // The address of the route, or None for a chain without hops.
    method Route(hops: seq<Option<Node>>) returns (route: Option<nat>)
      modifies this
      ensures hops == [] ==> route == None && State() == old(State())
      ensures hops != [] ==> State() == Build(old(State()), Selected(hops), multiplex) && route == Some(|routes| - 1)
    {
      if hops == [] {
        return None;
      }
      var rt := |routes|;
      routes := routes + [[]];
      ghost var nodes: seq<Node> := [];
      ghost var before := old(State());
      for i := 0 to |hops|
        invariant rt == |routes| - 1
        invariant Reached(before, hops, i, nodes, State(), multiplex)
      {
        if hops[i].None? {
          ReachedEnd(before, hops, i, nodes, State(), multiplex);
          return Some(rt);
        }
        ReachedNext(before, hops, i, nodes, State(), multiplex);
        rt := AddNode(rt, hops[i].value);
        nodes := nodes + [hops[i].value];
      }
      ReachedEnd(before, hops, |hops|, nodes, State(), multiplex);
      return Some(rt);
    }
  }
}
