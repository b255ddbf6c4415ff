/** Routes share transports, so a later call can change where an earlier route leads. */
module RouteReuse {
  import opened Text
  import opened Routes

  // ---- transports the later call does not write to ----

  predicate Untouched(t: nat, nodes: seq<Node>, multiplex: set<nat>) {
    t !in multiplex || forall i :: 0 <= i < |nodes| ==> nodes[i].transport != t
  }

  lemma {:induction false} BuildFrame(h: Heap, nodes: seq<Node>, multiplex: set<nat>, t: nat)
    requires Untouched(t, nodes, multiplex)
    ensures Build(h, nodes, multiplex).routes[..|h.routes|] == h.routes
    ensures SameInner(h, Build(h, nodes, multiplex), t)
  {
    if nodes != [] { BuildFrame(h, nodes[..|nodes| - 1], multiplex, t); }
  }

  // A route keeps its path under a later call that multiplexes over none of its transports.
  lemma EarlierPathStays(h: Heap, nodes: seq<Node>, later: seq<Node>, multiplex: set<nat>, fuel: nat)
    requires Distinct(nodes, multiplex) && Plain(h, nodes, multiplex)
    requires forall i :: 0 <= i < |nodes| ==> Untouched(nodes[i].transport, later, multiplex)
    ensures var k := Build(h, nodes, multiplex);
            RoutePath(Build(k, later, multiplex), Latest(k), fuel) == RoutePath(k, Latest(k), fuel)
  {
    var k := Build(h, nodes, multiplex);
    var m := Build(k, later, multiplex);
    var base := |h.routes|;
    BuildIsClean(h, nodes, multiplex);
    forall r, i | base <= r < |k.routes| && 0 <= i < |k.routes[r]|
      ensures m.routes[r] == k.routes[r] && SameInner(k, m, k.routes[r][i].transport)
    {
      assert k.routes[r][i] in nodes;
      BuildFrame(k, later, multiplex, k.routes[r][i].transport);
      assert m.routes[..|k.routes|][r] == m.routes[r];
    }
    forall r | base <= r < |k.routes| ensures m.routes[r] == k.routes[r] {
      BuildKeepsRoutes(k, later, multiplex);
      assert m.routes[..|k.routes|][r] == m.routes[r];
    }
    SamePath(k, m, base, Latest(k), fuel);
  }

  lemma {:induction false} BuildKeepsRoutes(h: Heap, nodes: seq<Node>, multiplex: set<nat>)
    ensures Build(h, nodes, multiplex).routes[..|h.routes|] == h.routes
  {
    if nodes != [] { BuildKeepsRoutes(h, nodes[..|nodes| - 1], multiplex); }
  }

  // ---- the shape of built routes ----

  function Flat(routes: seq<seq<Node>>): seq<Node> {
    if routes == [] then [] else Flat(routes[..|routes| - 1]) + routes[|routes| - 1]
  }

  lemma {:induction false} FlatSplit(a: seq<seq<Node>>, b: seq<seq<Node>>)
    ensures Flat(a + b) == Flat(a) + Flat(b)
  {
    if b == [] {
      assert a + b == a;
    } else {
      FlatSplit(a, b[..|b| - 1]);
      assert (a + b)[..|a + b| - 1] == a + b[..|b| - 1];
    }
  }

  // Only the first node of a route after the first one multiplexes.
  predicate Tailed(h: Heap, base: nat, multiplex: set<nat>) {
    base < |h.routes|
    && (forall r, i :: base <= r < |h.routes| && 0 <= i < |h.routes[r]| && (i > 0 || r == base) ==> h.routes[r][i].transport !in multiplex)
    && (forall r :: base < r < |h.routes| ==> h.routes[r] != [] && h.routes[r][0].transport in multiplex)
  }

  lemma FlatOne(routes: seq<seq<Node>>, last: seq<Node>)
    ensures Flat(routes + [last]) == Flat(routes) + last
  {
    assert (routes + [last])[..|routes|] == routes;
  }

  lemma FlatGrows(h: Heap, base: nat, v: Node, multiplex: set<nat>)
    requires base < |h.routes|
    ensures Flat(Extend(h, v, multiplex).routes[base..]) == Flat(h.routes[base..]) + [v]
  {
    var k, last := Extend(h, v, multiplex), |h.routes| - 1;
    if v.transport in multiplex {
      assert k.routes[base..] == h.routes[base..] + [[v]];
      FlatOne(h.routes[base..], [v]);
    } else {
      assert h.routes[base..] == h.routes[base..last] + [h.routes[last]];
      assert k.routes[base..] == h.routes[base..last] + [h.routes[last] + [v]];
      FlatOne(h.routes[base..last], h.routes[last]);
      FlatOne(h.routes[base..last], h.routes[last] + [v]);
    }
  }

  lemma TailedExtends(h: Heap, base: nat, v: Node, multiplex: set<nat>)
    requires Tailed(h, base, multiplex)
    ensures Tailed(Extend(h, v, multiplex), base, multiplex)
  {
  }

  lemma EmptyShape(h: Heap, multiplex: set<nat>)
    ensures Tailed(Build(h, [], multiplex), |h.routes|, multiplex) && Flat(Build(h, [], multiplex).routes[|h.routes|..]) == []
  {
    var none: seq<seq<Node>> := [];
    assert Build(h, [], multiplex).routes[|h.routes|..] == none + [[]];
    FlatOne(none, []);
  }

  lemma {:induction false} BuildShape(h: Heap, nodes: seq<Node>, multiplex: set<nat>)
    ensures Tailed(Build(h, nodes, multiplex), |h.routes|, multiplex)
    ensures Flat(Build(h, nodes, multiplex).routes[|h.routes|..]) == nodes
  {
    if nodes == [] {
      EmptyShape(h, multiplex);
    } else {
      var init, v := nodes[..|nodes| - 1], nodes[|nodes| - 1];
      var k := Build(h, init, multiplex);
      BuildShape(h, init, multiplex);
      TailedExtends(k, |h.routes|, v, multiplex);
      FlatGrows(k, |h.routes|, v, multiplex);
    }
  }

  // The node at the head of a later route stands in the list after all earlier routes.
  lemma HeadPosition(h: Heap, base: nat, nodes: seq<Node>, multiplex: set<nat>, r: nat)
    requires Tailed(h, base, multiplex) && Flat(h.routes[base..]) == nodes && base < r < |h.routes|
    ensures var p := |Flat(h.routes[base..r])|;
            p < |nodes| && nodes[p] == h.routes[r][0]
            && nodes[..p] == Flat(h.routes[base..r]) && nodes[p..] == Flat(h.routes[r..])
  {
    assert h.routes[base..] == h.routes[base..r] + h.routes[r..];
    FlatSplit(h.routes[base..r], h.routes[r..]);
    FlatFirst(h.routes[r..]);
  }

  lemma FlatFirst(routes: seq<seq<Node>>)
    requires routes != [] && routes[0] != []
    ensures Flat(routes) != [] && Flat(routes)[0] == routes[0][0]
  {
    RestOfRoutes(routes);
  }

  // Routes further on start further on in the list.
  lemma HeadsInOrder(h: Heap, base: nat, multiplex: set<nat>, r: nat, x: nat)
    requires Tailed(h, base, multiplex) && base < r < x < |h.routes|
    ensures |Flat(h.routes[base..r])| < |Flat(h.routes[base..x])|
  {
    assert h.routes[base..x] == h.routes[base..r] + h.routes[r..x];
    FlatSplit(h.routes[base..r], h.routes[r..x]);
    FlatFirst(h.routes[r..x]);
  }

  // ---- paths from route to route ----

  // Given enough fuel, this is the path of the route.
  ghost predicate Leads(h: Heap, route: nat, path: seq<Node>, enough: nat) {
    forall fuel: nat :: fuel >= enough ==> RoutePath(h, route, fuel) == Some(path)
  }

  lemma {:induction false} TailPath(h: Heap, nodes: seq<Node>, first: seq<Node>, fuel: nat)
    requires fuel > 0 && nodes != [] && NodesPath(h, nodes[..1], fuel) == Some(first)
    requires forall i :: 0 < i < |nodes| ==> nodes[i].transport !in h.inner
    ensures NodesPath(h, nodes, fuel) == Some(first + nodes[1..])
    decreases |nodes|
  {
    if |nodes| == 1 {
      assert nodes[..1] == nodes && first + nodes[1..] == first;
    } else {
      var init, v := nodes[..|nodes| - 1], nodes[|nodes| - 1];
      assert init[..1] == nodes[..1];
      TailPath(h, init, first, fuel);
      assert (first + init[1..]) + [] + [v] == first + nodes[1..];
    }
  }

  lemma HeadPath(h: Heap, v: Node, before: seq<Node>, fuel: nat)
    requires fuel > 0
    requires if v.transport in h.inner then RoutePath(h, h.inner[v.transport], fuel - 1) == Some(before) else before == []
    ensures NodesPath(h, [v], fuel) == Some(before + [v])
  {
    assert [v][..0] == [] && NodesPath(h, [], fuel) == Some([]);
    assert [] + before + [v] == before + [v];
  }

  // A route whose first node leads on to another route, and whose other nodes lead nowhere.
  lemma RouteLeads(h: Heap, r: nat, before: seq<Node>, enough: nat)
    requires r < |h.routes| && h.routes[r] != [] && h.routes[r][0].transport in h.inner
    requires Leads(h, h.inner[h.routes[r][0].transport], before, enough)
    requires forall i :: 0 < i < |h.routes[r]| ==> h.routes[r][i].transport !in h.inner
    ensures Leads(h, r, before + h.routes[r], enough + 1)
  {
    var nodes := h.routes[r];
    forall fuel: nat | fuel >= enough + 1 ensures RoutePath(h, r, fuel) == Some(before + nodes) {
      HeadPath(h, nodes[0], before, fuel);
      assert nodes[..1] == [nodes[0]];
      TailPath(h, nodes, before + [nodes[0]], fuel);
      assert before + [nodes[0]] + nodes[1..] == before + nodes;
    }
  }

  lemma FirstRouteLeads(h: Heap, r: nat)
    requires r < |h.routes| && forall i :: 0 <= i < |h.routes[r]| ==> h.routes[r][i].transport !in h.inner
    ensures Leads(h, r, h.routes[r], 1)
  {
    var nodes := h.routes[r];
    forall fuel: nat | fuel >= 1 ensures RoutePath(h, r, fuel) == Some(nodes) {
      if nodes != [] {
        HeadPath(h, nodes[0], [], fuel);
        assert nodes[..1] == [nodes[0]] == [] + [nodes[0]];
        TailPath(h, nodes, [nodes[0]], fuel);
        assert [nodes[0]] + nodes[1..] == nodes;
      }
    }
  }

  // From route low on, each route leads to the one before it.
  predicate Chained(h: Heap, low: nat, high: nat) {
    low <= high < |h.routes|
    && forall r :: low < r <= high ==>
         h.routes[r] != [] && h.routes[r][0].transport in h.inner && h.inner[h.routes[r][0].transport] == r - 1
         && forall i :: 0 < i < |h.routes[r]| ==> h.routes[r][i].transport !in h.inner
  }

  lemma {:induction false} ChainLeads(h: Heap, low: nat, high: nat, before: seq<Node>, enough: nat)
    requires Chained(h, low, high) && Leads(h, low, before, enough)
    ensures Leads(h, high, before + Flat(h.routes[low + 1..high + 1]), enough + high - low)
    decreases high
  {
    if low < high {
      var middle := h.routes[low + 1..high];
      ChainLeads(h, low, high - 1, before, enough);
      RouteLeads(h, high, before + Flat(middle), enough + high - 1 - low);
      assert h.routes[low + 1..high + 1] == middle + [h.routes[high]];
      FlatOne(middle, h.routes[high]);
      assert before + Flat(middle) + h.routes[high] == before + (Flat(middle) + h.routes[high]);
    } else {
      assert before + [] == before;
    }
  }

  // ---- an earlier route under a later call ----

  // Transports that do not multiplex never get an inner route.
  lemma {:induction false} PlainStays(h: Heap, nodes: seq<Node>, multiplex: set<nat>, t: nat)
    requires t !in multiplex
    ensures t in Build(h, nodes, multiplex).inner <==> t in h.inner
  {
    if nodes != [] { PlainStays(h, nodes[..|nodes| - 1], multiplex, t); }
  }

  // In a built heap every route leads to all nodes up to its end.
  lemma BuiltLeads(h: Heap, nodes: seq<Node>, multiplex: set<nat>, r: nat)
    requires Distinct(nodes, multiplex) && Plain(h, nodes, multiplex)
    requires |h.routes| <= r < |Build(h, nodes, multiplex).routes|
    ensures Leads(Build(h, nodes, multiplex), r, Flat(Build(h, nodes, multiplex).routes[|h.routes|..r + 1]), r - |h.routes| + 1)
  {
    var k, base := Build(h, nodes, multiplex), |h.routes|;
    BuiltChained(h, nodes, multiplex, r);
    FirstRouteLeads(k, base);
    ChainLeads(k, base, r, k.routes[base], 1);
    RestOfRoutes(k.routes[base..r + 1]);
    assert k.routes[base + 1..r + 1] == k.routes[base..r + 1][1..];
  }

  lemma BuiltChained(h: Heap, nodes: seq<Node>, multiplex: set<nat>, r: nat)
    requires Distinct(nodes, multiplex) && Plain(h, nodes, multiplex)
    requires |h.routes| <= r < |Build(h, nodes, multiplex).routes|
    ensures var k, base := Build(h, nodes, multiplex), |h.routes|;
            Chained(k, base, r) && forall i :: 0 <= i < |k.routes[base]| ==> k.routes[base][i].transport !in k.inner
  {
    BuildIsClean(h, nodes, multiplex);
    BuildShape(h, nodes, multiplex);
    PlainNodes(Build(h, nodes, multiplex), |h.routes|, nodes, multiplex);
  }

  lemma RestOfRoutes(routes: seq<seq<Node>>)
    requires routes != []
    ensures routes[0] + Flat(routes[1..]) == Flat(routes)
  {
    var none: seq<seq<Node>> := [];
    assert routes == (none + [routes[0]]) + routes[1..];
    FlatSplit(none + [routes[0]], routes[1..]);
    FlatOne(none, routes[0]);
  }

  // The nodes that do not multiplex have no inner route.
  lemma PlainNodes(k: Heap, base: nat, nodes: seq<Node>, multiplex: set<nat>)
    requires base < |k.routes| && Tailed(k, base, multiplex) && Holds(k, base, nodes, multiplex) && Plain(k, nodes, multiplex)
    ensures forall r, i :: base <= r < |k.routes| && 0 <= i < |k.routes[r]| && (i > 0 || r == base) ==> k.routes[r][i].transport !in k.inner
  {
    forall r, i | base <= r < |k.routes| && 0 <= i < |k.routes[r]| && (i > 0 || r == base) ensures k.routes[r][i].transport !in k.inner {
      assert k.routes[r][i] in nodes;
    }
  }

  // The last position i of the first list whose node multiplexes over a transport that the
  // later list uses, there at j.
  predicate LastShared(nodes: seq<Node>, later: seq<Node>, multiplex: set<nat>, i: nat, j: nat) {
    i < |nodes| && j < |later| && nodes[i].transport in multiplex && nodes[i].transport == later[j].transport
    && forall p :: i < p < |nodes| ==> Untouched(nodes[p].transport, later, multiplex)
  }

  lemma RouteOf(h: Heap, nodes: seq<Node>, multiplex: set<nat>, i: nat) returns (r: nat)
    requires Distinct(nodes, multiplex) && Plain(h, nodes, multiplex) && i < |nodes| && nodes[i].transport in multiplex
    ensures var k, base := Build(h, nodes, multiplex), |h.routes|;
            base < r < |k.routes| && k.routes[r] != [] && k.routes[r][0].transport == nodes[i].transport
            && |Flat(k.routes[base..r])| == i && nodes[..i] == Flat(k.routes[base..r]) && nodes[i..] == Flat(k.routes[r..])
  {
    var k, base := Build(h, nodes, multiplex), |h.routes|;
    BuildIsClean(h, nodes, multiplex);
    BuildShape(h, nodes, multiplex);
    assert nodes[i] in nodes && Starts(k, base, nodes[i].transport);
    r :| base < r < |k.routes| && k.routes[r] != [] && k.routes[r][0].transport == nodes[i].transport;
    HeadPosition(k, base, nodes, multiplex, r);
    var p := |Flat(k.routes[base..r])|;
    assert nodes[p].transport == nodes[i].transport;
  }

  lemma LaterPlain(h: Heap, nodes: seq<Node>, later: seq<Node>, multiplex: set<nat>)
    requires Plain(h, later, multiplex)
    ensures Plain(Build(h, nodes, multiplex), later, multiplex)
  {
    forall i | 0 <= i < |later| && later[i].transport !in multiplex ensures later[i].transport !in Build(h, nodes, multiplex).inner {
      PlainStays(h, nodes, multiplex, later[i].transport);
    }
  }

  lemma SameRoutes(k: Heap, later: seq<Node>, multiplex: set<nat>)
    ensures forall x :: 0 <= x < |k.routes| ==> Build(k, later, multiplex).routes[x] == k.routes[x]
  {
    var m := Build(k, later, multiplex);
    BuildKeepsRoutes(k, later, multiplex);
    forall x | 0 <= x < |k.routes| ensures m.routes[x] == k.routes[x] { assert m.routes[..|k.routes|][x] == m.routes[x]; }
  }

  // The nodes of an earlier route that do not multiplex still lead nowhere.
  lemma EarlierTails(h: Heap, nodes: seq<Node>, later: seq<Node>, multiplex: set<nat>, x: nat, y: nat)
    requires Distinct(nodes, multiplex) && Plain(h, nodes, multiplex)
    requires |h.routes| < x < |Build(h, nodes, multiplex).routes| && 0 < y < |Build(h, nodes, multiplex).routes[x]|
    ensures Build(h, nodes, multiplex).routes[x][y].transport !in Build(Build(h, nodes, multiplex), later, multiplex).inner
  {
    var k := Build(h, nodes, multiplex);
    BuildIsClean(h, nodes, multiplex);
    BuildShape(h, nodes, multiplex);
    PlainNodes(k, |h.routes|, nodes, multiplex);
    PlainStays(k, later, multiplex, k.routes[x][y].transport);
  }

  // An earlier route behind the last shared transport still leads to the one before it.
  lemma EarlierHead(h: Heap, nodes: seq<Node>, later: seq<Node>, multiplex: set<nat>, i: nat, j: nat, r: nat, x: nat)
    requires Distinct(nodes, multiplex) && Plain(h, nodes, multiplex) && LastShared(nodes, later, multiplex, i, j)
    requires |h.routes| < r < x < |Build(h, nodes, multiplex).routes| && |Flat(Build(h, nodes, multiplex).routes[|h.routes|..r])| == i
    ensures var k := Build(h, nodes, multiplex);
            var m := Build(k, later, multiplex);
            k.routes[x] != [] && k.routes[x][0].transport in m.inner && m.inner[k.routes[x][0].transport] == x - 1
  {
    var k, base := Build(h, nodes, multiplex), |h.routes|;
    BuildIsClean(h, nodes, multiplex);
    BuildShape(h, nodes, multiplex);
    HeadPosition(k, base, nodes, multiplex, x);
    HeadsInOrder(k, base, multiplex, r, x);
    BuildFrame(k, later, multiplex, k.routes[x][0].transport);
  }

  lemma EarlierChain(h: Heap, nodes: seq<Node>, later: seq<Node>, multiplex: set<nat>, i: nat, j: nat, r: nat)
    requires Distinct(nodes, multiplex) && Plain(h, nodes, multiplex) && LastShared(nodes, later, multiplex, i, j)
    requires |h.routes| < r < |Build(h, nodes, multiplex).routes| && |Flat(Build(h, nodes, multiplex).routes[|h.routes|..r])| == i
    ensures var k := Build(h, nodes, multiplex);
            var m := Build(k, later, multiplex);
            Chained(m, r, Latest(k)) && forall y :: 0 < y < |m.routes[r]| ==> m.routes[r][y].transport !in m.inner
  {
    var k := Build(h, nodes, multiplex);
    var m := Build(k, later, multiplex);
    SameRoutes(k, later, multiplex);
    forall x, y | r <= x <= Latest(k) && 0 < y < |m.routes[x]| ensures m.routes[x][y].transport !in m.inner {
      EarlierTails(h, nodes, later, multiplex, x, y);
    }
    forall x | r < x <= Latest(k)
      ensures m.routes[x] != [] && m.routes[x][0].transport in m.inner && m.inner[m.routes[x][0].transport] == x - 1
    {
      EarlierHead(h, nodes, later, multiplex, i, j, r, x);
    }
  }

  // Where the shared transport leads after the later call.
  lemma SharedLeads(k: Heap, later: seq<Node>, multiplex: set<nat>, j: nat) returns (enough: nat)
    requires Distinct(later, multiplex) && Plain(k, later, multiplex) && j < |later| && later[j].transport in multiplex
    ensures var m := Build(k, later, multiplex);
            later[j].transport in m.inner && Leads(m, m.inner[later[j].transport], later[..j], enough)
  {
    var q := RouteOf(k, later, multiplex, j);
    BuildIsClean(k, later, multiplex);
    BuiltLeads(k, later, multiplex, q - 1);
    enough := q - |k.routes|;
  }

  lemma ReroutedFrom(m: Heap, low: nat, high: nat, before: seq<Node>, rest: seq<Node>, enough: nat)
    requires Chained(m, low, high) && Flat(m.routes[low..high + 1]) == rest
    requires m.routes[low] != [] && m.routes[low][0].transport in m.inner && Leads(m, m.inner[m.routes[low][0].transport], before, enough)
    requires forall y :: 0 < y < |m.routes[low]| ==> m.routes[low][y].transport !in m.inner
    ensures Leads(m, high, before + rest, enough + 1 + high - low)
  {
    RouteLeads(m, low, before, enough);
    ChainLeads(m, low, high, before + m.routes[low], enough + 1);
    RestOfRoutes(m.routes[low..high + 1]);
    assert m.routes[low + 1..high + 1] == m.routes[low..high + 1][1..];
    assert before + m.routes[low] + Flat(m.routes[low + 1..high + 1]) == before + (m.routes[low] + Flat(m.routes[low + 1..high + 1]));
  }

  // After the later call, the earlier route leads through the later list up to the shared
  // transport, and from there on as before.
  lemma LaterCallReroutes(h: Heap, nodes: seq<Node>, later: seq<Node>, multiplex: set<nat>, i: nat, j: nat) returns (enough: nat)
    requires Distinct(nodes, multiplex) && Plain(h, nodes, multiplex)
    requires Distinct(later, multiplex) && Plain(h, later, multiplex)
    requires LastShared(nodes, later, multiplex, i, j)
    ensures var k := Build(h, nodes, multiplex);
            Leads(Build(k, later, multiplex), Latest(k), later[..j] + nodes[i..], enough)
  {
    var k := Build(h, nodes, multiplex);
    var m := Build(k, later, multiplex);
    var r := RouteOf(h, nodes, multiplex, i);
    LaterPlain(h, nodes, later, multiplex);
    var n := SharedLeads(k, later, multiplex, j);
    SameRoutes(k, later, multiplex);
    EarlierChain(h, nodes, later, multiplex, i, j, r);
    assert m.routes[r..Latest(k) + 1] == k.routes[r..];
    ReroutedFrom(m, r, Latest(k), later[..j], nodes[i..], n);
    enough := n + 1 + Latest(k) - r;
  }

  // ---- when the path stays ----

  lemma {:induction false} MoreFuel(h: Heap, route: nat, fuel: nat, more: nat)
    requires fuel <= more && RoutePath(h, route, fuel).Some?
    ensures RoutePath(h, route, more) == RoutePath(h, route, fuel)
    decreases fuel, 1, 0
  {
    if route < |h.routes| { MoreFuelForNodes(h, h.routes[route], fuel, more); }
  }

  lemma {:induction false} MoreFuelForNodes(h: Heap, nodes: seq<Node>, fuel: nat, more: nat)
    requires 0 < fuel <= more && NodesPath(h, nodes, fuel).Some?
    ensures NodesPath(h, nodes, more) == NodesPath(h, nodes, fuel)
    decreases fuel, 0, |nodes|
  {
    if nodes != [] {
      var v := nodes[|nodes| - 1];
      MoreFuelForNodes(h, nodes[..|nodes| - 1], fuel, more);
      if v.transport in h.inner { MoreFuel(h, h.inner[v.transport], fuel - 1, more - 1); }
    }
  }

  lemma LeadsIsThePath(h: Heap, route: nat, path: seq<Node>, enough: nat, other: seq<Node>)
    requires Leads(h, route, path, enough)
    ensures Yields(h, route, other) <==> other == path
  {
    assert RoutePath(h, route, enough) == Some(path);
    if Yields(h, route, other) {
      var fuel: nat :| RoutePath(h, route, fuel) == Some(other);
      MoreFuel(h, route, fuel, fuel + enough);
    }
  }

  lemma {:induction false} FindShared(nodes: seq<Node>, later: seq<Node>, multiplex: set<nat>, n: nat) returns (found: bool, i: nat, j: nat)
    requires n <= |nodes| && forall p :: n <= p < |nodes| ==> Untouched(nodes[p].transport, later, multiplex)
    ensures if found then LastShared(nodes, later, multiplex, i, j)
            else forall p :: 0 <= p < |nodes| ==> Untouched(nodes[p].transport, later, multiplex)
    decreases n
  {
    if n == 0 {
      found, i, j := false, 0, 0;
    } else if Untouched(nodes[n - 1].transport, later, multiplex) {
      found, i, j := FindShared(nodes, later, multiplex, n - 1);
    } else {
      found, i := true, n - 1;
      j :| 0 <= j < |later| && later[j].transport == nodes[n - 1].transport;
    }
  }

  // An earlier route keeps its path under a later call if and only if both calls selected the
  // same nodes up to the last transport they share.
  lemma EarlierPathStaysExactly(h: Heap, nodes: seq<Node>, later: seq<Node>, multiplex: set<nat>)
    requires Distinct(nodes, multiplex) && Plain(h, nodes, multiplex)
    requires Distinct(later, multiplex) && Plain(h, later, multiplex)
    ensures var k := Build(h, nodes, multiplex);
            Yields(Build(k, later, multiplex), Latest(k), nodes)
            <==> forall i: nat, j: nat :: LastShared(nodes, later, multiplex, i, j) ==> later[..j] == nodes[..i]
  {
    var k := Build(h, nodes, multiplex);
    var m := Build(k, later, multiplex);
    var found, i, j := FindShared(nodes, later, multiplex, |nodes|);
    if found {
      var enough := LaterCallReroutes(h, nodes, later, multiplex, i, j);
      LeadsIsThePath(m, Latest(k), later[..j] + nodes[i..], enough, nodes);
      SamePrefix(nodes, later, i, j);
      OnlyShared(nodes, later, multiplex, i, j);
    } else {
      EarlierPathStays(h, nodes, later, multiplex, |k.routes|);
      BuildIsClean(h, nodes, multiplex);
      assert forall i: nat, j: nat :: !LastShared(nodes, later, multiplex, i, j);
    }
  }

  lemma SamePrefix(nodes: seq<Node>, later: seq<Node>, i: nat, j: nat)
    requires i <= |nodes| && j <= |later|
    ensures later[..j] + nodes[i..] == nodes <==> later[..j] == nodes[..i]
  {
    assert nodes[..i] + nodes[i..] == nodes;
    if later[..j] + nodes[i..] == nodes {
      assert |later[..j]| == i;
      assert later[..j] == (later[..j] + nodes[i..])[..i];
    }
  }

  lemma LastIsLast(nodes: seq<Node>, later: seq<Node>, multiplex: set<nat>, i: nat, j: nat, p: nat, q: nat)
    requires LastShared(nodes, later, multiplex, i, j) && LastShared(nodes, later, multiplex, p, q)
    ensures p <= i
  {
  }

  lemma OnlyShared(nodes: seq<Node>, later: seq<Node>, multiplex: set<nat>, i: nat, j: nat)
    requires Distinct(later, multiplex) && LastShared(nodes, later, multiplex, i, j)
    ensures forall p: nat, q: nat :: LastShared(nodes, later, multiplex, p, q) ==> p == i && q == j
  {
    forall p: nat, q: nat | LastShared(nodes, later, multiplex, p, q) ensures p == i && q == j {
      LastIsLast(nodes, later, multiplex, i, j, p, q);
      LastIsLast(nodes, later, multiplex, p, q, i, j);
    }
  }

  // Repeating a call leaves the path of the first one alone.
  lemma RepeatedCallKeepsPath(h: Heap, nodes: seq<Node>, multiplex: set<nat>)
    requires Distinct(nodes, multiplex) && Plain(h, nodes, multiplex)
    ensures Yields(Build(Build(h, nodes, multiplex), nodes, multiplex), Latest(Build(h, nodes, multiplex)), nodes)
  {
    forall i: nat, j: nat | LastShared(nodes, nodes, multiplex, i, j) ensures nodes[..j] == nodes[..i] {
      assert i == j;
    }
    EarlierPathStaysExactly(h, nodes, nodes, multiplex);
  }

  // Two calls that end in the same multiplexing transport: the route of the first now starts
  // with the node that only the second selected.
  lemma SharedExitReroutes(h: Heap, a: Node, b: Node, c: Node) returns (enough: nat)
    requires h.inner == map[] && a.transport != b.transport && c.transport != b.transport && a != c
    ensures var k := Build(h, [a, b], {b.transport});
            var m := Build(k, [c, b], {b.transport});
            Leads(m, Latest(k), [c, b], enough) && !Yields(m, Latest(k), [a, b])
  {
    assert LastShared([a, b], [c, b], {b.transport}, 1, 1);
    enough := LaterCallReroutes(h, [a, b], [c, b], {b.transport}, 1, 1);
    assert [c, b][..1] + [a, b][1..] == [c, b];
    EarlierPathStaysExactly(h, [a, b], [c, b], {b.transport});
    assert [c, b][..1] == [c] && [a, b][..1] == [a];
  }
}
