/** Routing on an arbitrary network.

Every router computes its own table with Dijkstra's algorithm, breaking ties on its own.  A
packet is forwarded hop by hop by whichever table the current router has.  The tables agree in
the sense that matters: each hop lies on some shortest path, so that the packet never meets a
router twice and travels the minimum total latency.
*/
module AnyNets {
  import opened Matching

  /** The largest machine integer; it marks a router whose distance is not known yet. */
  const INT_MAX: int := 0x7fff_ffff

  /** An output of a router: the port it was given and its latency. */
  datatype Link = Link(port: int, lat: int)

  /** links[r] maps the neighbours of router r, nodes[r] the nodes attached to it. */
  datatype Graph = Graph(links: seq<map<int, Link>>, nodes: seq<map<int, Link>>) {
    function Size(): nat {
      |links|
    }

    predicate Router(r: int) {
      0 <= r < |links|
    }

    predicate Edge(u: int, v: int) {
      Router(u) && v in links[u]
    }

    function Lat(u: int, v: int): int
      requires Edge(u, v)
    {
      links[u][v].lat
    }

    /** Links name routers, run both ways and have positive latency; every node hangs on one router;
        the ports of a router are distinct. */
    ghost predicate Ok() {
      && |nodes| == |links|
      && (forall u, v :: Edge(u, v) ==> Router(v) && Edge(v, u) && 0 < Lat(u, v))
      && (forall r, s, x :: Router(r) && Router(s) && x in nodes[r] && x in nodes[s] ==> r == s)
      && (forall r, v, w :: Router(r) && v in links[r] && w in links[r] && links[r][v].port == links[r][w].port ==> v == w)
      && (forall r, v, x :: Router(r) && v in links[r] && x in nodes[r] ==> links[r][v].port != nodes[r][x].port)
    }
  }

  ghost predicate Linked(g: Graph, p: seq<int>) {
    0 < |p| && g.Router(p[0]) && forall k {:trigger p[k]} :: 0 < k < |p| ==> g.Edge(p[k - 1], p[k])
  }

  /** A walk along links. */
  ghost predicate IsPath(g: Graph, p: seq<int>, s: int, t: int) {
    Linked(g, p) && p[0] == s && p[|p| - 1] == t
  }

  /** The latency of a walk. */
  ghost function Cost(g: Graph, p: seq<int>): int
    requires Linked(g, p)
  {
    if |p| == 1 then 0
    else
      var n := |p| - 1;
      assert g.Edge(p[n - 1], p[n]);
      Cost(g, p[..n]) + g.Lat(p[n - 1], p[n])
  }

  lemma LinkedPrefix(g: Graph, p: seq<int>)
    requires Linked(g, p) && 1 < |p|
    ensures var n := |p| - 1; Linked(g, p[..n]) && g.Edge(p[n - 1], p[n]) && p[..n][n - 1] == p[n - 1]
  {
    var q := p[..|p| - 1];
    forall k | 0 < k < |q|
      ensures g.Edge(q[k - 1], q[k])
    {
      assert q[k] == p[k];
    }
    assert p[|p| - 1] == p[|p| - 1];
  }

  /** d is the least latency from s to t. */
  ghost predicate IsDist(g: Graph, s: int, t: int, d: int) {
    && (exists p :: IsPath(g, p, s, t) && Cost(g, p) == d)
    && (forall p :: IsPath(g, p, s, t) ==> d <= Cost(g, p))
  }

  ghost predicate LinksFit(g: Graph, bound: int) {
    bound < INT_MAX && forall u, v :: g.Edge(u, v) ==> bound + g.Lat(u, v) <= INT_MAX
  }

  ghost predicate WithinCost(g: Graph, s: int, t: int, bound: int) {
    exists p :: IsPath(g, p, s, t) && Cost(g, p) <= bound
  }

  /** From s every router can be reached, cheaply enough that one more link does not overflow. */
  ghost predicate ReachableFrom(g: Graph, s: int) {
    exists bound :: 0 <= bound && LinksFit(g, bound) && forall t :: g.Router(t) ==> WithinCost(g, s, t, bound)
  }

  /** Every router with a known distance, except s, was reached over a link from a settled router. */
  ghost predicate Parents(g: Graph, s: int, dist: seq<int>, prev: seq<int>, rlist: set<int>)
    requires |dist| == |prev| == g.Size()
  {
    && (forall v {:trigger prev[v]} :: g.Router(v) && v != s ==> (prev[v] == -1 <==> dist[v] == INT_MAX))
    && (forall v {:trigger prev[v]} :: g.Router(v) && prev[v] != -1 ==>
          prev[v] !in rlist && g.Edge(prev[v], v) && dist[v] == dist[prev[v]] + g.Lat(prev[v], v))
  }

  /** Settled routers have passed their distance on, the settled router c to neighbours below k only. */
  ghost predicate PassedOn(g: Graph, dist: seq<int>, rlist: set<int>, c: int, k: int)
    requires |dist| == g.Size() && g.Ok()
  {
    forall u, v {:trigger g.Edge(u, v)} :: g.Edge(u, v) && u !in rlist && (u != c || v < k) ==> dist[v] <= dist[u] + g.Lat(u, v)
  }

  /** No settled router is farther than an unsettled one. */
  ghost predicate SettledFirst(g: Graph, dist: seq<int>, rlist: set<int>)
    requires |dist| == g.Size()
  {
    && (forall v :: v in rlist ==> g.Router(v))
    && (forall u, v {:trigger dist[u], dist[v]} :: g.Router(u) && u !in rlist && v in rlist ==> dist[u] <= dist[v])
    && (forall u {:trigger dist[u]} :: g.Router(u) && u !in rlist ==> dist[u] < INT_MAX)
  }

  /** The state of Dijkstra's algorithm. */
  ghost predicate Search(g: Graph, s: int, dist: seq<int>, prev: seq<int>, rlist: set<int>, c: int, k: int) {
    && g.Ok() && g.Router(s) && |dist| == |prev| == g.Size()
    && dist[s] == 0 && prev[s] == -1
    && (forall v {:trigger dist[v]} :: g.Router(v) ==> 0 <= dist[v] <= INT_MAX)
    && Parents(g, s, dist, prev, rlist) && PassedOn(g, dist, rlist, c, k) && SettledFirst(g, dist, rlist)
  }

  lemma SearchStarts(g: Graph, s: int, dist: seq<int>, prev: seq<int>, rlist: set<int>)
    requires g.Ok() && g.Router(s)
    requires |dist| == |prev| == g.Size() && dist[s] == 0
    requires forall v :: g.Router(v) ==> prev[v] == -1 && (v != s ==> dist[v] == INT_MAX)
    requires forall v :: v in rlist <==> g.Router(v)
    ensures Search(g, s, dist, prev, rlist, -1, 0)
  {
  }

  /** Settling the nearest unsettled router. */
  lemma Settle(g: Graph, s: int, dist: seq<int>, prev: seq<int>, rlist: set<int>, c: int)
    requires Search(g, s, dist, prev, rlist, -1, 0)
    requires c in rlist && dist[c] < INT_MAX && forall v :: v in rlist ==> dist[c] <= dist[v]
    ensures Search(g, s, dist, prev, rlist - {c}, c, 0)
    ensures g.Router(c) && forall u :: g.Router(u) && u !in rlist - {c} ==> dist[u] <= dist[c]
  {
    var rest := rlist - {c};
    assert SettledFirst(g, dist, rest);
    assert Parents(g, s, dist, prev, rest);
    assert PassedOn(g, dist, rest, c, 0) by {
      hide SettledFirst, Parents;
      forall u, v | g.Edge(u, v) && u !in rest && (u != c || v < 0)
        ensures dist[v] <= dist[u] + g.Lat(u, v)
      {
        assert g.Router(v);
      }
    }
  }

  lemma RelaxParents(g: Graph, s: int, dist: seq<int>, prev: seq<int>, rlist: set<int>, c: int, v: int, d: int)
    requires |dist| == |prev| == g.Size() && Parents(g, s, dist, prev, rlist)
    requires g.Edge(c, v) && g.Router(v) && c !in rlist && v in rlist && v != s && d == dist[c] + g.Lat(c, v) < INT_MAX
    requires c != -1
    ensures Parents(g, s, dist[v := d], prev[v := c], rlist)
  {
  }

  lemma RelaxPassedOn(g: Graph, dist: seq<int>, rlist: set<int>, c: int, v: int, d: int)
    requires g.Ok() && |dist| == g.Size() && PassedOn(g, dist, rlist, c, v)
    requires g.Edge(c, v) && c !in rlist && v in rlist && d == dist[c] + g.Lat(c, v) <= dist[v]
    ensures PassedOn(g, dist[v := d], rlist, c, v + 1)
  {
  }

  /** Passing the distance of c on to its neighbour v. */
  lemma Relax(g: Graph, s: int, dist: seq<int>, prev: seq<int>, rlist: set<int>, c: int, v: int)
    requires Search(g, s, dist, prev, rlist, c, v) && g.Router(c) && c !in rlist && g.Edge(c, v)
    requires dist[c] + g.Lat(c, v) < dist[v]
    requires forall u :: g.Router(u) && u !in rlist ==> dist[u] <= dist[c]
    ensures v in rlist && v != s
    ensures Search(g, s, dist[v := dist[c] + g.Lat(c, v)], prev[v := c], rlist, c, v + 1)
    ensures forall u :: g.Router(u) && u !in rlist ==> dist[v := dist[c] + g.Lat(c, v)][u] <= dist[c]
  {
    var d := dist[c] + g.Lat(c, v);
    assert g.Router(v) && 0 < g.Lat(c, v);
    assert v in rlist;
    RelaxParents(g, s, dist, prev, rlist, c, v, d);
    RelaxPassedOn(g, dist, rlist, c, v, d);
    hide Parents, PassedOn;
    assert SettledFirst(g, dist[v := d], rlist);
  }

  lemma NoRelax(g: Graph, s: int, dist: seq<int>, prev: seq<int>, rlist: set<int>, c: int, v: int)
    requires Search(g, s, dist, prev, rlist, c, v)
    requires g.Edge(c, v) ==> dist[v] <= dist[c] + g.Lat(c, v)
    ensures Search(g, s, dist, prev, rlist, c, v + 1)
  {
  }

  lemma AllRelaxed(g: Graph, s: int, dist: seq<int>, prev: seq<int>, rlist: set<int>, c: int)
    requires Search(g, s, dist, prev, rlist, c, g.Size())
    ensures Search(g, s, dist, prev, rlist, -1, 0)
  {
  }

  /** Somewhere along a walk to t there is an unsettled router known to be at most as far as the walk
      is long, unless t itself is settled and known to be that near. */
  lemma {:induction false} FrontierOnPath(g: Graph, s: int, dist: seq<int>, prev: seq<int>, rlist: set<int>, p: seq<int>, t: int)
    returns (v: int)
    requires Search(g, s, dist, prev, rlist, -1, 0) && IsPath(g, p, s, t)
    ensures 0 <= Cost(g, p) && g.Router(t)
    ensures (v in rlist && dist[v] <= Cost(g, p)) || (t !in rlist && dist[t] <= Cost(g, p))
    decreases |p|
  {
    v := t;
    if |p| > 1 {
      var n := |p| - 1;
      LinkedPrefix(g, p);
      assert Cost(g, p) == Cost(g, p[..n]) + g.Lat(p[n - 1], p[n]);
      hide Cost;
      v := FrontierOnPath(g, s, dist, prev, rlist, p[..n], p[n - 1]);
      assert g.Edge(p[n - 1], p[n]);
      if v !in rlist || dist[v] > Cost(g, p) {
        v := t;
      }
    }
  }

  /** When the algorithm ends, dist and prev satisfy this, and it makes dist the distances from s. */
  ghost predicate ShortestTree(g: Graph, s: int, dist: seq<int>, prev: seq<int>) {
    && g.Ok() && g.Router(s) && |dist| == |prev| == g.Size() && dist[s] == 0 && prev[s] == -1
    && (forall v {:trigger dist[v]} :: g.Router(v) ==> 0 <= dist[v] < INT_MAX)
    && (forall u, v {:trigger g.Edge(u, v)} :: g.Edge(u, v) ==> dist[v] <= dist[u] + g.Lat(u, v))
    && (forall v {:trigger prev[v]} :: g.Router(v) && v != s ==>
          g.Edge(prev[v], v) && dist[v] == dist[prev[v]] + g.Lat(prev[v], v))
  }

  lemma SearchEnds(g: Graph, s: int, dist: seq<int>, prev: seq<int>)
    requires Search(g, s, dist, prev, {}, -1, 0)
    ensures ShortestTree(g, s, dist, prev)
  {
  }

  lemma {:induction false} NoShorterPath(g: Graph, s: int, dist: seq<int>, prev: seq<int>, p: seq<int>, t: int)
    requires ShortestTree(g, s, dist, prev) && IsPath(g, p, s, t)
    ensures g.Router(t) && dist[t] <= Cost(g, p)
    decreases |p|
  {
    if |p| > 1 {
      var n := |p| - 1;
      LinkedPrefix(g, p);
      NoShorterPath(g, s, dist, prev, p[..n], p[n - 1]);
      assert g.Edge(p[n - 1], p[n]);
    }
  }

  lemma Extend(g: Graph, p: seq<int>, t: int)
    requires Linked(g, p) && g.Edge(p[|p| - 1], t)
    ensures Linked(g, p + [t]) && Cost(g, p + [t]) == Cost(g, p) + g.Lat(p[|p| - 1], t)
  {
    assert (p + [t])[..|p|] == p;
  }

  lemma {:induction false} TreePath(g: Graph, s: int, dist: seq<int>, prev: seq<int>, t: int) returns (p: seq<int>)
    requires ShortestTree(g, s, dist, prev) && g.Router(t)
    ensures IsPath(g, p, s, t) && Cost(g, p) == dist[t]
    decreases dist[t]
  {
    if t == s {
      p := [s];
    } else {
      assert g.Edge(prev[t], t);
      var q := TreePath(g, s, dist, prev, prev[t]);
      Extend(g, q, t);
      p := q + [t];
    }
  }

  /** The outcome of the algorithm is the least latency to every router. */
  lemma TreeIsShortest(g: Graph, s: int, dist: seq<int>, prev: seq<int>)
    requires ShortestTree(g, s, dist, prev)
    ensures forall t :: g.Router(t) ==> IsDist(g, s, t, dist[t])
  {
    forall t | g.Router(t)
      ensures IsDist(g, s, t, dist[t])
    {
      var p := TreePath(g, s, dist, prev, t);
      forall q | IsPath(g, q, s, t)
        ensures dist[t] <= Cost(g, q)
      {
        NoShorterPath(g, s, dist, prev, q, t);
      }
    }
  }

  /** The neighbour nb of s starts a walk to t that is as short as t's distance d from s. */
  ghost predicate GoodHop(g: Graph, s: int, nb: int, t: int, d: int) {
    g.Edge(s, nb) && exists p :: IsPath(g, p, nb, t) && Cost(g, p) == d - g.Lat(s, nb)
  }

  /** What the table of s says about the nodes of router t: their own port at home, otherwise the port of
      a neighbour that starts a shortest walk. */
  ghost predicate RowFor(g: Graph, s: int, t: int, d: int, row: map<int, int>)
    requires g.Ok() && g.Router(s) && g.Router(t)
  {
    if s == t then forall x :: x in g.nodes[t] ==> x in row && row[x] == g.nodes[t][x].port
    else exists nb :: GoodHop(g, s, nb, t, d) && forall x :: x in g.nodes[t] ==> x in row && row[x] == g.links[s][nb].port
  }

  /** The nodes of router t are routed along a shortest path. */
  ghost predicate Serves(g: Graph, s: int, t: int, row: map<int, int>)
    requires g.Ok() && g.Router(s) && g.Router(t)
  {
    exists d :: IsDist(g, s, t, d) && RowFor(g, s, t, d, row)
  }

  /** The tables of all routers, with the distances they were computed from. */
  ghost predicate Tables(g: Graph, dists: seq<seq<int>>, table: seq<map<int, int>>) {
    && g.Ok() && |dists| == |table| == g.Size()
    && (forall s {:trigger dists[s]} :: g.Router(s) ==> |dists[s]| == g.Size())
    && (forall s, t {:trigger dists[s][t]} :: g.Router(s) && g.Router(t) ==>
          IsDist(g, s, t, dists[s][t]) && RowFor(g, s, t, dists[s][t], table[s]))
  }

  lemma {:induction false} Prepend(g: Graph, u: int, p: seq<int>)
    requires Linked(g, p) && g.Edge(u, p[0])
    ensures Linked(g, [u] + p) && Cost(g, [u] + p) == g.Lat(u, p[0]) + Cost(g, p)
    decreases |p|
  {
    var q := [u] + p;
    forall k | 0 < k < |q|
      ensures g.Edge(q[k - 1], q[k])
    {
      assert k > 1 ==> p[k - 1] == q[k] && g.Edge(p[k - 2], p[k - 1]);
    }
    if |p| == 1 {
      assert Cost(g, [u]) == 0 && q[..1] == [u];
    } else {
      var n := |p| - 1;
      LinkedPrefix(g, p);
      Prepend(g, u, p[..n]);
      assert q[..n + 1] == [u] + p[..n];
    }
  }

  /** A good hop leads to a router that is nearer to the destination by exactly the latency of the link. */
  lemma GoodHopIsNearer(g: Graph, s: int, nb: int, t: int, d: int, e: int)
    requires g.Ok() && GoodHop(g, s, nb, t, d) && IsDist(g, s, t, d) && IsDist(g, nb, t, e)
    ensures e + g.Lat(s, nb) == d
  {
    hide Cost;
    var p :| IsPath(g, p, nb, t) && Cost(g, p) == d - g.Lat(s, nb);
    var q :| IsPath(g, q, nb, t) && Cost(g, q) == e;
    Prepend(g, s, q);
    assert IsPath(g, [s] + q, s, t);
  }

  /** The router that the link at a port of r leads to. */
  ghost function LinkAt(g: Graph, r: int, port: int): int
    requires g.Router(r) && exists nb :: g.Edge(r, nb) && g.links[r][nb].port == port
  {
    var nb :| g.Edge(r, nb) && g.links[r][nb].port == port;
    nb
  }

  lemma {:induction false} CostIsNonneg(g: Graph, p: seq<int>)
    requires g.Ok() && Linked(g, p)
    ensures 0 <= Cost(g, p)
    decreases |p|
  {
    if |p| > 1 {
      LinkedPrefix(g, p);
      CostIsNonneg(g, p[..|p| - 1]);
    }
  }

  lemma OneHop(g: Graph, dists: seq<seq<int>>, table: seq<map<int, int>>, r: int, h: int, x: int)
    requires Tables(g, dists, table) && g.Router(r) && g.Router(h) && x in g.nodes[h] && r != h
    ensures x in table[r] && exists nb :: g.Edge(r, nb) && g.links[r][nb].port == table[r][x]
    ensures var nb := LinkAt(g, r, table[r][x]);
            g.Router(nb) && g.Edge(r, nb) && 0 < g.Lat(r, nb) && dists[nb][h] + g.Lat(r, nb) == dists[r][h]
    ensures 0 <= dists[r][h]
  {
    var d := dists[r][h];
    assert RowFor(g, r, h, d, table[r]);
    var nb :| GoodHop(g, r, nb, h, d) && forall y :: y in g.nodes[h] ==> y in table[r] && table[r][y] == g.links[r][nb].port;
    assert LinkAt(g, r, table[r][x]) == nb;
    assert g.Router(nb);
    assert IsDist(g, nb, h, dists[nb][h]);
    GoodHopIsNearer(g, r, nb, h, d, dists[nb][h]);
    var p :| IsPath(g, p, nb, h) && Cost(g, p) == dists[nb][h];
    CostIsNonneg(g, p);
  }

  /** The routers a packet for node x visits from r on, each router using its own table. */
  ghost function Forward(g: Graph, dists: seq<seq<int>>, table: seq<map<int, int>>, r: int, h: int, x: int): seq<int>
    requires Tables(g, dists, table) && g.Router(r) && g.Router(h) && x in g.nodes[h]
    decreases if r == h then 0 else dists[r][h] + 1
  {
    if r == h then [r]
    else
      OneHop(g, dists, table, r, h, x);
      var nb := LinkAt(g, r, table[r][x]);
      assert nb != h ==> 0 <= dists[nb][h] by {
        if nb != h { OneHop(g, dists, table, nb, h, x); }
      }
      [r] + Forward(g, dists, table, nb, h, x)
  }

  lemma DistToSelf(g: Graph, h: int, d: int)
    requires g.Ok() && g.Router(h) && IsDist(g, h, h, d)
    ensures d == 0
  {
    assert IsPath(g, [h], h, h) && Cost(g, [h]) == 0;
    var p :| IsPath(g, p, h, h) && Cost(g, p) == d;
    CostIsNonneg(g, p);
  }

  /** Hop-by-hop forwarding reaches the node's router over a walk of minimum latency, and there the
      table names the node's own port. */
  lemma {:induction false} ForwardDelivers(g: Graph, dists: seq<seq<int>>, table: seq<map<int, int>>, r: int, h: int, x: int)
    requires Tables(g, dists, table) && g.Router(r) && g.Router(h) && x in g.nodes[h]
    ensures IsPath(g, Forward(g, dists, table, r, h, x), r, h)
    ensures Cost(g, Forward(g, dists, table, r, h, x)) == dists[r][h]
    ensures IsDist(g, r, h, dists[r][h])
    ensures x in table[h] && table[h][x] == g.nodes[h][x].port
    decreases if r == h then 0 else dists[r][h] + 1
  {
    assert RowFor(g, h, h, dists[h][h], table[h]);
    assert IsDist(g, r, h, dists[r][h]);
    if r == h {
      DistToSelf(g, h, dists[h][h]);
    } else {
      OneHop(g, dists, table, r, h, x);
      var nb := LinkAt(g, r, table[r][x]);
      if nb != h { OneHop(g, dists, table, nb, h, x); }
      ForwardDelivers(g, dists, table, nb, h, x);
      Prepend(g, r, Forward(g, dists, table, nb, h, x));
    }
  }

  /** The packet gets strictly nearer with every hop, so it never visits a router twice. */
  lemma {:induction false} ForwardNeverLoops(g: Graph, dists: seq<seq<int>>, table: seq<map<int, int>>, r: int, h: int, x: int)
    requires Tables(g, dists, table) && g.Router(r) && g.Router(h) && x in g.nodes[h]
    ensures forall y :: y in Forward(g, dists, table, r, h, x) ==> g.Router(y) && dists[y][h] <= dists[r][h]
    ensures forall k, l :: 0 <= k < l < |Forward(g, dists, table, r, h, x)| ==>
              Forward(g, dists, table, r, h, x)[k] != Forward(g, dists, table, r, h, x)[l]
    decreases if r == h then 0 else dists[r][h] + 1
  {
    if r != h {
      OneHop(g, dists, table, r, h, x);
      var nb := LinkAt(g, r, table[r][x]);
      if nb != h { OneHop(g, dists, table, nb, h, x); }
      hide Tables;
      ForwardNeverLoops(g, dists, table, nb, h, x);
      var rest := Forward(g, dists, table, nb, h, x);
      assert Forward(g, dists, table, r, h, x) == [r] + rest;
      assert r !in rest;
    }
  }

  /** Some unsettled router is within reach, and the nearest one can pass its distance on without overflow. */
  lemma NearEnough(g: Graph, s: int, dist: seq<int>, prev: seq<int>, rlist: set<int>, c: int)
    requires Search(g, s, dist, prev, rlist, -1, 0) && rlist != {} && ReachableFrom(g, s)
    requires c == -1 ==> forall v :: v in rlist ==> INT_MAX <= dist[v]
    requires c != -1 ==> c in rlist && forall v :: v in rlist ==> dist[c] <= dist[v]
    ensures c != -1 && g.Router(c) && forall v :: g.Edge(c, v) ==> dist[c] + g.Lat(c, v) <= INT_MAX
  {
    var bound :| 0 <= bound && LinksFit(g, bound) && forall t :: g.Router(t) ==> WithinCost(g, s, t, bound);
    var t := c;
    if c == -1 {
      t := Pick(rlist);
    }
    assert WithinCost(g, s, t, bound);
    var p :| IsPath(g, p, s, t) && Cost(g, p) <= bound;
    var v := FrontierOnPath(g, s, dist, prev, rlist, p, t);
    assert v in rlist && dist[v] <= bound;
  }

  /** Adding the nodes of router i leaves what was said about the nodes of other routers alone. */
  lemma OtherRowsKept(g: Graph, s: int, i: int, d: seq<int>, row: map<int, int>, row1: map<int, int>)
    requires g.Ok() && g.Router(s) && g.Router(i) && |d| == g.Size()
    requires forall t :: 0 <= t < i ==> RowFor(g, s, t, d[t], row)
    requires forall x :: x in row && x !in g.nodes[i] ==> x in row1 && row1[x] == row[x]
    ensures forall t :: 0 <= t < i ==> RowFor(g, s, t, d[t], row1)
  {
    forall t | 0 <= t < i
      ensures RowFor(g, s, t, d[t], row1)
    {
      assert RowFor(g, s, t, d[t], row);
      if s != t {
        var nb :| GoodHop(g, s, nb, t, d[t]) && forall x :: x in g.nodes[t] ==> x in row && row[x] == g.links[s][nb].port;
        assert forall x :: x in g.nodes[t] ==> x !in g.nodes[i];
        assert forall x :: x in g.nodes[t] ==> x in row1 && row1[x] == g.links[s][nb].port;
      }
    }
  }

  class AnyNet {
    const g: Graph
    var routingTable: seq<map<int, int>>

    constructor (g: Graph)
      ensures this.g == g && routingTable == []
    {
      this.g := g;
      routingTable := [];
    }

    /** The unsettled router with the least known distance, the lowest numbered one in case of a tie. */
    method FindMin(dist: array<int>, rlist: set<int>) returns (minCand: int)
      requires dist.Length == g.Size() && forall v :: v in rlist ==> 0 <= v < dist.Length
      ensures minCand == -1 ==> forall v :: v in rlist ==> INT_MAX <= dist[v]
      ensures minCand != -1 ==> minCand in rlist && dist[minCand] < INT_MAX && forall v :: v in rlist ==> dist[minCand] <= dist[v]
    {
      var minDist := INT_MAX;
      minCand := -1;
      var i := 0;
      while i < g.Size()
        invariant 0 <= i <= g.Size()
        invariant minCand == -1 ==> minDist == INT_MAX
        invariant minCand != -1 ==> minCand in rlist && minDist == dist[minCand] < INT_MAX
        invariant forall v :: v in rlist && v < i ==> minDist <= dist[v]
      {
        if i in rlist && dist[i] < minDist {
          minDist := dist[i];
          minCand := i;
        }
        i := i + 1;
      }
    }

    /** Passes the distance of the newly settled router on to its neighbours. */
    method RelaxNeighbours(ghost s: int, dist: array<int>, prev: array<int>, ghost rlist: set<int>, c: int)
      requires dist != prev && dist.Length == prev.Length == g.Size()
      requires g.Router(c) && c !in rlist && Search(g, s, dist[..], prev[..], rlist, c, 0)
      requires forall u :: g.Router(u) && u !in rlist ==> dist[..][u] <= dist[..][c]
      requires forall v :: g.Edge(c, v) ==> dist[c] + g.Lat(c, v) <= INT_MAX
      modifies dist, prev
      ensures Search(g, s, dist[..], prev[..], rlist, -1, 0)
    {
      hide Search;
      var v := 0;
      while v < g.Size()
        invariant 0 <= v <= g.Size()
        invariant Search(g, s, dist[..], prev[..], rlist, c, v)
        invariant dist[c] == old(dist[c]) && forall u :: g.Router(u) && u !in rlist ==> dist[..][u] <= dist[..][c]
      {
        ghost var d0, p0 := dist[..], prev[..];
        if v in g.links[c] {
          assert g.Edge(c, v);
          var newDist := dist[c] + g.links[c][v].lat;
          assert newDist <= INT_MAX;
          if newDist < dist[v] {
            Relax(g, s, d0, p0, rlist, c, v);
            dist[v] := newDist;
            prev[v] := c;
            assert dist[..] == d0[v := newDist] && prev[..] == p0[v := c];
          } else {
            NoRelax(g, s, d0, p0, rlist, c, v);
          }
        } else {
          NoRelax(g, s, d0, p0, rlist, c, v);
        }
        v := v + 1;
      }
      AllRelaxed(g, s, dist[..], prev[..], rlist, c);
    }

    /** Dijkstra's algorithm from router s. */
    method Dijkstra(s: int) returns (dist: array<int>, prev: array<int>)
      requires g.Ok() && g.Router(s) && ReachableFrom(g, s)
      ensures fresh(dist) && fresh(prev)
      ensures ShortestTree(g, s, dist[..], prev[..])
    {
      hide Search, ShortestTree, ReachableFrom, Graph.Ok;
      dist := new int[g.Size()](_ => INT_MAX);
      prev := new int[g.Size()](_ => -1);
      var rlist := set v | 0 <= v < g.Size() && g.Router(v);
      dist[s] := 0;
      SearchStarts(g, s, dist[..], prev[..], rlist);
      while rlist != {}
        invariant fresh(dist) && fresh(prev) && dist != prev && dist.Length == prev.Length == g.Size()
        invariant (forall v :: v in rlist ==> g.Router(v)) && Search(g, s, dist[..], prev[..], rlist, -1, 0)
        decreases |rlist|
      {
        var minCand := FindMin(dist, rlist);
        NearEnough(g, s, dist[..], prev[..], rlist, minCand);
        Settle(g, s, dist[..], prev[..], rlist, minCand);
        rlist := rlist - {minCand};
        RelaxNeighbours(s, dist, prev, rlist, minCand);
      }
      SearchEnds(g, s, dist[..], prev[..]);
    }

    /** Follows prev from router t back to a neighbour of s. */
    method FirstHop(s: int, t: int, dist: array<int>, prev: array<int>) returns (neighbor: int, distance: int)
      requires prev.Length == g.Size() && dist.Length == g.Size()
      requires ShortestTree(g, s, dist[..], prev[..]) && g.Router(t) && t != s
      ensures GoodHop(g, s, neighbor, t, dist[t]) && distance == dist[t]
    {
      distance := 0;
      neighbor := t;
      ghost var p := [t];
      ghost var d, pr := dist[..], prev[..];
      while prev[neighbor] != s
        invariant g.Router(neighbor) && neighbor != s
        invariant IsPath(g, p, neighbor, t) && Cost(g, p) == distance == d[t] - d[neighbor]
        decreases d[neighbor]
      {
        ghost var u := pr[neighbor];
        assert g.Edge(u, neighbor) && prev[neighbor] in g.links[neighbor];
        Prepend(g, u, p);
        p := [u] + p;
        distance := distance + g.links[prev[neighbor]][neighbor].lat;
        neighbor := prev[neighbor];
      }
      assert g.Edge(pr[neighbor], neighbor);
      distance := distance + g.links[prev[neighbor]][neighbor].lat;
    }

    /** Enters the nodes of router i into the table of router s. */
    method AddNodes(s: int, i: int, dist: array<int>, prev: array<int>, row: map<int, int>) returns (row1: map<int, int>)
      requires prev.Length == g.Size() && dist.Length == g.Size()
      requires ShortestTree(g, s, dist[..], prev[..]) && g.Router(i)
      ensures RowFor(g, s, i, dist[i], row1)
      ensures forall x :: x in row && x !in g.nodes[i] ==> x in row1 && row1[x] == row[x]
    {
      assert i != s ==> g.Edge(prev[..][i], i);
      if prev[i] == -1 {
        assert i == s;
        row1 := row + map x | x in g.nodes[i] :: g.nodes[i][x].port;
      } else {
        var neighbor, _ := FirstHop(s, i, dist, prev);
        var port := g.links[s][neighbor].port;
        row1 := row + map x | x in g.nodes[i] :: port;
        assert GoodHop(g, s, neighbor, i, dist[i]);
      }
    }

    /** The table of one router. */
    method Route(s: int) returns (row: map<int, int>, ghost d: seq<int>)
      requires g.Ok() && g.Router(s) && ReachableFrom(g, s)
      ensures |d| == g.Size() && forall t :: g.Router(t) ==> IsDist(g, s, t, d[t]) && RowFor(g, s, t, d[t], row)
      ensures forall t :: g.Router(t) ==> Serves(g, s, t, row)
    {
      hide RowFor, IsDist, ReachableFrom;
      var dist, prev := Dijkstra(s);
      d := dist[..];
      TreeIsShortest(g, s, d, prev[..]);
      row := map[];
      var i := 0;
      while i < g.Size()
        invariant 0 <= i <= g.Size() && d == dist[..] && |d| == g.Size() && ShortestTree(g, s, d, prev[..])
        invariant forall t :: 0 <= t < i ==> RowFor(g, s, t, d[t], row)
      {
        var row1 := AddNodes(s, i, dist, prev, row);
        OtherRowsKept(g, s, i, d, row, row1);
        row := row1;
        i := i + 1;
      }
    }

    /** Every router computes its own table. */
    method BuildRoutingTable() returns (ghost dists: seq<seq<int>>)
      requires g.Ok() && forall s :: g.Router(s) ==> ReachableFrom(g, s)
      modifies this
      ensures Tables(g, dists, routingTable)
    {
      hide RowFor, IsDist, ReachableFrom;
      routingTable, dists := [], [];
      var i := 0;
      while i < g.Size()
        invariant 0 <= i <= g.Size() && |routingTable| == |dists| == i
        invariant forall s {:trigger dists[s]} :: 0 <= s < i ==> |dists[s]| == g.Size()
        invariant forall s, t {:trigger dists[s][t]} :: 0 <= s < i && g.Router(t) ==>
          IsDist(g, s, t, dists[s][t]) && RowFor(g, s, t, dists[s][t], routingTable[s])
      {
        var row, d := Route(i);
        routingTable := routingTable + [row];
        dists := dists + [d];
        i := i + 1;
      }
    }

    /** The output port for a packet that is not being injected. */
    method MinAnynet(r: int, x: int, ghost h: int, ghost dists: seq<seq<int>>) returns (outPort: int)
      requires Tables(g, dists, routingTable) && g.Router(r) && g.Router(h) && x in g.nodes[h]
      ensures r == h ==> outPort == g.nodes[h][x].port
      ensures r != h ==> exists nb :: g.Edge(r, nb) && outPort == g.links[r][nb].port && dists[nb][h] + g.Lat(r, nb) == dists[r][h]
    {
      if r == h {
        assert RowFor(g, h, h, dists[h][h], routingTable[h]);
      } else {
        OneHop(g, dists, routingTable, r, h, x);
      }
      outPort := routingTable[r][x];
    }
  }
}
