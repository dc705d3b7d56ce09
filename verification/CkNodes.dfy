/** Addresses of routers and nodes in a concentrated torus, and the ejection ports of its nodes.

Routers form a grid of ks[d] positions in dimension d; every router carries a grid of cs[d] nodes
per dimension.  The nodes are attached to their routers in the order of their addresses.
*/
module CkNodes {
  import opened Arith
  import opened Radix
  import T = Torus

  /** The weights IndexToRouter gives to the dimensions. */
  ghost function RouterWeights(ks: seq<nat>): (w: seq<int>)
    ensures |w| == |ks|
  {
    seq(|ks|, d requires 0 <= d < |ks| => if d == 0 then 1 else T.Power(ks[d - 1], d))
  }

  /** The weights ConcentrationOffset gives to the dimensions. */
  ghost function OffsetWeights(cs: seq<nat>): seq<int> {
    seq(|cs|, d requires 0 <= d < |cs| => if d == 0 then 1 else cs[d - 1])
  }

  ghost predicate RoundTrips(ks: seq<nat>)
    requires Radices(ks)
  {
    forall x: nat :: x < Prod(ks) ==> Weighted(ToIndex(x, ks), RouterWeights(ks)) == x
  }

  lemma RoundTripNeedsStrides(ks: seq<nat>)
    requires Radices(ks) && RoundTrips(ks)
    ensures WeightsAreStrides(ks, RouterWeights(ks))
  {
    hide ToIndex, FromIndex, Prod, Weighted, WeightsAreStrides;
    WeightsExact(ks, RouterWeights(ks));
    forall ds | IsIndex(ds, ks)
      ensures Weighted(ds, RouterWeights(ks)) == FromIndex(ds, ks)
    {
      FromIndexInRange(ds, ks);
      ToFrom(ds, ks);
    }
  }

  /** Weighted sums are addresses. */
  lemma AddressIs(ks: seq<nat>, ds: seq<int>)
    requires Radices(ks) && IsIndex(ds, ks) && WeightsAreStrides(ks, RouterWeights(ks))
    ensures Weighted(ds, RouterWeights(ks)) == FromIndex(ds, ks) && 0 <= FromIndex(ds, ks) < Prod(ks)
    ensures ToIndex(FromIndex(ds, ks), ks) == ds
  {
    WeightsExact(ks, RouterWeights(ks));
    FromIndexInRange(ds, ks);
    ToFrom(ds, ks);
  }

  /** IndexToRouter inverts RouterIndex on every router exactly when its weights are the strides. */
  lemma AddressRoundTrip(ks: seq<nat>)
    requires Radices(ks)
    ensures RoundTrips(ks) <==> WeightsAreStrides(ks, RouterWeights(ks))
  {
    hide ToIndex, FromIndex, Prod, Weighted, WeightsAreStrides;
    if RoundTrips(ks) {
      RoundTripNeedsStrides(ks);
    }
    if WeightsAreStrides(ks, RouterWeights(ks)) {
      forall x: nat | x < Prod(ks)
        ensures Weighted(ToIndex(x, ks), RouterWeights(ks)) == x
      {
        FromTo(x, ks);
        AddressIs(ks, ToIndex(x, ks));
      }
    }
  }

  /** That is so for up to two dimensions, and whenever all radices are equal. */
  lemma StridesHold(ks: seq<nat>)
    requires |ks| <= 2 || forall d :: 0 < d < |ks| ==> ks[d] == ks[0]
    ensures WeightsAreStrides(ks, RouterWeights(ks))
  {
    forall d | 0 <= d < |ks|
      ensures RouterWeights(ks)[d] == Prod(ks[..d])
    {
      if d == 0 {
        assert ks[..0] == [];
      } else if forall j :: 0 < j < |ks| ==> ks[j] == ks[0] {
        var cfg := T.Config(ks[0], |ks|, false);
        assert T.Ks(cfg) == ks;
        T.StrideIsPower(cfg, d);
      } else {
        assert ks[..1] == [ks[0]] && Prod([]) == 1 && T.Power(ks[0], 0) == 1;
        assert Prod([ks[0]]) == ks[0] * 1;
      }
    }
  }

  lemma Index11()
    ensures Radices([2, 3, 2]) && Prod([2, 3, 2]) == 12 && ToIndex(11, [2, 3, 2]) == [1, 2, 1]
  {
    assert [2, 3, 2][1..] == [3, 2] && [3, 2][1..] == [2] && [2][1..] == [];
    assert Prod([2]) == 2 && Prod([3, 2]) == 6;
    assert ToIndex(0, []) == [] && ToIndex(1, [2]) == [1] && ToIndex(5, [3, 2]) == [2, 1];
  }

  lemma Weighted3(a: int, b: int, c: int, w: seq<int>)
    requires |w| == 3
    ensures Weighted([a, b, c], w) == w[0] * a + w[1] * b + w[2] * c
  {
    assert [a, b, c][..2] == [a, b] && [a, b][..1] == [a] && [a][..0] == [];
    assert Weighted([a], w) == w[0] * a && Weighted([a, b], w) == w[0] * a + w[1] * b;
  }

  /** Three dimensions of 2, 3 and 2 routers: the weights are 1, 2 and 9, the strides 1, 2 and 6.  The last router, 11,
      gets address 14, past the end. */
  lemma RoundTripFails()
    ensures Radices([2, 3, 2]) && Prod([2, 3, 2]) == 12 && !RoundTrips([2, 3, 2])
    ensures Weighted(ToIndex(11, [2, 3, 2]), RouterWeights([2, 3, 2])) == 14
  {
    hide ToIndex, Prod, Weighted;
    Index11();
    assert T.Power(3, 2) == 3 * T.Power(3, 1) && T.Power(3, 1) == 3 * T.Power(3, 0) && T.Power(2, 1) == 2 * T.Power(2, 0);
    assert RouterWeights([2, 3, 2]) == [1, 2, 9];
    Weighted3(1, 2, 1, RouterWeights([2, 3, 2]));
  }

  ghost predicate Sizes(ks: seq<nat>, cs: seq<nat>) {
    |ks| == |cs| && 0 < |ks| && Radices(ks) && Radices(cs)
  }

  /** Positions per dimension counted in nodes. */
  ghost function NodeRadices(ks: seq<nat>, cs: seq<nat>): seq<nat>
    requires |ks| == |cs|
  {
    seq(|ks|, d requires 0 <= d < |ks| => ks[d] * cs[d])
  }

  lemma NodeRadicesAre(ks: seq<nat>, cs: seq<nat>)
    requires |ks| == |cs|
    ensures |NodeRadices(ks, cs)| == |ks| && forall d :: 0 <= d < |ks| ==> NodeRadices(ks, cs)[d] == ks[d] * cs[d]
  {
  }

  lemma NodeRadicesPositive(ks: seq<nat>, cs: seq<nat>)
    requires Sizes(ks, cs)
    ensures Radices(NodeRadices(ks, cs))
  {
    forall d | 0 <= d < |ks|
      ensures 0 < ks[d] * cs[d]
    {
      MulMono(1, ks[d], cs[d]);
    }
  }

  ghost function NodePosition(ks: seq<nat>, cs: seq<nat>, node: nat): seq<int>
    requires Sizes(ks, cs)
  {
    NodeRadicesPositive(ks, cs);
    ToIndex(node, NodeRadices(ks, cs))
  }

  /** The router a node hangs on, and the node's place among the nodes of that router. */
  ghost function Home(ks: seq<nat>, cs: seq<nat>, node: nat): seq<int>
    requires Sizes(ks, cs)
  {
    NodeRadicesPositive(ks, cs);
    seq(|ks|, d requires 0 <= d < |ks| => Quot(NodePosition(ks, cs, node)[d], cs[d]))
  }

  ghost function Place(ks: seq<nat>, cs: seq<nat>, node: nat): seq<int>
    requires Sizes(ks, cs)
  {
    NodeRadicesPositive(ks, cs);
    seq(|ks|, d requires 0 <= d < |ks| => Rem(NodePosition(ks, cs, node)[d], cs[d]))
  }

  lemma HomeIsRouter(ks: seq<nat>, cs: seq<nat>, node: nat)
    requires Sizes(ks, cs)
    ensures IsIndex(Home(ks, cs, node), ks) && IsIndex(Place(ks, cs, node), cs)
  {
    hide Quot, Rem, ToIndex;
    NodeRadicesPositive(ks, cs);
    forall d | 0 <= d < |ks|
      ensures Home(ks, cs, node)[d] < ks[d]
    {
      var x := NodePosition(ks, cs, node)[d];
      assert x < NodeRadices(ks, cs)[d];
      QuotRem(x, cs[d]);
      if ks[d] <= Quot(x, cs[d]) {
        MulMono(ks[d], Quot(x, cs[d]), cs[d]);
      }
    }
  }

  /** The address the build loop computes for a node's router. */
  ghost function Address(ks: seq<nat>, cs: seq<nat>, node: nat): int
    requires Sizes(ks, cs)
  {
    Weighted(Home(ks, cs, node), RouterWeights(ks))
  }

  method Powi(x: nat, y: nat) returns (r: nat)
    ensures r == T.Power(x, y)
  {
    r := 1;
    var i := 0;
    while i < y
      invariant i <= y && r == T.Power(x, i)
    {
      r := x * r;
      i := i + 1;
    }
  }

  lemma IndexStep(id: nat, rs: seq<nat>, dim: nat)
    requires Radices(rs) && dim < |rs|
    ensures Quot(id, rs[dim]) >= 0 && ToIndex(id, rs[dim..]) == [Rem(id, rs[dim])] + ToIndex(Quot(id, rs[dim]), rs[dim + 1..])
  {
    assert rs[dim..][1..] == rs[dim + 1..] && rs[dim..][0] == rs[dim];
  }

  lemma IndexEnd(id: nat, rs: seq<nat>)
    requires Radices(rs)
    ensures ToIndex(id, rs[|rs|..]) == []
  {
  }

  /** The positions of a router, found by repeated division. */
  method RouterIndex(ks: seq<nat>, router: nat) returns (index: seq<int>)
    requires Radices(ks)
    ensures index == ToIndex(router, ks)
  {
    hide Quot, Rem, ToIndex;
    var id := router;
    index := [];
    var dim := 0;
    assert ks[0..] == ks;
    while dim < |ks|
      invariant 0 <= dim <= |ks| && index + ToIndex(id, ks[dim..]) == ToIndex(router, ks)
    {
      IndexStep(id, ks, dim);
      index := index + [Rem(id, ks[dim])];
      id := Quot(id, ks[dim]);
      dim := dim + 1;
    }
    IndexEnd(id, ks);
  }

  method IndexToRouter(ks: seq<nat>, index: seq<int>) returns (router: int)
    requires 0 < |ks| == |index|
    ensures router == Weighted(index, RouterWeights(ks))
  {
    router := index[0];
    ghost var w := RouterWeights(ks);
    var dim := 1;
    assert index[..1] == [index[0]];
    assert Weighted([index[0]], w) == Weighted([], w) + w[0] * index[0] by {
      assert [index[0]][..0] == [];
    }
    while dim < |ks|
      invariant 1 <= dim <= |ks| && router == Weighted(index[..dim], w)
    {
      var p := Powi(ks[dim - 1], dim);
      assert index[..dim + 1][..dim] == index[..dim];
      router := router + p * index[dim];
      dim := dim + 1;
    }
    assert index[..|ks|] == index;
  }

  method NodeIndex(ks: seq<nat>, cs: seq<nat>, node: nat) returns (index: seq<int>)
    requires Sizes(ks, cs)
    ensures index == NodePosition(ks, cs, node)
  {
    hide Quot, Rem, NodeRadices, ToIndex;
    NodeRadicesPositive(ks, cs);
    NodeRadicesAre(ks, cs);
    ghost var rs := NodeRadices(ks, cs);
    var id := node;
    index := [];
    var dim := 0;
    assert rs[0..] == rs;
    while dim < |ks|
      invariant 0 <= dim <= |ks| && index + ToIndex(id, rs[dim..]) == ToIndex(node, rs)
    {
      var r := ks[dim] * cs[dim];
      IndexStep(id, rs, dim);
      index := index + [Rem(id, r)];
      id := Quot(id, r);
      dim := dim + 1;
    }
    IndexEnd(id, rs);
  }

  lemma {:induction false} PrefixNonneg(ds: seq<int>, w: seq<int>)
    requires |ds| <= |w| && forall d :: 0 <= d < |ds| ==> 0 <= ds[d] && 0 <= w[d]
    ensures 0 <= Weighted(ds, w)
    decreases |ds|
  {
    if ds != [] {
      var n := |ds| - 1;
      PrefixNonneg(ds[..n], w);
      MulNonneg(w[n], ds[n]);
    }
  }

  lemma WeightedNonneg(ks: seq<nat>, ds: seq<int>)
    requires IsIndex(ds, ks)
    ensures 0 <= Weighted(ds, RouterWeights(ks))
  {
    PrefixNonneg(ds, RouterWeights(ks));
  }

  /** The router a node hangs on: its true address when the weights are the strides. */
  method NodeInRouter(ks: seq<nat>, cs: seq<nat>, node: nat) returns (router: int)
    requires Sizes(ks, cs)
    ensures IsIndex(Home(ks, cs, node), ks) && 0 <= router == Address(ks, cs, node)
    ensures WeightsAreStrides(ks, RouterWeights(ks)) ==> router < Prod(ks) && ToIndex(router, ks) == Home(ks, cs, node)
  {
    hide Quot, Rem, Prod, FromIndex, ToIndex, Weighted, WeightsAreStrides, RouterWeights;
    NodeRadicesPositive(ks, cs);
    var nodeIndex := NodeIndex(ks, cs, node);
    var index := [];
    var dim := 0;
    while dim < |ks|
      invariant 0 <= dim <= |ks| && index == Home(ks, cs, node)[..dim]
    {
      index := index + [Quot(nodeIndex[dim], cs[dim])];
      dim := dim + 1;
    }
    HomeIsRouter(ks, cs, node);
    assert index == Home(ks, cs, node);
    router := IndexToRouter(ks, index);
    WeightedNonneg(ks, index);
    if WeightsAreStrides(ks, RouterWeights(ks)) {
      AddressIs(ks, index);
    }
  }

  ghost function Offset(ks: seq<nat>, cs: seq<nat>, node: nat): int
    requires Sizes(ks, cs)
  {
    Weighted(Place(ks, cs, node), OffsetWeights(cs))
  }

  /** The ejection port of a node, counted from the first one. */
  method ConcentrationOffset(ks: seq<nat>, cs: seq<nat>, node: nat) returns (offset: int)
    requires Sizes(ks, cs)
    ensures offset == Offset(ks, cs, node) && 0 <= offset
  {
    hide Quot, Rem;
    NodeRadicesPositive(ks, cs);
    HomeIsRouter(ks, cs, node);
    PrefixNonneg(Place(ks, cs, node), OffsetWeights(cs));
    var nodeIndex := NodeIndex(ks, cs, node);
    ghost var place, w := Place(ks, cs, node), OffsetWeights(cs);
    offset := Rem(nodeIndex[0], cs[0]);
    assert place[..1] == [place[0]];
    assert Weighted([place[0]], w) == Weighted([], w) + w[0] * place[0] by {
      assert [place[0]][..0] == [];
    }
    var dim := 1;
    while dim < |ks|
      invariant 1 <= dim <= |ks| && offset == Weighted(place[..dim], w)
    {
      assert place[..dim + 1][..dim] == place[..dim];
      offset := offset + cs[dim - 1] * Rem(nodeIndex[dim], cs[dim]);
      dim := dim + 1;
    }
    assert place[..|ks|] == place;
  }

  /** Different places on a router get different offsets. */
  ghost predicate DistinctOffsets(cs: seq<nat>) {
    forall a, b :: IsIndex(a, cs) && IsIndex(b, cs) && Weighted(a, OffsetWeights(cs)) == Weighted(b, OffsetWeights(cs)) ==> a == b
  }

  ghost function Zeros(n: nat): seq<int> {
    seq(n, _ => 0)
  }

  lemma {:induction false} Padded(ds: seq<int>, w: seq<int>, n: nat)
    requires |ds| <= n <= |w|
    ensures Weighted(ds + Zeros(n - |ds|), w) == Weighted(ds, w)
    decreases n
  {
    if n == |ds| {
      assert ds + Zeros(0) == ds;
    } else {
      Padded(ds, w, n - 1);
      assert (ds + Zeros(n - |ds|))[..n - 1] == ds + Zeros(n - 1 - |ds|);
    }
  }

  lemma {:induction false} SamePrefix(ds: seq<int>, w: seq<int>, d: nat)
    requires |ds| <= d <= |w|
    ensures Weighted(ds, w[..d]) == Weighted(ds, w)
  {
    if ds != [] {
      SamePrefix(ds[..|ds| - 1], w, d);
    }
  }

  /** A radix is at most the stride above it. */
  lemma {:induction false} LastFactor(cs: seq<nat>, d: nat)
    requires Radices(cs) && d <= |cs|
    ensures d > 0 ==> cs[d - 1] <= Prod(cs[..d])
    decreases d
  {
    if d == 1 {
      assert cs[..1] == [cs[0]] && Prod([cs[0]]) == cs[0] * Prod([]);
    } else if d > 1 {
      LastFactor(cs[1..], d - 1);
      assert cs[..d][1..] == cs[1..][..d - 1];
      MulMono(1, cs[0], Prod(cs[1..][..d - 1]));
    }
  }

  lemma ClashAt(cs: seq<nat>, d: nat)
    requires Radices(cs) && d < |cs| && cs[d] != 1 && OffsetWeights(cs)[d] != Prod(cs[..d])
    requires WeightsAreStrides(cs[..d], OffsetWeights(cs)[..d])
    ensures !DistinctOffsets(cs)
  {
    hide WeightsAreStrides;
    var w := OffsetWeights(cs);
    assert cs[..0] == [];
    LastFactor(cs, d);
    var low := cs[..d];
    var x := cs[d - 1];
    var pos := ToIndex(x, low);
    FromTo(x, low);
    WeightsExact(low, w[..d]);
    hide Prod, FromIndex, ToIndex, Weighted;
    Padded(pos, w, |cs|);
    SamePrefix(pos, w, d);
    var a, b := pos + Zeros(|cs| - d), Unit(|cs|, d);
    WeightedUnit(w, d, |cs|);
    assert IsIndex(a, cs) && IsIndex(b, cs);
    assert a[d] == 0 && b[d] == 1;
  }

  /** The first weight that falls short of its stride is also the offset of a place in the lower dimensions. */
  lemma OffsetsClash(cs: seq<nat>)
    requires Radices(cs) && !WeightsAreStrides(cs, OffsetWeights(cs))
    ensures !DistinctOffsets(cs)
  {
    var w := OffsetWeights(cs);
    var d := 0;
    while cs[d] == 1 || w[d] == Prod(cs[..d])
      invariant 0 <= d < |cs|
      invariant forall e :: 0 <= e < d ==> cs[e] == 1 || w[e] == Prod(cs[..e])
      decreases |cs| - d
    {
      d := d + 1;
    }
    assert forall e :: 0 <= e < d ==> cs[..d][..e] == cs[..e];
    ClashAt(cs, d);
  }

  /** That is so exactly when the offset's weights are the strides, as they are in up to two dimensions. */
  lemma OffsetsExactly(cs: seq<nat>)
    requires Radices(cs)
    ensures DistinctOffsets(cs) <==> WeightsAreStrides(cs, OffsetWeights(cs))
    ensures |cs| <= 2 ==> WeightsAreStrides(cs, OffsetWeights(cs))
  {
    var w := OffsetWeights(cs);
    if WeightsAreStrides(cs, w) {
      hide Weighted;
      WeightsExact(cs, w);
      forall a, b | IsIndex(a, cs) && IsIndex(b, cs) && Weighted(a, w) == Weighted(b, w)
        ensures a == b
      {
        ToFrom(a, cs);
        ToFrom(b, cs);
      }
    } else {
      OffsetsClash(cs);
    }
    assert cs != [] ==> cs[..0] == [];
    assert |cs| == 2 ==> cs[..1] == [cs[0]] && Prod([cs[0]]) == cs[0] * Prod([]);
  }

  // ---- the order of the nodes of one router ----

  /** The node position that lies at place p of the router at h. */
  ghost function Joined(h: seq<int>, p: seq<int>, cs: seq<nat>): seq<int>
    requires |h| == |p| == |cs|
  {
    seq(|cs|, d requires 0 <= d < |cs| => h[d] * cs[d] + p[d])
  }

  lemma JoinedIsIndex(h: seq<int>, p: seq<int>, ks: seq<nat>, cs: seq<nat>)
    requires IsIndex(h, ks) && IsIndex(p, cs) && |ks| == |cs|
    ensures IsIndex(Joined(h, p, cs), NodeRadices(ks, cs))
    ensures forall d :: 0 <= d < |cs| ==> Quot(Joined(h, p, cs)[d], cs[d]) == h[d] && Rem(Joined(h, p, cs)[d], cs[d]) == p[d]
  {
    hide Quot, Rem;
    var x := Joined(h, p, cs);
    forall d | 0 <= d < |cs|
      ensures 0 <= x[d] < ks[d] * cs[d] && Quot(x[d], cs[d]) == h[d] && Rem(x[d], cs[d]) == p[d]
    {
      MulMono(h[d] + 1, ks[d], cs[d]);
      assert (h[d] + 1) * cs[d] == h[d] * cs[d] + cs[d];
      MulNonneg(h[d], cs[d]);
      QuotRemUnique(x[d], cs[d], h[d], p[d]);
    }
  }

  /** Numbers with the same lowest radix compare by the rest first. */
  lemma DigitOrder(k: nat, a0: int, a: int, b0: int, b: int)
    requires 0 <= a0 < k && 0 <= b0 < k
    ensures a0 + k * a < b0 + k * b <==> a < b || (a == b && a0 < b0)
  {
    if a < b {
      MulMono(a + 1, b, k);
      assert (a + 1) * k == k * a + k && b * k == k * b;
    } else if b < a {
      MulMono(b + 1, a, k);
      assert (b + 1) * k == k * b + k && a * k == k * a;
    }
  }

  /** On one router the nodes are ordered like their places. */
  lemma {:induction false} OrderKept(h: seq<int>, p: seq<int>, q: seq<int>, ks: seq<nat>, cs: seq<nat>)
    requires IsIndex(h, ks) && IsIndex(p, cs) && IsIndex(q, cs) && |ks| == |cs|
    ensures var rs := NodeRadices(ks, cs);
      FromIndex(Joined(h, p, cs), rs) < FromIndex(Joined(h, q, cs), rs) <==> FromIndex(p, cs) < FromIndex(q, cs)
    decreases |cs|
  {
    if cs != [] {
      OrderKept(h[1..], p[1..], q[1..], ks[1..], cs[1..]);
      OrderKept(h[1..], q[1..], p[1..], ks[1..], cs[1..]);
      var rs := NodeRadices(ks, cs);
      assert rs[1..] == NodeRadices(ks[1..], cs[1..]);
      var x, y := Joined(h, p, cs), Joined(h, q, cs);
      assert x[1..] == Joined(h[1..], p[1..], cs[1..]) && y[1..] == Joined(h[1..], q[1..], cs[1..]);
      JoinedIsIndex(h, p, ks, cs);
      JoinedIsIndex(h, q, ks, cs);
      DigitOrder(rs[0], x[0], FromIndex(x[1..], rs[1..]), y[0], FromIndex(y[1..], rs[1..]));
      DigitOrder(cs[0], p[0], FromIndex(p[1..], cs[1..]), q[0], FromIndex(q[1..], cs[1..]));
    }
  }

  /** Node number i of the router at h. */
  ghost function NodeAt(ks: seq<nat>, cs: seq<nat>, h: seq<int>, i: nat): int
    requires Sizes(ks, cs) && IsIndex(h, ks)
  {
    FromIndex(Joined(h, ToIndex(i, cs), cs), NodeRadices(ks, cs))
  }

  lemma NodeAtIs(ks: seq<nat>, cs: seq<nat>, h: seq<int>, i: nat)
    requires Sizes(ks, cs) && IsIndex(h, ks) && i < Prod(cs)
    ensures 0 <= NodeAt(ks, cs, h, i) < Prod(NodeRadices(ks, cs))
    ensures Home(ks, cs, NodeAt(ks, cs, h, i)) == h && Place(ks, cs, NodeAt(ks, cs, h, i)) == ToIndex(i, cs)
  {
    hide Quot, Rem, ToIndex, FromIndex, Prod;
    NodeRadicesPositive(ks, cs);
    var x := Joined(h, ToIndex(i, cs), cs);
    JoinedIsIndex(h, ToIndex(i, cs), ks, cs);
    ToFrom(x, NodeRadices(ks, cs));
    FromIndexInRange(x, NodeRadices(ks, cs));
  }

  lemma NodeIsAt(ks: seq<nat>, cs: seq<nat>, a: nat)
    requires Sizes(ks, cs) && a < Prod(NodeRadices(ks, cs))
    ensures IsIndex(Home(ks, cs, a), ks) && IsIndex(Place(ks, cs, a), cs)
    ensures var i := FromIndex(Place(ks, cs, a), cs); 0 <= i < Prod(cs) && NodeAt(ks, cs, Home(ks, cs, a), i) == a
  {
    hide Quot, Rem, ToIndex, FromIndex, Prod;
    NodeRadicesPositive(ks, cs);
    HomeIsRouter(ks, cs, a);
    var h, p := Home(ks, cs, a), Place(ks, cs, a);
    FromIndexInRange(p, cs);
    ToFrom(p, cs);
    JoinedIsIndex(h, p, ks, cs);
    var x, y := Joined(h, p, cs), NodePosition(ks, cs, a);
    forall d | 0 <= d < |cs|
      ensures x[d] == y[d]
    {
      QuotRem(y[d], cs[d]);
    }
    assert x == y;
    FromTo(a, NodeRadices(ks, cs));
  }

  ghost predicate Increasing(s: seq<int>) {
    forall i, j :: 0 <= i < j < |s| ==> s[i] < s[j]
  }

  /** An increasing sequence is determined by its elements. */
  lemma {:induction false} SameIncreasing(s: seq<int>, t: seq<int>)
    requires Increasing(s) && Increasing(t) && forall x :: x in s <==> x in t
    ensures s == t
    decreases |s|
  {
    if t != [] {
      assert t[0] in t && t[0] in s;
    }
    if s != [] {
      assert s[0] in s && s[0] in t;
      var m, n := |s| - 1, |t| - 1;
      assert s[m] in s && t[n] in t;
      assert s[m] in t && t[n] in s;
      assert s[m] == t[n];
      forall x
        ensures x in s[..m] <==> x in t[..n]
      {
        assert x in s[..m] <==> x in s && x != s[m];
        assert x in t[..n] <==> x in t && x != t[n];
      }
      SameIncreasing(s[..m], t[..n]);
      assert s == s[..m] + [s[m]] && t == t[..n] + [t[n]];
    }
  }

  /** The nodes below n whose router address is `router`, in the order they are attached. */
  ghost function Attached(ks: seq<nat>, cs: seq<nat>, router: int, n: nat): seq<int>
    requires Sizes(ks, cs)
  {
    if n == 0 then []
    else Attached(ks, cs, router, n - 1) + if Address(ks, cs, n - 1) == router then [n - 1] else []
  }

  lemma AttachedNone(ks: seq<nat>, cs: seq<nat>)
    requires Sizes(ks, cs)
    ensures forall r :: Attached(ks, cs, r, 0) == []
  {
  }

  lemma AttachedNext(ks: seq<nat>, cs: seq<nat>, router: int, n: nat)
    requires Sizes(ks, cs)
    ensures var at := Attached(ks, cs, router, n);
      Attached(ks, cs, router, n + 1) == if Address(ks, cs, n) == router then at + [n] else at
  {
    hide Address;
    assert Attached(ks, cs, router, n) + [] == Attached(ks, cs, router, n);
  }

  lemma {:induction false} AttachedAre(ks: seq<nat>, cs: seq<nat>, router: int, n: nat)
    requires Sizes(ks, cs)
    ensures Increasing(Attached(ks, cs, router, n))
    ensures forall x :: x in Attached(ks, cs, router, n) <==> 0 <= x < n && Address(ks, cs, x) == router
    decreases n
  {
    hide Address;
    if n > 0 {
      AttachedAre(ks, cs, router, n - 1);
      var s := Attached(ks, cs, router, n - 1);
      assert forall i :: 0 <= i < |s| ==> s[i] in s;
    }
  }

  /** The nodes on the ejection ports of a router. */
  ghost function Ports(ks: seq<nat>, cs: seq<nat>, router: int): seq<int>
    requires Sizes(ks, cs)
  {
    Attached(ks, cs, router, Prod(NodeRadices(ks, cs)))
  }

  /** Every position gets a router address of its own inside the network.  The addresses may still be permuted. */
  ghost predicate Numbered(ks: seq<nat>) {
    && (forall h :: IsIndex(h, ks) ==> Weighted(h, RouterWeights(ks)) < Prod(ks))
    && (forall g, h :: IsIndex(g, ks) && IsIndex(h, ks) && Weighted(g, RouterWeights(ks)) == Weighted(h, RouterWeights(ks)) ==> g == h)
  }

  lemma StridesNumber(ks: seq<nat>)
    requires Radices(ks) && WeightsAreStrides(ks, RouterWeights(ks))
    ensures Numbered(ks)
  {
    hide Weighted, WeightsAreStrides, RouterWeights, FromIndex, ToIndex, Prod;
    forall h | IsIndex(h, ks)
      ensures 0 <= Weighted(h, RouterWeights(ks)) < Prod(ks) && ToIndex(Weighted(h, RouterWeights(ks)), ks) == h
    {
      AddressIs(ks, h);
    }
  }

  lemma NodesClimb(ks: seq<nat>, cs: seq<nat>, h: seq<int>, i: nat, j: nat)
    requires Sizes(ks, cs) && IsIndex(h, ks) && i < j < Prod(cs)
    ensures NodeAt(ks, cs, h, i) < NodeAt(ks, cs, h, j)
  {
    hide ToIndex, FromIndex, Prod;
    FromTo(i, cs);
    FromTo(j, cs);
    OrderKept(h, ToIndex(i, cs), ToIndex(j, cs), ks, cs);
  }

  /** Then a router carries one node per place, and the node at place p is on its port number FromIndex(p). */
  lemma AttachedByPlace(ks: seq<nat>, cs: seq<nat>, h: seq<int>)
    requires Sizes(ks, cs) && IsIndex(h, ks) && Numbered(ks)
    ensures var at := Ports(ks, cs, Weighted(h, RouterWeights(ks)));
      |at| == Prod(cs) && forall i :: 0 <= i < Prod(cs) ==> at[i] == NodeAt(ks, cs, h, i)
  {
    hide Home, Place, Prod, Attached, NodeAt, ToIndex, FromIndex, Weighted, RouterWeights;
    var s := seq(Prod(cs), i requires 0 <= i => NodeAt(ks, cs, h, i));
    var n := Prod(NodeRadices(ks, cs));
    var router := Weighted(h, RouterWeights(ks));
    var t := Ports(ks, cs, router);
    AttachedAre(ks, cs, router, n);
    forall i, j | 0 <= i < j < |s|
      ensures s[i] < s[j]
    {
      NodesClimb(ks, cs, h, i, j);
    }
    forall x: int
      ensures x in s <==> x in t
    {
      if x in s {
        var i :| 0 <= i < |s| && s[i] == x;
        NodeAtIs(ks, cs, h, i);
      }
      if x in t {
        NodeIsAt(ks, cs, x);
        assert s[FromIndex(Place(ks, cs, x), cs)] == x;
      }
    }
    SameIncreasing(s, t);
  }

  // ---- ejection ports ----

  /** The node's router exists, and the ejection port computed for the node is the one the node was attached to. */
  ghost predicate EjectsTo(ks: seq<nat>, cs: seq<nat>, node: nat)
    requires Sizes(ks, cs)
  {
    && Address(ks, cs, node) < Prod(ks)
    && var at := Ports(ks, cs, Address(ks, cs, node));
       0 <= Offset(ks, cs, node) < |at| && at[Offset(ks, cs, node)] == node
  }

  ghost predicate AllEject(ks: seq<nat>, cs: seq<nat>)
    requires Sizes(ks, cs)
  {
    forall a: nat :: a < Prod(NodeRadices(ks, cs)) ==> EjectsTo(ks, cs, a)
  }

  lemma StridesEject(ks: seq<nat>, cs: seq<nat>, a: nat)
    requires Sizes(ks, cs) && WeightsAreStrides(cs, OffsetWeights(cs)) && Numbered(ks) && a < Prod(NodeRadices(ks, cs))
    ensures EjectsTo(ks, cs, a)
  {
    hide Home, Place, Prod, Attached, NodeAt, ToIndex, FromIndex, Weighted, WeightsAreStrides, RouterWeights;
    NodeIsAt(ks, cs, a);
    WeightsExact(cs, OffsetWeights(cs));
    AttachedByPlace(ks, cs, Home(ks, cs, a));
  }

  /** With strides as offset weights the nodes of one position get distinct ports below their number, in the order of
      their addresses. */
  lemma OffsetsInOrder(ks: seq<nat>, cs: seq<nat>, a: nat, b: nat)
    requires Sizes(ks, cs) && a < Prod(NodeRadices(ks, cs)) && b < Prod(NodeRadices(ks, cs))
    requires WeightsAreStrides(cs, OffsetWeights(cs)) && Home(ks, cs, a) == Home(ks, cs, b)
    ensures 0 <= Offset(ks, cs, a) < Prod(cs)
    ensures Offset(ks, cs, a) < Offset(ks, cs, b) <==> a < b
  {
    hide Home, Place, Prod, NodeAt, ToIndex, FromIndex, Weighted, WeightsAreStrides;
    NodeIsAt(ks, cs, a);
    NodeIsAt(ks, cs, b);
    WeightsExact(cs, OffsetWeights(cs));
    var h, i, j := Home(ks, cs, a), FromIndex(Place(ks, cs, a), cs), FromIndex(Place(ks, cs, b), cs);
    if i < j {
      NodesClimb(ks, cs, h, i, j);
    } else if j < i {
      NodesClimb(ks, cs, h, j, i);
    }
  }

  lemma ClashingNodes(ks: seq<nat>, cs: seq<nat>, p: seq<int>, q: seq<int>)
    requires Sizes(ks, cs) && IsIndex(p, cs) && IsIndex(q, cs) && p != q
    requires Weighted(p, OffsetWeights(cs)) == Weighted(q, OffsetWeights(cs))
    ensures !AllEject(ks, cs)
  {
    hide Home, Place, Prod, Attached, NodeAt, ToIndex, FromIndex, Weighted;
    var h := Zeros(|ks|);
    FromIndexInRange(p, cs);
    FromIndexInRange(q, cs);
    ToFrom(p, cs);
    ToFrom(q, cs);
    var a, b := NodeAt(ks, cs, h, FromIndex(p, cs)), NodeAt(ks, cs, h, FromIndex(q, cs));
    NodeAtIs(ks, cs, h, FromIndex(p, cs));
    NodeAtIs(ks, cs, h, FromIndex(q, cs));
    assert a != b;
    assert !(EjectsTo(ks, cs, a) && EjectsTo(ks, cs, b));
  }

  /** The first node of every position needs port 0 of the position's router to itself. */
  lemma EjectionNumbers(ks: seq<nat>, cs: seq<nat>)
    requires Sizes(ks, cs) && AllEject(ks, cs)
    ensures Numbered(ks)
  {
    ProdPositive(cs);
    hide Home, Place, Prod, Attached, NodeAt, ToIndex, FromIndex, Weighted, RouterWeights;
    forall h | IsIndex(h, ks)
      ensures Weighted(h, RouterWeights(ks)) < Prod(ks)
    {
      NodeAtIs(ks, cs, h, 0);
      assert EjectsTo(ks, cs, NodeAt(ks, cs, h, 0));
    }
    forall g, h | IsIndex(g, ks) && IsIndex(h, ks) && Weighted(g, RouterWeights(ks)) == Weighted(h, RouterWeights(ks))
      ensures g == h
    {
      NodeAtIs(ks, cs, g, 0);
      NodeAtIs(ks, cs, h, 0);
      assert EjectsTo(ks, cs, NodeAt(ks, cs, g, 0)) && EjectsTo(ks, cs, NodeAt(ks, cs, h, 0));
    }
  }

  /** Every node's packets leave through the node's own port exactly when the offset weights are the strides and every
      position has a router address of its own. */
  lemma EjectionExactly(ks: seq<nat>, cs: seq<nat>)
    requires Sizes(ks, cs)
    ensures AllEject(ks, cs) <==> WeightsAreStrides(cs, OffsetWeights(cs)) && Numbered(ks)
  {
    hide Home, Place, Prod, Attached, NodeAt, ToIndex, FromIndex, Weighted, WeightsAreStrides, Numbered;
    if WeightsAreStrides(cs, OffsetWeights(cs)) && Numbered(ks) {
      forall a: nat | a < Prod(NodeRadices(ks, cs))
        ensures EjectsTo(ks, cs, a)
      {
        StridesEject(ks, cs, a);
      }
    }
    if !WeightsAreStrides(cs, OffsetWeights(cs)) {
      OffsetsClash(cs);
      var p, q :| IsIndex(p, cs) && IsIndex(q, cs) && Weighted(p, OffsetWeights(cs)) == Weighted(q, OffsetWeights(cs)) && p != q;
      ClashingNodes(ks, cs, p, q);
    }
    if AllEject(ks, cs) {
      EjectionNumbers(ks, cs);
    }
  }

  /** With two nodes per dimension in three dimensions, the nodes at places (0, 1, 0) and (0, 0, 1) share a port. */
  lemma EjectionFails()
    ensures Weighted([0, 1, 0], OffsetWeights([2, 2, 2])) == 2 == Weighted([0, 0, 1], OffsetWeights([2, 2, 2]))
    ensures IsIndex([0, 1, 0], [2, 2, 2]) && IsIndex([0, 0, 1], [2, 2, 2])
    ensures forall ks :: |ks| == 3 && Radices(ks) ==> Sizes(ks, [2, 2, 2]) && !AllEject(ks, [2, 2, 2])
  {
    hide Weighted, AllEject;
    Weighted3(0, 1, 0, OffsetWeights([2, 2, 2]));
    Weighted3(0, 0, 1, OffsetWeights([2, 2, 2]));
    forall ks | |ks| == 3 && Radices(ks)
      ensures Sizes(ks, [2, 2, 2]) && !AllEject(ks, [2, 2, 2])
    {
      assert [0, 1, 0][1] != [0, 0, 1][1];
      ClashingNodes(ks, [2, 2, 2], [0, 1, 0], [0, 0, 1]);
    }
  }

  lemma Weights322()
    ensures RouterWeights([3, 2, 2]) == [1, 3, 4] && Prod([3, 2, 2]) == 12
    ensures WeightsAreStrides([2, 1, 1], OffsetWeights([2, 1, 1]))
  {
    assert [3, 2, 2][1..] == [2, 2] && [2, 2][1..] == [2] && [2][1..] == [] && Prod([2]) == 2 && Prod([2, 2]) == 4;
    assert [2, 1, 1][..0] == [] && [2, 1, 1][..1] == [2];
    assert T.Power(2, 2) == 2 * T.Power(2, 1) && T.Power(2, 1) == 2 * T.Power(2, 0) && T.Power(3, 1) == 3 * T.Power(3, 0);
  }

  lemma NotNumbered(ks: seq<nat>, g: seq<int>, h: seq<int>)
    requires IsIndex(g, ks) && IsIndex(h, ks) && g != h && Weighted(g, RouterWeights(ks)) == Weighted(h, RouterWeights(ks))
    ensures !Numbered(ks)
  {
  }

  lemma Sum322(h: seq<int>)
    requires IsIndex(h, [3, 2, 2])
    ensures Weighted(h, RouterWeights([3, 2, 2])) == h[0] + 3 * h[1] + 4 * h[2]
  {
    Weights322();
    hide Weighted, RouterWeights;
    assert h == [h[0], h[1], h[2]];
    Weighted3(h[0], h[1], h[2], RouterWeights([3, 2, 2]));
  }

  /** With 3, 2 and 2 routers and 2, 1 and 1 nodes per router and dimension the offset weights are the strides and every
      router address exists, but the routers at (1, 1, 0) and (0, 0, 1) both get address 4. */
  lemma AddressesClash()
    ensures var ks, cs := [3, 2, 2], [2, 1, 1];
      && Sizes(ks, cs) && WeightsAreStrides(cs, OffsetWeights(cs)) && Prod(ks) == 12
      && (forall h :: IsIndex(h, ks) ==> Weighted(h, RouterWeights(ks)) < 12)
      && IsIndex([1, 1, 0], ks) && IsIndex([0, 0, 1], ks)
      && Weighted([1, 1, 0], RouterWeights(ks)) == 4 == Weighted([0, 0, 1], RouterWeights(ks))
      && !AllEject(ks, cs)
  {
    var ks: seq<nat>, cs: seq<nat> := [3, 2, 2], [2, 1, 1];
    Weights322();
    hide Weighted, Prod, AllEject, RouterWeights, OffsetWeights, WeightsAreStrides, Numbered;
    forall h | IsIndex(h, ks)
      ensures Weighted(h, RouterWeights(ks)) < 12
    {
      Sum322(h);
    }
    Sum322([1, 1, 0]);
    Sum322([0, 0, 1]);
    NotNumbered(ks, [1, 1, 0], [0, 0, 1]);
    EjectionExactly(ks, cs);
  }

  lemma WeightedLast(ds: seq<int>, w: seq<int>)
    requires 0 < |ds| <= |w|
    ensures Weighted(ds, w) == Weighted(ds[..|ds| - 1], w) + w[|ds| - 1] * ds[|ds| - 1]
  {
  }

  lemma Weights1828()
    ensures RouterWeights([1, 8, 2, 8]) == [1, 1, 64, 8] && Prod([1, 8, 2, 8]) == 128
    ensures !WeightsAreStrides([1, 8, 2, 8], RouterWeights([1, 8, 2, 8]))
  {
    var ks: seq<nat> := [1, 8, 2, 8];
    assert ks[1..] == [8, 2, 8] && [8, 2, 8][1..] == [2, 8] && [2, 8][1..] == [8] && [8][1..] == [];
    assert Prod([8]) == 8 && Prod([2, 8]) == 16 && Prod([8, 2, 8]) == 128;
    assert T.Power(1, 1) == 1 * T.Power(1, 0) && T.Power(8, 2) == 8 * T.Power(8, 1) && T.Power(8, 1) == 8 * T.Power(8, 0);
    assert T.Power(2, 3) == 2 * T.Power(2, 2) && T.Power(2, 2) == 2 * T.Power(2, 1) && T.Power(2, 1) == 2 * T.Power(2, 0);
    assert ks[..2] == [1, 8] && [1, 8][1..] == [8] && Prod([1, 8]) == 8;
  }

  lemma Sum1828(h: seq<int>)
    requires IsIndex(h, [1, 8, 2, 8])
    ensures Weighted(h, RouterWeights([1, 8, 2, 8])) == h[1] + 64 * h[2] + 8 * h[3]
  {
    Weights1828();
    hide Weighted, RouterWeights, Prod, WeightsAreStrides;
    var w := RouterWeights([1, 8, 2, 8]);
    assert h[..3] == [h[0], h[1], h[2]] && w[..3] == [1, 1, 64];
    Weighted3(h[0], h[1], h[2], w[..3]);
    WeightedLast(h, w);
    SamePrefix(h[..3], w, 3);
  }

  /** Addresses of their own need not be the true ones: with 1, 8, 2 and 8 routers the weights 1, 1, 64 and 8 permute the
      addresses of the strides 1, 1, 8 and 16. */
  lemma NumberedButPermuted()
    ensures Numbered([1, 8, 2, 8]) && !WeightsAreStrides([1, 8, 2, 8], RouterWeights([1, 8, 2, 8]))
  {
    Weights1828();
    hide Prod, RouterWeights, WeightsAreStrides, Weighted;
    forall h | IsIndex(h, [1, 8, 2, 8])
      ensures Weighted(h, RouterWeights([1, 8, 2, 8])) < 128
    {
      Sum1828(h);
    }
    forall g, h | IsIndex(g, [1, 8, 2, 8]) && IsIndex(h, [1, 8, 2, 8]) && Weighted(g, RouterWeights([1, 8, 2, 8])) == Weighted(h, RouterWeights([1, 8, 2, 8]))
      ensures g == h
    {
      Sum1828(g);
      Sum1828(h);
      assert g[2] == h[2] && g[3] == h[3] && g[1] == h[1] && g[0] == h[0];
    }
  }

  lemma SameAddress(ks: seq<nat>, x: nat, y: nat)
    requires Radices(ks) && x < Prod(ks) && y < Prod(ks)
    ensures x == y <==> ToIndex(x, ks) == ToIndex(y, ks)
  {
    FromTo(x, ks);
    FromTo(y, ks);
  }

  method NodeCount(ks: seq<nat>, cs: seq<nat>) returns (n: nat)
    requires |ks| == |cs|
    ensures n == Prod(NodeRadices(ks, cs))
  {
    var rs := [];
    var d := 0;
    while d < |ks|
      invariant 0 <= d <= |ks| && rs == NodeRadices(ks, cs)[..d]
    {
      rs := rs + [ks[d] * cs[d]];
      d := d + 1;
    }
    assert rs == NodeRadices(ks, cs);
    n := Prod(rs);
  }

  /** The loop that attaches the nodes.  Fails exactly when some node's router address lies outside the network.
      Otherwise every router gets the nodes with its address in increasing order. */
  method AttachNodes(ks: seq<nat>, cs: seq<nat>) returns (ok: bool, eject: seq<seq<nat>>)
    requires Sizes(ks, cs)
    ensures ok <==> forall x :: 0 <= x < Prod(NodeRadices(ks, cs)) ==> Address(ks, cs, x) < Prod(ks)
    ensures ok ==> |eject| == Prod(ks) && forall r :: 0 <= r < |eject| ==> eject[r] == Ports(ks, cs, r)
  {
    hide Address, Prod, Attached, NodeRadices;
    AttachedNone(ks, cs);
    eject := seq(Prod(ks), _ => []);
    var nodes := NodeCount(ks, cs);
    var node := 0;
    while node < nodes
      invariant node <= nodes && |eject| == Prod(ks)
      invariant forall x :: 0 <= x < node ==> Address(ks, cs, x) < Prod(ks)
      invariant forall r :: 0 <= r < |eject| ==> eject[r] == Attached(ks, cs, r, node)
    {
      var router := NodeInRouter(ks, cs, node);
      if router >= |eject| {
        return false, eject;
      }
      forall r | 0 <= r < |eject|
        ensures Attached(ks, cs, r, node + 1) == if r == router then eject[r] + [node] else eject[r]
      {
        AttachedNext(ks, cs, r, node);
      }
      eject := eject[router := eject[router] + [node]];
      node := node + 1;
    }
    ok := true;
  }
}
