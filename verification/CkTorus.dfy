/** Dimension-order routing with datelines on a concentrated torus whose rings may differ in length.

The direction is decided again at every router, and so is the half of the virtual channels:
half 1 to the right before the wrap-around link and half 0 behind it, the other way round to
the left.
*/
module CkTorus {
  import opened Arith
  import opened CkNodes
  import opened Radix
  import opened WaitCycles
  import T = Torus

  // ---- one ring ----

  /** The direction taken at x towards y: the shorter way, `tie` deciding when both are equal. */
  function Direction(k: nat, x: int, y: int, tie: int): int {
    var positive := if x < y then y - x else k - x + y;
    var negative := if x < y then k - y + x else x - y;
    if positive < negative then 0 else if negative < positive then 1 else tie
  }

  /** The half for the link that leaves x in direction dir. */
  function DatelineHalf(dir: int, x: int, y: int): int {
    if (dir == 0 && x > y) || (dir == 1 && y < x) then 1 else 0
  }

  /** The order of (link, half) pairs along a ring. */
  function RingRank(k: nat, dir: int, part: int, x: int): int {
    if dir == 0 then (if part == 1 then x else k + x)
    else (if part == 0 then k - 1 - x else k + (k - 1 - x))
  }

  ghost predicate OnRing(k: nat, x: int) {
    0 <= x < k
  }

  /** A hop brings the packet one step nearer, it does not turn back, and it climbs. */
  lemma RingHop(k: nat, x: int, y: int, tie: int, tie1: int)
    requires OnRing(k, x) && OnRing(k, y) && x != y && (tie == 0 || tie == 1) && (tie1 == 0 || tie1 == 1)
    ensures var dir := Direction(k, x, y, tie);
            var x1 := T.Move(k, dir, x);
      && (dir == 0 || dir == 1) && OnRing(k, x1) && T.RingDist(k, x1, y) == T.RingDist(k, x, y) - 1
      && (x1 != y ==>
            && Direction(k, x1, y, tie1) == dir
            && RingRank(k, dir, DatelineHalf(dir, x, y), x) < RingRank(k, dir, DatelineHalf(dir, x1, y), x1))
  {
  }

  // ---- the whole torus ----

  ghost predicate IsRouter(ks: seq<nat>, r: seq<int>) {
    IsIndex(r, ks)
  }

  /** Output port and half at r for a packet to dest; 2n stands for all ejection ports. */
  ghost function Next(ks: seq<nat>, dest: seq<int>, r: seq<int>, tie: int): (int, int)
    requires IsRouter(ks, dest) && IsRouter(ks, r)
  {
    var dim := T.FirstDiff(r, dest);
    if dim == |ks| then (2 * |ks|, 0)
    else
      var dir := Direction(ks[dim], r[dim], dest[dim], tie);
      (2 * dim + dir, DatelineHalf(dir, r[dim], dest[dim]))
  }

  ghost function Neighbor(ks: seq<nat>, r: seq<int>, out: int): seq<int>
    requires IsRouter(ks, r) && 0 <= out < 2 * |ks|
  {
    r[out / 2 := T.Move(ks[out / 2], out % 2, r[out / 2])]
  }

  ghost predicate IsTie(tie: int) {
    tie == 0 || tie == 1
  }

  lemma NextIsLink(ks: seq<nat>, dest: seq<int>, r: seq<int>, tie: int)
    requires IsRouter(ks, dest) && IsRouter(ks, r) && r != dest && IsTie(tie)
    ensures var out := Next(ks, dest, r, tie).0;
            var dim := T.FirstDiff(r, dest);
            dim < |ks| && 0 <= out < 2 * |ks| && out / 2 == dim && IsRouter(ks, Neighbor(ks, r, out))
    ensures var part := Next(ks, dest, r, tie).1; part == 0 || part == 1
  {
    hide Direction, RingRank, T.RingDist;
    var dim := T.FirstDiff(r, dest);
    RingHop(ks[dim], r[dim], dest[dim], tie, 0);
  }

  /** The decision in numbers: a link of the lowest dimension that differs, in the direction with fewer steps, the drawn
      one if both are as long; the half is 1 exactly when the destination has the lower position. */
  ghost predicate TakesShorter(ks: seq<nat>, dest: seq<int>, r: seq<int>, tie: int, port: int, half: int)
    requires |dest| == |r| == |ks| && forall d :: 0 <= d < |ks| ==> 0 < ks[d]
  {
    var d := port / 2;
    && 0 <= d < |ks| && r[d] != dest[d] && (forall j :: 0 <= j < d ==> r[j] == dest[j])
    && var steps := (dest[d] - r[d]) % ks[d];
       && (2 * steps < ks[d] ==> port % 2 == 0) && (2 * steps > ks[d] ==> port % 2 == 1) && (2 * steps == ks[d] ==> port % 2 == tie)
       && (half == 0 || half == 1) && (half == 1 <==> dest[d] < r[d])
  }

  lemma StepsRight(k: nat, x: int, y: int)
    requires OnRing(k, x) && OnRing(k, y)
    ensures (y - x) % k == T.RightDist(k, x, y)
  {
    WrapMod(y - x + k, k);
    SameWrap(y - x, k);
  }

  lemma NextTakesShorter(ks: seq<nat>, dest: seq<int>, r: seq<int>, tie: int)
    requires IsRouter(ks, dest) && IsRouter(ks, r) && r != dest && IsTie(tie)
    ensures forall d :: 0 <= d < |ks| ==> 0 < ks[d]
    ensures TakesShorter(ks, dest, r, tie, Next(ks, dest, r, tie).0, Next(ks, dest, r, tie).1)
  {
    NextIsLink(ks, dest, r, tie);
    var dim := T.FirstDiff(r, dest);
    StepsRight(ks[dim], r[dim], dest[dim]);
  }

  /** The router after the next hop; a packet at its destination stays. */
  ghost function Hop(ks: seq<nat>, dest: seq<int>, r: seq<int>, tie: int): (r1: seq<int>)
    requires IsRouter(ks, dest) && IsRouter(ks, r) && IsTie(tie)
    ensures IsRouter(ks, r1)
  {
    if r == dest then r
    else
      NextIsLink(ks, dest, r, tie);
      Neighbor(ks, r, Next(ks, dest, r, tie).0)
  }

  /** The position of a link and half in the order that hops climb: dimension first. */
  ghost function LinkRank(ks: seq<nat>, r: seq<int>, out: int, part: int): (int, int)
    requires IsRouter(ks, r) && 0 <= out < 2 * |ks|
  {
    (out / 2, RingRank(ks[out / 2], out % 2, part, r[out / 2]))
  }

  predicate Below(a: (int, int), b: (int, int)) {
    a.0 < b.0 || (a.0 == b.0 && a.1 < b.1)
  }

  /** Consecutive hops climb, and inside a dimension they keep their direction. */
  lemma HopsClimb(ks: seq<nat>, dest: seq<int>, r: seq<int>, tie: int, tie1: int)
    requires IsRouter(ks, dest) && IsRouter(ks, r) && IsTie(tie) && IsTie(tie1)
    requires r != dest && Hop(ks, dest, r, tie) != dest
    ensures var r1 := Hop(ks, dest, r, tie);
            var (out, part) := Next(ks, dest, r, tie);
            var (out1, part1) := Next(ks, dest, r1, tie1);
      && 0 <= out < 2 * |ks| && 0 <= out1 < 2 * |ks| && (out / 2 == out1 / 2 ==> out == out1)
      && Below(LinkRank(ks, r, out, part), LinkRank(ks, r1, out1, part1))
  {
    hide Direction, DatelineHalf, RingRank, T.RingDist;
    NextIsLink(ks, dest, r, tie);
    var r1 := Hop(ks, dest, r, tie);
    NextIsLink(ks, dest, r1, tie1);
    var dim := T.FirstDiff(r, dest);
    RingHop(ks[dim], r[dim], dest[dim], tie, tie1);
    assert T.FirstDiff(r1, dest) >= dim;
  }

  // ---- virtual channels ----

  /** Where a packet injected at src is after i hops. */
  ghost function At(ks: seq<nat>, src: seq<int>, dest: seq<int>, ties: seq<int>, i: nat): (r: seq<int>)
    requires IsRouter(ks, src) && IsRouter(ks, dest) && i <= |ties| && forall t :: t in ties ==> IsTie(t)
    ensures IsRouter(ks, r)
  {
    if i == 0 then src else Hop(ks, dest, At(ks, src, dest, ties, i - 1), ties[i - 1])
  }

  /** A packet at r, still on its way, may request channel c; b and e bound the channels of its class. */
  ghost predicate Requests(ks: seq<nat>, b: int, e: int, dest: seq<int>, r: seq<int>, tie: int, c: T.Channel)
    requires IsRouter(ks, dest) && IsRouter(ks, r)
  {
    && r != dest && c.router == r && c.out == Next(ks, dest, r, tie).0
    && T.InHalf(b, e, Next(ks, dest, r, tie).1, c.vc)
  }

  ghost predicate WaitsOnRun(ks: seq<nat>, b: int, e: int, src: seq<int>, dest: seq<int>, ties: seq<int>, i: nat,
                             c: T.Channel, c1: T.Channel) {
    && IsRouter(ks, src) && IsRouter(ks, dest) && i + 1 < |ties| && (forall t :: t in ties ==> IsTie(t))
    && Requests(ks, b, e, dest, At(ks, src, dest, ties, i), ties[i], c)
    && Requests(ks, b, e, dest, At(ks, src, dest, ties, i + 1), ties[i + 1], c1)
  }

  /** Some packet, on some run, holds c while it requests c1. */
  ghost predicate Waits(ks: seq<nat>, b: int, e: int, c: T.Channel, c1: T.Channel) {
    exists src, dest, ties, i: nat :: WaitsOnRun(ks, b, e, src, dest, ties, i, c, c1)
  }

  ghost function ChannelRank(ks: seq<nat>, b: int, e: int, c: T.Channel): (int, int)
    requires IsRouter(ks, c.router) && 0 <= c.out < 2 * |ks|
  {
    if (e - b + 1) % 2 == 0 then LinkRank(ks, c.router, c.out, T.HalfOf(b, e, c.vc)) else (c.out / 2, 0)
  }

  /** Rings too short for two hops in a row. */
  ghost predicate AllShort(ks: seq<nat>) {
    forall d :: 0 <= d < |ks| ==> ks[d] < 4
  }

  /** On short rings one hop finishes a dimension. */
  lemma ShortHop(ks: seq<nat>, dest: seq<int>, r: seq<int>, tie: int)
    requires IsRouter(ks, dest) && IsRouter(ks, r) && r != dest && IsTie(tie) && AllShort(ks)
    ensures T.FirstDiff(r, dest) < T.FirstDiff(Hop(ks, dest, r, tie), dest)
  {
    var dim := T.FirstDiff(r, dest);
    NextIsLink(ks, dest, r, tie);
    RingHop(ks[dim], r[dim], dest[dim], tie, 0);
    var r1 := Hop(ks, dest, r, tie);
    assert r1[dim] == dest[dim] && forall j :: 0 <= j < dim ==> r1[j] == dest[j];
  }

  lemma WaitingClimbs(ks: seq<nat>, b: int, e: int, c: T.Channel, c1: T.Channel)
    requires b < e && ((e - b + 1) % 2 == 0 || AllShort(ks)) && Waits(ks, b, e, c, c1)
    ensures IsRouter(ks, c.router) && 0 <= c.out < 2 * |ks| && IsRouter(ks, c1.router) && 0 <= c1.out < 2 * |ks|
    ensures Below(ChannelRank(ks, b, e, c), ChannelRank(ks, b, e, c1))
  {
    hide Next, Hop, LinkRank, T.InHalf, T.HalfOf;
    var src, dest, ties, i: nat :| WaitsOnRun(ks, b, e, src, dest, ties, i, c, c1);
    var r, r1 := At(ks, src, dest, ties, i), At(ks, src, dest, ties, i + 1);
    assert r1 == Hop(ks, dest, r, ties[i]);
    HopsClimb(ks, dest, r, ties[i], ties[i + 1]);
    NextIsLink(ks, dest, r, ties[i]);
    NextIsLink(ks, dest, r1, ties[i + 1]);
    if (e - b + 1) % 2 == 0 {
      T.HalfIsDetermined(b, e, Next(ks, dest, r, ties[i]).1, c.vc);
      T.HalfIsDetermined(b, e, Next(ks, dest, r1, ties[i + 1]).1, c1.vc);
    } else {
      ShortHop(ks, dest, r, ties[i]);
    }
  }

  ghost function Waiting(ks: seq<nat>, b: int, e: int): (T.Channel, T.Channel) -> bool {
    (c, c1) => Waits(ks, b, e, c, c1)
  }

  ghost predicate CyclicWait(ks: seq<nat>, b: int, e: int) {
    Cyclic(Waiting(ks, b, e))
  }

  ghost predicate Higher(ks: seq<nat>, b: int, e: int, c: T.Channel, c1: T.Channel) {
    && IsRouter(ks, c.router) && 0 <= c.out < 2 * |ks| && IsRouter(ks, c1.router) && 0 <= c1.out < 2 * |ks|
    && Below(ChannelRank(ks, b, e, c), ChannelRank(ks, b, e, c1))
  }

  /** The router at position x of the ring in dimension d, at the origin otherwise. */
  ghost function OnAxis(ks: seq<nat>, d: nat, x: int): seq<int> {
    seq(|ks|, j => if j == d then x else 0)
  }

  lemma TwoStepsRight(ks: seq<nat>, b: int, e: int, d: nat, x: int, vc: int)
    requires Radices(ks) && d < |ks| && 4 <= ks[d] && 0 <= x < ks[d] && T.InHalf(b, e, 0, vc) && T.InHalf(b, e, 1, vc)
    ensures Waits(ks, b, e, T.Channel(OnAxis(ks, d, x), 2 * d, vc), T.Channel(OnAxis(ks, d, T.Move(ks[d], 0, x)), 2 * d, vc))
  {
    hide T.InHalf;
    var x1 := T.Move(ks[d], 0, x);
    var src, dest := OnAxis(ks, d, x), OnAxis(ks, d, T.Move(ks[d], 0, x1));
    var ties := [0, 0];
    T.FirstDiffIs(src, dest, d);
    var r1 := Hop(ks, dest, src, 0);
    assert Next(ks, dest, src, 0).0 == 2 * d;
    assert r1 == OnAxis(ks, d, x1);
    T.FirstDiffIs(r1, dest, d);
    assert Next(ks, dest, r1, 0).0 == 2 * d;
    assert At(ks, src, dest, ties, 0) == src && At(ks, src, dest, ties, 1) == r1;
    assert WaitsOnRun(ks, b, e, src, dest, ties, 0, T.Channel(src, 2 * d, vc), T.Channel(r1, 2 * d, vc));
  }

  lemma OddSharesChannel(ks: seq<nat>, b: int, e: int, d: nat)
    requires Radices(ks) && b < e && (e - b + 1) % 2 == 1 && d < |ks| && 4 <= ks[d]
    ensures CyclicWait(ks, b, e)
  {
    hide Waits, T.InHalf, Cyclic;
    var vc := b + (e - b + 1) / 2;
    T.MiddleShared(b, e);
    var k := ks[d];
    var chain := seq(k + 1, x => T.Channel(OnAxis(ks, d, if x == k then 0 else x), 2 * d, vc));
    forall x | 0 < x < |chain|
      ensures Waits(ks, b, e, chain[x - 1], chain[x])
    {
      TwoStepsRight(ks, b, e, d, x - 1, vc);
    }
    CycleFound(Waiting(ks, b, e), chain);
  }

  /** Dateline routing is free of cyclic waits exactly when the class has an even number of channels or no
      ring is long enough for two hops. */
  lemma DeadlockFree(ks: seq<nat>, b: int, e: int)
    requires Radices(ks) && b < e
    ensures !CyclicWait(ks, b, e) <==> ((e - b + 1) % 2 == 0 || AllShort(ks))
  {
    if (e - b + 1) % 2 == 0 || AllShort(ks) {
      hide Waits, ChannelRank;
      forall c, c1 | Waits(ks, b, e, c, c1)
        ensures Higher(ks, b, e, c, c1)
      {
        WaitingClimbs(ks, b, e, c, c1);
      }
      ClimbingIsAcyclic(Waiting(ks, b, e), (c, c1) => Higher(ks, b, e, c, c1));
    } else {
      var d :| 0 <= d < |ks| && 4 <= ks[d];
      OddSharesChannel(ks, b, e, d);
    }
  }

  // ---- delivery ----

  /** The ring distances of the dimensions from d on. */
  ghost function SumDist(ks: seq<nat>, a: seq<int>, b: seq<int>, d: nat): int
    requires |a| == |b| == |ks|
    decreases |a| - d
  {
    if d >= |a| then 0 else T.RingDist(ks[d], a[d], b[d]) + SumDist(ks, a, b, d + 1)
  }

  lemma {:induction false} SameTail(ks: seq<nat>, a: seq<int>, a1: seq<int>, b: seq<int>, d: nat)
    requires |a| == |a1| == |b| == |ks| && forall j :: d <= j < |a| ==> a[j] == a1[j]
    ensures SumDist(ks, a, b, d) == SumDist(ks, a1, b, d)
    decreases |a| - d
  {
    if d < |a| {
      SameTail(ks, a, a1, b, d + 1);
    }
  }

  lemma {:induction false} OneNearer(ks: seq<nat>, a: seq<int>, dim: nat, v: int, b: seq<int>, d: nat)
    requires |a| == |b| == |ks| && d <= dim < |a|
    requires T.RingDist(ks[dim], v, b[dim]) == T.RingDist(ks[dim], a[dim], b[dim]) - 1
    ensures SumDist(ks, a[dim := v], b, d) == SumDist(ks, a, b, d) - 1
    decreases dim - d
  {
    if d == dim {
      SameTail(ks, a, a[dim := v], b, d + 1);
    } else {
      OneNearer(ks, a, dim, v, b, d + 1);
    }
  }

  lemma {:induction false} ZeroOnlyAtDest(ks: seq<nat>, a: seq<int>, b: seq<int>, d: nat)
    requires IsRouter(ks, a) && IsRouter(ks, b) && d <= |ks|
    ensures 0 <= SumDist(ks, a, b, d) && (SumDist(ks, a, b, d) == 0 <==> a[d..] == b[d..])
    decreases |a| - d
  {
    if d < |a| {
      ZeroOnlyAtDest(ks, a, b, d + 1);
      assert a[d..] == [a[d]] + a[d + 1..] && b[d..] == [b[d]] + b[d + 1..];
      assert T.RingDist(ks[d], a[d], b[d]) == 0 <==> a[d] == b[d];
    }
  }

  lemma HopCounts(ks: seq<nat>, dest: seq<int>, r: seq<int>, tie: int)
    requires IsRouter(ks, dest) && IsRouter(ks, r) && r != dest && IsTie(tie)
    ensures SumDist(ks, Hop(ks, dest, r, tie), dest, 0) == SumDist(ks, r, dest, 0) - 1
  {
    var dim := T.FirstDiff(r, dest);
    NextIsLink(ks, dest, r, tie);
    RingHop(ks[dim], r[dim], dest[dim], tie, 0);
    OneNearer(ks, r, dim, Hop(ks, dest, r, tie)[dim], dest, 0);
  }

  /** Whatever is drawn, a packet arrives after exactly the sum of its ring distances. */
  lemma {:induction false} Delivers(ks: seq<nat>, src: seq<int>, dest: seq<int>, ties: seq<int>, i: nat)
    requires IsRouter(ks, src) && IsRouter(ks, dest) && i <= |ties| && (forall t :: t in ties ==> IsTie(t))
    ensures var total := SumDist(ks, src, dest, 0);
            var r := At(ks, src, dest, ties, i);
            SumDist(ks, r, dest, 0) == (if i < total then total - i else 0) && (r == dest <==> total <= i)
  {
    hide SumDist, Next;
    ZeroOnlyAtDest(ks, src, dest, 0);
    assert src[0..] == src && dest[0..] == dest;
    if i > 0 {
      Delivers(ks, src, dest, ties, i - 1);
      var r0, r := At(ks, src, dest, ties, i - 1), At(ks, src, dest, ties, i);
      if r0 != dest {
        HopCounts(ks, dest, r0, ties[i - 1]);
      }
      ZeroOnlyAtDest(ks, r, dest, 0);
      assert r[0..] == r;
    }
  }

  /** A packet is at an ejection port at hop number `total`, the distance, and takes a link at every hop before. */
  lemma HandedOver(ks: seq<nat>, src: seq<int>, dest: seq<int>, ties: seq<int>, i: nat, tie: int)
    requires IsRouter(ks, src) && IsRouter(ks, dest) && i <= |ties| && (forall t :: t in ties ==> IsTie(t)) && IsTie(tie)
    ensures var total := SumDist(ks, src, dest, 0);
            var port := Next(ks, dest, At(ks, src, dest, ties, i), tie).0;
            if total <= i then port == 2 * |ks| else 0 <= port < 2 * |ks|
  {
    hide SumDist, At;
    Delivers(ks, src, dest, ties, i);
    var r := At(ks, src, dest, ties, i);
    if r != dest {
      hide Next;
      NextIsLink(ks, dest, r, tie);
    }
  }

  // ---- the network and the routing functions ----

  /** The address the build loop computes for the router next to x at a port. */
  ghost function Linked(ks: seq<nat>, x: nat, port: nat): int
    requires Radices(ks) && x < Prod(ks) && port < 2 * |ks|
  {
    Weighted(Neighbor(ks, ToIndex(x, ks), port), RouterWeights(ks))
  }

  /** The channel added as input `port`: the one that the router next to z sends on towards z. */
  ghost function InChannel(ks: seq<nat>, z: nat, port: nat): int
    requires Radices(ks) && z < Prod(ks) && port < 2 * |ks|
  {
    T.OutChannel(|ks|, Linked(ks, z, port), T.Opposite(port))
  }

  ghost predicate WiredPort(ks: seq<nat>, x: nat, out: nat, z: nat, port: nat)
    requires Radices(ks) && x < Prod(ks) && out < 2 * |ks| && z < Prod(ks) && port < 2 * |ks|
  {
    InChannel(ks, z, port) == T.OutChannel(|ks|, x, out) <==> ToIndex(z, ks) == Neighbor(ks, ToIndex(x, ks), out) && port == T.Opposite(out)
  }

  /** The channel behind an output is the input of exactly one port: the opposite port of the neighbour. */
  ghost predicate WiredRight(ks: seq<nat>)
    requires Radices(ks)
  {
    forall x: nat, out: nat, z: nat, port: nat :: x < Prod(ks) && out < 2 * |ks| && z < Prod(ks) && port < 2 * |ks| ==>
      WiredPort(ks, x, out, z, port)
  }

  lemma ThereAndBack(ks: seq<nat>, r: seq<int>, out: nat)
    requires IsRouter(ks, r) && out < 2 * |ks|
    ensures 0 <= T.Opposite(out) < 2 * |ks| && T.Opposite(T.Opposite(out)) == out && IsRouter(ks, Neighbor(ks, r, out))
    ensures Neighbor(ks, Neighbor(ks, r, out), T.Opposite(out)) == r
  {
    assert T.Opposite(out) / 2 == out / 2;
  }

  lemma StridesWire(ks: seq<nat>, x: nat, out: nat, z: nat, port: nat)
    requires Radices(ks) && WeightsAreStrides(ks, RouterWeights(ks))
    requires x < Prod(ks) && out < 2 * |ks| && z < Prod(ks) && port < 2 * |ks|
    ensures WiredPort(ks, x, out, z, port)
  {
    hide Prod, FromIndex, ToIndex, Weighted, WeightsAreStrides, RouterWeights, Neighbor, T.OutChannel, T.Opposite;
    ThereAndBack(ks, ToIndex(z, ks), port);
    ThereAndBack(ks, ToIndex(x, ks), out);
    AddressIs(ks, Neighbor(ks, ToIndex(z, ks), port));
    SameAddress(ks, Linked(ks, z, port), x);
    if InChannel(ks, z, port) == T.OutChannel(|ks|, x, out) {
      T.ChannelUnique(|ks|, Linked(ks, z, port), T.Opposite(port), x, out);
    }
  }

  lemma WiringNeedsStrides(ks: seq<nat>)
    requires Radices(ks) && 0 < |ks| && WiredRight(ks)
    ensures WeightsAreStrides(ks, RouterWeights(ks))
  {
    hide Prod, FromIndex, ToIndex, Weighted, WeightsAreStrides, RouterWeights, Neighbor, T.OutChannel;
    forall x: nat | x < Prod(ks)
      ensures Weighted(ToIndex(x, ks), RouterWeights(ks)) == x
    {
      var r := Neighbor(ks, ToIndex(x, ks), 0);
      ThereAndBack(ks, ToIndex(x, ks), 0);
      ToFrom(r, ks);
      FromIndexInRange(r, ks);
      assert WiredPort(ks, x, 0, FromIndex(r, ks), 1);
      T.ChannelUnique(|ks|, Linked(ks, FromIndex(r, ks), 1), 0, x, 0);
    }
    RoundTripNeedsStrides(ks);
  }

  /** The network is wired as a torus exactly when the router weights are the strides. */
  lemma WiringExactly(ks: seq<nat>)
    requires Radices(ks) && 0 < |ks|
    ensures WiredRight(ks) <==> WeightsAreStrides(ks, RouterWeights(ks))
  {
    hide WiredPort, WeightsAreStrides, Prod, RouterWeights;
    if WeightsAreStrides(ks, RouterWeights(ks)) {
      forall x: nat, out: nat, z: nat, port: nat | x < Prod(ks) && out < 2 * |ks| && z < Prod(ks) && port < 2 * |ks|
        ensures WiredPort(ks, x, out, z, port)
      {
        StridesWire(ks, x, out, z, port);
      }
    }
    if WiredRight(ks) {
      WiringNeedsStrides(ks);
    }
  }

  /** The router a network link leads to: the neighbour's true address when the weights are the strides. */
  method LinkedRouter(ks: seq<nat>, router: nat, dim: nat, right: bool) returns (other: int)
    requires Radices(ks) && dim < |ks| && router < Prod(ks)
    ensures var port := 2 * dim + if right then 0 else 1;
      && other == Linked(ks, router, port)
      && (WeightsAreStrides(ks, RouterWeights(ks)) ==>
            0 <= other < Prod(ks) && ToIndex(other, ks) == Neighbor(ks, ToIndex(router, ks), port))
  {
    hide Quot, Rem, Prod, FromIndex, ToIndex, Weighted, WeightsAreStrides, RouterWeights;
    var index := RouterIndex(ks, router);
    if right {
      if index[dim] == ks[dim] - 1 {
        index := index[dim := 0];
      } else {
        index := index[dim := index[dim] + 1];
      }
    } else {
      if index[dim] == 0 {
        index := index[dim := ks[dim] - 1];
      } else {
        index := index[dim := index[dim] - 1];
      }
    }
    other := IndexToRouter(ks, index);
    if WeightsAreStrides(ks, RouterWeights(ks)) {
      AddressIs(ks, index);
    }
  }

  /** The address the code takes for the node's router. */
  ghost function Target(ks: seq<nat>, cs: seq<nat>, dest: nat): int
    requires Sizes(ks, cs)
    ensures Target(ks, cs, dest) >= 0
  {
    HomeIsRouter(ks, cs, dest);
    WeightedNonneg(ks, Home(ks, cs, dest));
    Address(ks, cs, dest)
  }

  lemma TargetIsHome(ks: seq<nat>, cs: seq<nat>, dest: nat)
    requires Sizes(ks, cs) && WeightsAreStrides(ks, RouterWeights(ks))
    ensures Target(ks, cs, dest) < Prod(ks) && ToIndex(Target(ks, cs, dest), ks) == Home(ks, cs, dest)
  {
    hide Prod, FromIndex, ToIndex, Weighted, WeightsAreStrides, RouterWeights, Home;
    HomeIsRouter(ks, cs, dest);
    AddressIs(ks, Home(ks, cs, dest));
  }

  /** What the routing decision is worth.  The assertion on the differing dimension holds if the node's router exists;
      with the strides as router weights packets are ejected at the node's own router.  With the strides as offset weights
      and an address for every position they leave through the port the node was attached to. */
  ghost predicate Ejection(ks: seq<nat>, cs: seq<nat>, cur: nat, dest: nat, ok: bool, port: int)
    requires Sizes(ks, cs)
  {
    && (cur == Target(ks, cs, dest) ==> ok && port == 2 * |ks| + Offset(ks, cs, dest))
    && (Target(ks, cs, dest) < Prod(ks) ==> ok)
    && (WeightsAreStrides(ks, RouterWeights(ks)) ==> ok && (cur == Target(ks, cs, dest) <==> ToIndex(cur, ks) == Home(ks, cs, dest)))
    && (cur == Target(ks, cs, dest) && dest < Prod(NodeRadices(ks, cs)) && WeightsAreStrides(cs, OffsetWeights(cs)) && Numbered(ks) ==>
          var nodes := Ports(ks, cs, cur);
          0 <= port - 2 * |ks| < |nodes| && nodes[port - 2 * |ks|] == dest)
  }

  lemma EjectionHolds(ks: seq<nat>, cs: seq<nat>, cur: nat, dest: nat, port: int)
    requires Sizes(ks, cs) && cur < Prod(ks)
    requires cur == Target(ks, cs, dest) ==> port == 2 * |ks| + Offset(ks, cs, dest)
    ensures Ejection(ks, cs, cur, dest, cur == Target(ks, cs, dest) || ToIndex(cur, ks) != ToIndex(Target(ks, cs, dest), ks), port)
  {
    hide Quot, Rem, Prod, FromIndex, ToIndex, Weighted, WeightsAreStrides, RouterWeights, Home, Place, Attached, Numbered;
    if WeightsAreStrides(ks, RouterWeights(ks)) {
      TargetIsHome(ks, cs, dest);
    }
    if Target(ks, cs, dest) < Prod(ks) {
      SameAddress(ks, cur, Target(ks, cs, dest));
    }
    if dest < Prod(NodeRadices(ks, cs)) && WeightsAreStrides(cs, OffsetWeights(cs)) && Numbered(ks) {
      StridesEject(ks, cs, dest);
    }
  }

  /** The output port towards node dest: a link while the router is not the node's, then the node's port.  Fails when
      the assertion that the addresses differ in some dimension does. */
  method DorNextCkntorus(ks: seq<nat>, cs: seq<nat>, cur: nat, dest: nat, tie: int) returns (ok: bool, port: int)
    requires Sizes(ks, cs) && cur < Prod(ks) && IsTie(tie)
    ensures ok <==> cur == Target(ks, cs, dest) || ToIndex(cur, ks) != ToIndex(Target(ks, cs, dest), ks)
    ensures Ejection(ks, cs, cur, dest, ok, port)
    ensures ok && cur != Target(ks, cs, dest) ==>
      port == Next(ks, ToIndex(Target(ks, cs, dest), ks), ToIndex(cur, ks), tie).0
    ensures ok ==> (0 <= port < 2 * |ks| <==> cur != Target(ks, cs, dest))
    ensures ok && cur != Target(ks, cs, dest) ==>
      exists half :: TakesShorter(ks, ToIndex(Target(ks, cs, dest), ks), ToIndex(cur, ks), tie, port, half)
  {
    hide Quot, Rem, Prod, FromIndex, ToIndex, Home, Place, Weighted, WeightsAreStrides, RouterWeights, Ejection;
    var routerDest := NodeInRouter(ks, cs, dest);
    if cur == routerDest {
      var offset := ConcentrationOffset(ks, cs, dest);
      ok, port := true, 2 * |ks| + offset;
      EjectionHolds(ks, cs, cur, dest, port);
      return;
    }
    var curIndex := RouterIndex(ks, cur);
    var destIndex := RouterIndex(ks, routerDest);
    var dimLeft, dim := 0, 0;
    while dim < |ks| && curIndex[dim] == destIndex[dim]
      invariant 0 <= dim <= |ks| && forall j :: 0 <= j < dim ==> curIndex[j] == destIndex[j]
    {
      dim := dim + 1;
    }
    if dim == |ks| {
      assert curIndex == destIndex;
      ok, port := false, 0;
      EjectionHolds(ks, cs, cur, dest, port);
      return;
    }
    dimLeft := dim;
    T.FirstDiffIs(curIndex, destIndex, dimLeft);
    var positive, negative := 0, 0;
    if curIndex[dimLeft] < destIndex[dimLeft] {
      positive := destIndex[dimLeft] - curIndex[dimLeft];
      negative := ks[dimLeft] - destIndex[dimLeft] + curIndex[dimLeft];
    } else {
      positive := ks[dimLeft] - curIndex[dimLeft] + destIndex[dimLeft];
      negative := curIndex[dimLeft] - destIndex[dimLeft];
    }
    ok := true;
    if positive < negative {
      port := 2 * dimLeft;
    } else if negative < positive {
      port := 2 * dimLeft + 1;
    } else {
      port := 2 * dimLeft + tie;
    }
    NextTakesShorter(ks, destIndex, curIndex, tie);
    EjectionHolds(ks, cs, cur, dest, port);
  }

  /** The routing function: away from the node's router the range is the dateline half. */
  method DimOrderDateline(ks: seq<nat>, cs: seq<nat>, b: int, e: int, cur: nat, dest: nat, tie: int)
    returns (ok: bool, port: int, vcBegin: int, vcEnd: int)
    requires Sizes(ks, cs) && cur < Prod(ks) && IsTie(tie) && b < e
    ensures ok <==> cur == Target(ks, cs, dest) || ToIndex(cur, ks) != ToIndex(Target(ks, cs, dest), ks)
    ensures Ejection(ks, cs, cur, dest, ok, port)
    ensures cur == Target(ks, cs, dest) ==> (vcBegin, vcEnd) == (b, e)
    ensures ok && cur != Target(ks, cs, dest) ==>
      var (out, part) := Next(ks, ToIndex(Target(ks, cs, dest), ks), ToIndex(cur, ks), tie);
      && port == out && IsTie(part) && TakesShorter(ks, ToIndex(Target(ks, cs, dest), ks), ToIndex(cur, ks), tie, port, part)
      && T.IsHalfOf(b, e, part, vcBegin, vcEnd) && forall vc :: vcBegin <= vc <= vcEnd <==> T.InHalf(b, e, part, vc)
    ensures ok ==> (0 <= port < 2 * |ks| <==> cur != Target(ks, cs, dest))
  {
    hide Quot, Rem, Prod, FromIndex, ToIndex, Home, Place, Weighted, WeightsAreStrides, RouterWeights, Direction, Ejection;
    ok, port := DorNextCkntorus(ks, cs, cur, dest, tie);
    vcBegin, vcEnd := b, e;
    var routerDest := NodeInRouter(ks, cs, dest);
    if ok && cur != routerDest {
      NextIsLink(ks, ToIndex(routerDest, ks), ToIndex(cur, ks), tie);
      NextTakesShorter(ks, ToIndex(routerDest, ks), ToIndex(cur, ks), tie);
      var curIndex := RouterIndex(ks, cur);
      var destIndex := RouterIndex(ks, routerDest);
      var dim, dir := port / 2, port % 2;
      var c, d := curIndex[dim], destIndex[dim];
      var available := (vcEnd - vcBegin + 1) / 2;
      var ph := 0;
      if (dir == 0 && c > d) || (dir == 1 && d < c) {
        ph := 1;
      }
      if ph == 0 {
        vcEnd := vcEnd - available;
      } else {
        vcBegin := vcBegin + available;
      }
    }
  }
}
