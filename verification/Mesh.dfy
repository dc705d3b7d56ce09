/** Dimension-order routing on a k-ary n-mesh, and ROMM, which routes through a random router of the
    minimal quadrant first. */
module Mesh {
  import opened Arith
  import opened Radix
  import T = Torus
  import opened Randoms

  /** The highest dimension in which two routers differ. */
  ghost function LastDiff(a: seq<int>, b: seq<int>): (d: int)
    requires |a| == |b|
    ensures -1 <= d < |a| && (0 <= d ==> a[d] != b[d]) && forall j :: d < j < |a| ==> a[j] == b[j]
  {
    if a == [] then -1
    else
      var n := |a| - 1;
      if a[n] != b[n] then n else
        var d := LastDiff(a[..n], b[..n]);
        assert forall j :: d < j < n ==> a[..n][j] == b[..n][j];
        d
  }

  /** The dimension to travel next, lowest or highest first. */
  ghost function NextDim(cur: seq<int>, dest: seq<int>, descending: bool): int
    requires |cur| == |dest|
  {
    if descending then LastDiff(cur, dest) else T.FirstDiff(cur, dest)
  }

  /** The output port at cur for a packet to dest; 2n ejects. */
  ghost function Next(cfg: T.Config, cur: seq<int>, dest: seq<int>, descending: bool): int
    requires T.IsRouter(cfg, cur) && T.IsRouter(cfg, dest)
  {
    if cur == dest then 2 * cfg.n
    else
      var dim := NextDim(cur, dest, descending);
      if cur[dim] < dest[dim] then 2 * dim else 2 * dim + 1
  }

  /** The decision in numbers: the ejection port at the destination, elsewhere a link of the first dimension in the
      order that differs, to the right exactly if the destination lies to the right. */
  ghost predicate GoesToward(cfg: T.Config, cur: seq<int>, dest: seq<int>, descending: bool, port: int)
    requires |cur| == cfg.n && |dest| == cfg.n
  {
    if cur == dest then port == 2 * cfg.n
    else
      var d := port / 2;
      && 0 <= d < cfg.n && cur[d] != dest[d] && (port % 2 == 0 <==> cur[d] < dest[d])
      && (forall j :: 0 <= j < cfg.n && (if descending then d < j else j < d) ==> cur[j] == dest[j])
  }

  lemma NextGoesToward(cfg: T.Config, cur: seq<int>, dest: seq<int>, descending: bool)
    requires T.IsRouter(cfg, cur) && T.IsRouter(cfg, dest)
    ensures GoesToward(cfg, cur, dest, descending, Next(cfg, cur, dest, descending))
  {
    if cur != dest {
      assert 0 <= NextDim(cur, dest, descending) < cfg.n;
    }
  }

  /** The distance in the dimensions from d on. */
  ghost function Manhattan(a: seq<int>, b: seq<int>, d: nat): nat
    requires |a| == |b|
    decreases |a| - d
  {
    if d >= |a| then 0 else Abs(a[d] - b[d]) + Manhattan(a, b, d + 1)
  }

  lemma {:induction false} SameTail(a: seq<int>, a1: seq<int>, b: seq<int>, d: nat)
    requires |a| == |a1| == |b| && forall j :: d <= j < |a| ==> a[j] == a1[j]
    ensures Manhattan(a, b, d) == Manhattan(a1, b, d)
    decreases |a| - d
  {
    if d < |a| {
      SameTail(a, a1, b, d + 1);
    }
  }

  lemma {:induction false} OneNearer(a: seq<int>, dim: nat, v: int, b: seq<int>, d: nat)
    requires |a| == |b| && d <= dim < |a| && Abs(v - b[dim]) == Abs(a[dim] - b[dim]) - 1
    ensures Manhattan(a[dim := v], b, d) == Manhattan(a, b, d) - 1
    decreases dim - d
  {
    if d == dim {
      SameTail(a, a[dim := v], b, d + 1);
    } else {
      OneNearer(a, dim, v, b, d + 1);
    }
  }

  lemma {:induction false} ZeroOnlyAtDest(a: seq<int>, b: seq<int>, d: nat)
    requires |a| == |b| && d <= |a|
    ensures Manhattan(a, b, d) == 0 <==> a[d..] == b[d..]
    decreases |a| - d
  {
    if d < |a| {
      ZeroOnlyAtDest(a, b, d + 1);
      assert a[d..] == [a[d]] + a[d + 1..] && b[d..] == [b[d]] + b[d + 1..];
    }
  }

  lemma Arrived(a: seq<int>, b: seq<int>)
    requires |a| == |b|
    ensures Manhattan(a, b, 0) == 0 <==> a == b
  {
    ZeroOnlyAtDest(a, b, 0);
    assert a[0..] == a && b[0..] == b;
  }

  /** The router after the next hop; a packet at its destination stays. */
  ghost function Hop(cfg: T.Config, cur: seq<int>, dest: seq<int>, descending: bool): (r: seq<int>)
    requires T.IsRouter(cfg, cur) && T.IsRouter(cfg, dest)
    ensures T.IsRouter(cfg, r)
  {
    if cur == dest then cur else
      assert 0 <= NextDim(cur, dest, descending) < cfg.n;
      T.Neighbor(cfg, cur, Next(cfg, cur, dest, descending))
  }

  /** A hop is one step nearer, leaves the other dimensions alone and never uses a wrap-around link. */
  lemma HopCounts(cfg: T.Config, cur: seq<int>, dest: seq<int>, descending: bool)
    requires T.IsRouter(cfg, cur) && T.IsRouter(cfg, dest) && cur != dest
    ensures Manhattan(Hop(cfg, cur, dest, descending), dest, 0) == Manhattan(cur, dest, 0) - 1
    ensures var dim := NextDim(cur, dest, descending);
            var v := if cur[dim] < dest[dim] then cur[dim] + 1 else cur[dim] - 1;
            0 <= dim < cfg.n && 0 <= v < cfg.k && Hop(cfg, cur, dest, descending) == cur[dim := v]
  {
    var dim := NextDim(cur, dest, descending);
    OneNearer(cur, dim, Hop(cfg, cur, dest, descending)[dim], dest, 0);
  }

  /** The router after i hops. */
  ghost function At(cfg: T.Config, src: seq<int>, dest: seq<int>, descending: bool, i: nat): (r: seq<int>)
    requires T.IsRouter(cfg, src) && T.IsRouter(cfg, dest)
    ensures T.IsRouter(cfg, r)
  {
    if i == 0 then src else Hop(cfg, At(cfg, src, dest, descending, i - 1), dest, descending)
  }

  /** In either dimension order a packet arrives after exactly the Manhattan distance. */
  lemma {:induction false} Delivers(cfg: T.Config, src: seq<int>, dest: seq<int>, descending: bool, i: nat)
    requires T.IsRouter(cfg, src) && T.IsRouter(cfg, dest)
    ensures var total := Manhattan(src, dest, 0);
            var r := At(cfg, src, dest, descending, i);
            Manhattan(r, dest, 0) == (if i < total then total - i else 0) && (r == dest <==> total <= i)
  {
    Arrived(At(cfg, src, dest, descending, i), dest);
    if i > 0 {
      Delivers(cfg, src, dest, descending, i - 1);
      var r := At(cfg, src, dest, descending, i - 1);
      if r != dest {
        HopCounts(cfg, r, dest, descending);
      }
    }
  }

  /** A packet takes the ejection port at hop number `total`, the distance, and a link at every hop before. */
  lemma HandedOver(cfg: T.Config, src: seq<int>, dest: seq<int>, descending: bool, i: nat)
    requires T.IsRouter(cfg, src) && T.IsRouter(cfg, dest)
    ensures var total := Manhattan(src, dest, 0);
            var port := Next(cfg, At(cfg, src, dest, descending, i), dest, descending);
            if total <= i then port == 2 * cfg.n else 0 <= port < 2 * cfg.n
  {
    hide Manhattan, Next;
    Delivers(cfg, src, dest, descending, i);
    NextGoesToward(cfg, At(cfg, src, dest, descending, i), dest, descending);
  }

  // ---- ROMM ----

  /** m lies between a and b in every dimension. */
  ghost predicate InQuadrant(a: seq<int>, b: seq<int>, m: seq<int>) {
    |a| == |b| == |m| && forall d :: 0 <= d < |a| ==> a[d] <= m[d] <= b[d] || b[d] <= m[d] <= a[d]
  }

  lemma OnlyItself(a: seq<int>, m: seq<int>)
    requires InQuadrant(a, a, m)
    ensures m == a
  {
  }

  /** Going through the quadrant costs nothing. */
  lemma {:induction false} QuadrantIsMinimal(a: seq<int>, b: seq<int>, m: seq<int>, d: nat)
    requires InQuadrant(a, b, m)
    ensures Manhattan(a, m, d) + Manhattan(m, b, d) == Manhattan(a, b, d)
    decreases |a| - d
  {
    if d < |a| {
      QuadrantIsMinimal(a, b, m, d + 1);
    }
  }

  /** A packet: where it is, the port it came in by, its phase and its intermediate router. */
  datatype Packet = Packet(cur: seq<int>, inPort: int, ph: int, intm: seq<int>)

  /** The fields the routing function writes before it decides: a packet at the injection port is put into
      phase 0 with a fresh intermediate router, and phase 0 ends at that router. */
  ghost function Prepared(cfg: T.Config, p: Packet, drawn: seq<int>): Packet {
    var p1 := if p.inPort == 2 * cfg.n then p.(ph := 0, intm := drawn) else p;
    if p1.ph == 0 && p1.cur == p1.intm then p1.(ph := 1) else p1
  }

  ghost predicate PacketOk(cfg: T.Config, dest: seq<int>, p: Packet) {
    && T.IsRouter(cfg, p.cur) && T.IsRouter(cfg, dest) && T.IsRouter(cfg, p.intm) && (p.ph == 0 || p.ph == 1)
    && (p.ph == 0 ==> InQuadrant(p.cur, dest, p.intm))
  }

  /** One call of the routing function and the hop it causes; at the destination the packet stays. */
  ghost function RommHop(cfg: T.Config, dest: seq<int>, p: Packet, drawn: seq<int>): Packet
    requires PacketOk(cfg, dest, p) && T.IsRouter(cfg, drawn)
  {
    var p1 := Prepared(cfg, p, drawn);
    var target := if p1.ph == 0 then p1.intm else dest;
    if p1.cur == target then p1
    else p1.(cur := Hop(cfg, p1.cur, target, false), inPort := T.Opposite(Next(cfg, p1.cur, target, false)))
  }

  /** The hops a prepared packet still has to make. */
  ghost function RommLeft(dest: seq<int>, p: Packet): nat
    requires |p.cur| == |dest| == |p.intm|
  {
    if p.ph == 0 then Manhattan(p.cur, p.intm, 0) + Manhattan(p.intm, dest, 0) else Manhattan(p.cur, dest, 0)
  }

  lemma PreparedKeeps(cfg: T.Config, dest: seq<int>, p: Packet, drawn: seq<int>)
    requires PacketOk(cfg, dest, p) && T.IsRouter(cfg, drawn)
    requires p.inPort == 2 * cfg.n ==> InQuadrant(p.cur, dest, drawn)
    ensures PacketOk(cfg, dest, Prepared(cfg, p, drawn))
    ensures p.inPort != 2 * cfg.n && p.ph == 1 ==> Prepared(cfg, p, drawn).ph == 1
    ensures Prepared(cfg, p, drawn).ph == 0 ==> p.cur != Prepared(cfg, p, drawn).intm
    ensures RommLeft(dest, Prepared(cfg, p, drawn)) == Manhattan(p.cur, dest, 0)
  {
    var p1 := Prepared(cfg, p, drawn);
    if p1.ph == 0 {
      QuadrantIsMinimal(p1.cur, dest, p1.intm, 0);
    }
  }

  /** A step toward the intermediate router keeps it in the remaining quadrant. */
  lemma QuadrantShrinks(cfg: T.Config, cur: seq<int>, dest: seq<int>, intm: seq<int>)
    requires T.IsRouter(cfg, cur) && T.IsRouter(cfg, intm) && InQuadrant(cur, dest, intm) && cur != intm
    ensures InQuadrant(Hop(cfg, cur, intm, false), dest, intm)
  {
    HopCounts(cfg, cur, intm, false);
  }

  lemma PortInRange(cfg: T.Config, cur: seq<int>, target: seq<int>)
    requires T.IsRouter(cfg, cur) && T.IsRouter(cfg, target) && cur != target
    ensures 0 <= T.Opposite(Next(cfg, cur, target, false)) < 2 * cfg.n
  {
    HopCounts(cfg, cur, target, false);
  }

  /** Every hop is one nearer to the destination in both phases, phase 1 is final, and the remaining
      quadrant still holds the intermediate router. */
  lemma RommHopCounts(cfg: T.Config, dest: seq<int>, p: Packet, drawn: seq<int>)
    requires PacketOk(cfg, dest, p) && T.IsRouter(cfg, drawn) && p.cur != dest
    requires p.inPort == 2 * cfg.n ==> InQuadrant(p.cur, dest, drawn)
    ensures var p1 := RommHop(cfg, dest, p, drawn);
      && PacketOk(cfg, dest, p1) && 0 <= p1.inPort < 2 * cfg.n
      && Manhattan(p1.cur, dest, 0) == Manhattan(p.cur, dest, 0) - 1
      && (p.inPort != 2 * cfg.n && p.ph == 1 ==> p1.ph == 1)
  {
    hide Manhattan, InQuadrant, Next, Hop;
    PreparedKeeps(cfg, dest, p, drawn);
    var p0, p1 := Prepared(cfg, p, drawn), RommHop(cfg, dest, p, drawn);
    var target := if p0.ph == 0 then p0.intm else dest;
    HopCounts(cfg, p0.cur, target, false);
    PortInRange(cfg, p0.cur, target);
    if p0.ph == 0 {
      QuadrantShrinks(cfg, p0.cur, dest, p0.intm);
      QuadrantIsMinimal(p1.cur, dest, p1.intm, 0);
      QuadrantIsMinimal(p0.cur, dest, p0.intm, 0);
    }
  }

  /** The state after i calls of a packet injected at src, `drawn` being its intermediate router. */
  ghost function RommAt(cfg: T.Config, src: seq<int>, dest: seq<int>, drawn: seq<int>, i: nat): (p: Packet)
    requires T.IsRouter(cfg, src) && T.IsRouter(cfg, dest) && T.IsRouter(cfg, drawn) && InQuadrant(src, dest, drawn)
    ensures PacketOk(cfg, dest, p) && (p.inPort == 2 * cfg.n ==> p.cur == src)
    ensures i == 0 ==> p.cur == src
  {
    if i == 0 then Packet(src, 2 * cfg.n, 1, src)
    else
      var p := RommAt(cfg, src, dest, drawn, i - 1);
      if p.cur == dest then p else
        RommHopCounts(cfg, dest, p, drawn);
        RommHop(cfg, dest, p, drawn)
  }

  /** Through any drawn router a packet needs exactly the Manhattan distance of its endpoints. */
  lemma {:induction false} RommDelivers(cfg: T.Config, src: seq<int>, dest: seq<int>, drawn: seq<int>, i: nat)
    requires T.IsRouter(cfg, src) && T.IsRouter(cfg, dest) && T.IsRouter(cfg, drawn) && InQuadrant(src, dest, drawn)
    ensures var total := Manhattan(src, dest, 0);
            var p := RommAt(cfg, src, dest, drawn, i);
            Manhattan(p.cur, dest, 0) == (if i < total then total - i else 0) && (p.cur == dest <==> total <= i)
  {
    hide RommHop, Prepared, Manhattan, InQuadrant;
    Arrived(RommAt(cfg, src, dest, drawn, i).cur, dest);
    if i > 0 {
      RommDelivers(cfg, src, dest, drawn, i - 1);
      var q := RommAt(cfg, src, dest, drawn, i - 1);
      if q.cur != dest {
        RommHopCounts(cfg, dest, q, drawn);
      }
    }
  }

  /** The routing function hands the packet over at hop number `total` and takes a link at every hop before. */
  lemma RommHandedOver(cfg: T.Config, src: seq<int>, dest: seq<int>, drawn: seq<int>, i: nat)
    requires T.IsRouter(cfg, src) && T.IsRouter(cfg, dest) && T.IsRouter(cfg, drawn) && InQuadrant(src, dest, drawn)
    ensures var total := Manhattan(src, dest, 0);
            var p := Prepared(cfg, RommAt(cfg, src, dest, drawn, i), drawn);
            var port := Next(cfg, p.cur, if p.ph == 0 then p.intm else dest, false);
            if total <= i then port == 2 * cfg.n else 0 <= port < 2 * cfg.n
  {
    hide Manhattan, Next, InQuadrant, RommAt;
    RommDelivers(cfg, src, dest, drawn, i);
    var p := RommAt(cfg, src, dest, drawn, i);
    PreparedKeeps(cfg, dest, p, drawn);
    var p1 := Prepared(cfg, p, drawn);
    NextGoesToward(cfg, p1.cur, if p1.ph == 0 then p1.intm else dest, false);
    if p1.ph == 0 && p.cur == dest {
      OnlyItself(p.cur, p1.intm);
    }
  }

  /** Once a packet is in flight in phase 1 it never returns to phase 0. */
  lemma {:induction false} RommPhaseIsFinal(cfg: T.Config, src: seq<int>, dest: seq<int>, drawn: seq<int>, i: nat, j: nat)
    requires T.IsRouter(cfg, src) && T.IsRouter(cfg, dest) && T.IsRouter(cfg, drawn) && InQuadrant(src, dest, drawn)
    requires 0 < i <= j && RommAt(cfg, src, dest, drawn, i).ph == 1
    ensures RommAt(cfg, src, dest, drawn, j).ph == 1
    decreases j
  {
    hide RommHop, Prepared, Manhattan, InQuadrant;
    if i < j {
      RommPhaseIsFinal(cfg, src, dest, drawn, i, j - 1);
      var p, q := RommAt(cfg, src, dest, drawn, j - 1), RommAt(cfg, src, dest, drawn, j - 2);
      if p.cur != dest {
        RommHopCounts(cfg, dest, q, drawn);
        RommHopCounts(cfg, dest, p, drawn);
      }
    }
  }

  // ---- router addresses ----

  /** The part of an address below dimension m. */
  ghost function Low(cfg: T.Config, x: nat, m: nat): int
    requires 0 < cfg.k && m <= cfg.n
  {
    FromIndex(T.Index(cfg, x)[..m], T.Ks(cfg)[..m])
  }

  /** Dividing the part below m + 1 by the stride of m splits off the position in dimension m. */
  lemma LowSplit(cfg: T.Config, x: nat, m: nat)
    requires 0 < cfg.k && m < cfg.n
    ensures 0 < T.Power(cfg.k, m) && 0 <= Low(cfg, x, m) < T.Power(cfg.k, m)
    ensures Low(cfg, x, m + 1) == T.Index(cfg, x)[m] * T.Power(cfg.k, m) + Low(cfg, x, m)
  {
    hide FromIndex, ToIndex, Prod, T.Power;
    T.StrideIsPower(cfg, m);
    ProdPositive(T.Ks(cfg)[..m]);
    FromIndexSnoc(T.Index(cfg, x), T.Ks(cfg), m);
    FromIndexInRange(T.Index(cfg, x)[..m], T.Ks(cfg)[..m]);
  }

  lemma {:induction false} PowerSplit(k: nat, a: nat, b: nat)
    ensures T.Power(k, a + b) == T.Power(k, a) * T.Power(k, b)
    decreases a
  {
    if a > 0 {
      PowerSplit(k, a - 1, b);
      MulAssoc(k, T.Power(k, a - 1), T.Power(k, b));
    }
  }

  lemma ScaledRemainder(b: nat, r: nat, m: nat)
    requires r < b && 0 < m
    ensures 0 <= r * m < b * m
  {
    MulMono(r + 1, b, m);
    MulDist(r, 1, m);
    MulNonneg(r, m);
  }

  /** A common factor does not change the quotient and scales the remainder. */
  lemma ScaleDiv(q: nat, b: nat, r: nat, m: nat)
    requires 0 < b && r < b && 0 < m
    ensures 0 < b * m && Quot((q * b + r) * m, b * m) == q && Rem((q * b + r) * m, b * m) == r * m
  {
    hide Quot, Rem;
    ScaledRemainder(b, r, m);
    MulDist(q * b, r, m);
    MulAssoc(q, b, m);
    MulNonneg(q, b * m);
    QuotRemUnique((q * b + r) * m, b * m, q, r * m);
  }

  /** What is left of an address after its top j positions were scaled out. */
  ghost function Scaled(cfg: T.Config, x: nat, j: nat): int
    requires 0 < cfg.k && j <= cfg.n
  {
    Low(cfg, x, cfg.n - j) * T.Power(cfg.k, j)
  }

  lemma Reassociate(a: int, p: int, k: int, s: int)
    requires s == k * p
    ensures (a * p) * k == a * s
  {
  }

  lemma IndexNonneg(cfg: T.Config, x: nat, m: nat)
    requires 0 < cfg.k && m < cfg.n
    ensures m < |T.Index(cfg, x)| && 0 <= T.Index(cfg, x)[m]
  {
  }

  /** One step of the descending scan: the scaled address gives up its top position. */
  lemma TopDigit(cfg: T.Config, x: nat, j: nat, c: nat)
    requires 0 < cfg.k && j < cfg.n && c == Scaled(cfg, x, j)
    ensures var nodes := T.Power(cfg.k, cfg.n);
      && 0 < nodes && Quot(c * cfg.k, nodes) == T.Index(cfg, x)[cfg.n - 1 - j]
      && Rem(c * cfg.k, nodes) == Scaled(cfg, x, j + 1)
  {
    hide Quot, Rem, Low, ToIndex, T.Index;
    var m := cfg.n - 1 - j;
    LowSplit(cfg, x, m);
    PowerSplit(cfg.k, m, j + 1);
    T.PowerPositive(cfg.k, j + 1);
    IndexNonneg(cfg, x, m);
    var q, b, r, s := T.Index(cfg, x)[m], T.Power(cfg.k, m), Low(cfg, x, m), T.Power(cfg.k, j + 1);
    ScaleDiv(q, b, r, s);
    Reassociate(q * b + r, T.Power(cfg.k, j), cfg.k, s);
  }

  /** The lowest dimension in which the addresses differ, and their positions there. */
  method LowestDim(cfg: T.Config, cur: nat, dest: nat) returns (dimLeft: nat, c: nat, d: nat)
    requires 0 < cfg.k && cur < Prod(T.Ks(cfg)) && dest < Prod(T.Ks(cfg)) && cur != dest
    ensures dimLeft < cfg.n && dimLeft == T.FirstDiff(T.Index(cfg, cur), T.Index(cfg, dest))
    ensures c == T.Index(cfg, cur)[dimLeft] && d == T.Index(cfg, dest)[dimLeft]
  {
    hide Rem, Quot, Prod;
    c, d := cur, dest;
    dimLeft := 0;
    ghost var ks, a, b := T.Ks(cfg), T.Index(cfg, cur), T.Index(cfg, dest);
    T.SameIndex(cfg, cur, dest);
    assert ks[0..] == ks;
    assert cfg.n > 0;
    while dimLeft < cfg.n - 1
      invariant dimLeft < cfg.n
      invariant ToIndex(c, ks[dimLeft..]) == a[dimLeft..] && ToIndex(d, ks[dimLeft..]) == b[dimLeft..]
      invariant forall j :: 0 <= j < dimLeft ==> a[j] == b[j]
    {
      T.Digit(cfg, c, dimLeft);
      T.Digit(cfg, d, dimLeft);
      if Rem(c, cfg.k) != Rem(d, cfg.k) {
        break;
      }
      c, d := Quot(c, cfg.k), Quot(d, cfg.k);
      dimLeft := dimLeft + 1;
    }
    T.Digit(cfg, c, dimLeft);
    T.Digit(cfg, d, dimLeft);
    c, d := Rem(c, cfg.k), Rem(d, cfg.k);
    T.FirstDiffIs(a, b, dimLeft);
  }

  lemma LastDiffIs(a: seq<int>, b: seq<int>, d: nat)
    requires |a| == |b| && d < |a| && a[d] != b[d] && forall j :: d < j < |a| ==> a[j] == b[j]
    ensures LastDiff(a, b) == d
  {
  }

  /** The top position of a scaled address, and the address without it. */
  method ScaleOut(cfg: T.Config, nodes: nat, c: nat, ghost x: nat, ghost j: nat) returns (top: nat, rest: nat)
    requires 0 < cfg.k && j < cfg.n && c == Scaled(cfg, x, j) && nodes == T.Power(cfg.k, cfg.n)
    ensures top == T.Index(cfg, x)[cfg.n - 1 - j] && rest == Scaled(cfg, x, j + 1)
  {
    hide Rem, Quot, Scaled, T.Power, ToIndex;
    TopDigit(cfg, x, j, c);
    top, rest := Quot(c * cfg.k, nodes), Rem(c * cfg.k, nodes);
  }

  lemma WholeIsLow(cfg: T.Config, x: nat)
    requires 0 < cfg.k && x < Prod(T.Ks(cfg))
    ensures x == Scaled(cfg, x, 0)
  {
    FromTo(x, T.Ks(cfg));
    assert T.Index(cfg, x)[..cfg.n] == T.Index(cfg, x) && T.Ks(cfg)[..cfg.n] == T.Ks(cfg);
  }

  /** The highest dimension in which the addresses differ, found by scaling the top position out. */
  method HighestDim(cfg: T.Config, cur: nat, dest: nat) returns (dimLeft: nat, c: nat, d: nat)
    requires 0 < cfg.k && cur < Prod(T.Ks(cfg)) && dest < Prod(T.Ks(cfg)) && cur != dest
    ensures dimLeft < cfg.n && dimLeft == LastDiff(T.Index(cfg, cur), T.Index(cfg, dest))
    ensures c == T.Index(cfg, cur)[dimLeft] && d == T.Index(cfg, dest)[dimLeft]
  {
    hide Rem, Quot, Prod, Scaled, T.Power, ToIndex;
    ghost var a, b := T.Index(cfg, cur), T.Index(cfg, dest);
    T.SameIndex(cfg, cur, dest);
    assert cfg.n > 0;
    T.PowerPositive(cfg.k, cfg.n);
    var nodes := T.Power(cfg.k, cfg.n);
    c, d := cur, dest;
    WholeIsLow(cfg, cur);
    WholeIsLow(cfg, dest);
    dimLeft := cfg.n - 1;
    while dimLeft > 0
      invariant dimLeft < cfg.n
      invariant c == Scaled(cfg, cur, cfg.n - 1 - dimLeft) && d == Scaled(cfg, dest, cfg.n - 1 - dimLeft)
      invariant forall j :: dimLeft < j < cfg.n ==> a[j] == b[j]
    {
      var ct, cr := ScaleOut(cfg, nodes, c, cur, cfg.n - 1 - dimLeft);
      var dt, dr := ScaleOut(cfg, nodes, d, dest, cfg.n - 1 - dimLeft);
      if ct != dt {
        break;
      }
      c, d := cr, dr;
      dimLeft := dimLeft - 1;
    }
    var restC, restD;
    c, restC := ScaleOut(cfg, nodes, c, cur, cfg.n - 1 - dimLeft);
    d, restD := ScaleOut(cfg, nodes, d, dest, cfg.n - 1 - dimLeft);
    LastDiffIs(a, b, dimLeft);
  }

  /** The routing decision computed from the addresses, in either dimension order. */
  method DorNextMesh(cfg: T.Config, cur: nat, dest: nat, descending: bool) returns (port: int)
    requires 0 < cfg.k && cur < Prod(T.Ks(cfg)) && dest < Prod(T.Ks(cfg))
    ensures T.IsRouter(cfg, T.Index(cfg, cur)) && T.IsRouter(cfg, T.Index(cfg, dest))
    ensures port == Next(cfg, T.Index(cfg, cur), T.Index(cfg, dest), descending)
    ensures port == 2 * cfg.n <==> cur == dest
    ensures GoesToward(cfg, T.Index(cfg, cur), T.Index(cfg, dest), descending, port)
  {
    hide Prod, ToIndex, T.FirstDiff, LastDiff, GoesToward;
    T.SameIndex(cfg, cur, dest);
    NextGoesToward(cfg, T.Index(cfg, cur), T.Index(cfg, dest), descending);
    if cur == dest {
      return 2 * cfg.n;
    }
    var dimLeft, c, d: nat;
    if descending {
      dimLeft, c, d := HighestDim(cfg, cur, dest);
    } else {
      dimLeft, c, d := LowestDim(cfg, cur, dest);
    }
    if c < d {
      port := 2 * dimLeft;
    } else {
      port := 2 * dimLeft + 1;
    }
  }

  lemma {:induction false} ProdSnoc(ks: seq<nat>, m: nat)
    requires m < |ks|
    ensures Prod(ks[..m + 1]) == Prod(ks[..m]) * ks[m]
    decreases m
  {
    if m == 0 {
      assert ks[..1] == [ks[0]] && ks[..0] == [] && ks[..1][1..] == [];
      assert Prod(ks[..1]) == ks[0] * Prod([]);
    } else {
      ProdSnoc(ks[1..], m - 1);
      assert ks[..m + 1][1..] == ks[1..][..m] && ks[..m][1..] == ks[1..][..m - 1];
      assert ks[0] * (Prod(ks[1..][..m - 1]) * ks[m]) == (ks[0] * Prod(ks[1..][..m - 1])) * ks[m];
    }
  }

  lemma Append(ds: seq<int>, ks: seq<nat>, v: int, m: nat)
    requires m < |ks| && |ds| == m
    ensures FromIndex(ds + [v], ks[..m + 1]) == FromIndex(ds, ks[..m]) + v * Prod(ks[..m])
    ensures Prod(ks[..m + 1]) == Prod(ks[..m]) * ks[m]
  {
    var ds1, ks1 := ds + [v], ks[..m + 1];
    FromIndexSnoc(ds1, ks1, m);
    assert ds1[..m + 1] == ds1 && ks1[..m + 1] == ks1 && ds1[..m] == ds && ks1[..m] == ks[..m];
    ProdSnoc(ks, m);
  }

  lemma NoDigits(ks: seq<nat>)
    ensures Prod(ks[..0]) == 1 && FromIndex([], ks[..0]) == 0
  {
  }

  /** A random router of the minimal quadrant: its position in every dimension lies between those of the
      endpoints, whatever is drawn. */
  method RandMinIntrMesh(cfg: T.Config, src: nat, dest: nat) returns (intm: int)
    requires 0 < cfg.k && src < Prod(T.Ks(cfg)) && dest < Prod(T.Ks(cfg))
    ensures 0 <= intm < Prod(T.Ks(cfg))
    ensures InQuadrant(T.Index(cfg, src), T.Index(cfg, dest), T.Index(cfg, intm))
  {
    hide Rem, Quot, Prod, FromIndex, ToIndex;
    var s, d := src, dest;
    ghost var ks, a, b := T.Ks(cfg), T.Index(cfg, src), T.Index(cfg, dest);
    ghost var ds: seq<int> := [];
    intm := 0;
    var offset: nat := 1;
    NoDigits(ks);
    assert ks[0..] == ks;
    var n := 0;
    while n < cfg.n
      invariant 0 <= n <= cfg.n && |ds| == n && offset == Prod(ks[..n]) && intm == FromIndex(ds, ks[..n])
      invariant ToIndex(s, ks[n..]) == a[n..] && ToIndex(d, ks[n..]) == b[n..]
      invariant forall j :: 0 <= j < n ==> a[j] <= ds[j] <= b[j] || b[j] <= ds[j] <= a[j]
    {
      T.Digit(cfg, s, n);
      T.Digit(cfg, d, n);
      var dist := Rem(d, cfg.k) - Rem(s, cfg.k);
      var v;
      if dist > 0 {
        var r := RandomInt(dist);
        v := Rem(s, cfg.k) + r;
      } else {
        var r := RandomInt(-dist);
        v := Rem(d, cfg.k) + r;
      }
      Append(ds, ks, v, n);
      intm := intm + offset * v;
      ds := ds + [v];
      offset := offset * cfg.k;
      d, s := Quot(d, cfg.k), Quot(s, cfg.k);
      n := n + 1;
    }
    assert ks[..cfg.n] == ks && IsIndex(ds, ks);
    FromIndexInRange(ds, ks);
    ToFrom(ds, ks);
  }

  /** The ROMM routing function: the packet fields it leaves, the output port and the range of channels. */
  method RommMesh(cfg: T.Config, b: int, e: int, cur: nat, src: nat, dest: nat, inPort: int, ph: int, intm: nat)
    returns (outPort: int, vcBegin: int, vcEnd: int, ph1: int, intm1: int)
    requires 0 < cfg.k && cur < Prod(T.Ks(cfg)) && src < Prod(T.Ks(cfg)) && dest < Prod(T.Ks(cfg)) && intm < Prod(T.Ks(cfg))
    requires b < e && (ph == 0 || ph == 1)
    ensures 0 <= intm1 < Prod(T.Ks(cfg)) && (ph1 == 0 || ph1 == 1)
    ensures inPort == 2 * cfg.n ==> InQuadrant(T.Index(cfg, src), T.Index(cfg, dest), T.Index(cfg, intm1))
    ensures inPort != 2 * cfg.n ==> intm1 == intm
    ensures ph1 == 0 <==> (inPort == 2 * cfg.n || ph == 0) && cur != intm1
    ensures outPort == 2 * cfg.n <==> ph1 == 1 && cur == dest
    ensures GoesToward(cfg, T.Index(cfg, cur), T.Index(cfg, if ph1 == 0 then intm1 else dest), false, outPort)
    ensures var p := Prepared(cfg, Packet(T.Index(cfg, cur), inPort, ph, T.Index(cfg, intm)), T.Index(cfg, intm1));
      && p.ph == ph1 && p.intm == T.Index(cfg, intm1)
      && T.IsRouter(cfg, p.cur) && T.IsRouter(cfg, p.intm) && T.IsRouter(cfg, T.Index(cfg, dest))
      && outPort == Next(cfg, p.cur, if p.ph == 0 then p.intm else T.Index(cfg, dest), false)
    ensures cur == dest ==> (vcBegin, vcEnd) == (b, e)
    ensures cur != dest ==> T.IsHalfOf(b, e, ph1, vcBegin, vcEnd)
    ensures cur != dest ==> forall vc :: vcBegin <= vc <= vcEnd <==> T.InHalf(b, e, ph1, vc)
  {
    hide Prod, ToIndex, Next, InQuadrant, GoesToward;
    ph1, intm1 := ph, intm;
    if inPort == 2 * cfg.n {
      ph1 := 0;
      intm1 := RandMinIntrMesh(cfg, src, dest);
    }
    T.SameIndex(cfg, cur, intm1);
    if ph1 == 0 && cur == intm1 {
      ph1 := 1;
    }
    outPort := DorNextMesh(cfg, cur, if ph1 == 0 then intm1 else dest, false);
    assert T.IsRouter(cfg, T.Index(cfg, intm1)) && T.IsRouter(cfg, T.Index(cfg, dest));
    vcBegin, vcEnd := b, e;
    if cur != dest {
      var available := (vcEnd - vcBegin + 1) / 2;
      if ph1 == 0 {
        vcEnd := vcEnd - available;
      } else {
        vcBegin := vcBegin + available;
      }
    }
  }
}
