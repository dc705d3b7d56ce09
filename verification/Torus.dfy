/** Dimension-order routing on a k-ary n-cube with wrap-around links.

The virtual channels of a class are split into two halves.  A packet picks its direction and
its half when it enters a ring and keeps both until it leaves it, past the wrap-around link
included.  Along the way it uses (link, half) pairs of strictly increasing rank, which rules
out a cyclic wait between packets when the two halves share no channel.
*/
module Torus {
  import opened Arith
  import opened Radix
  import opened WaitCycles

  /** k positions per ring, n rings, and whether the balanced partition rule is used. */
  datatype Config = Config(k: nat, n: nat, balance: bool)

  // ---- one ring ----

  /** Steps to the right from x to y. */
  function RightDist(k: nat, x: int, y: int): int {
    if y >= x then y - x else y - x + k
  }

  /** The shorter way round. */
  function RingDist(k: nat, x: int, y: int): int {
    if 2 * RightDist(k, x, y) <= k then RightDist(k, x, y) else k - RightDist(k, x, y)
  }

  /** The steps from x to y in direction dir (0 is right, 1 is left). */
  function Remaining(k: nat, dir: int, x: int, y: int): int {
    if x == y then 0 else if dir == 0 then RightDist(k, x, y) else k - RightDist(k, x, y)
  }

  /** The neighbouring position in direction dir. */
  function Move(k: nat, dir: int, x: int): int {
    if dir == 0 then (if x == k - 1 then 0 else x + 1) else (if x == 0 then k - 1 else x - 1)
  }

  /** Direction and half chosen on entering a ring; `tie` and `any` are the two random draws. */
  function Enter(cfg: Config, x: int, y: int, tie: bool, any: int): (int, int) {
    var dist2 := cfg.k - 2 * RightDist(cfg.k, x, y);
    var dir := if dist2 > 0 || (dist2 == 0 && tie) then 0 else 1;
    var part :=
      if cfg.balance then
        if (dir == 0 && x > y) || (dir == 1 && x < y) then 1
        else if (dir == 0 && x <= (cfg.k - 1) / 2 && y > (cfg.k - 1) / 2)
             || (dir == 1 && x > (cfg.k - 1) / 2 && y <= (cfg.k - 1) / 2) then 0
        else any
      else if (dir == 0 && x > y) || (dir == 1 && y < x) then 1
      else 0;
    (dir, part)
  }

  /** The position counted along the direction of travel. */
  function Along(k: nat, dir: int, x: int): int {
    if dir == 0 then x else k - 1 - x
  }

  /** The same, counted from the middle of the ring and across the wrap-around link. */
  function AlongFromMiddle(k: nat, dir: int, x: int): int {
    var middle := if dir == 0 then (k - 1) / 2 + 1 else k - 1 - (k - 1) / 2;
    var y := Along(k, dir, x);
    if y < middle then y - middle + k else y - middle
  }

  /** The half that packets crossing the wrap-around link use. */
  function WrapHalf(balance: bool, dir: int): int {
    if balance then 1 else 1 - dir
  }

  /** The rank of the link that leaves x in direction dir, for one half. */
  function RingRank(cfg: Config, dir: int, part: int, x: int): int {
    if part == WrapHalf(cfg.balance, dir) then AlongFromMiddle(cfg.k, dir, x) else Along(cfg.k, dir, x)
  }

  /** Travelling from x to y in this direction and half climbs in rank all the way. */
  ghost predicate Climbs(cfg: Config, dir: int, part: int, x: int, y: int) {
    && 0 <= x < cfg.k && 0 <= y < cfg.k && (dir == 0 || dir == 1) && (part == 0 || part == 1)
    && RingRank(cfg, dir, part, x) < RingRank(cfg, dir, part, y)
  }

  lemma EnterClimbs(cfg: Config, x: int, y: int, tie: bool, any: int)
    requires 0 <= x < cfg.k && 0 <= y < cfg.k && x != y && (any == 0 || any == 1)
    ensures var (dir, part) := Enter(cfg, x, y, tie, any);
            Climbs(cfg, dir, part, x, y) && Remaining(cfg.k, dir, x, y) == RingDist(cfg.k, x, y)
  {
  }

  lemma MoveNearer(k: nat, dir: int, x: int, y: int)
    requires 0 <= x < k && 0 <= y < k && x != y && (dir == 0 || dir == 1)
    ensures Remaining(k, dir, Move(k, dir, x), y) == Remaining(k, dir, x, y) - 1
  {
  }

  lemma LongerThanNone(cfg: Config, dir: int, x: int, y: int)
    requires 0 <= x < cfg.k && 0 <= y < cfg.k
    ensures if x == y then Remaining(cfg.k, dir, x, y) == 0 else 0 < Remaining(cfg.k, dir, x, y)
  {
  }

  lemma FromMiddleMoves(k: nat, dir: int, x: int, y: int)
    requires 0 <= x < k && 0 <= y < k && (dir == 0 || dir == 1) && AlongFromMiddle(k, dir, x) < AlongFromMiddle(k, dir, y)
    ensures var x1 := Move(k, dir, x);
      AlongFromMiddle(k, dir, x1) == AlongFromMiddle(k, dir, x) + 1 && (x1 != y ==> AlongFromMiddle(k, dir, x1) < AlongFromMiddle(k, dir, y))
  {
  }

  lemma MoveClimbs(cfg: Config, dir: int, part: int, x: int, y: int)
    requires Climbs(cfg, dir, part, x, y)
    ensures var x1 := Move(cfg.k, dir, x);
      && 0 <= x1 < cfg.k && Remaining(cfg.k, dir, x1, y) == Remaining(cfg.k, dir, x, y) - 1
      && (x1 != y ==> Climbs(cfg, dir, part, x1, y) && RingRank(cfg, dir, part, x1) == RingRank(cfg, dir, part, x) + 1)
  {
    MoveNearer(cfg.k, dir, x, y);
    if part == WrapHalf(cfg.balance, dir) {
      FromMiddleMoves(cfg.k, dir, x, y);
    }
    hide AlongFromMiddle, Remaining, RightDist;
  }

  lemma RingRankBounds(cfg: Config, dir: int, part: int, x: int)
    requires 0 <= x < cfg.k && (dir == 0 || dir == 1)
    ensures 0 <= RingRank(cfg, dir, part, x) < cfg.k
  {
  }

  // ---- the whole torus ----

  ghost predicate IsRouter(cfg: Config, r: seq<int>) {
    |r| == cfg.n && forall d :: 0 <= d < cfg.n ==> 0 <= r[d] < cfg.k
  }

  /** The lowest dimension in which two routers differ, or n. */
  ghost function FirstDiff(a: seq<int>, b: seq<int>): (d: nat)
    requires |a| == |b|
    ensures d <= |a| && (d < |a| ==> a[d] != b[d]) && forall j :: 0 <= j < d ==> a[j] == b[j]
  {
    if a == [] || a[0] != b[0] then 0 else
      var d := FirstDiff(a[1..], b[1..]) + 1;
      assert forall j :: 0 < j < d ==> a[j] == a[1..][j - 1] && b[j] == b[1..][j - 1];
      d
  }

  lemma NoDiff(a: seq<int>, b: seq<int>)
    requires |a| == |b|
    ensures a == b <==> FirstDiff(a, b) == |a|
  {
  }

  /** The port on the other side of a link (and the port that continues straight on). */
  function Opposite(port: int): int {
    if port % 2 == 0 then port + 1 else port - 1
  }

  /** Where a packet is, the port it came in by, and the half it was given on entering its ring. */
  datatype Packet = Packet(cur: seq<int>, inPort: int, ph: int)

  datatype Draw = Draw(tie: bool, any: int)

  ghost predicate IsDraw(w: Draw) {
    w.any == 0 || w.any == 1
  }

  /** The routing decision: output port and half.  The ejection port is 2n. */
  ghost function Next(cfg: Config, dest: seq<int>, p: Packet, w: Draw): (int, int)
    requires IsRouter(cfg, dest) && IsRouter(cfg, p.cur)
  {
    var dim := FirstDiff(p.cur, dest);
    if dim == cfg.n then (2 * cfg.n, p.ph)
    else if p.inPort / 2 != dim then
      var (dir, part) := Enter(cfg, p.cur[dim], dest[dim], w.tie, w.any);
      (2 * dim + dir, part)
    else (Opposite(p.inPort), p.ph)
  }

  /** The router that output port `out` of r leads to. */
  ghost function Neighbor(cfg: Config, r: seq<int>, out: int): seq<int>
    requires IsRouter(cfg, r) && 0 <= out < 2 * cfg.n
  {
    r[out / 2 := Move(cfg.k, out % 2, r[out / 2])]
  }

  /** What holds of every packet in flight: it was just injected, or it is done with the dimensions below the
      one it came in by and, if it is not done with that one, still climbs in it. */
  ghost predicate PacketOk(cfg: Config, dest: seq<int>, p: Packet) {
    && IsRouter(cfg, dest) && IsRouter(cfg, p.cur) && 0 <= p.inPort <= 2 * cfg.n
    && var d := p.inPort / 2;
       (d < cfg.n ==>
          && (forall j :: 0 <= j < d ==> p.cur[j] == dest[j])
          && (p.cur[d] != dest[d] ==> Climbs(cfg, Opposite(p.inPort) % 2, p.ph, p.cur[d], dest[d])))
  }

  /** The next link of a packet that has not arrived: the lowest unfinished dimension, climbing. */
  lemma NextIsLink(cfg: Config, dest: seq<int>, p: Packet, w: Draw)
    requires PacketOk(cfg, dest, p) && IsDraw(w) && p.cur != dest
    ensures var (out, ph) := Next(cfg, dest, p, w);
            var dim := FirstDiff(p.cur, dest);
      && dim < cfg.n && 0 <= out < 2 * cfg.n && out / 2 == dim
      && Climbs(cfg, out % 2, ph, p.cur[dim], dest[dim])
      && (p.inPort / 2 != dim ==> Remaining(cfg.k, out % 2, p.cur[dim], dest[dim]) == RingDist(cfg.k, p.cur[dim], dest[dim]))
      && (p.inPort / 2 == dim ==> out == Opposite(p.inPort) && ph == p.ph)
  {
    var dim := FirstDiff(p.cur, dest);
    if dim < cfg.n && p.inPort / 2 != dim {
      EnterClimbs(cfg, p.cur[dim], dest[dim], w.tie, w.any);
    }
  }

  /** The packet after its next hop; a packet at its destination stays. */
  ghost function Hop(cfg: Config, dest: seq<int>, p: Packet, w: Draw): Packet
    requires PacketOk(cfg, dest, p) && IsDraw(w)
  {
    if p.cur == dest then p
    else
      NextIsLink(cfg, dest, p, w);
      var (out, ph) := Next(cfg, dest, p, w);
      Packet(Neighbor(cfg, p.cur, out), Opposite(out), ph)
  }

  lemma HopKeepsOk(cfg: Config, dest: seq<int>, p: Packet, w: Draw)
    requires PacketOk(cfg, dest, p) && IsDraw(w)
    ensures PacketOk(cfg, dest, Hop(cfg, dest, p, w))
  {
    hide Enter, RingRank;
    if p.cur != dest {
      NextIsLink(cfg, dest, p, w);
      var (out, ph) := Next(cfg, dest, p, w);
      MoveClimbs(cfg, out % 2, ph, p.cur[out / 2], dest[out / 2]);
    }
  }

  /** The rank of a link in one half: lower dimensions first, then the order along the ring. */
  ghost function LinkRank(cfg: Config, r: seq<int>, out: int, part: int): int
    requires IsRouter(cfg, r) && 0 <= out < 2 * cfg.n
  {
    (out / 2) * cfg.k + RingRank(cfg, out % 2, part, r[out / 2])
  }

  /** The hop after a hop is in a later dimension, or straight on and one rank higher. */
  lemma NextAfterHop(cfg: Config, dest: seq<int>, p: Packet, w: Draw, w1: Draw)
    requires PacketOk(cfg, dest, p) && IsDraw(w) && IsDraw(w1) && p.cur != dest && Hop(cfg, dest, p, w).cur != dest
    ensures var p1 := Hop(cfg, dest, p, w);
            var (out, ph) := Next(cfg, dest, p, w);
            var (out1, ph1) := Next(cfg, dest, p1, w1);
      && 0 <= out < 2 * cfg.n && 0 <= out1 < 2 * cfg.n && out / 2 <= out1 / 2
      && (out / 2 == out1 / 2 ==>
            && out1 == out && ph1 == ph
            && RingRank(cfg, out % 2, ph, p1.cur[out / 2]) == RingRank(cfg, out % 2, ph, p.cur[out / 2]) + 1)
  {
    hide Enter, RingRank, Remaining, RightDist, RingDist;
    NextIsLink(cfg, dest, p, w);
    HopKeepsOk(cfg, dest, p, w);
    NextIsLink(cfg, dest, Hop(cfg, dest, p, w), w1);
    var (out, ph) := Next(cfg, dest, p, w);
    MoveClimbs(cfg, out % 2, ph, p.cur[out / 2], dest[out / 2]);
  }

  lemma RankOrder(k: nat, a: int, x: int, b: int, y: int)
    requires 0 <= x < k && 0 <= y < k && a <= b && (a == b ==> x < y)
    ensures a * k + x < b * k + y
  {
    if a < b {
      MulMono(a + 1, b, k);
      assert (a + 1) * k == a * k + k;
    }
  }

  /** Consecutive hops climb. */
  lemma HopsClimb(cfg: Config, dest: seq<int>, p: Packet, w: Draw, w1: Draw)
    requires PacketOk(cfg, dest, p) && IsDraw(w) && IsDraw(w1) && p.cur != dest && Hop(cfg, dest, p, w).cur != dest
    ensures var p1 := Hop(cfg, dest, p, w);
            var (out, ph) := Next(cfg, dest, p, w);
            var (out1, ph1) := Next(cfg, dest, p1, w1);
      && 0 <= out < 2 * cfg.n && 0 <= out1 < 2 * cfg.n && IsRouter(cfg, p1.cur)
      && LinkRank(cfg, p.cur, out, ph) < LinkRank(cfg, p1.cur, out1, ph1)
  {
    hide Enter, RingRank, Next, Hop;
    NextAfterHop(cfg, dest, p, w, w1);
    HopKeepsOk(cfg, dest, p, w);
    var p1 := Hop(cfg, dest, p, w);
    var (out, ph) := Next(cfg, dest, p, w);
    var (out1, ph1) := Next(cfg, dest, p1, w1);
    RingRankBounds(cfg, out % 2, ph, p.cur[out / 2]);
    RingRankBounds(cfg, out1 % 2, ph1, p1.cur[out1 / 2]);
    RankOrder(cfg.k, out / 2, RingRank(cfg, out % 2, ph, p.cur[out / 2]), out1 / 2, RingRank(cfg, out1 % 2, ph1, p1.cur[out1 / 2]));
  }

  // ---- virtual channels ----

  /** The range of virtual channels a packet of half ph may request; b and e bound its class. */
  function Half(b: int, e: int, ph: int): (int, int) {
    var available := (e - b + 1) / 2;
    if ph == 0 then (b, e - available) else (b + available, e)
  }

  predicate InHalf(b: int, e: int, ph: int, vc: int) {
    Half(b, e, ph).0 <= vc <= Half(b, e, ph).1
  }

  /** A half in numbers: the lowest or the highest channels of the class, half of them rounded up. */
  predicate IsHalfOf(b: int, e: int, ph: int, first: int, last: int) {
    && 2 * (last - first + 1) == (e - b + 1) + (e - b + 1) % 2
    && (if ph == 0 then first == b else last == e)
  }

  /** The halves are disjoint exactly when the class has an even number of channels. */
  lemma HalvesDisjoint(b: int, e: int)
    requires b < e
    ensures (exists vc :: InHalf(b, e, 0, vc) && InHalf(b, e, 1, vc)) <==> (e - b + 1) % 2 == 1
  {
    var mid := b + (e - b + 1) / 2;
    assert (e - b + 1) % 2 == 1 ==> InHalf(b, e, 0, mid) && InHalf(b, e, 1, mid);
  }

  /** A virtual channel of a link. */
  datatype Channel = Channel(router: seq<int>, out: int, vc: int)

  /** The packet state after `i` hops of a packet injected at src, for the given draws. */
  ghost function At(cfg: Config, src: seq<int>, dest: seq<int>, draws: seq<Draw>, i: nat): (p: Packet)
    requires IsRouter(cfg, src) && IsRouter(cfg, dest) && i <= |draws| && forall w :: w in draws ==> IsDraw(w)
    ensures PacketOk(cfg, dest, p)
  {
    if i == 0 then Packet(src, 2 * cfg.n, 0)
    else
      HopKeepsOk(cfg, dest, At(cfg, src, dest, draws, i - 1), draws[i - 1]);
      Hop(cfg, dest, At(cfg, src, dest, draws, i - 1), draws[i - 1])
  }

  /** A packet in state p, still on its way, may request channel c. */
  ghost predicate Requests(cfg: Config, b: int, e: int, dest: seq<int>, p: Packet, w: Draw, c: Channel)
    requires IsRouter(cfg, dest) && IsRouter(cfg, p.cur)
  {
    && p.cur != dest && c.router == p.cur && c.out == Next(cfg, dest, p, w).0
    && InHalf(b, e, Next(cfg, dest, p, w).1, c.vc)
  }

  ghost predicate WaitsOnRun(cfg: Config, b: int, e: int, src: seq<int>, dest: seq<int>, draws: seq<Draw>, i: nat,
                             c: Channel, c1: Channel) {
    && IsRouter(cfg, src) && IsRouter(cfg, dest) && i + 1 < |draws| && (forall w :: w in draws ==> IsDraw(w))
    && Requests(cfg, b, e, dest, At(cfg, src, dest, draws, i), draws[i], c)
    && Requests(cfg, b, e, dest, At(cfg, src, dest, draws, i + 1), draws[i + 1], c1)
  }

  /** Some packet, on some run, holds c while it requests c1. */
  ghost predicate Waits(cfg: Config, b: int, e: int, c: Channel, c1: Channel) {
    exists src, dest, draws, i: nat :: WaitsOnRun(cfg, b, e, src, dest, draws, i, c, c1)
  }

  /** The half a channel belongs to, when the halves are disjoint. */
  function HalfOf(b: int, e: int, vc: int): int {
    if vc <= Half(b, e, 0).1 then 0 else 1
  }

  ghost function ChannelRank(cfg: Config, b: int, e: int, c: Channel): int
    requires IsRouter(cfg, c.router) && 0 <= c.out < 2 * cfg.n
  {
    if (e - b + 1) % 2 == 0 then LinkRank(cfg, c.router, c.out, HalfOf(b, e, c.vc)) else c.out / 2
  }

  lemma HalfIsDetermined(b: int, e: int, ph: int, vc: int)
    requires b < e && (e - b + 1) % 2 == 0 && (ph == 0 || ph == 1) && InHalf(b, e, ph, vc)
    ensures HalfOf(b, e, vc) == ph
  {
  }

  lemma HopInPort(cfg: Config, dest: seq<int>, p: Packet, w: Draw)
    requires PacketOk(cfg, dest, p) && IsDraw(w) && p.cur != dest
    ensures Hop(cfg, dest, p, w).inPort / 2 == Next(cfg, dest, p, w).0 / 2
  {
  }

  lemma ShortMove(cfg: Config, dir: int, part: int, x: int, y: int)
    requires cfg.k < 4 && Climbs(cfg, dir, part, x, y) && x != y && Remaining(cfg.k, dir, x, y) == RingDist(cfg.k, x, y)
    ensures Move(cfg.k, dir, x) == y
  {
    MoveClimbs(cfg, dir, part, x, y);
  }

  /** On a ring of fewer than four routers a packet leaves every dimension after one hop. */
  lemma {:induction false} OneHopPerRing(cfg: Config, src: seq<int>, dest: seq<int>, draws: seq<Draw>, i: nat)
    requires cfg.k < 4 && IsRouter(cfg, src) && IsRouter(cfg, dest) && i <= |draws| && (forall w :: w in draws ==> IsDraw(w))
    ensures var p := At(cfg, src, dest, draws, i);
            p.inPort / 2 < cfg.n ==> p.cur[p.inPort / 2] == dest[p.inPort / 2]
  {
    hide Enter, RingRank, Next;
    if i > 0 {
      OneHopPerRing(cfg, src, dest, draws, i - 1);
      var p, w := At(cfg, src, dest, draws, i - 1), draws[i - 1];
      if p.cur != dest {
        NextIsLink(cfg, dest, p, w);
        var (out, ph) := Next(cfg, dest, p, w);
        var dim := out / 2;
        ShortMove(cfg, out % 2, ph, p.cur[dim], dest[dim]);
      }
    }
  }

  /** Whoever waits holds a lower ranked channel than the one it waits for: always with an even number of
      channels, and with any number on rings too small for two hops in a row. */
  lemma WaitingClimbs(cfg: Config, b: int, e: int, c: Channel, c1: Channel)
    requires b < e && ((e - b + 1) % 2 == 0 || cfg.k < 4) && Waits(cfg, b, e, c, c1)
    ensures IsRouter(cfg, c.router) && 0 <= c.out < 2 * cfg.n && IsRouter(cfg, c1.router) && 0 <= c1.out < 2 * cfg.n
    ensures ChannelRank(cfg, b, e, c) < ChannelRank(cfg, b, e, c1)
  {
    hide Enter, RingRank, Next, Hop, LinkRank, Remaining, RightDist, InHalf, HalfOf;
    var src, dest, draws, i: nat :| WaitsOnRun(cfg, b, e, src, dest, draws, i, c, c1);
    var p, w, w1 := At(cfg, src, dest, draws, i), draws[i], draws[i + 1];
    var p1 := At(cfg, src, dest, draws, i + 1);
    assert p1 == Hop(cfg, dest, p, w);
    HopsClimb(cfg, dest, p, w, w1);
    NextIsLink(cfg, dest, p, w);
    NextIsLink(cfg, dest, p1, w1);
    if (e - b + 1) % 2 == 0 {
      HalfIsDetermined(b, e, Next(cfg, dest, p, w).1, c.vc);
      HalfIsDetermined(b, e, Next(cfg, dest, p1, w1).1, c1.vc);
    } else {
      OneHopPerRing(cfg, src, dest, draws, i + 1);
      assert p1.inPort / 2 == Next(cfg, dest, p, w).0 / 2 by {
        HopInPort(cfg, dest, p, w);
      }
    }
  }

  ghost function Waiting(cfg: Config, b: int, e: int): (Channel, Channel) -> bool {
    (c, c1) => Waits(cfg, b, e, c, c1)
  }

  ghost predicate CyclicWait(cfg: Config, b: int, e: int) {
    Cyclic(Waiting(cfg, b, e))
  }

  ghost predicate Below(cfg: Config, b: int, e: int, c: Channel, c1: Channel) {
    && IsRouter(cfg, c.router) && 0 <= c.out < 2 * cfg.n && IsRouter(cfg, c1.router) && 0 <= c1.out < 2 * cfg.n
    && ChannelRank(cfg, b, e, c) < ChannelRank(cfg, b, e, c1)
  }

  /** The router at position x of the first ring. */
  ghost function OnFirstRing(cfg: Config, x: int): seq<int> {
    seq(cfg.n, d => if d == 0 then x else 0)
  }

  /** A packet from x to the router two steps to the right holds the link at x and waits for the one at x + 1. */
  lemma TwoStepsRight(cfg: Config, b: int, e: int, x: int, vc: int)
    requires 4 <= cfg.k && 1 <= cfg.n && 0 <= x < cfg.k && InHalf(b, e, 0, vc) && InHalf(b, e, 1, vc)
    ensures Waits(cfg, b, e, Channel(OnFirstRing(cfg, x), 0, vc), Channel(OnFirstRing(cfg, Move(cfg.k, 0, x)), 0, vc))
  {
    hide InHalf;
    var x1 := Move(cfg.k, 0, x);
    var src, dest := OnFirstRing(cfg, x), OnFirstRing(cfg, Move(cfg.k, 0, x1));
    var w := Draw(true, 0);
    var draws := [w, w];
    var p := At(cfg, src, dest, draws, 0);
    assert p == Packet(src, 2 * cfg.n, 0);
    assert FirstDiff(src, dest) == 0;
    var (out, ph) := Next(cfg, dest, p, w);
    assert out == 0 && (ph == 0 || ph == 1);
    var p1 := Hop(cfg, dest, p, w);
    assert At(cfg, src, dest, draws, 1) == p1;
    assert p1.cur == OnFirstRing(cfg, x1) && p1.inPort == 1 && p1.ph == ph;
    assert FirstDiff(p1.cur, dest) == 0;
    assert Next(cfg, dest, p1, w) == (0, ph);
    assert WaitsOnRun(cfg, b, e, src, dest, draws, 0, Channel(src, 0, vc), Channel(p1.cur, 0, vc));
  }

  lemma MiddleShared(b: int, e: int)
    requires b < e && (e - b + 1) % 2 == 1
    ensures InHalf(b, e, 0, b + (e - b + 1) / 2) && InHalf(b, e, 1, b + (e - b + 1) / 2)
  {
  }

  /** With an odd number of channels the shared one closes a cycle around the first ring. */
  lemma OddSharesChannel(cfg: Config, b: int, e: int)
    requires b < e && (e - b + 1) % 2 == 1 && 4 <= cfg.k && 1 <= cfg.n
    ensures CyclicWait(cfg, b, e)
  {
    hide Waits, InHalf, Cyclic;
    var vc := b + (e - b + 1) / 2;
    assert InHalf(b, e, 0, vc) && InHalf(b, e, 1, vc) by {
      MiddleShared(b, e);
    }
    var chain := seq(cfg.k + 1, x => Channel(OnFirstRing(cfg, if x == cfg.k then 0 else x), 0, vc));
    forall x | 0 < x < |chain|
      ensures Waits(cfg, b, e, chain[x - 1], chain[x])
    {
      TwoStepsRight(cfg, b, e, x - 1, vc);
    }
    CycleFound(Waiting(cfg, b, e), chain);
  }

  /** Dimension-order torus routing, plain or balanced and for every random draw, is free of cyclic waits
      exactly when the class has an even number of channels or the rings are too short for two hops. */
  lemma DeadlockFree(cfg: Config, b: int, e: int)
    requires b < e && 1 <= cfg.n
    ensures !CyclicWait(cfg, b, e) <==> ((e - b + 1) % 2 == 0 || cfg.k < 4)
  {
    if (e - b + 1) % 2 == 0 || cfg.k < 4 {
      hide Waits, ChannelRank;
      forall c, c1 | Waits(cfg, b, e, c, c1)
        ensures Below(cfg, b, e, c, c1)
      {
        WaitingClimbs(cfg, b, e, c, c1);
      }
      ClimbingIsAcyclic(Waiting(cfg, b, e), (c, c1) => Below(cfg, b, e, c, c1));
    } else {
      OddSharesChannel(cfg, b, e);
    }
  }

  // ---- delivery ----

  /** The ring distances of the dimensions from d on. */
  ghost function SumDist(k: nat, a: seq<int>, b: seq<int>, d: nat): int
    requires |a| == |b|
    decreases |a| - d
  {
    if d >= |a| then 0 else RingDist(k, a[d], b[d]) + SumDist(k, a, b, d + 1)
  }

  /** The hops a packet still has to make. */
  ghost function HopsLeft(cfg: Config, dest: seq<int>, p: Packet): int
    requires IsRouter(cfg, dest) && IsRouter(cfg, p.cur)
  {
    var dim := FirstDiff(p.cur, dest);
    if dim == cfg.n then 0
    else (if p.inPort / 2 == dim then Remaining(cfg.k, Opposite(p.inPort) % 2, p.cur[dim], dest[dim])
          else RingDist(cfg.k, p.cur[dim], dest[dim])) + SumDist(cfg.k, p.cur, dest, dim + 1)
  }

  lemma {:induction false} SumDistSame(k: nat, a: seq<int>, a1: seq<int>, b: seq<int>, d: nat)
    requires |a| == |a1| == |b| && forall j :: d <= j < |a| ==> a[j] == a1[j]
    ensures SumDist(k, a, b, d) == SumDist(k, a1, b, d)
    decreases |a| - d
  {
    if d < |a| {
      SumDistSame(k, a, a1, b, d + 1);
    }
  }

  lemma {:induction false} SumDistSkip(k: nat, a: seq<int>, b: seq<int>, d: nat, dim: nat)
    requires |a| == |b| && d <= dim <= |a| && forall j :: d <= j < dim ==> a[j] == b[j]
    ensures SumDist(k, a, b, d) == SumDist(k, a, b, dim)
    decreases dim - d
  {
    if d < dim {
      SumDistSkip(k, a, b, d + 1, dim);
    }
  }

  lemma {:induction false} SumDistNonneg(cfg: Config, a: seq<int>, b: seq<int>, d: nat)
    requires IsRouter(cfg, a) && IsRouter(cfg, b)
    ensures 0 <= SumDist(cfg.k, a, b, d)
    decreases |a| - d
  {
    if d < |a| {
      SumDistNonneg(cfg, a, b, d + 1);
    }
  }

  lemma HopsLeftIsSum(cfg: Config, dest: seq<int>, p: Packet)
    requires PacketOk(cfg, dest, p) && p.inPort / 2 != FirstDiff(p.cur, dest)
    ensures forall d :: 0 <= d <= FirstDiff(p.cur, dest) ==> HopsLeft(cfg, dest, p) == SumDist(cfg.k, p.cur, dest, d)
  {
    var dim := FirstDiff(p.cur, dest);
    forall d | 0 <= d <= dim
      ensures HopsLeft(cfg, dest, p) == SumDist(cfg.k, p.cur, dest, d)
    {
      if d < dim {
        SumDistSkip(cfg.k, p.cur, dest, d, dim);
      }
    }
  }

  /** The hops left, counted on the link the packet takes next. */
  lemma LeftByLink(cfg: Config, dest: seq<int>, p: Packet, w: Draw)
    requires PacketOk(cfg, dest, p) && IsDraw(w) && p.cur != dest
    ensures var out := Next(cfg, dest, p, w).0;
            var dim := out / 2;
      && 0 <= out && dim < cfg.n && dim == FirstDiff(p.cur, dest)
      && HopsLeft(cfg, dest, p) == Remaining(cfg.k, out % 2, p.cur[dim], dest[dim]) + SumDist(cfg.k, p.cur, dest, dim + 1)
  {
    NextIsLink(cfg, dest, p, w);
    hide Next, Climbs, RingDist, Remaining, SumDist, PacketOk;
  }

  /** Every hop is one fewer to go. */
  lemma HopCounts(cfg: Config, dest: seq<int>, p: Packet, w: Draw)
    requires PacketOk(cfg, dest, p) && IsDraw(w) && p.cur != dest
    ensures PacketOk(cfg, dest, Hop(cfg, dest, p, w))
    ensures HopsLeft(cfg, dest, Hop(cfg, dest, p, w)) == HopsLeft(cfg, dest, p) - 1
    ensures 0 < HopsLeft(cfg, dest, p)
  {
    hide Next, RingRank, RingDist, Remaining, RightDist, SumDist;
    NextIsLink(cfg, dest, p, w);
    HopKeepsOk(cfg, dest, p, w);
    LeftByLink(cfg, dest, p, w);
    var (out, ph) := Next(cfg, dest, p, w);
    var dim, p1 := out / 2, Hop(cfg, dest, p, w);
    MoveClimbs(cfg, out % 2, ph, p.cur[dim], dest[dim]);
    LongerThanNone(cfg, out % 2, p.cur[dim], dest[dim]);
    SumDistSame(cfg.k, p.cur, p1.cur, dest, dim + 1);
    SumDistNonneg(cfg, p.cur, dest, dim + 1);
    if p1.cur[dim] == dest[dim] {
      LongerThanNone(cfg, out % 2, p1.cur[dim], dest[dim]);
      assert p1.inPort / 2 == dim && FirstDiff(p1.cur, dest) > dim;
      HopsLeftIsSum(cfg, dest, p1);
    } else {
      assert FirstDiff(p1.cur, dest) == dim && p1.inPort / 2 == dim && Opposite(p1.inPort) == out;
    }
  }

  lemma NoneLeft(cfg: Config, dest: seq<int>, p: Packet)
    requires PacketOk(cfg, dest, p)
    ensures HopsLeft(cfg, dest, p) >= 0 && (p.cur == dest <==> HopsLeft(cfg, dest, p) == 0)
  {
    if p.cur != dest {
      HopCounts(cfg, dest, p, Draw(true, 0));
    }
  }

  lemma StartsAtTotal(cfg: Config, src: seq<int>, dest: seq<int>)
    requires IsRouter(cfg, src) && IsRouter(cfg, dest)
    ensures HopsLeft(cfg, dest, Packet(src, 2 * cfg.n, 0)) == SumDist(cfg.k, src, dest, 0)
  {
    var p := Packet(src, 2 * cfg.n, 0);
    if src == dest {
      SumDistSkip(cfg.k, src, dest, 0, cfg.n);
    } else {
      HopsLeftIsSum(cfg, dest, p);
    }
  }

  /** Whatever is drawn, a packet needs exactly the sum of its ring distances. */
  lemma {:induction false} Delivers(cfg: Config, src: seq<int>, dest: seq<int>, draws: seq<Draw>, i: nat)
    requires IsRouter(cfg, src) && IsRouter(cfg, dest) && i <= |draws| && (forall w :: w in draws ==> IsDraw(w))
    ensures var total := SumDist(cfg.k, src, dest, 0);
            var p := At(cfg, src, dest, draws, i);
            HopsLeft(cfg, dest, p) == (if i < total then total - i else 0) && (p.cur == dest <==> total <= i)
  {
    hide SumDist, HopsLeft, PacketOk, Next, IsRouter;
    var p := At(cfg, src, dest, draws, i);
    NoneLeft(cfg, dest, p);
    if i == 0 {
      StartsAtTotal(cfg, src, dest);
    } else {
      Delivers(cfg, src, dest, draws, i - 1);
      var before := At(cfg, src, dest, draws, i - 1);
      if before.cur != dest {
        HopCounts(cfg, dest, before, draws[i - 1]);
      }
    }
  }

  /** A packet takes the ejection port at hop number `total`, the distance, and a link at every hop before. */
  lemma HandedOver(cfg: Config, src: seq<int>, dest: seq<int>, draws: seq<Draw>, i: nat, w: Draw)
    requires IsRouter(cfg, src) && IsRouter(cfg, dest) && i <= |draws| && (forall w :: w in draws ==> IsDraw(w)) && IsDraw(w)
    ensures var total := SumDist(cfg.k, src, dest, 0);
            var out := Next(cfg, dest, At(cfg, src, dest, draws, i), w).0;
            if total <= i then out == 2 * cfg.n else 0 <= out < 2 * cfg.n
  {
    hide SumDist, HopsLeft, PacketOk, At;
    Delivers(cfg, src, dest, draws, i);
    var p := At(cfg, src, dest, draws, i);
    if p.cur != dest {
      NextIsLink(cfg, dest, p, w);
    } else {
      NoDiff(p.cur, dest);
    }
  }

  // ---- router addresses ----

  ghost function Ks(cfg: Config): seq<nat> {
    seq(cfg.n, _ => cfg.k)
  }

  /** The position vector of a router address. */
  ghost function Index(cfg: Config, x: nat): seq<int>
    requires 0 < cfg.k
  {
    ToIndex(x, Ks(cfg))
  }

  function Power(k: nat, d: nat): nat {
    if d == 0 then 1 else k * Power(k, d - 1)
  }

  lemma {:induction false} StrideIsPower(cfg: Config, d: nat)
    requires d <= cfg.n
    ensures Prod(Ks(cfg)[..d]) == Power(cfg.k, d)
    decreases d
  {
    if d > 0 {
      StrideIsPower(Config(cfg.k, cfg.n - 1, cfg.balance), d - 1);
      assert Ks(cfg)[..d][1..] == Ks(Config(cfg.k, cfg.n - 1, cfg.balance))[..d - 1];
    }
  }

  /** The neighbours as the network is wired: one stride up or down, wrapping at the edge. */
  function RightNode(k: nat, node: nat, dim: nat): int
    requires 0 < k && 0 < Power(k, dim)
  {
    if Rem(Quot(node, Power(k, dim)), k) == k - 1 then node - (k - 1) * Power(k, dim) else node + Power(k, dim)
  }

  function LeftNode(k: nat, node: nat, dim: nat): int
    requires 0 < k && 0 < Power(k, dim)
  {
    if Rem(Quot(node, Power(k, dim)), k) == 0 then node + (k - 1) * Power(k, dim) else node - Power(k, dim)
  }

  lemma OneStride(k: nat, x: nat, dim: nat, dir: int, loc: int)
    requires 0 < k && 0 < Power(k, dim) && loc == Rem(Quot(x, Power(k, dim)), k) && (dir == 0 || dir == 1)
    ensures (if dir == 0 then RightNode(k, x, dim) else LeftNode(k, x, dim)) == x + (Move(k, dir, loc) - loc) * Power(k, dim)
  {
    hide Rem, Quot, Power;
    var s: int := Power(k, dim);
    assert (0 - (k - 1)) * s == -((k - 1) * s);
    assert 1 * s == s && (-1) * s == -s;
  }

  /** The wired neighbour is the one that differs by one step in one position. */
  lemma WiredNeighbor(cfg: Config, x: nat, out: int)
    requires 0 < cfg.k && x < Prod(Ks(cfg)) && 0 <= out < 2 * cfg.n
    ensures 0 < Power(cfg.k, out / 2) && IsRouter(cfg, Index(cfg, x))
    ensures var y := if out % 2 == 0 then RightNode(cfg.k, x, out / 2) else LeftNode(cfg.k, x, out / 2);
            0 <= y < Prod(Ks(cfg)) && Index(cfg, y) == Neighbor(cfg, Index(cfg, x), out)
  {
    hide Rem, Quot, Prod, ToIndex, FromIndex, RightNode, LeftNode, Power;
    var dim, dir, ks, ds := out / 2, out % 2, Ks(cfg), Index(cfg, x);
    StrideIsPower(cfg, dim);
    PositionByStride(x, ks, dim);
    var v := Move(cfg.k, dir, ds[dim]);
    assert IsIndex(ds[dim := v], ks);
    SetPosition(ds, ks, dim, v);
    FromTo(x, ks);
    ToFrom(ds[dim := v], ks);
    FromIndexInRange(ds[dim := v], ks);
    OneStride(cfg.k, x, dim, dir, ds[dim]);
  }

  /** Comparing addresses is comparing positions. */
  lemma SameIndex(cfg: Config, x: nat, y: nat)
    requires 0 < cfg.k && x < Prod(Ks(cfg)) && y < Prod(Ks(cfg))
    ensures x == y <==> Index(cfg, x) == Index(cfg, y)
  {
    FromTo(x, Ks(cfg));
    FromTo(y, Ks(cfg));
  }

  // ---- the wiring ----

  /** The neighbour in the direction of port `port`, which is the same for inputs and outputs: even ports to the right. */
  function Beside(k: nat, node: nat, port: nat): int
    requires 0 < k && 0 < Power(k, port / 2)
  {
    if port % 2 == 0 then RightNode(k, node, port / 2) else LeftNode(k, node, port / 2)
  }

  /** The channel added as output `port` of a node: the node's right and left channels, dimension by dimension. */
  function OutChannel(n: nat, node: int, port: int): int {
    2 * n * node + port
  }

  /** The channel added as input `port`: first the right neighbour's left channel, then the left neighbour's right one. */
  function InChannel(k: nat, n: nat, node: nat, port: nat): int
    requires 0 < k && 0 < Power(k, port / 2)
  {
    if port % 2 == 0 then OutChannel(n, RightNode(k, node, port / 2), 2 * (port / 2) + 1)
    else OutChannel(n, LeftNode(k, node, port / 2), 2 * (port / 2))
  }

  /** What a port of a router is tied to: a channel between routers, or the node of an address. */
  datatype Wire = Link(channel: int) | Node(address: nat)

  lemma {:induction false} PowerPositive(k: nat, d: nat)
    requires 0 < k
    ensures 0 < Power(k, d)
  {
    if d > 0 {
      PowerPositive(k, d - 1);
    }
  }

  /** Adds the ports of one router in order: two a dimension, the last one the node's own. */
  method WireRouter(cfg: Config, node: nat) returns (ins: seq<Wire>, outs: seq<Wire>)
    requires 0 < cfg.k
    ensures |ins| == |outs| == 2 * cfg.n + 1
    ensures ins[2 * cfg.n] == outs[2 * cfg.n] == Node(node)
    ensures forall port | 0 <= port < 2 * cfg.n ::
      0 < Power(cfg.k, port / 2) && outs[port] == Link(OutChannel(cfg.n, node, port)) && ins[port] == Link(InChannel(cfg.k, cfg.n, node, port))
  {
    hide Power, LeftNode, RightNode;
    ins, outs := [], [];
    for dim := 0 to cfg.n
      invariant |ins| == |outs| == 2 * dim
      invariant forall port | 0 <= port < 2 * dim ::
        0 < Power(cfg.k, port / 2) && outs[port] == Link(OutChannel(cfg.n, node, port)) && ins[port] == Link(InChannel(cfg.k, cfg.n, node, port))
    {
      PowerPositive(cfg.k, dim);
      var left, right := LeftNode(cfg.k, node, dim), RightNode(cfg.k, node, dim);
      ins := ins + [Link(2 * cfg.n * right + 2 * dim + 1)] + [Link(2 * cfg.n * left + 2 * dim)];
      outs := outs + [Link(2 * cfg.n * node + 2 * dim)] + [Link(2 * cfg.n * node + 2 * dim + 1)];
      assert forall port | 2 * dim <= port < 2 * dim + 2 :: port / 2 == dim;
    }
    ins := ins + [Node(node)];
    outs := outs + [Node(node)];
  }

  lemma BesideInRange(cfg: Config, x: nat, port: nat)
    requires 0 < cfg.k && x < Prod(Ks(cfg)) && port < 2 * cfg.n
    ensures 0 < Power(cfg.k, port / 2) && IsRouter(cfg, Index(cfg, x))
    ensures 0 <= Beside(cfg.k, x, port) < Prod(Ks(cfg))
    ensures Index(cfg, Beside(cfg.k, x, port)) == Neighbor(cfg, Index(cfg, x), port)
  {
    WiredNeighbor(cfg, x, port);
  }

  /** Going to a neighbour and back. */
  lemma BesideBack(cfg: Config, x: nat, port: nat)
    requires 0 < cfg.k && x < Prod(Ks(cfg)) && port < 2 * cfg.n
    ensures 0 < Power(cfg.k, port / 2) && 0 <= Beside(cfg.k, x, port) && Opposite(port) / 2 == port / 2
    ensures Beside(cfg.k, Beside(cfg.k, x, port), Opposite(port)) == x
  {
    hide Prod, Index, Power, Beside;
    BesideInRange(cfg, x, port);
    var y := Beside(cfg.k, x, port);
    assert Opposite(port) / 2 == port / 2;
    BesideInRange(cfg, y, Opposite(port));
    var back := Beside(cfg.k, y, Opposite(port));
    assert Neighbor(cfg, Neighbor(cfg, Index(cfg, x), port), Opposite(port)) == Index(cfg, x);
    SameIndex(cfg, back, x);
  }

  lemma InIsOut(k: nat, n: nat, node: nat, port: nat)
    requires 0 < k && 0 < Power(k, port / 2)
    ensures InChannel(k, n, node, port) == OutChannel(n, Beside(k, node, port), Opposite(port))
  {
  }

  lemma ChannelUnique(n: nat, x: int, p: int, y: int, q: int)
    requires 0 <= p < 2 * n && 0 <= q < 2 * n && OutChannel(n, x, p) == OutChannel(n, y, q)
    ensures x == y && p == q
  {
    assert 2 * n * x == x * (2 * n) && 2 * n * y == y * (2 * n);
    DivModUnique(OutChannel(n, x, p), 2 * n, x, p);
    DivModUnique(OutChannel(n, y, q), 2 * n, y, q);
  }

  /** The channel behind output `out` of x is the input of exactly one port of the network: the opposite port of the
      neighbour. */
  lemma WiredPort(cfg: Config, x: nat, out: nat, z: nat, port: nat)
    requires 0 < cfg.k && x < Prod(Ks(cfg)) && out < 2 * cfg.n && z < Prod(Ks(cfg)) && port < 2 * cfg.n
    ensures 0 < Power(cfg.k, out / 2) && 0 < Power(cfg.k, port / 2)
    ensures InChannel(cfg.k, cfg.n, z, port) == OutChannel(cfg.n, x, out) <==> z == Beside(cfg.k, x, out) && port == Opposite(out)
  {
    hide Prod, Index, Power, Beside, InChannel, OutChannel;
    BesideBack(cfg, x, out);
    BesideBack(cfg, z, port);
    InIsOut(cfg.k, cfg.n, z, port);
    if InChannel(cfg.k, cfg.n, z, port) == OutChannel(cfg.n, x, out) {
      ChannelUnique(cfg.n, Beside(cfg.k, z, port), Opposite(port), x, out);
    }
  }

  /** So a hop is what the wiring makes of it: the packet arrives at the router and the input port that its output
      channel leads to. */
  lemma HopIsWired(cfg: Config, dest: seq<int>, x: nat, inPort: int, ph: int, w: Draw, z: nat, port: nat)
    requires 0 < cfg.k && x < Prod(Ks(cfg)) && z < Prod(Ks(cfg)) && port < 2 * cfg.n && IsDraw(w)
    requires PacketOk(cfg, dest, Packet(Index(cfg, x), inPort, ph)) && Index(cfg, x) != dest
    ensures var p := Packet(Index(cfg, x), inPort, ph);
            var out := Next(cfg, dest, p, w).0;
      && 0 <= out < 2 * cfg.n && 0 < Power(cfg.k, port / 2)
      && (InChannel(cfg.k, cfg.n, z, port) == OutChannel(cfg.n, x, out) <==>
            Hop(cfg, dest, p, w).cur == Index(cfg, z) && Hop(cfg, dest, p, w).inPort == port)
  {
    hide Prod, Index, Power, Beside, InChannel, OutChannel;
    var p := Packet(Index(cfg, x), inPort, ph);
    NextIsLink(cfg, dest, p, w);
    var out := Next(cfg, dest, p, w).0;
    WiredPort(cfg, x, out, z, port);
    BesideInRange(cfg, x, out);
    SameIndex(cfg, Beside(cfg.k, x, out), z);
  }

  lemma Digit(cfg: Config, x: nat, d: nat)
    requires 0 < cfg.k && d < cfg.n
    ensures ToIndex(x, Ks(cfg)[d..])[0] == Rem(x, cfg.k)
    ensures ToIndex(x, Ks(cfg)[d..])[1..] == ToIndex(Quot(x, cfg.k), Ks(cfg)[d + 1..])
  {
    hide Rem, Quot;
    assert Ks(cfg)[d..][1..] == Ks(cfg)[d + 1..] && Ks(cfg)[d..][0] == cfg.k;
  }

  lemma {:induction false} FirstDiffIs(a: seq<int>, b: seq<int>, d: nat)
    requires |a| == |b| && d <= |a| && (d < |a| ==> a[d] != b[d]) && forall j :: 0 <= j < d ==> a[j] == b[j]
    ensures FirstDiff(a, b) == d
  {
  }

  /** Divides both addresses by k until their lowest digits differ. */
  method LowestDiff(cfg: Config, cur: nat, dest: nat) returns (dimLeft: nat, c: nat, d: nat)
    requires 0 < cfg.k && cur < Prod(Ks(cfg)) && dest < Prod(Ks(cfg))
    ensures dimLeft == FirstDiff(Index(cfg, cur), Index(cfg, dest))
    ensures dimLeft < cfg.n ==> Rem(c, cfg.k) == Index(cfg, cur)[dimLeft] && Rem(d, cfg.k) == Index(cfg, dest)[dimLeft]
  {
    hide Rem, Quot, Prod;
    c, d := cur, dest;
    dimLeft := 0;
    ghost var ks, a, b := Ks(cfg), Index(cfg, cur), Index(cfg, dest);
    assert ks[0..] == ks;
    while dimLeft < cfg.n
      invariant dimLeft <= cfg.n
      invariant ToIndex(c, ks[dimLeft..]) == a[dimLeft..] && ToIndex(d, ks[dimLeft..]) == b[dimLeft..]
      invariant forall j :: 0 <= j < dimLeft ==> a[j] == b[j]
    {
      Digit(cfg, c, dimLeft);
      Digit(cfg, d, dimLeft);
      if Rem(c, cfg.k) != Rem(d, cfg.k) {
        break;
      }
      c, d := Quot(c, cfg.k), Quot(d, cfg.k);
      dimLeft := dimLeft + 1;
    }
    FirstDiffIs(a, b, dimLeft);
  }

  /** The rule for entering a ring at x with y to reach: the direction with fewer steps, a drawn one if both are as
      long.  Plainly, the packets bound for a lower position use half 1.  Balanced, those that must cross the
      wrap-around link use half 1, those that must cross the middle of the ring half 0, the others a drawn half. */
  ghost predicate EntryRule(cfg: Config, x: int, y: int, w: Draw, dir: int, half: int)
    requires 0 < cfg.k
  {
    var steps := (y - x) % cfg.k;
    var middle := (cfg.k - 1) / 2;
    && (dir == 0 || dir == 1)
    && (2 * steps < cfg.k ==> dir == 0) && (2 * steps > cfg.k ==> dir == 1) && (2 * steps == cfg.k ==> (dir == 0 <==> w.tie))
    && (!cfg.balance ==> (half == 0 || half == 1) && (half == 1 <==> y < x))
    && (cfg.balance && dir == 0 ==> half == if y < x then 1 else if x <= middle < y then 0 else w.any)
    && (cfg.balance && dir == 1 ==> half == if x < y then 1 else if y <= middle < x then 0 else w.any)
  }

  /** Direction and half for entering a ring. */
  method EnterRing(cfg: Config, cur: nat, dest: nat, w: Draw) returns (dir: int, partition: int)
    requires cur < cfg.k && dest < cfg.k
    ensures (dir, partition) == Enter(cfg, cur, dest, w.tie, w.any)
    ensures EntryRule(cfg, cur, dest, w, dir, partition)
  {
    WrapMod(dest - cur + cfg.k, cfg.k);
    SameWrap(dest - cur, cfg.k);
    var dist2 := cfg.k - 2 * ((dest - cur + cfg.k) % cfg.k);
    dir := 1;
    if dist2 > 0 || (dist2 == 0 && w.tie) {
      dir := 0;
    }
    if cfg.balance {
      if (dir == 0 && cur > dest) || (dir == 1 && cur < dest) {
        partition := 1;
      } else if (dir == 0 && cur <= (cfg.k - 1) / 2 && dest > (cfg.k - 1) / 2)
                || (dir == 1 && cur > (cfg.k - 1) / 2 && dest <= (cfg.k - 1) / 2) {
        partition := 0;
      } else {
        partition := w.any;
      }
    } else if (dir == 0 && cur > dest) || (dir == 1 && dest < cur) {
      partition := 1;
    } else {
      partition := 0;
    }
  }

  /** The decision away from the destination: a link of the lowest dimension that differs.  A packet that came in on
      that ring goes straight on and keeps its half; any other enters the ring by the rule. */
  ghost predicate StaysOrEnters(cfg: Config, x: seq<int>, y: seq<int>, inPort: int, ph: int, w: Draw, outPort: int, half: int)
    requires 0 < cfg.k && |x| == cfg.n && |y| == cfg.n
  {
    var d := outPort / 2;
    && 0 <= d < cfg.n && x[d] != y[d] && (forall j :: 0 <= j < d ==> x[j] == y[j])
    && (inPort / 2 == d ==> half == ph && outPort == 2 * d + 1 - inPort % 2)
    && (inPort / 2 != d ==> EntryRule(cfg, x[d], y[d], w, outPort % 2, half))
  }

  lemma StaysOrEntersBy(cfg: Config, x: seq<int>, y: seq<int>, inPort: int, ph: int, w: Draw, outPort: int, half: int)
    requires 0 < cfg.k && |x| == cfg.n && |y| == cfg.n && FirstDiff(x, y) < cfg.n
    requires var d := FirstDiff(x, y);
             if inPort / 2 == d then half == ph && outPort == Opposite(inPort)
             else outPort / 2 == d && EntryRule(cfg, x[d], y[d], w, outPort % 2, half)
    ensures StaysOrEnters(cfg, x, y, inPort, ph, w, outPort, half)
  {
    hide EntryRule;
  }

  /** The routing decision computed from the addresses: the packet is handed to its node exactly at its destination. */
  method DorNextTorus(cfg: Config, cur: nat, dest: nat, inPort: int, ph: int, w: Draw) returns (outPort: int, partition: int)
    requires 0 < cfg.k && cur < Prod(Ks(cfg)) && dest < Prod(Ks(cfg))
    ensures IsRouter(cfg, Index(cfg, cur)) && IsRouter(cfg, Index(cfg, dest))
    ensures (outPort, partition) == Next(cfg, Index(cfg, dest), Packet(Index(cfg, cur), inPort, ph), w)
    ensures outPort == 2 * cfg.n <==> cur == dest
    ensures cur != dest ==> StaysOrEnters(cfg, Index(cfg, cur), Index(cfg, dest), inPort, ph, w, outPort, partition)
  {
    hide Rem, Quot, Prod, Enter, EntryRule, StaysOrEnters, FirstDiff;
    ghost var x, y := Index(cfg, cur), Index(cfg, dest);
    hide Index, Ks;
    SameIndex(cfg, cur, dest);
    NoDiff(x, y);
    var dimLeft, c, d := LowestDiff(cfg, cur, dest);
    partition := ph;
    if dimLeft < cfg.n {
      if inPort / 2 != dimLeft {
        var dir, part := EnterRing(cfg, Rem(c, cfg.k), Rem(d, cfg.k), w);
        outPort := 2 * dimLeft + dir;
        partition := part;
        assert outPort / 2 == dimLeft && outPort % 2 == dir;
      } else {
        outPort := Opposite(inPort);
      }
      StaysOrEntersBy(cfg, x, y, inPort, ph, w, outPort, partition);
    } else {
      outPort := 2 * cfg.n;
    }
  }

  /** The routing function: output port, range of virtual channels and the packet's new half. */
  method DimOrderTorus(cfg: Config, b: int, e: int, cur: nat, dest: nat, inPort: int, ph: int, w: Draw)
    returns (outPort: int, vcBegin: int, vcEnd: int, ph1: int)
    requires 0 < cfg.k && cur < Prod(Ks(cfg)) && dest < Prod(Ks(cfg)) && b < e
    ensures IsRouter(cfg, Index(cfg, cur)) && IsRouter(cfg, Index(cfg, dest))
    ensures (outPort, ph1) == Next(cfg, Index(cfg, dest), Packet(Index(cfg, cur), inPort, ph), w)
    ensures outPort == 2 * cfg.n <==> cur == dest
    ensures cur == dest ==> (vcBegin, vcEnd) == (b, e)
    ensures cur != dest ==> StaysOrEnters(cfg, Index(cfg, cur), Index(cfg, dest), inPort, ph, w, outPort, ph1)
    ensures cur != dest ==> IsHalfOf(b, e, ph1, vcBegin, vcEnd)
    ensures cur != dest ==> forall vc :: vcBegin <= vc <= vcEnd <==> InHalf(b, e, ph1, vc)
  {
    hide Next, StaysOrEnters;
    outPort, ph1 := DorNextTorus(cfg, cur, dest, inPort, ph, w);
    vcBegin, vcEnd := b, e;
    if cur != dest {
      var available := (vcEnd - vcBegin + 1) / 2;
      if ph1 == 0 {
        vcEnd := vcEnd - available;
      } else {
        vcBegin := vcBegin + available;
      }
    }
  }
}
