/** Cyclic waits of ROMM.

A packet travels twice in dimension order, to its intermediate router and from there to its
destination, and the two phases use different halves of the virtual channels.  Where the halves share
a channel a packet can turn from a higher dimension into a lower one on it.
*/
module Romm {
  import opened Mesh
  import opened WaitCycles
  import T = Torus

  /** Where a prepared packet is heading. */
  ghost function Target(dest: seq<int>, p: Packet): seq<int> {
    if p.ph == 0 then p.intm else dest
  }

  /** A packet in state p, still on its way, may request channel c; b and e bound the channels of its class. */
  ghost predicate Requests(cfg: T.Config, b: int, e: int, dest: seq<int>, p: Packet, drawn: seq<int>, c: T.Channel)
    requires PacketOk(cfg, dest, p) && T.IsRouter(cfg, drawn)
  {
    var q := Prepared(cfg, p, drawn);
    p.cur != dest && c.router == p.cur && c.out == Next(cfg, q.cur, Target(dest, q), false) && T.InHalf(b, e, q.ph, c.vc)
  }

  ghost predicate WaitsOnRun(cfg: T.Config, b: int, e: int, src: seq<int>, dest: seq<int>, drawn: seq<int>, i: nat,
                             c: T.Channel, c1: T.Channel) {
    && T.IsRouter(cfg, src) && T.IsRouter(cfg, dest) && T.IsRouter(cfg, drawn) && InQuadrant(src, dest, drawn)
    && Requests(cfg, b, e, dest, RommAt(cfg, src, dest, drawn, i), drawn, c)
    && Requests(cfg, b, e, dest, RommAt(cfg, src, dest, drawn, i + 1), drawn, c1)
  }

  /** Some packet, on some run, holds c while it requests c1. */
  ghost predicate Waits(cfg: T.Config, b: int, e: int, c: T.Channel, c1: T.Channel) {
    exists src, dest, drawn, i: nat :: WaitsOnRun(cfg, b, e, src, dest, drawn, i, c, c1)
  }

  ghost function Waiting(cfg: T.Config, b: int, e: int): (T.Channel, T.Channel) -> bool {
    (c, c1) => Waits(cfg, b, e, c, c1)
  }

  ghost predicate CyclicWait(cfg: T.Config, b: int, e: int) {
    Cyclic(Waiting(cfg, b, e))
  }

  // ---- consecutive hops ----

  /** A later hop of the same trip: in a higher dimension, or one step further in the same direction. */
  ghost predicate Further(cfg: T.Config, cur: seq<int>, out: int, cur1: seq<int>, out1: int) {
    && T.IsRouter(cfg, cur) && T.IsRouter(cfg, cur1) && 0 <= out < 2 * cfg.n && 0 <= out1 < 2 * cfg.n
    && (out / 2 < out1 / 2 ||
        (out == out1 && T.Along(cfg.k, out % 2, cur[out / 2]) < T.Along(cfg.k, out % 2, cur1[out / 2])))
  }

  lemma SameTrip(cfg: T.Config, cur: seq<int>, t: seq<int>)
    requires T.IsRouter(cfg, cur) && T.IsRouter(cfg, t) && cur != t && Hop(cfg, cur, t, false) != t
    ensures var cur1 := Hop(cfg, cur, t, false);
      Further(cfg, cur, Next(cfg, cur, t, false), cur1, Next(cfg, cur1, t, false))
  {
    HopCounts(cfg, cur, t, false);
    var cur1 := Hop(cfg, cur, t, false);
    HopCounts(cfg, cur1, t, false);
    assert T.FirstDiff(cur1, t) >= T.FirstDiff(cur, t);
  }

  /** On a line the second trip continues in the direction of the first. */
  lemma StraightOn(cfg: T.Config, cur: seq<int>, intm: seq<int>, dest: seq<int>)
    requires T.IsRouter(cfg, cur) && T.IsRouter(cfg, intm) && T.IsRouter(cfg, dest) && cfg.n == 1
    requires InQuadrant(cur, dest, intm) && cur != intm && intm != dest && Hop(cfg, cur, intm, false) == intm
    ensures Further(cfg, cur, Next(cfg, cur, intm, false), intm, Next(cfg, intm, dest, false))
  {
    HopCounts(cfg, cur, intm, false);
    HopCounts(cfg, intm, dest, false);
  }

  /** Two requests of one packet in a row: the second is in a later phase, or further on the same trip. */
  lemma NextRequest(cfg: T.Config, dest: seq<int>, p: Packet, drawn: seq<int>)
    requires PacketOk(cfg, dest, p) && T.IsRouter(cfg, drawn) && (p.inPort == 2 * cfg.n ==> InQuadrant(p.cur, dest, drawn))
    requires p.cur != dest && RommHop(cfg, dest, p, drawn).cur != dest
    ensures var p1 := RommHop(cfg, dest, p, drawn);
            var q, q1 := Prepared(cfg, p, drawn), Prepared(cfg, p1, drawn);
      && PacketOk(cfg, dest, q) && PacketOk(cfg, dest, q1) && q.cur == p.cur && q1.cur == p1.cur
      && q.ph <= q1.ph
      && (q.ph == q1.ph || cfg.n == 1 ==>
            Further(cfg, q.cur, Next(cfg, q.cur, Target(dest, q), false), q1.cur, Next(cfg, q1.cur, Target(dest, q1), false)))
  {
    hide Further, Hop, Next, InQuadrant;
    PreparedKeeps(cfg, dest, p, drawn);
    RommHopCounts(cfg, dest, p, drawn);
    var p1 := RommHop(cfg, dest, p, drawn);
    var q, q1 := Prepared(cfg, p, drawn), Prepared(cfg, p1, drawn);
    PreparedKeeps(cfg, dest, p1, drawn);
    if q.ph == q1.ph {
      SameTrip(cfg, q.cur, Target(dest, q));
    } else if cfg.n == 1 {
      StraightOn(cfg, q.cur, q.intm, dest);
    }
  }

  // ---- no cycle ----

  /** The halves share no channel, or there is only one dimension to travel in, or nowhere to go. */
  ghost predicate Apart(cfg: T.Config, b: int, e: int) {
    (e - b + 1) % 2 == 0 || cfg.n < 2 || cfg.k < 2
  }

  ghost predicate Below(cfg: T.Config, b: int, e: int, c: T.Channel, c1: T.Channel) {
    || ((e - b + 1) % 2 == 0 && T.HalfOf(b, e, c.vc) < T.HalfOf(b, e, c1.vc))
    || (((e - b + 1) % 2 == 0 ==> T.HalfOf(b, e, c.vc) == T.HalfOf(b, e, c1.vc)) && Further(cfg, c.router, c.out, c1.router, c1.out))
  }

  lemma OneRouter(cfg: T.Config, a: seq<int>, b: seq<int>)
    requires T.IsRouter(cfg, a) && T.IsRouter(cfg, b) && (cfg.n == 0 || cfg.k < 2)
    ensures a == b
  {
  }

  lemma WaitingClimbs(cfg: T.Config, b: int, e: int, c: T.Channel, c1: T.Channel)
    requires b < e && Apart(cfg, b, e) && Waits(cfg, b, e, c, c1)
    ensures Below(cfg, b, e, c, c1)
  {
    hide Further, InQuadrant, RommHop, Next, T.InHalf, T.HalfOf, Prepared;
    var src, dest, drawn, i: nat :| WaitsOnRun(cfg, b, e, src, dest, drawn, i, c, c1);
    var p, p1 := RommAt(cfg, src, dest, drawn, i), RommAt(cfg, src, dest, drawn, i + 1);
    assert p1 == RommHop(cfg, dest, p, drawn);
    NextRequest(cfg, dest, p, drawn);
    if cfg.n == 0 || cfg.k < 2 {
      OneRouter(cfg, p.cur, dest);
    }
    if (e - b + 1) % 2 == 0 {
      T.HalfIsDetermined(b, e, Prepared(cfg, p, drawn).ph, c.vc);
      T.HalfIsDetermined(b, e, Prepared(cfg, p1, drawn).ph, c1.vc);
    }
  }

  // ---- a cycle ----

  /** The corner (x, y) of the first square. */
  ghost function Corner(cfg: T.Config, x: int, y: int): seq<int> {
    seq(cfg.n, d => if d == 0 then x else if d == 1 then y else 0)
  }

  /** A packet turns from dimension 0 into dimension 1 in its second phase. */
  lemma TurnsUp(cfg: T.Config, b: int, e: int, x: int, y: int, vc: int)
    requires cfg.n >= 2 && cfg.k >= 2 && 0 <= x <= 1 && 0 <= y <= 1 && T.InHalf(b, e, 0, vc) && T.InHalf(b, e, 1, vc)
    ensures Waits(cfg, b, e, T.Channel(Corner(cfg, x, y), x, vc), T.Channel(Corner(cfg, 1 - x, y), 2 + y, vc))
  {
    hide T.InHalf;
    var src, mid, dest := Corner(cfg, x, y), Corner(cfg, 1 - x, y), Corner(cfg, 1 - x, 1 - y);
    T.FirstDiffIs(src, dest, 0);
    T.FirstDiffIs(mid, dest, 1);
    assert Next(cfg, src, dest, false) == x && Hop(cfg, src, dest, false) == mid && Next(cfg, mid, dest, false) == 2 + y;
    assert InQuadrant(src, dest, src);
    var p := RommAt(cfg, src, dest, src, 0);
    assert Prepared(cfg, p, src) == Packet(src, 2 * cfg.n, 1, src);
    assert RommAt(cfg, src, dest, src, 1) == RommHop(cfg, dest, p, src);
    assert WaitsOnRun(cfg, b, e, src, dest, src, 0, T.Channel(src, x, vc), T.Channel(mid, 2 + y, vc));
  }

  /** A packet turns from dimension 1 into dimension 0 at its intermediate router. */
  lemma TurnsBack(cfg: T.Config, b: int, e: int, x: int, y: int, vc: int)
    requires cfg.n >= 2 && cfg.k >= 2 && 0 <= x <= 1 && 0 <= y <= 1 && T.InHalf(b, e, 0, vc) && T.InHalf(b, e, 1, vc)
    ensures Waits(cfg, b, e, T.Channel(Corner(cfg, x, y), 2 + y, vc), T.Channel(Corner(cfg, x, 1 - y), x, vc))
  {
    hide T.InHalf;
    var src, mid, dest := Corner(cfg, x, y), Corner(cfg, x, 1 - y), Corner(cfg, 1 - x, 1 - y);
    T.FirstDiffIs(src, mid, 1);
    T.FirstDiffIs(mid, dest, 0);
    assert Next(cfg, src, mid, false) == 2 + y && Hop(cfg, src, mid, false) == mid && Next(cfg, mid, dest, false) == x;
    assert InQuadrant(src, dest, mid);
    var p := RommAt(cfg, src, dest, mid, 0);
    assert Prepared(cfg, p, mid) == Packet(src, 2 * cfg.n, 0, mid);
    assert RommAt(cfg, src, dest, mid, 1) == RommHop(cfg, dest, p, mid);
    assert WaitsOnRun(cfg, b, e, src, dest, mid, 0, T.Channel(src, 2 + y, vc), T.Channel(mid, x, vc));
  }

  /** With an odd number of channels four packets around a square wait for each other on the shared one. */
  lemma OddSharesChannel(cfg: T.Config, b: int, e: int)
    requires b < e && (e - b + 1) % 2 == 1 && cfg.n >= 2 && cfg.k >= 2
    ensures CyclicWait(cfg, b, e)
  {
    hide Waits, T.InHalf, Cyclic;
    var vc := b + (e - b + 1) / 2;
    T.MiddleShared(b, e);
    TurnsUp(cfg, b, e, 0, 0, vc);
    TurnsBack(cfg, b, e, 1, 0, vc);
    TurnsUp(cfg, b, e, 1, 1, vc);
    TurnsBack(cfg, b, e, 0, 1, vc);
    var chain := [T.Channel(Corner(cfg, 0, 0), 0, vc), T.Channel(Corner(cfg, 1, 0), 2, vc),
                  T.Channel(Corner(cfg, 1, 1), 1, vc), T.Channel(Corner(cfg, 0, 1), 3, vc), T.Channel(Corner(cfg, 0, 0), 0, vc)];
    CycleFound(Waiting(cfg, b, e), chain);
  }

  /** ROMM is free of cyclic waits, for every random draw, exactly when the class has an even number of channels or the
      mesh has a single dimension or a single router. */
  lemma DeadlockFree(cfg: T.Config, b: int, e: int)
    requires b < e
    ensures !CyclicWait(cfg, b, e) <==> Apart(cfg, b, e)
  {
    hide Waits, T.HalfOf;
    if Apart(cfg, b, e) {
      forall c, c1 | Waits(cfg, b, e, c, c1)
        ensures Below(cfg, b, e, c, c1)
      {
        WaitingClimbs(cfg, b, e, c, c1);
      }
      ClimbingIsAcyclic(Waiting(cfg, b, e), (c, c1) => Below(cfg, b, e, c, c1));
    } else {
      OddSharesChannel(cfg, b, e);
    }
  }
}
