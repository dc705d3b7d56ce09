/** The occupancy limit of the limited, dynamic and shifting sharing policies: how many slots one
virtual channel may hold, given how many virtual channels carry a packet.
*/
module HeldSlotLimits {
  import opened Arith
  import opened Matching

  datatype Kind = Fixed(max: int) | Dynamic | Shifting

  ghost function Pow2(n: nat): nat {
    if n == 0 then 1 else 2 * Pow2(n - 1)
  }

  /** The number of binary digits of i. */
  ghost function Bits(i: nat): nat {
    if i == 0 then 0 else 1 + Bits(i / 2)
  }

  /** The least power of two above i. */
  lemma {:induction false} LeastPowerAbove(i: nat)
    ensures i < Pow2(Bits(i)) && (i > 0 ==> Pow2(Bits(i)) <= 2 * i)
  {
    if i > 1 {
      LeastPowerAbove(i / 2);
    }
  }

  lemma {:induction false} Pow2Positive(n: nat)
    ensures Pow2(n) > 0
  {
    if n > 0 {
      Pow2Positive(n - 1);
    }
  }

  /** The limit with `active` packets under way: an equal share, or a share rounded down to a halving. */
  ghost function Limit(kind: Kind, bufSize: nat, active: nat): int {
    match kind
    case Fixed(max) => if max < 0 then bufSize else max
    case Dynamic => if active == 0 then bufSize else Quot(bufSize, active)
    case Shifting => if active == 0 then bufSize else Pow2Positive(Bits(active - 1)); Quot(bufSize, Pow2(Bits(active - 1)))
  }

  /** In numbers: m is the configured limit, the whole buffer when nothing is under way, or the largest number of slots
      that `active` packets can each hold, counted as the next power of two when shifting. */
  ghost predicate IsShare(kind: Kind, bufSize: nat, active: nat, m: int) {
    match kind
    case Fixed(max) => m == if max < 0 then bufSize else max
    case Dynamic => if active == 0 then m == bufSize else active * m <= bufSize < active * (m + 1)
    case Shifting =>
      if active == 0 then m == bufSize
      else exists n :: active <= Pow2(n) < 2 * active && Pow2(n) * m <= bufSize < Pow2(n) * (m + 1)
  }

  lemma QuotIsShare(a: nat, d: nat)
    requires d > 0
    ensures d * Quot(a, d) <= a < d * (Quot(a, d) + 1)
  {
    hide Quot, Rem;
    QuotRem(a, d);
    assert d * Quot(a, d) == Quot(a, d) * d && d * (Quot(a, d) + 1) == d * Quot(a, d) + d;
  }

  lemma LimitIsShare(kind: Kind, bufSize: nat, active: nat)
    ensures IsShare(kind, bufSize, active, Limit(kind, bufSize, active))
  {
    hide Quot;
    if active > 0 && kind.Dynamic? {
      QuotIsShare(bufSize, active);
    } else if active > 0 && kind.Shifting? {
      var n := Bits(active - 1);
      Pow2Positive(n);
      LeastPowerAbove(active - 1);
      QuotIsShare(bufSize, Pow2(n));
      assert active <= Pow2(n) < 2 * active;
    }
  }

  /** The slots a buffer needs so that `active` packets can each hold one. */
  ghost function Needed(kind: Kind, active: nat): int
    requires !kind.Fixed?
  {
    if active == 0 then 1
    else if kind.Dynamic? then active
    else Pow2(Bits(active - 1))
  }

  lemma QuotPositive(a: nat, d: nat)
    requires d > 0
    ensures Quot(a, d) > 0 <==> a >= d
  {
    hide Quot, Rem;
    QuotRem(a, d);
    assert 0 * d == 0;
    if a < d {
      QuotRemUnique(a, d, 0, a);
    }
  }

  /** The limit is positive exactly when the buffer is large enough. */
  lemma LimitPositive(kind: Kind, bufSize: nat, active: nat)
    requires !kind.Fixed?
    ensures Limit(kind, bufSize, active) > 0 <==> bufSize >= Needed(kind, active)
  {
    if active > 0 {
      Pow2Positive(Bits(active - 1));
      QuotPositive(bufSize, if kind.Dynamic? then active else Pow2(Bits(active - 1)));
    }
  }

  lemma {:induction false} BitsMono(i: nat, j: nat)
    requires i <= j
    ensures Pow2(Bits(i)) <= Pow2(Bits(j))
  {
    if i == 0 {
      Pow2Positive(Bits(j));
    } else {
      BitsMono(i / 2, j / 2);
    }
  }

  lemma NeededMono(kind: Kind, a: nat, b: nat)
    requires a <= b && !kind.Fixed?
    ensures Needed(kind, a) <= Needed(kind, b)
  {
    if b > 0 {
      Pow2Positive(Bits(b - 1));
      if a > 0 {
        BitsMono(a - 1, b - 1);
      }
    }
  }

  /** No run can make the limit zero exactly when the buffer covers all virtual channels at once. */
  lemma AlwaysPositive(kind: Kind, bufSize: nat, vcs: nat)
    requires !kind.Fixed?
    ensures (forall a: nat :: a <= vcs ==> Limit(kind, bufSize, a) > 0) <==> bufSize >= Needed(kind, vcs)
  {
    LimitPositive(kind, bufSize, vcs);
    forall a: nat | a <= vcs
      ensures bufSize >= Needed(kind, vcs) ==> Limit(kind, bufSize, a) > 0
    {
      NeededMono(kind, a, vcs);
      LimitPositive(kind, bufSize, a);
    }
  }

  /** Halving m once for every binary digit of i. */
  lemma {:induction false} HalvingStep(m: nat, n: nat)
    ensures Pow2(n) > 0 && Pow2(n + 1) > 0 && Quot(Quot(m, 2), Pow2(n)) == Quot(m, Pow2(n + 1))
  {
    hide Quot, Rem;
    Pow2Positive(n);
    var p := Pow2(n);
    QuotRem(m, 2);
    QuotRem(Quot(m, 2), p);
    var q := Quot(Quot(m, 2), p);
    var r := 2 * Rem(Quot(m, 2), p) + Rem(m, 2);
    assert m == q * (2 * p) + r by {
      assert q * p * 2 == q * (2 * p);
    }
    QuotRemUnique(m, 2 * p, q, r);
  }

  /** The last packet to end leaves the limit at the whole buffer. */
  lemma LimitOfOne(kind: Kind, bufSize: nat)
    ensures Limit(kind, bufSize, 1) == Limit(kind, bufSize, 0)
  {
    assert bufSize == bufSize * 1;
    QuotRemUnique(bufSize, 1, bufSize, 0);
  }

  class HeldSlots {
    const kind: Kind
    const bufSize: nat
    const vcs: nat
    var active: int
    var maxHeld: int
    ghost var holders: set<int>

    /** The count is the number of virtual channels that carry an unfinished packet. */
    ghost predicate Valid()
      reads this
    {
      && (forall v :: v in holders ==> 0 <= v < vcs)
      && active == |holders| && maxHeld == Limit(kind, bufSize, active)
    }

    /** The buffer covers all virtual channels at once. */
    ghost predicate Ample() {
      kind.Fixed? || bufSize >= Needed(kind, vcs)
    }

    constructor (kind: Kind, bufSize: nat, vcs: nat)
      ensures Valid() && this.kind == kind && this.bufSize == bufSize && this.vcs == vcs && holders == {}
    {
      this.kind, this.bufSize, this.vcs := kind, bufSize, vcs;
      active, holders := 0, {};
      maxHeld := if kind.Fixed? && kind.max >= 0 then kind.max else bufSize;
    }

    /** The shift loop. */
    method Halved(i: nat) returns (m: nat)
      ensures Pow2(Bits(i)) > 0 && m == Quot(bufSize, Pow2(Bits(i)))
    {
      m := bufSize;
      var j := i;
      Pow2Positive(Bits(i));
      while j > 0
        invariant Pow2(Bits(j)) > 0 && Quot(m, Pow2(Bits(j))) == Quot(bufSize, Pow2(Bits(i)))
      {
        HalvingStep(m, Bits(j / 2));
        m := Quot(m, 2);
        j := j / 2;
      }
      assert m == m * 1;
    }

    method SetLimit()
      requires active > 0
      modifies this`maxHeld
      ensures maxHeld == if kind.Fixed? then old(maxHeld) else Limit(kind, bufSize, active)
    {
      match kind
      case Fixed(_) =>
      case Dynamic => maxHeld := Quot(bufSize, active);
      case Shifting => maxHeld := Halved(active - 1);
    }

    /** Never more packets than virtual channels.  Fails, by the assertion on the limit, exactly when the new share is
        empty; in an ample buffer it never does. */
    method TakeBuffer(v: nat) returns (ok: bool)
      requires Valid() && v < vcs && v !in holders
      modifies this
      ensures Valid() && holders == old(holders) + {v} && IsShare(kind, bufSize, |holders|, maxHeld)
      ensures ok <==> kind.Fixed? || Limit(kind, bufSize, |holders|) > 0
      ensures Ample() ==> ok
    {
      active := active + 1;
      holders := holders + {v};
      BelowSize(holders, vcs);
      assert active <= vcs;
      SetLimit();
      LimitIsShare(kind, bufSize, active);
      ok := kind.Fixed? || maxHeld > 0;
      if !kind.Fixed? {
        AlwaysPositive(kind, bufSize, vcs);
      }
    }

    /** A packet's end never makes the share empty.  A tail on a virtual channel that was never taken is counted too, and
        fails when no packet is under way. */
    method SendingFlit(v: nat, tail: bool) returns (ok: bool)
      requires Valid() && v < vcs
      modifies this
      ensures holders == if tail then old(holders) - {v} else old(holders)
      ensures v in old(holders) || !tail ==> Valid() && IsShare(kind, bufSize, |holders|, maxHeld) && (Ample() || kind.Fixed? || old(maxHeld) > 0 ==> ok)
    {
      if tail {
        active := active - 1;
        holders := holders - {v};
        if active < 0 {
          return false;
        }
        if active > 0 {
          SetLimit();
        } else {
          LimitOfOne(kind, bufSize);
        }
      }
      LimitIsShare(kind, bufSize, active);
      ok := kind.Fixed? || maxHeld > 0;
      if !kind.Fixed? {
        BelowSize(holders, vcs);
        AlwaysPositive(kind, bufSize, vcs);
        ghost var before := if tail then active + 1 else active;
        LimitPositive(kind, bufSize, before);
        LimitPositive(kind, bufSize, active);
        NeededMono(kind, active, before);
      }
    }

    /** A run that takes every virtual channel in turn: it gets through exactly when the buffer is ample. */
    method TakeAll() returns (ok: bool)
      requires Valid() && holders == {} && vcs > 0
      modifies this
      ensures ok <==> Ample()
    {
      ok := true;
      var v := 0;
      while v < vcs
        invariant 0 <= v <= vcs && Valid() && |holders| == v && forall x :: x in holders ==> x < v
        invariant v > 0 && !kind.Fixed? ==> Limit(kind, bufSize, v) > 0
      {
        ok := TakeBuffer(v);
        if !ok {
          return;
        }
        v := v + 1;
      }
      if !kind.Fixed? {
        LimitPositive(kind, bufSize, vcs);
      }
    }
  }
}
