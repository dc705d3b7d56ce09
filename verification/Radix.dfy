/** Router addresses as numbers in a mixed radix: digit d is the router's position in dimension d. */
module Radix {
  import opened Arith

  ghost predicate Radices(ks: seq<nat>) {
    forall d :: 0 <= d < |ks| ==> 0 < ks[d]
  }

  /** The number of addresses. */
  function Prod(ks: seq<nat>): nat {
    if ks == [] then 1 else ks[0] * Prod(ks[1..])
  }

  /** Every position lies within its dimension. */
  ghost predicate IsIndex(ds: seq<int>, ks: seq<nat>) {
    |ds| == |ks| && forall d :: 0 <= d < |ds| ==> 0 <= ds[d] < ks[d]
  }

  /** The positions of address x, lowest dimension first. */
  ghost function ToIndex(x: nat, ks: seq<nat>): (ds: seq<int>)
    requires Radices(ks)
    ensures IsIndex(ds, ks)
    decreases |ks|
  {
    if ks == [] then [] else [Rem(x, ks[0])] + ToIndex(Quot(x, ks[0]), ks[1..])
  }

  ghost function FromIndex(ds: seq<int>, ks: seq<nat>): int
    requires |ds| == |ks|
  {
    if ks == [] then 0 else ds[0] + ks[0] * FromIndex(ds[1..], ks[1..])
  }

  lemma {:induction false} ProdPositive(ks: seq<nat>)
    requires Radices(ks)
    ensures 0 < Prod(ks)
  {
    if ks != [] {
      ProdPositive(ks[1..]);
      MulMono(1, ks[0], Prod(ks[1..]));
    }
  }

  lemma {:induction false} FromIndexInRange(ds: seq<int>, ks: seq<nat>)
    requires Radices(ks) && IsIndex(ds, ks)
    ensures 0 <= FromIndex(ds, ks) < Prod(ks)
  {
    if ks != [] {
      FromIndexInRange(ds[1..], ks[1..]);
      var f, p := FromIndex(ds[1..], ks[1..]), Prod(ks[1..]);
      MulNonneg(f, ks[0]);
      MulMono(f + 1, p, ks[0]);
      assert (f + 1) * ks[0] == f * ks[0] + ks[0];
      assert ks[0] * f == f * ks[0] && ks[0] * p == p * ks[0];
    }
  }

  /** Positions survive the round trip through the address. */
  lemma {:induction false} ToFrom(ds: seq<int>, ks: seq<nat>)
    requires Radices(ks) && IsIndex(ds, ks)
    ensures 0 <= FromIndex(ds, ks) && ToIndex(FromIndex(ds, ks), ks) == ds
  {
    hide Quot, Rem;
    FromIndexInRange(ds, ks);
    if ks != [] {
      FromIndexInRange(ds[1..], ks[1..]);
      ToFrom(ds[1..], ks[1..]);
      var f := FromIndex(ds[1..], ks[1..]);
      assert FromIndex(ds, ks) == f * ks[0] + ds[0];
      QuotRemUnique(FromIndex(ds, ks), ks[0], f, ds[0]);
      assert ds == [ds[0]] + ds[1..];
    }
  }

  /** Addresses survive the round trip through their positions. */
  lemma {:induction false} FromTo(x: nat, ks: seq<nat>)
    requires Radices(ks) && x < Prod(ks)
    ensures FromIndex(ToIndex(x, ks), ks) == x
    decreases |ks|
  {
    hide Quot, Rem;
    if ks != [] {
      var q, p := Quot(x, ks[0]), Prod(ks[1..]);
      QuotRem(x, ks[0]);
      assert ks[0] * p == p * ks[0];
      if q >= p {
        MulMono(p, q, ks[0]);
      }
      FromTo(q, ks[1..]);
      assert ToIndex(x, ks)[1..] == ToIndex(q, ks[1..]);
      assert ks[0] * q == q * ks[0];
    }
  }

  lemma Regroup(k: int, rest: int, diff: int, p: int)
    ensures k * (rest + diff * p) == k * rest + diff * (k * p)
  {
  }

  /** Changing one position moves the address by that many strides. */
  lemma {:induction false} SetPosition(ds: seq<int>, ks: seq<nat>, d: nat, v: int)
    requires |ds| == |ks| && d < |ds|
    ensures FromIndex(ds[d := v], ks) == FromIndex(ds, ks) + (v - ds[d]) * Prod(ks[..d])
  {
    if d == 0 {
      assert ds[d := v][1..] == ds[1..];
      assert ks[..0] == [];
    } else {
      SetPosition(ds[1..], ks[1..], d - 1, v);
      assert ds[d := v][1..] == ds[1..][d - 1 := v];
      assert ks[..d][1..] == ks[1..][..d - 1] && ks[..d][0] == ks[0];
      Regroup(ks[0], FromIndex(ds[1..], ks[1..]), v - ds[d], Prod(ks[1..][..d - 1]));
    }
  }

  lemma DivDiv(x: nat, a: nat, b: nat)
    requires 0 < a && 0 < b
    ensures 0 < a * b && Quot(Quot(x, a), b) == Quot(x, a * b)
  {
    hide Quot, Rem;
    var q, r := Quot(x, a), Rem(x, a);
    var q2, r2 := Quot(q, b), Rem(q, b);
    QuotRem(x, a);
    QuotRem(q, b);
    MulMono(1, a, b);
    assert (q2 * b + r2) * a == q2 * (a * b) + r2 * a;
    MulMono(r2 + 1, b, a);
    assert (r2 + 1) * a == r2 * a + a;
    MulNonneg(r2, a);
    QuotRemUnique(x, a * b, q2, r2 * a + r);
  }

  /** The position in dimension d is found by dividing by the stride of d. */
  lemma {:induction false} PositionByStride(x: nat, ks: seq<nat>, d: nat)
    requires Radices(ks) && d < |ks|
    ensures 0 < Prod(ks[..d]) && ToIndex(x, ks)[d] == Rem(Quot(x, Prod(ks[..d])), ks[d])
    decreases |ks|
  {
    hide Rem, Quot;
    ProdPositive(ks[..d]);
    if d == 0 {
      assert ks[..0] == [];
      assert Quot(x, 1) == x by {
        QuotRemUnique(x, 1, x, 0);
      }
    } else {
      PositionByStride(Quot(x, ks[0]), ks[1..], d - 1);
      assert ks[..d][1..] == ks[1..][..d - 1] && ks[..d][0] == ks[0];
      DivDiv(x, ks[0], Prod(ks[1..][..d - 1]));
    }
  }

  /** A sum of positions with weights, as the code accumulates it. */
  ghost function Weighted(ds: seq<int>, w: seq<int>): int
    requires |ds| <= |w|
  {
    if ds == [] then 0 else Weighted(ds[..|ds| - 1], w) + w[|ds| - 1] * ds[|ds| - 1]
  }

  /** In every dimension that has more than one position the weight is the stride. */
  ghost predicate WeightsAreStrides(ks: seq<nat>, w: seq<int>) {
    |w| == |ks| && forall d :: 0 <= d < |ks| ==> ks[d] == 1 || w[d] == Prod(ks[..d])
  }

  lemma {:induction false} FromIndexSnoc(ds: seq<int>, ks: seq<nat>, n: nat)
    requires |ds| == |ks| && n < |ks|
    ensures FromIndex(ds[..n + 1], ks[..n + 1]) == FromIndex(ds[..n], ks[..n]) + ds[n] * Prod(ks[..n])
    decreases n
  {
    if n == 0 {
      assert ks[..1][1..] == [] && ds[..1][1..] == [] && ks[..0] == [];
    } else {
      FromIndexSnoc(ds[1..], ks[1..], n - 1);
      assert ds[..n + 1][1..] == ds[1..][..n] && ks[..n + 1][1..] == ks[1..][..n];
      assert ds[..n][1..] == ds[1..][..n - 1] && ks[..n][1..] == ks[1..][..n - 1];
      Regroup(ks[0], FromIndex(ds[1..][..n - 1], ks[1..][..n - 1]), ds[n], Prod(ks[1..][..n - 1]));
    }
  }

  lemma EmptyAddress()
    ensures FromIndex([], []) == 0
  {
  }

  lemma SameTerm(w: int, v: int, p: int)
    requires v == 0 || w == p
    ensures w * v == v * p
  {
  }

  lemma {:induction false} StridesSuffice(ds: seq<int>, ks: seq<nat>, w: seq<int>, n: nat)
    requires IsIndex(ds, ks) && WeightsAreStrides(ks, w) && n <= |ks|
    ensures Weighted(ds[..n], w) == FromIndex(ds[..n], ks[..n])
    decreases n
  {
    hide Prod, FromIndex;
    if n == 0 {
      EmptyAddress();
    } else {
      StridesSuffice(ds, ks, w, n - 1);
      FromIndexSnoc(ds, ks, n - 1);
      assert ds[..n][..n - 1] == ds[..n - 1];
      SameTerm(w[n - 1], ds[n - 1], Prod(ks[..n - 1]));
    }
  }

  /** The vector with a single 1. */
  ghost function Unit(n: nat, d: int): seq<int> {
    seq(n, j => if j == d then 1 else 0)
  }

  lemma {:induction false} WeightedUnit(w: seq<int>, d: nat, n: nat)
    requires n <= |w|
    ensures Weighted(Unit(n, d), w) == if d < n then w[d] else 0
  {
    if n > 0 {
      WeightedUnit(w, d, n - 1);
      assert Unit(n, d)[..n - 1] == Unit(n - 1, d);
    }
  }

  lemma {:induction false} ZeroAddress(ks: seq<nat>)
    ensures FromIndex(Unit(|ks|, -1), ks) == 0
  {
    if ks != [] {
      ZeroAddress(ks[1..]);
      assert Unit(|ks|, -1)[1..] == Unit(|ks[1..]|, -1);
    }
  }

  /** The weighted sum is the address of every position vector exactly when the weights are the strides. */
  lemma WeightsExact(ks: seq<nat>, w: seq<int>)
    requires Radices(ks) && |w| == |ks|
    ensures (forall ds :: IsIndex(ds, ks) ==> Weighted(ds, w) == FromIndex(ds, ks)) <==> WeightsAreStrides(ks, w)
  {
    if WeightsAreStrides(ks, w) {
      forall ds | IsIndex(ds, ks)
        ensures Weighted(ds, w) == FromIndex(ds, ks)
      {
        StridesSuffice(ds, ks, w, |ks|);
        assert ds[..|ks|] == ds && ks[..|ks|] == ks;
      }
    } else {
      var d :| 0 <= d < |ks| && ks[d] != 1 && w[d] != Prod(ks[..d]);
      var ds, zero := Unit(|ks|, d), Unit(|ks|, -1);
      assert IsIndex(ds, ks);
      WeightedUnit(w, d, |ks|);
      ZeroAddress(ks);
      SetPosition(zero, ks, d, 1);
      assert zero[d := 1] == ds;
    }
  }
}
