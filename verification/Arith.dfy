/** The few facts about products, quotients and remainders that the network arithmetic rests on. */
module Arith {

  function Max(a: int, b: int): int {
    if a >= b then a else b
  }

  function Min(a: int, b: int): int {
    if a <= b then a else b
  }

  function Abs(a: int): nat {
    if a < 0 then -a else a
  }

  /** How far x lies behind the pointer, walking upwards and wrapping at n. */
  function Dist(n: nat, pointer: int, x: int): int {
    if x < pointer then x - pointer + n else x - pointer
  }

  lemma {:induction false} MulNonneg(a: nat, b: nat)
    ensures 0 <= a * b
  {
    if a > 0 {
      MulNonneg(a - 1, b);
      assert a * b == (a - 1) * b + b;
    }
  }

  lemma MulMono(a: int, b: int, n: nat)
    requires a <= b
    ensures a * n <= b * n
  {
    assert (b - a) * n == b * n - a * n;
    MulNonneg(b - a, n);
  }

  lemma MulAssoc(a: int, b: int, c: int)
    ensures a * (b * c) == (a * b) * c
  {
  }

  lemma MulDist(a: int, b: int, c: int)
    ensures (a + b) * c == a * c + b * c
  {
  }

  /** A quotient and a remainder in range are the quotient and the remainder. */
  lemma DivModUnique(a: int, n: int, q: int, r: int)
    requires 0 < n && a == q * n + r && 0 <= r < n
    ensures a / n == q && a % n == r
  {
    var q', r' := a / n, a % n;
    assert a == q' * n + r';
    if q < q' {
      assert (q + 1) * n == q * n + n;
      MulMono(q + 1, q', n);
    } else if q' < q {
      assert (q' + 1) * n == q' * n + n;
      MulMono(q' + 1, q, n);
    }
  }

  /** Reduction of a number that exceeds the modulus at most once. */
  /** Adding n leaves the remainder. */
  lemma SameWrap(a: int, n: nat)
    requires 0 < n
    ensures (a + n) % n == a % n
  {
    DivModUnique(a + n, n, a / n + 1, a % n);
  }

  lemma WrapMod(a: nat, n: nat)
    requires a < 2 * n
    ensures a % n == if a < n then a else a - n
  {
    if a < n {
      DivModUnique(a, n, 0, a);
    } else {
      DivModUnique(a, n, 1, a - n);
    }
  }

  /** Division and remainder of the source's non-negative integers. */
  function Quot(x: nat, k: nat): (q: nat)
    requires 0 < k
  {
    x / k
  }

  function Rem(x: nat, k: nat): (r: nat)
    requires 0 < k
    ensures r < k
  {
    x % k
  }

  lemma QuotRem(x: nat, k: nat)
    requires 0 < k
    ensures x == Quot(x, k) * k + Rem(x, k)
  {
  }

  lemma QuotRemUnique(x: nat, k: nat, q: nat, r: nat)
    requires 0 < k && x == q * k + r && r < k
    ensures Quot(x, k) == q && Rem(x, k) == r
  {
    DivModUnique(x, k, q, r);
  }
}
