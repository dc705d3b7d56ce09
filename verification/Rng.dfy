/** Knuth's lagged subtractive generator (section 3.6 of Seminumerical Algorithms, third edition).

ran_array fills a block with the next terms of X(j) = (X(j - 100) - X(j - 37)) mod 2^30 and
leaves the hundred terms after the block as the generator's state.
*/
module Rng {
  import opened Sums

  const KK: nat := 100
  const LL: nat := 37
  const MM: int := 0x4000_0000

  /** r is x - y, reduced to 30 bits. */
  ghost predicate IsDifference(r: int, x: int, y: int) {
    0 <= r < 0x4000_0000 && (r - (x - y)) % 0x4000_0000 == 0
  }

  /** Subtraction modulo 2^30: masking the two's complement difference is the Euclidean remainder. */
  function ModDiff(x: int, y: int): (r: int)
    ensures IsDifference(r, x, y)
  {
    assert ((x - y) % MM - (x - y)) % MM == 0;
    (x - y) % MM
  }

  /** Term j of the recurrence that starts with the hundred numbers of seed. */
  ghost function Term(seed: seq<int>, j: nat): int
    requires |seed| == KK
  {
    if j < KK then seed[j] else ModDiff(Term(seed, j - KK), Term(seed, j - LL))
  }

  /** The sequence in numbers: after the hundred seeds each term is the one 100 before it less the one 37 before it. */
  lemma TermIs(seed: seq<int>, j: nat)
    requires |seed| == 100
    ensures if j < 100 then Term(seed, j) == seed[j] else IsDifference(Term(seed, j), Term(seed, j - 100), Term(seed, j - 37))
  {
  }

  /** The hundred terms from n on: the generator's state after n terms. */
  ghost function StateAfter(seed: seq<int>, n: nat): (s: seq<int>)
    requires |seed| == KK
    ensures |s| == KK
  {
    seq(KK, i requires 0 <= i < KK => Term(seed, n + i))
  }

  /** Restarting from the state after n terms continues the sequence. */
  lemma {:induction false} Restart(seed: seq<int>, n: nat, j: nat)
    requires |seed| == KK
    ensures Term(StateAfter(seed, n), j) == Term(seed, n + j)
    decreases j
  {
    if j >= KK {
      Restart(seed, n, j - KK);
      Restart(seed, n, j - LL);
    }
  }

  /** Producing n terms and then m is producing n + m. */
  lemma StateComposes(seed: seq<int>, n: nat, m: nat)
    requires |seed| == KK
    ensures StateAfter(StateAfter(seed, n), m) == StateAfter(seed, n + m)
  {
    forall i | 0 <= i < KK
      ensures StateAfter(StateAfter(seed, n), m)[i] == StateAfter(seed, n + m)[i]
    {
      Restart(seed, n, m + i);
    }
  }

  /** The state after a sequence of calls with the given block lengths. */
  ghost function StateAfterCalls(seed: seq<int>, ns: seq<nat>): (s: seq<int>)
    requires |seed| == KK
    ensures |s| == KK
    decreases |ns|
  {
    if ns == [] then seed else StateAfter(StateAfterCalls(seed, ns[..|ns| - 1]), ns[|ns| - 1])
  }

  lemma {:induction false} OnlyTheTotalCounts(seed: seq<int>, ns: seq<nat>)
    requires |seed| == KK
    ensures Sum(ns) >= 0 && StateAfterCalls(seed, ns) == StateAfter(seed, Sum(ns))
    decreases |ns|
  {
    if ns == [] {
      assert StateAfter(seed, 0) == seed;
    } else {
      var n := |ns| - 1;
      OnlyTheTotalCounts(seed, ns[..n]);
      StateComposes(seed, Sum(ns[..n]), ns[n]);
    }
  }

  /** Two sequences of calls that produce equally many numbers in all reach the same state. */
  lemma SameTotalSameState(seed: seq<int>, ns: seq<nat>, ms: seq<nat>)
    requires |seed| == KK && Sum(ns) == Sum(ms)
    ensures StateAfterCalls(seed, ns) == StateAfterCalls(seed, ms)
  {
    OnlyTheTotalCounts(seed, ns);
    OnlyTheTotalCounts(seed, ms);
  }

  class Generator {
    var ranX: array<int>

    constructor (seed: array<int>)
      requires seed.Length == KK
      ensures ranX == seed
    {
      ranX := seed;
    }

    /** The first two loops: the state, then the recurrence over the block itself. */
    method FillBlock(aa: array<int>, n: nat)
      requires ranX.Length == KK && aa != ranX && KK <= n <= aa.Length
      modifies aa
      ensures forall j :: 0 <= j < n ==> aa[j] == Term(ranX[..], j)
      ensures forall j :: n <= j < aa.Length ==> aa[j] == old(aa[j])
    {
      ghost var seed := ranX[..];
      var j := 0;
      while j < KK
        invariant 0 <= j <= KK
        invariant forall i :: 0 <= i < j ==> aa[i] == Term(seed, i)
        invariant forall i :: n <= i < aa.Length ==> aa[i] == old(aa[i])
      {
        aa[j] := ranX[j];
        j := j + 1;
      }
      while j < n
        invariant KK <= j <= n
        invariant forall i :: 0 <= i < j ==> aa[i] == Term(seed, i)
        invariant forall i :: n <= i < aa.Length ==> aa[i] == old(aa[i])
      {
        aa[j] := ModDiff(aa[j - KK], aa[j - LL]);
        j := j + 1;
      }
    }

    /** The last two loops: the state is overwritten in place, its own new terms feeding the later ones. */
    method RefillState(aa: array<int>, n: nat, ghost seed: seq<int>)
      requires ranX.Length == KK == |seed| && aa != ranX && KK <= n <= aa.Length
      requires forall j :: 0 <= j < n ==> aa[j] == Term(seed, j)
      modifies ranX
      ensures ranX[..] == StateAfter(seed, n)
    {
      var j := n;
      var i := 0;
      while i < LL
        invariant 0 <= i <= LL && j == n + i
        invariant forall x :: 0 <= x < i ==> ranX[x] == Term(seed, n + x)
      {
        ranX[i] := ModDiff(aa[j - KK], aa[j - LL]);
        i, j := i + 1, j + 1;
      }
      while i < KK
        invariant LL <= i <= KK && j == n + i
        invariant forall x :: 0 <= x < i ==> ranX[x] == Term(seed, n + x)
      {
        ranX[i] := ModDiff(aa[j - KK], ranX[i - LL]);
        i, j := i + 1, j + 1;
      }
    }

    /** Fills aa with the next n terms, in place, and moves the state on by n terms. */
    method RanArray(aa: array<int>, n: nat)
      requires ranX.Length == KK && aa != ranX && KK <= n <= aa.Length
      modifies aa, ranX
      ensures forall j :: 0 <= j < n ==> aa[j] == Term(old(ranX[..]), j)
      ensures forall j :: n <= j < aa.Length ==> aa[j] == old(aa[j])
      ensures ranX[..] == StateAfter(old(ranX[..]), n)
    {
      ghost var seed := ranX[..];
      FillBlock(aa, n);
      RefillState(aa, n, seed);
    }
  }

  const QUALITY: nat := 1009

  /** The number handed out as number c: the first hundred of every block of 1009 terms. */
  ghost function Handed(seed: seq<int>, c: nat): int
    requires |seed| == KK
  {
    Term(seed, QUALITY * (c / KK) + c % KK)
  }

  /** The state holds remainders, so none of its terms is the end marker -1. */
  ghost predicate Reduced(seed: seq<int>) {
    |seed| == KK && forall i :: 0 <= i < KK ==> 0 <= seed[i]
  }

  lemma TermNonneg(seed: seq<int>, j: nat)
    requires Reduced(seed)
    ensures 0 <= Term(seed, j)
  {
  }

  lemma Numbered(seed: seq<int>, b: int, n: nat)
    requires |seed| == KK && -1 <= b && n <= KK && (b == -1 ==> n == KK)
    ensures 0 <= KK * b + n
    ensures n < KK ==> Handed(seed, KK * b + n) == Term(seed, QUALITY * b + n)
    ensures n == KK ==> Handed(seed, KK * b + n) == Term(seed, QUALITY * (b + 1))
  {
    hide Term;
  }

  /** Numbers handed out one at a time: position `next` of the buffer, refilled when it shows the end marker. */
  class Stream {
    const gen: Generator
    const buf: array<int>
    var next: nat
    ghost var seed: seq<int>
    ghost var block: int

    /** How many numbers have been handed out. */
    ghost function Count(): int
      reads this
    {
      KK * block + next
    }

    /** The buffer holds block number `block` of the sequence that starts at seed (-1: none yet), cut off
        after a hundred terms, and the state is the one behind that block. */
    ghost predicate Valid()
      reads this, gen, gen.ranX, buf
    {
      && gen.ranX.Length == KK && buf.Length == QUALITY && buf != gen.ranX && Reduced(seed)
      && -1 <= block && next <= KK && (block == -1 ==> next == KK) && buf[KK] == -1
      && gen.ranX[..] == StateAfter(seed, QUALITY * (block + 1))
      && (0 <= block ==> forall i :: 0 <= i < KK ==> buf[i] == Term(seed, QUALITY * block + i))
    }

    constructor (start: array<int>)
      requires start.Length == KK && Reduced(start[..])
      ensures Valid() && Count() == 0 && seed == start[..] && gen.ranX == start && fresh(buf)
    {
      gen := new Generator(start);
      buf := new int[QUALITY](_ => -1);
      next := KK;
      seed := start[..];
      block := -1;
      assert StateAfter(start[..], 0) == start[..];
    }

    /** The next number is the next one of the fixed sequence, for every number of calls so far. */
    method Next() returns (r: int)
      requires Valid()
      modifies this`next, this`block, buf, gen.ranX
      ensures Valid() && seed == old(seed) && Count() == old(Count()) + 1
      ensures 0 <= old(Count()) && r == Handed(seed, old(Count()))
      ensures r == Term(seed, 1009 * (old(Count()) / 100) + old(Count()) % 100)
    {
      hide Term, StateAfter;
      ghost var b, n := block, next;
      if buf[next] >= 0 {
        r := buf[next];
        next := next + 1;
      } else {
        assert next == KK by {
          if next < KK {
            TermNonneg(seed, QUALITY * b + n);
          }
        }
        gen.RanArray(buf, QUALITY);
        forall i | 0 <= i < KK
          ensures buf[i] == Term(seed, QUALITY * (b + 1) + i)
        {
          Restart(seed, QUALITY * (b + 1), i);
        }
        StateComposes(seed, QUALITY * (b + 1), QUALITY);
        buf[KK] := -1;
        next := 1;
        block := block + 1;
        r := buf[0];
      }
      Numbered(seed, b, n);
    }
  }
}
