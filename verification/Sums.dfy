/** Sums over sequences of counters, whole and by group. */
module Sums {
  ghost function Sum(s: seq<int>): int {
    if s == [] then 0 else Sum(s[..|s| - 1]) + s[|s| - 1]
  }

  lemma {:induction false} SumUpdate(s: seq<int>, i: nat, x: int)
    requires i < |s|
    ensures Sum(s[i := x]) == Sum(s) - s[i] + x
  {
    var n := |s| - 1;
    if i == n {
      assert s[i := x][..n] == s[..n];
    } else {
      assert s[i := x][..n] == s[..n][i := x];
      SumUpdate(s[..n], i, x);
    }
  }

  lemma {:induction false} SumMono(s: seq<int>, t: seq<int>)
    requires |s| == |t| && forall i :: 0 <= i < |s| ==> s[i] <= t[i]
    ensures Sum(s) <= Sum(t)
  {
    if s != [] {
      SumMono(s[..|s| - 1], t[..|t| - 1]);
    }
  }

  lemma {:induction false} SumOfSame(s: seq<int>, x: int)
    requires forall i :: 0 <= i < |s| ==> s[i] == x
    ensures Sum(s) == |s| * x
  {
    if s != [] {
      SumOfSame(s[..|s| - 1], x);
      assert |s| * x == (|s| - 1) * x + x;
    }
  }

  lemma {:induction false} SumAdd(s: seq<int>, t: seq<int>, u: seq<int>)
    requires |s| == |t| == |u| && forall i :: 0 <= i < |s| ==> u[i] == s[i] + t[i]
    ensures Sum(u) == Sum(s) + Sum(t)
  {
    if s != [] {
      var n := |s| - 1;
      SumAdd(s[..n], t[..n], u[..n]);
    }
  }

  lemma {:induction false} SumAtLeast(s: seq<int>, i: nat)
    requires i < |s| && forall j :: 0 <= j < |s| ==> s[j] >= 0
    ensures s[i] <= Sum(s)
  {
    var n := |s| - 1;
    if i < n {
      SumAtLeast(s[..n], i);
    } else {
      SumMono(seq(n, _ => 0), s[..n]);
      SumOfSame(seq(n, _ => 0), 0);
    }
  }

  /** The sum of the entries that belong to group g. */
  ghost function GroupSum(group: seq<nat>, s: seq<int>, g: nat): int
    requires |group| == |s|
    decreases |s|
  {
    if s == [] then 0
    else var n := |s| - 1; GroupSum(group[..n], s[..n], g) + if group[n] == g then s[n] else 0
  }

  lemma {:induction false} GroupSumUpdate(group: seq<nat>, s: seq<int>, i: nat, x: int, g: nat)
    requires |group| == |s| && i < |s|
    ensures GroupSum(group, s[i := x], g) == GroupSum(group, s, g) + if group[i] == g then x - s[i] else 0
    decreases |s|
  {
    var n := |s| - 1;
    if i == n {
      assert s[i := x][..n] == s[..n];
    } else {
      assert s[i := x][..n] == s[..n][i := x];
      GroupSumUpdate(group[..n], s[..n], i, x, g);
    }
  }

  lemma {:induction false} GroupSumNonneg(group: seq<nat>, s: seq<int>, g: nat)
    requires |group| == |s| && forall j :: 0 <= j < |s| ==> s[j] >= 0
    ensures GroupSum(group, s, g) >= 0
    decreases |s|
  {
    if s != [] {
      GroupSumNonneg(group[..|s| - 1], s[..|s| - 1], g);
    }
  }

  /** A member's entry is no more than its group's sum. */
  lemma {:induction false} GroupSumAtLeast(group: seq<nat>, s: seq<int>, i: nat)
    requires |group| == |s| && i < |s| && forall j :: 0 <= j < |s| ==> s[j] >= 0
    ensures s[i] <= GroupSum(group, s, group[i])
    decreases |s|
  {
    var n := |s| - 1;
    if i < n {
      GroupSumAtLeast(group[..n], s[..n], i);
    } else {
      GroupSumNonneg(group[..n], s[..n], group[i]);
    }
  }

  lemma {:induction false} GroupOfZeros(group: seq<nat>, s: seq<int>, g: nat)
    requires |group| == |s| && forall v :: 0 <= v < |s| ==> s[v] == 0
    ensures GroupSum(group, s, g) == 0
    decreases |s|
  {
    if s != [] {
      GroupOfZeros(group[..|s| - 1], s[..|s| - 1], g);
    }
  }

  /** Every entry belongs to one group, so the group sums add up to the whole. */
  lemma {:induction false} GroupSumsAddUp(group: seq<nat>, s: seq<int>, sums: seq<int>)
    requires |group| == |s| && forall i :: 0 <= i < |s| ==> group[i] < |sums|
    requires forall g :: 0 <= g < |sums| ==> sums[g] == GroupSum(group, s, g)
    ensures Sum(sums) == Sum(s)
    decreases |s|
  {
    if s == [] {
      SumOfSame(sums, 0);
    } else {
      var n := |s| - 1;
      var before := sums[group[n] := sums[group[n]] - s[n]];
      GroupSumsAddUp(group[..n], s[..n], before);
      SumUpdate(sums, group[n], sums[group[n]] - s[n]);
    }
  }
}
