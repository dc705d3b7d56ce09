/** Matchings between the inputs and outputs of an allocator.

An allocator keeps two vectors: `inmatch[i]` is the output granted to input `i`, and
`outmatch[j]` the input granted to output `j`; -1 stands for "unmatched".  This module says
what it means for the two to describe one matching of a request relation, and what makes a
matching maximal or maximum.
*/
module Matching {

  /** The index of a port that has no partner. */
  const NONE: int := -1

  type Edges = set<(int, int)>

  /** One cell of a dense request matrix (or one entry of a sparse one); tag -1 is "no request". */
  datatype Request = Request(tag: int, inPri: int, outPri: int)

  /** The two match vectors are mutually inverse partial functions. */
  ghost predicate Inverse(inm: seq<int>, outm: seq<int>) {
    && (forall i {:trigger inm[i]} :: 0 <= i < |inm| && inm[i] != NONE ==>
          0 <= inm[i] < |outm| && outm[inm[i]] == i)
    && (forall j {:trigger outm[j]} :: 0 <= j < |outm| && outm[j] != NONE ==>
          0 <= outm[j] < |inm| && inm[outm[j]] == j)
  }

  /** The pairs granted by a match vector. */
  ghost function Pairs(inm: seq<int>): Edges {
    set i | 0 <= i < |inm| && inm[i] != NONE :: (i, inm[i])
  }

  /** The match vectors describe one matching, and it grants only requests. */
  ghost predicate IsMatching(edges: Edges, inm: seq<int>, outm: seq<int>) {
    && Inverse(inm, outm)
    && (forall i :: 0 <= i < |inm| && inm[i] != NONE ==> (i, inm[i]) in edges)
  }

  /** A set of pairs in which no port occurs twice. */
  ghost predicate PortDisjoint(m: Edges) {
    forall p, q :: p in m && q in m && (p.0 == q.0 || p.1 == q.1) ==> p == q
  }

  /** No matching of the requests is larger. */
  ghost predicate Maximum(edges: Edges, inm: seq<int>) {
    forall m :: m <= edges && PortDisjoint(m) ==> |m| <= |Pairs(inm)|
  }

  /** No further request could be granted without taking a port away from another one. */
  ghost predicate Maximal(edges: Edges, inm: seq<int>, outm: seq<int>) {
    forall i, j :: (i, j) in edges && 0 <= i < |inm| && 0 <= j < |outm| ==>
      inm[i] != NONE || outm[j] != NONE
  }

  /** Requests name existing ports only. */
  ghost predicate InRange(edges: Edges, inputs: nat, outputs: nat) {
    forall e :: e in edges ==> 0 <= e.0 < inputs && 0 <= e.1 < outputs
  }

  /** A set of inputs and a set of outputs that together touch every request. */
  ghost predicate IsCover(edges: Edges, left: set<int>, right: set<int>) {
    forall e :: e in edges ==> e.0 in left || e.1 in right
  }

  lemma {:induction false} LeftBound(m: Edges, left: set<int>)
    requires PortDisjoint(m)
    requires forall e :: e in m ==> e.0 in left
    ensures |m| <= |left|
    decreases |m|
  {
    if m != {} {
      var e :| e in m;
      LeftBound(m - {e}, left - {e.0});
    }
  }

  lemma {:induction false} RightBound(m: Edges, right: set<int>)
    requires PortDisjoint(m)
    requires forall e :: e in m ==> e.1 in right
    ensures |m| <= |right|
    decreases |m|
  {
    if m != {} {
      var e :| e in m;
      RightBound(m - {e}, right - {e.1});
    }
  }

  /** Weak duality: no matching is larger than a vertex cover. */
  lemma CoverBound(edges: Edges, m: Edges, left: set<int>, right: set<int>)
    requires m <= edges && PortDisjoint(m) && IsCover(edges, left, right)
    ensures |m| <= |left| + |right|
  {
    var a := set e | e in m && e.0 in left;
    var b := m - a;
    LeftBound(a, left);
    RightBound(b, right);
    assert m == a + b;
  }

  /** A matching whose size equals that of some vertex cover is maximum. */
  lemma CoverCertifies(edges: Edges, inm: seq<int>, left: set<int>, right: set<int>)
    requires IsCover(edges, left, right)
    requires |Pairs(inm)| == |left| + |right|
    ensures Maximum(edges, inm)
  {
    forall m | m <= edges && PortDisjoint(m)
      ensures |m| <= |Pairs(inm)|
    {
      CoverBound(edges, m, left, right);
    }
  }

  /** The inputs that hold a grant. */
  ghost function MatchedInputs(inm: seq<int>): set<int> {
    set i | 0 <= i < |inm| && inm[i] != NONE
  }

  lemma {:induction false} PairsCount(inm: seq<int>)
    ensures |Pairs(inm)| == |MatchedInputs(inm)|
  {
    if inm == [] {
      assert Pairs(inm) == {} && MatchedInputs(inm) == {};
    } else {
      var n := |inm| - 1;
      var prev := inm[..n];
      PairsCount(prev);
      if inm[n] == NONE {
        assert Pairs(inm) == Pairs(prev) && MatchedInputs(inm) == MatchedInputs(prev);
      } else {
        assert Pairs(inm) == Pairs(prev) + {(n, inm[n])};
        assert MatchedInputs(inm) == MatchedInputs(prev) + {n};
      }
    }
  }

  lemma Pick<T>(s: set<T>) returns (x: T)
    requires s != {}
    ensures x in s
  {
    x :| x in s;
  }

  lemma {:induction false} DistinctSize(s: seq<int>)
    requires forall k, l :: 0 <= k < l < |s| ==> s[k] != s[l]
    ensures |set k | 0 <= k < |s| :: s[k]| == |s|
  {
    if s != [] {
      var n := |s| - 1;
      var prev := s[..n];
      DistinctSize(prev);
      assert (set k | 0 <= k < |s| :: s[k]) == (set k | 0 <= k < |prev| :: prev[k]) + {s[n]};
    }
  }

  lemma {:induction false} BelowSize(vals: set<int>, n: nat)
    requires forall v :: v in vals ==> 0 <= v < n
    ensures |vals| <= n
  {
    if n == 0 {
      assert forall v :: v !in vals;
    } else {
      BelowSize(vals - {n - 1}, n - 1);
    }
  }

  /** Distinct numbers below n: there are at most n of them. */
  lemma {:induction false} Pigeonhole(s: seq<int>, n: nat)
    requires forall k :: 0 <= k < |s| ==> 0 <= s[k] < n
    requires forall k, l :: 0 <= k < l < |s| ==> s[k] != s[l]
    ensures |s| <= n
  {
    var vals := set k | 0 <= k < |s| :: s[k];
    DistinctSize(s);
    BelowSize(vals, n);
  }
}
