/** One grant/accept iteration, as iSLIP and PIM perform it.

Every free output grants to the first free input that requests it, counted from the output's
pointer; every input that received grants accepts the first of them, counted from its own
pointer.  iSLIP keeps the pointers from round to round; PIM draws them at random, so that the
facts here, which hold for all pointers, cover both.
*/
module GrantAccept {
  import opened Arith
  import opened Matching

  /** Output o grants to g. */
  ghost predicate GrantOf(edges: Edges, inm: seq<int>, outm: seq<int>, pointer: int, o: int, g: int)
    requires 0 <= o < |outm| && InRange(edges, |inm|, |outm|)
  {
    if g == NONE then
      outm[o] != NONE || forall i :: (i, o) in edges ==> inm[i] != NONE
    else
      && outm[o] == NONE && (g, o) in edges && inm[g] == NONE
      && forall i :: (i, o) in edges && inm[i] == NONE ==> Dist(|inm|, pointer, g) <= Dist(|inm|, pointer, i)
  }

  /** Input i accepts the grant of a. */
  ghost predicate AcceptOf(edges: Edges, grants: seq<int>, pointer: int, i: int, a: int) {
    if a == NONE then
      forall o :: 0 <= o < |grants| && (i, o) in edges ==> grants[o] != i
    else
      && 0 <= a < |grants| && (i, a) in edges && grants[a] == i
      && forall o :: 0 <= o < |grants| && (i, o) in edges && grants[o] == i ==>
           Dist(|grants|, pointer, a) <= Dist(|grants|, pointer, o)
  }

  ghost predicate Grants(edges: Edges, inm: seq<int>, outm: seq<int>, gp: seq<int>, grants: seq<int>)
    requires InRange(edges, |inm|, |outm|)
  {
    |grants| == |gp| == |outm| &&
    forall o {:trigger grants[o]} :: 0 <= o < |outm| ==> GrantOf(edges, inm, outm, gp[o], o, grants[o])
  }

  ghost predicate Accepts(edges: Edges, grants: seq<int>, ap: seq<int>, acc: seq<int>) {
    |acc| == |ap| && forall i {:trigger acc[i]} :: 0 <= i < |acc| ==> AcceptOf(edges, grants, ap[i], i, acc[i])
  }

  /** The grant of output o was accepted. */
  predicate Taken(grants: seq<int>, acc: seq<int>, o: int) {
    0 <= o < |grants| && 0 <= grants[o] < |acc| && acc[grants[o]] == o
  }

  /** The match vectors once the inputs below |acc| have made their choice: the accepted pairs are added
      and nothing else is changed. */
  ghost predicate Merging(inm: seq<int>, outm: seq<int>, grants: seq<int>, acc: seq<int>, inm1: seq<int>, outm1: seq<int>) {
    && |acc| <= |inm1| == |inm| && |grants| == |outm1| == |outm|
    && (forall i {:trigger inm1[i]} :: 0 <= i < |inm| ==>
          inm1[i] == if i < |acc| && acc[i] != NONE then acc[i] else inm[i])
    && (forall o {:trigger outm1[o]} :: 0 <= o < |outm| ==>
          outm1[o] == if Taken(grants, acc, o) then grants[o] else outm[o])
  }

  ghost predicate Merged(inm: seq<int>, outm: seq<int>, grants: seq<int>, acc: seq<int>, inm1: seq<int>, outm1: seq<int>) {
    |acc| == |inm| && Merging(inm, outm, grants, acc, inm1, outm1)
  }

  /** One whole iteration. */
  ghost predicate Iteration(edges: Edges, inm: seq<int>, outm: seq<int>, gp: seq<int>, ap: seq<int>,
                            grants: seq<int>, acc: seq<int>, inm1: seq<int>, outm1: seq<int>) {
    && InRange(edges, |inm|, |outm|) && Grants(edges, inm, outm, gp, grants)
    && Accepts(edges, grants, ap, acc) && Merged(inm, outm, grants, acc, inm1, outm1)
  }

  /** The result of |gps| iterations one after the other; gps and aps are the pointers each of them used. */
  ghost predicate Iterated(edges: Edges, inm: seq<int>, outm: seq<int>, gps: seq<seq<int>>, aps: seq<seq<int>>,
                           inm1: seq<int>, outm1: seq<int>)
    requires |gps| == |aps|
    decreases |gps|
  {
    if gps == [] then inm1 == inm && outm1 == outm
    else
      var n := |gps| - 1;
      exists m: seq<int>, o: seq<int>, grants: seq<int>, acc: seq<int> ::
        Iterated(edges, inm, outm, gps[..n], aps[..n], m, o) && Iteration(edges, m, o, gps[n], aps[n], grants, acc, inm1, outm1)
  }

  lemma NotIterated(edges: Edges, inm: seq<int>, outm: seq<int>)
    ensures Iterated(edges, inm, outm, [], [], inm, outm)
  {
  }

  lemma OneMore(edges: Edges, inm: seq<int>, outm: seq<int>, gps: seq<seq<int>>, aps: seq<seq<int>>, m: seq<int>, o: seq<int>,
                gp: seq<int>, ap: seq<int>, grants: seq<int>, acc: seq<int>, inm1: seq<int>, outm1: seq<int>)
    requires |gps| == |aps| && Iterated(edges, inm, outm, gps, aps, m, o) && Iteration(edges, m, o, gp, ap, grants, acc, inm1, outm1)
    ensures Iterated(edges, inm, outm, gps + [gp], aps + [ap], inm1, outm1)
  {
    hide Iteration;
    var n, gps1, aps1 := |gps|, gps + [gp], aps + [ap];
    assert gps1[..n] == gps && aps1[..n] == aps && gps1[n] == gp && aps1[n] == ap;
    assert Iterated(edges, inm, outm, gps1[..n], aps1[..n], m, o) && Iteration(edges, m, o, gps1[n], aps1[n], grants, acc, inm1, outm1);
  }

  /** No match is revoked. */
  ghost predicate KeepsMatches(inm: seq<int>, inm1: seq<int>) {
    |inm| == |inm1| && forall i :: 0 <= i < |inm| && inm[i] != NONE ==> inm1[i] == inm[i]
  }

  /** Only free ports are paired. */
  lemma AcceptedWereFree(edges: Edges, inm: seq<int>, outm: seq<int>, gp: seq<int>, ap: seq<int>,
                         grants: seq<int>, acc: seq<int>, inm1: seq<int>, outm1: seq<int>, i: int)
    requires Iteration(edges, inm, outm, gp, ap, grants, acc, inm1, outm1)
    requires 0 <= i < |inm| && acc[i] != NONE
    ensures (i, acc[i]) in edges && inm[i] == NONE && outm[acc[i]] == NONE && Taken(grants, acc, acc[i]) && grants[acc[i]] == i
  {
    assert AcceptOf(edges, grants, ap[i], i, acc[i]);
    assert GrantOf(edges, inm, outm, gp[acc[i]], acc[i], grants[acc[i]]);
  }

  lemma IterationKeepsMatching(edges: Edges, inm: seq<int>, outm: seq<int>, gp: seq<int>, ap: seq<int>,
                               grants: seq<int>, acc: seq<int>, inm1: seq<int>, outm1: seq<int>)
    requires Iteration(edges, inm, outm, gp, ap, grants, acc, inm1, outm1)
    requires IsMatching(edges, inm, outm)
    ensures IsMatching(edges, inm1, outm1) && KeepsMatches(inm, inm1) && KeepsMatches(outm, outm1)
  {
    hide GrantOf, AcceptOf;
    forall i | 0 <= i < |inm| && acc[i] != NONE
      ensures (i, acc[i]) in edges && inm[i] == NONE && outm[acc[i]] == NONE && Taken(grants, acc, acc[i]) && grants[acc[i]] == i
    {
      AcceptedWereFree(edges, inm, outm, gp, ap, grants, acc, inm1, outm1, i);
    }
  }

  lemma SubsetSize(a: set<int>, b: set<int>)
    requires a <= b
    ensures |a| <= |b|
  {
    assert b == a + (b - a);
  }

  /** Unless nothing is left to grant, an iteration adds a match. */
  lemma IterationMakesProgress(edges: Edges, inm: seq<int>, outm: seq<int>, gp: seq<int>, ap: seq<int>,
                               grants: seq<int>, acc: seq<int>, inm1: seq<int>, outm1: seq<int>)
    requires Iteration(edges, inm, outm, gp, ap, grants, acc, inm1, outm1)
    requires IsMatching(edges, inm, outm)
    ensures Maximal(edges, inm, outm) || |MatchedInputs(inm1)| > |MatchedInputs(inm)|
    ensures |MatchedInputs(inm1)| >= |MatchedInputs(inm)|
  {
    IterationKeepsMatching(edges, inm, outm, gp, ap, grants, acc, inm1, outm1);
    SubsetSize(MatchedInputs(inm), MatchedInputs(inm1));
    if !Maximal(edges, inm, outm) {
      var i, o :| (i, o) in edges && 0 <= i < |inm| && 0 <= o < |outm| && inm[i] == NONE && outm[o] == NONE;
      var g := grants[o];
      assert GrantOf(edges, inm, outm, gp[o], o, g);
      assert AcceptOf(edges, grants, ap[g], g, acc[g]);
      assert inm1[g] != NONE;
      assert g in MatchedInputs(inm1) && g !in MatchedInputs(inm);
      SubsetSize(MatchedInputs(inm) + {g}, MatchedInputs(inm1));
    }
  }

  lemma AllBut(s: set<int>, x: int, n: nat)
    requires 0 <= x < n && x !in s && forall y :: y in s ==> 0 <= y < n
    ensures |s| < n
  {
    BelowSize(s + {x}, n);
  }

  /** A matching as large as the smaller side leaves no request with two free ports. */
  lemma FullIsMaximal(edges: Edges, inm: seq<int>, outm: seq<int>)
    requires InRange(edges, |inm|, |outm|) && IsMatching(edges, inm, outm)
    requires |MatchedInputs(inm)| >= |inm| || |MatchedInputs(inm)| >= |outm|
    ensures Maximal(edges, inm, outm)
  {
    if !Maximal(edges, inm, outm) {
      var i, o :| (i, o) in edges && 0 <= i < |inm| && 0 <= o < |outm| && inm[i] == NONE && outm[o] == NONE;
      AllBut(MatchedInputs(inm), i, |inm|);
      PairsCount(inm);
      var others := MatchedInputs(outm);
      AllBut(others, o, |outm|);
      RightBound(Pairs(inm), others);
    }
  }
}
