/** The iSLIP allocator: grant/accept iterations with rotating pointers.

Pointers move only past pairs accepted in the first iteration of a round.  That is what makes
the allocator starvation free: a request waits less than inputs * inputs * outputs rounds if
it and the other unserved requests for its output are posted again.
*/
module ISlips {
  import opened Arith
  import opened Matching
  import opened SparseAllocators
  import opened GrantAccept

  ghost predicate Pointers(n: nat, ptrs: seq<int>) {
    forall k :: 0 <= k < |ptrs| ==> 0 <= ptrs[k] < n
  }

  /** The grant pointers after the first iteration of a round. */
  ghost function RotateGrants(inputs: nat, gp: seq<int>, grants: seq<int>, acc: seq<int>): seq<int>
    requires 0 < inputs && |grants| == |gp|
  {
    seq(|gp|, o requires 0 <= o < |gp| => if Taken(grants, acc, o) then (grants[o] + 1) % inputs else gp[o])
  }

  /** The accept pointers after the first iteration of a round. */
  ghost function RotateAccepts(outputs: nat, ap: seq<int>, acc: seq<int>): seq<int>
    requires 0 < outputs && |acc| <= |ap|
  {
    seq(|ap|, i requires 0 <= i < |ap| =>
      if i < |acc| && acc[i] != NONE then (acc[i] + 1) % outputs else ap[i])
  }

  /** What one round did: its requests, the pointers it started from, the grants and acceptances of
      its first iteration, and the input matches at its end. */
  datatype Round = Round(edges: Edges, gp: seq<int>, ap: seq<int>, grants: seq<int>, acc: seq<int>, inm: seq<int>)

  ghost function Empty(n: nat): seq<int> {
    seq(n, _ => NONE)
  }

  /** r is a round of an allocator of this size that started with no port matched. */
  ghost predicate IsRound(inputs: nat, outputs: nat, r: Round) {
    && |r.gp| == outputs && |r.ap| == |r.inm| == |r.acc| == inputs
    && Pointers(inputs, r.gp) && Pointers(outputs, r.ap)
    && InRange(r.edges, inputs, outputs)
    && Grants(r.edges, Empty(inputs), Empty(outputs), r.gp, r.grants)
    && Accepts(r.edges, r.grants, r.ap, r.acc)
    && forall i :: 0 <= i < inputs && r.acc[i] != NONE ==> r.inm[i] == r.acc[i]
  }

  /** r1 starts from the pointers r left behind. */
  ghost predicate Succeeds(inputs: nat, outputs: nat, r: Round, r1: Round) {
    && 0 < inputs && 0 < outputs && IsRound(inputs, outputs, r) && IsRound(inputs, outputs, r1)
    && r1.gp == RotateGrants(inputs, r.gp, r.grants, r.acc)
    && r1.ap == RotateAccepts(outputs, r.ap, r.acc)
  }

  /** Moreover every unserved request for output o is posted again.  What is requested of other outputs is free. */
  ghost predicate Follows(inputs: nat, outputs: nat, r: Round, r1: Round, o: int) {
    Succeeds(inputs, outputs, r, r1) && forall i :: (i, o) in r.edges && r.inm[i] != o ==> (i, o) in r1.edges
  }

  /** The lexicographic position of (d1, d2, d3), for d2 below inputs and d3 below outputs. */
  ghost function Rank(inputs: nat, outputs: nat, d1: int, d2: int, d3: int): int {
    d1 * (inputs * outputs) + d2 * outputs + d3
  }

  /** How long request (i, o) can still wait: how far o's pointer is from i, then how far it is from
      the input o grants to, then how far that input's pointer is from o. */
  ghost function Wait(inputs: nat, outputs: nat, r: Round, i: int, o: int): int
    requires IsRound(inputs, outputs, r) && (i, o) in r.edges
  {
    assert r.grants[o] != NONE by {
      assert GrantOf(r.edges, Empty(inputs), Empty(outputs), r.gp[o], o, r.grants[o]);
    }
    var g := r.grants[o];
    assert GrantOf(r.edges, Empty(inputs), Empty(outputs), r.gp[o], o, g);
    Rank(inputs, outputs, Dist(inputs, r.gp[o], i), Dist(inputs, r.gp[o], g), Dist(outputs, r.ap[g], o))
  }

  lemma RankBounds(inputs: nat, outputs: nat, d1: int, d2: int, d3: int)
    requires 0 <= d1 && 0 <= d2 < inputs && 0 <= d3 < outputs
    ensures d1 * (inputs * outputs) <= Rank(inputs, outputs, d1, d2, d3) < (d1 + 1) * (inputs * outputs)
    ensures 0 <= d1 * (inputs * outputs)
  {
    MulMono(d2 + 1, inputs, outputs);
    assert (d2 + 1) * outputs == d2 * outputs + outputs;
    MulNonneg(d2, outputs);
    MulNonneg(inputs, outputs);
    MulNonneg(d1, inputs * outputs);
    assert (d1 + 1) * (inputs * outputs) == d1 * (inputs * outputs) + inputs * outputs;
  }

  lemma RankDrops(inputs: nat, outputs: nat, d1: int, d2: int, d3: int, e1: int, e2: int, e3: int)
    requires 0 <= d1 && 0 <= d2 < inputs && 0 <= d3 < outputs
    requires 0 <= e1 && 0 <= e2 < inputs && 0 <= e3 < outputs
    requires e1 < d1 || (e1 == d1 && (e2 < d2 || (e2 == d2 && e3 < d3)))
    ensures Rank(inputs, outputs, e1, e2, e3) < Rank(inputs, outputs, d1, d2, d3)
  {
    if e1 < d1 {
      RankBounds(inputs, outputs, d1, d2, d3);
      RankBounds(inputs, outputs, e1, e2, e3);
      MulNonneg(inputs, outputs);
      MulMono(e1 + 1, d1, inputs * outputs);
    } else if e2 < d2 {
      MulMono(e2 + 1, d2, outputs);
      assert (e2 + 1) * outputs == e2 * outputs + outputs;
    }
  }

  lemma WaitBounds(inputs: nat, outputs: nat, r: Round, i: int, o: int)
    requires IsRound(inputs, outputs, r) && (i, o) in r.edges
    ensures 0 <= Wait(inputs, outputs, r, i, o) < inputs * (inputs * outputs)
  {
    var g := r.grants[o];
    assert GrantOf(r.edges, Empty(inputs), Empty(outputs), r.gp[o], o, g);
    var d1 := Dist(inputs, r.gp[o], i);
    RankBounds(inputs, outputs, d1, Dist(inputs, r.gp[o], g), Dist(outputs, r.ap[g], o));
    MulNonneg(inputs, outputs);
    MulMono(d1 + 1, inputs, inputs * outputs);
  }

  /** Moving a pointer just past g brings it closer to everything behind g. */
  lemma PastPointer(n: nat, p: int, g: int, x: int)
    requires 0 <= p < n && 0 <= g < n && 0 <= x < n && Dist(n, p, g) < Dist(n, p, x)
    ensures 0 <= (g + 1) % n < n && Dist(n, (g + 1) % n, x) == Dist(n, p, x) - Dist(n, p, g) - 1
  {
    WrapMod(g + 1, n);
  }

  /** An unserved request either sees its output's pointer move closer, or its output's favourite
      input accepts elsewhere and moves its own pointer closer. */
  lemma UnservedRound(inputs: nat, outputs: nat, r: Round, i: int, o: int, g: int)
    requires IsRound(inputs, outputs, r) && (i, o) in r.edges && r.inm[i] != o && g == r.grants[o]
    ensures 0 <= g < inputs && (g, o) in r.edges && Dist(inputs, r.gp[o], g) <= Dist(inputs, r.gp[o], i)
    ensures r.acc[g] == o ==> Dist(inputs, r.gp[o], g) < Dist(inputs, r.gp[o], i)
    ensures r.acc[g] != o ==> 0 <= r.acc[g] < outputs && r.inm[g] != o
                              && Dist(outputs, r.ap[g], r.acc[g]) < Dist(outputs, r.ap[g], o)
  {
    assert GrantOf(r.edges, Empty(inputs), Empty(outputs), r.gp[o], o, g);
    assert AcceptOf(r.edges, r.grants, r.ap[g], g, r.acc[g]);
  }

  /** The wait of an unserved request falls from every round to the next. */
  lemma WaitFalls(inputs: nat, outputs: nat, r: Round, r1: Round, i: int, o: int)
    requires Follows(inputs, outputs, r, r1, o) && (i, o) in r.edges && r.inm[i] != o
    ensures (i, o) in r1.edges && Wait(inputs, outputs, r1, i, o) < Wait(inputs, outputs, r, i, o)
  {
    var g, g1 := r.grants[o], r1.grants[o];
    UnservedRound(inputs, outputs, r, i, o, g);
    assert GrantOf(r1.edges, Empty(inputs), Empty(outputs), r1.gp[o], o, g1);
    var d1, d2, d3 := Dist(inputs, r.gp[o], i), Dist(inputs, r.gp[o], g), Dist(outputs, r.ap[g], o);
    var e1, e2, e3 := Dist(inputs, r1.gp[o], i), Dist(inputs, r1.gp[o], g1), Dist(outputs, r1.ap[g1], o);
    if r.acc[g] == o {
      assert Taken(r.grants, r.acc, o);
      PastPointer(inputs, r.gp[o], g, i);
      assert e1 < d1;
    } else {
      assert r1.gp[o] == r.gp[o];
      PastPointer(outputs, r.ap[g], r.acc[g], o);
      assert (g, o) in r1.edges;
      assert e1 == d1 && e2 <= d2 && (g1 != g ==> e2 < d2) && (g1 == g ==> e3 < d3);
    }
    RankDrops(inputs, outputs, d1, d2, d3, e1, e2, e3);
  }

  /** A run of the allocator: every round follows the one before it. */
  ghost predicate IsRun(inputs: nat, outputs: nat, rounds: seq<Round>, o: int) {
    && (forall n {:trigger rounds[n]} :: 0 <= n < |rounds| ==> IsRound(inputs, outputs, rounds[n]))
    && (forall n {:trigger rounds[n]} :: 0 < n < |rounds| ==> Follows(inputs, outputs, rounds[n - 1], rounds[n], o))
  }

  lemma {:induction false} StillWaiting(inputs: nat, outputs: nat, rounds: seq<Round>, i: int, o: int, k: nat)
    requires k < |rounds| && IsRun(inputs, outputs, rounds, o) && (i, o) in rounds[0].edges
    requires forall n :: 0 <= n < k ==> rounds[n].inm[i] != o
    ensures (i, o) in rounds[k].edges
    ensures Wait(inputs, outputs, rounds[k], i, o) + k <= Wait(inputs, outputs, rounds[0], i, o)
  {
    if k > 0 {
      StillWaiting(inputs, outputs, rounds, i, o, k - 1);
      WaitFalls(inputs, outputs, rounds[k - 1], rounds[k], i, o);
    }
  }

  lemma UnservedMustWait(inputs: nat, outputs: nat, r: Round, i: int, o: int)
    requires IsRound(inputs, outputs, r) && (i, o) in r.edges && r.inm[i] != o
    ensures Wait(inputs, outputs, r, i, o) > 0
  {
    var g := r.grants[o];
    UnservedRound(inputs, outputs, r, i, o, g);
    RankDrops(inputs, outputs, Dist(inputs, r.gp[o], i), Dist(inputs, r.gp[o], g), Dist(outputs, r.ap[g], o), 0, 0, 0);
  }

  /** No starvation: if every unserved request for output o is posted again, each is matched in one of the first
      inputs * inputs * outputs rounds, whatever is requested of the other outputs. */
  lemma NoStarvation(inputs: nat, outputs: nat, rounds: seq<Round>, i: int, o: int)
    requires 0 < |rounds| && |rounds| >= inputs * (inputs * outputs)
    requires IsRun(inputs, outputs, rounds, o) && (i, o) in rounds[0].edges
    ensures exists n :: 0 <= n < inputs * (inputs * outputs) && n < |rounds| && |rounds[n].inm| == inputs && rounds[n].inm[i] == o
  {
    hide Wait, Rank, Grants, Accepts, RotateGrants, RotateAccepts;
    var bound := inputs * (inputs * outputs);
    WaitBounds(inputs, outputs, rounds[0], i, o);
    if forall n :: 0 <= n < bound ==> rounds[n].inm[i] != o {
      StillWaiting(inputs, outputs, rounds, i, o, bound - 1);
      UnservedMustWait(inputs, outputs, rounds[bound - 1], i, o);
      assert false;
    }
  }

  ghost function Setup(): Round {
    Round({(0, 1), (1, 2)}, [0, 0, 0], [0, 0, 0], [NONE, 0, 1], [1, 2, NONE], [1, 2, NONE])
  }

  ghost function FirstTurn(): Round {
    Round({(0, 0), (0, 2), (1, 1), (2, 0)}, [0, 1, 2], [2, 0, 0], [0, 1, 0], [2, 1, NONE], [2, 1, NONE])
  }

  ghost function SecondTurn(): Round {
    Round({(1, 0), (1, 2), (0, 1), (2, 0)}, [0, 2, 1], [0, 2, 0], [1, 0, 1], [1, 2, NONE], [1, 2, NONE])
  }

  /** A run of single-iteration rounds on three inputs and outputs that starves (2, 0), which is posted in every round
      but the first: inputs 0 and 1 take turns in requesting output 0, are granted it and accept output 2 instead. */
  ghost function Starving(n: nat): Round {
    if n == 0 then Setup() else if n % 2 == 1 then FirstTurn() else SecondTurn()
  }

  /** A round on three inputs and outputs, checked port by port. */
  lemma RoundOf3(r: Round)
    requires |r.gp| == |r.grants| == |r.ap| == |r.acc| == 3 && r.inm == r.acc
    requires Pointers(3, r.gp) && Pointers(3, r.ap) && InRange(r.edges, 3, 3)
    requires GrantOf(r.edges, Empty(3), Empty(3), r.gp[0], 0, r.grants[0])
    requires GrantOf(r.edges, Empty(3), Empty(3), r.gp[1], 1, r.grants[1])
    requires GrantOf(r.edges, Empty(3), Empty(3), r.gp[2], 2, r.grants[2])
    requires AcceptOf(r.edges, r.grants, r.ap[0], 0, r.acc[0])
    requires AcceptOf(r.edges, r.grants, r.ap[1], 1, r.acc[1])
    requires AcceptOf(r.edges, r.grants, r.ap[2], 2, r.acc[2])
    ensures IsRound(3, 3, r)
  {
    hide GrantOf, AcceptOf;
  }

  lemma SetupIsRound()
    ensures IsRound(3, 3, Setup())
  {
    hide IsRound;
    RoundOf3(Setup());
  }

  lemma FirstTurnIsRound()
    ensures IsRound(3, 3, FirstTurn())
  {
    hide IsRound;
    RoundOf3(FirstTurn());
  }

  lemma SecondTurnIsRound()
    ensures IsRound(3, 3, SecondTurn())
  {
    hide IsRound;
    RoundOf3(SecondTurn());
  }

  lemma Rotates(r: Round, r1: Round)
    requires (r == Setup() && r1 == FirstTurn()) || (r == FirstTurn() && r1 == SecondTurn()) || (r == SecondTurn() && r1 == FirstTurn())
    ensures r1.gp == RotateGrants(3, r.gp, r.grants, r.acc) && r1.ap == RotateAccepts(3, r.ap, r.acc)
  {
    assert !Taken(r.grants, r.acc, 0) && Taken(r.grants, r.acc, 1) && Taken(r.grants, r.acc, 2);
    hide Taken;
    assert RotateGrants(3, r.gp, r.grants, r.acc) == r1.gp;
    assert RotateAccepts(3, r.ap, r.acc) == r1.ap;
  }

  /** So posting again only the request in question is not enough: from the initial pointers (2, 0) can be posted
      for ever and never be matched, because the unserved requests (0, 0) and (1, 0) are withdrawn in turn. */
  lemma RepostingIsNeeded(n: nat)
    ensures Starving(0).gp == [0, 0, 0] == Starving(0).ap
    ensures Succeeds(3, 3, Starving(n), Starving(n + 1))
    ensures n > 0 ==> (2, 0) in Starving(n).edges && Starving(n).inm[2] == NONE
    ensures n > 0 ==> !Follows(3, 3, Starving(n), Starving(n + 1), 0)
  {
    hide IsRound, RotateGrants, RotateAccepts;
    SetupIsRound();
    FirstTurnIsRound();
    SecondTurnIsRound();
    Rotates(Starving(n), Starving(n + 1));
    var i := if n % 2 == 1 then 0 else 1;
    assert n > 0 ==> (i, 0) in Starving(n).edges && Starving(n).inm[i] != 0 && (i, 0) !in Starving(n + 1).edges;
  }

  /** The state of the accept phase after the inputs below |acc| have made their choice. */
  ghost predicate Accepting(inm0: seq<int>, outm0: seq<int>, gp0: seq<int>, ap0: seq<int>, first: bool,
                            grants: seq<int>, acc: seq<int>,
                            inm: seq<int>, outm: seq<int>, gp: seq<int>, ap: seq<int>) {
    && 0 < |inm0| == |ap0| == |ap| && 0 < |outm0| == |gp0| == |gp|
    && Merging(inm0, outm0, grants, acc, inm, outm)
    && gp == (if first then RotateGrants(|inm0|, gp0, grants, acc) else gp0)
    && ap == (if first then RotateAccepts(|outm0|, ap0, acc) else ap0)
  }

  lemma AcceptStep(inm0: seq<int>, outm0: seq<int>, gp0: seq<int>, ap0: seq<int>, first: bool,
                   grants: seq<int>, acc: seq<int>,
                   inm: seq<int>, outm: seq<int>, gp: seq<int>, ap: seq<int>, a: int)
    requires Accepting(inm0, outm0, gp0, ap0, first, grants, acc, inm, outm, gp, ap)
    requires var x := |acc|; x < |inm| && (a == NONE || (0 <= a < |grants| && grants[a] == x))
    ensures var x := |acc|;
      if a == NONE then Accepting(inm0, outm0, gp0, ap0, first, grants, acc + [a], inm, outm, gp, ap)
      else Accepting(inm0, outm0, gp0, ap0, first, grants, acc + [a], inm[x := a], outm[a := x],
                     if first then gp[a := (x + 1) % |inm0|] else gp,
                     if first then ap[x := (a + 1) % |outm0|] else ap)
  {
    var x, acc1 := |acc|, acc + [a];
    forall o | 0 <= o < |grants|
      ensures Taken(grants, acc1, o) <==> Taken(grants, acc, o) || (a == o && grants[o] == x)
    {
    }
    if first {
      assert a == NONE ==> RotateGrants(|inm0|, gp0, grants, acc1) == gp && RotateAccepts(|outm0|, ap0, acc1) == ap;
      assert a != NONE ==> RotateGrants(|inm0|, gp0, grants, acc1) == gp[a := (x + 1) % |inm0|];
      assert a != NONE ==> RotateAccepts(|outm0|, ap0, acc1) == ap[x := (a + 1) % |outm0|];
    }
  }

  lemma AcceptingStarts(inm: seq<int>, outm: seq<int>, gp: seq<int>, ap: seq<int>, first: bool, grants: seq<int>)
    requires 0 < |inm| == |ap| && 0 < |outm| == |gp| == |grants|
    ensures Accepting(inm, outm, gp, ap, first, grants, [], inm, outm, gp, ap)
  {
    assert RotateGrants(|inm|, gp, grants, []) == gp && RotateAccepts(|outm|, ap, []) == ap;
  }

  /** The requests of every input name existing outputs. */
  ghost predicate Keyed(inReq: seq<RequestMap>, inputs: nat, outputs: nat) {
    |inReq| == inputs && forall i, o :: 0 <= i < inputs && o in inReq[i] ==> 0 <= o < outputs
  }

  lemma AcceptingFacts(inm0: seq<int>, outm0: seq<int>, gp0: seq<int>, ap0: seq<int>, first: bool,
                       grants: seq<int>, acc: seq<int>,
                       inm: seq<int>, outm: seq<int>, gp: seq<int>, ap: seq<int>)
    requires Accepting(inm0, outm0, gp0, ap0, first, grants, acc, inm, outm, gp, ap)
    ensures |inm| == |inm0| == |ap| && |outm| == |outm0| == |gp|
    ensures |acc| < |ap0| ==> ap[|acc|] == ap0[|acc|]
  {
  }

  lemma AcceptedInRange(edges: Edges, grants: seq<int>, pointer: int, i: int, a: int)
    requires AcceptOf(edges, grants, pointer, i, a)
    ensures a == NONE || (0 <= a < |grants| && grants[a] == i)
  {
  }

  /** What the later iterations of a round remember of the first one. */
  ghost predicate FirstIteration(r: Round, inm0: seq<int>, outm0: seq<int>, inm: seq<int>, gptrs: seq<int>, aptrs: seq<int>) {
    && 0 < |inm0| == |inm| && 0 < |outm0| && InRange(r.edges, |inm0|, |outm0|)
    && |r.gp| == |outm0| && |r.ap| == |r.acc| == |inm0|
    && Grants(r.edges, inm0, outm0, r.gp, r.grants) && Accepts(r.edges, r.grants, r.ap, r.acc)
    && |r.grants| == |outm0|
    && gptrs == RotateGrants(|inm0|, r.gp, r.grants, r.acc) && aptrs == RotateAccepts(|outm0|, r.ap, r.acc)
    && forall i :: 0 <= i < |inm0| && r.acc[i] != NONE ==> inm[i] == r.acc[i]
  }

  lemma FirstIterationDone(r: Round, inm: seq<int>, outm: seq<int>, inm1: seq<int>, outm1: seq<int>, gptrs: seq<int>,
        aptrs: seq<int>)
    requires Iteration(r.edges, inm, outm, r.gp, r.ap, r.grants, r.acc, inm1, outm1) && 0 < |inm| && 0 < |outm|
    requires gptrs == RotateGrants(|inm|, r.gp, r.grants, r.acc) && aptrs == RotateAccepts(|outm|, r.ap, r.acc)
    ensures FirstIteration(r, inm, outm, inm1, gptrs, aptrs)
  {
  }

  lemma UnmatchedIsEmpty(inm: seq<int>, outm: seq<int>)
    requires Inverse(inm, outm) && Pairs(inm) == {}
    ensures inm == Empty(|inm|) && outm == Empty(|outm|)
  {
    assert forall i :: 0 <= i < |inm| && inm[i] != NONE ==> (i, inm[i]) in Pairs(inm);
  }

  lemma RotationInRange(inputs: nat, outputs: nat, gp: seq<int>, ap: seq<int>, grants: seq<int>, acc: seq<int>)
    requires 0 < inputs && 0 < outputs && |grants| == |gp| && |acc| <= |ap|
    requires Pointers(inputs, gp) && Pointers(outputs, ap)
    ensures Pointers(inputs, RotateGrants(inputs, gp, grants, acc))
    ensures Pointers(outputs, RotateAccepts(outputs, ap, acc))
  {
  }

  lemma EdgesInRange(alloc: SparseAllocator)
    requires alloc.Stored()
    ensures InRange(EdgesOf(alloc.inReq), alloc.inputs, alloc.outputs)
  {
  }

  lemma StillClean(alloc: SparseAllocator)
    requires alloc.Stored() && IsMatching(EdgesOf(alloc.inReq), alloc.inmatch, alloc.outmatch)
    requires !alloc.dirty ==> EdgesOf(alloc.inReq) == {}
    ensures alloc.Valid()
  {
  }

  class ISlip {
    const alloc: SparseAllocator
    const iters: nat
    var gptrs: seq<int>
    var aptrs: seq<int>

    ghost predicate Valid()
      reads this, alloc
    {
      && alloc.Valid() && 0 < alloc.inputs && 0 < alloc.outputs
      && |gptrs| == alloc.outputs && Pointers(alloc.inputs, gptrs)
      && |aptrs| == alloc.inputs && Pointers(alloc.outputs, aptrs)
    }

    ghost function Requests(): Edges
      reads alloc
    {
      EdgesOf(alloc.inReq)
    }

    constructor (inputs: nat, outputs: nat, iters: nat)
      requires 0 < inputs && 0 < outputs
      ensures Valid() && fresh(alloc) && alloc.inputs == inputs && alloc.outputs == outputs && this.iters == iters
    {
      alloc := new SparseAllocator(inputs, outputs);
      this.iters := iters;
      gptrs := seq(outputs, _ => 0);
      aptrs := seq(inputs, _ => 0);
    }

    method GrantPhase() returns (grants: seq<int>)
      requires Valid()
      ensures InRange(Requests(), alloc.inputs, alloc.outputs)
      ensures Grants(Requests(), alloc.inmatch, alloc.outmatch, gptrs, grants)
    {
      grants := seq(alloc.outputs, _ => NONE);
      ghost var edges := Requests();
      var output := 0;
      while output < alloc.outputs
        invariant 0 <= output <= alloc.outputs == |grants|
        invariant forall o {:trigger grants[o]} :: 0 <= o < output ==>
                    GrantOf(edges, alloc.inmatch, alloc.outmatch, gptrs[o], o, grants[o])
        invariant forall o :: output <= o < alloc.outputs ==> grants[o] == NONE
      {
        if alloc.outReq[output] != map[] && alloc.outmatch[output] == NONE {
          var g := RoundRobin(alloc.outReq[output], alloc.inputs, gptrs[output], alloc.inmatch, NONE);
          grants := grants[output := g];
        }
        assert forall i :: (i, output) in edges <==> i in alloc.outReq[output];
        output := output + 1;
      }
    }

    /** Input `input` accepts the first of its grants at or after its pointer. */
    method AcceptOne(input: nat, grants: seq<int>) returns (a: int)
      requires Keyed(alloc.inReq, alloc.inputs, alloc.outputs) && |grants| == alloc.outputs
      requires input < alloc.inputs == |aptrs| && 0 <= aptrs[input] < alloc.outputs
      ensures AcceptOf(Requests(), grants, aptrs[input], input, a)
    {
      a := NONE;
      if alloc.inReq[input] != map[] {
        a := RoundRobin(alloc.inReq[input], alloc.outputs, aptrs[input], grants, input);
      }
      assert forall o :: (input, o) in Requests() <==> o in alloc.inReq[input];
    }

    method AcceptPhase(grants: seq<int>, first: bool) returns (ghost acc: seq<int>)
      requires Valid() && |grants| == alloc.outputs
      modifies this`gptrs, this`aptrs, alloc`inmatch, alloc`outmatch
      ensures Accepts(Requests(), grants, old(aptrs), acc)
      ensures |acc| == alloc.inputs
      ensures Accepting(old(alloc.inmatch), old(alloc.outmatch), old(gptrs), old(aptrs), first,
                        grants, acc, alloc.inmatch, alloc.outmatch, gptrs, aptrs)
    {
      assert Keyed(alloc.inReq, alloc.inputs, alloc.outputs);
      AcceptingStarts(alloc.inmatch, alloc.outmatch, gptrs, aptrs, first, grants);
      hide AcceptOf, Accepting, Inverse, Transposed, Occupied, EdgesOf, Keyed;
      acc := [];
      ghost var edges, inm0, outm0, gp0, ap0 := Requests(), alloc.inmatch, alloc.outmatch, gptrs, aptrs;
      var input := 0;
      while input < alloc.inputs
        invariant 0 <= input <= alloc.inputs && |acc| == input && edges == Requests()
        invariant Accepting(inm0, outm0, gp0, ap0, first, grants, acc, alloc.inmatch, alloc.outmatch, gptrs, aptrs)
        invariant forall i {:trigger acc[i]} :: 0 <= i < input ==> AcceptOf(edges, grants, ap0[i], i, acc[i])
      {
        AcceptingFacts(inm0, outm0, gp0, ap0, first, grants, acc, alloc.inmatch, alloc.outmatch, gptrs, aptrs);
        var a := AcceptOne(input, grants);
        AcceptedInRange(edges, grants, ap0[input], input, a);
        AcceptStep(inm0, outm0, gp0, ap0, first, grants, acc, alloc.inmatch, alloc.outmatch, gptrs, aptrs, a);
        if a != NONE {
          alloc.inmatch := alloc.inmatch[input := a];
          alloc.outmatch := alloc.outmatch[a := input];
          if first {
            gptrs := gptrs[a := (input + 1) % alloc.inputs];
            aptrs := aptrs[input := (a + 1) % alloc.outputs];
          }
        }
        acc := acc + [a];
        input := input + 1;
      }
      AcceptingFacts(inm0, outm0, gp0, ap0, first, grants, acc, alloc.inmatch, alloc.outmatch, gptrs, aptrs);
    }

    method Iterate(first: bool) returns (ghost grants: seq<int>, ghost acc: seq<int>)
      requires Valid() && IsMatching(Requests(), alloc.inmatch, alloc.outmatch)
      modifies this`gptrs, this`aptrs, alloc`inmatch, alloc`outmatch
      ensures Valid() && IsMatching(Requests(), alloc.inmatch, alloc.outmatch)
      ensures Iteration(Requests(), old(alloc.inmatch), old(alloc.outmatch), old(gptrs), old(aptrs),
                        grants, acc, alloc.inmatch, alloc.outmatch)
      ensures if first then
                gptrs == RotateGrants(alloc.inputs, old(gptrs), grants, acc) &&
                aptrs == RotateAccepts(alloc.outputs, old(aptrs), acc)
              else
                gptrs == old(gptrs) && aptrs == old(aptrs)
    {
      hide GrantOf, AcceptOf, Inverse, Transposed, Occupied;
      ghost var inm0, outm0, gp0, ap0 := alloc.inmatch, alloc.outmatch, gptrs, aptrs;
      var granted := GrantPhase();
      grants := granted;
      acc := AcceptPhase(granted, first);
      RotationInRange(alloc.inputs, alloc.outputs, gp0, ap0, grants, acc);
      IterationKeepsMatching(Requests(), inm0, outm0, gp0, ap0, grants, acc, alloc.inmatch, alloc.outmatch);
      StillClean(alloc);
    }

    /** A round.  The matches are requested, none is revoked, and `iters` iterations either end in a
        maximal matching or add a match each; with as many iterations as the smaller side has ports the
        result is maximal.  The pointers record the first iteration only. */
    method Allocate() returns (ghost round: Round, ghost gps: seq<seq<int>>, ghost aps: seq<seq<int>>)
      requires Valid() && IsMatching(Requests(), alloc.inmatch, alloc.outmatch)
      modifies this`gptrs, this`aptrs, alloc`inmatch, alloc`outmatch
      ensures Valid() && IsMatching(Requests(), alloc.inmatch, alloc.outmatch)
      ensures KeepsMatches(old(alloc.inmatch), alloc.inmatch) && KeepsMatches(old(alloc.outmatch), alloc.outmatch)
      ensures Maximal(Requests(), alloc.inmatch, alloc.outmatch)
              || |MatchedInputs(alloc.inmatch)| >= |old(MatchedInputs(alloc.inmatch))| + iters
      ensures iters >= alloc.inputs || iters >= alloc.outputs ==> Maximal(Requests(), alloc.inmatch, alloc.outmatch)
      ensures 0 < iters && old(Pairs(alloc.inmatch)) == {} ==>
        && IsRound(alloc.inputs, alloc.outputs, round)
        && round.edges == Requests() && round.gp == old(gptrs) && round.ap == old(aptrs) && round.inm == alloc.inmatch
        && gptrs == RotateGrants(alloc.inputs, round.gp, round.grants, round.acc)
        && aptrs == RotateAccepts(alloc.outputs, round.ap, round.acc)
      ensures |gps| == |aps| == iters && (iters == 0 ==> gptrs == old(gptrs) && aptrs == old(aptrs))
      ensures forall t :: 0 <= t < iters ==> (gps[t], aps[t]) == if t == 0 then (old(gptrs), old(aptrs)) else (gptrs, aptrs)
      ensures Iterated(Requests(), old(alloc.inmatch), old(alloc.outmatch), gps, aps, alloc.inmatch, alloc.outmatch)
    {
      hide GrantOf, AcceptOf, Iteration, Inverse, Transposed, Occupied, Iterated;
      gps, aps := [], [];
      NotIterated(Requests(), alloc.inmatch, alloc.outmatch);
      ghost var inm0, outm0, gp0, ap0 := alloc.inmatch, alloc.outmatch, gptrs, aptrs;
      round := Round(Requests(), gp0, ap0, [], [], inm0);
      var iter := 0;
      while iter < iters
        invariant 0 <= iter <= iters
        invariant Valid() && IsMatching(Requests(), alloc.inmatch, alloc.outmatch)
        invariant KeepsMatches(inm0, alloc.inmatch) && KeepsMatches(outm0, alloc.outmatch)
        invariant Maximal(Requests(), alloc.inmatch, alloc.outmatch)
                  || |MatchedInputs(alloc.inmatch)| >= |MatchedInputs(inm0)| + iter
        invariant round.edges == Requests() && round.gp == gp0 && round.ap == ap0
        invariant iter == 0 ==>
          gptrs == gp0 && aptrs == ap0 && alloc.inmatch == inm0 && alloc.outmatch == outm0
        invariant 0 < iter ==> FirstIteration(round, inm0, outm0, alloc.inmatch, gptrs, aptrs)
        invariant |gps| == |aps| == iter && Iterated(Requests(), inm0, outm0, gps, aps, alloc.inmatch, alloc.outmatch)
        invariant forall t :: 0 <= t < iter ==> (gps[t], aps[t]) == if t == 0 then (gp0, ap0) else (gptrs, aptrs)
      {
        ghost var inm, outm, gp, ap := alloc.inmatch, alloc.outmatch, gptrs, aptrs;
        ghost var grants, acc := Iterate(iter == 0);
        IterationKeepsMatching(Requests(), inm, outm, gp, ap, grants, acc, alloc.inmatch, alloc.outmatch);
        IterationMakesProgress(Requests(), inm, outm, gp, ap, grants, acc, alloc.inmatch, alloc.outmatch);
        OneMore(Requests(), inm0, outm0, gps, aps, inm, outm, gp, ap, grants, acc, alloc.inmatch, alloc.outmatch);
        gps, aps := gps + [gp], aps + [ap];
        EdgesInRange(alloc);
        if iter == 0 {
          round := Round(Requests(), gp0, ap0, grants, acc, inm0);
          FirstIterationDone(round, inm, outm, alloc.inmatch, alloc.outmatch, gptrs, aptrs);
        }
        iter := iter + 1;
      }
      if iters >= alloc.inputs || iters >= alloc.outputs {
        EdgesInRange(alloc);
        if !Maximal(Requests(), alloc.inmatch, alloc.outmatch) {
          FullIsMaximal(Requests(), alloc.inmatch, alloc.outmatch);
        }
      }
      round := round.(inm := alloc.inmatch);
      if 0 < iters && Pairs(inm0) == {} {
        UnmatchedIsEmpty(inm0, outm0);
      }
    }
  }
}
