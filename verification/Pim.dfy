/** Parallel iterative matching: grant/accept iterations whose arbiters start at random ports. */
module Pims {
  import opened Arith
  import opened Matching
  import opened GrantAccept
  import opened DenseAllocators
  import opened Randoms

  /** The port met at step k of a scan that starts at `offset`. */
  lemma ScanPosition(n: nat, offset: nat, k: nat)
    requires offset < n && k < n
    ensures 0 <= (k + offset) % n < n && Dist(n, offset, (k + offset) % n) == k
    ensures forall x {:trigger Dist(n, offset, x)} ::
              0 <= x < n && Dist(n, offset, x) == k ==> x == (k + offset) % n
  {
    WrapMod(k + offset, n);
  }

  class Pim {
    const alloc: DenseAllocator
    const iters: nat

    ghost predicate Valid()
      reads this, alloc
    {
      alloc.Valid() && 0 < alloc.inputs && 0 < alloc.outputs
    }

    ghost function Requests(): Edges
      reads alloc
    {
      EdgesOf(alloc.request)
    }

    constructor (inputs: nat, outputs: nat, iters: nat)
      requires 0 < inputs && 0 < outputs
      ensures Valid() && fresh(alloc) && alloc.inputs == inputs && alloc.outputs == outputs && this.iters == iters
    {
      alloc := new DenseAllocator(inputs, outputs);
      this.iters := iters;
    }

    /** Output `output` grants to the first free requester at or after `offset`. */
    method GrantOne(output: nat, offset: nat) returns (g: int)
      requires Valid() && output < alloc.outputs && offset < alloc.inputs
      ensures InRange(Requests(), alloc.inputs, alloc.outputs)
      ensures GrantOf(Requests(), alloc.inmatch, alloc.outmatch, offset, output, g)
    {
      hide Inverse;
      g := NONE;
      var i := 0;
      while i < alloc.inputs
        invariant 0 <= i <= alloc.inputs && g == NONE
        invariant forall x :: 0 <= x < alloc.inputs && Dist(alloc.inputs, offset, x) < i ==>
          !((x, output) in Requests() && alloc.inmatch[x] == NONE && alloc.outmatch[output] == NONE)
      {
        ScanPosition(alloc.inputs, offset, i);
        var input := (i + offset) % alloc.inputs;
        assert Has(alloc.request, input, output) <==> (input, output) in Requests();
        if Has(alloc.request, input, output) && alloc.inmatch[input] == NONE && alloc.outmatch[output] == NONE {
          return input;
        }
        i := i + 1;
      }
    }

    method GrantPhase() returns (grants: seq<int>, ghost gp: seq<int>)
      requires Valid()
      ensures InRange(Requests(), alloc.inputs, alloc.outputs)
      ensures Grants(Requests(), alloc.inmatch, alloc.outmatch, gp, grants)
      ensures |grants| == alloc.outputs && forall o :: 0 <= o < |grants| && grants[o] != NONE ==>
        (grants[o], o) in Requests() && alloc.inmatch[grants[o]] == NONE && alloc.outmatch[o] == NONE
    {
      grants, gp := [], [];
      var output := 0;
      while output < alloc.outputs
        invariant 0 <= output <= alloc.outputs && |grants| == |gp| == output
        invariant InRange(Requests(), alloc.inputs, alloc.outputs)
        invariant forall o {:trigger grants[o]} :: 0 <= o < output ==>
                    GrantOf(Requests(), alloc.inmatch, alloc.outmatch, gp[o], o, grants[o])
      {
        var offset := RandomInt(alloc.inputs - 1);
        var g := GrantOne(output, offset);
        grants, gp := grants + [g], gp + [offset];
        output := output + 1;
      }
    }

    /** Input `input` accepts the first of its grants at or after `offset`. */
    method AcceptOne(input: nat, offset: nat, grants: seq<int>) returns (a: int)
      requires alloc.Shape() && input < alloc.inputs && offset < alloc.outputs == |grants|
      requires forall o :: 0 <= o < |grants| && grants[o] != NONE ==> (grants[o], o) in Requests()
      ensures AcceptOf(Requests(), grants, offset, input, a)
    {
      hide Inverse;
      a := NONE;
      var o := 0;
      while o < alloc.outputs
        invariant 0 <= o <= alloc.outputs && a == NONE
        invariant forall x :: 0 <= x < alloc.outputs && Dist(alloc.outputs, offset, x) < o ==>
          grants[x] != input
      {
        ScanPosition(alloc.outputs, offset, o);
        var output := (o + offset) % alloc.outputs;
        if grants[output] == input {
          return output;
        }
        o := o + 1;
      }
    }

    method AcceptPhase(grants: seq<int>) returns (ghost acc: seq<int>, ghost ap: seq<int>)
      requires Valid() && |grants| == alloc.outputs
      requires forall o :: 0 <= o < |grants| && grants[o] != NONE ==> (grants[o], o) in Requests()
      modifies alloc`inmatch, alloc`outmatch
      ensures Accepts(Requests(), grants, ap, acc)
      ensures Merged(old(alloc.inmatch), old(alloc.outmatch), grants, acc, alloc.inmatch, alloc.outmatch)
    {
      acc, ap := [], [];
      ghost var inm0, outm0 := alloc.inmatch, alloc.outmatch;
      var input := 0;
      while input < alloc.inputs
        invariant 0 <= input <= alloc.inputs && |acc| == |ap| == input
        invariant Merging(inm0, outm0, grants, acc, alloc.inmatch, alloc.outmatch)
        invariant forall i {:trigger acc[i]} :: 0 <= i < input ==> AcceptOf(Requests(), grants, ap[i], i, acc[i])
      {
        var offset := RandomInt(alloc.outputs - 1);
        var a := AcceptOne(input, offset, grants);
        if a != NONE {
          alloc.inmatch := alloc.inmatch[input := a];
          alloc.outmatch := alloc.outmatch[a := input];
        }
        acc, ap := acc + [a], ap + [offset];
        input := input + 1;
      }
    }

    /** PIM for any draws: the matches are requested, none is revoked, and `iters` iterations either end
        in a maximal matching or add a match each; with as many iterations as the smaller side has ports
        the result is maximal. */
    method Allocate() returns (ghost gps: seq<seq<int>>, ghost aps: seq<seq<int>>)
      requires Valid() && IsMatching(Requests(), alloc.inmatch, alloc.outmatch)
      modifies alloc`inmatch, alloc`outmatch
      ensures Valid() && IsMatching(Requests(), alloc.inmatch, alloc.outmatch)
      ensures KeepsMatches(old(alloc.inmatch), alloc.inmatch) && KeepsMatches(old(alloc.outmatch), alloc.outmatch)
      ensures Maximal(Requests(), alloc.inmatch, alloc.outmatch)
              || |MatchedInputs(alloc.inmatch)| >= |old(MatchedInputs(alloc.inmatch))| + iters
      ensures iters >= alloc.inputs || iters >= alloc.outputs ==> Maximal(Requests(), alloc.inmatch, alloc.outmatch)
      ensures |gps| == |aps| == iters
      ensures Iterated(Requests(), old(alloc.inmatch), old(alloc.outmatch), gps, aps, alloc.inmatch, alloc.outmatch)
    {
      hide Iterated;
      ghost var inm0, outm0 := alloc.inmatch, alloc.outmatch;
      gps, aps := [], [];
      NotIterated(Requests(), inm0, outm0);
      var iter := 0;
      while iter < iters
        invariant 0 <= iter <= iters
        invariant Valid() && IsMatching(Requests(), alloc.inmatch, alloc.outmatch)
        invariant KeepsMatches(inm0, alloc.inmatch) && KeepsMatches(outm0, alloc.outmatch)
        invariant Maximal(Requests(), alloc.inmatch, alloc.outmatch)
                  || |MatchedInputs(alloc.inmatch)| >= |MatchedInputs(inm0)| + iter
        invariant |gps| == |aps| == iter && Iterated(Requests(), inm0, outm0, gps, aps, alloc.inmatch, alloc.outmatch)
      {
        ghost var inm, outm := alloc.inmatch, alloc.outmatch;
        var grants, gp := GrantPhase();
        ghost var acc, ap := AcceptPhase(grants);
        IterationKeepsMatching(Requests(), inm, outm, gp, ap, grants, acc, alloc.inmatch, alloc.outmatch);
        IterationMakesProgress(Requests(), inm, outm, gp, ap, grants, acc, alloc.inmatch, alloc.outmatch);
        OneMore(Requests(), inm0, outm0, gps, aps, inm, outm, gp, ap, grants, acc, alloc.inmatch, alloc.outmatch);
        gps, aps := gps + [gp], aps + [ap];
        iter := iter + 1;
      }
      if (iters >= alloc.inputs || iters >= alloc.outputs) && !Maximal(Requests(), alloc.inmatch, alloc.outmatch) {
        FullIsMaximal(Requests(), alloc.inmatch, alloc.outmatch);
      }
    }
  }
}
