/** Cyclic waiting, the way a wormhole network deadlocks. */
module WaitCycles {

  /** A chain in which each holds what the one before waits for. */
  ghost predicate Chain<C(!new)>(waits: (C, C) -> bool, chain: seq<C>) {
    1 < |chain| && forall k {:trigger chain[k]} :: 0 < k < |chain| ==> waits(chain[k - 1], chain[k])
  }

  ghost predicate Cycle<C(!new)>(waits: (C, C) -> bool, chain: seq<C>) {
    Chain(waits, chain) && chain[0] == chain[|chain| - 1]
  }

  ghost predicate Cyclic<C(!new)>(waits: (C, C) -> bool) {
    exists chain :: Cycle(waits, chain)
  }

  lemma CycleFound<C(!new)>(waits: (C, C) -> bool, chain: seq<C>)
    requires 1 < |chain| && chain[0] == chain[|chain| - 1]
    requires forall k {:trigger chain[k]} :: 0 < k < |chain| ==> waits(chain[k - 1], chain[k])
    ensures Cyclic(waits)
  {
    assert Cycle(waits, chain);
  }

  ghost predicate Order<C(!new)>(below: (C, C) -> bool) {
    && (forall c, d, e :: below(c, d) && below(d, e) ==> below(c, e))
    && (forall c :: !below(c, c))
  }

  lemma {:induction false} ChainClimbs<C(!new)>(waits: (C, C) -> bool, below: (C, C) -> bool, chain: seq<C>, k: nat)
    requires Order(below) && (forall c, d :: waits(c, d) ==> below(c, d)) && Chain(waits, chain) && 0 < k < |chain|
    ensures below(chain[0], chain[k])
    decreases k
  {
    assert waits(chain[k - 1], chain[k]);
    if k > 1 {
      ChainClimbs(waits, below, chain, k - 1);
    }
  }

  /** Whoever waits only for what is higher in some order is never part of a cycle. */
  lemma ClimbingIsAcyclic<C(!new)>(waits: (C, C) -> bool, below: (C, C) -> bool)
    requires Order(below) && forall c, d :: waits(c, d) ==> below(c, d)
    ensures !Cyclic(waits)
  {
    forall chain | Chain(waits, chain)
      ensures !Cycle(waits, chain)
    {
      ChainClimbs(waits, below, chain, |chain| - 1);
    }
  }
}
