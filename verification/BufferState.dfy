/** The sender's record of the buffer it feeds, with all its sharing policies. */
module BufferStates {
  import opened Arith
  import opened Sums
  import opened FlowControl
  import opened HeldSlotLimits
  import opened FeedbackLimits

  /** What a shared policy adds to the pool: nothing, a limit on held slots, or a limit from round-trip times. */
  datatype Extra = Plain | Limited | RoundTrip

  /** The counters are the sums they stand for. */
  ghost predicate Accounts(policy: Policy, vcs: seq<Vc>, occupancy: int, privateOccupancy: seq<int>, sharedOccupancy: int) {
    && occupancy == Sum(Occupied(vcs))
    && (policy.Shared? ==>
          && |policy.pool.group| == |vcs|
          && privateOccupancy == GroupHeld(policy.pool, vcs) && sharedOccupancy == Excess(policy.pool, vcs))
  }

  /** Taking a virtual channel changes no count. */
  lemma TakeStep(policy: Policy, wait: bool, vcs: seq<Vc>, started: set<nat>, v: nat, tag: nat, occ: int,
        priv: seq<int>, shared: int)
    requires FlowOk(policy, wait, vcs) && v < |vcs| && vcs[v].inUseBy < 0 && Accounts(policy, vcs, occ, priv, shared)
    ensures var now := vcs[v := Taken(vcs[v], tag)];
      && FlowOk(policy, wait, now) && Accounts(policy, now, occ, priv, shared)
      && (policy.Shared? && Started(vcs, started) ==> Started(now, started))
  {
    TakeKeeps(policy, wait, vcs, v, tag);
    HeldUpdate(vcs, v, Taken(vcs[v], tag));
    assert Occupied(vcs[v := Taken(vcs[v], tag)]) == Occupied(vcs);
    assert Held(vcs[v := Taken(vcs[v], tag)]) == Held(vcs);
    if policy.Shared? && Started(vcs, started) {
      StartedKept(policy, wait, vcs, started, v);
    }
  }

  /** A send moves each count by one, except that a reserved slot is already counted; the limits survive exactly when
      the policy did not report full. */
  lemma SendStep(policy: Policy, wait: bool, vcs: seq<Vc>, started: set<nat>, v: nat, tail: bool, occ: int,
        priv: seq<int>, shared: int)
    requires FlowOk(policy, wait, vcs) && v < |vcs| && Accounts(policy, vcs, occ, priv, shared)
    ensures Fits(policy, vcs) && 0 <= vcs[v].reserved <= 1
    ensures var now := vcs[v := Sent(wait, vcs[v], tail)];
      && (!Full(policy, vcs, v) ==> Fits(policy, now) && occ + 1 <= Capacity(policy, |vcs|))
      && (CanSend(vcs[v]) && !Full(policy, vcs, v) ==> FlowOk(policy, wait, now))
      && (CanSend(vcs[v]) && policy.Shared? && Started(vcs, started) ==> Started(now, if tail then started - {v} else started + {v}))
      && match policy
         case Private(slots) =>
           && vcs[v].reserved == 0 && Accounts(policy, now, occ + 1, priv, shared)
           && (Full(policy, vcs, v) <==> vcs[v].occupancy >= slots)
         case Shared(p) =>
           && v < |p.group| && p.group[v] < |p.size| == |priv|
           && var g := p.group[v]; var m := priv[g] + 1 - vcs[v].reserved;
              var s := shared + if m > priv[g] && m > p.size[g] then 1 else 0;
              && Accounts(policy, now, occ + 1, priv[g := m], s)
              && (Full(policy, vcs, v) <==> m > priv[g] && m > p.size[g] && s > p.shared)
  {
    var now := vcs[v := Sent(wait, vcs[v], tail)];
    HeldUpdate(vcs, v, now[v]);
    SumUpdate(Occupied(vcs), v, now[v].occupancy);
    if !Full(policy, vcs, v) {
      SendKeeps(policy, wait, vcs, v, tail);
      assert forall w :: 0 <= w < |vcs| ==> VcOk(wait, vcs[w]);
      NeverOverflows(policy, now);
    }
    if policy.Shared? {
      PoolUpdate(policy.pool, vcs, v, now[v]);
      if Started(vcs, started) {
        StartedKept(policy, wait, vcs, started, v);
      }
    }
  }

  lemma CreditSums(policy: Policy, wait: bool, vcs: seq<Vc>, v: nat, occ: int, priv: seq<int>, shared: int)
    requires FlowOk(policy, wait, vcs) && v < |vcs| && Accounts(policy, vcs, occ, priv, shared)
    ensures 0 <= vcs[v].occupancy <= occ
    ensures Sum(Occupied(vcs[v := Credited(policy, wait, vcs[v])])) == occ - 1
    ensures policy.Shared? ==>
      var p := policy.pool;
      && v < |p.group| && p.group[v] < |p.size| == |priv|
      && var g := p.group[v]; (vcs[v].occupancy > 0 ==> priv[g] > 0) && (priv[g] > p.size[g] ==> shared > 0)
  {
    HeldUpdate(vcs, v, Credited(policy, wait, vcs[v]));
    SumUpdate(Occupied(vcs), v, vcs[v].occupancy - 1);
    SumAtLeast(Occupied(vcs), v);
    if policy.Shared? {
      var p := policy.pool;
      GroupSumAtLeast(p.group, Held(vcs), v);
      SumAtLeast(Overs(GroupHeld(p, vcs), p.size), p.group[v]);
    }
  }

  /** A credit takes each count down by one, except that a slot turned into a reservation stays counted; no count can
      fall below zero. */
  lemma CreditStep(policy: Policy, wait: bool, vcs: seq<Vc>, started: set<nat>, v: nat, occ: int, priv: seq<int>, shared: int)
    requires FlowOk(policy, wait, vcs) && v < |vcs| && Accounts(policy, vcs, occ, priv, shared)
    ensures 0 <= vcs[v].occupancy <= occ
    ensures wait && vcs[v].inUseBy < 0 ==> vcs[v].occupancy == 0
    ensures var now := vcs[v := Credited(policy, wait, vcs[v])];
      && (vcs[v].occupancy > 0 ==> FlowOk(policy, wait, now))
      && (vcs[v].occupancy > 0 && policy.Shared? && Started(vcs, started) ==> Started(now, started))
      && match policy
         case Private(slots) => Accounts(policy, now, occ - 1, priv, shared)
         case Shared(p) =>
           && v < |p.group| && p.group[v] < |p.size| == |priv|
           && var g := p.group[v]; var m := priv[g] - 1 + now[v].reserved - vcs[v].reserved;
              && Accounts(policy, now, occ - 1, priv[g := m], shared - Over(priv[g], p.size[g]) + Over(m, p.size[g]))
              && (vcs[v].occupancy > 0 ==> priv[g] > 0) && (priv[g] > p.size[g] ==> shared > 0)
  {
    var now := vcs[v := Credited(policy, wait, vcs[v])];
    CreditSums(policy, wait, vcs, v, occ, priv, shared);
    if vcs[v].occupancy > 0 {
      CreditKeeps(policy, wait, vcs, v);
      if policy.Shared? && Started(vcs, started) {
        StartedKept(policy, wait, vcs, started, v);
      }
    }
    if policy.Shared? {
      hide Credited;
      PoolUpdate(policy.pool, vcs, v, now[v]);
    }
  }

  class BufferState {
    const policy: Policy
    const extra: Extra
    const waitForTailCredit: bool
    const size: nat
    const heldSlots: HeldSlots
    const feedback: Feedback
    var occupancy: int
    var vc: seq<Vc>
    var privateOccupancy: seq<int>
    var sharedOccupancy: int
    /** Virtual channels whose packet has sent its head and not its tail. */
    ghost var started: set<nat>

    ghost predicate Counted()
      reads this
    {
      Accounts(policy, vc, occupancy, privateOccupancy, sharedOccupancy)
    }

    ghost predicate ExtraOk()
      reads this, heldSlots, feedback
    {
      match extra
      case Plain => true
      case Limited =>
        && heldSlots.Valid() && heldSlots.Ample() && heldSlots.vcs == |vc|
        && forall v :: 0 <= v < |vc| ==> (v in heldSlots.holders <==> CanSend(vc[v]))
      case RoundTrip =>
        && feedback.Valid() && |feedback.uncredited| == |vc|
        && forall v :: 0 <= v < |vc| ==> |feedback.uncredited[v]| == vc[v].occupancy
    }

    ghost predicate Valid()
      reads this, heldSlots, feedback
    {
      && FlowOk(policy, waitForTailCredit, vc) && Capacity(policy, |vc|) <= size
      && Counted() && ExtraOk()
      && (policy.Private? ==> extra.Plain?)
      && (policy.Shared? ==> Started(vc, started))
    }

    constructor (policy: Policy, extra: Extra, wait: bool, size: nat, vcs: nat, heldSlots: HeldSlots, feedback: Feedback)
      requires Capacity(policy, vcs) <= size && (policy.Private? ==> extra.Plain?)
      requires policy.Shared? ==> PoolOk(policy.pool) && |policy.pool.group| == vcs
      requires extra.Limited? ==> heldSlots.Valid() && heldSlots.Ample() && heldSlots.vcs == vcs && heldSlots.holders == {}
      requires extra.RoundTrip? ==> feedback.Valid() && feedback.uncredited == seq(vcs, _ => [])
      ensures Valid() && vc == seq(vcs, _ => IDLE) && started == {}
      ensures this.policy == policy && this.extra == extra && waitForTailCredit == wait && this.size == size
      ensures this.heldSlots == heldSlots && this.feedback == feedback
    {
      this.policy, this.extra, waitForTailCredit, this.size := policy, extra, wait, size;
      this.heldSlots, this.feedback := heldSlots, feedback;
      occupancy, vc, started := 0, seq(vcs, _ => IDLE), {};
      sharedOccupancy := 0;
      privateOccupancy := if policy.Shared? then seq(|policy.pool.size|, _ => 0) else [];
      EmptyCounts(policy, vcs);
    }

    /** Private: the virtual channel's own slots are taken.  Shared: no reservation, the private buffer and the pool are full. */
    predicate PoolFullFor(v: nat)
      requires Valid() && v < |vc|
      reads this, heldSlots, feedback
      ensures PoolFullFor(v) == Full(policy, vc, v)
    {
      match policy
      case Private(slots) => vc[v].occupancy >= slots
      case Shared(p) =>
        vc[v].reserved == 0 && privateOccupancy[p.group[v]] >= p.size[p.group[v]] && sharedOccupancy >= p.shared
    }

    /** Full exactly when the pool is or the virtual channel has reached the limit in force; a packet that has drained is
        never held back. */
    predicate IsFullFor(v: nat, now: int)
      requires Valid() && v < |vc|
      reads this, heldSlots, feedback
      ensures extra.Plain? ==> (IsFullFor(v, now) <==> Full(policy, vc, v))
      ensures extra.Limited? ==> (IsFullFor(v, now) <==> Full(policy, vc, v) || vc[v].occupancy >= heldSlots.maxHeld)
      ensures extra.RoundTrip? ==> (IsFullFor(v, now) <==> Full(policy, vc, v) || vc[v].occupancy >= feedback.MaxSlots(v, now))
      ensures policy.Shared? && v in started && vc[v].occupancy == 0 && (extra.Limited? ==> heldSlots.maxHeld > 0)
              ==> !IsFullFor(v, now)
    {
      || PoolFullFor(v)
      || match extra
         case Plain => false
         case Limited => vc[v].occupancy >= heldSlots.maxHeld
         case RoundTrip => vc[v].occupancy >= feedback.MaxSlots(v, now)
    }

    function PoolAvailableFor(v: nat): (n: int)
      requires Valid() && v < |vc|
      reads this, heldSlots, feedback
      ensures n == Room(policy, vc, v)
    {
      match policy
      case Private(slots) => slots - vc[v].occupancy
      case Shared(p) =>
        var g := p.group[v];
        vc[v].reserved + Max(p.size[g] - privateOccupancy[g], 0) + (p.shared - sharedOccupancy)
    }

    /** The slots a router may still use: positive exactly when the policy does not report full, and then the number of
        flits that can be sent until it does. */
    function AvailableFor(v: nat, now: int): (n: int)
      requires Valid() && v < |vc|
      reads this, heldSlots, feedback
      ensures n > 0 <==> !IsFullFor(v, now)
      ensures extra.Plain? ==> Admits(policy, waitForTailCredit, vc, v, false, 0, n)
      ensures extra.Limited? ==> Admits(policy, waitForTailCredit, vc, v, true, heldSlots.maxHeld, n)
      ensures extra.RoundTrip? ==> Admits(policy, waitForTailCredit, vc, v, true, feedback.MaxSlots(v, now), n)
    {
      RoomPositive(policy, waitForTailCredit, vc, v);
      match extra
      case Plain =>
        RoomAdmits(policy, waitForTailCredit, vc, v, false, 0);
        PoolAvailableFor(v)
      case Limited =>
        RoomAdmits(policy, waitForTailCredit, vc, v, true, heldSlots.maxHeld);
        Min(PoolAvailableFor(v), heldSlots.maxHeld - vc[v].occupancy)
      case RoundTrip =>
        RoomAdmits(policy, waitForTailCredit, vc, v, true, feedback.MaxSlots(v, now));
        Min(PoolAvailableFor(v), feedback.MaxSlots(v, now) - vc[v].occupancy)
    }

    /** What the virtual channel may hold in all.  It never goes beyond that while it is not reported full. */
    function LimitFor(v: nat, now: int): (n: int)
      requires Valid() && v < |vc|
      reads this, heldSlots, feedback
      ensures vc[v].occupancy + AvailableFor(v, now) <= n
      ensures extra.Limited? ==> n <= heldSlots.maxHeld
      ensures extra.RoundTrip? ==> n <= feedback.MaxSlots(v, now)
    {
      RoomWithin(policy, waitForTailCredit, vc, v);
      match policy
      case Private(slots) => slots
      case Shared(p) =>
        var n := p.size[p.group[v]] + p.shared;
        match extra
        case Plain => n
        case Limited => Min(n, heldSlots.maxHeld)
        case RoundTrip => Min(n, feedback.MaxSlots(v, now))
    }

    /** A virtual channel alone in the buffer can use its whole limit, but for what it lies beyond it already. */
    lemma AloneUsesLimit(v: nat, now: int)
      requires Valid() && v < |vc| && vc[v].reserved == 0 && forall w :: 0 <= w < |vc| && w != v ==> vc[w].occupancy == 0 && vc[w].reserved == 0
      ensures vc[v].occupancy + AvailableFor(v, now) == LimitFor(v, now)
    {
      RoomAlone(policy, vc, v);
    }

    /** Fails exactly when the virtual channel is in use. */
    method TakeBuffer(v: nat, tag: nat) returns (ok: bool)
      requires Valid() && v < |vc|
      modifies this`vc, heldSlots
      ensures ok <==> old(vc[v].inUseBy) < 0
      ensures ok ==> Valid() && vc == old(vc)[v := Taken(old(vc[v]), tag)] && vc[v].inUseBy == tag
      ensures !ok ==> vc == old(vc)
    {
      hide FlowOk, Started, Accounts, Capacity, HeldSlots.Valid, Feedback.Valid;
      ok := vc[v].inUseBy < 0;
      if ok {
        ghost var before := vc;
        TakeStep(policy, waitForTailCredit, vc, started, v, tag, occupancy, privateOccupancy, sharedOccupancy);
        vc := vc[v := vc[v].(inUseBy := tag, tailSent := false)];
        if extra.Limited? {
          ok := heldSlots.TakeBuffer(v);
        }
        assert forall w :: 0 <= w < |vc| && w != v ==> vc[w] == before[w];
      }
    }

    /** One slot goes back to the pool. */
    method ProcessFreeSlot(p: Pool, v: nat) returns (ok: bool)
      requires v < |p.group| && p.group[v] < |p.size| == |privateOccupancy|
      modifies this`privateOccupancy, this`sharedOccupancy
      ensures var g := p.group[v]; var n := old(privateOccupancy[g]);
        && privateOccupancy == old(privateOccupancy)[g := n - 1]
        && (ok <==> n > 0 && (n > p.size[g] ==> old(sharedOccupancy) > 0))
        && (ok ==> sharedOccupancy == old(sharedOccupancy) - Over(n, p.size[g]) + Over(n - 1, p.size[g]))
    {
      var g := p.group[v];
      privateOccupancy := privateOccupancy[g := privateOccupancy[g] - 1];
      ok := privateOccupancy[g] >= 0;
      if ok && privateOccupancy[g] >= p.size[g] {
        sharedOccupancy := sharedOccupancy - 1;
        ok := sharedOccupancy >= 0;
      }
    }

    /** All reservations of a virtual channel go back. */
    method ReleaseReserved(p: Pool, v: nat) returns (ok: bool)
      requires v < |vc| && v < |p.group| && p.group[v] < |p.size| == |privateOccupancy| && vc[v].reserved >= 0
      modifies this`vc, this`privateOccupancy, this`sharedOccupancy
      ensures old(vc[v].reserved) == 0 ==> ok && vc == old(vc)
      ensures old(vc[v].reserved) == 0 ==> privateOccupancy == old(privateOccupancy) && sharedOccupancy == old(sharedOccupancy)
      ensures ok ==> vc == old(vc)[v := old(vc[v]).(reserved := 0)]
      ensures ok ==> privateOccupancy == old(privateOccupancy)[p.group[v] := old(privateOccupancy[p.group[v]]) - old(vc[v].reserved)]
    {
      ok := true;
      while vc[v].reserved > 0
        invariant ok && v < |vc| && p.group[v] < |privateOccupancy| == |p.size|
        invariant 0 <= vc[v].reserved <= old(vc[v].reserved)
        invariant vc == old(vc)[v := old(vc[v]).(reserved := vc[v].reserved)]
        invariant privateOccupancy == old(privateOccupancy)[p.group[v] := old(privateOccupancy[p.group[v]]) - old(vc[v].reserved) + vc[v].reserved]
        invariant vc[v].reserved == old(vc[v].reserved) ==> sharedOccupancy == old(sharedOccupancy)
      {
        vc := vc[v := vc[v].(reserved := vc[v].reserved - 1)];
        ok := ProcessFreeSlot(p, v);
        if !ok {
          return;
        }
      }
    }

    /** The pool's part of a send.  Reservations never exceed one, so the tail finds none left to release. */
    method PoolSendingFlit(p: Pool, v: nat, tail: bool) returns (ok: bool)
      requires v < |vc| && v < |p.group| && p.group[v] < |p.size| == |privateOccupancy| && 0 <= vc[v].reserved <= 1
      modifies this`vc, this`privateOccupancy, this`sharedOccupancy
      ensures var g := p.group[v]; var n := old(privateOccupancy[g]); var m := n + 1 - old(vc[v].reserved);
        && vc == old(vc)[v := old(vc[v]).(reserved := 0)]
        && privateOccupancy == old(privateOccupancy)[g := m]
        && sharedOccupancy == old(sharedOccupancy) + (if m > n && m > p.size[g] then 1 else 0)
        && (ok <==> m > n && m > p.size[g] ==> sharedOccupancy <= p.shared)
    {
      ok := true;
      if vc[v].reserved > 0 {
        vc := vc[v := vc[v].(reserved := vc[v].reserved - 1)];
      } else {
        var g := p.group[v];
        privateOccupancy := privateOccupancy[g := privateOccupancy[g] + 1];
        if privateOccupancy[g] > p.size[g] {
          sharedOccupancy := sharedOccupancy + 1;
          ok := sharedOccupancy <= p.shared;
        }
      }
      if ok && tail {
        ok := ReleaseReserved(p, v);
      }
    }

    /** The counters' part of a send: fails exactly when the policy reported full. */
    method CountSend(v: nat, tail: bool) returns (ok: bool)
      requires Valid() && v < |vc|
      modifies this`occupancy, this`vc, this`privateOccupancy, this`sharedOccupancy
      ensures ok <==> !old(Full(policy, vc, v))
      ensures ok ==> vc == old(vc)[v := old(vc[v]).(occupancy := old(vc[v].occupancy) + 1, reserved := 0)]
      ensures ok ==> Accounts(policy, old(vc)[v := Sent(waitForTailCredit, old(vc[v]), tail)], occupancy, privateOccupancy, sharedOccupancy)
    {
      hide Fits, FlowOk, Full, Started, Accounts, Capacity, HeldSlots.Valid, Feedback.Valid, Over, ExtraOk;
      SendStep(policy, waitForTailCredit, vc, started, v, tail, occupancy, privateOccupancy, sharedOccupancy);
      occupancy := occupancy + 1;
      if occupancy > size {
        return false;
      }
      vc := vc[v := vc[v].(occupancy := vc[v].occupancy + 1)];
      match policy {
        case Private(slots) =>
          ok := vc[v].occupancy <= slots;
        case Shared(p) =>
          ok := PoolSendingFlit(p, v, tail);
      }
    }

    /** What the limited and feedback policies note of a send. */
    method NoteSend(v: nat, tail: bool, now: int) returns (ok: bool)
      requires v < |vc|
      requires extra.Limited? ==> heldSlots.Valid() && v < heldSlots.vcs
      requires extra.RoundTrip? ==>
        feedback.Valid() && v < |feedback.uncredited| && vc[v].occupancy == |feedback.uncredited[v]| + 1
      modifies heldSlots, feedback
      ensures !extra.Limited? ==> ok
      ensures extra.Limited? ==>
        && heldSlots.holders == (if tail then old(heldSlots.holders) - {v} else old(heldSlots.holders))
        && (v in old(heldSlots.holders) || !tail ==> heldSlots.Valid() && (heldSlots.Ample() ==> ok))
      ensures extra.RoundTrip? ==>
        && feedback.Valid() && feedback.uncredited == old(feedback.uncredited)[v := old(feedback.uncredited[v]) + [now]]
        && feedback.occupancyLimit == old(feedback.occupancyLimit) && feedback.roundTrip == old(feedback.roundTrip)
    {
      hide HeldSlots.Valid, Feedback.Valid, HeldSlots.Ample;
      ok := true;
      match extra {
        case Plain =>
        case Limited => ok := heldSlots.SendingFlit(v, tail);
        case RoundTrip => feedback.SendingFlit(v, vc[v].occupancy, now);
      }
    }

    /** Fails exactly when the policy reported full.  Nobody checks that the virtual channel was taken: on one that was
        not the counters stay right, but a limited policy then counts a packet's end too many. */
    method SendingFlit(v: nat, tail: bool, now: int) returns (ok: bool)
      requires Valid() && v < |vc|
      modifies this, heldSlots, feedback
      ensures ok ==> !old(Full(policy, vc, v))
      ensures ok ==> Counted() && Fits(policy, vc) && vc == old(vc)[v := Sent(waitForTailCredit, old(vc[v]), tail)]
      ensures old(CanSend(vc[v])) || !extra.Limited? ==> (ok <==> !old(Full(policy, vc, v)))
      ensures ok && old(CanSend(vc[v])) ==> Valid() && started == if tail then old(started) - {v} else old(started) + {v}
      ensures ok && extra.RoundTrip? ==>
        && feedback.uncredited == old(feedback.uncredited)[v := old(feedback.uncredited[v]) + [now]]
        && feedback.occupancyLimit == old(feedback.occupancyLimit) && feedback.roundTrip == old(feedback.roundTrip)
    {
      hide Fits, FlowOk, Full, Started, Accounts, Capacity, HeldSlots.Valid, HeldSlots.Ample, Feedback.Valid, Feedback.ReadingOf, PoolFullFor, IsFullFor;
      ghost var before := vc;
      SendStep(policy, waitForTailCredit, vc, started, v, tail, occupancy, privateOccupancy, sharedOccupancy);
      ok := CountSend(v, tail);
      if !ok {
        return;
      }
      ok := NoteSend(v, tail, now);
      if tail {
        vc := vc[v := vc[v].(tailSent := true)];
        if !waitForTailCredit {
          vc := vc[v := vc[v].(inUseBy := -1)];
        }
      }
      if CanSend(before[v]) {
        started := if tail then started - {v} else started + {v};
      }
      assert vc == before[v := Sent(waitForTailCredit, before[v], tail)];
    }

    /** A credit for one virtual channel.  Fails exactly when no slot of it is occupied. */
    method CreditFor(v: nat, now: int) returns (ok: bool)
      requires Valid() && v < |vc|
      modifies this, heldSlots, feedback
      ensures ok <==> old(vc[v].occupancy) > 0
      ensures ok ==> Valid() && vc == old(vc)[v := Credited(policy, waitForTailCredit, old(vc[v]))]
      ensures ok ==> started == old(started)
      ensures ok && extra.RoundTrip? ==> feedback.MeasuresAll([v], old(feedback.Readings()), now, feedback.Readings())
    {
      hide Fits, FlowOk, Full, Started, Accounts, Capacity, HeldSlots.Valid, Feedback.Valid, Over;
      ghost var before := vc;
      CreditStep(policy, waitForTailCredit, vc, started, v, occupancy, privateOccupancy, sharedOccupancy);
      if waitForTailCredit && vc[v].inUseBy < 0 {
        return false;
      }
      occupancy := occupancy - 1;
      if occupancy < 0 {
        return false;
      }
      vc := vc[v := vc[v].(occupancy := vc[v].occupancy - 1)];
      if vc[v].occupancy < 0 {
        return false;
      }
      if waitForTailCredit && vc[v].occupancy == 0 && vc[v].tailSent {
        vc := vc[v := vc[v].(inUseBy := -1)];
      }
      ok := true;
      if policy.Shared? {
        if vc[v].inUseBy >= 0 && vc[v].occupancy == 0 {
          vc := vc[v := vc[v].(reserved := vc[v].reserved + 1)];
          assert privateOccupancy == privateOccupancy[policy.pool.group[v] := privateOccupancy[policy.pool.group[v]]];
        } else {
          ok := ProcessFreeSlot(policy.pool, v);
        }
        if extra.RoundTrip? {
          feedback.FreeSlotFor(v, now);
        }
      }
      assert vc == before[v := Credited(policy, waitForTailCredit, before[v])];
    }

    /** A credit names a set of virtual channels, here in the order they are visited. */
    method ProcessCredit(vcs: seq<nat>, now: int) returns (ok: bool)
      requires Valid() && (forall k :: 0 <= k < |vcs| ==> vcs[k] < |vc|)
      requires forall k, l :: 0 <= k < l < |vcs| ==> vcs[k] != vcs[l]
      modifies this, heldSlots, feedback
      ensures ok <==> forall k :: 0 <= k < |vcs| ==> old(vc)[vcs[k]].occupancy > 0
      ensures ok ==> Valid() && started == old(started) && |vc| == |old(vc)|
      ensures ok ==> forall v :: 0 <= v < |vc| ==>
        vc[v] == if v in vcs then Credited(policy, waitForTailCredit, old(vc)[v]) else old(vc)[v]
      ensures ok && extra.RoundTrip? ==>
        feedback.Valid() && feedback.MeasuresAll(vcs, old(feedback.Readings()), now, feedback.Readings())
    {
      hide FlowOk, Started, Capacity, Counted, Credited, HeldSlots.Valid, HeldSlots.Ample, Feedback.ReadingOf, Feedback.MeasuresAll;
      ghost var before := if extra.RoundTrip? then feedback.Readings() else [];
      if extra.RoundTrip? {
        feedback.NoneMeasured(now);
      }
      var k := 0;
      while k < |vcs|
        invariant k <= |vcs| && Valid() && started == old(started) && |vc| == |old(vc)|
        invariant forall l :: 0 <= l < k ==> old(vc)[vcs[l]].occupancy > 0
        invariant forall v :: 0 <= v < |vc| ==>
          vc[v] == if v in vcs[..k] then Credited(policy, waitForTailCredit, old(vc)[v]) else old(vc)[v]
        invariant extra.RoundTrip? ==> feedback.MeasuresAll(vcs[..k], before, now, feedback.Readings())
      {
        assert vcs[k] !in vcs[..k];
        ghost var was := if extra.RoundTrip? then feedback.Readings() else [];
        ok := CreditFor(vcs[k], now);
        if !ok {
          return;
        }
        if extra.RoundTrip? {
          feedback.MeasuresOneMore(vcs[..k], vcs[k], before, now, was, feedback.Readings());
        }
        assert vcs[..k + 1] == vcs[..k] + [vcs[k]];
        k := k + 1;
      }
      assert vcs[..k] == vcs;
      ok := true;
    }
  }
}
