/** Slot accounting of the credit flow control.

A sender keeps, for every virtual channel of the buffer it feeds, how many slots are occupied and
whether one slot is reserved.  Under the private policy each virtual channel has its own slots.
Under the shared policy groups of virtual channels have private slots, and whatever a group holds
beyond those comes out of one shared pool.
*/
module FlowControl {
  import opened Arith
  import opened Sums

  /** One virtual channel as the sender sees it.  inUseBy is negative when no packet holds it. */
  datatype Vc = Vc(occupancy: int, inUseBy: int, tailSent: bool, reserved: int)

  const IDLE := Vc(0, -1, false, 0)

  /** Virtual channel v draws on private buffer group[v] of size size[group[v]], then on the shared slots. */
  datatype Pool = Pool(group: seq<nat>, size: seq<nat>, shared: nat)

  datatype Policy = Private(slots: nat) | Shared(pool: Pool)

  ghost predicate PoolOk(p: Pool) {
    forall v :: 0 <= v < |p.group| ==> p.group[v] < |p.size|
  }

  ghost function Held(vcs: seq<Vc>): seq<int> {
    seq(|vcs|, v requires 0 <= v < |vcs| => vcs[v].occupancy + vcs[v].reserved)
  }

  ghost function Occupied(vcs: seq<Vc>): seq<int> {
    seq(|vcs|, v requires 0 <= v < |vcs| => vcs[v].occupancy)
  }

  /** What each private buffer's group holds. */
  ghost function GroupHeld(p: Pool, vcs: seq<Vc>): seq<int>
    requires |p.group| == |vcs|
  {
    seq(|p.size|, g requires 0 <= g < |p.size| => GroupSum(p.group, Held(vcs), g))
  }

  ghost function Over(a: int, b: int): int {
    if a > b then a - b else 0
  }

  ghost function Overs(held: seq<int>, size: seq<nat>): seq<int>
    requires |held| == |size|
  {
    seq(|held|, g requires 0 <= g < |held| => Over(held[g], size[g]))
  }

  /** The slots all groups together hold beyond their private buffers. */
  ghost function Excess(p: Pool, vcs: seq<Vc>): int
    requires |p.group| == |vcs|
  {
    Sum(Overs(GroupHeld(p, vcs), p.size))
  }

  ghost predicate Fits(policy: Policy, vcs: seq<Vc>) {
    match policy
    case Private(slots) => forall v :: 0 <= v < |vcs| ==> vcs[v].occupancy <= slots && vcs[v].reserved == 0
    case Shared(p) => PoolOk(p) && |p.group| == |vcs| && Excess(p, vcs) <= p.shared
  }

  /** What the policy reports as full. */
  ghost predicate Full(policy: Policy, vcs: seq<Vc>, v: nat)
    requires v < |vcs| && Fits(policy, vcs)
  {
    match policy
    case Private(slots) => vcs[v].occupancy >= slots
    case Shared(p) =>
      vcs[v].reserved == 0 && GroupHeld(p, vcs)[p.group[v]] >= p.size[p.group[v]] && Excess(p, vcs) >= p.shared
  }

  ghost predicate VcOk(wait: bool, vc: Vc) {
    && vc.occupancy >= 0 && 0 <= vc.reserved <= 1
    && (vc.reserved == 1 ==> vc.occupancy == 0 && vc.inUseBy >= 0 && !vc.tailSent)
    && (wait && vc.inUseBy < 0 ==> vc.occupancy == 0)
    && (wait && vc.inUseBy >= 0 && vc.tailSent ==> vc.occupancy > 0)
    && (!wait && vc.inUseBy >= 0 ==> !vc.tailSent)
  }

  ghost predicate FlowOk(policy: Policy, wait: bool, vcs: seq<Vc>) {
    && Fits(policy, vcs)
    && (forall v :: 0 <= v < |vcs| ==> VcOk(wait, vcs[v]))
  }

  /** Nothing is held at the start. */
  lemma EmptyCounts(policy: Policy, vcs: nat)
    requires policy.Shared? ==> PoolOk(policy.pool) && |policy.pool.group| == vcs
    ensures var s := seq(vcs, _ => IDLE); Sum(Occupied(s)) == 0 && forall wait :: FlowOk(policy, wait, s)
    ensures policy.Shared? ==> var s := seq(vcs, _ => IDLE);
      GroupHeld(policy.pool, s) == seq(|policy.pool.size|, _ => 0) && Excess(policy.pool, s) == 0
  {
    var s := seq(vcs, _ => IDLE);
    SumOfSame(Occupied(s), 0);
    if policy.Shared? {
      var p := policy.pool;
      var held := GroupHeld(p, s);
      forall g | 0 <= g < |held|
        ensures held[g] == 0
      {
        GroupOfZeros(p.group, Held(s), g);
      }
      SumOfSame(Overs(held, p.size), 0);
    }
  }

  // ---- the three steps of the sender ----

  ghost function Taken(vc: Vc, tag: nat): Vc {
    vc.(inUseBy := tag, tailSent := false)
  }

  /** A flit leaves.  A reserved slot is used up first; the tail frees the virtual channel unless it waits for credit. */
  ghost function Sent(wait: bool, vc: Vc, tail: bool): Vc {
    Vc(vc.occupancy + 1, if tail && !wait then -1 else vc.inUseBy, vc.tailSent || tail, 0)
  }

  /** A credit arrives.  A packet still being sent keeps its last slot as a reservation under a shared policy. */
  ghost function Credited(policy: Policy, wait: bool, vc: Vc): Vc {
    var inUseBy := if wait && vc.occupancy == 1 && vc.tailSent then -1 else vc.inUseBy;
    Vc(vc.occupancy - 1, inUseBy, vc.tailSent,
       if policy.Shared? && inUseBy >= 0 && vc.occupancy == 1 then vc.reserved + 1 else vc.reserved)
  }

  ghost predicate CanSend(vc: Vc) {
    vc.inUseBy >= 0 && !vc.tailSent
  }

  lemma OversUpdate(held: seq<int>, size: seq<nat>, g: nat, x: int)
    requires |held| == |size| && g < |held|
    ensures Sum(Overs(held[g := x], size)) == Sum(Overs(held, size)) - Over(held[g], size[g]) + Over(x, size[g])
  {
    assert Overs(held[g := x], size) == Overs(held, size)[g := Over(x, size[g])];
    SumUpdate(Overs(held, size), g, Over(x, size[g]));
  }

  lemma HeldUpdate(vcs: seq<Vc>, v: nat, vc: Vc)
    requires v < |vcs|
    ensures Held(vcs[v := vc]) == Held(vcs)[v := vc.occupancy + vc.reserved]
    ensures Occupied(vcs[v := vc]) == Occupied(vcs)[v := vc.occupancy]
  {
  }

  /** Changing one virtual channel moves its own group's count, and the excess by what that group moves past its size. */
  lemma PoolUpdate(p: Pool, vcs: seq<Vc>, v: nat, vc: Vc)
    requires PoolOk(p) && |p.group| == |vcs| && v < |vcs|
    ensures var g := p.group[v]; var held := GroupHeld(p, vcs);
      var x := held[g] + vc.occupancy + vc.reserved - vcs[v].occupancy - vcs[v].reserved;
      && GroupHeld(p, vcs[v := vc]) == held[g := x]
      && Excess(p, vcs[v := vc]) == Excess(p, vcs) - Over(held[g], p.size[g]) + Over(x, p.size[g])
  {
    var g, held := p.group[v], GroupHeld(p, vcs);
    var x := held[g] + vc.occupancy + vc.reserved - vcs[v].occupancy - vcs[v].reserved;
    HeldUpdate(vcs, v, vc);
    var now := GroupHeld(p, vcs[v := vc]);
    forall h | 0 <= h < |now|
      ensures now[h] == held[g := x][h]
    {
      GroupSumUpdate(p.group, Held(vcs), v, vc.occupancy + vc.reserved, h);
    }
    assert now == held[g := x];
    OversUpdate(held, p.size, g, x);
  }

  lemma TakeKeeps(policy: Policy, wait: bool, vcs: seq<Vc>, v: nat, tag: nat)
    requires FlowOk(policy, wait, vcs) && v < |vcs| && vcs[v].inUseBy < 0
    ensures FlowOk(policy, wait, vcs[v := Taken(vcs[v], tag)])
  {
    if policy.Shared? {
      PoolUpdate(policy.pool, vcs, v, Taken(vcs[v], tag));
    }
  }

  lemma TakenNotFull(policy: Policy, wait: bool, vcs: seq<Vc>, v: nat, tag: nat)
    requires FlowOk(policy, wait, vcs) && v < |vcs| && vcs[v].inUseBy < 0
    ensures FlowOk(policy, wait, vcs[v := Taken(vcs[v], tag)])
    ensures Full(policy, vcs[v := Taken(vcs[v], tag)], v) == Full(policy, vcs, v)
  {
    TakeKeeps(policy, wait, vcs, v, tag);
    if policy.Shared? {
      PoolUpdate(policy.pool, vcs, v, Taken(vcs[v], tag));
    }
  }

  /** Sending when not full keeps every limit. */
  lemma SendKeeps(policy: Policy, wait: bool, vcs: seq<Vc>, v: nat, tail: bool)
    requires FlowOk(policy, wait, vcs) && v < |vcs| && !Full(policy, vcs, v)
    ensures Fits(policy, vcs[v := Sent(wait, vcs[v], tail)])
    ensures CanSend(vcs[v]) ==> FlowOk(policy, wait, vcs[v := Sent(wait, vcs[v], tail)])
  {
    if policy.Shared? {
      PoolUpdate(policy.pool, vcs, v, Sent(wait, vcs[v], tail));
    }
  }

  /** The virtual channels after k flits were sent on v with no credit in between. */
  ghost function AfterSends(wait: bool, vcs: seq<Vc>, v: nat, k: nat): (r: seq<Vc>)
    requires v < |vcs|
    ensures |r| == |vcs|
  {
    if k == 0 then vcs
    else
      var s := AfterSends(wait, vcs, v, k - 1);
      s[v := Sent(wait, s[v], false)]
  }

  lemma {:induction false} AfterSendsIs(wait: bool, vcs: seq<Vc>, v: nat, k: nat)
    requires v < |vcs|
    ensures AfterSends(wait, vcs, v, k) ==
      vcs[v := vcs[v].(occupancy := vcs[v].occupancy + k, reserved := if k == 0 then vcs[v].reserved else 0)]
  {
    if k > 0 {
      AfterSendsIs(wait, vcs, v, k - 1);
    }
  }

  /** The slots v may still use. */
  ghost function Room(policy: Policy, vcs: seq<Vc>, v: nat): int
    requires v < |vcs| && Fits(policy, vcs)
  {
    match policy
    case Private(slots) => slots - vcs[v].occupancy
    case Shared(p) =>
      var g := p.group[v];
      vcs[v].reserved + Over(p.size[g], GroupHeld(p, vcs)[g]) + (p.shared - Excess(p, vcs))
  }

  /** Exactly that many flits can be sent before v is reported full. */
  lemma RoomExactly(policy: Policy, wait: bool, vcs: seq<Vc>, v: nat, k: nat)
    requires FlowOk(policy, wait, vcs) && v < |vcs| && k <= Room(policy, vcs, v)
    ensures Fits(policy, AfterSends(wait, vcs, v, k))
    ensures Full(policy, AfterSends(wait, vcs, v, k), v) <==> k == Room(policy, vcs, v)
  {
    AfterSendsIs(wait, vcs, v, k);
    assert VcOk(wait, vcs[v]);
    var vc := AfterSends(wait, vcs, v, k)[v];
    if policy.Shared? {
      PoolUpdate(policy.pool, vcs, v, vc);
    }
  }

  /** The flits that fit on v with those it holds never exceed what v can hold alone. */
  lemma RoomWithin(policy: Policy, wait: bool, vcs: seq<Vc>, v: nat)
    requires FlowOk(policy, wait, vcs) && v < |vcs|
    ensures 0 <= Room(policy, vcs, v)
    ensures vcs[v].occupancy + Room(policy, vcs, v) <=
      match policy case Private(slots) => slots case Shared(p) => p.size[p.group[v]] + p.shared
  {
    if policy.Shared? {
      var p := policy.pool;
      assert forall w :: 0 <= w < |vcs| ==> VcOk(wait, vcs[w]);
      GroupSumAtLeast(p.group, Held(vcs), v);
      SumAtLeast(Overs(GroupHeld(p, vcs), p.size), p.group[v]);
    }
  }

  lemma RoomPositive(policy: Policy, wait: bool, vcs: seq<Vc>, v: nat)
    requires FlowOk(policy, wait, vcs) && v < |vcs|
    ensures Full(policy, vcs, v) <==> Room(policy, vcs, v) == 0
    ensures 0 <= Room(policy, vcs, v)
  {
    assert VcOk(wait, vcs[v]);
  }

  lemma RoomAlone(policy: Policy, vcs: seq<Vc>, v: nat)
    requires Fits(policy, vcs) && v < |vcs| && vcs[v].reserved == 0 && vcs[v].occupancy >= 0
    requires forall w :: 0 <= w < |vcs| && w != v ==> vcs[w].occupancy == 0 && vcs[w].reserved == 0
    ensures vcs[v].occupancy + Room(policy, vcs, v) ==
      match policy case Private(slots) => slots case Shared(p) => p.size[p.group[v]] + p.shared
  {
    if policy.Shared? {
      var p := policy.pool;
      var rest := vcs[v := vcs[v].(occupancy := 0)];
      EmptyCounts(policy, |vcs|);
      assert Held(rest) == Held(seq(|vcs|, _ => IDLE));
      assert GroupHeld(p, rest) == GroupHeld(p, seq(|vcs|, _ => IDLE));
      PoolUpdate(p, rest, v, vcs[v]);
      assert rest[v := vcs[v]] == vcs;
    }
  }

  /** n further flits on v are accepted while the other virtual channels and the limit stay as they are, and then v is
      reported full or has reached the limit. */
  ghost predicate Admits(policy: Policy, wait: bool, vcs: seq<Vc>, v: nat, limited: bool, limit: int, n: int)
    requires v < |vcs|
  {
    forall k: nat :: k <= n ==>
      && Fits(policy, AfterSends(wait, vcs, v, k))
      && (Full(policy, AfterSends(wait, vcs, v, k), v) || (limited && AfterSends(wait, vcs, v, k)[v].occupancy >= limit) <==> k == n)
  }

  lemma RoomAdmits(policy: Policy, wait: bool, vcs: seq<Vc>, v: nat, limited: bool, limit: int)
    requires FlowOk(policy, wait, vcs) && v < |vcs|
    ensures var room := Room(policy, vcs, v);
      Admits(policy, wait, vcs, v, limited, limit, if limited then Min(room, limit - vcs[v].occupancy) else room)
  {
    hide Full, Fits, Room;
    var room := Room(policy, vcs, v);
    var n := if limited then Min(room, limit - vcs[v].occupancy) else room;
    forall k: nat | k <= n
      ensures Fits(policy, AfterSends(wait, vcs, v, k))
      ensures Full(policy, AfterSends(wait, vcs, v, k), v) || (limited && AfterSends(wait, vcs, v, k)[v].occupancy >= limit) <==> k == n
    {
      RoomExactly(policy, wait, vcs, v, k);
      AfterSendsIs(wait, vcs, v, k);
    }
  }

  /** Sending when full breaks them: the overflow checks catch exactly the sends that ignored fullness. */
  lemma SendBreaks(policy: Policy, wait: bool, vcs: seq<Vc>, v: nat, tail: bool)
    requires FlowOk(policy, wait, vcs) && v < |vcs| && Full(policy, vcs, v)
    ensures !Fits(policy, vcs[v := Sent(wait, vcs[v], tail)])
  {
    var now := vcs[v := Sent(wait, vcs[v], tail)];
    match policy
    case Private(slots) => assert now[v].occupancy > slots;
    case Shared(p) => PoolUpdate(p, vcs, v, now[v]);
  }

  lemma CreditKeeps(policy: Policy, wait: bool, vcs: seq<Vc>, v: nat)
    requires FlowOk(policy, wait, vcs) && v < |vcs| && vcs[v].occupancy > 0
    ensures FlowOk(policy, wait, vcs[v := Credited(policy, wait, vcs[v])])
  {
    if policy.Shared? {
      PoolUpdate(policy.pool, vcs, v, Credited(policy, wait, vcs[v]));
    }
  }

  // ---- what the limits mean for the buffer ----

  ghost function Capacity(policy: Policy, vcs: nat): int {
    match policy
    case Private(slots) => vcs * slots
    case Shared(p) => Sum(p.size) + p.shared
  }

  /** All occupied slots together never exceed what the policy divides up. */
  lemma NeverOverflows(policy: Policy, vcs: seq<Vc>)
    requires Fits(policy, vcs) && forall v :: 0 <= v < |vcs| ==> vcs[v].reserved >= 0
    ensures Sum(Occupied(vcs)) <= Capacity(policy, |vcs|)
  {
    match policy
    case Private(slots) =>
      var full := seq(|vcs|, _ => slots);
      SumMono(Occupied(vcs), full);
      SumOfSame(full, slots);
    case Shared(p) =>
      var held := GroupHeld(p, vcs);
      SumMono(Occupied(vcs), Held(vcs));
      GroupSumsAddUp(p.group, Held(vcs), held);
      var bound := seq(|held|, g requires 0 <= g < |held| => p.size[g] + Over(held[g], p.size[g]));
      SumMono(held, bound);
      SumAdd(p.size, Overs(held, p.size), bound);
  }

  /** A packet between head and tail holds a slot or a reservation. */
  ghost predicate Started(vcs: seq<Vc>, started: set<nat>) {
    forall v :: v in started ==> v < |vcs| && CanSend(vcs[v]) && vcs[v].occupancy + vcs[v].reserved >= 1
  }

  lemma StartedKept(policy: Policy, wait: bool, vcs: seq<Vc>, started: set<nat>, v: nat)
    requires FlowOk(policy, wait, vcs) && policy.Shared? && Started(vcs, started) && v < |vcs|
    ensures CanSend(vcs[v]) ==> Started(vcs[v := Sent(wait, vcs[v], false)], started + {v})
    ensures CanSend(vcs[v]) ==> Started(vcs[v := Sent(wait, vcs[v], true)], started - {v})
    ensures vcs[v].occupancy > 0 ==> Started(vcs[v := Credited(policy, wait, vcs[v])], started)
    ensures vcs[v].inUseBy < 0 ==> forall tag: nat :: Started(vcs[v := Taken(vcs[v], tag)], started)
  {
  }

  /** So a drained packet is never reported full, whatever the other virtual channels hold. */
  lemma DrainedIsNeverFull(policy: Policy, wait: bool, vcs: seq<Vc>, started: set<nat>, v: nat)
    requires FlowOk(policy, wait, vcs) && policy.Shared? && Started(vcs, started)
    requires v in started && vcs[v].occupancy == 0
    ensures vcs[v].reserved == 1 && !Full(policy, vcs, v)
  {
  }

  // ---- how the configuration divides the buffer ----

  /** The size of the whole buffer. */
  function BufSize(bufSize: int, vcs: int, vcBufSize: int): int {
    if bufSize < 0 then vcs * vcBufSize else bufSize
  }

  function PrivateSlots(bufSize: int, vcs: nat, vcBufSize: int): int
    requires vcs > 0
  {
    if bufSize <= 0 then vcBufSize else bufSize / vcs
  }

  /** The private slots fit in the buffer exactly when buf_size is not zero.  With zero the private policy falls
      back to vc_buf_size but the buffer has no slots at all. */
  lemma PrivateFits(bufSize: int, vcs: nat, vcBufSize: int)
    requires vcs > 0 && PrivateSlots(bufSize, vcs, vcBufSize) > 0
    ensures vcs * PrivateSlots(bufSize, vcs, vcBufSize) <= BufSize(bufSize, vcs, vcBufSize) <==> bufSize != 0
    ensures PrivateSlots(0, vcs, vcBufSize) == vcBufSize && BufSize(0, vcs, vcBufSize) == 0
  {
    var slots := PrivateSlots(bufSize, vcs, vcBufSize);
    assert vcs * slots > 0;
  }

  /** The first virtual channel of private buffer i when the ranges are left to the default. */
  function StartVc(i: nat, vcs: nat, bufs: nat): nat
    requires bufs > 0
  {
    Quot(i * vcs, bufs)
  }

  lemma QuotNext(a: nat, d: nat)
    requires d > 0
    ensures Quot(a + d, d) == Quot(a, d) + 1
  {
    hide Quot, Rem;
    QuotRem(a, d);
    assert (Quot(a, d) + 1) * d == Quot(a, d) * d + d;
    QuotRemUnique(a + d, d, Quot(a, d) + 1, Rem(a, d));
  }

  lemma QuotMono(a: nat, b: nat, d: nat)
    requires a <= b && d > 0
    ensures Quot(a, d) <= Quot(b, d)
  {
    hide Quot, Rem;
    QuotRem(a, d);
    QuotRem(b, d);
    if Quot(b, d) < Quot(a, d) {
      assert (Quot(b, d) + 1) * d == Quot(b, d) * d + d;
      MulMono(Quot(b, d) + 1, Quot(a, d), d);
    }
  }

  lemma StartsClimb(i: nat, vcs: nat, bufs: nat)
    requires 0 < bufs <= vcs && i < bufs
    ensures StartVc(i, vcs, bufs) < StartVc(i + 1, vcs, bufs) <= vcs
    ensures StartVc(0, vcs, bufs) == 0 && StartVc(bufs, vcs, bufs) == vcs
  {
    hide Quot, Rem;
    QuotRemUnique(0, bufs, 0, 0);
    assert 0 * vcs == 0;
    assert bufs * vcs == vcs * bufs;
    QuotRemUnique(bufs * vcs, bufs, vcs, 0);
    assert (i + 1) * vcs == i * vcs + vcs;
    QuotMono(i * vcs + bufs, (i + 1) * vcs, bufs);
    QuotNext(i * vcs, bufs);
    MulMono(i + 1, bufs, vcs);
    QuotMono((i + 1) * vcs, bufs * vcs, bufs);
  }

  /** The ranges are as even as they can be: none is a whole virtual channel off the average. */
  lemma StartsEven(i: nat, vcs: nat, bufs: nat)
    requires 0 < bufs
    ensures vcs - bufs < bufs * (StartVc(i + 1, vcs, bufs) - StartVc(i, vcs, bufs)) < vcs + bufs
  {
    hide Quot, Rem;
    QuotRem(i * vcs, bufs);
    QuotRem((i + 1) * vcs, bufs);
    assert (i + 1) * vcs == i * vcs + vcs;
    var a, b := StartVc(i, vcs, bufs), StartVc(i + 1, vcs, bufs);
    assert bufs * (b - a) == b * bufs - a * bufs;
  }

  ghost predicate RangeOk(vcs: nat, first: int, last: int) {
    0 <= first <= last < vcs
  }

  /** The private buffers serve non-empty ranges of existing virtual channels that do not overlap. */
  ghost predicate RangesOk(vcs: nat, first: seq<int>, last: seq<int>)
    requires |first| == |last|
  {
    && (forall i :: 0 <= i < |first| ==> RangeOk(vcs, first[i], last[i]))
    && (forall i, j :: 0 <= i < j < |first| ==> last[i] < first[j] || last[j] < first[i])
  }

  /** group says for each virtual channel which of the first n ranges it lies in; -1 for none. */
  ghost predicate Grouped(first: seq<int>, last: seq<int>, n: nat, group: seq<int>)
    requires n <= |first| == |last|
  {
    forall v :: 0 <= v < |group| ==>
      && -1 <= group[v] < n
      && (group[v] >= 0 ==> first[group[v]] <= v <= last[group[v]])
      && (forall i :: 0 <= i < n && first[i] <= v <= last[i] ==> group[v] == i)
  }

  lemma NoMeeting(vcs: nat, first: seq<int>, last: seq<int>, n: nat, group: seq<int>)
    requires n < |first| == |last| && |group| == vcs && Grouped(first, last, n, group) && RangesOk(vcs, first[..n], last[..n])
    requires RangeOk(vcs, first[n], last[n]) && forall w :: first[n] <= w <= last[n] ==> group[w] == -1
    ensures RangesOk(vcs, first[..n + 1], last[..n + 1])
  {
    forall i | 0 <= i < n
      ensures last[i] < first[n] || last[n] < first[i]
    {
      assert RangeOk(vcs, first[..n][i], last[..n][i]);
      var w := if first[i] < first[n] then first[n] else first[i];
      assert first[n] <= w <= last[n] ==> group[w] == -1;
      assert 0 <= w < vcs && first[i] <= w <= last[i] ==> group[w] == i;
    }
    forall i, j | 0 <= i < j < n
      ensures last[i] < first[j] || last[j] < first[i]
    {
      assert last[..n][i] < first[..n][j] || last[..n][j] < first[..n][i];
    }
    assert forall i :: 0 <= i < n ==> RangeOk(vcs, first[..n][i], last[..n][i]);
  }

  /** Enters one range.  Fails when it is empty, leaves the virtual channels or meets an earlier one. */
  method AddRange(vcs: nat, first: seq<int>, last: seq<int>, n: nat, group: seq<int>) returns (ok: bool, group1: seq<int>)
    requires n < |first| == |last| && |group| == vcs && Grouped(first, last, n, group) && RangesOk(vcs, first[..n], last[..n])
    ensures ok <==> RangesOk(vcs, first[..n + 1], last[..n + 1])
    ensures ok ==> |group1| == vcs && Grouped(first, last, n + 1, group1)
  {
    group1 := group;
    if first[n] > last[n] {
      assert !RangeOk(vcs, first[..n + 1][n], last[..n + 1][n]);
      return false, group1;
    }
    var v := first[n];
    while v <= last[n]
      invariant first[n] <= v <= last[n] + 1 && |group1| == vcs
      invariant v > first[n] ==> 0 <= first[n] && v <= vcs
      invariant forall w :: 0 <= w < vcs ==> group1[w] == if first[n] <= w < v then n else group[w]
      invariant forall w :: first[n] <= w < v ==> group[w] == -1
    {
      if v < 0 || v >= vcs {
        assert !RangeOk(vcs, first[..n + 1][n], last[..n + 1][n]);
        return false, group1;
      }
      if group1[v] >= 0 {
        var i := group[v];
        assert first[..n + 1][i] <= v <= last[..n + 1][i] && first[..n + 1][n] <= v <= last[..n + 1][n];
        return false, group1;
      }
      group1 := group1[v := n];
      v := v + 1;
    }
    ok := true;
    NoMeeting(vcs, first, last, n, group);
  }

  lemma PrefixOk(vcs: nat, first: seq<int>, last: seq<int>, n: nat)
    requires n <= |first| == |last| && !RangesOk(vcs, first[..n], last[..n])
    ensures !RangesOk(vcs, first, last)
  {
    if i :| 0 <= i < n && !RangeOk(vcs, first[..n][i], last[..n][i]) {
      assert !RangeOk(vcs, first[i], last[i]);
    }
  }

  /** Maps virtual channels to private buffers and finds the size of the shared pool.  The assertions hold exactly when
      the ranges fit and the private buffers are no larger than the whole; nothing is lost or handed out twice. */
  method BuildMap(bufSize: int, vcs: nat, size: seq<nat>, first: seq<int>, last: seq<int>)
    returns (ok: bool, group: seq<int>, shared: int)
    requires |size| == |first| == |last|
    ensures ok <==> RangesOk(vcs, first, last) && Sum(size) <= bufSize
    ensures ok ==> |group| == vcs && Grouped(first, last, |first|, group) && shared >= 0 && Sum(size) + shared == bufSize
  {
    group := seq(vcs, _ => -1);
    shared := bufSize;
    ok := true;
    var i := 0;
    assert size[..0] == [] && first[..0] == [];
    while i < |size|
      invariant 0 <= i <= |size| && ok && |group| == vcs && Grouped(first, last, i, group)
      invariant RangesOk(vcs, first[..i], last[..i]) && shared == bufSize - Sum(size[..i])
    {
      shared := shared - size[i];
      assert size[..i + 1][..i] == size[..i];
      ok, group := AddRange(vcs, first, last, i, group);
      if !ok {
        PrefixOk(vcs, first, last, i + 1);
        return;
      }
      i := i + 1;
    }
    assert size[..i] == size && first[..i] == first && last[..i] == last;
    ok := shared >= 0;
  }

  lemma {:induction false} StartsOrdered(i: nat, j: nat, vcs: nat, bufs: nat)
    requires 0 < bufs <= vcs && i <= j <= bufs
    ensures StartVc(i, vcs, bufs) <= StartVc(j, vcs, bufs)
    decreases j
  {
    if i < j {
      StartsOrdered(i, j - 1, vcs, bufs);
      StartsClimb(j - 1, vcs, bufs);
    }
  }

  /** The default ranges fit, and every virtual channel lies in one of them (DefaultCovers). */
  lemma {:induction false} DefaultRanges(vcs: nat, bufs: nat, first: seq<int>, last: seq<int>)
    requires 0 < bufs <= vcs && |first| == |last| == bufs
    requires forall i :: 0 <= i < bufs ==> first[i] == StartVc(i, vcs, bufs) && last[i] == StartVc(i + 1, vcs, bufs) - 1
    ensures RangesOk(vcs, first, last)
  {
    hide StartVc;
    forall i | 0 <= i < bufs
      ensures RangeOk(vcs, first[i], last[i])
    {
      StartsClimb(i, vcs, bufs);
      StartsOrdered(0, i, vcs, bufs);
    }
    forall i, j | 0 <= i < j < bufs
      ensures last[i] < first[j]
    {
      StartsOrdered(i + 1, j, vcs, bufs);
    }
  }

  lemma {:induction false} RangeOf(v: nat, vcs: nat, bufs: nat, n: nat) returns (i: nat)
    requires 0 < bufs <= vcs && n <= bufs && v < StartVc(n, vcs, bufs)
    ensures i < n && StartVc(i, vcs, bufs) <= v < StartVc(i + 1, vcs, bufs)
    decreases n
  {
    StartsClimb(0, vcs, bufs);
    if StartVc(n - 1, vcs, bufs) <= v {
      i := n - 1;
    } else {
      i := RangeOf(v, vcs, bufs, n - 1);
    }
  }

  lemma DefaultCovers(vcs: nat, bufs: nat, first: seq<int>, last: seq<int>, group: seq<int>, v: nat)
    requires 0 < bufs <= vcs && |first| == |last| == bufs && v < vcs == |group| && Grouped(first, last, bufs, group)
    requires forall i :: 0 <= i < bufs ==> first[i] == StartVc(i, vcs, bufs) && last[i] == StartVc(i + 1, vcs, bufs) - 1
    ensures group[v] >= 0
  {
    hide StartVc;
    StartsClimb(bufs - 1, vcs, bufs);
    var i := RangeOf(v, vcs, bufs, bufs);
    assert first[i] <= v <= last[i];
  }
}
