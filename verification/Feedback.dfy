/** The round-trip feedback of the feedback and simple-feedback sharing policies.

The policy measures how long credits take to come back and shrinks a virtual channel's occupancy
limit by one slot for every cycle above the minimum.  The plain form times every flit.  The simple
form times one probe flit at a time and counts the credits that must come back before the probe's.
*/
module FeedbackLimits {
  import opened Arith
  import opened Sums

  function Shift(x: int, n: nat): int {
    if n == 0 then x else 2 * Shift(x, n - 1)
  }

  /** Division rounding down, as an arithmetic right shift does. */
  function ShiftDown(x: int, n: nat): int {
    if n == 0 then x else ShiftDown(x, n - 1) / 2
  }

  /** The moving average after one more sample.  A negative average means there is none yet. */
  function ComputeRtt(rtt: int, scale: nat, sample: int): int {
    if rtt < 0 then sample else ShiftDown(Shift(rtt, scale) + sample - rtt, scale)
  }

  function ComputeLimit(minLatency: nat, offset: int, rtt: int): (limit: int)
    ensures limit >= 1
  {
    Max(2 * minLatency - rtt + offset, 1)
  }

  /** At the minimum round trip the limit is the offset; every further cycle costs one slot, down to one. */
  lemma LimitByCycle(minLatency: nat, offset: int, rtt: int)
    ensures rtt == minLatency + minLatency && offset >= 1 ==> ComputeLimit(minLatency, offset, rtt) == offset
    ensures ComputeLimit(minLatency, offset, rtt) > 1 ==>
      ComputeLimit(minLatency, offset, rtt + 1) == ComputeLimit(minLatency, offset, rtt) - 1
    ensures ComputeLimit(minLatency, offset, rtt) == 1 ==> ComputeLimit(minLatency, offset, rtt + 1) == 1
  {
  }

  lemma {:induction false} ShiftDownMono(x: int, y: int, n: nat)
    requires x <= y
    ensures ShiftDown(x, n) <= ShiftDown(y, n)
  {
    if n > 0 {
      ShiftDownMono(x, y, n - 1);
    }
  }

  lemma {:induction false} ShiftedDouble(y: int, n: nat)
    ensures ShiftDown(2 * y, n + 1) == ShiftDown(y, n)
  {
    if n > 0 {
      ShiftedDouble(y, n - 1);
    }
  }

  lemma {:induction false} ShiftRoundTrip(x: int, n: nat)
    ensures ShiftDown(Shift(x, n), n) == x
  {
    if n > 0 {
      ShiftedDouble(Shift(x, n - 1), n - 1);
      ShiftRoundTrip(x, n - 1);
    }
  }

  lemma {:induction false} ShiftGap(x: int, y: int, n: nat)
    ensures x <= y ==> y - x <= Shift(y, n) - Shift(x, n)
    ensures y <= x ==> x - y <= Shift(x, n) - Shift(y, n)
  {
    if n > 0 {
      ShiftGap(x, y, n - 1);
    }
  }

  /** The average moves toward the sample and never past it. */
  lemma {:induction false} AverageMovesToSample(rtt: int, scale: nat, sample: int)
    requires rtt >= 0
    ensures sample >= rtt ==> rtt <= ComputeRtt(rtt, scale, sample) <= sample
    ensures sample <= rtt ==> sample <= ComputeRtt(rtt, scale, sample) <= rtt
  {
    ShiftRoundTrip(rtt, scale);
    ShiftRoundTrip(sample, scale);
    ShiftGap(rtt, sample, scale);
    var y := Shift(rtt, scale) + sample - rtt;
    if sample >= rtt {
      ShiftDownMono(Shift(rtt, scale), y, scale);
      ShiftDownMono(y, Shift(sample, scale), scale);
    } else {
      ShiftDownMono(y, Shift(rtt, scale), scale);
      ShiftDownMono(Shift(sample, scale), y, scale);
    }
  }

  lemma {:induction false} ShiftIsProduct(x: int, n: nat)
    ensures Shift(x, n) == Shift(1, n) * x && Shift(1, n) > 0
  {
    if n > 0 {
      ShiftIsProduct(x, n - 1);
      MulAssoc(2, Shift(1, n - 1), x);
    }
  }

  lemma HalfOfQuotient(p: nat, x: int, y: int, z: int)
    requires p * y <= x < p * (y + 1) && (y == 2 * z || y == 2 * z + 1)
    ensures (2 * p) * z <= x < (2 * p) * (z + 1)
  {
    var a := p * z;
    assert p * (2 * z) == 2 * a && p * (2 * z + 1) == 2 * a + p && p * (2 * z + 2) == 2 * a + 2 * p;
    assert (2 * p) * z == 2 * a && (2 * p) * (z + 1) == 2 * a + 2 * p;
  }

  lemma {:induction false} ShiftDownIsQuotient(x: int, n: nat)
    ensures Shift(1, n) * ShiftDown(x, n) <= x < Shift(1, n) * (ShiftDown(x, n) + 1)
  {
    if n > 0 {
      ShiftDownIsQuotient(x, n - 1);
      ShiftIsProduct(1, n - 1);
      HalfOfQuotient(Shift(1, n - 1), x, ShiftDown(x, n - 1), ShiftDown(x, n));
    }
  }

  /** The average weighs a sample by one in 2 to the power of scale, rounded down. */
  lemma AverageIsWeighted(rtt: int, scale: nat, sample: int)
    ensures rtt < 0 ==> ComputeRtt(rtt, scale, sample) == sample
    ensures rtt >= 0 ==>
      var r := ComputeRtt(rtt, scale, sample);
      Shift(1, scale) * r <= Shift(1, scale) * rtt + (sample - rtt) < Shift(1, scale) * (r + 1)
  {
    if rtt >= 0 {
      ShiftIsProduct(rtt, scale);
      ShiftDownIsQuotient(Shift(rtt, scale) + sample - rtt, scale);
    }
  }

  /** The recorded times are those of the uncredited flits: of all of them in the plain form, in the simple form of
      one probe that has exactly `pending` uncredited flits sent before it. */
  ghost predicate Timed(simple: bool, recorded: seq<int>, pending: int, uncredited: seq<int>) {
    if simple then
      || (recorded == [] && pending == 0)
      || (|recorded| == 1 && 0 <= pending < |uncredited| && uncredited[pending] == recorded[0])
    else recorded == uncredited
  }

  /** What is known of one virtual channel: its limit and average, the send times of its uncredited flits, and whether
      the oldest of them was timed. */
  datatype Reading = Reading(limit: int, rtt: int, sent: seq<int>, timed: bool)

  class Feedback {
    const simple: bool
    const scale: nat
    const offset: int
    const minLatency: nat
    var occupancyLimit: seq<int>
    var roundTrip: seq<int>
    var flitSentTime: seq<seq<int>>
    var pendingCredits: seq<int>
    var totalMapped: int
    /** Send times of the flits of each virtual channel whose credit has not come back, oldest first. */
    ghost var uncredited: seq<seq<int>>

    ghost predicate Valid()
      reads this
    {
      && |occupancyLimit| == |roundTrip| == |flitSentTime| == |pendingCredits| == |uncredited|
      && totalMapped == Sum(occupancyLimit)
      && (forall v :: 0 <= v < |uncredited| ==> Timed(simple, flitSentTime[v], pendingCredits[v], uncredited[v]))
      && (forall v :: 0 <= v < |occupancyLimit| ==> occupancyLimit[v] >= 1)
    }

    ghost function ReadingOf(v: nat): Reading
      requires v < |occupancyLimit| == |roundTrip| == |flitSentTime| == |pendingCredits| == |uncredited|
      reads this
    {
      Reading(occupancyLimit[v], roundTrip[v], uncredited[v], TimesOldest(v))
    }

    /** A credit at time now: the oldest flit is done with, and if it was timed its round trip is the sample. */
    ghost predicate Measures(before: Reading, now: int, after: Reading) {
      && before.sent != [] && after.sent == before.sent[1..]
      && (!before.timed ==> after.rtt == before.rtt && after.limit == before.limit)
      && (before.timed ==>
            && after.rtt == ComputeRtt(before.rtt, scale, now - before.sent[0])
            && after.limit == ComputeLimit(minLatency, offset, after.rtt))
    }

    ghost function Readings(): seq<Reading>
      requires |occupancyLimit| == |roundTrip| == |flitSentTime| == |pendingCredits| == |uncredited|
      reads this
    {
      seq(|uncredited|, v requires 0 <= v < |occupancyLimit| == |roundTrip| == |flitSentTime| == |pendingCredits| == |uncredited|
                          reads this => ReadingOf(v))
    }

    /** Credits for the named virtual channels at time now; the others keep their readings. */
    ghost predicate MeasuresAll(vcs: seq<nat>, before: seq<Reading>, now: int, after: seq<Reading>) {
      |after| == |before| && forall v :: 0 <= v < |after| ==> if v in vcs then Measures(before[v], now, after[v]) else after[v] == before[v]
    }

    lemma NoneMeasured(now: int)
      requires Valid()
      ensures MeasuresAll([], Readings(), now, Readings())
    {
    }

    lemma MeasuresOneMore(vcs: seq<nat>, v: nat, a: seq<Reading>, now: int, b: seq<Reading>, c: seq<Reading>)
      requires MeasuresAll(vcs, a, now, b) && MeasuresAll([v], b, now, c) && v !in vcs
      ensures MeasuresAll(vcs + [v], a, now, c)
    {
      hide Measures;
    }

    constructor (simple: bool, scale: nat, offset: int, minLatency: nat, bufSize: nat, vcs: nat)
      requires bufSize > 0
      ensures Valid() && this.simple == simple && uncredited == seq(vcs, _ => [])
      ensures this.scale == scale && this.offset == offset && this.minLatency == minLatency
      ensures forall v :: 0 <= v < vcs ==> occupancyLimit[v] == bufSize && roundTrip[v] < 0
    {
      this.simple, this.scale, this.offset, this.minLatency := simple, scale, offset, minLatency;
      occupancyLimit := seq(vcs, _ => bufSize);
      roundTrip := seq(vcs, _ => -1);
      flitSentTime := seq(vcs, _ => []);
      pendingCredits := seq(vcs, _ => 0);
      totalMapped := bufSize * vcs;
      uncredited := seq(vcs, _ => []);
      SumOfSame(seq(vcs, _ => bufSize), bufSize);
    }

    /** A flit leaves at time now; occupancy already counts it. */
    method SendingFlit(v: nat, occupancy: int, now: int)
      requires Valid() && v < |uncredited| && occupancy == |uncredited[v]| + 1
      modifies this
      ensures Valid() && uncredited == old(uncredited)[v := old(uncredited[v]) + [now]]
      ensures occupancyLimit == old(occupancyLimit) && roundTrip == old(roundTrip)
      ensures forall w :: 0 <= w < |uncredited| && w != v ==> ReadingOf(w) == old(ReadingOf(w))
    {
      if !simple || flitSentTime[v] == [] {
        if simple {
          pendingCredits := pendingCredits[v := occupancy - 1];
        }
        flitSentTime := flitSentTime[v := flitSentTime[v] + [now]];
      }
      uncredited := uncredited[v := uncredited[v] + [now]];
    }

    /** A sample is taken exactly when the flit whose credit comes back was timed. */
    ghost predicate TimesOldest(v: nat)
      requires v < |flitSentTime| == |pendingCredits|
      reads this
    {
      flitSentTime[v] != [] && (simple ==> pendingCredits[v] == 0)
    }

    /** The credit of the oldest uncredited flit comes back at time now.  The sample is that flit's own round trip. */
    method FreeSlotFor(v: nat, now: int)
      requires Valid() && v < |uncredited| && uncredited[v] != []
      modifies this
      ensures Valid() && uncredited == old(uncredited)[v := old(uncredited[v][1..])]
      ensures Measures(old(ReadingOf(v)), now, ReadingOf(v))
      ensures forall w :: 0 <= w < |uncredited| && w != v ==> ReadingOf(w) == old(ReadingOf(w))
    {
      ghost var oldest := uncredited[v];
      uncredited := uncredited[v := oldest[1..]];
      if flitSentTime[v] != [] && (!simple || pendingCredits[v] == 0) {
        TakeSample(v, now);
      } else if pendingCredits[v] > 0 {
        assert flitSentTime[v] != [];
        pendingCredits := pendingCredits[v := pendingCredits[v] - 1];
      }
    }

    method TakeSample(v: nat, now: int)
      requires v < |occupancyLimit| == |roundTrip| == |flitSentTime| && flitSentTime[v] != []
      requires totalMapped == Sum(occupancyLimit)
      modifies this`flitSentTime, this`roundTrip, this`occupancyLimit, this`totalMapped
      ensures flitSentTime == old(flitSentTime)[v := old(flitSentTime[v][1..])]
      ensures totalMapped == Sum(occupancyLimit)
      ensures var rtt := ComputeRtt(old(roundTrip[v]), scale, now - old(flitSentTime[v][0]));
        && roundTrip == old(roundTrip)[v := rtt]
        && occupancyLimit == old(occupancyLimit)[v := ComputeLimit(minLatency, offset, rtt)]
    {
      var sample := now - flitSentTime[v][0];
      flitSentTime := flitSentTime[v := flitSentTime[v][1..]];
      var rtt := ComputeRtt(roundTrip[v], scale, sample);
      roundTrip := roundTrip[v := rtt];
      var limit := ComputeLimit(minLatency, offset, rtt);
      totalMapped := totalMapped + (limit - occupancyLimit[v]);
      SumUpdate(occupancyLimit, v, limit);
      occupancyLimit := occupancyLimit[v := limit];
    }

    /** The limit in force now: a flit already under way for long counts as a sample.  It is never below one. */
    function MaxSlots(v: nat, now: int): (m: int)
      requires Valid() && v < |uncredited|
      reads this
      ensures 1 <= m <= occupancyLimit[v]
      ensures flitSentTime[v] == [] ==> m == occupancyLimit[v]
      ensures flitSentTime[v] != [] ==>
        var rtt := ComputeRtt(roundTrip[v], scale, now - flitSentTime[v][0]);
        m <= ComputeLimit(minLatency, offset, rtt) && (m < occupancyLimit[v] ==> m == ComputeLimit(minLatency, offset, rtt))
    {
      if flitSentTime[v] == [] then occupancyLimit[v]
      else
        var rtt := ComputeRtt(roundTrip[v], scale, now - flitSentTime[v][0]);
        Min(occupancyLimit[v], ComputeLimit(minLatency, offset, rtt))
    }
  }
}
