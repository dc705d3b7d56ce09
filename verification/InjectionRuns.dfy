/** Whole runs of the injector: in a safe setting none meets a busy virtual channel. */
module InjectionRuns {
  import opened Flits
  import opened FlowControl
  import opened Injection
  import opened Holding

  /** A packet is queued, a credit comes back, or a cycle passes with the ranges the routing function gives. */
  datatype Event = Generate(c: nat, size: nat, pri: int) | Credit(v: nat) | Tick(ranges: seq<Range>)

  ghost function FullNow(policy: Policy, vcs: seq<Vc>): seq<bool>
    requires Fits(policy, vcs)
  {
    seq(|vcs|, v requires 0 <= v < |vcs| => Full(policy, vcs, v))
  }

  ghost predicate CanHappen(s: Setting, policy: Policy, st: State, e: Event) {
    && s.Ok() && Fits(policy, st.vcs) && |st.queues| == |s.here|
    && match e
       case Generate(c, size, pri) => s.Class(c) && s.low[c] <= pri <= s.high[c]
       case Credit(v) => v < |st.vcs| && st.vcs[v].occupancy > 0
       case Tick(ranges) => Shaped(s, st, FullNow(policy, st.vcs), ranges) && RoutesOk(s, ranges)
  }

  ghost function Do(s: Setting, policy: Policy, wait: bool, st: State, e: Event): Outcome
    requires CanHappen(s, policy, st, e)
  {
    match e
    case Generate(c, size, pri) => Idle(Generated(st, c, size, pri))
    case Credit(v) => Idle(st.(vcs := st.vcs[v := Credited(policy, wait, st.vcs[v])]))
    case Tick(ranges) => Cycle(s, wait, st, FullNow(policy, st.vcs), ranges)
  }

  /** The events can happen one after the other, and the last one meets a busy virtual channel. */
  ghost predicate EndsBusy(s: Setting, policy: Policy, wait: bool, st: State, events: seq<Event>)
    decreases |events|
  {
    && events != [] && CanHappen(s, policy, st, events[0])
    && var r := Do(s, policy, wait, st, events[0]);
       if |events| == 1 then r.Busy? else !r.Busy? && EndsBusy(s, policy, wait, r.st, events[1..])
  }

  ghost function Start(s: Setting, vcs: nat): State {
    State(seq(vcs, _ => IDLE), seq(|s.here|, _ => []), seq(|s.here|, _ => -1), 0, 0, 0)
  }

  ghost function NoHistory(s: Setting, vcs: nat): History {
    History(seq(|s.here|, _ => -1), seq(vcs, _ => []), seq(vcs, _ => -1), seq(vcs, _ => 0))
  }

  ghost predicate WellFormed(policy: Policy, vcs: nat) {
    policy.Shared? ==> PoolOk(policy.pool) && |policy.pool.group| == vcs
  }

  // ---- a safe setting is never busy ----

  lemma CreditKeepsUse(policy: Policy, wait: bool, vcs: seq<Vc>, v: nat)
    requires FlowOk(policy, wait, vcs) && v < |vcs| && vcs[v].occupancy > 0
    ensures CreditOnly(vcs, vcs[v := Credited(policy, wait, vcs[v])])
  {
    assert VcOk(wait, vcs[v]);
  }

  lemma SentByKeeps(policy: Policy, wait: bool, vcs: seq<Vc>, f: Flit)
    requires FlowOk(policy, wait, vcs) && f.vc < |vcs| && !Full(policy, vcs, f.vc)
    requires if f.head then vcs[f.vc].inUseBy < 0 else CanSend(vcs[f.vc])
    ensures FlowOk(policy, wait, vcs[f.vc := SentBy(wait, vcs[f.vc], f)])
  {
    if f.head {
      var taken := vcs[f.vc := Taken(vcs[f.vc], f.pid)];
      TakenNotFull(policy, wait, vcs, f.vc, f.pid);
      SendKeeps(policy, wait, taken, f.vc, f.tail);
      assert taken[f.vc := Sent(wait, taken[f.vc], f.tail)] == vcs[f.vc := SentBy(wait, vcs[f.vc], f)];
    } else {
      SendKeeps(policy, wait, vcs, f.vc, f.tail);
    }
  }

  /** In a safe setting no event is busy, and the invariant is kept. */
  lemma DoKeeps(s: Setting, policy: Policy, wait: bool, st: State, h: History, e: Event) returns (h1: History)
    requires s.SafeFor(Tight(policy, wait)) && InjectionOk(s, Tight(policy, wait), st, h)
    requires FlowOk(policy, wait, st.vcs) && CanHappen(s, policy, st, e)
    ensures var r := Do(s, policy, wait, st, e);
      !r.Busy? && InjectionOk(s, Tight(policy, wait), r.st, h1) && FlowOk(policy, wait, r.st.vcs)
  {
    hide InjectionOk, FlowOk, Fits, Full, Cycle, RoutesOk, Shaped, Tight, Setting.SafeFor;
    var tight := Tight(policy, wait);
    h1 := h;
    match e
    case Generate(c, size, pri) =>
      GenerateKeepsInjection(s, tight, st, h, c, size, pri);
    case Credit(v) =>
      CreditKeeps(policy, wait, st.vcs, v);
      CreditKeepsUse(policy, wait, st.vcs, v);
      CreditsKeepInjection(s, tight, st, st.vcs[v := Credited(policy, wait, st.vcs[v])], h);
    case Tick(ranges) =>
      var full := FullNow(policy, st.vcs);
      if tight {
        TightFull(policy, wait, st.vcs, full);
      }
      CycleKeeps(s, tight, wait, st, h, full, ranges);
      var r := Cycle(s, wait, st, full, ranges);
      if r.Left? {
        SentByKeeps(policy, wait, st.vcs, r.f);
        h1 := Noted(h, r.from, r.f);
      }
  }

  lemma {:induction false} SafeIsNeverBusy(s: Setting, policy: Policy, wait: bool, st: State, h: History, events: seq<Event>)
    requires s.SafeFor(Tight(policy, wait)) && InjectionOk(s, Tight(policy, wait), st, h) && FlowOk(policy, wait, st.vcs)
    ensures !EndsBusy(s, policy, wait, st, events)
    decreases |events|
  {
    hide InjectionOk, FlowOk, Setting.SafeFor, Do, CanHappen, Tight;
    if events != [] && CanHappen(s, policy, st, events[0]) {
      var h1 := DoKeeps(s, policy, wait, st, h, events[0]);
      if |events| > 1 {
        SafeIsNeverBusy(s, policy, wait, Do(s, policy, wait, st, events[0]).st, h1, events[1..]);
      }
    }
  }

  lemma StartOk(s: Setting, policy: Policy, wait: bool, vcs: nat)
    requires s.Ok() && WellFormed(policy, vcs)
    ensures forall tight :: InjectionOk(s, tight, Start(s, vcs), NoHistory(s, vcs))
    ensures FlowOk(policy, wait, Start(s, vcs).vcs)
  {
    EmptyCounts(policy, vcs);
    assert Bare([]) == [];
  }
}
