/** The credit loop between a sender and the buffer it feeds, as a state machine over its steps.

The sender takes virtual channels and sends flits; the wire delivers them in order; the router
removes flits and answers with credits; credits return in order.  Any interleaving is allowed.
*/
module CreditLoop {
  import opened Sums
  import opened Flits
  import opened FlowControl

  datatype Config = Config(policy: Policy, wait: bool, size: nat)

  /** A credit names the virtual channels a flit was removed from.  The flits themselves are recorded to tell which
      flit a credit is for. */
  type Credit = map<nat, Flit>

  /** open[v] is the packet being sent on v, expected[v] the packet being received on it. */
  datatype Link = Link(vcs: seq<Vc>, open: seq<int>, wire: seq<Flit>, bufs: seq<seq<Flit>>, expected: seq<int>, credits: seq<Credit>)

  datatype Step = Take(v: nat, tag: nat) | Send(f: Flit) | Deliver | Remove(s: set<nat>) | Return

  ghost predicate WellFormed(c: Config, vcs: nat) {
    c.policy.Shared? ==> PoolOk(c.policy.pool) && |c.policy.pool.group| == vcs
  }

  /** The policy divides up no more slots than the buffer has. */
  ghost predicate ConfigOk(c: Config, vcs: nat) {
    WellFormed(c, vcs) && Capacity(c.policy, vcs) <= c.size
  }

  ghost function Start(vcs: nat): Link {
    Link(seq(vcs, _ => IDLE), seq(vcs, _ => -1), [], seq(vcs, _ => []), seq(vcs, _ => -1), [])
  }

  ghost predicate Sized(l: Link) {
    && |l.vcs| == |l.open| == |l.bufs| == |l.expected|
    && (forall k :: 0 <= k < |l.wire| ==> l.wire[k].vc < |l.vcs|)
    && (forall k, v :: 0 <= k < |l.credits| && v in l.credits[k] ==> v < |l.vcs|)
  }

  /** What the two sides check before they act. */
  ghost predicate Enabled(c: Config, l: Link, step: Step) {
    && Sized(l) && Fits(c.policy, l.vcs)
    && match step
       case Take(v, tag) => v < |l.vcs| && l.vcs[v].inUseBy < 0
       case Send(f) => f.vc < |l.vcs| && CanSend(l.vcs[f.vc]) && !Full(c.policy, l.vcs, f.vc) && Continues(l.open[f.vc], f)
       case Deliver => l.wire != []
       case Remove(s) => forall v :: v in s ==> v < |l.bufs| && l.bufs[v] != []
       case Return => l.credits != []
  }

  /** The errors the code reports.  Those of taking a busy virtual channel and of removing from an empty one are what the
      guards of Take and Remove exclude, so only the other steps can report one. */
  ghost predicate Faults(c: Config, l: Link, step: Step)
    requires Enabled(c, l, step)
  {
    match step
    case Take(_, _) => false
    case Send(f) =>
      || Sum(Occupied(l.vcs)) + 1 > c.size
      || !Fits(c.policy, l.vcs[f.vc := Sent(c.wait, l.vcs[f.vc], f.tail)])
    case Deliver =>
      || Sum(Lengths(l.bufs)) >= c.size
      || (l.expected[l.wire[0].vc] >= 0 && l.expected[l.wire[0].vc] != l.wire[0].pid)
    case Remove(_) => false
    case Return => exists v :: v in l.credits[0] && (l.vcs[v].occupancy <= 0 || (c.wait && l.vcs[v].inUseBy < 0))
  }

  ghost function CreditAll(c: Config, vcs: seq<Vc>, s: set<nat>): seq<Vc> {
    seq(|vcs|, v requires 0 <= v < |vcs| => if v in s then Credited(c.policy, c.wait, vcs[v]) else vcs[v])
  }

  ghost function Apply(c: Config, l: Link, step: Step): Link
    requires Enabled(c, l, step)
  {
    match step
    case Take(v, tag) => l.(vcs := l.vcs[v := Taken(l.vcs[v], tag)])
    case Send(f) =>
      l.(vcs := l.vcs[f.vc := Sent(c.wait, l.vcs[f.vc], f.tail)], open := l.open[f.vc := Open(f)], wire := l.wire + [f])
    case Deliver =>
      var f := l.wire[0];
      l.(wire := l.wire[1..], bufs := l.bufs[f.vc := l.bufs[f.vc] + [f]], expected := l.expected[f.vc := Open(f)])
    case Remove(s) =>
      l.(bufs := seq(|l.bufs|, v requires 0 <= v < |l.bufs| => if v in s then l.bufs[v][1..] else l.bufs[v]),
         credits := l.credits + [map v | v in s :: l.bufs[v][0]])
    case Return =>
      l.(credits := l.credits[1..], vcs := CreditAll(c, l.vcs, l.credits[0].Keys))
  }

  // ---- the flits between a send and the return of its credit ----

  ghost function OnWire(wire: seq<Flit>, v: nat): seq<Flit> {
    if wire == [] then [] else (if wire[0].vc == v then [wire[0]] else []) + OnWire(wire[1..], v)
  }

  ghost function InCredits(credits: seq<Credit>, v: nat): seq<Flit> {
    if credits == [] then [] else (if v in credits[0] then [credits[0][v]] else []) + InCredits(credits[1..], v)
  }

  /** Oldest first: flits whose credit is returning, flits in the buffer, flits on the wire. */
  ghost function Outstanding(l: Link, v: nat): seq<Flit>
    requires v < |l.bufs|
  {
    InCredits(l.credits, v) + l.bufs[v] + OnWire(l.wire, v)
  }

  lemma {:induction false} OnWireAppend(wire: seq<Flit>, f: Flit, v: nat)
    ensures OnWire(wire + [f], v) == OnWire(wire, v) + if f.vc == v then [f] else []
  {
    if wire == [] {
      assert (wire + [f])[1..] == [];
    } else {
      OnWireAppend(wire[1..], f, v);
      assert (wire + [f])[1..] == wire[1..] + [f];
    }
  }

  lemma {:induction false} InCreditsAppend(credits: seq<Credit>, c: Credit, v: nat)
    ensures InCredits(credits + [c], v) == InCredits(credits, v) + if v in c then [c[v]] else []
  {
    if credits == [] {
      assert (credits + [c])[1..] == [];
    } else {
      InCreditsAppend(credits[1..], c, v);
      assert (credits + [c])[1..] == credits[1..] + [c];
    }
  }

  lemma DeliverMoves(c: Config, l: Link, v: nat)
    requires Enabled(c, l, Deliver) && v < |l.bufs|
    ensures |Apply(c, l, Deliver).bufs| == |l.bufs|
    ensures Outstanding(Apply(c, l, Deliver), v) == Outstanding(l, v)
  {
    hide InCredits;
    var m := Apply(c, l, Deliver);
    assert m.bufs[v] + OnWire(m.wire, v) == l.bufs[v] + OnWire(l.wire, v);
  }

  lemma RemoveMoves(c: Config, l: Link, s: set<nat>, v: nat)
    requires Enabled(c, l, Remove(s)) && v < |l.bufs|
    ensures |Apply(c, l, Remove(s)).bufs| == |l.bufs|
    ensures Outstanding(Apply(c, l, Remove(s)), v) == Outstanding(l, v)
  {
    hide InCredits, OnWire;
    var m := Apply(c, l, Remove(s));
    InCreditsAppend(l.credits, map w | w in s :: l.bufs[w][0], v);
    assert InCredits(m.credits, v) + m.bufs[v] == InCredits(l.credits, v) + l.bufs[v];
  }

  /** The loop is a queue per virtual channel: a send appends, a returning credit removes the oldest, and nothing else
      changes it.  So credits return in the order of the sends. */
  lemma OutstandingIsQueue(c: Config, l: Link, step: Step, v: nat)
    requires Enabled(c, l, step) && v < |l.bufs|
    ensures |Apply(c, l, step).bufs| == |l.bufs|
    ensures Outstanding(Apply(c, l, step), v) ==
      if step.Send? && step.f.vc == v then Outstanding(l, v) + [step.f]
      else if step.Return? && v in l.credits[0] then Outstanding(l, v)[1..]
      else Outstanding(l, v)
  {
    match step
    case Take(_, _) =>
    case Send(f) =>
      hide InCredits, OnWire;
      OnWireAppend(l.wire, f, v);
    case Deliver =>
      hide Outstanding;
      DeliverMoves(c, l, v);
    case Remove(s) =>
      hide Outstanding;
      RemoveMoves(c, l, s, v);
    case Return =>
      hide OnWire;
  }

  // ---- the invariant ----

  ghost predicate Conserved(l: Link, v: nat)
    requires v < |l.vcs| == |l.bufs|
  {
    l.vcs[v].occupancy == |Outstanding(l, v)|
  }

  /** Sender and receiver agree on packet boundaries, and a packet being sent holds its virtual channel. */
  ghost predicate InStep(l: Link, v: nat)
    requires v < |l.vcs| == |l.expected| == |l.open|
  {
    && WholePackets(l.expected[v], OnWire(l.wire, v), l.open[v])
    && (l.open[v] >= 0 ==> CanSend(l.vcs[v]))
  }

  ghost predicate KeepsSlot(c: Config, l: Link, v: nat)
    requires v < |l.vcs| == |l.open|
  {
    c.policy.Shared? && l.open[v] >= 0 ==> l.vcs[v].occupancy + l.vcs[v].reserved >= 1
  }

  ghost predicate Inv(c: Config, l: Link) {
    && Sized(l) && ConfigOk(c, |l.vcs|) && FlowOk(c.policy, c.wait, l.vcs)
    && forall v :: 0 <= v < |l.vcs| ==> Conserved(l, v) && InStep(l, v) && KeepsSlot(c, l, v)
  }

  // ---- every step keeps it ----

  lemma TakeKeepsInv(c: Config, l: Link, v: nat, tag: nat)
    requires Inv(c, l) && Enabled(c, l, Take(v, tag))
    ensures Inv(c, Apply(c, l, Take(v, tag)))
  {
    var m := Apply(c, l, Take(v, tag));
    TakeKeeps(c.policy, c.wait, l.vcs, v, tag);
    forall w | 0 <= w < |m.vcs|
      ensures Conserved(m, w) && InStep(m, w) && KeepsSlot(c, m, w)
    {
      assert Conserved(l, w) && InStep(l, w) && KeepsSlot(c, l, w);
    }
  }

  lemma OccupancyNonneg(c: Config, l: Link, v: nat)
    requires Inv(c, l) && v < |l.vcs|
    ensures l.vcs[v].occupancy >= 0 && 0 <= l.vcs[v].reserved <= 1
  {
    assert VcOk(c.wait, l.vcs[v]);
  }

  lemma SendKeepsInv(c: Config, l: Link, f: Flit)
    requires Inv(c, l) && Enabled(c, l, Send(f))
    ensures Inv(c, Apply(c, l, Send(f)))
  {
    hide FlowOk, WholePackets, Full, Fits;
    var m := Apply(c, l, Send(f));
    SendKeeps(c.policy, c.wait, l.vcs, f.vc, f.tail);
    forall w | 0 <= w < |m.vcs|
      ensures Conserved(m, w) && InStep(m, w) && KeepsSlot(c, m, w)
    {
      assert Conserved(l, w) && InStep(l, w) && KeepsSlot(c, l, w);
      OutstandingIsQueue(c, l, Send(f), w);
      OnWireAppend(l.wire, f, w);
      if w == f.vc {
        WholePacketsAppend(l.expected[w], OnWire(l.wire, w), l.open[w], f);
        OccupancyNonneg(c, l, w);
      } else {
        assert OnWire(m.wire, w) == OnWire(l.wire, w);
      }
    }
  }

  lemma DeliverKeepsInv(c: Config, l: Link)
    requires Inv(c, l) && Enabled(c, l, Deliver)
    ensures Inv(c, Apply(c, l, Deliver))
  {
    hide FlowOk, Fits;
    var m := Apply(c, l, Deliver);
    forall w | 0 <= w < |m.vcs|
      ensures Conserved(m, w) && InStep(m, w) && KeepsSlot(c, m, w)
    {
      assert Conserved(l, w) && InStep(l, w) && KeepsSlot(c, l, w);
      OutstandingIsQueue(c, l, Deliver, w);
      if w == l.wire[0].vc {
        assert OnWire(l.wire, w)[1..] == OnWire(m.wire, w);
      } else {
        assert OnWire(l.wire, w) == OnWire(m.wire, w);
      }
    }
  }

  lemma RemoveKeepsInv(c: Config, l: Link, s: set<nat>)
    requires Inv(c, l) && Enabled(c, l, Remove(s))
    ensures Inv(c, Apply(c, l, Remove(s)))
  {
    hide FlowOk, Fits;
    var m := Apply(c, l, Remove(s));
    forall w | 0 <= w < |m.vcs|
      ensures Conserved(m, w) && InStep(m, w) && KeepsSlot(c, m, w)
    {
      assert Conserved(l, w) && InStep(l, w) && KeepsSlot(c, l, w);
      OutstandingIsQueue(c, l, Remove(s), w);
    }
  }

  lemma {:induction false} CreditAllKeeps(c: Config, vcs: seq<Vc>, s: set<nat>)
    requires FlowOk(c.policy, c.wait, vcs) && forall v :: v in s ==> v < |vcs| && vcs[v].occupancy > 0
    ensures FlowOk(c.policy, c.wait, CreditAll(c, vcs, s))
    decreases |s|
  {
    hide FlowOk;
    if s == {} {
      assert CreditAll(c, vcs, s) == vcs;
    } else {
      var x :| x in s;
      var before := CreditAll(c, vcs, s - {x});
      CreditAllKeeps(c, vcs, s - {x});
      CreditKeeps(c.policy, c.wait, before, x);
      assert CreditAll(c, vcs, s) == before[x := Credited(c.policy, c.wait, before[x])];
    }
  }

  /** A credit on its way stands for an occupied slot. */
  lemma CreditsAreOwed(c: Config, l: Link, v: nat)
    requires Inv(c, l) && Enabled(c, l, Return) && v in l.credits[0]
    ensures v < |l.vcs| && l.vcs[v].occupancy > 0
    ensures c.wait ==> l.vcs[v].inUseBy >= 0
  {
    assert Conserved(l, v);
    assert |InCredits(l.credits, v)| >= 1;
    assert VcOk(c.wait, l.vcs[v]);
  }

  lemma ReturnKeepsInv(c: Config, l: Link)
    requires Inv(c, l) && Enabled(c, l, Return)
    ensures Inv(c, Apply(c, l, Return))
  {
    var m, s := Apply(c, l, Return), l.credits[0].Keys;
    forall v | v in s
      ensures v < |l.vcs| && l.vcs[v].occupancy > 0
    {
      CreditsAreOwed(c, l, v);
    }
    CreditAllKeeps(c, l.vcs, s);
    hide FlowOk, Fits;
    forall w | 0 <= w < |m.vcs|
      ensures Conserved(m, w) && InStep(m, w) && KeepsSlot(c, m, w)
    {
      assert Conserved(l, w) && InStep(l, w) && KeepsSlot(c, l, w);
      OutstandingIsQueue(c, l, Return, w);
      OccupancyNonneg(c, l, w);
    }
  }

  lemma StepKeepsInv(c: Config, l: Link, step: Step)
    requires Inv(c, l) && Enabled(c, l, step)
    ensures Inv(c, Apply(c, l, step))
  {
    hide Inv, Enabled, Apply;
    match step
    case Take(v, tag) => TakeKeepsInv(c, l, v, tag);
    case Send(f) => SendKeepsInv(c, l, f);
    case Deliver => DeliverKeepsInv(c, l);
    case Remove(s) => RemoveKeepsInv(c, l, s);
    case Return => ReturnKeepsInv(c, l);
  }

  // ---- no step reports an error ----

  /** The buffer has room for what is on the wire. */
  lemma RoomToDeliver(c: Config, l: Link)
    requires Inv(c, l) && Enabled(c, l, Deliver)
    ensures Sum(Lengths(l.bufs)) < c.size
  {
    var v := l.wire[0].vc;
    var more := Lengths(l.bufs)[v := |l.bufs[v]| + 1];
    SumUpdate(Lengths(l.bufs), v, |l.bufs[v]| + 1);
    forall w | 0 <= w < |more|
      ensures more[w] <= Occupied(l.vcs)[w]
    {
      assert Conserved(l, w);
      assert w == v ==> |OnWire(l.wire, w)| >= 1;
    }
    SumMono(more, Occupied(l.vcs));
    NeverOverflows(c.policy, l.vcs);
  }

  lemma NoFault(c: Config, l: Link, step: Step)
    requires Inv(c, l) && Enabled(c, l, step)
    ensures !Faults(c, l, step)
  {
    match step
    case Take(_, _) =>
    case Send(f) =>
      var vcs := l.vcs[f.vc := Sent(c.wait, l.vcs[f.vc], f.tail)];
      SendKeeps(c.policy, c.wait, l.vcs, f.vc, f.tail);
      NeverOverflows(c.policy, vcs);
      HeldUpdate(l.vcs, f.vc, vcs[f.vc]);
      SumUpdate(Occupied(l.vcs), f.vc, vcs[f.vc].occupancy);
    case Deliver =>
      RoomToDeliver(c, l);
      assert InStep(l, l.wire[0].vc);
    case Remove(_) =>
    case Return =>
      forall v | v in l.credits[0]
        ensures l.vcs[v].occupancy > 0 && (c.wait ==> l.vcs[v].inUseBy >= 0)
      {
        CreditsAreOwed(c, l, v);
      }
  }

  ghost predicate Chain(c: Config, run: seq<Link>, steps: seq<Step>) {
    && |run| == |steps| + 1
    && forall i :: 0 <= i < |steps| ==> Enabled(c, run[i], steps[i]) && run[i + 1] == Apply(c, run[i], steps[i])
  }

  /** A run from the empty link in which both sides make their checks. */
  ghost predicate IsRun(c: Config, vcs: nat, run: seq<Link>, steps: seq<Step>) {
    Chain(c, run, steps) && run[0] == Start(vcs) && WellFormed(c, vcs)
  }

  lemma StartInv(c: Config, vcs: nat)
    requires ConfigOk(c, vcs)
    ensures Inv(c, Start(vcs))
  {
    EmptyCounts(c.policy, vcs);
  }

  /** In every run every state keeps the invariant and no step reports an error. */
  lemma {:induction false} RunIsSafe(c: Config, vcs: nat, run: seq<Link>, steps: seq<Step>, i: nat)
    requires IsRun(c, vcs, run, steps) && ConfigOk(c, vcs) && i <= |steps|
    ensures Inv(c, run[i])
    ensures i < |steps| ==> !Faults(c, run[i], steps[i])
    decreases i
  {
    if i == 0 {
      StartInv(c, vcs);
    } else {
      RunIsSafe(c, vcs, run, steps, i - 1);
      StepKeepsInv(c, run[i - 1], steps[i - 1]);
    }
    if i < |steps| {
      NoFault(c, run[i], steps[i]);
    }
  }

  /** In every run under a shared policy a packet that has sent its head and not its tail holds a slot, and once its
      flits have drained it may send again whatever the other virtual channels hold. */
  lemma DrainedPacketMaySend(c: Config, vcs: nat, run: seq<Link>, steps: seq<Step>, i: nat, v: nat)
    requires IsRun(c, vcs, run, steps) && ConfigOk(c, vcs) && i <= |steps|
    requires c.policy.Shared? && v < |run[i].vcs| == |run[i].open| && run[i].open[v] >= 0
    ensures run[i].vcs[v].occupancy + run[i].vcs[v].reserved >= 1
    ensures Fits(c.policy, run[i].vcs) && run[i].vcs[v].reserved <= 1
    ensures run[i].vcs[v].occupancy == 0 ==> CanSend(run[i].vcs[v]) && !Full(c.policy, run[i].vcs, v)
  {
    RunIsSafe(c, vcs, run, steps, i);
    assert KeepsSlot(c, run[i], v) && InStep(run[i], v) && VcOk(c.wait, run[i].vcs[v]);
  }

  // ---- the configuration condition is exact ----

  ghost predicate Serves(p: Pool, g: nat) {
    exists v :: 0 <= v < |p.group| && p.group[v] == g
  }

  /** Every private buffer serves some virtual channel. */
  ghost predicate AllServe(policy: Policy, vcs: nat) {
    && vcs > 0
    && (policy.Shared? ==> forall g :: 0 <= g < |policy.pool.size| ==> Serves(policy.pool, g))
  }

  lemma PrivateUsedUp(slots: nat, vcs: seq<Vc>)
    requires forall v :: 0 <= v < |vcs| ==> vcs[v].occupancy >= slots
    ensures Sum(Occupied(vcs)) >= |vcs| * slots
  {
    var full := seq(|vcs|, _ => slots);
    SumMono(full, Occupied(vcs));
    SumOfSame(full, slots);
  }

  lemma PoolUsedUp(p: Pool, vcs: seq<Vc>)
    requires Fits(Shared(p), vcs) && AllServe(Shared(p), |vcs|)
    requires forall v :: 0 <= v < |vcs| ==> vcs[v].reserved == 0 && Full(Shared(p), vcs, v)
    ensures Sum(Occupied(vcs)) >= Sum(p.size) + p.shared
  {
    var held := GroupHeld(p, vcs);
    assert Held(vcs) == Occupied(vcs);
    GroupSumsAddUp(p.group, Held(vcs), held);
    forall g | 0 <= g < |held|
      ensures held[g] >= p.size[g]
    {
      assert Serves(p, g);
      var v :| 0 <= v < |p.group| && p.group[v] == g;
      assert Full(Shared(p), vcs, v);
    }
    SumAdd(p.size, Overs(held, p.size), held);
    assert Full(Shared(p), vcs, 0);
  }

  /** While fewer slots are occupied than are divided up, some virtual channel is not full. */
  lemma SomeRoom(policy: Policy, vcs: seq<Vc>) returns (v: nat)
    requires Fits(policy, vcs) && AllServe(policy, |vcs|) && Sum(Occupied(vcs)) < Capacity(policy, |vcs|)
    requires forall v :: 0 <= v < |vcs| ==> vcs[v].reserved == 0
    ensures v < |vcs| && !Full(policy, vcs, v)
  {
    if u: nat :| u < |vcs| && !Full(policy, vcs, u) {
      v := u;
    } else {
      match policy {
        case Private(slots) =>
          forall u | 0 <= u < |vcs|
            ensures vcs[u].occupancy >= slots
          {
            assert Full(policy, vcs, u);
          }
          PrivateUsedUp(slots, vcs);
        case Shared(p) =>
          PoolUsedUp(p, vcs);
      }
      assert false;
    }
  }

  ghost predicate FillingVc(vc: Vc, open: int) {
    if vc.inUseBy < 0 then open == -1 else CanSend(vc) && (open == -1 || open == 0)
  }

  /** A link that is only being filled: every virtual channel is untouched or carries the start of packet 0. */
  ghost predicate Filling(c: Config, l: Link) {
    && Sized(l) && WellFormed(c, |l.vcs|) && FlowOk(c.policy, c.wait, l.vcs)
    && forall v :: 0 <= v < |l.vcs| ==> l.vcs[v].reserved == 0 && FillingVc(l.vcs[v], l.open[v])
  }

  ghost function Filler(v: nat, open: int): Flit {
    Flit(0, 0, v, open < 0, false)
  }

  lemma TakeFills(c: Config, l: Link, v: nat)
    requires Filling(c, l) && v < |l.vcs| && l.vcs[v].inUseBy < 0 && !Full(c.policy, l.vcs, v)
    ensures Enabled(c, l, Take(v, 0)) && Filling(c, Apply(c, l, Take(v, 0)))
    ensures var m := Apply(c, l, Take(v, 0)); CanSend(m.vcs[v]) && Occupied(m.vcs) == Occupied(l.vcs) && !Full(c.policy, m.vcs, v)
  {
    TakeKeeps(c.policy, c.wait, l.vcs, v, 0);
    HeldUpdate(l.vcs, v, Taken(l.vcs[v], 0));
    if c.policy.Shared? {
      PoolUpdate(c.policy.pool, l.vcs, v, Taken(l.vcs[v], 0));
    }
  }

  lemma SendFills(c: Config, l: Link, v: nat)
    requires Filling(c, l) && v < |l.vcs| && CanSend(l.vcs[v]) && !Full(c.policy, l.vcs, v)
    ensures var s := Send(Filler(v, l.open[v]));
      Enabled(c, l, s) && Filling(c, Apply(c, l, s)) && Sum(Occupied(Apply(c, l, s).vcs)) == Sum(Occupied(l.vcs)) + 1
  {
    var f := Filler(v, l.open[v]);
    assert FillingVc(l.vcs[v], l.open[v]);
    SendKeeps(c.policy, c.wait, l.vcs, v, false);
    HeldUpdate(l.vcs, v, Sent(c.wait, l.vcs[v], false));
    SumUpdate(Occupied(l.vcs), v, l.vcs[v].occupancy + 1);
  }

  /** The last step of the chain reports an error. */
  ghost predicate EndsInFault(c: Config, run: seq<Link>, steps: seq<Step>) {
    Chain(c, run, steps) && |steps| > 0 && Faults(c, run[|steps| - 1], steps[|steps| - 1])
  }

  lemma Extend(c: Config, l: Link, s: Step, run: seq<Link>, steps: seq<Step>)
    requires Enabled(c, l, s) && EndsInFault(c, run, steps) && run[0] == Apply(c, l, s)
    ensures EndsInFault(c, [l] + run, [s] + steps)
  {
    hide Enabled, Apply, Faults;
    var run1, steps1 := [l] + run, [s] + steps;
    forall i | 0 <= i < |steps1|
      ensures Enabled(c, run1[i], steps1[i]) && run1[i + 1] == Apply(c, run1[i], steps1[i])
    {
      assert i > 0 ==> run1[i] == run[i - 1] && run1[i + 1] == run[i] && steps1[i] == steps[i - 1];
    }
  }

  lemma CarriesPacket(c: Config, l: Link, v: nat)
    requires Filling(c, l) && v < |l.vcs| && l.vcs[v].inUseBy >= 0
    ensures CanSend(l.vcs[v])
  {
    assert FillingVc(l.vcs[v], l.open[v]);
  }

  lemma OneStep(c: Config, l: Link, s: Step)
    requires Enabled(c, l, s) && Faults(c, l, s)
    ensures EndsInFault(c, [l, Apply(c, l, s)], [s])
  {
    hide Enabled, Apply, Faults;
  }

  /** From a link being filled an over-committed buffer can be made to overflow. */
  lemma {:induction false} FillUp(c: Config, l: Link) returns (run: seq<Link>, steps: seq<Step>)
    requires Filling(c, l) && AllServe(c.policy, |l.vcs|) && Sum(Occupied(l.vcs)) <= c.size < Capacity(c.policy, |l.vcs|)
    ensures EndsInFault(c, run, steps) && run[0] == l
    decreases c.size - Sum(Occupied(l.vcs))
  {
    var v := SomeRoom(c.policy, l.vcs);
    hide Fits, FlowOk, Full, Filling, Chain, EndsInFault, Capacity, AllServe, WellFormed, Sum, Occupied;
    var m := l;
    if l.vcs[v].inUseBy < 0 {
      TakeFills(c, l, v);
      m := Apply(c, l, Take(v, 0));
    } else {
      CarriesPacket(c, l, v);
    }
    var s := Send(Filler(v, m.open[v]));
    SendFills(c, m, v);
    if Sum(Occupied(l.vcs)) == c.size {
      run, steps := [m, Apply(c, m, s)], [s];
      OneStep(c, m, s);
    } else {
      run, steps := FillUp(c, Apply(c, m, s));
      Extend(c, m, s, run, steps);
      run, steps := [m] + run, [s] + steps;
    }
    if l.vcs[v].inUseBy < 0 {
      Extend(c, l, Take(v, 0), run, steps);
      run, steps := [l] + run, [Take(v, 0)] + steps;
    }
  }

  /** A configuration that divides up more slots than the buffer has runs into an overflow. */
  lemma OverCommitted(c: Config, vcs: nat) returns (run: seq<Link>, steps: seq<Step>)
    requires WellFormed(c, vcs) && AllServe(c.policy, vcs) && Capacity(c.policy, vcs) > c.size
    ensures IsRun(c, vcs, run, steps) && EndsInFault(c, run, steps)
  {
    EmptyCounts(c.policy, vcs);
    assert Filling(c, Start(vcs));
    run, steps := FillUp(c, Start(vcs));
  }

  ghost predicate NeverFaults(c: Config, vcs: nat) {
    forall run, steps :: IsRun(c, vcs, run, steps) ==> !EndsInFault(c, run, steps)
  }

  /** No run reports an error exactly when the slots divided up fit in the buffer. */
  lemma SafeExactly(c: Config, vcs: nat)
    requires WellFormed(c, vcs) && AllServe(c.policy, vcs)
    ensures NeverFaults(c, vcs) <==> Capacity(c.policy, vcs) <= c.size
  {
    if Capacity(c.policy, vcs) <= c.size {
      forall run, steps | IsRun(c, vcs, run, steps) && |steps| > 0
        ensures !EndsInFault(c, run, steps)
      {
        RunIsSafe(c, vcs, run, steps, |steps| - 1);
      }
    } else {
      var run, steps := OverCommitted(c, vcs);
    }
  }

  /** So the private policy is safe in every run exactly when buf_size is not zero. */
  lemma PrivateSafeExactly(bufSize: int, vcs: nat, vcBufSize: int, wait: bool)
    requires vcs > 0 && PrivateSlots(bufSize, vcs, vcBufSize) > 0 && BufSize(bufSize, vcs, vcBufSize) >= 0
    ensures NeverFaults(Config(Private(PrivateSlots(bufSize, vcs, vcBufSize)), wait, BufSize(bufSize, vcs, vcBufSize)), vcs) <==> bufSize != 0
  {
    PrivateFits(bufSize, vcs, vcBufSize);
    SafeExactly(Config(Private(PrivateSlots(bufSize, vcs, vcBufSize)), wait, BufSize(bufSize, vcs, vcBufSize)), vcs);
  }
}
