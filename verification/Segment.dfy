/** Injector, delay lines and input buffer together: the first segment of every packet's way.

The injector feeds a channel, the channel a router's input buffer; the router answers with credits
over a second channel.  What the objects do in a cycle is recorded as steps of the credit loop: every
execution is one of its runs, so the loop's invariant holds of the objects and none of them ever
reports an error.
*/
module Segments {
  import opened Sums
  import opened Flits
  import opened FlowControl
  import opened BufferStates
  import opened FeedbackLimits
  import opened Injection
  import opened Holding
  import opened Injectors
  import opened Channels
  import opened Options
  import L = CreditLoop

  /** The items on a channel, oldest first. */
  ghost function Items<T>(q: seq<(int, T)>): seq<T> {
    seq(|q|, k requires 0 <= k < |q| => q[k].1)
  }

  ghost function OnChannel<T>(q: seq<(int, T)>, input: Option<T>): seq<T> {
    Items(q) + match input { case None => [] case Some(x) => [x] }
  }

  /** An item comes out of the channel in cycle now. */
  ghost predicate Due<T>(q: seq<(int, T)>, input: Option<T>, delay: nat, now: int) {
    if q != [] then q[0].0 == now else input.Some? && delay == 1
  }

  /** Reading the input changes neither what is on the channel nor whether something comes out. */
  lemma ReadKeeps<T>(q: seq<(int, T)>, input: Option<T>, delay: nat, now: int)
    ensures var q1 := q + match input { case None => [] case Some(x) => [(now + delay - 1, x)] };
      OnChannel(q1, None) == OnChannel(q, input) && (q1 != [] && q1[0].0 == now <==> Due(q, input, delay, now))
  {
    var q1 := q + match input { case None => [] case Some(x) => [(now + delay - 1, x)] };
    assert OnChannel(q1, None) == OnChannel(q, input);
  }

  ghost predicate Names(list: seq<nat>, credit: L.Credit) {
    && (forall k, l :: 0 <= k < l < |list| ==> list[k] != list[l])
    && (forall v :: v in list <==> v in credit)
  }

  /** The lists of virtual channels that travel back are the credits of the loop. */
  ghost predicate Carry(lists: seq<seq<nat>>, credits: seq<L.Credit>) {
    |lists| == |credits| && forall k :: 0 <= k < |lists| ==> Names(lists[k], credits[k])
  }

  lemma DeliverStep(c: L.Config, l: L.Link)
    requires L.Inv(c, l) && l.wire != []
    ensures L.Enabled(c, l, L.Deliver) && L.Inv(c, L.Apply(c, l, L.Deliver))
    ensures l.wire[0].vc < |l.bufs| == |l.expected| && Sum(Lengths(l.bufs)) < c.size
    ensures l.expected[l.wire[0].vc] < 0 || l.wire[0].pid == l.expected[l.wire[0].vc]
  {
    L.StepKeepsInv(c, l, L.Deliver);
    L.NoFault(c, l, L.Deliver);
  }

  lemma CarryFirst(list: seq<nat>, lists: seq<seq<nat>>, credits: seq<L.Credit>)
    requires Carry([list] + lists, credits)
    ensures credits != [] && Names(list, credits[0]) && Carry(lists, credits[1..])
  {
    var all := [list] + lists;
    assert Names(all[0], credits[0]);
    forall k | 0 <= k < |lists|
      ensures Names(lists[k], credits[1..][k])
    {
      assert Names(all[k + 1], credits[k + 1]);
    }
  }

  lemma ReturnStep(c: L.Config, l: L.Link, list: seq<nat>)
    requires L.Inv(c, l) && l.credits != [] && Names(list, l.credits[0])
    ensures L.Enabled(c, l, L.Return) && L.Inv(c, L.Apply(c, l, L.Return))
    ensures forall k, m :: 0 <= k < m < |list| ==> list[k] != list[m]
    ensures forall k :: 0 <= k < |list| ==> list[k] < |l.vcs| && l.vcs[list[k]].occupancy > 0
    ensures forall v :: v in list <==> v in l.credits[0]
  {
    assert forall k :: 0 <= k < |list| ==> list[k] in list;
    L.StepKeepsInv(c, l, L.Return);
    forall v | v in l.credits[0]
      ensures v < |l.vcs| && l.vcs[v].occupancy > 0
    {
      L.CreditsAreOwed(c, l, v);
    }
  }

  /** The state of the loop once the sender has taken the credit. */
  lemma AfterReturn(c: L.Config, l: L.Link, list: seq<nat>, vcs: seq<Vc>)
    requires L.Enabled(c, l, L.Return) && (forall v :: v in list <==> v in l.credits[0]) && |vcs| == |l.vcs|
    requires forall v :: 0 <= v < |vcs| ==> vcs[v] == if v in list then Credited(c.policy, c.wait, l.vcs[v]) else l.vcs[v]
    ensures L.Apply(c, l, L.Return) == l.(credits := l.credits[1..], vcs := vcs)
  {
    assert vcs == L.CreditAll(c, l.vcs, l.credits[0].Keys);
  }

  lemma RemoveStep(c: L.Config, l: L.Link, s: set<nat>)
    requires L.Inv(c, l) && forall v :: v in s ==> v < |l.bufs| && l.bufs[v] != []
    ensures L.Enabled(c, l, L.Remove(s)) && L.Inv(c, L.Apply(c, l, L.Remove(s)))
  {
    L.StepKeepsInv(c, l, L.Remove(s));
  }

  /** The state of the loop once the flits are removed. */
  lemma AfterRemove(c: L.Config, l: L.Link, s: set<nat>, bufs: seq<seq<Flit>>)
    requires L.Enabled(c, l, L.Remove(s)) && |bufs| == |l.bufs|
    requires forall v :: 0 <= v < |bufs| ==> bufs[v] == if v in s then l.bufs[v][1..] else l.bufs[v]
    ensures L.Apply(c, l, L.Remove(s)) == l.(bufs := bufs, credits := l.credits + [map v | v in s :: l.bufs[v][0]])
  {
    assert bufs == L.Apply(c, l, L.Remove(s)).bufs;
  }

  lemma CarryMore(lists: seq<seq<nat>>, credits: seq<L.Credit>, list: seq<nat>, credit: L.Credit)
    requires Carry(lists, credits) && Names(list, credit)
    ensures Carry(lists + [list], credits + [credit])
  {
  }

  /** The steps of sending a flit: a head takes its virtual channel first. */
  ghost function Sending(f: Flit): seq<L.Step> {
    (if f.head then [L.Take(f.vc, f.pid)] else []) + [L.Send(f)]
  }

  /** What a cycle of injection does to the loop. */
  ghost function Injecting(r: Outcome): seq<L.Step> {
    if r.Left? then Sending(r.f) else []
  }

  /** The steps lead through the states of the run to l. */
  ghost predicate Leads(c: L.Config, run: seq<L.Link>, steps: seq<L.Step>, l: L.Link) {
    L.IsRun(c, |l.vcs|, run, steps) && run[|steps|] == l
  }

  lemma LeadsOn(c: L.Config, run: seq<L.Link>, steps: seq<L.Step>, l: L.Link, s: L.Step)
    requires Leads(c, run, steps, l) && L.Enabled(c, l, s)
    ensures Leads(c, run + [L.Apply(c, l, s)], steps + [s], L.Apply(c, l, s))
  {
    var m := L.Apply(c, l, s);
    assert |m.vcs| == |l.vcs|;
    hide L.Enabled, L.WellFormed;
    var run1, steps1 := run + [m], steps + [s];
    forall i | 0 <= i < |steps1|
      ensures L.Enabled(c, run1[i], steps1[i]) && run1[i + 1] == L.Apply(c, run1[i], steps1[i])
    {
      assert i < |steps| ==> run1[i] == run[i] && run1[i + 1] == run[i + 1] && steps1[i] == steps[i];
    }
  }

  /** The loop after a flit was sent. */
  ghost function AfterSending(c: L.Config, l: L.Link, f: Flit): L.Link
    requires f.vc < |l.vcs| == |l.open|
  {
    l.(vcs := l.vcs[f.vc := SentBy(c.wait, l.vcs[f.vc], f)], open := l.open[f.vc := Open(f)], wire := l.wire + [f])
  }

  lemma SendingIs(c: L.Config, l: L.Link, f: Flit)
    requires f.vc < |l.vcs| == |l.open|
    ensures AfterSending(c, l, f)
      == L.Link(l.vcs[f.vc := SentBy(c.wait, l.vcs[f.vc], f)], l.open[f.vc := Open(f)], l.wire + [f], l.bufs, l.expected, l.credits)
  {
  }

  /** Injection is a step of the loop, or two when the flit is a head. */
  lemma InjectStep(c: L.Config, run: seq<L.Link>, steps: seq<L.Step>, l: L.Link, f: Flit) returns (run1: seq<L.Link>)
    requires Leads(c, run, steps, l)
    requires L.Inv(c, l) && f.vc < |l.vcs| && Fits(c.policy, l.vcs) && !Full(c.policy, l.vcs, f.vc)
    requires |l.open| == |l.vcs| && Continues(l.open[f.vc], f)
    requires if f.head then l.vcs[f.vc].inUseBy < 0 else CanSend(l.vcs[f.vc])
    ensures L.Inv(c, AfterSending(c, l, f))
    ensures Leads(c, run1, steps + Sending(f), AfterSending(c, l, f))
  {
    hide Leads;
    var m, steps1 := l, steps;
    run1 := run;
    if f.head {
      L.StepKeepsInv(c, l, L.Take(f.vc, f.pid));
      LeadsOn(c, run, steps, l, L.Take(f.vc, f.pid));
      m := L.Apply(c, l, L.Take(f.vc, f.pid));
      run1, steps1 := run + [m], steps + [L.Take(f.vc, f.pid)];
      TakenNotFull(c.policy, c.wait, l.vcs, f.vc, f.pid);
    }
    L.StepKeepsInv(c, m, L.Send(f));
    LeadsOn(c, run1, steps1, m, L.Send(f));
    assert L.Apply(c, m, L.Send(f)).vcs == l.vcs[f.vc := SentBy(c.wait, l.vcs[f.vc], f)];
    assert L.Apply(c, m, L.Send(f)) == AfterSending(c, l, f);
    assert steps1 + [L.Send(f)] == steps + Sending(f);
    run1 := run1 + [AfterSending(c, l, f)];
  }

  class Segment {
    const inj: Injector
    const wire: Channel<Flit>
    const buf: Buffer
    const back: Channel<seq<nat>>
    /** Which flits the credits under way stand for. */
    ghost var credits: seq<L.Credit>
    /** The run of the credit loop so far. */
    ghost var run: seq<L.Link>
    ghost var steps: seq<L.Step>

    ghost function Loop(): L.Link
      reads this, inj, inj.dest, wire, buf
    {
      L.Link(inj.dest.vc, inj.history.openOn, OnChannel(wire.waitQueue, wire.input), buf.vc, buf.expectedPid, credits)
    }

    ghost function Cfg(): L.Config {
      L.Config(inj.dest.policy, inj.dest.waitForTailCredit, inj.dest.size)
    }

    /** The objects are in the state that the steps so far lead to. */
    ghost predicate Valid()
      reads this, inj, inj.dest, inj.dest.heldSlots, inj.dest.feedback, wire, buf, back
    {
      && inj.Valid() && inj.setting.SafeFor(inj.Tight()) && buf.Valid() && buf.size == inj.dest.size
      && Leads(Cfg(), run, steps, Loop()) && L.Inv(Cfg(), Loop())
      && Carry(OnChannel(back.waitQueue, back.input), credits)
      && wire.delay > 0 && back.delay > 0 && (wire as object) != (back as object)
    }

    /** Both channels are on time at the start of cycle now. */
    ghost predicate OnTimeAt(now: int)
      reads wire, back
    {
      OnTime(wire.waitQueue, wire.delay, now) && OnTime(back.waitQueue, back.delay, now)
    }

    /** Both channels have read their inputs in cycle now. */
    ghost predicate ReadAt(now: int)
      reads wire, back
    {
      OnTime(wire.waitQueue, wire.delay + 1, now) && OnTime(back.waitQueue, back.delay + 1, now)
    }

    /** At the start nothing has been sent. */
    constructor (inj: Injector, wireDelay: nat, backDelay: nat)
      requires inj.Valid() && inj.setting.SafeFor(inj.Tight()) && wireDelay > 0 && backDelay > 0
      requires inj.dest.vc == seq(|inj.dest.vc|, _ => IDLE) && inj.history.openOn == seq(|inj.dest.vc|, _ => -1)
      ensures Valid() && this.inj == inj && steps == [] && forall now :: OnTimeAt(now)
    {
      this.inj := inj;
      var flits := new Channel<Flit>(wireDelay);
      wire := flits;
      buf := new Buffer(inj.dest.size, |inj.dest.vc|);
      back := new Channel<seq<nat>>(backDelay);
      credits, run, steps := [], [L.Start(|inj.dest.vc|)], [];
      new;
      assert Items(wire.waitQueue) == [] && Items(back.waitQueue) == [];
      L.StartInv(Cfg(), |inj.dest.vc|);
      assert Loop() == L.Start(|inj.dest.vc|);
    }

    method ReadFlits(now: int)
      requires Valid() && OnTime(wire.waitQueue, wire.delay, now)
      modifies wire`input, wire`waitQueue
      ensures Valid() && OnTime(wire.waitQueue, wire.delay + 1, now) && wire.input == None
      ensures wire.waitQueue != [] && wire.waitQueue[0].0 == now <==> old(Due(wire.waitQueue, wire.input, wire.delay, now))
    {
      hide L.Inv, Injector.Valid, BufferState.Valid, InjectionOk, Setting.SafeFor, Carry, Leads, OnChannel, Due, OnTime, Buffer.Valid;
      ReadKeeps(wire.waitQueue, wire.input, wire.delay, now);
      wire.ReadInputs(now);
    }

    method ReadCredits(now: int)
      requires Valid() && OnTime(back.waitQueue, back.delay, now)
      modifies back`input, back`waitQueue
      ensures Valid() && OnTime(back.waitQueue, back.delay + 1, now) && back.input == None
      ensures back.waitQueue != [] && back.waitQueue[0].0 == now <==> old(Due(back.waitQueue, back.input, back.delay, now))
    {
      hide L.Inv, Injector.Valid, BufferState.Valid, InjectionOk, Setting.SafeFor, Carry, Leads, OnChannel, Due, OnTime, Buffer.Valid;
      ReadKeeps(back.waitQueue, back.input, back.delay, now);
      back.ReadInputs(now);
    }

    /** The channels take up what was sent in the last cycle. */
    method ReadInputs(now: int)
      requires Valid() && OnTimeAt(now)
      modifies wire`input, wire`waitQueue, back`input, back`waitQueue
      ensures Valid() && ReadAt(now) && wire.input == None && back.input == None
      ensures wire.waitQueue != [] && wire.waitQueue[0].0 == now <==> old(Due(wire.waitQueue, wire.input, wire.delay, now))
      ensures back.waitQueue != [] && back.waitQueue[0].0 == now <==> old(Due(back.waitQueue, back.input, back.delay, now))
    {
      hide Valid, OnTime, Due;
      ReadFlits(now);
      ghost var flits := wire.waitQueue;
      ReadCredits(now);
      assert wire.waitQueue == flits;
    }

    /** One cycle of injection; the flit, if there is one, goes on the wire. */
    method Inject(ranges: seq<Range>, now: int) returns (ok: bool)
      requires Valid() && wire.input == None
      requires Shaped(inj.setting, inj.St(), inj.FullAt(now), ranges) && RoutesOk(inj.setting, ranges)
      modifies this`run, this`steps, wire`input, inj, inj.dest, inj.dest.heldSlots, inj.dest.feedback
      ensures ok && Valid()
      ensures steps == old(steps) +
        Injecting(Injection.Cycle(inj.setting, inj.dest.waitForTailCredit, old(inj.St()), old(inj.FullAt(now)), ranges))
    {
      hide L.Inv, Injector.Valid, BufferState.Valid, InjectionOk, Setting.SafeFor, Shaped, RoutesOk, Injection.Cycle;
      hide Injector.FullAt, Leads, Sending, Carry, AfterSending;
      ghost var c, l := Cfg(), Loop();
      var sent, f;
      ok, sent, f := inj.Inject(ranges, now);
      if sent {
        ghost var run1 := InjectStep(c, run, steps, l, f);
        wire.Send(f);
        run, steps := run1, steps + Sending(f);
        assert OnChannel(wire.waitQueue, wire.input) == l.wire + [f];
        SendingIs(c, l, f);
      }
    }

    method RemoveAll(vcs: seq<nat>) returns (ok: bool)
      requires buf.Valid() && forall k :: 0 <= k < |vcs| ==> vcs[k] < |buf.vc| && buf.vc[vcs[k]] != []
      requires forall k, l :: 0 <= k < l < |vcs| ==> vcs[k] != vcs[l]
      modifies buf
      ensures ok && buf.Valid() && |buf.vc| == |old(buf.vc)| && buf.expectedPid == old(buf.expectedPid)
      ensures forall v :: 0 <= v < |buf.vc| ==> buf.vc[v] == if v in vcs then old(buf.vc)[v][1..] else old(buf.vc)[v]
    {
      ok := true;
      var k := 0;
      while k < |vcs|
        invariant k <= |vcs| && ok && buf.Valid() && |buf.vc| == |old(buf.vc)| && buf.expectedPid == old(buf.expectedPid)
        invariant forall v :: 0 <= v < |buf.vc| ==> buf.vc[v] == if v in vcs[..k] then old(buf.vc)[v][1..] else old(buf.vc)[v]
      {
        assert vcs[k] !in vcs[..k] && vcs[..k + 1] == vcs[..k] + [vcs[k]];
        var f;
        ok, f := buf.RemoveFlit(vcs[k]);
        k := k + 1;
      }
      assert vcs[..k] == vcs;
    }

    /** The router takes a flit out of each of the named virtual channels and sends a credit for them. */
    method Remove(vcs: seq<nat>) returns (ok: bool)
      requires Valid() && back.input == None
      requires forall k :: 0 <= k < |vcs| ==> vcs[k] < |buf.vc| && buf.vc[vcs[k]] != []
      requires forall k, l :: 0 <= k < l < |vcs| ==> vcs[k] != vcs[l]
      modifies this`credits, this`run, this`steps, back`input, buf
      ensures ok && Valid() && steps == old(steps) + [L.Remove(set v | v in vcs)]
    {
      hide L.Inv, Injector.Valid, BufferState.Valid, InjectionOk, Setting.SafeFor, Leads, Carry, L.Enabled, L.Apply;
      ghost var c, l := Cfg(), Loop();
      ghost var s := set v | v in vcs;
      ok := RemoveAll(vcs);
      RemoveStep(c, l, s);
      AfterRemove(c, l, s, buf.vc);
      LeadsOn(c, run, steps, l, L.Remove(s));
      ghost var credit := map v | v in s :: l.bufs[v][0];
      assert Names(vcs, credit);
      CarryMore(OnChannel(back.waitQueue, back.input), credits, vcs, credit);
      back.Send(vcs);
      credits := credits + [credit];
      run, steps := run + [Loop()], steps + [L.Remove(s)];
      assert OnChannel(back.waitQueue, back.input) == old(OnChannel(back.waitQueue, back.input)) + [vcs];
    }

    /** The flit that is due arrives.  The buffer has room and expects it. */
    method Deliver(now: int) returns (ok: bool)
      requires Valid() && OnTime(wire.waitQueue, wire.delay + 1, now)
      modifies this`run, this`steps, wire`output, wire`waitQueue, buf
      ensures ok && Valid() && OnTime(wire.waitQueue, wire.delay, now + 1)
      ensures steps == old(steps) + if old(wire.waitQueue) != [] && old(wire.waitQueue)[0].0 == now then [L.Deliver] else []
    {
      hide L.Inv, Injector.Valid, BufferState.Valid, InjectionOk, Setting.SafeFor, Leads;
      ghost var c, l := Cfg(), Loop();
      wire.WriteOutputs(now);
      ok := true;
      if wire.output.Some? {
        var f := wire.output.value;
        assert l.wire == [f] + OnChannel(wire.waitQueue, wire.input);
        DeliverStep(c, l);
        LeadsOn(c, run, steps, l, L.Deliver);
        ok := buf.AddFlit(f.vc, f);
        run, steps := run + [L.Apply(c, l, L.Deliver)], steps + [L.Deliver];
        assert Loop() == L.Apply(c, l, L.Deliver);
      }
    }

    /** The credit that is due arrives, in time for the next cycle.  Every slot it names is occupied. */
    method Return(now: int) returns (ok: bool)
      requires Valid() && OnTime(back.waitQueue, back.delay + 1, now)
      modifies this`credits, this`run, this`steps, back`output, back`waitQueue, inj.dest, inj.dest.heldSlots, inj.dest.feedback
      ensures ok && Valid() && OnTime(back.waitQueue, back.delay, now + 1)
      ensures steps == old(steps) + if old(back.waitQueue) != [] && old(back.waitQueue)[0].0 == now then [L.Return] else []
      ensures old(back.waitQueue) != [] && old(back.waitQueue)[0].0 == now && inj.dest.extra.RoundTrip? ==>
        && inj.dest.feedback.Valid()
        && inj.dest.feedback.MeasuresAll(old(back.waitQueue)[0].1, old(inj.dest.feedback.Readings()), now + 1, inj.dest.feedback.Readings())
    {
      hide L.Inv, Injector.Valid, BufferState.Valid, InjectionOk, Setting.SafeFor, Carry, Names, Credited, Leads, L.Enabled, L.Apply;
      hide Feedback.MeasuresAll, Feedback.Readings, Feedback.Valid;
      ghost var c, l := Cfg(), Loop();
      ghost var lists := OnChannel(back.waitQueue, back.input);
      back.WriteOutputs(now);
      ok := true;
      if back.output.Some? {
        var list := back.output.value;
        assert lists == [list] + OnChannel(back.waitQueue, back.input);
        CarryFirst(list, OnChannel(back.waitQueue, back.input), credits);
        ReturnStep(c, l, list);
        LeadsOn(c, run, steps, l, L.Return);
        ok := inj.ReceiveCredit(list, now + 1);
        credits := credits[1..];
        run, steps := run + [L.Apply(c, l, L.Return)], steps + [L.Return];
        AfterReturn(c, l, list, inj.dest.vc);
      }
    }

    /** A whole cycle, in the simulator's order: inputs are read, a flit is injected, the router works, outputs are
        written.  Nothing fails, for any traffic, any routing within the classes' virtual channels and any choice of
        flits to remove; the cycle is the stated steps of the loop. */
    method Cycle(ranges: seq<Range>, vcs: seq<nat>, now: int) returns (ok: bool)
      requires Valid() && OnTimeAt(now) && Shaped(inj.setting, inj.St(), inj.FullAt(now), ranges) && RoutesOk(inj.setting, ranges)
      requires forall k :: 0 <= k < |vcs| ==> vcs[k] < |buf.vc| && buf.vc[vcs[k]] != []
      requires forall k, l :: 0 <= k < l < |vcs| ==> vcs[k] != vcs[l]
      modifies this`credits, this`run, this`steps, wire, back, buf, inj, inj.dest, inj.dest.heldSlots, inj.dest.feedback
      ensures ok && Valid() && OnTimeAt(now + 1)
      ensures steps == old(steps)
        + Injecting(Injection.Cycle(inj.setting, inj.dest.waitForTailCredit, old(inj.St()), old(inj.FullAt(now)), ranges))
        + (if vcs != [] then [L.Remove(set v | v in vcs)] else [])
        + (if old(Due(wire.waitQueue, wire.input, wire.delay, now)) then [L.Deliver] else [])
        + (if old(Due(back.waitQueue, back.input, back.delay, now)) then [L.Return] else [])
    {
      hide L.Inv, Injector.Valid, BufferState.Valid, InjectionOk, Setting.SafeFor, RoutesOk, Shaped, Carry, OnChannel, OnTime, Leads;
      hide Injecting, Injection.Cycle, Due;
      ReadInputs(now);
      ok := Inject(ranges, now);
      if vcs != [] {
        ok := Remove(vcs);
      }
      ok := Deliver(now);
      ok := Return(now);
    }
  }
}
