/** The injector of one node and subnet, as the code runs it. */
module Injectors {
  import opened Flits
  import opened FlowControl
  import opened BufferStates
  import opened FeedbackLimits
  import opened Injection
  import opened Holding
  import opened Numbering

  ghost function SentAt(times: seq<seq<int>>, v: nat, now: int): seq<seq<int>> {
    if v < |times| then times[v := times[v] + [now]] else times
  }

  class Injector {
    ghost const setting: Setting
    const dest: BufferState
    const onSubnet: seq<bool>
    const injSize: nat
    var queues: seq<seq<Queued>>
    var lastVc: seq<int>
    var lastClass: nat
    var curPid: nat
    var curId: nat
    ghost var history: History
    /** The limit of each virtual channel that was in force when a flit was last sent on it. */
    ghost var limitAt: seq<int>
    /** All flits made so far. */
    ghost var made: seq<Flit>

    ghost function St(): State
      reads this, dest
    {
      State(dest.vc, queues, lastVc, lastClass, curPid, curId)
    }

    /** What the buffer's policy reports at time now. */
    ghost function FullAt(now: int): seq<bool>
      requires dest.Valid()
      reads dest, dest.heldSlots, dest.feedback
    {
      seq(|dest.vc|, v requires 0 <= v < |dest.vc| reads dest, dest.heldSlots, dest.feedback => dest.Valid() && v < |dest.vc| && dest.IsFullFor(v, now))
    }

    /** A virtual channel of the buffer in use is being sent on or full. */
    ghost predicate Tight() {
      Holding.Tight(dest.policy, dest.waitForTailCredit)
    }

    ghost predicate Sound()
      reads this, dest, dest.heldSlots, dest.feedback
    {
      dest.Valid() && onSubnet == setting.here && InjectionOk(setting, Tight(), St(), history) && WithinLimits()
    }

    ghost predicate Valid()
      reads this, dest, dest.heldSlots, dest.feedback
    {
      Sound() && Accounted(St(), history.sent, made)
    }

    /** No virtual channel holds more than the limit that was in force at the last send on it. */
    ghost predicate WithinLimits()
      reads this`limitAt, dest
    {
      |limitAt| == |dest.vc| && forall v :: 0 <= v < |dest.vc| ==> dest.vc[v].occupancy <= limitAt[v]
    }

    constructor (ghost setting: Setting, dest: BufferState, onSubnet: seq<bool>, injSize: nat)
      requires dest.Valid() && setting.Ok() && onSubnet == setting.here
      requires forall v :: 0 <= v < |dest.vc| ==> dest.vc[v] == IDLE
      ensures Valid() && this.dest == dest && this.setting == setting && history.sent == seq(|dest.vc|, _ => []) && made == []
      ensures curPid == 0 && curId == 0 && lastClass == 0 && queues == seq(|onSubnet|, _ => []) && lastVc == seq(|onSubnet|, _ => -1)
      ensures this.onSubnet == onSubnet && this.injSize == injSize
    {
      this.setting, this.dest, this.onSubnet, this.injSize := setting, dest, onSubnet, injSize;
      queues, lastVc, lastClass := seq(|onSubnet|, _ => []), seq(|onSubnet|, _ => -1), 0;
      curPid, curId := 0, 0;
      limitAt, made := seq(|dest.vc|, _ => 0), [];
      history := History(seq(|onSubnet|, _ => -1), seq(|dest.vc|, _ => []), seq(|dest.vc|, _ => -1), seq(|dest.vc|, _ => 0));
      new;
      assert Bare([]) == [];
      NothingMade(St(), history.sent);
    }

    /** All flits of a packet join the queue at once, unless the queue is long already. */
    method GeneratePacket(c: nat, destination: int, size: nat, pri: int) returns (pid: int)
      requires Valid() && setting.Class(c) && setting.low[c] <= pri <= setting.high[c]
      modifies this`queues, this`curPid, this`curId, this`made
      ensures Valid()
      ensures pid == (if |old(queues[c])| >= injSize || destination == -1 then -1 else old(curPid))
      ensures St() == if pid == -1 then old(St()) else Generated(old(St()), c, size, pri)
      ensures pid == -1 ==> made == old(made)
      ensures pid != -1 ==>
        var n := |old(queues[c])|;
        && curPid == old(curPid) + 1 && curId == old(curId) + size
        && n <= |queues[c]| && queues == old(queues)[c := old(queues[c]) + queues[c][n..]]
        && IsPacket(queues[c][n..], old(curId), pid, size, pri) && made == old(made) + Bare(queues[c][n..])
    {
      Sizes(setting, St(), history);
      hide InjectionOk, BufferState.Valid, Accounted, Packet, IsPacket, Bare, WithinLimits;
      if |queues[c]| >= injSize {
        return -1;
      }
      if destination == -1 {
        return -1;
      }
      ghost var before, id := St(), curId;
      pid := curPid;
      curPid := curPid + 1;
      PushFlits(c, size, pri, pid);
      PacketFlits(id, pid, size, pri);
      Rest(before.queues[c], Packet(id, pid, size, pri));
      assert St() == Generated(before, c, size, pri);
      GenerateKeepsInjection(setting, Tight(), before, history, c, size, pri);
      GenerateAccounts(before, history.sent, made, c, size, pri);
      made := made + Bare(Packet(id, pid, size, pri));
    }

    /** The flits of packet p join the queue. */
    method PushFlits(c: nat, size: nat, pri: int, p: nat)
      requires c < |queues|
      modifies this`queues, this`curId
      ensures queues == old(queues)[c := old(queues[c]) + Packet(old(curId), p, size, pri)] && curId == old(curId) + size
    {
      var i := 0;
      ghost var id := curId;
      while i < size
        invariant i <= size && curId == id + i && |queues| == |old(queues)|
        invariant queues[c] == old(queues[c]) + Packet(id, p, size, pri)[..i]
        invariant queues == old(queues)[c := queues[c]]
      {
        assert Packet(id, p, size, pri)[..i + 1] == Packet(id, p, size, pri)[..i] + [Queued(curId, p, i == 0, i == size - 1, pri, -1)];
        queues := queues[c := queues[c] + [Queued(curId, p, i == 0, i == size - 1, pri, -1)]];
        curId := curId + 1;
        i := i + 1;
      }
      assert Packet(id, p, size, pri)[..size] == Packet(id, p, size, pri);
    }

    method ReceiveCredit(vcs: seq<nat>, now: int) returns (ok: bool)
      requires Valid() && (forall k :: 0 <= k < |vcs| ==> vcs[k] < |dest.vc|)
      requires forall k, l :: 0 <= k < l < |vcs| ==> vcs[k] != vcs[l]
      modifies dest, dest.heldSlots, dest.feedback
      ensures ok <==> forall k :: 0 <= k < |vcs| ==> old(dest.vc)[vcs[k]].occupancy > 0
      ensures ok ==> Valid() && |dest.vc| == |old(dest.vc)|
      ensures ok ==> forall v :: 0 <= v < |dest.vc| ==>
        dest.vc[v] == if v in vcs then Credited(dest.policy, dest.waitForTailCredit, old(dest.vc)[v]) else old(dest.vc)[v]
      ensures ok && dest.extra.RoundTrip? ==>
        dest.feedback.Valid() && dest.feedback.MeasuresAll(vcs, old(dest.feedback.Readings()), now, dest.feedback.Readings())
    {
      hide InjectionOk, BufferState.Counted, Capacity, Started, Feedback.MeasuresAll, Feedback.Readings;
      ghost var before := St();
      ok := dest.ProcessCredit(vcs, now);
      if ok {
        CreditsKeepInjection(setting, Tight(), before, dest.vc, history);
      }
    }

    /** The next usable virtual channel after the class's last one. */
    method SelectVc(c: nat, range: Range, now: int) returns (v: int)
      requires dest.Valid() && c < |lastVc| && range.0 <= range.1 < |dest.vc|
      ensures v == Select(dest.vc, FullAt(now), lastVc[c], range, 1)
      ensures if v == -1 then NoneUsable(dest.vc, FullAt(now), lastVc[c], range)
              else NextUsable(dest.vc, FullAt(now), lastVc[c], range, v)
    {
      hide BufferState.Valid, BufferState.IsFullFor;
      var count := range.1 - range.0 + 1;
      var last := lastVc[c];
      ghost var full := FullAt(now);
      var i := 1;
      if Select(dest.vc, full, last, range, 1) == -1 {
        SelectFindsAll(dest.vc, full, last, range);
      } else {
        SelectIsNext(dest.vc, full, last, range);
      }
      while i <= count
        invariant 1 <= i <= count + 1
        invariant Select(dest.vc, full, last, range, 1) == Select(dest.vc, full, last, range, i)
      {
        v := Tried(last, range, i);
        if dest.vc[v].inUseBy < 0 {
          if !dest.IsFullFor(v, now) {
            return;
          }
        }
        i := i + 1;
      }
      v := -1;
    }

    /** The send times of the uncredited flits of each virtual channel, where the policy keeps them. */
    ghost function Times(): seq<seq<int>>
      reads dest, dest.feedback
    {
      if dest.extra.RoundTrip? then dest.feedback.uncredited else []
    }

    ghost predicate Ready(full: seq<bool>, ranges: seq<Range>)
      reads this, dest, dest.heldSlots, dest.feedback
    {
      dest.Valid() && onSubnet == setting.here && Shaped(setting, St(), full, ranges)
    }

    /** Class c is considered against the winner so far. */
    method Consider(c: nat, w: int, ranges: seq<Range>, now: int) returns (w1: int)
      requires dest.Valid() && Ready(FullAt(now), ranges) && c < |queues| && Winner(St(), FullAt(now), w)
      modifies this`queues
      ensures (queues, w1) == Considered(setting, old(St()), FullAt(now), ranges, w, c)
    {
      hide BufferState.Valid, BufferState.IsFullFor, Select;
      w1 := w;
      if !onSubnet[c] || queues[c] == [] {
        return;
      }
      var cf := queues[c][0];
      if w >= 0 && queues[w][0].pri >= cf.pri {
        return;
      }
      ghost var full := FullAt(now);
      if cf.head && cf.vc == -1 {
        var v := SelectVc(c, ranges[c], now);
        if v != -1 {
          cf := cf.(vc := v);
          queues := queues[c := [cf] + queues[c][1..]];
        }
      }
      assert queues == old(queues)[c := Assigned(dest.vc, full, lastVc[c], ranges[c], old(queues)[c])];
      if cf.vc != -1 && !dest.IsFullFor(cf.vc, now) {
        w1 := c;
      }
    }

    /** The scan over all classes. */
    method Choose(ranges: seq<Range>, now: int) returns (w: int)
      requires dest.Valid() && Ready(FullAt(now), ranges)
      modifies this`queues
      ensures (queues, w) == Scan(setting, old(St()), FullAt(now), ranges, -1, 1)
    {
      hide BufferState.Valid, BufferState.IsFullFor, Considered, Shaped;
      SizeFacts(setting, St(), FullAt(now), ranges);
      w := -1;
      var n := |queues|;
      ghost var full, start := FullAt(now), St();
      var i := 1;
      while i <= n
        invariant 1 <= i <= n + 1 && |queues| == n == |setting.here| && Ready(full, ranges) && full == FullAt(now) && Winner(St(), full, w)
        invariant Scan(setting, start, full, ranges, -1, 1) == Scan(setting, St(), full, ranges, w, i)
      {
        ghost var st := St();
        var c := (lastClass + i) % n;
        ScanUnfolds(setting, st, full, ranges, w, i);
        w := Consider(c, w, ranges, now);
        SizeFacts(setting, St(), full, ranges);
        i := i + 1;
      }
    }

    /** The buffer's side of a send: a head takes its virtual channel, if it is free, and the flit finds room. */
    method TakeAndSend(f: Flit, now: int) returns (ok: bool)
      requires dest.Valid() && f.vc < |dest.vc| && !Full(dest.policy, dest.vc, f.vc)
      requires f.head || CanSend(dest.vc[f.vc])
      modifies dest, dest.heldSlots, dest.feedback
      ensures ok <==> !f.head || old(dest.vc[f.vc].inUseBy) < 0
      ensures ok ==> dest.Valid() && dest.vc == old(dest.vc)[f.vc := SentBy(dest.waitForTailCredit, old(dest.vc[f.vc]), f)]
      ensures ok ==> Times() == SentAt(old(Times()), f.vc, now)
    {
      assert dest.extra.RoundTrip? ==> |dest.feedback.uncredited| == |dest.vc|;
      hide BufferState.ExtraOk, BufferState.Counted, Capacity, Started, FlowOk, Fits, Full;
      ghost var before := dest.vc;
      if f.head {
        if dest.vc[f.vc].inUseBy < 0 {
          TakenNotFull(dest.policy, dest.waitForTailCredit, dest.vc, f.vc, f.pid);
        }
        ok := dest.TakeBuffer(f.vc, f.pid);
        if !ok {
          return;
        }
        assert dest.vc == before[f.vc := Taken(before[f.vc], f.pid)];
      }
      ok := dest.SendingFlit(f.vc, f.tail, now);
      assert dest.vc == before[f.vc := SentBy(dest.waitForTailCredit, before[f.vc], f)];
    }

    /** The flit of highest priority that can be sent leaves. */
    method SendBest(ranges: seq<Range>, now: int) returns (ok: bool, sent: bool, f: Flit)
      requires Sound() && Shaped(setting, St(), FullAt(now), ranges) && RoutesOk(setting, ranges)
      modifies this, dest, dest.heldSlots, dest.feedback
      ensures ok && dest.Valid() && WithinLimits()
      ensures limitAt == if sent && f.vc < |old(limitAt)| then old(limitAt)[f.vc := old(dest.LimitFor(f.vc, now))] else old(limitAt)
      ensures var r := Cycle(setting, dest.waitForTailCredit, old(St()), old(FullAt(now)), ranges);
        if sent then r.Left? && r.st == St() && r.f == f else r == Idle(St())
      ensures setting.SafeFor(Tight()) ==> Sound()
      ensures made == old(made)
      ensures |dest.vc| == |old(dest.vc)| && (!sent ==> history == old(history) && dest.vc == old(dest.vc))
      ensures sent ==>
        && |old(history.sent)| == |old(history.openOn)| == |dest.vc| && f.vc < |dest.vc|
        && history.sent == old(history.sent)[f.vc := old(history.sent)[f.vc] + [f]]
        && history.openOn == old(history.openOn)[f.vc := Open(f)] && Continues(old(history.openOn)[f.vc], f)
        && dest.vc == old(dest.vc)[f.vc := SentBy(dest.waitForTailCredit, old(dest.vc)[f.vc], f)]
        && (if f.head then old(dest.vc)[f.vc].inUseBy < 0 else CanSend(old(dest.vc)[f.vc]))
        && Fits(dest.policy, old(dest.vc)) && !Full(dest.policy, old(dest.vc), f.vc)
      ensures Times() == if sent then SentAt(old(Times()), f.vc, now) else old(Times())
    {
      hide InjectionOk, BufferState.Valid, BufferState.IsFullFor, RoutesOk, Scan, Leave, Shaped, Setting.SafeFor;
      ghost var st0, full, wait, h := St(), FullAt(now), dest.waitForTailCredit, history;
      TightNow(now);
      CycleKeeps(setting, Tight(), wait, st0, h, full, ranges);
      var w := Choose(ranges, now);
      f := Flit(0, 0, 0, false, false);
      ok, sent := true, false;
      ghost var st1 := St();
      if w >= 0 {
        ClearAfter(setting, Tight(), st0, st1, h, full, ranges, w);
        ghost var v := st1.queues[w][0].vc;
        NotFullFor(v, now);
        limitAt := limitAt[v := dest.LimitFor(v, now)];
        sent := true;
        f := SendFront(w, now);
      }
    }

    /** One cycle of injection: what the state machine does.  From a valid state it meets no busy virtual channel, and in
        a safe setting it leaves a valid state. */
    method Inject(ranges: seq<Range>, now: int) returns (ok: bool, sent: bool, f: Flit)
      requires Valid() && Shaped(setting, St(), FullAt(now), ranges) && RoutesOk(setting, ranges)
      modifies this, dest, dest.heldSlots, dest.feedback
      ensures ok && dest.Valid() && WithinLimits()
      ensures limitAt == if sent && f.vc < |old(limitAt)| then old(limitAt)[f.vc := old(dest.LimitFor(f.vc, now))] else old(limitAt)
      ensures var r := Cycle(setting, dest.waitForTailCredit, old(St()), old(FullAt(now)), ranges);
        if sent then r.Left? && r.st == St() && r.f == f else r == Idle(St())
      ensures setting.SafeFor(Tight()) ==> Valid()
      ensures Accounted(St(), history.sent, made) && made == old(made)
      ensures |dest.vc| == |old(dest.vc)| && (!sent ==> history == old(history) && dest.vc == old(dest.vc))
      ensures sent ==>
        && |old(history.sent)| == |old(history.openOn)| == |dest.vc| && f.vc < |dest.vc|
        && history.sent == old(history.sent)[f.vc := old(history.sent)[f.vc] + [f]]
        && history.openOn == old(history.openOn)[f.vc := Open(f)] && Continues(old(history.openOn)[f.vc], f)
        && dest.vc == old(dest.vc)[f.vc := SentBy(dest.waitForTailCredit, old(dest.vc)[f.vc], f)]
        && (if f.head then old(dest.vc)[f.vc].inUseBy < 0 else CanSend(old(dest.vc)[f.vc]))
        && Fits(dest.policy, old(dest.vc)) && !Full(dest.policy, old(dest.vc), f.vc)
      ensures Times() == if sent then SentAt(old(Times()), f.vc, now) else old(Times())
    {
      Sizes(setting, St(), history);
      hide InjectionOk, BufferState.Valid, BufferState.IsFullFor, RoutesOk, Cycle, Shaped, Setting.SafeFor, Accounted;
      CycleAccounts(setting, dest.waitForTailCredit, St(), history.sent, made, FullAt(now), ranges);
      ok, sent, f := SendBest(ranges, now);
    }

    lemma TightNow(now: int)
      requires dest.Valid()
      ensures Tight() ==> IsTight(dest.vc, FullAt(now))
    {
      if Tight() {
        TightFull(dest.policy, dest.waitForTailCredit, dest.vc, FullAt(now));
      }
    }

    lemma NotFullFor(v: nat, now: int)
      requires dest.Valid() && v < |dest.vc| && !dest.IsFullFor(v, now)
      ensures Fits(dest.policy, dest.vc) && !Full(dest.policy, dest.vc, v) && dest.vc[v].occupancy < dest.LimitFor(v, now)
    {
    }

    method SendFront(w: nat, now: int) returns (f: Flit)
      requires dest.Valid() && w < |queues| == |lastVc| == |history.open| && queues[w] != [] && 0 <= queues[w][0].vc < |dest.vc|
      requires |history.sent| == |history.openOn| == |history.owner| == |dest.vc|
      requires Fits(dest.policy, dest.vc) && !Full(dest.policy, dest.vc, queues[w][0].vc)
      requires if queues[w][0].head then dest.vc[queues[w][0].vc].inUseBy < 0 else CanSend(dest.vc[queues[w][0].vc])
      modifies this`queues, this`lastVc, this`lastClass, this`history, dest, dest.heldSlots, dest.feedback
      ensures dest.Valid() && f == OnVc(old(queues)[w][0], old(queues)[w][0].vc)
      ensures Leave(dest.waitForTailCredit, old(St()), w) == Left(St(), f, w)
      ensures history == Noted(old(history), w, f)
      ensures Times() == SentAt(old(Times()), f.vc, now)
    {
      hide BufferState.Valid, Full, Fits, SentBy, NextQueue;
      var q := queues[w];
      f := OnVc(q[0], q[0].vc);
      var ok := TakeAndSend(f, now);
      NextQueueIs(q, f.vc);
      if f.head {
        lastVc := lastVc[w := f.vc];
      }
      lastClass := w;
      if |q| > 1 && !f.tail {
        queues := queues[w := [q[1].(vc := f.vc)] + q[2..]];
      } else {
        queues := queues[w := q[1..]];
      }
      history := Noted(history, w, f);
    }
  }
}
