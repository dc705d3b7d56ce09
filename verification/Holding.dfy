/** Heads that wait with a virtual channel, and why they do not run into another packet.

A virtual channel is tight when it is in use only while a packet is being sent on it, or full: always
so when virtual channels are free as soon as the tail has left, and with one slot each.  A waiting
head can then rely on the priority of whoever is sending on its virtual channel.  Otherwise nobody
else may use it.
*/
module Holding {
  import opened Flits
  import opened FlowControl
  import opened Injection

  /** The front flit of class c is a head that has a virtual channel. */
  ghost predicate Waits(st: State, h: History, c: nat)
    requires c < |st.queues| == |h.open|
  {
    h.open[c] < 0 && st.queues[c] != [] && st.queues[c][0].vc >= 0
  }

  /** A waiting head belongs to a class that can be outranked, and its virtual channel is free. */
  ghost predicate HoldsFree(s: Setting, st: State, h: History, c: nat)
    requires Sized(s, st, h) && s.Class(c)
  {
    Waits(st, h, c) ==> var v := st.queues[c][0].vc; s.Outranked(c) && v < |st.vcs| && st.vcs[v].inUseBy < 0
  }

  ghost predicate OutrankedAt(s: Setting, c: nat, p: int)
    requires s.Ok()
  {
    exists e :: s.Class(e) && e != c && s.high[e] > p
  }

  /** What is known of the class f served last while class c waits with v at priority p: it can outrank c, it uses another
      virtual channel, or it uses v at the same priority. */
  ghost predicate Passed(s: Setting, f: nat, c: nat, v: nat, p: int)
    requires s.Ok()
  {
    && s.Class(f) && f != c
    && (s.high[f] > p || (exists u :: u in s.vcsOf[f] && u != v) || (v in s.vcsOf[f] && s.low[f] <= p <= s.high[f]))
  }

  /** A waiting head has been outranked, and whoever is sending on its virtual channel outranks it. */
  ghost predicate HoldsBehind(s: Setting, st: State, h: History, c: nat)
    requires Sized(s, st, h) && s.Class(c)
  {
    Waits(st, h, c) ==>
      var v, p := st.queues[c][0].vc, st.queues[c][0].pri;
      && v < |st.vcs| && OutrankedAt(s, c, p) && Passed(s, st.lastClass, c, v, p)
      && (h.openOn[v] >= 0 ==> var d := h.owner[v]; d < |st.queues| && st.queues[d] != [] && st.queues[d][0].pri > p)
  }

  ghost predicate Holds(s: Setting, tight: bool, st: State, h: History, c: nat)
    requires Sized(s, st, h) && s.Class(c)
  {
    if tight then HoldsBehind(s, st, h, c) else HoldsFree(s, st, h, c)
  }

  /** The invariant between cycles. */
  ghost predicate InjectionOk(s: Setting, tight: bool, st: State, h: History) {
    Structured(s, st, h) && forall c :: s.Class(c) ==> Holds(s, tight, st, h, c)
  }

  /** Virtual channels that are in use and not full are being sent on. */
  ghost predicate IsTight(vcs: seq<Vc>, full: seq<bool>) {
    |full| == |vcs| && forall v :: 0 <= v < |vcs| && vcs[v].inUseBy >= 0 && !full[v] ==> CanSend(vcs[v])
  }

  ghost predicate Tight(policy: Policy, wait: bool) {
    !wait || (policy.Private? && policy.slots <= 1)
  }

  lemma TightFull(policy: Policy, wait: bool, vcs: seq<Vc>, full: seq<bool>)
    requires FlowOk(policy, wait, vcs) && Tight(policy, wait) && |full| == |vcs|
    requires forall v :: 0 <= v < |vcs| && Full(policy, vcs, v) ==> full[v]
    ensures IsTight(vcs, full)
  {
    forall v | 0 <= v < |vcs| && vcs[v].inUseBy >= 0 && !full[v]
      ensures CanSend(vcs[v])
    {
      assert VcOk(wait, vcs[v]) && !Full(policy, vcs, v);
    }
  }

  // ---- the winner's virtual channel ----

  /** The result of a scan. */
  ghost predicate Scanned(s: Setting, st: State, h: History, full: seq<bool>, ranges: seq<Range>, w: int, before: seq<seq<Queued>>) {
    && Shaped(s, st, full, ranges) && Winner(st, full, w) && |before| == |s.here| && Structured(s, st, h)
    && AllTouched(s, st, full, ranges, w, before) && AllServed(s, st, full, ranges, w) && (w >= 0 ==> s.here[w])
  }

  lemma ScanGives(s: Setting, st: State, h: History, full: seq<bool>, ranges: seq<Range>)
    requires Shaped(s, st, full, ranges) && RoutesOk(s, ranges) && Structured(s, st, h)
    ensures var (queues, w) := Scan(s, st, full, ranges, -1, 1);
      Scanned(s, st.(queues := queues), h, full, ranges, w, st.queues)
  {
    hide Structured, Scan, RoutesOk, Served;
    ScanKeeps(s, st, h, full, ranges, -1, 1);
    assert AllTouched(s, st, full, ranges, -1, st.queues);
    ScanTouches(s, st, full, ranges, -1, 1, st.queues);
    ScanServes(s, st, h, full, ranges, -1, 1);
  }

  /** A class whose front flit had a virtual channel was not touched. */
  lemma Untouched(s: Setting, st: State, h: History, full: seq<bool>, ranges: seq<Range>, w: int,
        before: seq<seq<Queued>>, c: nat)
    requires Scanned(s, st, h, full, ranges, w, before) && c < |s.here| && before[c] != [] && before[c][0].vc != -1
    ensures c < |st.queues| && st.queues[c] == before[c]
  {
    hide Structured;
    assert Touched(s, st, full, ranges, w, c, before[c]);
  }

  /** Whoever else has a sendable flit on the winner's virtual channel does not outrank it. */
  lemma NotOutranked(s: Setting, st: State, h: History, full: seq<bool>, ranges: seq<Range>, w: nat,
        before: seq<seq<Queued>>, c: nat)
    requires Scanned(s, st, h, full, ranges, w, before) && s.Class(c) && c != w && w < |st.queues|
    requires st.queues[c] != [] && st.queues[w] != [] && st.queues[c][0].vc == st.queues[w][0].vc
    ensures Ahead(s, st, w, st.queues[w][0].pri, c, st.queues[c][0].pri)
  {
    hide Structured;
    assert Served(s, st, full, ranges, w, c);
  }

  lemma TouchedOne(s: Setting, st: State, full: seq<bool>, ranges: seq<Range>, w: int, before: seq<seq<Queued>>, c: nat)
    requires Shaped(s, st, full, ranges) && Winner(st, full, w) && |before| == |s.here| && c < |s.here|
    requires AllTouched(s, st, full, ranges, w, before)
    ensures Touched(s, st, full, ranges, w, c, before[c])
  {
  }

  lemma BeingSentOn(s: Setting, st: State, h: History, v: nat)
    requires Structured(s, st, h) && v < |st.vcs|
    ensures Sized(s, st, h) && (CanSend(st.vcs[v]) <==> h.openOn[v] >= 0)
    ensures h.openOn[v] >= 0 ==> var d := h.owner[v];
      s.Class(d) && h.open[d] >= 0 && st.queues[d] != [] && st.queues[d][0].vc == v
  {
    assert SentOk(s, st, h, v);
  }

  lemma WinnerIsClear(s: Setting, tight: bool, st: State, st1: State, h: History, full: seq<bool>, ranges: seq<Range>, w: nat)
    requires InjectionOk(s, tight, st, h) && Scanned(s, st1, h, full, ranges, w, st.queues) && st1 == st.(queues := st1.queues)
    requires tight ==> IsTight(st.vcs, full)
    ensures w < |st1.queues| && s.Class(w) && Clear(st1, w)
  {
    hide Structured, AllTouched, AllServed;
    Sizes(s, st, h);
    assert s.Class(w);
    var f := st1.queues[w][0];
    FrontFacts(s, st1, h, w);
    assert Touched(s, st1, full, ranges, w, w, st.queues[w]) by {
      assert AllTouched(s, st1, full, ranges, w, st.queues);
      TouchedOne(s, st1, full, ranges, w, st.queues, w);
    }
    if f.head && st.vcs[f.vc].inUseBy >= 0 {
      assert st1.queues[w] == st.queues[w];
      assert Holds(s, tight, st, h, w);
      BeingSentOn(s, st, h, f.vc);
      var d := h.owner[f.vc];
      Untouched(s, st1, h, full, ranges, w, st.queues, d);
      NotOutranked(s, st1, h, full, ranges, w, st.queues, d);
    }
  }

  // ---- the others ----

  /** In a steady setting the head of class w is not considered before a waiting head of equal priority. */
  lemma NeverAhead(s: Setting, last: nat, c: nat, w: nat, v: nat, p: int)
    requires s.Steady() && s.Class(c) && s.Class(w) && c != w && v in s.vcsOf[c] && v in s.vcsOf[w] && last < |s.here|
    requires s.low[c] <= p <= s.high[c] && s.low[w] <= p <= s.high[w]
    requires OutrankedAt(s, c, p) && Passed(s, last, c, v, p)
    ensures Turn(last, c, |s.here|) <= Turn(last, w, |s.here|)
  {
    assert s.Meet(c, w, v) && !s.Overtaken(c, w, v) && !s.Overtaken(c, last, v);
    var e :| s.Class(e) && e != c && s.high[e] > p;
    assert !s.Between(last, c, w, v);
  }

  /** Class c, not the winner, waits with a virtual channel after the scan: it did before, or it was outranked just now. */
  lemma WaitingAfterScan(s: Setting, tight: bool, st: State, st1: State, h: History, full: seq<bool>,
        ranges: seq<Range>, w: nat, c: nat)
    requires InjectionOk(s, tight, st, h) && Scanned(s, st1, h, full, ranges, w, st.queues) && st1 == st.(queues := st1.queues)
    requires s.Class(c) && c != w && |st.queues| == |h.open| == |s.here| && Waits(st1, h, c)
    ensures w < |st1.queues| && st1.queues[w] != [] && 0 <= st1.queues[c][0].vc < |st.vcs| == |full|
    ensures Sized(s, st, h)
    ensures (Waits(st, h, c) && st1.queues[c] == st.queues[c] && Holds(s, tight, st, h, c)) ||
            (Usable(st.vcs, full, st1.queues[c][0].vc) && st1.queues[w][0].pri > st1.queues[c][0].pri)
  {
    hide Structured, AllTouched, AllServed, HoldsBehind, HoldsFree;
    Sizes(s, st, h);
    FrontFacts(s, st1, h, c);
    TouchedOne(s, st1, full, ranges, w, st.queues, c);
  }

  lemma NotWaiting(s: Setting, wait: bool, st: State, h: History, w: nat)
    requires Structured(s, st, h) && s.Class(w) && w < |st.queues| == |st.lastVc| && Clear(st, w)
    ensures Sized(s, st, h)
    ensures var r := Leave(wait, st, w); r.Left? && r.f.vc < |h.sent| && w < |r.st.queues| && !Waits(r.st, Noted(h, w, r.f), w)
  {
    assert QueueOk(s, st.vcs, h, w, st.queues[w]);
    NextFront(st.queues[w], st.queues[w][0].vc, |st.vcs|);
  }

  lemma BehindAfterSend(s: Setting, wait: bool, st: State, st1: State, h: History, full: seq<bool>,
        ranges: seq<Range>, w: nat, c: nat)
    requires InjectionOk(s, true, st, h) && Scanned(s, st1, h, full, ranges, w, st.queues) && st1 == st.(queues := st1.queues)
    requires s.Steady() && s.Class(c) && c != w && s.Class(w) && w < |st1.queues| == |st1.lastVc| && Clear(st1, w)
    requires Sized(s, st1, h) && Waits(st1, h, c)
    ensures var r := Leave(wait, st1, w); r.Left? && r.f.vc < |h.sent| && Sized(s, r.st, Noted(h, w, r.f)) && HoldsBehind(s, r.st, Noted(h, w, r.f), c)
  {
    hide Structured, AllTouched, AllServed, Setting.Steady;
    FrontFacts(s, st1, h, w);
    FrontFacts(s, st1, h, c);
    WaitingAfterScan(s, true, st, st1, h, full, ranges, w, c);
    var r := Leave(wait, st1, w);
    var f, v, p := r.f, st1.queues[c][0].vc, st1.queues[c][0].pri;
    var pw := st1.queues[w][0].pri;
    if pw > p {
      assert OutrankedAt(s, c, p) && Passed(s, w, c, v, p);
    }
    if f.vc == v {
      NotOutranked(s, st1, h, full, ranges, w, st.queues, c);
      if pw == p {
        assert HoldsBehind(s, st, h, c);
        if f.head {
          NeverAhead(s, st.lastClass, c, w, v, p);
        } else {
          BeingSentOn(s, st, h, v);
          Untouched(s, st1, h, full, ranges, w, st.queues, w);
        }
      }
      NextFront(st1.queues[w], v, |st.vcs|);
    } else {
      BeingSentOn(s, st, h, v);
      if h.openOn[v] >= 0 {
        Untouched(s, st1, h, full, ranges, w, st.queues, h.owner[v]);
      }
    }
  }

  /** The state after the winner's flit has left, and what it means for class c. */
  lemma HoldsAfterSend(s: Setting, tight: bool, wait: bool, st: State, st1: State, h: History, full: seq<bool>,
        ranges: seq<Range>, w: nat, c: nat)
    requires InjectionOk(s, tight, st, h) && Scanned(s, st1, h, full, ranges, w, st.queues) && st1 == st.(queues := st1.queues)
    requires s.SafeFor(tight) && s.Class(c) && s.Class(w) && w < |st1.queues| == |st1.lastVc| && Clear(st1, w)
    ensures Sized(s, st, h)
    ensures var r := Leave(wait, st1, w); r.Left? && r.f.vc < |h.sent| && Sized(s, r.st, Noted(h, w, r.f)) && Holds(s, tight, r.st, Noted(h, w, r.f), c)
  {
    Sizes(s, st, h);
    hide Structured, AllTouched, AllServed;
    var r := Leave(wait, st1, w);
    var h2 := Noted(h, w, r.f);
    if c == w {
      NotWaiting(s, wait, st1, h, w);
    } else if Waits(r.st, h2, c) {
      FrontFacts(s, st1, h, w);
      FrontFacts(s, st1, h, c);
      WaitingAfterScan(s, tight, st, st1, h, full, ranges, w, c);
      if tight {
        BehindAfterSend(s, wait, st, st1, h, full, ranges, w, c);
      } else {
        assert s.Outranked(c);
      }
    }
  }

  lemma NothingTouched(s: Setting, st: State, full: seq<bool>, ranges: seq<Range>, before: seq<seq<Queued>>)
    requires Shaped(s, st, full, ranges) && |before| == |s.here| && AllTouched(s, st, full, ranges, -1, before)
    ensures st.queues == before
  {
    forall c | 0 <= c < |before|
      ensures st.queues[c] == before[c]
    {
      TouchedOne(s, st, full, ranges, -1, before, c);
    }
  }

  /** A cycle from such a state meets no busy virtual channel.  In a safe setting the state is such a state again: whole
      packets stay whole. */
  lemma CycleKeeps(s: Setting, tight: bool, wait: bool, st: State, h: History, full: seq<bool>, ranges: seq<Range>)
    requires Shaped(s, st, full, ranges) && RoutesOk(s, ranges) && InjectionOk(s, tight, st, h)
    requires tight ==> IsTight(st.vcs, full)
    ensures Sized(s, st, h)
    ensures var r := Cycle(s, wait, st, full, ranges);
      && !r.Busy?
      && (r.Idle? ==> InjectionOk(s, tight, r.st, h) && r.st.vcs == st.vcs)
      && (r.Left? ==>
            && r.f.vc < |st.vcs| && !full[r.f.vc] && r.from < |h.open|
            && (s.SafeFor(tight) ==> InjectionOk(s, tight, r.st, Noted(h, r.from, r.f)))
            && Continues(h.openOn[r.f.vc], r.f)
            && (if r.f.head then st.vcs[r.f.vc].inUseBy < 0 else CanSend(st.vcs[r.f.vc]))
            && r.st.vcs == st.vcs[r.f.vc := SentBy(wait, st.vcs[r.f.vc], r.f)])
  {
    hide Structured, RoutesOk, Scan, Holds, Setting.SafeFor, Leave;
    Sizes(s, st, h);
    ScanGives(s, st, h, full, ranges);
    var (queues, w) := Scan(s, st, full, ranges, -1, 1);
    var st1 := st.(queues := queues);
    if w >= 0 {
      WinnerIsClear(s, tight, st, st1, h, full, ranges, w);
      ContinuesOnVc(s, st1, h, w);
      LeaveIs(wait, st1, w);
      LeaveKeeps(s, wait, st1, h, w);
      var r := Leave(wait, st1, w);
      Sizes(s, r.st, Noted(h, w, r.f));
      if s.SafeFor(tight) {
        forall c | s.Class(c)
          ensures Holds(s, tight, r.st, Noted(h, w, r.f), c)
        {
          HoldsAfterSend(s, tight, wait, st, st1, h, full, ranges, w, c);
        }
      }
    } else {
      NothingTouched(s, st1, full, ranges, st.queues);
      assert st1 == st;
    }
  }

  lemma ClearAfter(s: Setting, tight: bool, st: State, st1: State, h: History, full: seq<bool>, ranges: seq<Range>, w: nat)
    requires Shaped(s, st, full, ranges) && RoutesOk(s, ranges)
    requires InjectionOk(s, tight, st, h) && (tight ==> IsTight(st.vcs, full))
    requires st1 == st.(queues := st1.queues) && Scan(s, st, full, ranges, -1, 1) == (st1.queues, w)
    ensures Structured(s, st1, h) && w < |st1.queues| && s.Class(w) && Clear(st1, w)
    ensures var f := st1.queues[w][0]; if f.head then st.vcs[f.vc].inUseBy < 0 else CanSend(st.vcs[f.vc])
  {
    hide Structured, RoutesOk, Scan, Holds;
    ScanGives(s, st, h, full, ranges);
    WinnerIsClear(s, tight, st, st1, h, full, ranges, w);
    ContinuesOnVc(s, st1, h, w);
  }

  lemma CreditsKeepInjection(s: Setting, tight: bool, st: State, vcs1: seq<Vc>, h: History)
    requires InjectionOk(s, tight, st, h) && CreditOnly(st.vcs, vcs1)
    ensures InjectionOk(s, tight, st.(vcs := vcs1), h)
  {
    CreditsKeepStructure(s, st, vcs1, h);
    hide Structured;
    Sizes(s, st, h);
    forall c | s.Class(c)
      ensures Holds(s, tight, st.(vcs := vcs1), h, c)
    {
      assert Holds(s, tight, st, h, c);
    }
  }

  lemma GenerateHolds(s: Setting, tight: bool, st: State, h: History, c: nat, size: nat, pri: int, d: nat)
    requires Sized(s, st, h) && s.Class(c) && s.Class(d) && Holds(s, tight, st, h, d)
    ensures Holds(s, tight, Generated(st, c, size, pri), h, d)
  {
    hide OutrankedAt, Passed;
  }

  lemma GenerateKeepsInjection(s: Setting, tight: bool, st: State, h: History, c: nat, size: nat, pri: int)
    requires InjectionOk(s, tight, st, h) && s.Class(c) && s.low[c] <= pri <= s.high[c]
    ensures c < |st.queues| && InjectionOk(s, tight, Generated(st, c, size, pri), h)
  {
    GenerateStep(s, st, h, c, size, pri);
    hide Structured, HoldsFree, HoldsBehind;
    Sizes(s, st, h);
    forall d | s.Class(d)
      ensures Holds(s, tight, Generated(st, c, size, pri), h, d)
    {
      assert Holds(s, tight, st, h, d);
      GenerateHolds(s, tight, st, h, c, size, pri, d);
    }
  }
}
