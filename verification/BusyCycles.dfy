/** Single cycles with packets of a few classes, out of which the failing runs are made. */
module BusyCycles {
  import opened FlowControl
  import opened Injection
  import opened InjectionRuns

  // ---- scans of a few packets ----

  lemma NothingConsidered(s: Setting, st: State, full: seq<bool>, ranges: seq<Range>, w: int, c: nat)
    requires Shaped(s, st, full, ranges) && Winner(st, full, w) && c < |s.here| && st.queues[c] == []
    ensures Considered(s, st, full, ranges, w, c) == (st.queues, w)
  {
  }

  lemma {:induction false} SkipTo(s: Setting, st: State, full: seq<bool>, ranges: seq<Range>, w: int, i: nat, j: nat)
    requires Shaped(s, st, full, ranges) && Winner(st, full, w) && 1 <= i <= j <= |s.here| + 1
    requires forall c :: 0 <= c < |s.here| && i <= Turn(st.lastClass, c, |s.here|) < j ==> st.queues[c] == []
    ensures Scan(s, st, full, ranges, w, i) == Scan(s, st, full, ranges, w, j)
    decreases j - i
  {
    hide Scan, Considered, Shaped, Turn;
    SizeFacts(s, st, full, ranges);
    if i < j {
      TurnComes(st.lastClass, i, |s.here|);
      ScanUnfolds(s, st, full, ranges, w, i);
      NothingConsidered(s, st, full, ranges, w, (st.lastClass + i) % |s.here|);
      assert st.(queues := st.queues) == st;
      SkipTo(s, st, full, ranges, w, i + 1, j);
    }
  }

  lemma ScanStep(s: Setting, st: State, full: seq<bool>, ranges: seq<Range>, w: int, a: nat)
    requires Shaped(s, st, full, ranges) && Winner(st, full, w) && a < |s.here|
    ensures var t := Turn(st.lastClass, a, |s.here|); var (queues, w1) := Considered(s, st, full, ranges, w, a);
      && 1 <= t <= |s.here|
      && Scan(s, st, full, ranges, w, t) == Scan(s, st.(queues := queues), full, ranges, w1, t + 1)
  {
    hide Considered, Scan;
    TurnComes(st.lastClass, Turn(st.lastClass, a, |s.here|), |s.here|);
    ScanUnfolds(s, st, full, ranges, w, Turn(st.lastClass, a, |s.here|));
  }

  lemma ScanEnd(s: Setting, st: State, full: seq<bool>, ranges: seq<Range>, w: int)
    requires Shaped(s, st, full, ranges) && Winner(st, full, w)
    ensures Scan(s, st, full, ranges, w, |s.here| + 1) == (st.queues, w)
  {
  }

  lemma OnlyOwnQueue(s: Setting, st: State, full: seq<bool>, ranges: seq<Range>, w: int, a: nat)
    requires Shaped(s, st, full, ranges) && Winner(st, full, w) && a < |s.here|
    ensures forall c :: 0 <= c < |s.here| && c != a ==> Considered(s, st, full, ranges, w, a).0[c] == st.queues[c]
  {
  }

  /** With packets of class a only, the scan considers a. */
  lemma ScanOne(s: Setting, st: State, full: seq<bool>, ranges: seq<Range>, w: int, i: nat, a: nat)
    requires Shaped(s, st, full, ranges) && Winner(st, full, w) && a < |s.here| && 1 <= i <= Turn(st.lastClass, a, |s.here|)
    requires forall c :: 0 <= c < |s.here| && c != a && i <= Turn(st.lastClass, c, |s.here|) ==> st.queues[c] == []
    ensures Scan(s, st, full, ranges, w, i) == Considered(s, st, full, ranges, w, a)
  {
    hide Considered, Scan;
    var n := |s.here|;
    var t := Turn(st.lastClass, a, n);
    ScanStep(s, st, full, ranges, w, a);
    SkipTo(s, st, full, ranges, w, i, t);
    var (queues, w1) := Considered(s, st, full, ranges, w, a);
    var st1 := st.(queues := queues);
    OnlyOwnQueue(s, st, full, ranges, w, a);
    SkipTo(s, st1, full, ranges, w1, t + 1, n + 1);
    ScanEnd(s, st1, full, ranges, w1);
  }

  /** With packets of two classes left, the one whose turn comes first is considered first. */
  lemma ScanTwoFrom(s: Setting, st: State, full: seq<bool>, ranges: seq<Range>, w: int, i: nat, a: nat, b: nat)
    requires Shaped(s, st, full, ranges) && Winner(st, full, w) && a < |s.here| && b < |s.here|
    requires 1 <= i <= Turn(st.lastClass, a, |s.here|) < Turn(st.lastClass, b, |s.here|)
    requires forall c :: 0 <= c < |s.here| && c != a && c != b && i <= Turn(st.lastClass, c, |s.here|) ==> st.queues[c] == []
    ensures var (queues, w1) := Considered(s, st, full, ranges, w, a);
      Scan(s, st, full, ranges, w, i) == Considered(s, st.(queues := queues), full, ranges, w1, b)
  {
    hide Considered, Scan;
    var t := Turn(st.lastClass, a, |s.here|);
    ScanStep(s, st, full, ranges, w, a);
    SkipTo(s, st, full, ranges, w, i, t);
    var (queues, w1) := Considered(s, st, full, ranges, w, a);
    OnlyOwnQueue(s, st, full, ranges, w, a);
    ScanOne(s, st.(queues := queues), full, ranges, w1, t + 1, b);
  }

  lemma ScanTwo(s: Setting, st: State, full: seq<bool>, ranges: seq<Range>, a: nat, b: nat)
    requires Shaped(s, st, full, ranges) && a < |s.here| && b < |s.here|
    requires Turn(st.lastClass, a, |s.here|) < Turn(st.lastClass, b, |s.here|)
    requires forall c :: 0 <= c < |s.here| && c != a && c != b ==> st.queues[c] == []
    ensures var (queues, w) := Considered(s, st, full, ranges, -1, a);
      Scan(s, st, full, ranges, -1, 1) == Considered(s, st.(queues := queues), full, ranges, w, b)
  {
    hide Considered, Scan;
    ScanStep(s, st, full, ranges, -1, a);
    ScanTwoFrom(s, st, full, ranges, -1, 1, a, b);
  }

  lemma ScanThree(s: Setting, st: State, full: seq<bool>, ranges: seq<Range>, a: nat, b: nat, c: nat)
    requires Shaped(s, st, full, ranges) && a < |s.here| && b < |s.here| && c < |s.here|
    requires Turn(st.lastClass, a, |s.here|) < Turn(st.lastClass, b, |s.here|) < Turn(st.lastClass, c, |s.here|)
    requires forall d :: 0 <= d < |s.here| && d != a && d != b && d != c ==> st.queues[d] == []
    ensures var (queues, w) := Considered(s, st, full, ranges, -1, a); var st1 := st.(queues := queues);
            var (queues1, w1) := Considered(s, st1, full, ranges, w, b);
      Scan(s, st, full, ranges, -1, 1) == Considered(s, st1.(queues := queues1), full, ranges, w1, c)
  {
    hide Considered, Scan;
    var t := Turn(st.lastClass, a, |s.here|);
    ScanStep(s, st, full, ranges, -1, a);
    SkipTo(s, st, full, ranges, -1, 1, t);
    var (queues, w) := Considered(s, st, full, ranges, -1, a);
    OnlyOwnQueue(s, st, full, ranges, -1, a);
    ScanTwoFrom(s, st.(queues := queues), full, ranges, w, t + 1, b, c);
  }

  // ---- room ----

  /** Every class of the subnet is given some existing virtual channel. */
  ghost predicate Routable(s: Setting, vcs: nat) {
    && s.Ok() && vcs > 0
    && forall c :: s.Class(c) ==> s.vcsOf[c] != {} && s.low[c] <= s.high[c] && forall v :: v in s.vcsOf[c] ==> v < vcs
  }

  ghost function AnyOf(vs: set<nat>): (v: nat)
    requires vs != {}
    ensures v in vs
  {
    var v :| v in vs; v
  }

  /** Ranges of one virtual channel each: u for class a, v for class b. */
  ghost function Ranges(s: Setting, vcs: nat, a: nat, u: nat, b: nat, v: nat): seq<Range>
    requires Routable(s, vcs)
  {
    seq(|s.here|, c requires 0 <= c < |s.here| =>
      if c == a then (u, u) else if c == b then (v, v)
      else if s.here[c] then (assert s.Class(c); var x := AnyOf(s.vcsOf[c]); (x, x)) else (0, 0))
  }

  /** An empty buffer has room for k flits on any one virtual channel. */
  ghost predicate Roomy(policy: Policy, vcs: nat, k: nat) {
    && WellFormed(policy, vcs)
    && match policy
       case Private(slots) => slots >= k
       case Shared(p) => forall v :: 0 <= v < vcs ==> p.size[p.group[v]] + p.shared >= k
  }

  ghost predicate Resting(vc: Vc) {
    vc.occupancy == 0 && vc.inUseBy < 0 && vc.reserved == 0
  }

  ghost predicate Rests(vcs: seq<Vc>) {
    forall v :: 0 <= v < |vcs| ==> Resting(vcs[v])
  }

  lemma NothingHeld(p: Pool, vcs: seq<Vc>)
    requires PoolOk(p) && |p.group| == |vcs| && Rests(vcs)
    ensures GroupHeld(p, vcs) == seq(|p.size|, _ => 0) && Excess(p, vcs) == 0
  {
    EmptyCounts(Shared(p), |vcs|);
    assert Held(vcs) == Held(seq(|vcs|, _ => IDLE));
    assert GroupHeld(p, vcs) == GroupHeld(p, seq(|vcs|, _ => IDLE));
  }

  lemma RestRoom(policy: Policy, wait: bool, vcs: seq<Vc>)
    requires Rests(vcs) && Roomy(policy, |vcs|, 1)
    ensures FlowOk(policy, wait, vcs) && forall v :: 0 <= v < |vcs| ==> !Full(policy, vcs, v)
  {
    if policy.Shared? {
      NothingHeld(policy.pool, vcs);
    }
  }

  /** One virtual channel with one flit or one reservation. */
  lemma OneRoom(policy: Policy, vcs: seq<Vc>, v: nat, vc: Vc)
    requires Rests(vcs) && v < |vcs| && Roomy(policy, |vcs|, 1)
    requires 0 <= vc.occupancy + vc.reserved <= 1 && (policy.Private? ==> vc.reserved == 0)
    ensures Fits(policy, vcs[v := vc])
    ensures vc.occupancy + vc.reserved == 0 || vc.reserved == 1 || Roomy(policy, |vcs|, 2) ==> !Full(policy, vcs[v := vc], v)
  {
    if policy.Shared? {
      NothingHeld(policy.pool, vcs);
      PoolUpdate(policy.pool, vcs, v, vc);
    }
  }

  // ---- single cycles ----

  /** Sizes agree, and the front flits have existing virtual channels. */
  ghost predicate Base(s: Setting, st: State, vcs: nat) {
    && Routable(s, vcs) && |st.vcs| == vcs && |st.queues| == |st.lastVc| == |s.here| && st.lastClass < |s.here|
    && (forall c :: 0 <= c < |st.queues| ==> FrontInRange(st.queues[c], vcs))
  }

  ghost predicate OnlyQueues(st: State, a: nat, b: nat) {
    forall c :: 0 <= c < |st.queues| && c != a && c != b ==> st.queues[c] == []
  }

  /** A new packet: its head has priority p and no virtual channel. */
  ghost predicate Fresh(q: seq<Queued>, p: int) {
    q != [] && q[0].head && q[0].pri == p && q[0].vc == -1
  }

  /** A head of priority p that waits with v. */
  ghost predicate Waiting(q: seq<Queued>, p: int, v: nat) {
    q != [] && q[0].head && q[0].pri == p && q[0].vc == v
  }

  ghost function Given(q: seq<Queued>, v: nat): seq<Queued>
    requires q != []
  {
    [q[0].(vc := v)] + q[1..]
  }

  /** The head of class w, given v, has left. */
  ghost function Gone(wait: bool, st: State, w: nat, v: nat): State
    requires w < |st.queues| == |st.lastVc| && st.queues[w] != [] && v < |st.vcs|
  {
    st.(vcs := st.vcs[v := SentBy(wait, st.vcs[v], OnVc(st.queues[w][0], v))],
        queues := st.queues[w := NextQueue(Given(st.queues[w], v), v)], lastVc := st.lastVc[w := v], lastClass := w)
  }

  /** A new packet of class c is given v and takes the lead, unless it is outranked. */
  lemma Takes(s: Setting, st: State, full: seq<bool>, ranges: seq<Range>, w: int, c: nat, v: nat, p: int)
    requires Shaped(s, st, full, ranges) && Winner(st, full, w) && s.Class(c) && Fresh(st.queues[c], p) && ranges[c] == (v, v)
    requires !full[v] && st.vcs[v].inUseBy < 0 && (w >= 0 ==> st.queues[w][0].pri < p)
    ensures Considered(s, st, full, ranges, w, c) == (st.queues[c := Given(st.queues[c], v)], c)
  {
    assert Tried(st.lastVc[c], (v, v), 1) == v;
    assert Select(st.vcs, full, st.lastVc[c], (v, v), 1) == v;
  }

  lemma RangesShaped(s: Setting, st: State, vcs: nat, full: seq<bool>, a: nat, u: nat, b: nat, v: nat)
    requires Base(s, st, vcs) && |full| == vcs && s.Class(a) && s.Class(b) && u in s.vcsOf[a] && v in s.vcsOf[b]
    ensures var r := Ranges(s, vcs, a, u, b, v);
      && Shaped(s, st, full, r) && RoutesOk(s, r) && r[a] == (u, u) && (a != b ==> r[b] == (v, v)) && u < vcs && v < vcs
  {
    var r := Ranges(s, vcs, a, u, b, v);
    forall c | 0 <= c < |r|
      ensures r[c].0 == r[c].1 < vcs && (s.here[c] ==> r[c].0 in s.vcsOf[c])
    {
      assert s.here[c] ==> s.Class(c);
      assert s.Class(a) && s.Class(b);
    }
  }

  /** A cycle in which the scan ends with class w, whose head was given v. */
  lemma Leaves(s: Setting, wait: bool, st: State, full: seq<bool>, ranges: seq<Range>, w: nat, v: nat)
    requires Shaped(s, st, full, ranges) && w < |st.queues| && st.queues[w] != []
    requires v < |st.vcs| && st.queues[w][0].head && st.vcs[v].inUseBy < 0
    requires Scan(s, st, full, ranges, -1, 1).1 == w && Scan(s, st, full, ranges, -1, 1).0[w] == Given(st.queues[w], v)
    ensures var (queues, _) := Scan(s, st, full, ranges, -1, 1);
      && queues[w] != []
      && var r := Cycle(s, wait, st, full, ranges);
         r.Left? && r.st == Gone(wait, st, w, v).(queues := queues[w := NextQueue(queues[w], v)])
  {
    hide Scan, SentBy, NextQueue;
  }

  lemma SoloTick(s: Setting, policy: Policy, wait: bool, st: State, vcs: nat, a: nat, v: nat)
    requires Base(s, st, vcs) && Fits(policy, st.vcs) && s.Class(a)
    requires v in s.vcsOf[a] && st.queues[a] != [] && OnlyQueues(st, a, a)
    requires Fresh(st.queues[a], st.queues[a][0].pri) && v < vcs && st.vcs[v].inUseBy < 0 && !Full(policy, st.vcs, v)
    ensures var e := Tick(Ranges(s, vcs, a, v, a, v));
      CanHappen(s, policy, st, e) && var r := Do(s, policy, wait, st, e); r.Left? && r.st == Gone(wait, st, a, v)
  {
    var ranges, full := Ranges(s, vcs, a, v, a, v), FullNow(policy, st.vcs);
    RangesShaped(s, st, vcs, full, a, v, a, v);
    hide Fits, Full, Scan, Considered, Ranges, Cycle, NextQueue, SentBy;
    ScanOne(s, st, full, ranges, -1, 1, a);
    Takes(s, st, full, ranges, -1, a, v, st.queues[a][0].pri);
    Leaves(s, wait, st, full, ranges, a, v);
    assert st.queues[a := Given(st.queues[a], v)][a := NextQueue(Given(st.queues[a], v), v)] == Gone(wait, st, a, v).queues;
  }

  /** Of two new packets the one considered later is sent if it has the higher priority; the other one waits with the
      virtual channel it was given. */
  lemma OutrankedTick(s: Setting, policy: Policy, wait: bool, st: State, vcs: nat, a: nat, u: nat, pa: int, b: nat,
        v: nat, pb: int)
    requires Base(s, st, vcs) && Fits(policy, st.vcs) && s.Class(a) && s.Class(b)
    requires u in s.vcsOf[a] && v in s.vcsOf[b] && OnlyQueues(st, a, b)
    requires Turn(st.lastClass, a, |s.here|) < Turn(st.lastClass, b, |s.here|)
    requires Fresh(st.queues[a], pa) && Fresh(st.queues[b], pb) && pa < pb
    requires u < vcs && st.vcs[u].inUseBy < 0 && !Full(policy, st.vcs, u)
    requires v < vcs && st.vcs[v].inUseBy < 0 && !Full(policy, st.vcs, v)
    ensures var e := Tick(Ranges(s, vcs, a, u, b, v));
      && CanHappen(s, policy, st, e)
      && var r := Do(s, policy, wait, st, e);
         r.Left? && r.st == Gone(wait, st.(queues := st.queues[a := Given(st.queues[a], u)]), b, v)
  {
    var ranges, full := Ranges(s, vcs, a, u, b, v), FullNow(policy, st.vcs);
    RangesShaped(s, st, vcs, full, a, u, b, v);
    hide Fits, Full, Scan, Considered, Ranges, Cycle, NextQueue, SentBy;
    ScanTwo(s, st, full, ranges, a, b);
    Takes(s, st, full, ranges, -1, a, u, pa);
    var st1 := st.(queues := st.queues[a := Given(st.queues[a], u)]);
    Takes(s, st1, full, ranges, a, b, v, pb);
    Leaves(s, wait, st, full, ranges, b, v);
    assert st1.queues[b := Given(st.queues[b], v)][b := NextQueue(Given(st.queues[b], v), v)] == Gone(wait, st1, b, v).queues;
  }

  /** A new packet is sent on v although another one of the same priority, considered later, waits with it. */
  lemma OvertakingTick(s: Setting, policy: Policy, wait: bool, st: State, vcs: nat, x: nat, y: nat, v: nat, p: int)
    requires Base(s, st, vcs) && Fits(policy, st.vcs) && s.Class(x) && s.Class(y)
    requires v in s.vcsOf[x] && v in s.vcsOf[y] && OnlyQueues(st, x, y)
    requires Turn(st.lastClass, x, |s.here|) < Turn(st.lastClass, y, |s.here|)
    requires Fresh(st.queues[x], p) && Waiting(st.queues[y], p, v)
    requires v < vcs && st.vcs[v].inUseBy < 0 && !Full(policy, st.vcs, v)
    ensures var e := Tick(Ranges(s, vcs, x, v, y, v));
      CanHappen(s, policy, st, e) && var r := Do(s, policy, wait, st, e); r.Left? && r.st == Gone(wait, st, x, v)
  {
    var ranges, full := Ranges(s, vcs, x, v, y, v), FullNow(policy, st.vcs);
    RangesShaped(s, st, vcs, full, x, v, y, v);
    ScanTwo(s, st, full, ranges, x, y);
    Takes(s, st, full, ranges, -1, x, v, p);
    var st1 := st.(queues := st.queues[x := Given(st.queues[x], v)]);
    assert Considered(s, st1, full, ranges, x, y) == (st1.queues, x);
    hide Fits, Full, Scan, Considered, Ranges, Cycle, NextQueue, SentBy;
    Leaves(s, wait, st, full, ranges, x, v);
    assert st1.queues[x := NextQueue(Given(st.queues[x], v), v)] == Gone(wait, st, x, v).queues;
  }

  /** The second flit of a packet of class f waits with u. */
  ghost predicate Pending(q: seq<Queued>, p: int, u: nat) {
    |q| == 1 && !q[0].head && q[0].tail && q[0].pri == p && q[0].vc == u
  }

  /** A new packet of class x is sent on v although a flit of lower priority is pending. */
  lemma AboveTick(s: Setting, policy: Policy, wait: bool, st: State, vcs: nat, x: nat, v: nat, f: nat, u: nat, pf: int)
    requires Base(s, st, vcs) && Fits(policy, st.vcs) && s.Class(x)
    requires s.Class(f) && f != x && v in s.vcsOf[x] && OnlyQueues(st, x, f)
    requires st.queues[x] != [] && Fresh(st.queues[x], st.queues[x][0].pri)
    requires Pending(st.queues[f], pf, u) && pf < st.queues[x][0].pri
    requires v < vcs && st.vcs[v].inUseBy < 0 && !Full(policy, st.vcs, v) && u < vcs && !Full(policy, st.vcs, u)
    ensures var e := Tick(Ranges(s, vcs, x, v, x, v));
      CanHappen(s, policy, st, e) && var r := Do(s, policy, wait, st, e); r.Left? && r.st == Gone(wait, st, x, v)
  {
    var ranges, full := Ranges(s, vcs, x, v, x, v), FullNow(policy, st.vcs);
    RangesShaped(s, st, vcs, full, x, v, x, v);
    var st1 := st.(queues := st.queues[x := Given(st.queues[x], v)]);
    assert st.queues[f := st.queues[f]] == st.queues && st.(queues := st.queues) == st;
    assert Considered(s, st, full, ranges, -1, f) == (st.queues, f);
    Takes(s, st, full, ranges, -1, x, v, st.queues[x][0].pri);
    assert Considered(s, st1, full, ranges, x, f) == (st1.queues, x);
    Takes(s, st, full, ranges, f, x, v, st.queues[x][0].pri);
    hide Fits, Full, Scan, Considered, Ranges, Cycle, NextQueue, SentBy;
    if Turn(st.lastClass, x, |s.here|) < Turn(st.lastClass, f, |s.here|) {
      ScanTwo(s, st, full, ranges, x, f);
    } else {
      ScanTwo(s, st, full, ranges, f, x);
    }
    Leaves(s, wait, st, full, ranges, x, v);
    assert st1.queues[x := NextQueue(Given(st.queues[x], v), v)] == Gone(wait, st, x, v).queues;
  }

  /** The same with a third packet, of class y, which is considered first and waits with v then. */
  lemma AboveBothTick(s: Setting, policy: Policy, wait: bool, st: State, vcs: nat, y: nat, p: int, x: nat, px: int,
        v: nat, f: nat, u: nat, pf: int)
    requires Base(s, st, vcs) && Fits(policy, st.vcs) && s.Class(x) && s.Class(y) && s.Class(f) && f != x && f != y && x != y
    requires v in s.vcsOf[x] && v in s.vcsOf[y]
    requires (forall c :: 0 <= c < |st.queues| && c != x && c != y && c != f ==> st.queues[c] == [])
    requires Turn(st.lastClass, y, |s.here|) < Turn(st.lastClass, f, |s.here|) < Turn(st.lastClass, x, |s.here|)
    requires Fresh(st.queues[y], p) && Fresh(st.queues[x], px) && Pending(st.queues[f], pf, u) && pf <= p < px
    requires v < vcs && st.vcs[v].inUseBy < 0 && !Full(policy, st.vcs, v)
    ensures var e := Tick(Ranges(s, vcs, y, v, x, v));
      && CanHappen(s, policy, st, e)
      && var r := Do(s, policy, wait, st, e);
         r.Left? && r.st == Gone(wait, st.(queues := st.queues[y := Given(st.queues[y], v)]), x, v)
  {
    var ranges, full := Ranges(s, vcs, y, v, x, v), FullNow(policy, st.vcs);
    RangesShaped(s, st, vcs, full, y, v, x, v);
    var st1 := st.(queues := st.queues[y := Given(st.queues[y], v)]);
    Takes(s, st, full, ranges, -1, y, v, p);
    assert Considered(s, st1, full, ranges, y, f) == (st1.queues, y);
    Takes(s, st1, full, ranges, y, x, v, px);
    hide Fits, Full, Scan, Considered, Ranges, Cycle, NextQueue, SentBy;
    ScanThree(s, st, full, ranges, y, f, x);
    Leaves(s, wait, st, full, ranges, x, v);
    assert st1.queues[x := Given(st.queues[x], v)][x := NextQueue(Given(st.queues[x], v), v)] == Gone(wait, st1, x, v).queues;
  }

  /** The pending flit of class f has left on u. */
  ghost function BodyGone(wait: bool, st: State, f: nat, u: nat): State
    requires f < |st.queues| && st.queues[f] != [] && u < |st.vcs|
  {
    st.(vcs := st.vcs[u := SentBy(wait, st.vcs[u], OnVc(st.queues[f][0], u))], queues := st.queues[f := []], lastClass := f)
  }

  /** The pending flit is sent while another packet, considered before it, waits with a full virtual channel. */
  lemma PassingTick(s: Setting, policy: Policy, wait: bool, st: State, vcs: nat, f: nat, u: nat, pf: int, y: nat, v: nat, p: int)
    requires Base(s, st, vcs) && Fits(policy, st.vcs) && s.Class(f)
    requires s.Class(y) && f != y && v in s.vcsOf[y] && OnlyQueues(st, f, y)
    requires Turn(st.lastClass, y, |s.here|) < Turn(st.lastClass, f, |s.here|)
    requires Pending(st.queues[f], pf, u) && Waiting(st.queues[y], p, v) && v < vcs
    requires Full(policy, st.vcs, v) && u < vcs && !Full(policy, st.vcs, u)
    ensures var e := Tick(Ranges(s, vcs, y, v, y, v));
      CanHappen(s, policy, st, e) && var r := Do(s, policy, wait, st, e); r.Left? && r.st == BodyGone(wait, st, f, u)
  {
    var ranges, full := Ranges(s, vcs, y, v, y, v), FullNow(policy, st.vcs);
    RangesShaped(s, st, vcs, full, y, v, y, v);
    assert st.queues[y := st.queues[y]] == st.queues && st.queues[f := st.queues[f]] == st.queues && st.(queues := st.queues) == st;
    assert Considered(s, st, full, ranges, -1, y) == (st.queues, -1);
    assert Considered(s, st, full, ranges, -1, f) == (st.queues, f);
    hide Fits, Full, Scan, Considered, Ranges, SentBy;
    ScanTwo(s, st, full, ranges, y, f);
    assert NextQueue(st.queues[f], u) == [];
  }

  /** A waiting head runs into its virtual channel when that is in use, unless it is full. */
  lemma BusyTick(s: Setting, policy: Policy, wait: bool, st: State, vcs: nat, y: nat, v: nat, p: int, x: nat)
    requires Base(s, st, vcs) && Fits(policy, st.vcs) && s.Class(x)
    requires s.Class(y) && v in s.vcsOf[y] && OnlyQueues(st, y, x) && x != y
    requires Waiting(st.queues[y], p, v) && v < vcs && st.vcs[v].inUseBy >= 0 && !Full(policy, st.vcs, v)
    requires Turn(st.lastClass, y, |s.here|) < Turn(st.lastClass, x, |s.here|)
    requires (st.queues[x] != [] ==> st.queues[x][0].pri <= p)
    ensures EndsBusy(s, policy, wait, st, [Tick(Ranges(s, vcs, y, v, y, v))])
  {
    var ranges, full := Ranges(s, vcs, y, v, y, v), FullNow(policy, st.vcs);
    RangesShaped(s, st, vcs, full, y, v, y, v);
    assert st.queues[y := st.queues[y]] == st.queues && st.(queues := st.queues) == st;
    assert Considered(s, st, full, ranges, -1, y) == (st.queues, y);
    assert Considered(s, st, full, ranges, y, x) == (st.queues, y);
    hide Scan, Considered, Ranges;
    ScanTwo(s, st, full, ranges, y, x);
    assert Cycle(s, wait, st, full, ranges).Busy?;
  }
}
