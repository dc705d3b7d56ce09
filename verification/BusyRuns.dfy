/** Runs that meet a busy virtual channel, and the exact condition under which there are none. */
module BusyRuns {
  import opened Flits
  import opened FlowControl
  import opened Sums
  import opened Injection
  import opened Holding
  import opened InjectionRuns
  import opened BusyCycles

  /** The events can happen one after the other, none meets a busy virtual channel, and they lead to st1. */
  ghost predicate Reaches(s: Setting, policy: Policy, wait: bool, st: State, events: seq<Event>, st1: State)
    decreases |events|
  {
    if events == [] then st == st1
    else
      && CanHappen(s, policy, st, events[0])
      && var r := Do(s, policy, wait, st, events[0]);
         !r.Busy? && Reaches(s, policy, wait, r.st, events[1..], st1)
  }

  lemma {:induction false} ReachMore(s: Setting, policy: Policy, wait: bool, st: State, events: seq<Event>, st1: State, e: Event)
    requires Reaches(s, policy, wait, st, events, st1) && CanHappen(s, policy, st1, e) && !Do(s, policy, wait, st1, e).Busy?
    ensures Reaches(s, policy, wait, st, events + [e], Do(s, policy, wait, st1, e).st)
    decreases |events|
  {
    hide CanHappen, Do;
    var all, st2 := events + [e], Do(s, policy, wait, st1, e).st;
    if events == [] {
      assert all == [e] && all[1..] == [];
      assert Reaches(s, policy, wait, st2, [], st2);
    } else {
      ReachMore(s, policy, wait, Do(s, policy, wait, st, events[0]).st, events[1..], st1, e);
      assert all[1..] == events[1..] + [e];
    }
  }

  lemma {:induction false} ReachBusy(s: Setting, policy: Policy, wait: bool, st: State, events: seq<Event>,
        st1: State, more: seq<Event>)
    requires Reaches(s, policy, wait, st, events, st1) && EndsBusy(s, policy, wait, st1, more)
    ensures EndsBusy(s, policy, wait, st, events + more)
    decreases |events|
  {
    hide CanHappen, Do;
    if events == [] {
      assert events + more == more;
    } else {
      ReachBusy(s, policy, wait, Do(s, policy, wait, st, events[0]).st, events[1..], st1, more);
      assert (events + more)[1..] == events[1..] + more;
    }
  }

  /** Class c, whose queue is empty, gets a packet. */
  lemma Queue(s: Setting, policy: Policy, wait: bool, st: State, events: seq<Event>, st1: State, vcs: nat, c: nat,
        size: nat, p: int)
    returns (more: seq<Event>, st2: State)
    requires Reaches(s, policy, wait, st, events, st1) && Base(s, st1, vcs)
    requires Fits(policy, st1.vcs) && s.Class(c) && st1.queues[c] == []
    requires size > 0 && s.low[c] <= p <= s.high[c]
    ensures Reaches(s, policy, wait, st, more, st2) && Base(s, st2, vcs)
    ensures var q := st2.queues[c];
      && st2.queues == st1.queues[c := q] && st2.vcs == st1.vcs && st2.lastClass == st1.lastClass
      && |q| == size && Fresh(q, p) && (q[0].tail <==> size == 1)
      && (size > 1 ==> q[1].pri == p && !q[1].head && (q[1].tail <==> size == 2))
  {
    hide Reaches, Fits;
    more, st2 := events + [Generate(c, size, p)], Generated(st1, c, size, p);
    ReachMore(s, policy, wait, st, events, st1, Generate(c, size, p));
    assert st1.queues[c] + Packet(st1.curId, st1.curPid, size, p) == Packet(st1.curId, st1.curPid, size, p);
  }

  /** A credit for v comes back. */
  lemma Return(s: Setting, policy: Policy, wait: bool, st: State, events: seq<Event>, st1: State, vcs: nat, v: nat)
    returns (more: seq<Event>, st2: State)
    requires Reaches(s, policy, wait, st, events, st1) && Base(s, st1, vcs)
    requires Fits(policy, st1.vcs) && v < vcs && st1.vcs[v].occupancy > 0
    ensures Reaches(s, policy, wait, st, more, st2) && Base(s, st2, vcs)
    ensures st2 == st1.(vcs := st1.vcs[v := Credited(policy, wait, st1.vcs[v])])
  {
    hide Reaches, Fits;
    more, st2 := events + [Credit(v)], st1.(vcs := st1.vcs[v := Credited(policy, wait, st1.vcs[v])]);
    ReachMore(s, policy, wait, st, events, st1, Credit(v));
  }

  /** The virtual channels rest and have room for a flit. */
  ghost predicate Calm(s: Setting, policy: Policy, st: State, vcs: nat) {
    Base(s, st, vcs) && Rests(st.vcs) && Roomy(policy, vcs, 1)
  }

  ghost predicate NoQueues(st: State) {
    forall c :: 0 <= c < |st.queues| ==> st.queues[c] == []
  }

  lemma GoneBase(s: Setting, wait: bool, st: State, vcs: nat, w: nat, v: nat)
    requires Base(s, st, vcs) && w < |st.queues| && st.queues[w] != []
    requires v < vcs && (|st.queues[w]| > 1 ==> st.queues[w][1].vc == -1)
    ensures Base(s, Gone(wait, st, w, v), vcs)
    ensures |st.queues[w]| == 1 ==> Gone(wait, st, w, v).queues == st.queues[w := []]
  {
    NextFront(Given(st.queues[w], v), v, vcs);
  }

  /** A single flit that was sent on a resting virtual channel leaves it resting once its credit is back. */
  lemma SingleReturns(policy: Policy, wait: bool, vcs: seq<Vc>, v: nat, f: Flit)
    requires Rests(vcs) && v < |vcs| && Roomy(policy, |vcs|, 1) && f.head && f.tail
    ensures var vc := SentBy(wait, vcs[v], f);
      Fits(policy, vcs[v := vc]) && vc.occupancy > 0 && Rests(vcs[v := vc][v := Credited(policy, wait, vc)])
  {
    OneRoom(policy, vcs, v, SentBy(wait, vcs[v], f));
  }

  lemma GoneIs(wait: bool, st: State, w: nat, v: nat)
    requires w < |st.queues| == |st.lastVc| && st.queues[w] != [] && v < |st.vcs|
    ensures var r := Gone(wait, st, w, v);
      r.vcs == st.vcs[v := SentBy(wait, st.vcs[v], OnVc(st.queues[w][0], v))] && r.lastClass == w
  {
  }

  /** A single-flit packet of class a comes and goes. */
  lemma Serve(s: Setting, policy: Policy, wait: bool, st: State, vcs: nat, a: nat, v: nat)
    returns (events: seq<Event>, st1: State)
    requires Calm(s, policy, st, vcs) && NoQueues(st) && s.Class(a) && v in s.vcsOf[a] && v < vcs
    ensures Reaches(s, policy, wait, st, events, st1) && Calm(s, policy, st1, vcs) && NoQueues(st1) && st1.lastClass == a
  {
    RestRoom(policy, wait, st.vcs);
    assert Reaches(s, policy, wait, st, [], st);
    hide Reaches, Fits, Full, FlowOk, Ranges, CanHappen, Do, Roomy, Gone;
    events, st1 := Queue(s, policy, wait, st, [], st, vcs, a, 1, s.low[a]);
    SoloTick(s, policy, wait, st1, vcs, a, v);
    GoneBase(s, wait, st1, vcs, a, v);
    ReachMore(s, policy, wait, st, events, st1, Tick(Ranges(s, vcs, a, v, a, v)));
    events := events + [Tick(Ranges(s, vcs, a, v, a, v))];
    SingleReturns(policy, wait, st.vcs, v, OnVc(st1.queues[a][0], v));
    GoneIs(wait, st1, a, v);
    st1 := Gone(wait, st1, a, v);
    events, st1 := Return(s, policy, wait, st, events, st1, vcs, v);
  }

  lemma FlowFits(policy: Policy, wait: bool, vcs: seq<Vc>)
    requires FlowOk(policy, wait, vcs)
    ensures Fits(policy, vcs)
  {
  }

  /** Two single-flit packets join empty queues. */
  lemma QueueTwo(s: Setting, policy: Policy, wait: bool, st: State, vcs: nat, a: nat, pa: int, b: nat, pb: int)
    returns (events: seq<Event>, st1: State)
    requires Base(s, st, vcs) && Fits(policy, st.vcs) && s.Class(a) && s.Class(b) && a != b && st.queues[a] == [] == st.queues[b]
    requires s.low[a] <= pa <= s.high[a] && s.low[b] <= pb <= s.high[b]
    ensures Reaches(s, policy, wait, st, events, st1) && Base(s, st1, vcs) && st1.vcs == st.vcs && st1.lastClass == st.lastClass
    ensures st1.queues == st.queues[a := st1.queues[a]][b := st1.queues[b]]
    ensures |st1.queues[a]| == 1 && Fresh(st1.queues[a], pa) && |st1.queues[b]| == 1 && Fresh(st1.queues[b], pb)
    ensures st1.queues[a][0].tail && st1.queues[b][0].tail
  {
    assert Reaches(s, policy, wait, st, [], st);
    hide Reaches, Fits, Routable;
    events, st1 := Queue(s, policy, wait, st, [], st, vcs, a, 1, pa);
    events, st1 := Queue(s, policy, wait, st, events, st1, vcs, b, 1, pb);
  }

  /** Packets of classes y and e join empty queues; y, considered first, is given v and outranked by e, which leaves on u. */
  lemma Outrank(s: Setting, policy: Policy, wait: bool, st: State, vcs: nat, y: nat, v: nat, p: int, e: nat, u: nat)
    returns (events: seq<Event>, st1: State, f: Flit)
    requires Base(s, st, vcs) && FlowOk(policy, wait, st.vcs) && NoQueues(st) && st.lastClass == e
    requires s.Class(y) && s.Class(e) && y != e && v in s.vcsOf[y]
    requires u in s.vcsOf[e] && s.low[y] <= p <= s.high[y] && p < s.high[e]
    requires v < vcs && st.vcs[v].inUseBy < 0 && !Full(policy, st.vcs, v)
    requires u < vcs && st.vcs[u].inUseBy < 0 && !Full(policy, st.vcs, u)
    ensures Reaches(s, policy, wait, st, events, st1) && Base(s, st1, vcs) && st1.lastClass == e
    ensures Waiting(st1.queues[y], p, v) && |st1.queues[y]| == 1 && OnlyQueues(st1, y, y)
    ensures st1.vcs == st.vcs[u := SentBy(wait, st.vcs[u], f)] && f.head && f.tail && f.vc == u
  {
    hide Reaches, Fits, Full, FlowOk, Ranges, CanHappen, Do, Gone, SentBy;
    FlowFits(policy, wait, st.vcs);
    events, st1 := QueueTwo(s, policy, wait, st, vcs, y, p, e, s.high[e]);
    var tick, st2 := Tick(Ranges(s, vcs, y, v, e, u)), st1.(queues := st1.queues[y := Given(st1.queues[y], v)]);
    OutrankedTick(s, policy, wait, st1, vcs, y, v, p, e, u, s.high[e]);
    GoneBase(s, wait, st2, vcs, e, u);
    GoneIs(wait, st2, e, u);
    ReachMore(s, policy, wait, st, events, st1, tick);
    f := OnVc(st2.queues[e][0], u);
    events, st1 := events + [tick], Gone(wait, st2, e, u);
  }

  lemma GoneTwo(s: Setting, wait: bool, st: State, vcs: nat, w: nat, v: nat)
    requires Base(s, st, vcs) && w < |st.queues| && |st.queues[w]| == 2 && !st.queues[w][0].tail && v < vcs
    ensures Base(s, Gone(wait, st, w, v), vcs)
    ensures Gone(wait, st, w, v).queues == st.queues[w := [st.queues[w][1].(vc := v)]]
  {
    var q := Given(st.queues[w], v);
    assert q[2..] == [] && NextQueue(q, v) == [q[1].(vc := v)];
  }

  /** Class y waits with v.  A packet of two flits of class x, of the same priority and considered before y, starts on v. */
  lemma StartOver(s: Setting, policy: Policy, wait: bool, st: State, vcs: nat, x: nat, y: nat, v: nat, p: int)
    returns (events: seq<Event>, st1: State, g: Flit)
    requires Calm(s, policy, st, vcs) && s.Class(x) && s.Class(y) && x != y && v in s.vcsOf[x] && v in s.vcsOf[y] && v < vcs
    requires Waiting(st.queues[y], p, v) && OnlyQueues(st, y, y) && s.low[x] <= p <= s.high[x]
    requires Turn(st.lastClass, x, |s.here|) < Turn(st.lastClass, y, |s.here|)
    ensures Reaches(s, policy, wait, st, events, st1) && Base(s, st1, vcs) && st1.lastClass == x && OnlyQueues(st1, x, y)
    ensures st1.queues[y] == st.queues[y] && st1.queues[x] != [] && st1.queues[x][0].pri == p
    ensures g.head && !g.tail && g.vc == v && st1.vcs == st.vcs[v := SentBy(wait, st.vcs[v], g)]
  {
    RestRoom(policy, wait, st.vcs);
    assert Reaches(s, policy, wait, st, [], st);
    hide Reaches, Fits, Full, FlowOk, Ranges, CanHappen, Do, Roomy, Gone, SentBy;
    FlowFits(policy, wait, st.vcs);
    events, st1 := Queue(s, policy, wait, st, [], st, vcs, x, 2, p);
    var tick := Tick(Ranges(s, vcs, x, v, y, v));
    g := OnVc(st1.queues[x][0], v);
    OvertakingTick(s, policy, wait, st1, vcs, x, y, v, p);
    ReachMore(s, policy, wait, st, events, st1, tick);
    GoneIs(wait, st1, x, v);
    GoneTwo(s, wait, st1, vcs, x, v);
    events, st1 := events + [tick], Gone(wait, st1, x, v);
  }

  /** Its credit comes back, and y runs into it. */
  lemma Overtake(s: Setting, policy: Policy, wait: bool, st: State, vcs: nat, x: nat, y: nat, v: nat, p: int) returns (events: seq<Event>)
    requires Calm(s, policy, st, vcs) && s.Class(x) && s.Class(y) && x != y && v in s.vcsOf[x] && v in s.vcsOf[y] && v < vcs
    requires Waiting(st.queues[y], p, v) && OnlyQueues(st, y, y) && s.low[x] <= p <= s.high[x]
    requires Turn(st.lastClass, x, |s.here|) < Turn(st.lastClass, y, |s.here|)
    ensures EndsBusy(s, policy, wait, st, events)
  {
    hide Reaches, Fits, Full, FlowOk, Ranges, CanHappen, Do, EndsBusy, Roomy, Routable;
    var st1, g;
    events, st1, g := StartOver(s, policy, wait, st, vcs, x, y, v, p);
    OneRoom(policy, st.vcs, v, st1.vcs[v]);
    events, st1 := Return(s, policy, wait, st, events, st1, vcs, v);
    OneRoom(policy, st.vcs, v, st1.vcs[v]);
    assert st1.vcs == st.vcs[v := st1.vcs[v]];
    BusyTick(s, policy, wait, st1, vcs, y, v, p, x);
    ReachBusy(s, policy, wait, st, events, st1, [Tick(Ranges(s, vcs, y, v, y, v))]);
    events := events + [Tick(Ranges(s, vcs, y, v, y, v))];
  }

  /** A third class e outranks class y while y is given v; then class x overtakes y. */
  lemma Trio(s: Setting, policy: Policy, wait: bool, vcs: nat, x: nat, y: nat, e: nat, v: nat, p: int)
    returns (events: seq<Event>)
    requires Routable(s, vcs) && Roomy(policy, vcs, 1) && s.Class(x) && s.Class(y) && s.Class(e) && x != y && y != e && x != e
    requires v in s.vcsOf[x] && v in s.vcsOf[y] && s.low[x] <= p <= s.high[x] && s.low[y] <= p <= s.high[y] && p < s.high[e]
    requires Turn(e, x, |s.here|) < Turn(e, y, |s.here|)
    ensures EndsBusy(s, policy, wait, Start(s, vcs), events)
  {
    var st, u := Start(s, vcs), AnyOf(s.vcsOf[e]);
    hide Reaches, EndsBusy, Fits, Full, FlowOk, Roomy, AnyOf;
    var st1, first := st, [];
    first, st1 := Serve(s, policy, wait, st, vcs, e, u);
    RestRoom(policy, wait, st1.vcs);
    var second, st2, f := Outrank(s, policy, wait, st1, vcs, y, v, p, e, u);
    SingleReturns(policy, wait, st1.vcs, u, f);
    var third, st3 := Return(s, policy, wait, st1, second, st2, vcs, u);
    events := Overtake(s, policy, wait, st3, vcs, x, y, v, p);
    ReachBusy(s, policy, wait, st1, third, st3, events);
    ReachBusy(s, policy, wait, st, first, st1, third + events);
    events := first + (third + events);
  }

  /** Class d outranks class c on a virtual channel both use, and holds it until its credit is back: c runs into it. */
  lemma Duel(s: Setting, policy: Policy, vcs: nat, c: nat, d: nat, v: nat) returns (events: seq<Event>)
    requires Routable(s, vcs) && Roomy(policy, vcs, 2)
    requires s.Class(c) && s.Class(d) && c != d && v in s.vcsOf[c] && v in s.vcsOf[d] && s.low[c] < s.high[d]
    ensures EndsBusy(s, policy, true, Start(s, vcs), events)
  {
    var st := Start(s, vcs);
    assert Roomy(policy, vcs, 1);
    hide Reaches, EndsBusy, Fits, Full, FlowOk, Ranges;
    var first, st1 := Serve(s, policy, true, st, vcs, d, v);
    RestRoom(policy, true, st1.vcs);
    var second, st2, f := Outrank(s, policy, true, st1, vcs, c, v, s.low[c], d, v);
    OneRoom(policy, st1.vcs, v, st2.vcs[v]);
    BusyTick(s, policy, true, st2, vcs, c, v, s.low[c], d);
    events := [Tick(Ranges(s, vcs, c, v, c, v))];
    ReachBusy(s, policy, true, st1, second, st2, events);
    ReachBusy(s, policy, true, st, first, st1, second + events);
    events := first + (second + events);
  }

  // ---- with a bystander ----

  lemma {:induction false} ReachOn(s: Setting, policy: Policy, wait: bool, st: State, events: seq<Event>, st1: State,
        more: seq<Event>, st2: State)
    requires Reaches(s, policy, wait, st, events, st1) && Reaches(s, policy, wait, st1, more, st2)
    ensures Reaches(s, policy, wait, st, events + more, st2)
    decreases |events|
  {
    hide CanHappen, Do;
    if events == [] {
      assert events + more == more;
    } else {
      ReachOn(s, policy, wait, Do(s, policy, wait, st, events[0]).st, events[1..], st1, more, st2);
      assert (events + more)[1..] == events[1..] + more;
    }
  }

  /** A flit of class f is pending on u, whose credit is back; v holds flits of finished packets only, and the other
      virtual channels rest. */
  ghost predicate Parked(s: Setting, policy: Policy, wait: bool, st: State, vcs: nat, f: nat, u: nat, pf: int, v: nat) {
    && Base(s, st, vcs) && FlowOk(policy, wait, st.vcs) && u < vcs && v < vcs && u != v && s.Class(f) && Pending(st.queues[f], pf, u)
    && CanSend(st.vcs[u]) && st.vcs[u].occupancy == 0 && st.vcs[u].reserved == (if policy.Shared? then 1 else 0)
    && st.vcs[v].inUseBy < 0 && st.vcs[v].reserved == 0
    && forall w :: 0 <= w < vcs && w != v && w != u ==> Resting(st.vcs[w])
  }

  /** Class f sends the first of two flits on u. */
  lemma SendFirst(s: Setting, policy: Policy, wait: bool, st: State, vcs: nat, f: nat, u: nat)
    returns (events: seq<Event>, st1: State, g: Flit)
    requires Calm(s, policy, st, vcs) && NoQueues(st) && s.Class(f) && u in s.vcsOf[f] && u < vcs
    ensures Reaches(s, policy, wait, st, events, st1) && Base(s, st1, vcs) && FlowOk(policy, wait, st1.vcs) && st1.lastClass == f
    ensures OnlyQueues(st1, f, f) && Pending(st1.queues[f], s.low[f], u)
    ensures g.head && !g.tail && g.vc == u && st1.vcs == st.vcs[u := SentBy(wait, st.vcs[u], g)]
  {
    RestRoom(policy, wait, st.vcs);
    assert Reaches(s, policy, wait, st, [], st);
    hide Reaches, Fits, Full, FlowOk, Ranges, CanHappen, Do, Roomy, Gone;
    FlowFits(policy, wait, st.vcs);
    events, st1 := Queue(s, policy, wait, st, [], st, vcs, f, 2, s.low[f]);
    g := OnVc(st1.queues[f][0], u);
    SoloTick(s, policy, wait, st1, vcs, f, u);
    ReachMore(s, policy, wait, st, events, st1, Tick(Ranges(s, vcs, f, u, f, u)));
    GoneIs(wait, st1, f, u);
    GoneTwo(s, wait, st1, vcs, f, u);
    SentByKeeps(policy, wait, st1.vcs, g);
    events, st1 := events + [Tick(Ranges(s, vcs, f, u, f, u))], Gone(wait, st1, f, u);
  }

  /** Class f sends the first of two flits on u and gets its credit back. */
  lemma Park(s: Setting, policy: Policy, wait: bool, st: State, vcs: nat, f: nat, u: nat, v: nat)
    returns (events: seq<Event>, st1: State)
    requires Calm(s, policy, st, vcs) && NoQueues(st) && s.Class(f) && u in s.vcsOf[f] && u < vcs && v < vcs && u != v
    ensures Reaches(s, policy, wait, st, events, st1) && Parked(s, policy, wait, st1, vcs, f, u, s.low[f], v)
    ensures OnlyQueues(st1, f, f) && st1.lastClass == f && st1.vcs == st.vcs[u := st1.vcs[u]]
  {
    hide Reaches, Fits, FlowOk, Roomy, Routable;
    var g;
    events, st1, g := SendFirst(s, policy, wait, st, vcs, f, u);
    FlowFits(policy, wait, st1.vcs);
    CreditKeeps(policy, wait, st1.vcs, u);
    events, st1 := Return(s, policy, wait, st, events, st1, vcs, u);
    assert st1.vcs == st.vcs[u := st1.vcs[u]];
  }

  /** What v alone can hold. */
  ghost function Limit(policy: Policy, v: nat): int
    requires policy.Shared? ==> PoolOk(policy.pool) && v < |policy.pool.group|
  {
    match policy
    case Private(slots) => slots
    case Shared(p) => p.size[p.group[v]] + p.shared
  }

  lemma NotFullBelow(policy: Policy, wait: bool, vcs: seq<Vc>, v: nat)
    requires FlowOk(policy, wait, vcs) && v < |vcs| && !Full(policy, vcs, v) && vcs[v].reserved == 0
    ensures vcs[v].occupancy < Limit(policy, v)
  {
    if policy.Shared? {
      var p := policy.pool;
      assert forall w :: 0 <= w < |vcs| ==> VcOk(wait, vcs[w]);
      GroupSumAtLeast(p.group, Held(vcs), v);
      var overs := Overs(GroupHeld(p, vcs), p.size);
      SumAtLeast(overs, p.group[v]);
    }
  }

  /** Beside a pending flit there is room on v. */
  lemma ParkedRoom(s: Setting, policy: Policy, wait: bool, st: State, vcs: nat, f: nat, u: nat, pf: int, v: nat)
    requires Parked(s, policy, wait, st, vcs, f, u, pf, v) && st.vcs[v].occupancy == 0
    requires Roomy(policy, vcs, 1) && (policy.Private? || Roomy(policy, vcs, 2))
    ensures !Full(policy, st.vcs, v)
  {
    if policy.Shared? {
      var rest := st.vcs[u := IDLE];
      NothingHeld(policy.pool, rest);
      PoolUpdate(policy.pool, rest, u, st.vcs[u]);
      assert rest[u := st.vcs[u]] == st.vcs;
    }
  }

  lemma PendingHasRoom(policy: Policy, vcs: seq<Vc>, u: nat)
    requires Fits(policy, vcs) && u < |vcs|
    requires (if policy.Shared? then vcs[u].reserved == 1 else vcs[u].occupancy == 0 && policy.slots > 0)
    ensures !Full(policy, vcs, u)
  {
  }

  ghost function More(wait: bool, vcs: seq<Vc>, v: nat): seq<Vc>
    requires v < |vcs|
  {
    vcs[v := SentBy(wait, vcs[v], Flit(0, 0, v, true, true))]
  }

  /** Whichever single flit goes, v is full afterwards or not. */
  lemma SameFull(policy: Policy, wait: bool, vcs: seq<Vc>, v: nat, g: Flit)
    requires FlowOk(policy, wait, vcs) && v < |vcs| && vcs[v].inUseBy < 0
    requires !Full(policy, vcs, v) && Tight(policy, wait) && g.head && g.tail && g.vc == v
    ensures FlowOk(policy, wait, vcs[v := SentBy(wait, vcs[v], g)]) && FlowOk(policy, wait, More(wait, vcs, v))
    ensures Full(policy, vcs[v := SentBy(wait, vcs[v], g)], v) <==> Full(policy, More(wait, vcs, v), v)
    ensures wait ==> Full(policy, More(wait, vcs, v), v)
  {
    SentByKeeps(policy, wait, vcs, g);
    SentByKeeps(policy, wait, vcs, Flit(0, 0, v, true, true));
    assert VcOk(wait, vcs[v]);
  }

  /** A single flit of class x is sent on v. */
  lemma SendAbove(s: Setting, policy: Policy, wait: bool, st: State, vcs: nat, f: nat, u: nat, pf: int, v: nat, x: nat)
    returns (events: seq<Event>, st1: State, g: Flit)
    requires Parked(s, policy, wait, st, vcs, f, u, pf, v) && OnlyQueues(st, f, f)
    requires s.Class(x) && x != f && v in s.vcsOf[x] && pf < s.high[x]
    requires !Full(policy, st.vcs, v) && !Full(policy, st.vcs, u)
    ensures Reaches(s, policy, wait, st, events, st1) && st1.queues == st.queues && st1.lastClass == x && Base(s, st1, vcs)
    ensures g.head && g.tail && g.vc == v && st1.vcs == st.vcs[v := SentBy(wait, st.vcs[v], g)]
    ensures FlowOk(policy, wait, st1.vcs)
  {
    assert Reaches(s, policy, wait, st, [], st);
    hide Reaches, Fits, Full, FlowOk, Ranges, CanHappen, Do, Gone;
    FlowFits(policy, wait, st.vcs);
    events, st1 := Queue(s, policy, wait, st, [], st, vcs, x, 1, s.high[x]);
    g := OnVc(st1.queues[x][0], v);
    AboveTick(s, policy, wait, st1, vcs, x, v, f, u, pf);
    GoneBase(s, wait, st1, vcs, x, v);
    GoneIs(wait, st1, x, v);
    SentByKeeps(policy, wait, st1.vcs, g);
    ReachMore(s, policy, wait, st, events, st1, Tick(Ranges(s, vcs, x, v, x, v)));
    events, st1 := events + [Tick(Ranges(s, vcs, x, v, x, v))], Gone(wait, st1, x, v);
  }

  /** Single flits of class x are sent on v until the next one fills it. */
  lemma {:induction false} Fill(s: Setting, policy: Policy, wait: bool, st: State, vcs: nat, f: nat, u: nat, pf: int,
        v: nat, x: nat)
    returns (events: seq<Event>, st1: State)
    requires Parked(s, policy, wait, st, vcs, f, u, pf, v) && OnlyQueues(st, f, f) && st.lastClass == x
    requires s.Class(x) && x != f && v in s.vcsOf[x] && pf < s.high[x]
    requires !Full(policy, st.vcs, v) && Tight(policy, wait) && Roomy(policy, vcs, 1)
    ensures Reaches(s, policy, wait, st, events, st1) && Parked(s, policy, wait, st1, vcs, f, u, pf, v) && OnlyQueues(st1, f, f)
    ensures st1.lastClass == x && !Full(policy, st1.vcs, v)
    ensures FlowOk(policy, wait, More(wait, st1.vcs, v)) && Full(policy, More(wait, st1.vcs, v), v)
    decreases Limit(policy, v) - st.vcs[v].occupancy
  {
    SameFull(policy, wait, st.vcs, v, Flit(0, 0, v, true, true));
    assert Reaches(s, policy, wait, st, [], st);
    if Full(policy, More(wait, st.vcs, v), v) {
      return [], st;
    }
    PendingHasRoom(policy, st.vcs, u);
    NotFullBelow(policy, wait, st.vcs, v);
    hide Reaches, Full, FlowOk, Roomy, Limit;
    var g;
    events, st1, g := SendAbove(s, policy, wait, st, vcs, f, u, pf, v, x);
    SameFull(policy, wait, st.vcs, v, g);
    NotFullBelow(policy, wait, st1.vcs, v);
    var more, st2 := Fill(s, policy, wait, st1, vcs, f, u, pf, v, x);
    ReachOn(s, policy, wait, st, events, st1, more, st2);
    events, st1 := events + more, st2;
  }

  /** The credits for v come back. */
  lemma {:induction false} Drain(s: Setting, policy: Policy, wait: bool, st: State, vcs: nat, v: nat)
    returns (events: seq<Event>, st1: State)
    requires Base(s, st, vcs) && FlowOk(policy, wait, st.vcs) && v < vcs && st.vcs[v].occupancy >= 0 && st.vcs[v].reserved == 0
    requires forall w :: 0 <= w < vcs && w != v ==> Resting(st.vcs[w])
    requires st.vcs[v].inUseBy < 0 || (wait && st.vcs[v].occupancy == 1 && st.vcs[v].tailSent)
    ensures Reaches(s, policy, wait, st, events, st1) && Base(s, st1, vcs) && Rests(st1.vcs)
    ensures st1 == st.(vcs := st1.vcs)
    decreases st.vcs[v].occupancy
  {
    assert Reaches(s, policy, wait, st, [], st);
    if st.vcs[v].occupancy == 0 {
      return [], st;
    }
    hide Reaches, FlowOk, Fits;
    FlowFits(policy, wait, st.vcs);
    CreditKeeps(policy, wait, st.vcs, v);
    events, st1 := Return(s, policy, wait, st, [], st, vcs, v);
    var more, st2 := Drain(s, policy, wait, st1, vcs, v);
    ReachOn(s, policy, wait, st, events, st1, more, st2);
    events, st1 := events + more, st2;
  }

  lemma TurnCycle(f: nat, x: nat, y: nat, n: nat)
    requires f < n && x < n && y < n && f != x && f != y && x != y && Turn(f, x, n) < Turn(f, y, n)
    ensures Turn(x, y, n) < Turn(x, f, n) < Turn(x, x, n)
  {
  }

  /** Class x outranks class y, which is given v; v is full then. */
  lemma OutrankFull(s: Setting, policy: Policy, wait: bool, st: State, vcs: nat, f: nat, u: nat, pf: int, v: nat,
        x: nat, y: nat, p: int)
    returns (events: seq<Event>, st1: State, g: Flit)
    requires Parked(s, policy, wait, st, vcs, f, u, pf, v) && OnlyQueues(st, f, f) && st.lastClass == x && Tight(policy, wait)
    requires s.Class(x) && s.Class(y) && x != f && y != f && x != y && Turn(f, x, |s.here|) < Turn(f, y, |s.here|)
    requires v in s.vcsOf[x] && v in s.vcsOf[y] && pf <= p < s.high[x] && s.low[y] <= p <= s.high[y]
    requires !Full(policy, st.vcs, v) && FlowOk(policy, wait, More(wait, st.vcs, v)) && Full(policy, More(wait, st.vcs, v), v)
    ensures Reaches(s, policy, wait, st, events, st1) && Base(s, st1, vcs) && FlowOk(policy, wait, st1.vcs) && st1.lastClass == x
    ensures OnlyQueues(st1, f, y) && st1.queues[f] == st.queues[f] && Waiting(st1.queues[y], p, v) && Full(policy, st1.vcs, v)
    ensures g.head && g.tail && g.vc == v && st1.vcs == st.vcs[v := SentBy(wait, st.vcs[v], g)]
  {
    hide Reaches, Fits, Full, FlowOk, Ranges, CanHappen, Do, Gone, Tight, SentBy;
    FlowFits(policy, wait, st.vcs);
    events, st1 := QueueTwo(s, policy, wait, st, vcs, y, p, x, s.high[x]);
    g := OnVc(st1.queues[x][0], v);
    TurnCycle(f, x, y, |s.here|);
    AboveBothTick(s, policy, wait, st1, vcs, y, p, x, s.high[x], v, f, u, pf);
    SameFull(policy, wait, st1.vcs, v, g);
    var st2 := st1.(queues := st1.queues[y := Given(st1.queues[y], v)]);
    GoneBase(s, wait, st2, vcs, x, v);
    GoneIs(wait, st2, x, v);
    ReachMore(s, policy, wait, st, events, st1, Tick(Ranges(s, vcs, y, v, x, v)));
    events, st1 := events + [Tick(Ranges(s, vcs, y, v, x, v))], Gone(wait, st2, x, v);
  }

  /** The pending flit passes, and its credit comes back. */
  lemma Pass(s: Setting, policy: Policy, wait: bool, st: State, vcs: nat, f: nat, u: nat, pf: int, y: nat, v: nat, p: int)
    returns (events: seq<Event>, st1: State)
    requires Base(s, st, vcs) && FlowOk(policy, wait, st.vcs) && s.Class(f)
    requires s.Class(y) && f != y && v in s.vcsOf[y] && OnlyQueues(st, f, y)
    requires Turn(st.lastClass, y, |s.here|) < Turn(st.lastClass, f, |s.here|) && u < vcs && v < vcs && u != v
    requires Pending(st.queues[f], pf, u) && Waiting(st.queues[y], p, v) && Full(policy, st.vcs, v) && !Full(policy, st.vcs, u)
    requires CanSend(st.vcs[u]) && st.vcs[u].occupancy == 0
    ensures Reaches(s, policy, wait, st, events, st1) && Base(s, st1, vcs) && FlowOk(policy, wait, st1.vcs) && st1.lastClass == f
    ensures OnlyQueues(st1, y, y) && st1.queues[y] == st.queues[y] && st1.vcs == st.vcs[u := st1.vcs[u]] && Resting(st1.vcs[u])
  {
    assert Reaches(s, policy, wait, st, [], st);
    hide Reaches, Fits, Full, FlowOk, Ranges, CanHappen, Do;
    FlowFits(policy, wait, st.vcs);
    PassingTick(s, policy, wait, st, vcs, f, u, pf, y, v, p);
    SentByKeeps(policy, wait, st.vcs, OnVc(st.queues[f][0], u));
    ReachMore(s, policy, wait, st, [], st, Tick(Ranges(s, vcs, y, v, y, v)));
    events, st1 := [] + [Tick(Ranges(s, vcs, y, v, y, v))], BodyGone(wait, st, f, u);
    FlowFits(policy, wait, st1.vcs);
    CreditKeeps(policy, wait, st1.vcs, u);
    events, st1 := Return(s, policy, wait, st, events, st1, vcs, u);
    assert st1.vcs == st.vcs[u := st1.vcs[u]];
  }

  /** A single flit of class x comes and goes on v, so that x was served last. */
  lemma OnceAbove(s: Setting, policy: Policy, wait: bool, st: State, vcs: nat, f: nat, u: nat, pf: int, v: nat, x: nat)
    returns (events: seq<Event>, st1: State)
    requires Parked(s, policy, wait, st, vcs, f, u, pf, v) && OnlyQueues(st, f, f)
    requires s.Class(x) && x != f && v in s.vcsOf[x] && pf < s.high[x]
    requires !Full(policy, st.vcs, v) && !Full(policy, st.vcs, u) && Resting(st.vcs[v])
    ensures Reaches(s, policy, wait, st, events, st1) && Parked(s, policy, wait, st1, vcs, f, u, pf, v) && OnlyQueues(st1, f, f)
    ensures st1.lastClass == x && Resting(st1.vcs[v])
  {
    hide Reaches, Full, FlowOk, Fits;
    var g;
    events, st1, g := SendAbove(s, policy, wait, st, vcs, f, u, pf, v, x);
    FlowFits(policy, wait, st1.vcs);
    CreditKeeps(policy, wait, st1.vcs, v);
    events, st1 := Return(s, policy, wait, st, events, st1, vcs, v);
  }

  lemma AfterOutranking(s: Setting, policy: Policy, wait: bool, st: State, st1: State, vcs: nat, f: nat, u: nat,
        pf: int, v: nat, x: nat, y: nat, p: int, g: Flit)
    returns (events: seq<Event>)
    requires Parked(s, policy, wait, st, vcs, f, u, pf, v) && Tight(policy, wait)
    requires Roomy(policy, vcs, 1) && !Full(policy, st.vcs, v)
    requires s.Class(x) && s.Class(y) && x != f && y != f && x != y && Turn(f, x, |s.here|) < Turn(f, y, |s.here|)
    requires v in s.vcsOf[x] && v in s.vcsOf[y] && s.low[x] <= p <= s.high[x]
    requires Base(s, st1, vcs) && FlowOk(policy, wait, st1.vcs) && st1.lastClass == x && OnlyQueues(st1, f, y)
    requires st1.queues[f] == st.queues[f] && Waiting(st1.queues[y], p, v) && Full(policy, st1.vcs, v)
    requires g.head && g.tail && g.vc == v && st1.vcs == st.vcs[v := SentBy(wait, st.vcs[v], g)]
    ensures EndsBusy(s, policy, wait, st1, events)
  {
    PendingHasRoom(policy, st1.vcs, u);
    TurnCycle(f, x, y, |s.here|);
    assert VcOk(wait, st.vcs[v]);
    hide Reaches, EndsBusy, Full, FlowOk, Fits;
    var first, st2 := Pass(s, policy, wait, st1, vcs, f, u, pf, y, v, p);
    var second, st3 := Drain(s, policy, wait, st2, vcs, v);
    events := Overtake(s, policy, wait, st3, vcs, x, y, v, p);
    ReachBusy(s, policy, wait, st2, second, st3, events);
    ReachBusy(s, policy, wait, st1, first, st2, second + events);
    events := first + (second + events);
  }

  /** A flit of class f is pending on u.  Class x outranks class y, which is given v, and fills v; the pending flit passes;
      then x overtakes y. */
  lemma Bystander(s: Setting, policy: Policy, wait: bool, vcs: nat, x: nat, y: nat, f: nat, u: nat, v: nat, p: int)
    returns (events: seq<Event>)
    requires Routable(s, vcs) && Tight(policy, wait) && Roomy(policy, vcs, 1) && (policy.Private? || Roomy(policy, vcs, 2))
    requires s.Class(x) && s.Class(y) && s.Class(f) && x != y && y != f && x != f && Turn(f, x, |s.here|) < Turn(f, y, |s.here|)
    requires v in s.vcsOf[x] && v in s.vcsOf[y] && u in s.vcsOf[f] && u != v
    requires s.low[x] <= p < s.high[x] && s.low[y] <= p <= s.high[y] && s.low[f] <= p
    ensures EndsBusy(s, policy, wait, Start(s, vcs), events)
  {
    var st, pf := Start(s, vcs), s.low[f];
    var first, st1 := Park(s, policy, wait, st, vcs, f, u, v);
    ParkedRoom(s, policy, wait, st1, vcs, f, u, pf, v);
    PendingHasRoom(policy, st1.vcs, u);
    hide Reaches, EndsBusy, Full, Ranges, CanHappen, Do, FlowOk, Roomy, Tight, Fits;
    var second, st2 := OnceAbove(s, policy, wait, st1, vcs, f, u, pf, v, x);
    ParkedRoom(s, policy, wait, st2, vcs, f, u, pf, v);
    var third, st3 := Fill(s, policy, wait, st2, vcs, f, u, pf, v, x);
    var fourth, st4, g := OutrankFull(s, policy, wait, st3, vcs, f, u, pf, v, x, y, p);
    events := AfterOutranking(s, policy, wait, st3, st4, vcs, f, u, pf, v, x, y, p, g);
    ReachBusy(s, policy, wait, st3, fourth, st4, events);
    ReachBusy(s, policy, wait, st2, third, st3, fourth + events);
    ReachBusy(s, policy, wait, st1, second, st2, third + (fourth + events));
    ReachBusy(s, policy, wait, st, first, st1, second + (third + (fourth + events)));
    events := first + (second + (third + (fourth + events)));
  }

  // ---- the exact conditions ----

  ghost predicate NeverBusy(s: Setting, policy: Policy, wait: bool, vcs: nat) {
    forall events :: !EndsBusy(s, policy, wait, Start(s, vcs), events)
  }

  /** A third class that outranks two of one priority on a virtual channel makes one run into the other, whatever the
      policy. */
  lemma ToppedBecomesBusy(s: Setting, policy: Policy, wait: bool, vcs: nat, c: nat, d: nat, v: nat) returns (events: seq<Event>)
    requires Routable(s, vcs) && Roomy(policy, vcs, 1) && s.Meet(c, d, v) && s.Topped(c, d)
    ensures EndsBusy(s, policy, wait, Start(s, vcs), events)
  {
    hide EndsBusy;
    var e :| s.Class(e) && e != c && e != d && s.high[e] > s.Level(c, d);
    if Turn(e, c, |s.here|) < Turn(e, d, |s.here|) {
      events := Trio(s, policy, wait, vcs, c, d, e, v, s.Level(c, d));
    } else {
      events := Trio(s, policy, wait, vcs, d, c, e, v, s.Level(c, d));
    }
  }

  /** When a class that can be outranked shares a virtual channel, some run meets a busy one, if virtual channels are held
      until the tail's credit is back and have room for two flits. */
  lemma UnsafeBecomesBusy(s: Setting, policy: Policy, vcs: nat) returns (events: seq<Event>)
    requires Routable(s, vcs) && Roomy(policy, vcs, 2) && !s.Safe()
    ensures EndsBusy(s, policy, true, Start(s, vcs), events)
  {
    hide EndsBusy;
    var c, d :| s.Class(c) && s.Class(d) && c != d && s.Outranked(c) && !(s.vcsOf[c] !! s.vcsOf[d]);
    var v :| v in s.vcsOf[c] && v in s.vcsOf[d];
    var e :| s.Class(e) && e != c && s.high[e] > s.low[c];
    if s.low[c] < s.high[d] {
      events := Duel(s, policy, vcs, c, d, v);
    } else if s.low[d] < s.high[c] {
      events := Duel(s, policy, vcs, d, c, v);
    } else {
      assert s.Meet(c, d, v) && s.Topped(c, d);
      events := ToppedBecomesBusy(s, policy, true, vcs, c, d, v);
    }
  }

  /** When a class can be overtaken by one of its own priority, some run meets a busy virtual channel: under the private
      policy, and under every policy that has room for two flits. */
  lemma UnsteadyBecomesBusy(s: Setting, policy: Policy, wait: bool, vcs: nat) returns (events: seq<Event>)
    requires Routable(s, vcs) && Tight(policy, wait) && Roomy(policy, vcs, 1)
    requires (policy.Private? || Roomy(policy, vcs, 2)) && !s.Steady()
    ensures EndsBusy(s, policy, wait, Start(s, vcs), events)
  {
    hide EndsBusy;
    var c, d, v :| s.Overtaken(c, d, v);
    if s.Topped(c, d) {
      events := ToppedBecomesBusy(s, policy, wait, vcs, c, d, v);
    } else {
      var f :| s.Between(f, c, d, v);
      var u :| u in s.vcsOf[f] && u != v;
      events := Bystander(s, policy, wait, vcs, d, c, f, u, v, s.Level(c, d));
    }
  }

  /** The conditions are sufficient under every policy.  They are exact under the private policy, and under every policy
      that has room for two flits on each virtual channel. */
  lemma NeverBusyExactly(s: Setting, policy: Policy, wait: bool, vcs: nat)
    requires Routable(s, vcs) && Roomy(policy, vcs, 1)
    ensures s.SafeFor(Tight(policy, wait)) ==> NeverBusy(s, policy, wait, vcs)
    ensures policy.Private? || Roomy(policy, vcs, 2) ==> (NeverBusy(s, policy, wait, vcs) <==> s.SafeFor(Tight(policy, wait)))
    ensures NeverBusy(s, policy, wait, vcs) ==> forall c, d, v :: !(s.Meet(c, d, v) && s.Topped(c, d))
  {
    hide EndsBusy, InjectionOk, FlowOk, Start, Setting.Safe, Setting.Steady;
    if s.SafeFor(Tight(policy, wait)) {
      forall events
        ensures !EndsBusy(s, policy, wait, Start(s, vcs), events)
      {
        StartOk(s, policy, wait, vcs);
        SafeIsNeverBusy(s, policy, wait, Start(s, vcs), NoHistory(s, vcs), events);
      }
    } else if policy.Private? || Roomy(policy, vcs, 2) {
      if Tight(policy, wait) {
        var events := UnsteadyBecomesBusy(s, policy, wait, vcs);
      } else {
        var events := UnsafeBecomesBusy(s, policy, vcs);
      }
    }
    forall c, d, v | s.Meet(c, d, v) && s.Topped(c, d)
      ensures !NeverBusy(s, policy, wait, vcs)
    {
      var events := ToppedBecomesBusy(s, policy, wait, vcs, c, d, v);
    }
  }

  /** Two classes of priorities 0 and 1 that share their only virtual channel clash when the tail's credit is awaited. */
  lemma TwoClassesClash()
    ensures var s := Setting([true, true], [{0}, {0}], [0, 1], [0, 1]);
      !s.Safe() && Routable(s, 1) && !NeverBusy(s, Private(2), true, 1)
  {
    hide EndsBusy, Start;
    var s := Setting([true, true], [{0}, {0}], [0, 1], [0, 1]);
    assert s.Class(0) && s.Class(1) && s.high[1] > s.low[0] && 0 in s.vcsOf[0] && 0 in s.vcsOf[1];
    assert forall c :: s.Class(c) ==> c == 0 || c == 1;
    var events := Duel(s, Private(2), 1, 0, 1, 0);
    assert s.Outranked(0);
  }

  /** Two classes alone never clash when virtual channels are tight. */
  lemma TwoClassesAreSteady(s: Setting)
    requires s.Ok() && |s.here| == 2
    ensures s.Steady()
  {
    forall c, d, v
      ensures !s.Overtaken(c, d, v)
    {
      assert forall e :: s.Class(e) ==> e == 0 || e == 1;
    }
  }

  /** Three classes clash even then: the first outranks the others, which share their only virtual channel. */
  lemma ThreeClassesClash(wait: bool)
    ensures var s := Setting([true, true, true], [{1}, {0}, {0}], [1, 0, 0], [1, 0, 0]);
      !s.Steady() && Routable(s, 2) && !NeverBusy(s, Private(1), wait, 2)
  {
    hide EndsBusy, Start;
    var s := Setting([true, true, true], [{1}, {0}, {0}], [1, 0, 0], [1, 0, 0]);
    assert s.Class(0) && s.Class(1) && s.Class(2) && s.high[0] > s.Level(1, 2) && s.Meet(1, 2, 0);
    assert s.Overtaken(1, 2, 0);
    assert Routable(s, 2) by {
      assert forall c :: s.Class(c) ==> c == 0 || c == 1 || c == 2;
      assert 1 in s.vcsOf[0] && 0 in s.vcsOf[1] && 0 in s.vcsOf[2];
    }
    var events := ToppedBecomesBusy(s, Private(1), wait, 2, 1, 2, 0);
  }
}
