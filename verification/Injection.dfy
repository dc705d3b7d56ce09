/** Packet injection at one node and subnet.

Packets wait in one queue per traffic class.  Each cycle the classes are scanned round-robin from
the last one served; the flit of highest priority whose virtual channel is not full is injected.
The head flit picks a virtual channel and each later flit gets it passed back from the one before.
A head that has picked one but is outranked keeps it for the next cycle.
*/
module Injection {
  import opened Arith
  import opened Flits
  import opened FlowControl

  /** A waiting flit.  vc is -1 until one is assigned. */
  datatype Queued = Queued(id: nat, pid: nat, head: bool, tail: bool, pri: int, vc: int)

  /** The turn at which class c comes up when the scan starts after class `last`. */
  ghost function Turn(last: nat, c: nat, n: nat): int {
    if c == last then n else Dist(n, last, c)
  }

  /** What is known of the traffic classes: which belong to this subnet, the virtual channels routing may give them, and
      the range of their priorities. */
  datatype Setting = Setting(here: seq<bool>, vcsOf: seq<set<nat>>, low: seq<int>, high: seq<int>) {
    ghost predicate Ok() {
      0 < |here| == |vcsOf| == |low| == |high|
    }

    ghost predicate Class(c: int) {
      0 <= c < |here| && here[c]
    }

    /** Some other class can have a flit of higher priority than one of class c. */
    ghost predicate Outranked(c: int)
      requires Ok() && Class(c)
    {
      exists d :: Class(d) && d != c && high[d] > low[c]
    }

    /** A class that can be outranked shares no virtual channel with another class.  In particular this holds when all
        priorities are equal and when no virtual channel is shared at all. */
    ghost predicate Safe() {
      && Ok()
      && forall c, d :: Class(c) && Class(d) && c != d && Outranked(c) ==> vcsOf[c] !! vcsOf[d]
    }

    /** The lowest priority that packets of both classes can have. */
    ghost function Level(c: int, d: int): int
      requires Ok() && Class(c) && Class(d)
    {
      Max(low[c], low[d])
    }

    /** Classes c and d can both have packets of one priority on v. */
    ghost predicate Meet(c: int, d: int, v: nat)
      requires Ok()
    {
      && Class(c) && Class(d) && c != d && v in vcsOf[c] && v in vcsOf[d]
      && Level(c, d) <= high[c] && Level(c, d) <= high[d]
    }

    /** Some third class can outrank both. */
    ghost predicate Topped(c: int, d: int)
      requires Ok() && Class(c) && Class(d)
    {
      exists e :: Class(e) && e != c && e != d && high[e] > Level(c, d)
    }

    /** Class f is served between two turns of class d, on another virtual channel than v, and then d before c. */
    ghost predicate Between(f: int, c: int, d: int, v: nat)
      requires Ok() && Class(c) && Class(d)
    {
      && Class(f) && f != c && f != d && Turn(f, d, |here|) < Turn(f, c, |here|)
      && exists u :: u in vcsOf[f] && u != v
    }

    /** A packet of class c can be left waiting with v while a packet of class d, of its own priority, starts on v: some
        third class outranks both, or d outranks c at one time and a third class comes in between. */
    ghost predicate Overtaken(c: int, d: int, v: nat)
      requires Ok()
    {
      && Meet(c, d, v)
      && (Topped(c, d) || (high[d] > Level(c, d) && exists f :: Between(f, c, d, v)))
    }

    /** No class can be overtaken by one of its own priority on a virtual channel both use. */
    ghost predicate Steady() {
      Ok() && forall c, d, v :: !Overtaken(c, d, v)
    }

    /** What is asked of a buffer whose virtual channels are tight (in use only while a packet is being sent, or full),
        and of any other. */
    ghost predicate SafeFor(tight: bool) {
      if tight then Steady() else Safe()
    }
  }

  lemma UniformIsSafe(s: Setting)
    requires s.Ok() && forall c, d :: s.Class(c) && s.Class(d) ==> s.high[c] <= s.low[d]
    ensures s.Safe()
  {
  }

  lemma DisjointIsSafe(s: Setting)
    requires s.Ok() && forall c, d :: s.Class(c) && s.Class(d) && c != d ==> s.vcsOf[c] !! s.vcsOf[d]
    ensures s.Safe()
  {
  }

  lemma SafeIsSteady(s: Setting)
    requires s.Safe()
    ensures s.Steady()
  {
    forall c, d, v
      ensures !s.Overtaken(c, d, v)
    {
      if s.Meet(c, d, v) {
        assert !s.Outranked(c);
      }
    }
  }

  ghost function Bare(q: seq<Queued>): seq<Flit> {
    seq(|q|, k requires 0 <= k < |q| => Flit(q[k].id, q[k].pid, 0, q[k].head, q[k].tail))
  }

  function OnVc(f: Queued, v: nat): Flit {
    Flit(f.id, f.pid, v, f.head, f.tail)
  }

  // ---- generating packets ----

  ghost function Packet(id: nat, pid: nat, size: nat, pri: int): seq<Queued> {
    seq(size, i requires 0 <= i < size => Queued(id + i, pid, i == 0, i == size - 1, pri, -1))
  }

  lemma {:induction false} PacketSuffix(id: nat, pid: nat, size: nat, pri: int, i: nat)
    requires i <= size && size > 0
    ensures WholePackets(if i == 0 || i == size then -1 else pid, Bare(Packet(id, pid, size, pri))[i..], -1)
    decreases size - i
  {
    if i < size {
      PacketSuffix(id, pid, size, pri, i + 1);
      var s := Bare(Packet(id, pid, size, pri));
      assert s[i..][1..] == s[i + 1..];
    }
  }

  lemma PacketIsWhole(id: nat, pid: nat, size: nat, pri: int)
    ensures WholePackets(-1, Bare(Packet(id, pid, size, pri)), -1)
  {
    if size > 0 {
      PacketSuffix(id, pid, size, pri, 0);
      assert Bare(Packet(id, pid, size, pri))[0..] == Bare(Packet(id, pid, size, pri));
    }
  }

  // ---- one cycle ----

  /** The state of the injector: the buffer it feeds, its queues, and the numbers of the next packet and flit. */
  datatype State = State(vcs: seq<Vc>, queues: seq<seq<Queued>>, lastVc: seq<int>, lastClass: nat, curPid: nat, curId: nat)

  /** A packet joins the queue of class c. */
  ghost function Generated(st: State, c: nat, size: nat, pri: int): State
    requires c < |st.queues|
  {
    st.(queues := st.queues[c := st.queues[c] + Packet(st.curId, st.curPid, size, pri)],
        curPid := st.curPid + 1, curId := st.curId + size)
  }

  type Range = (nat, nat)

  ghost predicate FrontInRange(q: seq<Queued>, vcs: nat) {
    q != [] ==> -1 <= q[0].vc < vcs
  }

  /** Sizes agree, virtual channels exist, and ranges are not empty. */
  ghost predicate Shaped(s: Setting, st: State, full: seq<bool>, ranges: seq<Range>) {
    && s.Ok() && |st.queues| == |st.lastVc| == |ranges| == |s.here| && st.lastClass < |s.here| && |full| == |st.vcs|
    && (forall c :: 0 <= c < |ranges| ==> ranges[c].0 <= ranges[c].1 < |st.vcs|)
    && (forall c :: 0 <= c < |st.queues| ==> FrontInRange(st.queues[c], |st.vcs|))
  }

  predicate Usable(vcs: seq<Vc>, full: seq<bool>, v: nat)
    requires v < |vcs| == |full|
  {
    vcs[v].inUseBy < 0 && !full[v]
  }

  /** The i-th virtual channel tried after `last`.  When that lies outside the range only the first one is ever tried. */
  function Tried(last: int, r: Range, i: nat): (v: nat)
    requires r.0 <= r.1
    ensures r.0 <= v <= r.1
  {
    if r.0 <= last <= r.1 then r.0 + (last - r.0 + i) % (r.1 - r.0 + 1) else r.0
  }

  ghost function Select(vcs: seq<Vc>, full: seq<bool>, last: int, r: Range, i: nat): (v: int)
    requires r.0 <= r.1 < |vcs| == |full|
    ensures v == -1 || (r.0 <= v <= r.1 && Usable(vcs, full, v))
    decreases r.1 - r.0 + 2 - i
  {
    if i > r.1 - r.0 + 1 then -1
    else if Usable(vcs, full, Tried(last, r, i)) then Tried(last, r, i)
    else Select(vcs, full, last, r, i + 1)
  }

  /** A head without a virtual channel is given one, if one is usable. */
  ghost function Assigned(vcs: seq<Vc>, full: seq<bool>, last: int, r: Range, q: seq<Queued>): (q1: seq<Queued>)
    requires q != [] && r.0 <= r.1 < |vcs| == |full| && FrontInRange(q, |vcs|)
    ensures |q1| == |q| && FrontInRange(q1, |vcs|) && q1[0].pri == q[0].pri
  {
    if q[0].head && q[0].vc == -1 then
      var v := Select(vcs, full, last, r, 1);
      if v == -1 then q else [q[0].(vc := v)] + q[1..]
    else q
  }

  /** The winner has a flit whose virtual channel is not full. */
  ghost predicate Winner(st: State, full: seq<bool>, w: int) {
    && -1 <= w < |st.queues| && |full| == |st.vcs|
    && (w >= 0 ==> st.queues[w] != [] && 0 <= st.queues[w][0].vc < |st.vcs| && !full[st.queues[w][0].vc])
  }

  /** Class c is considered against the winner so far. */
  ghost function Considered(s: Setting, st: State, full: seq<bool>, ranges: seq<Range>, w: int,
        c: nat): (r: (seq<seq<Queued>>, int))
    requires Shaped(s, st, full, ranges) && c < |s.here| && Winner(st, full, w)
    ensures r.1 == w || r.1 == c
    ensures Shaped(s, st.(queues := r.0), full, ranges) && Winner(st.(queues := r.0), full, r.1)
  {
    var q := st.queues[c];
    if !s.here[c] || q == [] || (w >= 0 && st.queues[w][0].pri >= q[0].pri) then (st.queues, w)
    else
      var q1 := Assigned(st.vcs, full, st.lastVc[c], ranges[c], q);
      (st.queues[c := q1], if q1[0].vc != -1 && !full[q1[0].vc] then c else w)
  }

  /** The scan from turn i on. */
  ghost function Scan(s: Setting, st: State, full: seq<bool>, ranges: seq<Range>, w: int, i: nat): (r: (seq<seq<Queued>>, int))
    requires Shaped(s, st, full, ranges) && Winner(st, full, w)
    ensures Shaped(s, st.(queues := r.0), full, ranges) && Winner(st.(queues := r.0), full, r.1)
    decreases |s.here| + 1 - i
  {
    if i > |s.here| then (st.queues, w)
    else
      var (queues, w1) := Considered(s, st, full, ranges, w, (st.lastClass + i) % |s.here|);
      Scan(s, st.(queues := queues), full, ranges, w1, i + 1)
  }

  /** The queue once its front flit has left on v: the virtual channel is passed back inside a packet. */
  ghost function NextQueue(q: seq<Queued>, v: nat): seq<Queued>
    requires q != []
  {
    if |q| > 1 && !q[0].tail then [q[1].(vc := v)] + q[2..] else q[1..]
  }

  /** Busy: the head's virtual channel is in use when it is to be taken, which is an error. */
  datatype Outcome = Idle(st: State) | Left(st: State, f: Flit, from: nat) | Busy

  ghost function SentBy(wait: bool, vc: Vc, f: Flit): Vc {
    Sent(wait, if f.head then Taken(vc, f.pid) else vc, f.tail)
  }

  ghost function Leave(wait: bool, st: State, w: nat): Outcome
    requires w < |st.queues| == |st.lastVc| && st.queues[w] != [] && 0 <= st.queues[w][0].vc < |st.vcs|
  {
    var q := st.queues[w];
    var f := OnVc(q[0], q[0].vc);
    if f.head && st.vcs[f.vc].inUseBy >= 0 then Busy
    else
      Left(st.(vcs := st.vcs[f.vc := SentBy(wait, st.vcs[f.vc], f)], queues := st.queues[w := NextQueue(q, f.vc)],
               lastVc := if f.head then st.lastVc[w := f.vc] else st.lastVc, lastClass := w), f, w)
  }

  // ---- the structure of queues and virtual channels ----

  /** What has happened so far: the packet each class is sending, what was sent on each virtual channel, the packet open
      there, and the class it belongs to. */
  datatype History = History(open: seq<int>, sent: seq<seq<Flit>>, openOn: seq<int>, owner: seq<nat>)

  /** Inside a packet the front flit has the packet's virtual channel, and the packet is open there. */
  ghost predicate FrontOk(s: Setting, vcs: seq<Vc>, h: History, c: nat, f: Queued)
    requires s.Ok() && s.Class(c) && c < |h.open| && |h.openOn| == |h.owner| == |vcs|
  {
    && -1 <= f.vc < |vcs| && (f.vc >= 0 ==> f.vc in s.vcsOf[c])
    && (h.open[c] >= 0 ==> f.vc >= 0 && h.openOn[f.vc] == h.open[c] && h.owner[f.vc] == c)
  }

  /** A class queue: the rest of the packet being injected, then whole packets; all flits of a packet have its
      priority. */
  ghost predicate QueueOk(s: Setting, vcs: seq<Vc>, h: History, c: nat, q: seq<Queued>)
    requires s.Ok() && s.Class(c) && c < |h.open| && |h.openOn| == |h.owner| == |vcs|
  {
    && h.open[c] >= -1
    && WholePackets(h.open[c], Bare(q), -1)
    && (forall k :: 1 <= k < |q| ==> q[k].vc == -1 && (!q[k].head ==> q[k].pri == q[k - 1].pri))
    && (forall k :: 0 <= k < |q| ==> s.low[c] <= q[k].pri <= s.high[c])
    && (q != [] ==> FrontOk(s, vcs, h, c, q[0]))
  }

  /** The flits sent so far on v are whole packets back to back, but for the one being sent.  That one has not sent its
      tail, and its next flit is the front of its class. */
  ghost predicate SentOk(s: Setting, st: State, h: History, v: nat)
    requires |h.sent| == |h.openOn| == |h.owner| == |st.vcs| && v < |st.vcs| && |st.queues| == |h.open| == |s.here|
  {
    && WholePackets(-1, h.sent[v], h.openOn[v])
    && (h.openOn[v] >= 0 <==> CanSend(st.vcs[v]))
    && (h.openOn[v] >= 0 ==> var d := h.owner[v]; s.Class(d) && h.open[d] >= 0 && st.queues[d] != [] && st.queues[d][0].vc == v)
  }

  ghost predicate Sized(s: Setting, st: State, h: History) {
    && s.Ok() && |st.queues| == |st.lastVc| == |h.open| == |s.here| && st.lastClass < |s.here|
    && |h.sent| == |h.openOn| == |h.owner| == |st.vcs|
  }

  ghost predicate Structured(s: Setting, st: State, h: History) {
    && Sized(s, st, h)
    && (forall v :: 0 <= v < |st.vcs| ==> SentOk(s, st, h, v))
    && (forall c :: 0 <= c < |st.queues| ==> FrontInRange(st.queues[c], |st.vcs|))
    && (forall c :: s.Class(c) ==> QueueOk(s, st.vcs, h, c, st.queues[c]))
  }

  lemma FrontFlit(s: Setting, vcs: seq<Vc>, h: History, c: nat, q: seq<Queued>)
    requires s.Ok() && s.Class(c) && c < |h.open| && |h.openOn| == |h.owner| == |vcs| && QueueOk(s, vcs, h, c, q) && q != []
    ensures Continues(h.open[c], Bare(q)[0]) && (q[0].head <==> h.open[c] < 0) && FrontOk(s, vcs, h, c, q[0])
    ensures WholePackets(Open(Bare(q)[0]), Bare(q)[1..], -1)
    ensures !q[0].tail ==> |q| > 1 && !q[1].head && q[1].pri == q[0].pri
    ensures s.low[c] <= q[0].pri <= s.high[c]
  {
    assert !q[0].tail && |q| > 1 ==> Bare(q)[1..][0] == Bare(q)[1];
  }

  lemma FrontFacts(s: Setting, st: State, h: History, c: nat)
    requires Structured(s, st, h) && s.Class(c) && st.queues[c] != []
    ensures |st.queues| == |h.open| == |s.here| && |h.openOn| == |h.owner| == |st.vcs| && s.Ok()
    ensures FrontOk(s, st.vcs, h, c, st.queues[c][0]) && (st.queues[c][0].head <==> h.open[c] < 0)
    ensures s.low[c] <= st.queues[c][0].pri <= s.high[c]
    ensures !st.queues[c][0].tail ==> |st.queues[c]| > 1 && st.queues[c][1].pri == st.queues[c][0].pri
    ensures |st.queues[c]| > 1 ==> st.queues[c][1].vc == -1
  {
    assert QueueOk(s, st.vcs, h, c, st.queues[c]);
    FrontFlit(s, st.vcs, h, c, st.queues[c]);
  }

  lemma Sizes(s: Setting, st: State, h: History)
    requires Structured(s, st, h)
    ensures Sized(s, st, h)
  {
  }

  lemma SizeFacts(s: Setting, st: State, full: seq<bool>, ranges: seq<Range>)
    requires Shaped(s, st, full, ranges)
    ensures s.Ok() && |st.queues| == |st.lastVc| == |ranges| == |s.here| && st.lastClass < |s.here|
  {
  }

  // ---- the scan keeps it ----

  /** A head without a virtual channel is given one. */
  lemma AssignStep(s: Setting, st: State, h: History, c: nat, v: nat)
    requires Structured(s, st, h) && s.Class(c) && st.queues[c] != [] && st.queues[c][0].head && st.queues[c][0].vc == -1
    requires v < |st.vcs| && v in s.vcsOf[c]
    ensures Structured(s, st.(queues := st.queues[c := [st.queues[c][0].(vc := v)] + st.queues[c][1..]]), h)
  {
    var q := st.queues[c];
    var q1 := [q[0].(vc := v)] + q[1..];
    FrontFacts(s, st, h, c);
    assert QueueOk(s, st.vcs, h, c, q);
    assert Bare(q1) == Bare(q);
    hide WholePackets;
    assert QueueOk(s, st.vcs, h, c, q1);
    var st1 := st.(queues := st.queues[c := q1]);
    forall w | 0 <= w < |st.vcs|
      ensures SentOk(s, st1, h, w)
    {
      assert SentOk(s, st, h, w);
    }
  }

  /** Routing gives every class only its own virtual channels. */
  ghost predicate RoutesOk(s: Setting, ranges: seq<Range>) {
    forall c :: s.Class(c) && c < |ranges| && s.Ok() ==> forall v :: ranges[c].0 <= v <= ranges[c].1 ==> v in s.vcsOf[c]
  }

  lemma Routed(s: Setting, ranges: seq<Range>, c: nat, v: nat)
    requires s.Ok() && RoutesOk(s, ranges) && s.Class(c) && c < |ranges| && ranges[c].0 <= v <= ranges[c].1
    ensures v in s.vcsOf[c]
  {
  }

  lemma ConsideredKeeps(s: Setting, st: State, h: History, full: seq<bool>, ranges: seq<Range>, w: int, c: nat)
    requires Shaped(s, st, full, ranges) && RoutesOk(s, ranges) && Structured(s, st, h) && Winner(st, full, w) && c < |s.here|
    ensures Structured(s, st.(queues := Considered(s, st, full, ranges, w, c).0), h)
  {
    hide Structured, RoutesOk;
    var q := st.queues[c];
    assert st.queues[c := q] == st.queues && st.(queues := st.queues) == st;
    if s.here[c] && q != [] && q[0].head && q[0].vc == -1 {
      var v := Select(st.vcs, full, st.lastVc[c], ranges[c], 1);
      if v != -1 {
        Routed(s, ranges, c, v);
        AssignStep(s, st, h, c, v);
      }
    }
  }

  lemma TurnComes(last: nat, i: nat, n: nat)
    requires last < n && 1 <= i <= n
    ensures (last + i) % n < n && Turn(last, (last + i) % n, n) == i
    ensures forall c :: 0 <= c < n && Turn(last, c, n) == i ==> c == (last + i) % n
  {
    WrapMod(last + i, n);
  }

  lemma ScanUnfolds(s: Setting, st: State, full: seq<bool>, ranges: seq<Range>, w: int, i: nat)
    requires Shaped(s, st, full, ranges) && Winner(st, full, w) && 1 <= i <= |s.here|
    ensures (st.lastClass + i) % |s.here| < |s.here|
    ensures var (queues, w1) := Considered(s, st, full, ranges, w, (st.lastClass + i) % |s.here|);
      Scan(s, st, full, ranges, w, i) == Scan(s, st.(queues := queues), full, ranges, w1, i + 1)
  {
    TurnComes(st.lastClass, i, |s.here|);
  }

  lemma {:induction false} ScanKeeps(s: Setting, st: State, h: History, full: seq<bool>, ranges: seq<Range>, w: int, i: nat)
    requires Shaped(s, st, full, ranges) && RoutesOk(s, ranges) && Structured(s, st, h) && Winner(st, full, w) && i >= 1
    ensures Structured(s, st.(queues := Scan(s, st, full, ranges, w, i).0), h)
    decreases |s.here| + 1 - i
  {
    hide Structured, RoutesOk, Considered, Shaped;
    SizeFacts(s, st, full, ranges);
    if i <= |s.here| {
      ScanUnfolds(s, st, full, ranges, w, i);
      var c := (st.lastClass + i) % |s.here|;
      ConsideredKeeps(s, st, h, full, ranges, w, c);
      var (queues, w1) := Considered(s, st, full, ranges, w, c);
      ScanKeeps(s, st.(queues := queues), h, full, ranges, w1, i + 1);
    } else {
      assert st.(queues := st.queues) == st;
    }
  }

  // ---- what the scan does ----

  /** What became of class c, whose queue was q: nothing, or its head was given a usable virtual channel and is the winner
      or outranked by it. */
  ghost predicate Touched(s: Setting, st: State, full: seq<bool>, ranges: seq<Range>, w: int, c: nat, q: seq<Queued>)
    requires Shaped(s, st, full, ranges) && c < |s.here| && Winner(st, full, w)
  {
    st.queues[c] == q ||
    (&& q != [] && q[0].head && q[0].vc == -1 && s.here[c]
     && var q1 := st.queues[c];
        && q1 != [] && q1 == [q[0].(vc := q1[0].vc)] + q[1..]
        && q1[0].vc >= 0 && Usable(st.vcs, full, q1[0].vc) && ranges[c].0 <= q1[0].vc <= ranges[c].1
        && w >= 0 && (w == c || st.queues[w][0].pri > q[0].pri))
  }

  lemma ConsideredTouches(s: Setting, st: State, full: seq<bool>, ranges: seq<Range>, w: int, c: nat)
    requires Shaped(s, st, full, ranges) && Winner(st, full, w) && c < |s.here| && c != w
    ensures var (queues, w1) := Considered(s, st, full, ranges, w, c); var st1 := st.(queues := queues);
      && Touched(s, st1, full, ranges, w1, c, st.queues[c])
      && (w1 == c ==> s.here[c])
      && (forall d :: 0 <= d < |s.here| && d != c ==> queues[d] == st.queues[d])
      && (forall d, q :: 0 <= d < |s.here| && d != c && Touched(s, st, full, ranges, w, d, q) ==> Touched(s, st1, full, ranges, w1, d, q))
  {
    hide Select;
    var q := st.queues[c];
    assert st.queues[c := q] == st.queues;
  }

  ghost predicate AllTouched(s: Setting, st: State, full: seq<bool>, ranges: seq<Range>, w: int, before: seq<seq<Queued>>)
    requires Shaped(s, st, full, ranges) && Winner(st, full, w) && |before| == |s.here|
  {
    forall c :: 0 <= c < |s.here| ==> Touched(s, st, full, ranges, w, c, before[c])
  }

  lemma {:induction false} ScanTouches(s: Setting, st: State, full: seq<bool>, ranges: seq<Range>, w: int, i: nat,
        before: seq<seq<Queued>>)
    requires Shaped(s, st, full, ranges) && Winner(st, full, w) && |before| == |s.here| && i >= 1
    requires AllTouched(s, st, full, ranges, w, before)
    requires forall c :: 0 <= c < |s.here| && Turn(st.lastClass, c, |s.here|) >= i ==> st.queues[c] == before[c]
    requires w >= 0 ==> s.here[w] && Turn(st.lastClass, w, |s.here|) < i
    ensures var (queues, w1) := Scan(s, st, full, ranges, w, i);
      AllTouched(s, st.(queues := queues), full, ranges, w1, before) && (w1 >= 0 ==> s.here[w1])
    decreases |s.here| + 1 - i
  {
    hide Considered, Shaped, Touched;
    SizeFacts(s, st, full, ranges);
    if i <= |s.here| {
      TurnComes(st.lastClass, i, |s.here|);
      ScanUnfolds(s, st, full, ranges, w, i);
      var c := (st.lastClass + i) % |s.here|;
      ConsideredTouches(s, st, full, ranges, w, c);
      var (queues, w1) := Considered(s, st, full, ranges, w, c);
      ScanTouches(s, st.(queues := queues), full, ranges, w1, i + 1, before);
      var (queues2, w2) := Scan(s, st.(queues := queues), full, ranges, w1, i + 1);
      assert Scan(s, st, full, ranges, w, i) == (queues2, w2);
      assert st.(queues := queues).(queues := queues2) == st.(queues := queues2);
    } else {
      assert Scan(s, st, full, ranges, w, i) == (st.queues, w) && st.(queues := st.queues) == st;
    }
  }

  ghost predicate Ahead(s: Setting, st: State, w: nat, pw: int, c: nat, pc: int) {
    pw > pc || (pw == pc && Turn(st.lastClass, w, |s.here|) < Turn(st.lastClass, c, |s.here|))
  }

  ghost predicate NoneUsable(vcs: seq<Vc>, full: seq<bool>, last: int, r: Range)
    requires r.0 <= r.1 < |vcs| == |full|
  {
    && !Usable(vcs, full, r.0)
    && (r.0 <= last <= r.1 ==> forall v :: r.0 <= v <= r.1 ==> !Usable(vcs, full, v))
  }

  /** Class c is dealt with: it wins, or its front flit is outranked by the winner or of equal priority and comes later,
      or its virtual channel is full, or it found none. */
  ghost predicate Served(s: Setting, st: State, full: seq<bool>, ranges: seq<Range>, w: int, c: nat)
    requires Shaped(s, st, full, ranges) && c < |s.here| && Winner(st, full, w)
  {
    s.here[c] && st.queues[c] != [] ==>
      var f := st.queues[c][0];
      || w == c
      || (w >= 0 && Ahead(s, st, w, st.queues[w][0].pri, c, f.pri))
      || (f.vc >= 0 && full[f.vc])
      || (f.vc == -1 && NoneUsable(st.vcs, full, st.lastVc[c], ranges[c]))
  }

  lemma {:induction false} SelectFrom(vcs: seq<Vc>, full: seq<bool>, last: int, r: Range, i: nat, v: nat)
    requires r.0 <= last <= r.1 < |vcs| == |full| && r.0 <= v <= r.1 && Select(vcs, full, last, r, i) == -1
    requires 1 <= i <= Turn(last - r.0, v - r.0, r.1 - r.0 + 1)
    ensures !Usable(vcs, full, v)
    decreases r.1 - r.0 + 2 - i
  {
    var n := r.1 - r.0 + 1;
    TurnComes(last - r.0, Turn(last - r.0, v - r.0, n), n);
    if i < Turn(last - r.0, v - r.0, n) {
      SelectFrom(vcs, full, last, r, i + 1, v);
    }
  }

  /** A search that finds nothing has tried the whole range, or only its first virtual channel when the last one used
      lies outside. */
  lemma SelectFindsAll(vcs: seq<Vc>, full: seq<bool>, last: int, r: Range)
    requires r.0 <= r.1 < |vcs| == |full| && Select(vcs, full, last, r, 1) == -1
    ensures NoneUsable(vcs, full, last, r)
  {
    if r.0 <= last <= r.1 {
      forall v | r.0 <= v <= r.1
        ensures !Usable(vcs, full, v)
      {
        SelectFrom(vcs, full, last, r, 1, v);
      }
    }
  }

  /** v is the first usable virtual channel of the range after `last`, or the first of the range when `last` lies
      outside. */
  ghost predicate NextUsable(vcs: seq<Vc>, full: seq<bool>, last: int, r: Range, v: int)
    requires r.0 <= r.1 < |vcs| == |full|
  {
    && r.0 <= v <= r.1 && Usable(vcs, full, v)
    && if r.0 <= last <= r.1 then
         forall u :: r.0 <= u <= r.1 && Usable(vcs, full, u) ==> (v - last - 1) % (r.1 - r.0 + 1) <= (u - last - 1) % (r.1 - r.0 + 1)
       else v == r.0
  }

  lemma StepsAfter(n: nat, last: int, u: int)
    requires 0 <= last < n && 0 <= u < n
    ensures (u - last - 1) % n == Turn(last, u, n) - 1
  {
    SameWrap(u - last - 1, n);
    WrapMod(u - last - 1 + n, n);
  }

  lemma {:induction false} SelectBefore(vcs: seq<Vc>, full: seq<bool>, last: int, r: Range, i: nat, u: nat)
    requires r.0 <= last <= r.1 < |vcs| == |full| && r.0 <= u <= r.1 && Usable(vcs, full, u)
    requires 1 <= i <= Turn(last - r.0, u - r.0, r.1 - r.0 + 1)
    ensures var v := Select(vcs, full, last, r, i); v >= 0 && Turn(last - r.0, v - r.0, r.1 - r.0 + 1) <= Turn(last - r.0, u - r.0, r.1 - r.0 + 1)
    decreases r.1 - r.0 + 2 - i
  {
    var n := r.1 - r.0 + 1;
    TurnComes(last - r.0, i, n);
    if !Usable(vcs, full, Tried(last, r, i)) {
      TurnComes(last - r.0, Turn(last - r.0, u - r.0, n), n);
      SelectBefore(vcs, full, last, r, i + 1, u);
    }
  }

  lemma {:induction false} SelectOutside(vcs: seq<Vc>, full: seq<bool>, last: int, r: Range, i: nat)
    requires r.0 <= r.1 < |vcs| == |full| && !(r.0 <= last <= r.1)
    ensures Select(vcs, full, last, r, i) == -1 || Select(vcs, full, last, r, i) == r.0
    decreases r.1 - r.0 + 2 - i
  {
    if i <= r.1 - r.0 + 1 {
      SelectOutside(vcs, full, last, r, i + 1);
    }
  }

  /** The virtual channels are taken in turn. */
  lemma SelectIsNext(vcs: seq<Vc>, full: seq<bool>, last: int, r: Range)
    requires r.0 <= r.1 < |vcs| == |full| && Select(vcs, full, last, r, 1) != -1
    ensures NextUsable(vcs, full, last, r, Select(vcs, full, last, r, 1))
  {
    var v := Select(vcs, full, last, r, 1);
    SelectOutside(vcs, full, if r.0 <= last <= r.1 then r.0 - 1 else last, r, 1);
    if r.0 <= last <= r.1 {
      StepsAfter(r.1 - r.0 + 1, last - r.0, v - r.0);
      forall u | r.0 <= u <= r.1 && Usable(vcs, full, u)
        ensures (v - last - 1) % (r.1 - r.0 + 1) <= (u - last - 1) % (r.1 - r.0 + 1)
      {
        StepsAfter(r.1 - r.0 + 1, last - r.0, u - r.0);
        SelectBefore(vcs, full, last, r, 1, u);
      }
    }
  }

  lemma ConsideredServes(s: Setting, st: State, h: History, full: seq<bool>, ranges: seq<Range>, w: int, c: nat)
    requires Shaped(s, st, full, ranges) && Structured(s, st, h) && Winner(st, full, w) && c < |s.here|
    requires w >= 0 ==> Turn(st.lastClass, w, |s.here|) < Turn(st.lastClass, c, |s.here|)
    ensures var (queues, w1) := Considered(s, st, full, ranges, w, c);
      && Served(s, st.(queues := queues), full, ranges, w1, c)
      && forall d :: 0 <= d < |s.here| && d != c && Served(s, st, full, ranges, w, d) ==> Served(s, st.(queues := queues), full, ranges, w1, d)
  {
    hide Structured, Turn;
    if s.here[c] && st.queues[c] != [] {
      FrontFacts(s, st, h, c);
      if Select(st.vcs, full, st.lastVc[c], ranges[c], 1) == -1 {
        SelectFindsAll(st.vcs, full, st.lastVc[c], ranges[c]);
      }
    }
  }

  ghost predicate AllServed(s: Setting, st: State, full: seq<bool>, ranges: seq<Range>, w: int)
    requires Shaped(s, st, full, ranges) && Winner(st, full, w)
  {
    forall c :: 0 <= c < |s.here| ==> Served(s, st, full, ranges, w, c)
  }

  /** After the scan nothing that could be sent outranks the winner, nor has its priority and comes before it. */
  lemma {:induction false} ScanServes(s: Setting, st: State, h: History, full: seq<bool>, ranges: seq<Range>, w: int, i: nat)
    requires Shaped(s, st, full, ranges) && RoutesOk(s, ranges) && Structured(s, st, h) && Winner(st, full, w)
    requires 1 <= i <= |s.here| + 1 && (w >= 0 ==> s.here[w] && Turn(st.lastClass, w, |s.here|) < i)
    requires forall c :: 0 <= c < |s.here| && Turn(st.lastClass, c, |s.here|) < i ==> Served(s, st, full, ranges, w, c)
    ensures AllServed(s, st.(queues := Scan(s, st, full, ranges, w, i).0), full, ranges, Scan(s, st, full, ranges, w, i).1)
    decreases |s.here| + 1 - i
  {
    hide Structured, RoutesOk, Considered, Shaped, Served;
    SizeFacts(s, st, full, ranges);
    if i <= |s.here| {
      TurnComes(st.lastClass, i, |s.here|);
      var c := (st.lastClass + i) % |s.here|;
      ConsideredKeeps(s, st, h, full, ranges, w, c);
      ConsideredServes(s, st, h, full, ranges, w, c);
      ConsideredTouches(s, st, full, ranges, w, c);
      var (queues, w1) := Considered(s, st, full, ranges, w, c);
      var st1 := st.(queues := queues);
      ScanServes(s, st1, h, full, ranges, w1, i + 1);
      var (queues2, w2) := Scan(s, st1, full, ranges, w1, i + 1);
      assert Scan(s, st, full, ranges, w, i) == (queues2, w2);
      assert st1.(queues := queues2) == st.(queues := queues2);
    } else {
      assert Scan(s, st, full, ranges, w, i) == (st.queues, w) && st.(queues := st.queues) == st;
    }
  }

  // ---- sending ----

  ghost function Noted(h: History, c: nat, f: Flit): History
    requires c < |h.open| && f.vc < |h.sent| == |h.openOn| == |h.owner|
  {
    History(h.open[c := Open(f)], h.sent[f.vc := h.sent[f.vc] + [f]], h.openOn[f.vc := Open(f)], h.owner[f.vc := c])
  }

  lemma QueueAfterSend(s: Setting, vcs: seq<Vc>, h: History, c: nat, q: seq<Queued>)
    requires s.Ok() && s.Class(c) && c < |h.open| && |h.sent| == |h.openOn| == |h.owner| == |vcs| && QueueOk(s, vcs, h, c, q)
    requires q != [] && q[0].vc >= 0
    ensures QueueOk(s, vcs, Noted(h, c, OnVc(q[0], q[0].vc)), c, NextQueue(q, q[0].vc))
  {
    FrontFlit(s, vcs, h, c, q);
    var next := NextQueue(q, q[0].vc);
    assert Bare(next) == Bare(q)[1..];
    assert Open(OnVc(q[0], q[0].vc)) == Open(Bare(q)[0]);
    assert next != [] ==> next[0] == if q[0].tail then q[1] else q[1].(vc := q[0].vc);
  }

  /** The winner finds its virtual channel in order: a head finds it free. */
  ghost predicate Clear(st: State, c: nat)
    requires c < |st.queues|
  {
    && st.queues[c] != [] && 0 <= st.queues[c][0].vc < |st.vcs|
    && (st.queues[c][0].head ==> st.vcs[st.queues[c][0].vc].inUseBy < 0)
  }

  /** The flit continues what was sent on its virtual channel before, and no other class is sending there. */
  lemma ContinuesOnVc(s: Setting, st: State, h: History, c: nat)
    requires Structured(s, st, h) && s.Class(c) && Clear(st, c)
    ensures var f := st.queues[c][0];
      && f.vc < |st.vcs| == |h.openOn|
      && Continues(h.openOn[f.vc], OnVc(f, f.vc))
      && (if f.head then st.vcs[f.vc].inUseBy < 0 else CanSend(st.vcs[f.vc]))
      && forall d :: s.Class(d) && d != c && st.queues[d] != [] && h.open[d] >= 0 ==> st.queues[d][0].vc != f.vc
  {
    var f := st.queues[c][0];
    assert QueueOk(s, st.vcs, h, c, st.queues[c]);
    FrontFlit(s, st.vcs, h, c, st.queues[c]);
    assert SentOk(s, st, h, f.vc);
    forall d | s.Class(d) && d != c && st.queues[d] != [] && h.open[d] >= 0
      ensures st.queues[d][0].vc != f.vc
    {
      FrontFacts(s, st, h, d);
    }
  }

  lemma NextFront(q: seq<Queued>, v: nat, vcs: nat)
    requires q != [] && v < vcs && (|q| > 1 ==> q[1].vc == -1)
    ensures NextQueue(q, v) != [] && q[0].tail ==> NextQueue(q, v)[0].vc == -1
    ensures |q| > 1 && !q[0].tail ==> NextQueue(q, v) != [] && NextQueue(q, v)[0] == q[1].(vc := v)
    ensures FrontInRange(NextQueue(q, v), vcs)
  {
  }

  /** Sending the front flit of the winner: whole packets stay whole. */
  lemma LeaveKeeps(s: Setting, wait: bool, st: State, h: History, c: nat)
    requires Structured(s, st, h) && s.Class(c) && Clear(st, c)
    ensures Sized(s, st, h)
    ensures var r := Leave(wait, st, c);
      && r.Left? && r.from == c && r.f == OnVc(st.queues[c][0], st.queues[c][0].vc)
      && Structured(s, r.st, Noted(h, c, r.f))
  {
    hide WholePackets, NextQueue;
    ContinuesOnVc(s, st, h, c);
    var r := Leave(wait, st, c);
    var q, f := st.queues[c], r.f;
    var h1 := Noted(h, c, f);
    QueueAfterSend(s, st.vcs, h, c, q);
    FrontFacts(s, st, h, c);
    NextFront(q, f.vc, |st.vcs|);
    assert SentOk(s, st, h, f.vc);
    WholePacketsAppend(-1, h.sent[f.vc], h.openOn[f.vc], f);
    forall d | s.Class(d)
      ensures QueueOk(s, r.st.vcs, h1, d, r.st.queues[d])
    {
      assert QueueOk(s, st.vcs, h, d, st.queues[d]);
    }
    forall v | 0 <= v < |st.vcs|
      ensures SentOk(s, r.st, h1, v)
    {
      assert SentOk(s, st, h, v);
      if v != f.vc && h.openOn[v] >= 0 {
        assert h.owner[v] != c;
      }
    }
  }

  lemma NextQueueIs(q: seq<Queued>, v: nat)
    requires q != []
    ensures NextQueue(q, v) == if |q| > 1 && !q[0].tail then [q[1].(vc := v)] + q[2..] else q[1..]
  {
  }

  lemma LeaveIs(wait: bool, st: State, w: nat)
    requires w < |st.queues| == |st.lastVc| && Clear(st, w)
    ensures var r := Leave(wait, st, w); var v := st.queues[w][0].vc;
      r.Left? && r.from == w && r.st.vcs == st.vcs[v := SentBy(wait, st.vcs[v], OnVc(st.queues[w][0], v))]
  {
  }

  /** One cycle of the injector. */
  ghost function Cycle(s: Setting, wait: bool, st: State, full: seq<bool>, ranges: seq<Range>): Outcome
    requires Shaped(s, st, full, ranges)
  {
    var (queues, w) := Scan(s, st, full, ranges, -1, 1);
    if w < 0 then Idle(st.(queues := queues))
    else Leave(wait, st.(queues := queues), w)
  }

  lemma LeaveMoves(wait: bool, st: State, w: nat)
    requires w < |st.queues| == |st.lastVc| && st.queues[w] != [] && 0 <= st.queues[w][0].vc < |st.vcs|
    ensures var r := Leave(wait, st, w);
      !r.Idle? && (r.Left? ==>
        && r.from == w && r.f == OnVc(st.queues[w][0], r.f.vc) && |r.st.queues| == |st.queues|
        && r.st.queues == st.queues[w := r.st.queues[w]] && Bare(r.st.queues[w]) == Bare(st.queues[w])[1..]
        && r.st.lastClass == w && r.st.lastVc == (if r.f.head then st.lastVc[w := r.f.vc] else st.lastVc)
        && r.st.curPid == st.curPid && r.st.curId == st.curId)
  {
    var q := st.queues[w];
    assert Bare(NextQueue(q, q[0].vc)) == Bare(q)[1..];
  }

  /** A cycle takes the front flit off the queue of one class of the subnet, which is then the last class served; after a
      head its virtual channel is the last one the class used.  Otherwise the queues keep their flits. */
  lemma CycleMoves(s: Setting, wait: bool, st: State, full: seq<bool>, ranges: seq<Range>)
    requires Shaped(s, st, full, ranges)
    ensures var r := Cycle(s, wait, st, full, ranges);
      && (r.Idle? ==>
            && r.st == st.(queues := r.st.queues) && |r.st.queues| == |s.here|
            && forall c :: 0 <= c < |s.here| ==> Bare(r.st.queues[c]) == Bare(st.queues[c]))
      && (r.Left? ==>
            && s.Class(r.from) && |r.st.queues| == |s.here|
            && st.queues[r.from] != [] && r.f == OnVc(st.queues[r.from][0], r.f.vc) && Bare(r.st.queues[r.from]) == Bare(st.queues[r.from])[1..]
            && (forall c :: 0 <= c < |s.here| && c != r.from ==> Bare(r.st.queues[c]) == Bare(st.queues[c]))
            && r.st.lastClass == r.from && r.st.lastVc == (if r.f.head then st.lastVc[r.from := r.f.vc] else st.lastVc)
            && r.st.curPid == st.curPid && r.st.curId == st.curId)
  {
    hide Scan, Leave;
    ScanTouches(s, st, full, ranges, -1, 1, st.queues);
    var (queues, w) := Scan(s, st, full, ranges, -1, 1);
    var st1 := st.(queues := queues);
    forall c | 0 <= c < |st.queues|
      ensures Bare(queues[c]) == Bare(st.queues[c]) && |queues[c]| == |st.queues[c]|
      ensures queues[c] != [] ==> queues[c][0] == st.queues[c][0].(vc := queues[c][0].vc)
    {
      assert Touched(s, st1, full, ranges, w, c, st.queues[c]);
    }
    if w >= 0 {
      LeaveMoves(wait, st1, w);
    }
  }

  // ---- turns of the classes ----

  /** The front flit of class c cannot be sent: its virtual channel is full, or it found none. */
  ghost predicate Stuck(st: State, full: seq<bool>, ranges: seq<Range>, c: nat)
    requires |full| == |st.vcs| && c < |st.queues| == |ranges| == |st.lastVc| && ranges[c].0 <= ranges[c].1 < |st.vcs|
    requires FrontInRange(st.queues[c], |st.vcs|)
  {
    st.queues[c] != [] && var f := st.queues[c][0];
    if f.vc >= 0 then full[f.vc] else NoneUsable(st.vcs, full, st.lastVc[c], ranges[c])
  }

  /** A cycle passes over a class whose flit could be sent only for a flit of higher priority, or of the same priority; in
      that case the class moves up in turn. */
  lemma PassedOver(s: Setting, wait: bool, st: State, h: History, full: seq<bool>, ranges: seq<Range>, c: nat)
    requires Shaped(s, st, full, ranges) && RoutesOk(s, ranges) && Structured(s, st, h) && s.Class(c) && st.queues[c] != []
    ensures var (queues, w) := Scan(s, st, full, ranges, -1, 1);
      var st1 := st.(queues := queues);
      && st1.queues[c] != [] && st1.queues[c][0].pri == st.queues[c][0].pri
      && (w != c && !Stuck(st1, full, ranges, c) ==>
            && w >= 0 && queues[w][0].pri >= queues[c][0].pri
            && (queues[w][0].pri == queues[c][0].pri ==> Turn(w, c, |s.here|) < Turn(st.lastClass, c, |s.here|)))
  {
    hide Structured, RoutesOk, Scan;
    assert forall d :: 0 <= d < |s.here| ==> 1 <= Turn(st.lastClass, d, |s.here|);
    ScanServes(s, st, h, full, ranges, -1, 1);
    ScanTouches(s, st, full, ranges, -1, 1, st.queues);
    var (queues, w) := Scan(s, st, full, ranges, -1, 1);
    var st1 := st.(queues := queues);
    assert Touched(s, st1, full, ranges, w, c, st.queues[c]) && Served(s, st1, full, ranges, w, c);
  }

  /** So a class that is never outranked while its flit could be sent is served after fewer cycles than there are
      classes.  served[t] is the class served before cycle t. */
  lemma {:induction false} ServedInTurn(served: seq<nat>, c: nat, n: nat)
    requires c < n && served != [] && forall t :: 0 <= t < |served| ==> served[t] < n
    requires forall t, u :: 0 <= t < u < |served| && u == t + 1 ==> Turn(served[u], c, n) < Turn(served[t], c, n)
    ensures |served| <= n
    ensures |served| <= Turn(served[0], c, n)
    decreases |served|
  {
    if |served| > 1 {
      var rest := served[1..];
      forall t, u | 0 <= t < u < |rest| && u == t + 1
        ensures Turn(rest[u], c, n) < Turn(rest[t], c, n)
      {
        assert rest[t] == served[t + 1] && rest[u] == served[u + 1];
      }
      ServedInTurn(rest, c, n);
      assert Turn(served[1], c, n) < Turn(served[0], c, n);
    }
  }

  // ---- packets and credits ----

  lemma QueueAppends(s: Setting, vcs: seq<Vc>, h: History, c: nat, q: seq<Queued>, p: seq<Queued>)
    requires s.Ok() && s.Class(c) && c < |h.open| && |h.openOn| == |h.owner| == |vcs| && QueueOk(s, vcs, h, c, q)
    requires WholePackets(-1, Bare(p), -1) && (p != [] ==> p[0].head)
    requires forall k :: 0 <= k < |p| ==> p[k].vc == -1 && s.low[c] <= p[k].pri <= s.high[c] && p[k].pri == p[0].pri
    ensures QueueOk(s, vcs, h, c, q + p)
  {
    assert Bare(q + p) == Bare(q) + Bare(p);
    WholePacketsConcat(h.open[c], Bare(q), -1, Bare(p), -1);
    assert q == [] ==> h.open[c] == -1;
    hide WholePackets, Bare;
    if q == [] {
      assert q + p == p;
    }
  }

  lemma GenerateSent(s: Setting, st: State, h: History, c: nat, size: nat, pri: int, v: nat)
    requires Sized(s, st, h) && c < |st.queues| && v < |st.vcs| && SentOk(s, st, h, v)
    ensures SentOk(s, Generated(st, c, size, pri), h, v)
  {
    hide WholePackets;
  }

  lemma GenerateQueue(s: Setting, st: State, h: History, c: nat, size: nat, pri: int)
    requires Structured(s, st, h) && s.Class(c) && s.low[c] <= pri <= s.high[c]
    ensures var q := st.queues[c] + Packet(st.curId, st.curPid, size, pri);
      QueueOk(s, st.vcs, h, c, q) && FrontInRange(q, |st.vcs|)
  {
    hide WholePackets;
    assert QueueOk(s, st.vcs, h, c, st.queues[c]);
    PacketIsWhole(st.curId, st.curPid, size, pri);
    QueueAppends(s, st.vcs, h, c, st.queues[c], Packet(st.curId, st.curPid, size, pri));
  }

  lemma GenerateStep(s: Setting, st: State, h: History, c: nat, size: nat, pri: int)
    requires Structured(s, st, h) && s.Class(c) && s.low[c] <= pri <= s.high[c]
    ensures Structured(s, Generated(st, c, size, pri), h)
  {
    hide QueueOk, SentOk, FrontInRange, Packet;
    var st1 := Generated(st, c, size, pri);
    GenerateQueue(s, st, h, c, size, pri);
    forall v | 0 <= v < |st.vcs|
      ensures SentOk(s, st1, h, v)
    {
      GenerateSent(s, st, h, c, size, pri, v);
    }
    forall d | s.Class(d)
      ensures QueueOk(s, st1.vcs, h, d, st1.queues[d])
    {
      assert QueueOk(s, st.vcs, h, d, st.queues[d]);
    }
  }

  /** Credits never take a virtual channel from a packet nor give one to it. */
  ghost predicate CreditOnly(vcs: seq<Vc>, vcs1: seq<Vc>) {
    && |vcs1| == |vcs|
    && forall v :: 0 <= v < |vcs| ==> (CanSend(vcs[v]) <==> CanSend(vcs1[v])) && (vcs[v].inUseBy < 0 ==> vcs1[v].inUseBy < 0)
  }

  lemma CreditsKeepStructure(s: Setting, st: State, vcs1: seq<Vc>, h: History)
    requires Structured(s, st, h) && CreditOnly(st.vcs, vcs1)
    ensures Structured(s, st.(vcs := vcs1), h)
  {
    hide WholePackets;
    forall c | s.Class(c)
      ensures QueueOk(s, vcs1, h, c, st.queues[c])
    {
      assert QueueOk(s, st.vcs, h, c, st.queues[c]);
    }
    forall v | 0 <= v < |vcs1|
      ensures SentOk(s, st.(vcs := vcs1), h, v)
    {
      assert SentOk(s, st, h, v);
    }
  }
}
