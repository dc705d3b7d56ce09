/** The numbers of packets and flits.

`made` lists all flits ever generated at the node, in the order they were made.  At any time each of them is waiting
in a queue or was sent on a virtual channel, once; their numbers are their positions in the list, and they carry the
same packet number exactly when they belong to the same packet.
*/
module Numbering {
  import opened Flits
  import opened Injection

  // ---- the list of flits ----

  /** b comes right after a: it starts the next packet after a tail, or continues the packet. */
  ghost predicate Follows(a: Flit, b: Flit) {
    (a.tail <==> b.head) && if b.head then a.pid < b.pid else b.pid == a.pid
  }

  /** Flit i has number i.  A head has a higher packet number than the flits before it, any other flit the packet number
      of the flit before it, and a tail stands before every head and at the end. */
  ghost predicate Made(made: seq<Flit>, curPid: nat, curId: nat) {
    && |made| == curId
    && (forall i :: 0 <= i < |made| ==> made[i].id == i && made[i].pid < curPid && made[i].vc == 0)
    && (made != [] ==> made[0].head && made[|made| - 1].tail)
    && (forall i, j {:trigger Follows(made[i], made[j])} :: 0 <= i < j < |made| && j == i + 1 ==> Follows(made[i], made[j]))
  }

  /** Two flits have the same packet number exactly when no packet starts after the first one, up to the second. */
  lemma {:induction false} SamePacket(made: seq<Flit>, curPid: nat, curId: nat, i: nat, j: nat)
    requires Made(made, curPid, curId) && i <= j < |made|
    ensures made[i].pid <= made[j].pid
    ensures made[i].pid == made[j].pid <==> forall k :: i < k <= j ==> !made[k].head
    decreases j - i
  {
    if i < j {
      SamePacket(made, curPid, curId, i, j - 1);
      assert Follows(made[j - 1], made[j]);
    }
  }

  /** The flits of one packet, numbered from id on. */
  ghost predicate IsPacket(p: seq<Queued>, id: nat, pid: nat, size: nat, pri: int) {
    |p| == size && forall i :: 0 <= i < size ==> p[i] == Queued(id + i, pid, i == 0, i == size - 1, pri, -1)
  }

  lemma Rest(q: seq<Queued>, p: seq<Queued>)
    ensures (q + p)[|q|..] == p
  {
  }

  lemma PacketFlits(id: nat, pid: nat, size: nat, pri: int)
    ensures IsPacket(Packet(id, pid, size, pri), id, pid, size, pri) && |Bare(Packet(id, pid, size, pri))| == size
  {
  }

  /** The next packet's flits. */
  lemma MadeNext(made: seq<Flit>, curPid: nat, curId: nat, size: nat, pri: int)
    requires Made(made, curPid, curId)
    ensures Made(made + Bare(Packet(curId, curPid, size, pri)), curPid + 1, curId + size)
  {
    var n, p := |made|, Bare(Packet(curId, curPid, size, pri));
    var made1 := made + p;
    assert forall k :: 0 <= k < size ==> p[k] == Flit(curId + k, curPid, 0, k == 0, k == size - 1);
    hide Bare, Packet;
    forall i, j | 0 <= i < j < |made1| && j == i + 1
      ensures Follows(made1[i], made1[j])
    {
      if j < n {
        assert Follows(made[i], made[j]);
      }
    }
  }

  // ---- where the flits are ----

  ghost function Pool(ss: seq<seq<Flit>>): multiset<Flit> {
    if ss == [] then multiset{} else multiset(ss[0]) + Pool(ss[1..])
  }

  lemma {:induction false} PoolUpdate(ss: seq<seq<Flit>>, c: nat, s: seq<Flit>)
    requires c < |ss|
    ensures multiset(ss[c]) <= Pool(ss) && Pool(ss[c := s]) == Pool(ss) - multiset(ss[c]) + multiset(s)
    decreases |ss|
  {
    var ss1 := ss[c := s];
    if c == 0 {
      assert ss1[1..] == ss[1..];
    } else {
      PoolUpdate(ss[1..], c - 1, s);
      assert ss1[1..] == ss[1..][c - 1 := s];
    }
  }

  lemma {:induction false} PoolNone(ss: seq<seq<Flit>>)
    requires forall c :: 0 <= c < |ss| ==> ss[c] == []
    ensures Pool(ss) == multiset{}
    decreases |ss|
  {
    if ss != [] {
      PoolNone(ss[1..]);
    }
  }

  lemma InPool(ss: seq<seq<Flit>>, c: nat, k: nat)
    requires c < |ss| && k < |ss[c]|
    ensures ss[c][k] in Pool(ss)
  {
    PoolUpdate(ss, c, []);
    assert ss[c][k] in multiset(ss[c]);
  }

  lemma TwiceInSeq(s: seq<Flit>, k: nat, l: nat)
    requires k < l < |s| && s[k] == s[l]
    ensures multiset(s)[s[k]] >= 2
  {
    assert s == s[..l] + s[l..];
    assert s[k] == s[..l][k] && s[l] == s[l..][0];
    assert s[k] in multiset(s[..l]) && s[l] in multiset(s[l..]);
  }

  /** A flit in two places counts twice. */
  lemma TwiceInPool(ss: seq<seq<Flit>>, c: nat, k: nat, d: nat, l: nat)
    requires c < |ss| && d < |ss| && k < |ss[c]| && l < |ss[d]| && ss[c][k] == ss[d][l] && (c != d || k != l)
    ensures Pool(ss)[ss[c][k]] >= 2
  {
    PoolUpdate(ss, c, []);
    if c == d {
      TwiceInSeq(ss[c], if k < l then k else l, if k < l then l else k);
    } else {
      InPool(ss[c := []], d, l);
      assert ss[c][k] in multiset(ss[c]);
    }
  }

  ghost function Waiting(queues: seq<seq<Queued>>): seq<seq<Flit>> {
    seq(|queues|, c requires 0 <= c < |queues| => Bare(queues[c]))
  }

  ghost function Plain(s: seq<Flit>): seq<Flit> {
    seq(|s|, k requires 0 <= k < |s| => s[k].(vc := 0))
  }

  ghost function AllPlain(sent: seq<seq<Flit>>): seq<seq<Flit>> {
    seq(|sent|, v requires 0 <= v < |sent| => Plain(sent[v]))
  }

  /** Each flit made is waiting or was sent, once, and there are no others. */
  ghost predicate Accounted(st: State, sent: seq<seq<Flit>>, made: seq<Flit>) {
    && Made(made, st.curPid, st.curId)
    && Pool(Waiting(st.queues)) + Pool(AllPlain(sent)) == multiset(made)
  }

  // ---- every step keeps it ----

  lemma NothingMade(st: State, sent: seq<seq<Flit>>)
    requires st.curId == 0 && (forall c :: 0 <= c < |st.queues| ==> st.queues[c] == []) && forall v :: 0 <= v < |sent| ==> sent[v] == []
    ensures Accounted(st, sent, [])
  {
    PoolNone(Waiting(st.queues));
    PoolNone(AllPlain(sent));
  }

  lemma QueueGrows(queues: seq<seq<Queued>>, c: nat, p: seq<Queued>)
    requires c < |queues|
    ensures Pool(Waiting(queues[c := queues[c] + p])) == Pool(Waiting(queues)) + multiset(Bare(p))
  {
    hide Pool;
    var q := queues[c] + p;
    assert Waiting(queues[c := q]) == Waiting(queues)[c := Bare(q)];
    assert Bare(q) == Bare(queues[c]) + Bare(p);
    PoolUpdate(Waiting(queues), c, Bare(q));
  }

  lemma QueueShrinks(queues: seq<seq<Queued>>, c: nat, x: Flit, q: seq<Queued>)
    requires c < |queues| && Bare(queues[c]) == [x] + Bare(q)
    ensures x in Pool(Waiting(queues)) && Pool(Waiting(queues[c := q])) == Pool(Waiting(queues)) - multiset{x}
  {
    hide Pool;
    assert Waiting(queues[c := q]) == Waiting(queues)[c := Bare(q)];
    hide Bare;
    PoolUpdate(Waiting(queues), c, Bare(q));
  }

  lemma MoreOfEach(a: multiset<Flit>, b: multiset<Flit>, s: seq<Flit>, t: seq<Flit>)
    requires a + b == multiset(s)
    ensures (a + multiset(t)) + b == multiset(s + t)
  {
  }

  /** Generating a packet adds its flits to the list and to the queue. */
  lemma GenerateAccounts(st: State, sent: seq<seq<Flit>>, made: seq<Flit>, c: nat, size: nat, pri: int)
    requires Accounted(st, sent, made) && c < |st.queues|
    ensures Accounted(Generated(st, c, size, pri), sent, made + Bare(Packet(st.curId, st.curPid, size, pri)))
  {
    MadeNext(made, st.curPid, st.curId, size, pri);
    var p := Packet(st.curId, st.curPid, size, pri);
    hide Made, Packet, Pool, Bare, Waiting, AllPlain;
    QueueGrows(st.queues, c, p);
    MoreOfEach(Pool(Waiting(st.queues)), Pool(AllPlain(sent)), made, Bare(p));
  }

  lemma SentGrows(sent: seq<seq<Flit>>, v: nat, f: Flit)
    requires v < |sent|
    ensures Pool(AllPlain(sent[v := sent[v] + [f]])) == Pool(AllPlain(sent)) + multiset{f.(vc := 0)}
  {
    hide Pool;
    assert AllPlain(sent[v := sent[v] + [f]]) == AllPlain(sent)[v := Plain(sent[v] + [f])];
    assert Plain(sent[v] + [f]) == Plain(sent[v]) + [f.(vc := 0)];
    PoolUpdate(AllPlain(sent), v, Plain(sent[v] + [f]));
  }

  lemma LeaveAccounts(wait: bool, st: State, sent: seq<seq<Flit>>, made: seq<Flit>, w: nat)
    requires w < |st.queues| == |st.lastVc| && st.queues[w] != [] && 0 <= st.queues[w][0].vc < |st.vcs| == |sent|
    requires Accounted(st, sent, made)
    ensures var r := Leave(wait, st, w);
      r.Left? ==> r.f.vc < |sent| && Accounted(r.st, sent[r.f.vc := sent[r.f.vc] + [r.f]], made)
  {
    hide Made, Pool;
    var q := st.queues[w];
    var v := q[0].vc;
    var f := OnVc(q[0], v);
    var q1 := NextQueue(q, v);
    assert Bare(q) == [f.(vc := 0)] + Bare(q1);
    hide Bare, NextQueue, Waiting, AllPlain;
    QueueShrinks(st.queues, w, f.(vc := 0), q1);
    SentGrows(sent, v, f);
  }

  /** A cycle only gives out virtual channels and moves at most one flit from a queue to what was sent. */
  lemma CycleAccounts(s: Setting, wait: bool, st: State, sent: seq<seq<Flit>>, made: seq<Flit>, full: seq<bool>, ranges: seq<Range>)
    requires Shaped(s, st, full, ranges) && |sent| == |st.vcs| && Accounted(st, sent, made)
    ensures var r := Cycle(s, wait, st, full, ranges);
      && (r.Idle? ==> Accounted(r.st, sent, made))
      && (r.Left? ==> r.f.vc < |sent| && Accounted(r.st, sent[r.f.vc := sent[r.f.vc] + [r.f]], made))
  {
    hide Made, Scan, Pool;
    ScanTouches(s, st, full, ranges, -1, 1, st.queues);
    var (queues, w) := Scan(s, st, full, ranges, -1, 1);
    var st1 := st.(queues := queues);
    forall c | 0 <= c < |st.queues|
      ensures Bare(queues[c]) == Bare(st.queues[c])
    {
      assert Touched(s, st1, full, ranges, w, c, st.queues[c]);
    }
    assert Waiting(queues) == Waiting(st.queues);
    if w >= 0 {
      LeaveAccounts(wait, st1, sent, made, w);
    }
  }

  // ---- what it means ----

  lemma OnceInSeq(made: seq<Flit>, x: Flit)
    requires (forall i :: 0 <= i < |made| ==> made[i].id == i) && x in made
    ensures x.id < |made| && made[x.id] == x && multiset(made)[x] == 1
  {
    var i := x.id;
    assert made == made[..i] + [x] + made[i + 1..];
    assert x !in multiset(made[..i]) && x !in multiset(made[i + 1..]);
  }

  lemma OnceInMade(made: seq<Flit>, curPid: nat, curId: nat, x: Flit)
    requires Made(made, curPid, curId) && x in multiset(made)
    ensures x.id < curId && x.pid < curPid && made[x.id] == x && multiset(made)[x] == 1
  {
    OnceInSeq(made, x);
  }

  /** A waiting or sent flit: its numbers were given out, and it is the flit of that number. */
  lemma NumbersGivenOut(st: State, sent: seq<seq<Flit>>, made: seq<Flit>)
    requires Accounted(st, sent, made)
    ensures forall c, k :: 0 <= c < |st.queues| && 0 <= k < |st.queues[c]| ==>
      st.queues[c][k].id < st.curId && st.queues[c][k].pid < st.curPid && made[st.queues[c][k].id] == Bare(st.queues[c])[k]
    ensures forall v, k :: 0 <= v < |sent| && 0 <= k < |sent[v]| ==>
      sent[v][k].id < st.curId && sent[v][k].pid < st.curPid && made[sent[v][k].id] == sent[v][k].(vc := 0)
  {
    assert |made| == st.curId;
    hide Made, Pool;
    forall c, k | 0 <= c < |st.queues| && 0 <= k < |st.queues[c]|
      ensures st.queues[c][k].id < st.curId && st.queues[c][k].pid < st.curPid && made[st.queues[c][k].id] == Bare(st.queues[c])[k]
    {
      InPool(Waiting(st.queues), c, k);
      OnceInMade(made, st.curPid, st.curId, Bare(st.queues[c])[k]);
    }
    forall v, k | 0 <= v < |sent| && 0 <= k < |sent[v]|
      ensures sent[v][k].id < st.curId && sent[v][k].pid < st.curPid && made[sent[v][k].id] == sent[v][k].(vc := 0)
    {
      InPool(AllPlain(sent), v, k);
      OnceInMade(made, st.curPid, st.curId, Plain(sent[v])[k]);
    }
  }

  /** No two waiting flits share a number. */
  lemma WaitingDiffer(st: State, sent: seq<seq<Flit>>, made: seq<Flit>, c: nat, k: nat, d: nat, l: nat)
    requires Accounted(st, sent, made)
    requires c < |st.queues| && k < |st.queues[c]| && d < |st.queues| && l < |st.queues[d]| && (c != d || k != l)
    ensures st.queues[c][k].id != st.queues[d][l].id
  {
    hide Made, Pool;
    NumbersGivenOut(st, sent, made);
    var x := Bare(st.queues[c])[k];
    InPool(Waiting(st.queues), c, k);
    OnceInMade(made, st.curPid, st.curId, x);
    if x == Bare(st.queues[d])[l] {
      TwiceInPool(Waiting(st.queues), c, k, d, l);
    }
  }

  /** No two sent flits share a number. */
  lemma SentDiffer(st: State, sent: seq<seq<Flit>>, made: seq<Flit>, v: nat, k: nat, u: nat, l: nat)
    requires Accounted(st, sent, made)
    requires v < |sent| && k < |sent[v]| && u < |sent| && l < |sent[u]| && (v != u || k != l)
    ensures sent[v][k].id != sent[u][l].id
  {
    hide Made, Pool;
    NumbersGivenOut(st, sent, made);
    var x := Plain(sent[v])[k];
    InPool(AllPlain(sent), v, k);
    OnceInMade(made, st.curPid, st.curId, x);
    if x == Plain(sent[u])[l] {
      TwiceInPool(AllPlain(sent), v, k, u, l);
    }
  }

  /** A sent flit is not waiting any more. */
  lemma SentIsGone(st: State, sent: seq<seq<Flit>>, made: seq<Flit>, c: nat, k: nat, v: nat, l: nat)
    requires Accounted(st, sent, made) && c < |st.queues| && k < |st.queues[c]| && v < |sent| && l < |sent[v]|
    ensures st.queues[c][k].id != sent[v][l].id
  {
    hide Made, Pool;
    NumbersGivenOut(st, sent, made);
    var x := Bare(st.queues[c])[k];
    InPool(Waiting(st.queues), c, k);
    OnceInMade(made, st.curPid, st.curId, x);
    if x == Plain(sent[v])[l] {
      InPool(AllPlain(sent), v, l);
    }
  }
}
