/** The dependency tracker of the trace reader, with self-throttling switched on.

Packets are read from the trace in order; each names the later packets that depend on it.  A
packet is released to the network when its reference count is zero, and when it leaves the
network its dependants lose one reference.  Packets are identified by their place in the trace.
*/
module Netrace {
  import opened DependencyTables
  import opened Options

  const READ_AHEAD: nat := 1000000

  datatype TracePacket = TracePacket(id: nat, cycle: nat, deps: seq<nat>)

  /** Identifiers are unique, and dependencies name later packets only. */
  ghost predicate TraceOk(t: seq<TracePacket>) {
    && (forall i, j :: 0 <= i < j < |t| ==> t[i].id != t[j].id)
    && (forall i, j :: 0 <= j <= i < |t| ==> t[j].id !in t[i].deps)
  }

  /** References to id from the packets below n that are not cleared. */
  ghost function Refs(t: seq<TracePacket>, n: nat, cleared: set<nat>, id: nat): nat
    requires n <= |t|
  {
    if n == 0 then 0
    else Refs(t, n - 1, cleared, id) + if n - 1 in cleared then 0 else multiset(t[n - 1].deps)[id]
  }

  ghost predicate NodeOk(t: seq<TracePacket>, pos: nat, cleared: set<nat>, id: nat, node: Node)
    requires pos <= |t|
  {
    && node.id == id
    && match node.packet
       case Some(i) => i < pos && t[i].id == id && i !in cleared
       case None => forall i :: 0 <= i < pos ==> t[i].id != id
  }

  /** The nodes and the release list, for `pos` packets read.  Packet `pending` has been read but not yet
      been considered for release. */
  ghost predicate Tracks(t: seq<TracePacket>, pos: nat, nodes: map<nat, Node>, cleared: set<nat>, released: seq<nat>, pending: int) {
    && TraceOk(t) && pos <= |t|
    && (forall i :: 0 <= i < pos && i !in cleared ==> t[i].id in nodes && nodes[t[i].id].packet == Some(i))
    && (forall id :: id in nodes ==> NodeOk(t, pos, cleared, id, nodes[id]))
    && (forall c :: c in cleared ==> c < pos && c in released && t[c].id !in nodes)
    && (forall c, i :: c in cleared && 0 <= i < pos && i !in cleared ==> t[c].id !in t[i].deps)
    && (forall i :: 0 <= i < pos && i !in cleared && i != pending ==> (i in released <==> nodes[t[i].id].refCount == 0))
    && (forall k :: 0 <= k < |released| ==> released[k] < pos && released[k] != pending)
    && (forall k, l :: 0 <= k < l < |released| ==> released[k] != released[l])
  }

  ghost predicate IsClearedId(t: seq<TracePacket>, cleared: set<nat>, id: nat) {
    exists c :: c in cleared && c < |t| && t[c].id == id
  }

  /** Every reference from a read packet leads to a node, unless that packet is cleared already. */
  ghost predicate Known(t: seq<TracePacket>, pos: nat, nodes: map<nat, Node>, cleared: set<nat>) {
    pos <= |t| && forall i, d :: 0 <= i < pos && d in t[i].deps ==> d in nodes || IsClearedId(t, cleared, d)
  }

  /** The counts are the references from uncleared packets, plus those in extra. */
  ghost predicate Counts(t: seq<TracePacket>, pos: nat, nodes: map<nat, Node>, cleared: set<nat>, extra: multiset<nat>) {
    pos <= |t| && forall id :: id in nodes ==> nodes[id].refCount == Refs(t, pos, cleared, id) + extra[id]
  }

  /** The invariant between calls. */
  ghost predicate Settled(t: seq<TracePacket>, pos: nat, nodes: map<nat, Node>, cleared: set<nat>, released: seq<nat>, pending: int) {
    && Tracks(t, pos, nodes, cleared, released, pending) && Known(t, pos, nodes, cleared)
    && Counts(t, pos, nodes, cleared, multiset{})
  }

  lemma {:induction false} RefsZero(t: seq<TracePacket>, n: nat, cleared: set<nat>, id: nat)
    requires n <= |t|
    ensures Refs(t, n, cleared, id) == 0 <==> forall i :: 0 <= i < n && i !in cleared ==> id !in t[i].deps
  {
    if n > 0 {
      RefsZero(t, n - 1, cleared, id);
      assert id in t[n - 1].deps <==> id in multiset(t[n - 1].deps);
    }
  }

  lemma {:induction false} RefsWithout(t: seq<TracePacket>, n: nat, cleared: set<nat>, c: nat, id: nat)
    requires n <= |t| && c < |t| && c !in cleared
    ensures Refs(t, n, cleared, id) == Refs(t, n, cleared + {c}, id) + if c < n then multiset(t[c].deps)[id] else 0
  {
    if n > 0 {
      RefsWithout(t, n - 1, cleared, c, id);
    }
  }

  /** A released packet's predecessors have all been cleared. */
  lemma PredecessorsCleared(t: seq<TracePacket>, pos: nat, nodes: map<nat, Node>, cleared: set<nat>,
        released: seq<nat>, r: nat, j: nat)
    requires Settled(t, pos, nodes, cleared, released, -1) && r in released && j < |t| && r < |t| && t[r].id in t[j].deps
    ensures j < r && j in cleared
  {
    if j !in cleared && r !in cleared {
      RefsZero(t, pos, cleared, t[r].id);
    }
  }

  /** A read packet with all predecessors cleared has been released. */
  lemma NothingHeldBack(t: seq<TracePacket>, pos: nat, nodes: map<nat, Node>, cleared: set<nat>, released: seq<nat>, r: nat)
    requires Settled(t, pos, nodes, cleared, released, -1) && r < pos
    requires forall j :: 0 <= j < |t| && t[r].id in t[j].deps ==> j in cleared
    ensures r in released
  {
    if r !in cleared {
      RefsZero(t, pos, cleared, t[r].id);
    }
  }

  /** Throttling never gets stuck: while a read packet is uncleared, some released packet is uncleared. */
  lemma {:induction false} NeverStuck(t: seq<TracePacket>, pos: nat, nodes: map<nat, Node>, cleared: set<nat>,
        released: seq<nat>, i: nat)
    returns (r: nat)
    requires Settled(t, pos, nodes, cleared, released, -1) && i < pos && i !in cleared
    ensures r in released && r !in cleared
    decreases i
  {
    if j: nat :| j < i && j !in cleared {
      r := NeverStuck(t, pos, nodes, cleared, released, j);
    } else {
      forall j | 0 <= j < |t| && t[i].id in t[j].deps
        ensures j in cleared
      {
        assert j < i;
      }
      NothingHeldBack(t, pos, nodes, cleared, released, i);
      r := i;
    }
  }

  // ---- reading a packet ----

  /** nodes with a node for id, whether or not there was one. */
  ghost function WithNode(nodes: map<nat, Node>, id: nat): map<nat, Node> {
    if id in nodes then nodes else nodes[id := Node(id, 0, None)]
  }

  /** nodes after packet p's own node has been found or made and filled in. */
  ghost function WithPacket(t: seq<TracePacket>, p: nat, nodes: map<nat, Node>): map<nat, Node>
    requires p < |t|
  {
    var m := WithNode(nodes, t[p].id);
    m[t[p].id := m[t[p].id].(packet := Some(p))]
  }

  lemma UnknownHasNoRefs(t: seq<TracePacket>, pos: nat, nodes: map<nat, Node>, cleared: set<nat>, id: nat)
    requires Known(t, pos, nodes, cleared) && id !in nodes && !IsClearedId(t, cleared, id)
    ensures Refs(t, pos, cleared, id) == 0
  {
    RefsZero(t, pos, cleared, id);
  }

  lemma ReadOwnTracks(t: seq<TracePacket>, p: nat, nodes: map<nat, Node>, cleared: set<nat>, released: seq<nat>)
    requires Tracks(t, p, nodes, cleared, released, -1) && p < |t|
    ensures Tracks(t, p + 1, WithPacket(t, p, nodes), cleared, released, p)
  {
    var m := WithPacket(t, p, nodes);
    forall x | x in m
      ensures NodeOk(t, p + 1, cleared, x, m[x])
    {
      assert x != t[p].id ==> NodeOk(t, p, cleared, x, nodes[x]);
    }
  }

  /** The packet's node is in place; its own references are not counted yet. */
  lemma ReadOwn(t: seq<TracePacket>, p: nat, nodes: map<nat, Node>, cleared: set<nat>, released: seq<nat>)
    requires Settled(t, p, nodes, cleared, released, -1) && p < |t|
    ensures var m := WithPacket(t, p, nodes);
      && Tracks(t, p + 1, m, cleared, released, p) && Known(t, p, m, cleared)
      && Counts(t, p, m, cleared, multiset{})
  {
    var id := t[p].id;
    if id !in nodes {
      assert !IsClearedId(t, cleared, id);
      UnknownHasNoRefs(t, p, nodes, cleared, id);
    }
    var m := WithPacket(t, p, nodes);
    assert forall i :: 0 <= i < p ==> t[i].id != id;
    assert p !in cleared && p !in released;
    ReadOwnTracks(t, p, nodes, cleared, released);
  }

  /** One more reference of packet p is counted. */
  ghost function Referenced(nodes: map<nat, Node>, d: nat): map<nat, Node> {
    var m := WithNode(nodes, d);
    m[d := m[d].(refCount := m[d].refCount + 1)]
  }

  /** The state while the references of packet p are counted. */
  ghost predicate Reading(t: seq<TracePacket>, p: nat, nodes: map<nat, Node>, cleared: set<nat>, released: seq<nat>, k: nat) {
    && p < |t| && k <= |t[p].deps|
    && Tracks(t, p + 1, nodes, cleared, released, p) && Known(t, p, nodes, cleared)
    && Counts(t, p, nodes, cleared, multiset(t[p].deps[..k]))
    && forall d :: d in t[p].deps[..k] ==> d in nodes
  }

  lemma LaterIsUnread(t: seq<TracePacket>, p: nat, k: nat, cleared: set<nat>)
    requires TraceOk(t) && p < |t| && k < |t[p].deps| && forall c :: c in cleared ==> c <= p
    ensures forall i :: 0 <= i <= p ==> t[i].id != t[p].deps[k]
    ensures !IsClearedId(t, cleared, t[p].deps[k])
  {
    assert t[p].deps[k] in t[p].deps;
  }

  lemma ReferencedTracks(t: seq<TracePacket>, p: nat, nodes: map<nat, Node>, cleared: set<nat>, released: seq<nat>, d: nat)
    requires p < |t| && Tracks(t, p + 1, nodes, cleared, released, p)
    requires (forall i :: 0 <= i <= p ==> t[i].id != d) && !IsClearedId(t, cleared, d)
    ensures Tracks(t, p + 1, Referenced(nodes, d), cleared, released, p)
  {
    var m := Referenced(nodes, d);
    forall x | x in m
      ensures NodeOk(t, p + 1, cleared, x, m[x])
    {
      assert x in nodes ==> NodeOk(t, p + 1, cleared, x, nodes[x]);
    }
  }

  lemma ReferencedCounts(t: seq<TracePacket>, p: nat, nodes: map<nat, Node>, cleared: set<nat>, extra: multiset<nat>, d: nat)
    requires Counts(t, p, nodes, cleared, extra) && (d !in nodes ==> Refs(t, p, cleared, d) == 0 && d !in extra)
    ensures Counts(t, p, Referenced(nodes, d), cleared, extra + multiset{d})
  {
  }

  lemma TracksFacts(t: seq<TracePacket>, pos: nat, nodes: map<nat, Node>, cleared: set<nat>, released: seq<nat>, pending: int)
    requires Tracks(t, pos, nodes, cleared, released, pending)
    ensures TraceOk(t) && pos <= |t| && forall c :: c in cleared ==> c < pos
  {
  }

  lemma ReadDep(t: seq<TracePacket>, p: nat, nodes: map<nat, Node>, cleared: set<nat>, released: seq<nat>, k: nat)
    requires Reading(t, p, nodes, cleared, released, k) && k < |t[p].deps|
    ensures Reading(t, p, Referenced(nodes, t[p].deps[k]), cleared, released, k + 1)
  {
    var d, deps := t[p].deps[k], t[p].deps;
    TracksFacts(t, p + 1, nodes, cleared, released, p);
    LaterIsUnread(t, p, k, cleared);
    if d !in nodes {
      UnknownHasNoRefs(t, p, nodes, cleared, d);
    }
    hide Tracks, Counts;
    assert deps[..k + 1] == deps[..k] + [d];
    assert d in multiset(deps[..k]) ==> d in deps[..k];
    ReferencedTracks(t, p, nodes, cleared, released, d);
    ReferencedCounts(t, p, nodes, cleared, multiset(deps[..k]), d);
  }

  lemma ReadDone(t: seq<TracePacket>, p: nat, nodes: map<nat, Node>, cleared: set<nat>, released: seq<nat>)
    requires p < |t| && Reading(t, p, nodes, cleared, released, |t[p].deps|)
    ensures Settled(t, p + 1, nodes, cleared, released, p)
  {
    assert t[p].deps[..|t[p].deps|] == t[p].deps;
    assert p !in cleared by {
      assert forall c :: c in cleared ==> c in released;
    }
  }

  /** Considering the packet just read for release. */
  lemma Consider(t: seq<TracePacket>, pos: nat, nodes: map<nat, Node>, cleared: set<nat>, released: seq<nat>, p: nat)
    requires Settled(t, pos, nodes, cleared, released, p) && p < pos && p !in cleared
    ensures t[p].id in nodes
    ensures nodes[t[p].id].refCount == 0 ==> Settled(t, pos, nodes, cleared, released + [p], -1)
    ensures nodes[t[p].id].refCount != 0 ==> Settled(t, pos, nodes, cleared, released, -1)
  {
    assert p !in released;
    assert forall i :: i in released + [p] <==> i in released || i == p;
  }

  // ---- clearing a packet ----

  /** The state while the references of packet c are given back: those from place k on still count. */
  ghost predicate Clearing(t: seq<TracePacket>, pos: nat, nodes: map<nat, Node>, cleared: set<nat>, released: seq<nat>, c: nat, k: nat) {
    && Tracks(t, pos, nodes, cleared, released, -1) && Known(t, pos, nodes, cleared)
    && c < pos && c !in cleared && c in released && k <= |t[c].deps|
    && Counts(t, pos, nodes, cleared + {c}, multiset(t[c].deps[k..]))
  }

  lemma ClearStarts(t: seq<TracePacket>, pos: nat, nodes: map<nat, Node>, cleared: set<nat>, released: seq<nat>, c: nat)
    requires Settled(t, pos, nodes, cleared, released, -1) && c in released && c !in cleared
    ensures Clearing(t, pos, nodes, cleared, released, c, 0)
  {
    assert t[c].deps[0..] == t[c].deps;
    forall id | id in nodes
      ensures nodes[id].refCount == Refs(t, pos, cleared + {c}, id) + multiset(t[c].deps)[id]
    {
      RefsWithout(t, pos, cleared, c, id);
    }
  }

  /** The dependency node is found and its count is not zero: neither error check can fire. */
  lemma NoClearingError(t: seq<TracePacket>, pos: nat, nodes: map<nat, Node>, cleared: set<nat>, released: seq<nat>,
        c: nat, k: nat)
    requires Clearing(t, pos, nodes, cleared, released, c, k) && k < |t[c].deps|
    ensures t[c].deps[k] in nodes && nodes[t[c].deps[k]].refCount > 0
  {
    var d := t[c].deps[k];
    assert d in t[c].deps && d == t[c].deps[k..][0];
    assert d in multiset(t[c].deps[k..]);
  }

  ghost function Dereferenced(nodes: map<nat, Node>, d: nat): map<nat, Node>
    requires d in nodes && nodes[d].refCount > 0
  {
    nodes[d := nodes[d].(refCount := nodes[d].refCount - 1)]
  }

  /** The packets released when d's count falls: the one waiting at d, if it has been read and waits for nothing more. */
  ghost function NewlyReleased(nodes: map<nat, Node>, d: nat): seq<nat>
    requires d in nodes
  {
    if nodes[d].refCount == 1 && nodes[d].packet.Some? then [nodes[d].packet.value] else []
  }

  lemma DereferencedTracks(t: seq<TracePacket>, pos: nat, nodes: map<nat, Node>, cleared: set<nat>, released: seq<nat>, d: nat)
    requires Tracks(t, pos, nodes, cleared, released, -1) && d in nodes && nodes[d].refCount > 0
    ensures Tracks(t, pos, Dereferenced(nodes, d), cleared, released + NewlyReleased(nodes, d), -1)
  {
    var m, rel := Dereferenced(nodes, d), released + NewlyReleased(nodes, d);
    assert NodeOk(t, pos, cleared, d, nodes[d]);
    assert forall i :: i in rel <==> i in released || i in NewlyReleased(nodes, d);
    forall x | x in m
      ensures NodeOk(t, pos, cleared, x, m[x])
    {
      assert NodeOk(t, pos, cleared, x, nodes[x]);
    }
  }

  lemma ClearDep(t: seq<TracePacket>, pos: nat, nodes: map<nat, Node>, cleared: set<nat>, released: seq<nat>, c: nat, k: nat)
    requires Clearing(t, pos, nodes, cleared, released, c, k) && k < |t[c].deps|
    requires t[c].deps[k] in nodes && nodes[t[c].deps[k]].refCount > 0
    ensures var d := t[c].deps[k];
            Clearing(t, pos, Dereferenced(nodes, d), cleared, released + NewlyReleased(nodes, d), c, k + 1)
  {
    hide Tracks;
    var d, deps := t[c].deps[k], t[c].deps;
    assert deps[k..] == [d] + deps[k + 1..];
    DereferencedTracks(t, pos, nodes, cleared, released, d);
  }

  lemma ClearDone(t: seq<TracePacket>, pos: nat, nodes: map<nat, Node>, cleared: set<nat>, released: seq<nat>, c: nat)
    requires c < |t| && Clearing(t, pos, nodes, cleared, released, c, |t[c].deps|)
    ensures Settled(t, pos, nodes - {t[c].id}, cleared + {c}, released, -1)
  {
    var m, cl := nodes - {t[c].id}, cleared + {c};
    assert t[c].deps[|t[c].deps|..] == [];
    assert nodes[t[c].id].refCount == 0;
    RefsZero(t, pos, cl, t[c].id);
    assert t[c].id !in t[c].deps;
    assert Tracks(t, pos, m, cl, released, -1) by {
      hide Counts, Known;
      forall x | x in m
        ensures NodeOk(t, pos, cl, x, m[x])
      {
        assert NodeOk(t, pos, cleared, x, nodes[x]);
      }
    }
    assert Known(t, pos, m, cl) by {
      hide Counts, Tracks;
      forall i, d | 0 <= i < pos && d in t[i].deps
        ensures d in m || IsClearedId(t, cl, d)
      {
        assert d in nodes || IsClearedId(t, cleared, d);
        if d == t[c].id {
          assert c in cl;
        }
      }
    }
  }

  // ---- progress ----

  /** The reader is never behind: the last packet read is still uncleared, or the trace is used up. */
  ghost predicate Fed(t: seq<TracePacket>, pos: nat, cleared: set<nat>, done: bool) {
    if done then pos == |t| else 0 < pos <= |t| && pos - 1 !in cleared
  }

  /** Until every packet of the trace is cleared there is a released packet left to clear. */
  lemma ThrottlingFinishes(t: seq<TracePacket>, pos: nat, nodes: map<nat, Node>, cleared: set<nat>,
        released: seq<nat>, done: bool, i: nat)
    returns (r: nat)
    requires Settled(t, pos, nodes, cleared, released, -1) && Fed(t, pos, cleared, done)
    requires i < |t| && i !in cleared
    ensures r in released && r !in cleared
  {
    r := NeverStuck(t, pos, nodes, cleared, released, if i < pos then i else pos - 1);
  }

  // ---- facts the methods use with the invariant kept closed ----

  lemma PosInRange(t: seq<TracePacket>, pos: nat, nodes: map<nat, Node>, cleared: set<nat>, released: seq<nat>)
    requires Settled(t, pos, nodes, cleared, released, -1)
    ensures pos <= |t| && pos !in cleared
  {
  }

  lemma ReleasedInRange(t: seq<TracePacket>, pos: nat, nodes: map<nat, Node>, cleared: set<nat>, released: seq<nat>)
    requires Settled(t, pos, nodes, cleared, released, -1)
    ensures pos <= |t| && forall r :: r in released ==> r < pos
  {
  }

  lemma NothingReadYet(t: seq<TracePacket>, nodes: map<nat, Node>, cleared: set<nat>, released: seq<nat>)
    requires Settled(t, 0, nodes, cleared, released, -1)
    ensures TraceOk(t) && cleared == {}
  {
  }

  lemma FreeMeansUnreferenced(t: seq<TracePacket>, pos: nat, nodes: map<nat, Node>, cleared: set<nat>, released: seq<nat>, p: nat)
    requires Settled(t, pos, nodes, cleared, released, p) && p < pos && p !in cleared && t[p].id in nodes
    ensures p !in released
    ensures nodes[t[p].id].refCount == 0 <==> forall i :: 0 <= i < pos && i !in cleared ==> t[p].id !in t[i].deps
  {
    RefsZero(t, pos, cleared, t[p].id);
  }

  lemma FirstIsFree(t: seq<TracePacket>)
    requires TraceOk(t) && |t| > 0
    ensures t[0].id !in t[0].deps
  {
  }

  lemma OwnNode(t: seq<TracePacket>, p: nat, nodes: map<nat, Node>, cleared: set<nat>, released: seq<nat>)
    requires Settled(t, p, nodes, cleared, released, -1) && p < |t|
    ensures var m := WithNode(nodes, t[p].id);
      t[p].id in m && m[t[p].id].id == t[p].id && m[t[p].id := m[t[p].id].(packet := Some(p))] == WithPacket(t, p, nodes)
  {
    assert t[p].id in nodes ==> NodeOk(t, p, cleared, t[p].id, nodes[t[p].id]);
  }

  lemma DepNode(t: seq<TracePacket>, p: nat, nodes: map<nat, Node>, cleared: set<nat>, released: seq<nat>, k: nat)
    requires Reading(t, p, nodes, cleared, released, k) && k < |t[p].deps|
    ensures var d := t[p].deps[k]; var m := WithNode(nodes, d);
      d in m && m[d].id == d && m[d := m[d].(refCount := m[d].refCount + 1)] == Referenced(nodes, d)
  {
    var d := t[p].deps[k];
    assert d in nodes ==> NodeOk(t, p + 1, cleared, d, nodes[d]);
  }

  lemma ReadStarts(t: seq<TracePacket>, p: nat, nodes: map<nat, Node>, cleared: set<nat>, released: seq<nat>)
    requires p < |t|
    requires Tracks(t, p + 1, nodes, cleared, released, p)
    requires Known(t, p, nodes, cleared) && Counts(t, p, nodes, cleared, multiset{})
    ensures Reading(t, p, nodes, cleared, released, 0)
  {
  }

  lemma DependantNode(t: seq<TracePacket>, pos: nat, nodes: map<nat, Node>, cleared: set<nat>, released: seq<nat>, c: nat, k: nat)
    requires Clearing(t, pos, nodes, cleared, released, c, k) && k < |t[c].deps|
    requires t[c].deps[k] in nodes && nodes[t[c].deps[k]].refCount > 0
    ensures var d := t[c].deps[k]; var node := nodes[d];
      && node.id == d
      && nodes[d := node.(refCount := node.refCount - 1)] == Dereferenced(nodes, d)
      && NewlyReleased(nodes, d) == if node.refCount == 1 && node.packet.Some? then [node.packet.value] else []
  {
    var d := t[c].deps[k];
    assert NodeOk(t, pos, cleared, d, nodes[d]);
  }

  /** The reader context with dependency tracking and self-throttling on. */
  /** Packets p up to q are read: only the last one may lie past the window, and it does unless reading is over. */
  ghost predicate StopsPast(t: seq<TracePacket>, p: nat, q: nat, window: int, done: bool) {
    && q <= |t|
    && (forall i :: p <= i < q - 1 ==> t[i].cycle <= window)
    && (p < q && !done ==> window < t[q - 1].cycle)
  }

  class Context {
    const trace: seq<TracePacket>
    const table: DependencyTable
    var pos: nat
    var latestCycle: nat
    var done: bool
    var numActive: int
    var clearedList: seq<nat>
    ghost var taken: seq<nat>
    ghost var cleared: set<nat>

    /** Every packet handed out so far, in order. */
    ghost function Released(): seq<nat>
      reads this
    {
      taken + clearedList
    }

    ghost predicate Sound()
      reads this, table
    {
      && table.Valid()
      && (done ==> pos == |trace|)
      && (0 < pos <= |trace| ==> latestCycle == trace[pos - 1].cycle)
      && numActive == pos - |cleared|
    }

    ghost predicate Valid()
      reads this, table
    {
      Sound() && Settled(trace, pos, table.nodes, cleared, Released(), -1)
    }

    constructor (trace: seq<TracePacket>)
      requires TraceOk(trace)
      ensures Valid() && this.trace == trace && fresh(table)
      ensures pos == 0 && latestCycle == 0 && !done && cleared == {} && Released() == []
    {
      this.trace := trace;
      table := new DependencyTable();
      pos, latestCycle, done, numActive := 0, 0, false, 0;
      clearedList, taken, cleared := [], [], {};
    }

    method GetOrAdd(id: nat) returns (node: Node)
      requires table.Valid()
      modifies table
      ensures table.Valid() && table.nodes == WithNode(old(table.nodes), id)
      ensures node == table.nodes[id]
    {
      var found := table.Get(id);
      if found.None? {
        table.Add(id);
        node := Node(id, 0, None);
      } else {
        node := found.value;
      }
    }

    /** A reference from packet p is entered at each of its dependants. */
    method CountReferences(p: nat, ghost cleared: set<nat>, ghost released: seq<nat>)
      requires table.Valid() && Reading(trace, p, table.nodes, cleared, released, 0)
      modifies table
      ensures table.Valid() && Reading(trace, p, table.nodes, cleared, released, |trace[p].deps|)
    {
      hide Tracks, Known, Counts, Settled, WithNode, Referenced, DependencyTable.Valid;
      var deps := trace[p].deps;
      hide Reading;
      var k := 0;
      while k < |deps|
        invariant k <= |deps|
        invariant table.Valid() && Reading(trace, p, table.nodes, cleared, released, k)
        modifies table
      {
        ReadDep(trace, p, table.nodes, cleared, released, k);
        DepNode(trace, p, table.nodes, cleared, released, k);
        var dep := GetOrAdd(deps[k]);
        table.Put(deps[k], dep.(refCount := dep.refCount + 1));
        k := k + 1;
      }
    }

    /** The next packet, with its node and its references entered. */
    method ReadPacket() returns (r: Option<nat>)
      requires Valid()
      modifies this, table
      ensures r == (if old(pos) < |trace| then Some(old(pos)) else None)
      ensures Sound() && done == old(done) && clearedList == old(clearedList) && taken == old(taken) && cleared == old(cleared)
      ensures r.None? ==> Valid() && pos == old(pos)
      ensures r.Some? ==> pos == r.value + 1 && Settled(trace, pos, table.nodes, cleared, Released(), r.value) && r.value !in cleared
    {
      hide Tracks, Known, Counts, Settled, Reading, WithNode, WithPacket, Referenced, DependencyTable.Valid;
      if pos == |trace| {
        return None;
      }
      ghost var released := Released();
      assert Settled(trace, pos, table.nodes, cleared, released, -1);
      PosInRange(trace, pos, table.nodes, cleared, released);
      var p := pos;
      var packet := trace[p];
      ReadOwn(trace, p, table.nodes, cleared, released);
      OwnNode(trace, p, table.nodes, cleared, released);
      var node := GetOrAdd(packet.id);
      table.Put(packet.id, node.(packet := Some(p)));
      numActive := numActive + 1;
      latestCycle := packet.cycle;
      pos := p + 1;
      ReadStarts(trace, p, table.nodes, cleared, released);
      CountReferences(p, cleared, released);
      ReadDone(trace, p, table.nodes, cleared, released);
      r := Some(p);
    }

    method DependenciesCleared(packet: nat) returns (b: bool)
      requires table.Valid() && packet < |trace|
      ensures b == (trace[packet].id in table.nodes ==> table.nodes[trace[packet].id].refCount == 0)
    {
      var node := table.Get(trace[packet].id);
      b := node.None? || node.value.refCount == 0;
    }

    method AddClearedPacketToList(packet: nat)
      modifies this`clearedList
      ensures clearedList == old(clearedList) + [packet]
      ensures Released() == old(Released()) + [packet]
    {
      clearedList := clearedList + [packet];
    }

    /** A packet just read goes on the list exactly when nothing refers to it. */
    method Admit(packet: nat)
      requires Sound() && packet < pos <= |trace| && packet !in cleared
      requires Settled(trace, pos, table.nodes, cleared, Released(), packet)
      modifies this`clearedList
      ensures Valid()
      ensures packet in Released() <==> forall i :: 0 <= i < pos && i !in cleared ==> trace[packet].id !in trace[i].deps
      ensures old(clearedList) <= clearedList
    {
      hide Tracks, Known, Counts, Settled, DependencyTable.Valid;
      Consider(trace, pos, table.nodes, cleared, Released(), packet);
      FreeMeansUnreferenced(trace, pos, table.nodes, cleared, Released(), packet);
      var free := DependenciesCleared(packet);
      if free {
        AddClearedPacketToList(packet);
      }
    }

    /** Reading goes on until it is a full window past the given cycle or the trace is used up. */
    method ReadAhead(cycle: nat)
      requires Valid() && 0 < pos && Fed(trace, pos, cleared, done)
      modifies this, table
      ensures Valid() && Fed(trace, pos, cleared, done)
      ensures done || cycle + READ_AHEAD <= latestCycle
      ensures cycle + READ_AHEAD <= old(latestCycle) ==> pos == old(pos) && done == old(done)
      ensures StopsPast(trace, old(pos), pos, cycle + READ_AHEAD, done) && (done && !old(done) ==> pos == |trace|)
      ensures pos >= old(pos) && cleared == old(cleared) && taken == old(taken) && old(clearedList) <= clearedList
    {
      hide Tracks, Known, Counts, Settled;
      var readToCycle := cycle + READ_AHEAD;
      if readToCycle > latestCycle {
        while latestCycle <= readToCycle && !done
          invariant Valid() && 0 < pos <= |trace| && Fed(trace, pos, cleared, done)
          invariant pos >= old(pos) && cleared == old(cleared) && taken == old(taken) && old(clearedList) <= clearedList
          invariant forall i :: old(pos) <= i < pos - 1 ==> trace[i].cycle <= readToCycle
          invariant done && !old(done) ==> pos == |trace|
          decreases !done, |trace| - pos
        {
          var packet := ReadPacket();
          match packet
          case None => done := true;
          case Some(p) => Admit(p);
        }
      }
    }

    /** The first packet and the first window.  A trace has at least one packet. */
    method PrimeSelfThrottle()
      requires Valid() && pos == 0 && !done && |trace| > 0
      modifies this, table
      ensures Valid() && Fed(trace, pos, cleared, done)
      ensures cleared == old(cleared) && taken == old(taken)
      ensures old(clearedList) <= clearedList && 0 in Released()
    {
      hide Tracks, Known, Counts, Settled;
      NothingReadYet(trace, table.nodes, cleared, Released());
      var packet := ReadPacket();
      FirstIsFree(trace);
      Admit(0);
      ghost var released := Released();
      ReadAhead(trace[packet.value].cycle);
      assert released <= Released();
    }

    /** The network takes everything on the list. */
    method EmptyClearedList()
      requires Valid()
      modifies this`clearedList, this`taken
      ensures Valid() && clearedList == [] && Released() == old(Released())
    {
      hide Settled;
      assert taken + clearedList == (taken + clearedList) + [];
      taken, clearedList := taken + clearedList, [];
    }

    /** The k-th dependant d of packet c loses its reference, and is released if that was the last one.  Its node is there
        and its count is positive. */
    method ClearDependant(ghost c: nat, ghost k: nat, d: nat)
      requires table.Valid() && Clearing(trace, pos, table.nodes, cleared, Released(), c, k)
      requires c < |trace| && k < |trace[c].deps| && trace[c].deps[k] == d
      modifies table, this`clearedList
      ensures table.Valid() && Clearing(trace, pos, table.nodes, cleared, Released(), c, k + 1)
      ensures old(clearedList) <= clearedList
    {
      hide Tracks, Known, Counts, Settled, Clearing, Dereferenced, NewlyReleased, StopsPast;
      NoClearingError(trace, pos, table.nodes, cleared, Released(), c, k);
      ClearDep(trace, pos, table.nodes, cleared, Released(), c, k);
      DependantNode(trace, pos, table.nodes, cleared, Released(), c, k);
      var node := table.Get(d);
      assert node.Some? && node.value.refCount != 0;
      var dep := node.value.(refCount := node.value.refCount - 1);
      table.Put(d, dep);
      if dep.refCount == 0 && dep.packet.Some? {
        AddClearedPacketToList(dep.packet.value);
      } else {
        assert Released() == Released() + [];
      }
    }

    method ClearDependants(c: nat)
      requires table.Valid() && c < |trace| && Clearing(trace, pos, table.nodes, cleared, Released(), c, 0)
      modifies table, this`clearedList
      ensures table.Valid() && Clearing(trace, pos, table.nodes, cleared, Released(), c, |trace[c].deps|)
      ensures old(clearedList) <= clearedList
    {
      hide Clearing, DependencyTable.Valid;
      var k := 0;
      while k < |trace[c].deps|
        invariant k <= |trace[c].deps|
        invariant table.Valid() && Clearing(trace, pos, table.nodes, cleared, Released(), c, k)
        invariant old(clearedList) <= clearedList
      {
        ClearDependant(c, k, trace[c].deps[k]);
        k := k + 1;
      }
    }

    /** Packet c has left the network: its dependants lose their references and its node goes.  The node of each
        dependant is there and its count is positive, so neither error of the tracker can be reported. */
    method ClearDependenciesFreePacket(c: nat)
      requires Valid() && Fed(trace, pos, cleared, done) && c in Released() && c !in cleared
      modifies this, table
      ensures Valid() && Fed(trace, pos, cleared, done)
      ensures cleared == old(cleared) + {c}
      ensures taken == old(taken) && old(clearedList) <= clearedList && pos >= old(pos)
    {
      hide Tracks, Known, Counts, Settled, Clearing, Dereferenced, NewlyReleased;
      ReleasedInRange(trace, pos, table.nodes, cleared, Released());
      var packet := trace[c];
      ReadAhead(packet.cycle);
      assert c in Released();
      ClearStarts(trace, pos, table.nodes, cleared, Released(), c);
      ClearDependants(c);
      ClearDone(trace, pos, table.nodes, cleared, Released(), c);
      table.Remove(packet.id);
      cleared := cleared + {c};
      numActive := numActive - 1;
    }
  }
}
