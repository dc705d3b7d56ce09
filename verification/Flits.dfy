/** Flits, packets and the input buffer of a router. */
module Flits {
  import opened Sums

  datatype Flit = Flit(id: nat, pid: nat, vc: nat, head: bool, tail: bool)

  /** The packet that is open on a virtual channel after f; negative when none is. */
  function Open(f: Flit): int {
    if f.tail then -1 else f.pid
  }

  /** f continues the open packet, or starts one when none is open. */
  predicate Continues(open: int, f: Flit) {
    if open >= 0 then f.pid == open && !f.head else f.head
  }

  /** The flits are whole packets back to back, but for a packet open before the first and one open after the last. */
  ghost predicate WholePackets(open: int, flits: seq<Flit>, end: int)
    decreases |flits|
  {
    if flits == [] then open == end
    else Continues(open, flits[0]) && WholePackets(Open(flits[0]), flits[1..], end)
  }

  lemma {:induction false} WholePacketsConcat(open: int, s: seq<Flit>, mid: int, t: seq<Flit>, end: int)
    requires WholePackets(open, s, mid) && WholePackets(mid, t, end)
    ensures WholePackets(open, s + t, end)
    decreases |s|
  {
    if s == [] {
      assert s + t == t;
    } else {
      WholePacketsConcat(Open(s[0]), s[1..], mid, t, end);
      assert (s + t)[1..] == s[1..] + t;
    }
  }

  lemma WholePacketsAppend(open: int, flits: seq<Flit>, end: int, f: Flit)
    requires WholePackets(open, flits, end) && Continues(end, f)
    ensures WholePackets(open, flits + [f], Open(f))
  {
    assert [f][1..] == [];
    WholePacketsConcat(open, flits, end, [f], Open(f));
  }

  /** The packet a receiver expects to go on with after k of the flits. */
  ghost function Expected(open: int, flits: seq<Flit>, k: nat): int
    requires k <= |flits|
  {
    if k == 0 then open else Open(flits[k - 1])
  }

  /** A receiver of whole packets in order never sees a flit of another packet in the middle of one. */
  lemma {:induction false} NeverUnexpected(open: int, flits: seq<Flit>, end: int, k: nat)
    requires WholePackets(open, flits, end) && k < |flits|
    ensures Continues(Expected(open, flits, k), flits[k])
    ensures Expected(open, flits, k) < 0 || flits[k].pid == Expected(open, flits, k)
    decreases k
  {
    if k > 0 {
      NeverUnexpected(Open(flits[0]), flits[1..], end, k - 1);
      assert k > 1 ==> flits[1..][k - 2] == flits[k - 1];
    }
  }

  ghost function Lengths(bufs: seq<seq<Flit>>): seq<int> {
    seq(|bufs|, v requires 0 <= v < |bufs| => |bufs[v]|)
  }

  /** The flit buffers of one router input.  expectedPid is negative between packets. */
  class Buffer {
    const size: nat
    var occupancy: int
    var vc: seq<seq<Flit>>
    var expectedPid: seq<int>

    ghost predicate Valid()
      reads this
    {
      && |vc| == |expectedPid| && occupancy == Sum(Lengths(vc))
      && (forall v :: 0 <= v < |expectedPid| ==> expectedPid[v] >= -1)
    }

    constructor (size: nat, vcs: nat)
      ensures Valid() && this.size == size && vc == seq(vcs, _ => []) && expectedPid == seq(vcs, _ => -1)
    {
      this.size := size;
      occupancy, vc, expectedPid := 0, seq(vcs, _ => []), seq(vcs, _ => -1);
      SumOfSame(Lengths(seq(vcs, _ => [])), 0);
    }

    /** Fails when the buffer is full or when a flit of another packet arrives in the middle of one. */
    method AddFlit(v: nat, f: Flit) returns (ok: bool)
      requires Valid() && v < |vc|
      modifies this
      ensures ok <==> old(Sum(Lengths(vc))) < size && (old(expectedPid[v]) < 0 || f.pid == old(expectedPid[v]))
      ensures ok ==> Valid() && vc == old(vc)[v := old(vc[v]) + [f]] && expectedPid == old(expectedPid)[v := Open(f)]
    {
      if occupancy >= size {
        return false;
      }
      occupancy := occupancy + 1;
      if expectedPid[v] >= 0 {
        if f.pid != expectedPid[v] {
          return false;
        } else if f.tail {
          expectedPid := expectedPid[v := -1];
        }
      } else if !f.tail {
        expectedPid := expectedPid[v := f.pid];
      }
      assert expectedPid == old(expectedPid)[v := Open(f)];
      SumUpdate(Lengths(vc), v, |vc[v]| + 1);
      assert Lengths(vc[v := vc[v] + [f]]) == Lengths(vc)[v := |vc[v]| + 1];
      vc := vc[v := vc[v] + [f]];
      ok := true;
    }

    /** Fails on an empty virtual channel. */
    method RemoveFlit(v: nat) returns (ok: bool, f: Flit)
      requires Valid() && v < |vc|
      modifies this
      ensures ok <==> old(vc[v]) != []
      ensures ok ==> Valid() && f == old(vc[v][0]) && vc == old(vc)[v := old(vc[v][1..])] && expectedPid == old(expectedPid)
    {
      occupancy := occupancy - 1;
      ok := vc[v] != [];
      f := Flit(0, 0, 0, false, false);
      if ok {
        f := vc[v][0];
        SumUpdate(Lengths(vc), v, |vc[v]| - 1);
        assert Lengths(vc[v := vc[v][1..]]) == Lengths(vc)[v := |vc[v]| - 1];
        vc := vc[v := vc[v][1..]];
      }
    }
  }
}
