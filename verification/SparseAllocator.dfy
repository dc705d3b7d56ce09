/** The request store that keeps, per port, an ordered map of the requests it takes part in.

The C++ `map` is walked in key order.  An iterator is modelled by the key it stands at, or by
the port count when it is at the end; `LowerBound` is where an iterator stands that was moved
up to a given key.
*/
module SparseAllocators {
  import opened Arith
  import opened Matching

  type RequestMap = map<int, Request>

  /** The least key of m that is at least k, or n when there is none below n. */
  function LowerBound(m: RequestMap, k: nat, n: nat): (p: nat)
    requires k <= n
    ensures k <= p <= n && (p < n ==> p in m) && forall x :: k <= x < p ==> x !in m
    decreases n - k
  {
    if k == n || k in m then k else LowerBound(m, k + 1, n)
  }

  /** The request relation stored on the input side. */
  ghost function EdgesOf(inReq: seq<RequestMap>): Edges {
    set i, j | 0 <= i < |inReq| && j in inReq[i] :: (i, j)
  }

  /** A round-robin arbiter: the first key at or after the pointer whose entry in `pass` is `want`.
      Used with the match vector for grants and with the grant vector for acceptances. */
  method RoundRobin(m: RequestMap, n: nat, pointer: nat, pass: seq<int>, want: int) returns (r: int)
    requires m != map[] && pointer < n == |pass|
    requires forall k :: k in m ==> 0 <= k < n
    ensures r == NONE ==> forall k :: k in m ==> pass[k] != want
    ensures r != NONE ==> r in m && pass[r] == want
    ensures r != NONE ==> forall k :: k in m && pass[k] == want ==> Dist(n, pointer, r) <= Dist(n, pointer, k)
  {
    var p := LowerBound(m, 0, n);
    while p != n && p < pointer
      invariant p <= n && (p < n ==> p in m)
      invariant forall k :: pointer <= k < p ==> k !in m
      decreases n - p
    {
      p := LowerBound(m, p + 1, n);
    }
    assert p < n || forall k :: pointer <= k ==> k !in m;
    var wrapped := false;
    while !wrapped || (p != n && p < pointer)
      invariant p <= n && (p < n ==> p in m)
      invariant !wrapped ==> pointer <= p && forall k :: pointer <= k < p && k in m ==> pass[k] != want
      invariant wrapped ==> forall k :: (k < p || pointer <= k) && k in m ==> pass[k] != want
      decreases !wrapped, n - p
    {
      if p == n {
        if wrapped { break; }
        p := LowerBound(m, 0, n);
        wrapped := true;
        assert p < n by {
          var k :| k in m;
        }
      }
      if pass[p] == want {
        return p;
      }
      p := LowerBound(m, p + 1, n);
    }
    return NONE;
  }

  /** Every request stored in a is stored in b as well, seen from the other port. */
  ghost predicate Transposed(a: seq<RequestMap>, b: seq<RequestMap>) {
    forall i, j {:trigger j in a[i]} :: 0 <= i < |a| && j in a[i] ==> 0 <= j < |b| && i in b[j]
  }

  /** occ names exactly the ports that take part in a request. */
  ghost predicate Occupied(a: seq<RequestMap>, occ: set<int>) {
    forall i :: i in occ <==> 0 <= i < |a| && a[i] != map[]
  }

  lemma AddTransposed(a: seq<RequestMap>, b: seq<RequestMap>, i: int, j: int, req: Request)
    requires Transposed(a, b) && 0 <= i < |a| && 0 <= j < |b|
    ensures Transposed(a[i := a[i][j := req]], b[j := b[j][i := req]])
  {
    var a', b' := a[i := a[i][j := req]], b[j := b[j][i := req]];
    forall x, y | 0 <= x < |a'| && y in a'[x]
      ensures 0 <= y < |b'| && x in b'[y]
    {
      if x != i || y != j {
        assert y in a[x];
      }
    }
  }

  class SparseAllocator {
    const inputs: nat
    const outputs: nat
    var dirty: bool
    var inmatch: seq<int>
    var outmatch: seq<int>
    var inReq: seq<RequestMap>
    var outReq: seq<RequestMap>
    var inOcc: set<int>
    var outOcc: set<int>

    /** The input-side and the output-side maps hold the same requests, and the occupancy sets name
        exactly the ports that have one. */
    ghost predicate Stored()
      reads this
    {
      && |inmatch| == |inReq| == inputs && |outmatch| == |outReq| == outputs
      && Transposed(inReq, outReq) && Transposed(outReq, inReq)
      && Occupied(inReq, inOcc) && Occupied(outReq, outOcc)
    }

    ghost predicate Valid()
      reads this
    {
      Stored() && Inverse(inmatch, outmatch) && (!dirty ==> Pairs(inmatch) == {} && EdgesOf(inReq) == {})
    }

    constructor (inputs: nat, outputs: nat)
      ensures Valid() && this.inputs == inputs && this.outputs == outputs && EdgesOf(inReq) == {}
      ensures Pairs(inmatch) == {}
    {
      this.inputs, this.outputs := inputs, outputs;
      dirty := false;
      inmatch := seq(inputs, _ => NONE);
      outmatch := seq(outputs, _ => NONE);
      inReq := seq(inputs, _ => map[]);
      outReq := seq(outputs, _ => map[]);
      inOcc, outOcc := {}, {};
    }

    method Clear()
      requires Valid()
      modifies this
      ensures Valid() && EdgesOf(inReq) == {} && Pairs(inmatch) == {} && !dirty
    {
      inReq := seq(inputs, _ => map[]);
      outReq := seq(outputs, _ => map[]);
      inOcc, outOcc := {}, {};
      if dirty {
        inmatch := seq(inputs, _ => NONE);
        outmatch := seq(outputs, _ => NONE);
        dirty := false;
      }
    }

    method AddRequest(i: int, j: int, tag: int, inPri: int, outPri: int)
      requires Valid()
      requires 0 <= i < inputs && 0 <= j < outputs && 0 <= tag
      requires j !in inReq[i]
      modifies this
      ensures Valid() && inmatch == old(inmatch) && outmatch == old(outmatch)
      ensures EdgesOf(inReq) == old(EdgesOf(inReq)) + {(i, j)}
      ensures inReq == old(inReq)[i := old(inReq[i])[j := Request(tag, inPri, outPri)]]
      ensures outReq == old(outReq)[j := old(outReq[j])[i := Request(tag, inPri, outPri)]]
    {
      hide Inverse, Transposed;
      dirty := true;
      if inReq[i] == map[] {
        inOcc := inOcc + {i};
      }
      if outReq[j] == map[] {
        outOcc := outOcc + {j};
      }
      assert j in inReq[i][j := Request(tag, inPri, outPri)];
      assert i in outReq[j][i := Request(tag, inPri, outPri)];
      var req := Request(tag, inPri, outPri);
      AddTransposed(inReq, outReq, i, j, req);
      AddTransposed(outReq, inReq, j, i, req);
      ghost var was := inReq;
      inReq := inReq[i := inReq[i][j := req]];
      outReq := outReq[j := outReq[j][i := req]];
      forall e
        ensures e in EdgesOf(inReq) <==> e in EdgesOf(was) || e == (i, j)
      {
        assert 0 <= e.0 < inputs ==> (e.1 in inReq[e.0] <==> e.1 in was[e.0] || e == (i, j));
      }
    }
  }
}
