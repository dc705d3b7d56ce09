/** The request store shared by the allocators that keep the whole request matrix. */
module DenseAllocators {
  import opened Matching

  type Matrix = seq<seq<Request>>

  ghost predicate Sized(req: Matrix, inputs: nat, outputs: nat) {
    |req| == inputs && forall i :: 0 <= i < inputs ==> |req[i]| == outputs
  }

  /** The cell (i, j) holds a request. */
  predicate Has(req: Matrix, i: int, j: int)
    requires 0 <= i < |req| && 0 <= j < |req[i]|
  {
    req[i][j].tag != NONE
  }

  /** The request relation a matrix stands for. */
  ghost function EdgesOf(req: Matrix): Edges {
    set i, j | 0 <= i < |req| && 0 <= j < |req[i]| && Has(req, i, j) :: (i, j)
  }

  lemma NothingMatched(inm: seq<int>, outm: seq<int>)
    requires Inverse(inm, outm) && Pairs(inm) == {}
    ensures forall i :: 0 <= i < |inm| ==> inm[i] == NONE
    ensures forall j :: 0 <= j < |outm| ==> outm[j] == NONE
  {
    assert forall i :: 0 <= i < |inm| && inm[i] != NONE ==> (i, inm[i]) in Pairs(inm);
  }

  class DenseAllocator {
    const inputs: nat
    const outputs: nat
    var dirty: bool
    var inmatch: seq<int>
    var outmatch: seq<int>
    var request: Matrix

    ghost predicate Shape()
      reads this
    {
      |inmatch| == inputs && |outmatch| == outputs && Sized(request, inputs, outputs)
    }

    /** What every public operation keeps: a clean allocator holds no request and no grant. */
    ghost predicate Valid()
      reads this
    {
      Shape() && Inverse(inmatch, outmatch) && (!dirty ==> Pairs(inmatch) == {} && EdgesOf(request) == {})
    }

    constructor (inputs: nat, outputs: nat)
      ensures Valid() && this.inputs == inputs && this.outputs == outputs
      ensures !dirty
    {
      this.inputs, this.outputs := inputs, outputs;
      dirty := false;
      inmatch := seq(inputs, _ => NONE);
      outmatch := seq(outputs, _ => NONE);
      request := seq(inputs, _ => seq(outputs, _ => Request(NONE, 0, 0)));
    }

    /** Forgets all requests; the match vectors are rewritten only when a request was added since
        the last call, and are nevertheless empty afterwards in every case. */
    method Clear()
      requires Valid()
      modifies this
      ensures Valid() && EdgesOf(request) == {} && Pairs(inmatch) == {}
      ensures forall j :: 0 <= j < outputs ==> outmatch[j] == NONE
    {
      var i := 0;
      while i < inputs
        invariant 0 <= i <= inputs && Shape()
        invariant inmatch == old(inmatch) && outmatch == old(outmatch) && dirty == old(dirty)
        invariant forall x, y :: 0 <= x < i && 0 <= y < outputs ==> !Has(request, x, y)
      {
        var row := request[i];
        ghost var was := request;
        request := request[i := seq(outputs, y requires 0 <= y < |row| => row[y].(tag := NONE))];
        forall x, y | 0 <= x <= i && 0 <= y < outputs
          ensures !Has(request, x, y)
        {
          assert x < i ==> !Has(was, x, y) && request[x] == was[x];
        }
        i := i + 1;
      }
      if dirty {
        inmatch := seq(inputs, _ => NONE);
        outmatch := seq(outputs, _ => NONE);
        dirty := false;
      } else {
        NothingMatched(inmatch, outmatch);
      }
    }

    method AddRequest(i: int, j: int, tag: int, inPri: int, outPri: int)
      requires Valid()
      requires 0 <= i < inputs && 0 <= j < outputs && 0 <= tag
      requires !Has(request, i, j)
      modifies this
      ensures Valid() && inmatch == old(inmatch) && outmatch == old(outmatch)
      ensures request == old(request)[i := old(request)[i][j := Request(tag, inPri, outPri)]]
      ensures EdgesOf(request) == old(EdgesOf(request)) + {(i, j)}
    {
      dirty := true;
      ghost var was := request;
      request := request[i := request[i][j := Request(tag, inPri, outPri)]];
      forall x, y | 0 <= x < inputs && 0 <= y < outputs
        ensures Has(request, x, y) <==> Has(was, x, y) || (x == i && y == j)
      {
      }
    }
  }
}
