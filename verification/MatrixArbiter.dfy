/** The matrix arbiter: a least-recently-granted order kept as a matrix of pairwise precedences. */
module MatrixArbiters {
  import opened Matching

  datatype Entry = Entry(valid: bool, id: int, pri: int)

  type Matrix = seq<seq<int>>

  ghost predicate Square(m: Matrix, n: nat) {
    |m| == n && forall i :: 0 <= i < n ==> |m[i]| == n
  }

  /** Input i goes before input j. */
  predicate Beats(m: Matrix, i: int, j: int)
    requires 0 <= i < |m| && 0 <= j < |m[i]|
  {
    m[i][j] != 0
  }

  /** The matrix is a strict total order on the inputs. */
  ghost predicate TotalOrder(m: Matrix, n: nat) {
    && Square(m, n)
    && (forall i :: 0 <= i < n ==> !Beats(m, i, i))
    && (forall i, j :: 0 <= i < n && 0 <= j < n && i != j ==> (Beats(m, i, j) <==> !Beats(m, j, i)))
    && (forall i, j, k :: 0 <= i < n && 0 <= j < n && 0 <= k < n && Beats(m, i, j) && Beats(m, j, k) ==> Beats(m, i, k))
  }

  /** x comes before i, whatever the matrix entry for a lower priority says. */
  predicate Precedes(m: Matrix, req: seq<Entry>, i: int, x: int)
    requires 0 <= i < |m| && 0 <= x < |m[i]| && i < |req| && x < |req|
  {
    (req[i].pri == req[x].pri && Beats(m, i, x)) || req[i].pri > req[x].pri
  }

  /** x is a request that no other request goes before. */
  ghost predicate Best(m: Matrix, req: seq<Entry>, n: nat, x: int)
    requires Square(m, n) && |req| == n
  {
    0 <= x < n && req[x].valid && forall i :: 0 <= i < n && req[i].valid ==> !Precedes(m, req, i, x)
  }

  ghost function Requests(req: seq<Entry>): set<int> {
    set i | 0 <= i < |req| && req[i].valid
  }

  lemma BestIsUnique(m: Matrix, req: seq<Entry>, n: nat, x: int, y: int)
    requires TotalOrder(m, n) && |req| == n && Best(m, req, n, x) && Best(m, req, n, y)
    ensures x == y
  {
    assert !Precedes(m, req, x, y) && !Precedes(m, req, y, x);
  }

  /** Whenever there is a request, one of them is best. */
  lemma {:induction false} BestExists(m: Matrix, req: seq<Entry>, n: nat, k: nat) returns (x: int)
    requires TotalOrder(m, n) && |req| == n && k <= n
    requires exists i :: 0 <= i < k && req[i].valid
    ensures 0 <= x < k && req[x].valid && forall i :: 0 <= i < k && req[i].valid ==> !Precedes(m, req, i, x)
  {
    var last := k - 1;
    if exists i :: 0 <= i < last && req[i].valid {
      x := BestExists(m, req, n, last);
      if req[last].valid && Precedes(m, req, last, x) {
        forall i | 0 <= i < last && req[i].valid
          ensures !Precedes(m, req, i, last)
        {
          assert !Precedes(m, req, i, x);
        }
        x := last;
      }
    } else {
      x := last;
    }
  }

  /** The order after s was granted: s goes last, the others keep their places. */
  ghost predicate MovedLast(m: Matrix, n: nat, s: int, m1: Matrix) {
    && Square(m, n) && Square(m1, n)
    && forall i, j :: 0 <= i < n && 0 <= j < n ==>
         (Beats(m1, i, j) <==> if i == j then Beats(m, i, j) else if i == s then false else if j == s then true else Beats(m, i, j))
  }

  lemma MovedLastKeepsOrder(m: Matrix, n: nat, s: int, m1: Matrix)
    requires TotalOrder(m, n) && 0 <= s < n && MovedLast(m, n, s, m1)
    ensures TotalOrder(m1, n)
  {
  }

  ghost function Beaters(m: Matrix, n: nat, x: int): set<int>
    requires Square(m, n) && 0 <= x < n
  {
    set i | 0 <= i < n && Beats(m, i, x)
  }

  /** When input i was last granted, counting the grants; never is negative, the more so the higher i. */
  ghost function LastGrant(grants: seq<int>, i: nat): int {
    var n := |grants| - 1;
    if grants == [] then -1 - i else if grants[n] == i then n else LastGrant(grants[..n], i)
  }

  /** The matrix is the order of the last grants: i goes before j if i was granted less recently.  Of two inputs never
      granted the higher goes first. */
  ghost predicate LeastRecentFirst(m: Matrix, n: nat, grants: seq<int>) {
    Square(m, n) && forall i, j :: 0 <= i < n && 0 <= j < n ==> (Beats(m, i, j) <==> LastGrant(grants, i) < LastGrant(grants, j))
  }

  lemma {:induction false} LastGrantBefore(grants: seq<int>, i: nat)
    ensures LastGrant(grants, i) < |grants|
    decreases |grants|
  {
    if grants != [] {
      LastGrantBefore(grants[..|grants| - 1], i);
    }
  }

  /** Moving the winner last keeps the order of the last grants. */
  lemma GrantIsMostRecent(m: Matrix, n: nat, s: nat, m1: Matrix, grants: seq<int>)
    requires s < n && MovedLast(m, n, s, m1) && LeastRecentFirst(m, n, grants)
    ensures LeastRecentFirst(m1, n, grants + [s])
  {
    assert (grants + [s])[..|grants|] == grants;
    forall i, j | 0 <= i < n && 0 <= j < n
      ensures Beats(m1, i, j) <==> LastGrant(grants + [s], i) < LastGrant(grants + [s], j)
    {
      LastGrantBefore(grants, i);
      LastGrantBefore(grants, j);
      assert Beats(m, i, j) <==> LastGrant(grants, i) < LastGrant(grants, j);
    }
  }

  class MatrixArbiter {
    const size: nat
    var matrix: Matrix
    var request: seq<Entry>
    var selected: int
    var lastReq: int
    var numReqs: nat
    /** The inputs granted so far. */
    ghost var grants: seq<int>

    ghost predicate Valid()
      reads this
    {
      && TotalOrder(matrix, size) && LeastRecentFirst(matrix, size, grants) && |request| == size && NONE <= selected < size
      && numReqs == |Requests(request)|
      && (numReqs == 0 ==> lastReq == NONE) && (numReqs == 1 ==> Requests(request) == {lastReq})
    }

    constructor (size: nat)
      ensures Valid() && this.size == size && numReqs == 0 && grants == []
    {
      this.size := size;
      matrix := seq(size, i => seq(size, j => if j < i then 1 else 0));
      request := seq(size, _ => Entry(false, 0, 0));
      selected, lastReq, numReqs, grants := NONE, NONE, 0, [];
    }

    method AddRequest(input: int, id: int, pri: int)
      requires Valid() && 0 <= input < size && !request[input].valid
      modifies this`request, this`lastReq, this`numReqs
      ensures Valid() && request == old(request)[input := Entry(true, id, pri)]
    {
      hide TotalOrder, LeastRecentFirst;
      lastReq := input;
      numReqs := numReqs + 1;
      ghost var was := request;
      request := request[input := Entry(true, id, pri)];
      assert Requests(request) == Requests(was) + {input};
    }

    method Clear()
      requires Valid()
      modifies this`request, this`selected, this`lastReq, this`numReqs
      ensures Valid() && numReqs == 0 && Requests(request) == {}
      ensures selected == if old(numReqs) > 0 then NONE else old(selected)
    {
      lastReq := NONE;
      if numReqs > 0 {
        request := seq(size, i requires 0 <= i < size && |request| == size reads this => request[i].(valid := false));
        numReqs := 0;
        selected := NONE;
      }
    }

    /** Whether no request goes before `input`. */
    method Unbeaten(input: nat) returns (grant: bool)
      requires Valid() && input < size && request[input].valid
      ensures grant <==> Best(matrix, request, size, input)
    {
      grant := true;
      var i := 0;
      while i < size
        invariant 0 <= i <= size && grant
        invariant forall k :: 0 <= k < i && request[k].valid ==> !Precedes(matrix, request, k, input)
      {
        if request[i].valid && Precedes(matrix, request, i, input) {
          return false;
        }
        i := i + 1;
      }
    }

    /** The grant goes to the one request that is best; the shortcut for fewer than two requests agrees. */
    method Arbitrate() returns (sel: int, id: int, pri: int)
      requires Valid()
      modifies this`selected
      ensures Valid() && sel == selected
      ensures numReqs == 0 ==> sel == NONE
      ensures numReqs > 0 ==> Best(matrix, request, size, sel) && id == request[sel].id && pri == request[sel].pri
    {
      if numReqs < 2 {
        selected := lastReq;
        if numReqs == 1 {
          assert lastReq in Requests(request);
          assert forall i :: 0 <= i < size && request[i].valid ==> i in Requests(request);
        }
      } else {
        selected := NONE;
        assert exists i :: 0 <= i < size && request[i].valid by {
          var i := Pick(Requests(request));
        }
        ghost var best := BestExists(matrix, request, size, size);
        var input := 0;
        while input < size && selected == NONE
          invariant 0 <= input <= size
          invariant selected == NONE ==> input <= best && Valid()
          invariant selected != NONE ==> Best(matrix, request, size, selected) && Valid()
        {
          if request[input].valid {
            var grant := Unbeaten(input);
            if grant {
              selected := input;
            }
          }
          input := input + 1;
        }
      }
      sel, id, pri := selected, 0, 0;
      if selected != NONE {
        id, pri := request[selected].id, request[selected].pri;
      }
    }

    /** The last winner becomes the least favoured input. */
    method UpdateState()
      requires Valid()
      modifies this`matrix, this`grants
      ensures Valid()
      ensures selected == NONE ==> matrix == old(matrix) && grants == old(grants)
      ensures selected != NONE ==> MovedLast(old(matrix), size, selected, matrix) && grants == old(grants) + [selected]
    {
      hide LeastRecentFirst;
      if selected > NONE {
        ghost var was := matrix;
        var i := 0;
        while i < size
          invariant 0 <= i <= size && Square(matrix, size) && grants == old(grants)
          invariant forall x, y :: 0 <= x < size && 0 <= y < size ==> (Beats(matrix, x, y) <==>
            if x == selected && y != selected && y < i then false
            else if y == selected && x != selected && x < i then true
            else Beats(was, x, y))
        {
          if selected != i {
            ghost var before := matrix;
            matrix := matrix[selected := matrix[selected][i := 0]];
            matrix := matrix[i := matrix[i][selected := 1]];
            forall x, y | 0 <= x < size && 0 <= y < size
              ensures matrix[x][y] == if x == selected && y == i then 0 else if x == i && y == selected then 1 else before[x][y]
            {
            }
            assert forall x, y :: 0 <= x < size && 0 <= y < size && !(x == selected && y == i) && !(x == i && y == selected) ==>
              (Beats(matrix, x, y) <==> Beats(before, x, y));
          }
          i := i + 1;
        }
        MovedLastKeepsOrder(was, size, selected, matrix);
        GrantIsMostRecent(was, size, selected, matrix, grants);
        grants := grants + [selected];
      }
    }
  }

  /** One round: the order it started from, its requests and its winner. */
  datatype Round = Round(m: Matrix, req: seq<Entry>, winner: int) {
    ghost predicate Ok(n: nat) {
      TotalOrder(m, n) && |req| == n && Best(m, req, n, winner)
    }
  }

  /** x requests, with a priority no other request exceeds. */
  ghost predicate OnTop(r: Round, x: int) {
    0 <= x < |r.req| && r.req[x].valid && forall i :: 0 <= i < |r.req| && r.req[i].valid ==> r.req[i].pri <= r.req[x].pri
  }

  ghost predicate Follows(r: Round, r1: Round, n: nat, x: int) {
    MovedLast(r.m, n, r.winner, r1.m) && (r.winner != x ==> OnTop(r1, x))
  }

  /** A run in which x requests on top until it wins. */
  ghost predicate IsRun(rounds: seq<Round>, n: nat, x: int) {
    && (forall k {:trigger rounds[k]} :: 0 <= k < |rounds| ==> rounds[k].Ok(n))
    && (0 < |rounds| ==> OnTop(rounds[0], x))
    && (forall k {:trigger rounds[k]} :: 0 < k < |rounds| ==> Follows(rounds[k - 1], rounds[k], n, x))
  }

  /** A round that x does not win is won by an input that goes before x. */
  lemma WinnerBeatsLoser(r: Round, n: nat, x: int)
    requires r.Ok(n) && OnTop(r, x) && r.winner != x
    ensures r.winner in Beaters(r.m, n, x) && |Beaters(r.m, n, x)| > 0
  {
    assert !Precedes(r.m, r.req, x, r.winner);
    assert r.winner in Beaters(r.m, n, x);
  }

  /** Every lost round removes the winner from the inputs that go before x. */
  lemma FewerBeaters(r: Round, m1: Matrix, n: nat, x: int)
    requires r.Ok(n) && OnTop(r, x) && r.winner != x && MovedLast(r.m, n, r.winner, m1)
    ensures |Beaters(m1, n, x)| == |Beaters(r.m, n, x)| - 1
  {
    WinnerBeatsLoser(r, n, x);
    assert Beaters(m1, n, x) == Beaters(r.m, n, x) - {r.winner};
  }

  lemma {:induction false} LostRounds(rounds: seq<Round>, n: nat, x: int, k: nat)
    requires k < |rounds| && IsRun(rounds, n, x) && forall j :: 0 <= j < k ==> rounds[j].winner != x
    ensures rounds[k].Ok(n) && OnTop(rounds[k], x)
    ensures |Beaters(rounds[k].m, n, x)| + k == |Beaters(rounds[0].m, n, x)|
  {
    assert rounds[0].Ok(n);
    if k > 0 {
      LostRounds(rounds, n, x, k - 1);
      assert rounds[k].Ok(n) && Follows(rounds[k - 1], rounds[k], n, x);
      FewerBeaters(rounds[k - 1], rounds[k].m, n, x);
    }
  }

  /** An input that keeps requesting at the highest priority wins one of the first `size` rounds. */
  lemma NoStarvation(rounds: seq<Round>, n: nat, x: int)
    requires 0 < n <= |rounds| && IsRun(rounds, n, x)
    ensures exists k :: 0 <= k < n && rounds[k].winner == x
  {
    var r := rounds[0];
    assert r.Ok(n) && !Beats(r.m, x, x);
    BelowSize(Beaters(r.m, n, x) + {x}, n);
    if forall k :: 0 <= k < n ==> rounds[k].winner != x {
      LostRounds(rounds, n, x, n - 1);
      WinnerBeatsLoser(rounds[n - 1], n, x);
    }
  }
}
