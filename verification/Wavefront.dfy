/** The wavefront allocator: requests are granted greedily by priority class and, inside a class,
    diagonal by diagonal from a rotating first diagonal. */
module Wavefronts {
  import opened Arith
  import opened Matching
  import opened DenseAllocators

  type Class = (int, int)

  /** a is a higher class than b: output priority first, then input priority. */
  predicate Above(a: Class, b: Class) {
    a.0 > b.0 || (a.0 == b.0 && a.1 > b.1)
  }

  /** What one allocation works on. */
  datatype Scan = Scan(inputs: nat, outputs: nat, square: nat, pri: nat, req: Matrix) {
    ghost predicate Ok() {
      && 0 < square && inputs <= square && outputs <= square && pri < square
      && Sized(req, inputs, outputs)
    }

    predicate Port(e: (int, int)) {
      0 <= e.0 < inputs && 0 <= e.1 < outputs
    }

    function ClassOf(e: (int, int)): Class
      requires Sized(req, inputs, outputs) && Port(e)
    {
      (req[e.0][e.1].outPri, req[e.0][e.1].inPri)
    }

    /** The number of the diagonal e lies on, counted from the one that goes first. */
    function Diag(e: (int, int)): int
      requires 0 < square
    {
      Dist(square, pri, (e.0 + e.1) % square)
    }

    /** f comes strictly before e in the order in which requests are considered. */
    predicate Earlier(f: (int, int), e: (int, int))
      requires Sized(req, inputs, outputs) && Port(e) && Port(f) && 0 < square
    {
      Above(ClassOf(f), ClassOf(e)) || (ClassOf(f) == ClassOf(e) && Diag(f) < Diag(e))
    }

    ghost predicate Matching(inm: seq<int>, outm: seq<int>) {
      Ok() && |inm| == inputs && |outm| == outputs && IsMatching(EdgesOf(req), inm, outm)
    }

    predicate Granted(inm: seq<int>, e: (int, int)) {
      0 <= e.0 < |inm| && inm[e.0] == e.1
    }

    /** One of e's ports was given to an earlier request. */
    ghost predicate Blocked(inm: seq<int>, outm: seq<int>, e: (int, int))
      requires Matching(inm, outm) && Port(e)
    {
      || (inm[e.0] != NONE && Earlier((e.0, inm[e.0]), e))
      || (outm[e.1] != NONE && Earlier((outm[e.1], e.1), e))
    }

    /** The outcome of a full scan: a request is refused only for an earlier one. */
    ghost predicate Greedy(inm: seq<int>, outm: seq<int>) {
      && Matching(inm, outm)
      && forall e :: e in EdgesOf(req) && !Granted(inm, e) ==> Blocked(inm, outm, e)
    }

    /** d is the index sum of a grant that no other grant came before. */
    ghost predicate FirstGrant(inm: seq<int>, outm: seq<int>, d: int) {
      && Matching(inm, outm)
      && exists e :: e in EdgesOf(req) && IsFirst(inm, outm, e, d)
    }

    ghost predicate IsFirst(inm: seq<int>, outm: seq<int>, e: (int, int), d: int)
      requires Matching(inm, outm)
    {
      && Port(e) && Granted(inm, e) && d == e.0 + e.1
      && forall f :: f in EdgesOf(req) && Granted(inm, f) ==> !Earlier(f, e)
    }
  }

  /** In numbers: request f has a larger output priority than e, or the same one and at least e's input priority. */
  ghost predicate AtLeast(req: Matrix, f: (int, int), e: (int, int)) {
    && 0 <= f.0 < |req| && 0 <= f.1 < |req[f.0]| && 0 <= e.0 < |req| && 0 <= e.1 < |req[e.0]|
    && var a, b := req[f.0][f.1], req[e.0][e.1];
       a.outPri > b.outPri || (a.outPri == b.outPri && a.inPri >= b.inPri)
  }

  /** One of e's ports went to a request that AtLeast matches it. */
  ghost predicate LostToEqual(req: Matrix, inm: seq<int>, outm: seq<int>, e: (int, int))
    requires 0 <= e.0 < |inm| && 0 <= e.1 < |outm|
  {
    || (inm[e.0] != NONE && AtLeast(req, (e.0, inm[e.0]), e) && Has(req, e.0, inm[e.0]))
    || (outm[e.1] != NONE && AtLeast(req, (outm[e.1], e.1), e) && Has(req, outm[e.1], e.1))
  }

  /** Every request is granted or lost a port to one of no lower priority. */
  ghost predicate ByPriority(req: Matrix, inm: seq<int>, outm: seq<int>) {
    forall i, j :: 0 <= i < |req| && 0 <= j < |req[i]| && Has(req, i, j) ==>
      i < |inm| && j < |outm| && (inm[i] == j || LostToEqual(req, inm, outm, (i, j)))
  }

  lemma SameMatches(s: Scan, inm: seq<int>, outm: seq<int>, inm1: seq<int>, outm1: seq<int>)
    requires s.Matching(inm, outm) && s.Matching(inm1, outm1)
    requires forall e :: e in EdgesOf(s.req) ==> (s.Granted(inm, e) <==> s.Granted(inm1, e))
    ensures inm == inm1 && outm == outm1
  {
    forall i | 0 <= i < s.inputs
      ensures inm[i] == inm1[i]
    {
      assert inm[i] != NONE ==> s.Granted(inm, (i, inm[i]));
      assert inm1[i] != NONE ==> s.Granted(inm1, (i, inm1[i]));
    }
    forall j | 0 <= j < s.outputs
      ensures outm[j] == outm1[j]
    {
      assert outm[j] != NONE ==> inm[outm[j]] == j;
      assert outm1[j] != NONE ==> inm1[outm1[j]] == j;
    }
  }

  /** How many requests come before e. */
  ghost function EarlierSet(s: Scan, e: (int, int)): Edges
    requires s.Ok() && s.Port(e)
  {
    set f | f in EdgesOf(s.req) && s.Port(f) && s.Earlier(f, e)
  }

  lemma SmallerSet(a: Edges, b: Edges, x: (int, int))
    requires a <= b && x in b && x !in a
    ensures |a| < |b|
  {
    assert b == a + (b - a);
    assert x in b - a;
  }

  lemma {:induction false} SameGrant(s: Scan, inm: seq<int>, outm: seq<int>, inm1: seq<int>, outm1: seq<int>, e: (int, int))
    requires s.Greedy(inm, outm) && s.Greedy(inm1, outm1) && e in EdgesOf(s.req) && s.Granted(inm, e)
    ensures s.Granted(inm1, e)
    decreases |EarlierSet(s, e)|
  {
    if !s.Granted(inm1, e) {
      assert s.Blocked(inm1, outm1, e);
      var f := if inm1[e.0] != NONE && s.Earlier((e.0, inm1[e.0]), e) then (e.0, inm1[e.0]) else (outm1[e.1], e.1);
      assert s.Earlier(f, e) && f in EdgesOf(s.req) && s.Granted(inm1, f) && f != e;
      assert f in EarlierSet(s, e) && f !in EarlierSet(s, f);
      SmallerSet(EarlierSet(s, f), EarlierSet(s, e), f);
      SameGrant(s, inm1, outm1, inm, outm, f);
    }
  }

  /** Two greedy outcomes of one request matrix are the same matching. */
  lemma GreedyIsUnique(s: Scan, inm: seq<int>, outm: seq<int>, inm1: seq<int>, outm1: seq<int>)
    requires s.Greedy(inm, outm) && s.Greedy(inm1, outm1)
    ensures inm == inm1 && outm == outm1
  {
    forall e | e in EdgesOf(s.req)
      ensures s.Granted(inm, e) <==> s.Granted(inm1, e)
    {
      if s.Granted(inm, e) {
        SameGrant(s, inm, outm, inm1, outm1, e);
      }
      if s.Granted(inm1, e) {
        SameGrant(s, inm1, outm1, inm, outm, e);
      }
    }
    SameMatches(s, inm, outm, inm1, outm1);
  }

  /** Diag without division. */
  function DiagLinear(n: nat, pri: nat, x: int, y: int): int {
    Dist(n, pri, if x + y < n then x + y else x + y - n)
  }

  lemma DiagIsLinear(s: Scan, e: (int, int))
    requires s.Ok() && s.Port(e)
    ensures s.Diag(e) == DiagLinear(s.square, s.pri, e.0, e.1) && 0 <= s.Diag(e) < s.square
  {
    WrapMod(e.0 + e.1, s.square);
  }

  lemma WrapTwice(v: nat, n: nat)
    requires v < 3 * n
    ensures v % n == if v < n then v else if v < 2 * n then v - n else v - 2 * n
  {
    if v < n {
      DivModUnique(v, n, 0, v);
    } else if v < 2 * n {
      DivModUnique(v, n, 1, v - n);
    } else {
      DivModUnique(v, n, 2, v - 2 * n);
    }
  }

  /** The row computed for column `output` is the one in which diagonal number p meets that column. */
  lemma DiagonalCell(n: nat, pri: nat, p: nat, output: nat, v: nat, input: int)
    requires pri < n && p < n && output < n && v == (pri + p) + (n - output)
    requires input == if v < n then v else if v < 2 * n then v - n else v - 2 * n
    ensures 0 <= input < n && DiagLinear(n, pri, input, output) == p
    ensures forall x {:trigger DiagLinear(n, pri, x, output)} ::
              0 <= x < n && DiagLinear(n, pri, x, output) == p ==> x == input
  {
  }

  /** Where the scan stands: classes still to come, the current class, diagonal and column. */
  datatype Cursor = Cursor(rest: set<Class>, cur: Class, diag: int, column: int) {
    ghost predicate Passed(s: Scan, e: (int, int))
      requires s.Ok() && s.Port(e)
    {
      && s.ClassOf(e) !in rest
      && (s.ClassOf(e) != cur || s.Diag(e) < diag || (s.Diag(e) == diag && e.1 < column))
    }
  }

  /** The scan invariant: only passed requests are granted, and a passed request that was refused is
      blocked by an earlier one. */
  ghost predicate Progress(s: Scan, k: Cursor, inm: seq<int>, outm: seq<int>, fd: int) {
    && s.Matching(inm, outm)
    && (forall r :: r in k.rest ==> Above(k.cur, r))
    && (forall e :: e in EdgesOf(s.req) && k.Passed(s, e) && s.ClassOf(e) != k.cur ==> Above(s.ClassOf(e), k.cur))
    && (forall e :: e in EdgesOf(s.req) && s.Granted(inm, e) ==> k.Passed(s, e))
    && (forall e :: e in EdgesOf(s.req) && k.Passed(s, e) && !s.Granted(inm, e) ==> s.Blocked(inm, outm, e))
    && (fd == NONE ==> forall e :: e in EdgesOf(s.req) ==> !s.Granted(inm, e))
    && (fd != NONE ==> 0 <= fd && s.FirstGrant(inm, outm, fd))
  }

  /** No cell but e lies in the current column on the current diagonal (and e does when it is a cell). */
  ghost predicate AtCursor(s: Scan, k: Cursor, e: (int, int)) {
    && s.Ok() && 0 <= k.column && e.1 == k.column && (s.Port(e) ==> s.Diag(e) == k.diag)
    && forall f :: s.Port(f) && f.1 == k.column && s.Diag(f) == k.diag ==> f == e
  }

  lemma CellAtCursor(s: Scan, k: Cursor, input: int)
    requires s.Ok() && 0 <= k.diag < s.square && 0 <= k.column < s.square
    requires input == ((s.pri + k.diag) + (s.square - k.column)) % s.square
    ensures 0 <= input && AtCursor(s, k, (input, k.column))
  {
    var v := (s.pri + k.diag) + (s.square - k.column);
    WrapTwice(v, s.square);
    DiagonalCell(s.square, s.pri, k.diag, k.column, v, input);
    var e := (input, k.column);
    if s.Port(e) {
      DiagIsLinear(s, e);
    }
    forall f | s.Port(f) && f.1 == k.column && s.Diag(f) == k.diag
      ensures f == e
    {
      DiagIsLinear(s, f);
    }
  }

  /** A grant that shares a port with the cell under the cursor lies on an earlier diagonal or in a higher class. */
  lemma ClashIsEarlier(s: Scan, k: Cursor, e: (int, int), f: (int, int))
    requires AtCursor(s, k, e) && s.Port(e) && s.Port(f) && (e.0 == f.0 || e.1 == f.1)
    requires s.ClassOf(e) == k.cur && k.Passed(s, f) && (s.ClassOf(f) != k.cur ==> Above(s.ClassOf(f), k.cur))
    ensures s.Earlier(f, e)
  {
    DiagIsLinear(s, e);
    DiagIsLinear(s, f);
  }

  /** The cell under the cursor is not granted. */
  lemma RefuseStep(s: Scan, k: Cursor, inm: seq<int>, outm: seq<int>, fd: int, e: (int, int))
    requires Progress(s, k, inm, outm, fd) && AtCursor(s, k, e)
    requires s.Port(e) && e in EdgesOf(s.req) && s.ClassOf(e) == k.cur ==> inm[e.0] != NONE || outm[e.1] != NONE
    ensures Progress(s, k.(column := k.column + 1), inm, outm, fd)
  {
    var k1 := k.(column := k.column + 1);
    forall f | f in EdgesOf(s.req)
      ensures k1.Passed(s, f) ==> k.Passed(s, f) || f == e
      ensures k.Passed(s, f) ==> k1.Passed(s, f)
    {
    }
    if s.Port(e) && e in EdgesOf(s.req) && k1.Passed(s, e) && !k.Passed(s, e) {
      if inm[e.0] != NONE {
        assert s.Granted(inm, (e.0, inm[e.0]));
        ClashIsEarlier(s, k, e, (e.0, inm[e.0]));
      } else {
        assert s.Granted(inm, (outm[e.1], e.1));
        ClashIsEarlier(s, k, e, (outm[e.1], e.1));
      }
      assert s.Blocked(inm, outm, e);
    }
  }

  lemma GrantStep(s: Scan, k: Cursor, inm: seq<int>, outm: seq<int>, fd: int, e: (int, int))
    requires Progress(s, k, inm, outm, fd) && AtCursor(s, k, e) && s.Port(e)
    requires e in EdgesOf(s.req) && s.ClassOf(e) == k.cur && k.cur !in k.rest
    requires inm[e.0] == NONE && outm[e.1] == NONE
    ensures Progress(s, k.(column := k.column + 1), inm[e.0 := e.1], outm[e.1 := e.0], if fd == NONE then e.0 + e.1 else fd)
  {
    var k1, inm1, outm1 := k.(column := k.column + 1), inm[e.0 := e.1], outm[e.1 := e.0];
    forall f | f in EdgesOf(s.req)
      ensures s.Granted(inm1, f) <==> s.Granted(inm, f) || f == e
    {
    }
    forall f | f in EdgesOf(s.req) && k1.Passed(s, f)
      ensures k.Passed(s, f) || f == e
    {
    }
    if fd == NONE {
      assert s.IsFirst(inm1, outm1, e, e.0 + e.1);
    } else {
      var f :| f in EdgesOf(s.req) && s.IsFirst(inm, outm, f, fd);
      assert k.Passed(s, f);
      assert !s.Earlier(e, f);
      assert s.IsFirst(inm1, outm1, f, fd);
    }
  }

  lemma NextDiagonal(s: Scan, k: Cursor, inm: seq<int>, outm: seq<int>, fd: int)
    requires Progress(s, k, inm, outm, fd) && k.column == s.square
    ensures Progress(s, k.(diag := k.diag + 1, column := 0), inm, outm, fd)
  {
    var k1 := k.(diag := k.diag + 1, column := 0);
    forall f | f in EdgesOf(s.req)
      ensures k1.Passed(s, f) <==> k.Passed(s, f)
    {
    }
  }

  /** Between two classes: everything outside `rest` has been considered. */
  ghost predicate BetweenClasses(s: Scan, rest: set<Class>, inm: seq<int>, outm: seq<int>, fd: int) {
    && s.Matching(inm, outm)
    && (forall e, r :: e in EdgesOf(s.req) && r in rest && s.ClassOf(e) !in rest ==> Above(s.ClassOf(e), r))
    && (forall e :: e in EdgesOf(s.req) && s.Granted(inm, e) ==> s.ClassOf(e) !in rest)
    && (forall e :: e in EdgesOf(s.req) && s.ClassOf(e) !in rest && !s.Granted(inm, e) ==> s.Blocked(inm, outm, e))
    && (fd == NONE ==> forall e :: e in EdgesOf(s.req) ==> !s.Granted(inm, e))
    && (fd != NONE ==> 0 <= fd && s.FirstGrant(inm, outm, fd))
  }

  lemma EnterClass(s: Scan, rest: set<Class>, c: Class, inm: seq<int>, outm: seq<int>, fd: int)
    requires BetweenClasses(s, rest, inm, outm, fd) && c in rest && forall r :: r in rest && r != c ==> Above(c, r)
    ensures Progress(s, Cursor(rest - {c}, c, 0, 0), inm, outm, fd)
  {
    var k := Cursor(rest - {c}, c, 0, 0);
    forall e | e in EdgesOf(s.req)
      ensures k.Passed(s, e) <==> s.ClassOf(e) !in rest
    {
      DiagIsLinear(s, e);
    }
  }

  lemma LeaveClass(s: Scan, k: Cursor, inm: seq<int>, outm: seq<int>, fd: int)
    requires Progress(s, k, inm, outm, fd) && k.diag == s.square && k.cur !in k.rest
    ensures BetweenClasses(s, k.rest, inm, outm, fd)
  {
    forall e | e in EdgesOf(s.req)
      ensures k.Passed(s, e) <==> s.ClassOf(e) !in k.rest
    {
      DiagIsLinear(s, e);
    }
  }

  /** The priority classes that occur among the requests. */
  ghost function ClassesOf(s: Scan): set<Class>
    requires s.Ok()
  {
    set e | e in EdgesOf(s.req) && s.Port(e) :: s.ClassOf(e)
  }

  /** Nothing is granted yet. */
  ghost predicate Fresh(s: Scan, inm: seq<int>, outm: seq<int>) {
    s.Ok() && |inm| == s.inputs && |outm| == s.outputs && Inverse(inm, outm) && Pairs(inm) == {}
  }

  lemma NothingScanned(s: Scan, classes: set<Class>, inm: seq<int>, outm: seq<int>)
    requires Fresh(s, inm, outm) && ClassesOf(s) <= classes
    ensures BetweenClasses(s, classes, inm, outm, NONE)
  {
    NothingMatched(inm, outm);
  }

  /** A scan of all classes is greedy, and grants something when there is a request. */
  lemma AllScanned(s: Scan, inm: seq<int>, outm: seq<int>, fd: int)
    requires BetweenClasses(s, {}, inm, outm, fd)
    ensures s.Greedy(inm, outm) && (EdgesOf(s.req) != {} ==> 0 <= fd && s.FirstGrant(inm, outm, fd))
    ensures EdgesOf(s.req) == {} ==> fd == NONE
  {
    if EdgesOf(s.req) != {} {
      var e := Pick(EdgesOf(s.req));
      assert s.Granted(inm, e) || s.Blocked(inm, outm, e);
      assert inm[e.0] != NONE ==> s.Granted(inm, (e.0, inm[e.0]));
      assert outm[e.1] != NONE ==> s.Granted(inm, (outm[e.1], e.1));
    }
  }

  /** The single-request shortcut is what a full scan does. */
  lemma SingleGrant(s: Scan, inm: seq<int>, outm: seq<int>, e: (int, int))
    requires Fresh(s, inm, outm) && EdgesOf(s.req) == {e}
    ensures s.Port(e) && s.Greedy(inm[e.0 := e.1], outm[e.1 := e.0])
    ensures s.FirstGrant(inm[e.0 := e.1], outm[e.1 := e.0], e.0 + e.1)
  {
    assert e in EdgesOf(s.req);
    NothingMatched(inm, outm);
    var inm1, outm1 := inm[e.0 := e.1], outm[e.1 := e.0];
    assert s.Matching(inm1, outm1);
    assert s.IsFirst(inm1, outm1, e, e.0 + e.1);
  }

  lemma {:induction false} HighestClass(rest: set<Class>) returns (c: Class)
    requires rest != {}
    ensures c in rest && forall r :: r in rest && r != c ==> Above(c, r)
    decreases |rest|
  {
    var x := Pick(rest);
    var others := rest - {x};
    if others == {} {
      assert rest == {x};
      c := x;
    } else {
      var y := HighestClass(others);
      c := if Above(x, y) then x else y;
      forall r | r in rest && r != c
        ensures Above(c, r)
      {
        assert r == x || r == y || (r in others && Above(y, r));
      }
    }
  }

  lemma MatchingIsValid(s: Scan, k: Cursor, alloc: DenseAllocator, fd: int)
    requires Progress(s, k, alloc.inmatch, alloc.outmatch, fd) && s.req == alloc.request
    requires s.inputs == alloc.inputs && s.outputs == alloc.outputs && (!alloc.dirty ==> EdgesOf(alloc.request) == {})
    ensures alloc.Valid()
  {
  }

  lemma GreedyIsValid(s: Scan, alloc: DenseAllocator)
    requires s.Greedy(alloc.inmatch, alloc.outmatch) && s.req == alloc.request
    requires s.inputs == alloc.inputs && s.outputs == alloc.outputs && (!alloc.dirty ==> EdgesOf(alloc.request) == {})
    ensures alloc.Valid()
  {
  }

  lemma BetweenIsValid(s: Scan, rest: set<Class>, alloc: DenseAllocator, fd: int)
    requires BetweenClasses(s, rest, alloc.inmatch, alloc.outmatch, fd) && s.req == alloc.request
    requires s.inputs == alloc.inputs && s.outputs == alloc.outputs && (!alloc.dirty ==> EdgesOf(alloc.request) == {})
    ensures alloc.Valid()
  {
  }

  lemma MatchedShape(s: Scan, k: Cursor, inm: seq<int>, outm: seq<int>, fd: int)
    requires Progress(s, k, inm, outm, fd)
    ensures |inm| == s.inputs && |outm| == s.outputs && s.Ok() && (fd < 0 ==> fd == NONE)
  {
  }

  lemma AddClass(s: Scan, s1: Scan, i: int, j: int)
    requires s.Ok() && s1.Ok() && s1.inputs == s.inputs && s1.outputs == s.outputs && s.Port((i, j))
    requires s1.req == s.req[i := s.req[i][j := s1.req[i][j]]] && !Has(s.req, i, j)
    requires EdgesOf(s1.req) == EdgesOf(s.req) + {(i, j)}
    ensures ClassesOf(s1) == ClassesOf(s) + {s1.ClassOf((i, j))}
  {
    assert (i, j) in EdgesOf(s1.req) && (i, j) !in EdgesOf(s.req);
    forall e | e in EdgesOf(s.req)
      ensures e in EdgesOf(s1.req) && s.Port(e) && s1.ClassOf(e) == s.ClassOf(e)
    {
    }
    forall c | c in ClassesOf(s)
      ensures c in ClassesOf(s1)
    {
      var e :| e in EdgesOf(s.req) && s.Port(e) && c == s.ClassOf(e);
      assert s1.Port(e) && s1.ClassOf(e) == c;
    }
  }

  /** One round: the scan it ran, the grants, and the index sum of its first grant. */
  datatype Round = Round(scan: Scan, inm: seq<int>, outm: seq<int>, fd: int) {
    ghost predicate Ok() {
      scan.Greedy(inm, outm) && 0 <= fd && scan.FirstGrant(inm, outm, fd)
    }
  }

  /** e is requested, and no request has a higher class. */
  ghost predicate OnTop(r: Round, e: (int, int)) {
    && r.scan.Ok() && e in EdgesOf(r.scan.req)
    && forall f :: f in EdgesOf(r.scan.req) ==> AtLeast(r.scan.req, e, f)
  }

  lemma OnTopIsOk(r: Round, e: (int, int))
    requires OnTop(r, e)
    ensures r.scan.Ok() && e in EdgesOf(r.scan.req)
  {
  }

  /** The next round has the rotated first diagonal, and e is requested on top again unless it was granted. */
  ghost predicate Follows(skip: bool, r: Round, r1: Round, e: (int, int)) {
    && r.Ok() && r1.Ok()
    && r1.scan.inputs == r.scan.inputs && r1.scan.outputs == r.scan.outputs && r1.scan.square == r.scan.square
    && r1.scan.pri == ((if skip then r.fd else r.scan.pri) + 1) % r.scan.square
    && (!r.scan.Granted(r.inm, e) ==> OnTop(r1, e))
  }

  /** An ungranted request on top lost to one on an earlier diagonal, and the first grant lies no later than that. */
  lemma LostToEarlierDiagonal(r: Round, e: (int, int))
    requires r.Ok() && OnTop(r, e) && !r.scan.Granted(r.inm, e)
    ensures Dist(r.scan.square, r.scan.pri, r.fd % r.scan.square) < r.scan.Diag(e)
    ensures 0 <= r.fd % r.scan.square < r.scan.square && 0 <= Dist(r.scan.square, r.scan.pri, r.fd % r.scan.square)
  {
    var s := r.scan;
    assert s.Blocked(r.inm, r.outm, e);
    var f := if r.inm[e.0] != NONE && s.Earlier((e.0, r.inm[e.0]), e) then (e.0, r.inm[e.0]) else (r.outm[e.1], e.1);
    assert f in EdgesOf(s.req) && s.Granted(r.inm, f) && s.Earlier(f, e);
    var g :| g in EdgesOf(s.req) && s.IsFirst(r.inm, r.outm, g, r.fd);
    assert !s.Earlier(f, g) && !Above(s.ClassOf(g), s.ClassOf(e));
    assert s.Diag(g) <= s.Diag(f) < s.Diag(e);
    DiagIsLinear(s, g);
  }

  lemma NextModulo(a: nat, n: nat)
    requires 0 < n
    ensures (a + 1) % n == (a % n + 1) % n
  {
    WrapMod(a % n + 1, n);
    assert a == (a / n) * n + a % n;
    if a % n + 1 < n {
      DivModUnique(a + 1, n, a / n, a % n + 1);
    } else {
      assert (a / n + 1) * n == (a / n) * n + n;
      DivModUnique(a + 1, n, a / n + 1, 0);
    }
  }

  lemma DiagFalls(skip: bool, r: Round, r1: Round, e: (int, int))
    requires Follows(skip, r, r1, e) && OnTop(r, e) && !r.scan.Granted(r.inm, e)
    ensures 0 <= r1.scan.Diag(e) < r.scan.Diag(e)
  {
    LostToEarlierDiagonal(r, e);
    DiagIsLinear(r.scan, e);
    DiagIsLinear(r1.scan, e);
    var n := r.scan.square;
    var from := if skip then r.fd % n else r.scan.pri;
    NextModulo(if skip then r.fd else r.scan.pri, n);
    WrapMod(r.scan.pri, n);
    WrapMod(from + 1, n);
  }

  lemma {:induction false} StillOnTop(skip: bool, rounds: seq<Round>, e: (int, int), k: nat)
    requires k < |rounds| && rounds[0].Ok() && OnTop(rounds[0], e)
    requires forall n {:trigger rounds[n]} :: 0 < n < |rounds| ==> Follows(skip, rounds[n - 1], rounds[n], e)
    requires forall n :: 0 <= n < k ==> !rounds[n].scan.Granted(rounds[n].inm, e)
    ensures OnTop(rounds[k], e) && rounds[k].Ok() && rounds[k].scan.Diag(e) + k <= rounds[0].scan.Diag(e)
    ensures rounds[k].scan.square == rounds[0].scan.square
  {
    hide OnTop, Scan.Greedy, Scan.FirstGrant, Scan.Diag;
    if k > 0 {
      StillOnTop(skip, rounds, e, k - 1);
      DiagFalls(skip, rounds[k - 1], rounds[k], e);
    }
  }

  /** In both diagonal modes a request that is posted again until granted, always in the highest class
      present, is granted in one of the first `square` rounds. */
  lemma NoStarvation(skip: bool, rounds: seq<Round>, e: (int, int))
    requires 0 < |rounds| && rounds[0].Ok() && OnTop(rounds[0], e) && |rounds| >= rounds[0].scan.square
    requires forall n {:trigger rounds[n]} :: 0 < n < |rounds| ==> Follows(skip, rounds[n - 1], rounds[n], e)
    ensures exists n :: 0 <= n < rounds[0].scan.square && rounds[n].scan.Granted(rounds[n].inm, e)
  {
    hide OnTop, Scan.Greedy, Scan.FirstGrant, Scan.Diag;
    OnTopIsOk(rounds[0], e);
    var n := rounds[0].scan.square;
    if forall k :: 0 <= k < n ==> !rounds[k].scan.Granted(rounds[k].inm, e) {
      StillOnTop(skip, rounds, e, n - 1);
      DiagIsLinear(rounds[0].scan, e);
      LostToEarlierDiagonal(rounds[n - 1], e);
      assert false;
    }
  }

  /** What the allocation means for a request that is turned down: a port of it went to a request of
      the same or a higher class. */
  lemma RefusedForHigherOrEqual(s: Scan, inm: seq<int>, outm: seq<int>, e: (int, int))
    requires s.Greedy(inm, outm) && e in EdgesOf(s.req) && !s.Granted(inm, e)
    ensures s.Port(e) && |inm| == s.inputs && |outm| == s.outputs && LostToEqual(s.req, inm, outm, e)
  {
    assert s.Blocked(inm, outm, e);
  }

  lemma NotAnEdge(s: Scan, i: int, j: int)
    requires s.Ok() && s.Port((i, j)) && !Has(s.req, i, j)
    ensures (i, j) !in EdgesOf(s.req) && |EdgesOf(s.req) + {(i, j)}| == |EdgesOf(s.req)| + 1
  {
  }

  lemma OnlyOne(edges: Edges, e: (int, int))
    requires |edges| <= 1 && e in edges
    ensures edges == {e}
  {
    assert |edges - {e}| == 0;
  }

  /** Only requests are granted, and the others were refused for requests of the same or a higher class. */
  lemma GreedyGrants(s: Scan, inm: seq<int>, outm: seq<int>)
    requires s.Greedy(inm, outm)
    ensures Pairs(inm) <= EdgesOf(s.req) && |inm| == s.inputs && |outm| == s.outputs
    ensures ByPriority(s.req, inm, outm)
  {
    hide LostToEqual;
    forall i, j | 0 <= i < s.inputs && 0 <= j < s.outputs && Has(s.req, i, j) && inm[i] != j
      ensures LostToEqual(s.req, inm, outm, (i, j))
    {
      assert (i, j) in EdgesOf(s.req);
      RefusedForHigherOrEqual(s, inm, outm, (i, j));
    }
  }

  class Wavefront {
    const alloc: DenseAllocator
    const skipDiags: bool
    const square: nat
    var pri: nat
    var numRequests: nat
    var lastIn: int
    var lastOut: int
    var priorities: set<Class>

    ghost function S(): Scan
      reads this, alloc
    {
      Scan(alloc.inputs, alloc.outputs, square, pri, alloc.request)
    }

    ghost predicate Valid()
      reads this, alloc
    {
      alloc.Valid() && square == Max(alloc.inputs, alloc.outputs) && 0 < square && pri < square
    }

    /** Nothing is granted yet and the class set covers the requests. */
    ghost predicate Posted()
      reads this, alloc
    {
      Valid() && S().Ok() && Pairs(alloc.inmatch) == {} && ClassesOf(S()) <= priorities
    }

    /** Requests are being posted, and the counters tell of at least these; the last one counted is one of them, if there
        are any. */
    ghost predicate Counting()
      reads this, alloc
    {
      && Posted() && |EdgesOf(alloc.request)| <= numRequests
      && (numRequests == 0 ==> priorities == {}) && (numRequests > 0 ==> S().Port((lastIn, lastOut)))
      && (EdgesOf(alloc.request) != {} ==> (lastIn, lastOut) in EdgesOf(alloc.request))
    }

    /** The counters tell of the requests only, as they do when every request since the last allocation is still there. */
    ghost predicate Collecting()
      reads this, alloc
    {
      Counting() && priorities == ClassesOf(S()) && numRequests == |EdgesOf(alloc.request)|
    }

    /** One request is counted, and it was cleared. */
    ghost predicate Alone()
      reads this, alloc
    {
      numRequests == 1 && EdgesOf(alloc.request) == {}
    }

    constructor (inputs: nat, outputs: nat, skipDiags: bool)
      requires 0 < inputs || 0 < outputs
      ensures Collecting() && fresh(alloc) && this.skipDiags == skipDiags
      ensures alloc.inputs == inputs && alloc.outputs == outputs && numRequests == 0
    {
      alloc := new DenseAllocator(inputs, outputs);
      this.skipDiags := skipDiags;
      square := Max(inputs, outputs);
      pri, numRequests, lastIn, lastOut, priorities := 0, 0, NONE, NONE, {};
    }

    /** Clearing does not reset the counters: the allocator is ready for new requests exactly when they are zero, as they
        are after an allocation. */
    method Clear()
      requires Valid()
      modifies alloc
      ensures Posted() && EdgesOf(alloc.request) == {}
      ensures old(Counting()) || (numRequests == 0 && priorities == {}) ==> Counting()
      ensures Collecting() <==> numRequests == 0 && priorities == {}
    {
      alloc.Clear();
      assert ClassesOf(S()) == {};
    }

    method AddRequest(i: int, j: int, tag: int, inPri: int, outPri: int)
      requires Counting()
      requires 0 <= i < alloc.inputs && 0 <= j < alloc.outputs && 0 <= tag && !Has(alloc.request, i, j)
      modifies this, alloc
      ensures Counting() && pri == old(pri) && numRequests == old(numRequests) + 1
      ensures old(Collecting()) ==> Collecting()
      ensures EdgesOf(alloc.request) == old(EdgesOf(alloc.request)) + {(i, j)}
      ensures alloc.request == old(alloc.request)[i := old(alloc.request)[i][j := Request(tag, inPri, outPri)]]
    {
      hide Inverse, ClassesOf, EdgesOf, Pairs, DenseAllocator.Valid;
      ghost var s := S();
      NotAnEdge(s, i, j);
      alloc.AddRequest(i, j, tag, inPri, outPri);
      numRequests := numRequests + 1;
      lastIn, lastOut := i, j;
      priorities := priorities + {(outPri, inPri)};
      AddClass(s, S(), i, j);
    }

    method ScanDiagonal(ghost s: Scan, ghost k: Cursor, p: nat, c: Class, first: int) returns (fd: int)
      requires s == S() && Valid() && p < square && k == Cursor(k.rest, c, p, 0) && c !in k.rest
      requires Progress(s, k, alloc.inmatch, alloc.outmatch, first)
      modifies alloc`inmatch, alloc`outmatch
      ensures Progress(s, k.(diag := p + 1), alloc.inmatch, alloc.outmatch, fd)
    {
      hide Progress, AtCursor, Inverse;
      fd := first;
      var output := 0;
      MatchedShape(s, k, alloc.inmatch, alloc.outmatch, fd);
      while output < square
        invariant 0 <= output <= square && |alloc.inmatch| == alloc.inputs && |alloc.outmatch| == alloc.outputs
        invariant Progress(s, k.(column := output), alloc.inmatch, alloc.outmatch, fd)
      {
        var input := ((pri + p) + (square - output)) % square;
        ghost var k1 := k.(column := output);
        MatchedShape(s, k1, alloc.inmatch, alloc.outmatch, fd);
        CellAtCursor(s, k1, input);
        if input < alloc.inputs && output < alloc.outputs
           && alloc.inmatch[input] == NONE && alloc.outmatch[output] == NONE
           && Has(alloc.request, input, output)
           && alloc.request[input][output].inPri == c.1
           && alloc.request[input][output].outPri == c.0 {
          GrantStep(s, k1, alloc.inmatch, alloc.outmatch, fd, (input, output));
          alloc.inmatch := alloc.inmatch[input := output];
          alloc.outmatch := alloc.outmatch[output := input];
          if fd < 0 {
            fd := input + output;
          }
        } else {
          RefuseStep(s, k1, alloc.inmatch, alloc.outmatch, fd, (input, output));
        }
        output := output + 1;
      }
      NextDiagonal(s, k.(column := square), alloc.inmatch, alloc.outmatch, fd);
    }

    /** All diagonals for one priority class. */
    method ScanClass(ghost s: Scan, ghost rest: set<Class>, c: Class, first: int) returns (fd: int)
      requires s == S() && Valid() && c in rest && forall r :: r in rest && r != c ==> Above(c, r)
      requires BetweenClasses(s, rest, alloc.inmatch, alloc.outmatch, first)
      modifies alloc`inmatch, alloc`outmatch
      ensures BetweenClasses(s, rest - {c}, alloc.inmatch, alloc.outmatch, fd)
    {
      hide Progress, BetweenClasses, Inverse;
      fd := first;
      ghost var k := Cursor(rest - {c}, c, 0, 0);
      EnterClass(s, rest, c, alloc.inmatch, alloc.outmatch, fd);
      var p := 0;
      while p < square
        invariant 0 <= p <= square && Valid() && s == S()
        invariant Progress(s, k.(diag := p), alloc.inmatch, alloc.outmatch, fd)
      {
        fd := ScanDiagonal(s, k.(diag := p), p, c, fd);
        MatchingIsValid(s, k.(diag := p + 1), alloc, fd);
        p := p + 1;
      }
      LeaveClass(s, k.(diag := square), alloc.inmatch, alloc.outmatch, fd);
    }

    /** The scan over all classes, highest first. */
    method FullScan() returns (fd: int)
      requires Posted()
      modifies alloc`inmatch, alloc`outmatch
      ensures alloc.Valid() && S().Greedy(alloc.inmatch, alloc.outmatch)
      ensures EdgesOf(alloc.request) == {} ==> fd == NONE
      ensures EdgesOf(alloc.request) != {} ==> 0 <= fd && S().FirstGrant(alloc.inmatch, alloc.outmatch, fd)
    {
      fd := NONE;
      var rest := priorities;
      ghost var s := S();
      NothingScanned(s, rest, alloc.inmatch, alloc.outmatch);
      while rest != {}
        invariant Valid() && s == S() && BetweenClasses(s, rest, alloc.inmatch, alloc.outmatch, fd)
        decreases |rest|
      {
        ghost var h := HighestClass(rest);
        var c :| c in rest && forall r :: r in rest && r != c ==> Above(c, r);
        fd := ScanClass(s, rest, c, fd);
        BetweenIsValid(s, rest - {c}, alloc, fd);
        rest := rest - {c};
      }
      AllScanned(s, alloc.inmatch, alloc.outmatch, fd);
    }

    /** An allocation: the outcome is the greedy one whether or not the shortcut for a single request is
        taken, and the first diagonal moves on.  Only a cleared request that is counted alone is granted by the shortcut
        all the same.  The assertion on the first diagonal fails exactly when several are counted and none is left. */
    method Allocate() returns (ok: bool, ghost fd: int)
      requires Counting()
      modifies this`pri, this`numRequests, this`lastIn, this`lastOut, this`priorities, alloc`inmatch, alloc`outmatch
      ensures ok <==> old(numRequests) <= 1 || EdgesOf(alloc.request) != {}
      ensures numRequests == 0 && priorities == {} && |alloc.inmatch| == alloc.inputs
      ensures Pairs(alloc.inmatch) <= EdgesOf(alloc.request) <==> !old(Alone())
      ensures !old(Alone()) ==> Valid() && old(S()).Greedy(alloc.inmatch, alloc.outmatch)
      ensures !old(Alone()) ==> ByPriority(alloc.request, alloc.inmatch, alloc.outmatch)
      ensures !old(Alone()) && EdgesOf(alloc.request) == {} ==> pri == old(pri)
      ensures EdgesOf(alloc.request) != {} ==>
        && 0 <= fd && old(S()).FirstGrant(alloc.inmatch, alloc.outmatch, fd)
        && pri == ((if skipDiags then fd else old(pri)) + 1) % square
      ensures old(Alone()) ==>
        alloc.inmatch == old(alloc.inmatch)[old(lastIn) := old(lastOut)] && alloc.outmatch == old(alloc.outmatch)[old(lastOut) := old(lastIn)]
    {
      hide Inverse, Scan.Greedy, Scan.FirstGrant, ByPriority;
      ghost var s, alone := S(), Alone();
      fd := NONE;
      ok := true;
      if numRequests == 0 {
        NothingScanned(s, ClassesOf(s), alloc.inmatch, alloc.outmatch);
        assert EdgesOf(alloc.request) == {} && ClassesOf(s) == {};
        AllScanned(s, alloc.inmatch, alloc.outmatch, NONE);
        GreedyGrants(s, alloc.inmatch, alloc.outmatch);
        return;
      }
      var firstDiag := NONE;
      if numRequests == 1 {
        if !alone {
          OnlyOne(EdgesOf(alloc.request), (lastIn, lastOut));
          SingleGrant(s, alloc.inmatch, alloc.outmatch, (lastIn, lastOut));
        }
        alloc.inmatch := alloc.inmatch[lastIn := lastOut];
        alloc.outmatch := alloc.outmatch[lastOut := lastIn];
        firstDiag := lastIn + lastOut;
        assert alloc.inmatch[lastIn] == lastOut;
        assert (lastIn, lastOut) in Pairs(alloc.inmatch);
        if !alone {
          GreedyIsValid(s, alloc);
        }
      } else {
        firstDiag := FullScan();
      }
      if !alone {
        GreedyGrants(s, alloc.inmatch, alloc.outmatch);
      }
      numRequests, lastIn, lastOut, priorities := 0, NONE, NONE, {};
      if firstDiag < 0 {
        return false, fd;
      }
      fd := firstDiag;
      pri := ((if skipDiags then firstDiag else pri) + 1) % square;
    }
  }

  /** A request that is posted and withdrawn by clearing is granted by the next allocation. */
  method ClearedRequestIsGranted(inputs: nat, outputs: nat, i: nat, j: nat) returns (w: Wavefront)
    requires i < inputs && j < outputs
    ensures EdgesOf(w.alloc.request) == {} && |w.alloc.inmatch| == inputs && w.alloc.inmatch[i] == j
  {
    w := new Wavefront(inputs, outputs, false);
    assert EdgesOf(w.alloc.request) == {} && (i, j) !in EdgesOf(w.alloc.request);
    w.AddRequest(i, j, 0, 0, 0);
    assert EdgesOf(w.alloc.request) == {(i, j)};
    w.Clear();
    ghost var fd;
    var ok;
    ok, fd := w.Allocate();
  }
}
