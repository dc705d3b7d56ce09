/** Maximum-size matching by shortest augmenting paths.

The breadth-first search alternates request edges and matched edges.  `from[j]` records the
input an output was first reached from; the ghost `level[j]` is the search level at which that
happened.  A search that finds an unmatched output flips the path back to its root; a search
that runs through all its levels leaves a vertex cover as large as the matching (König).
*/
module MaxSize {
  import opened Arith
  import opened Matching
  import opened DenseAllocators

  /** The request matrix and the matching that one search works on; the search changes neither. */
  datatype Graph = Graph(inputs: nat, outputs: nat, req: Matrix, inm: seq<int>, outm: seq<int>) {
    ghost predicate Ok() {
      && |inm| == inputs && |outm| == outputs
      && Sized(req, inputs, outputs) && IsMatching(EdgesOf(req), inm, outm)
    }

    predicate Edge(i: int, j: int)
      requires Sized(req, inputs, outputs)
      requires 0 <= i < inputs && 0 <= j < outputs
    {
      Has(req, i, j)
    }
  }

  /** The partial search tree: parent and level of every reached output. */
  datatype Tree = Tree(from: seq<int>, level: seq<int>) {
    ghost predicate Sized(g: Graph) {
      |from| == g.inputs && |level| == g.outputs
    }

    predicate Reached(j: int) {
      0 <= j < |from| && from[j] != NONE
    }
  }

  /** Input i joins the search at level d: a root when it is unmatched, otherwise one level below its partner. */
  ghost predicate AtLevel(g: Graph, t: Tree, i: int, d: int)
    requires g.Ok() && t.Sized(g)
  {
    0 <= i < g.inputs &&
    if g.inm[i] == NONE then d == 0
    else t.Reached(g.inm[i]) && t.level[g.inm[i]] == d - 1
  }

  /** Every reached output has its parent one step above it on an unmatched request edge. */
  ghost predicate IsTree(g: Graph, t: Tree)
    requires g.Ok() && t.Sized(g)
  {
    forall j {:trigger t.Reached(j)} :: 0 <= j < g.outputs && t.Reached(j) ==>
      && 0 <= t.level[j]
      && AtLevel(g, t, t.from[j], t.level[j])
      && g.Edge(t.from[j], j) && g.inm[t.from[j]] != j
  }

  /** No output reached so far ends an augmenting path, and none lies below level d. */
  ghost predicate NoneFree(g: Graph, t: Tree, d: int)
    requires g.Ok() && t.Sized(g)
  {
    forall j {:trigger t.Reached(j)} :: 0 <= j < g.outputs && t.Reached(j) ==>
      g.outm[j] != NONE && t.level[j] < d
  }

  /** All unmatched request edges of input i lead to reached outputs. */
  ghost predicate Closed(g: Graph, t: Tree, i: int)
    requires g.Ok() && t.Sized(g) && 0 <= i < g.inputs
  {
    forall j :: 0 <= j < g.outputs && g.Edge(i, j) && g.inm[i] != j ==> t.Reached(j)
  }

  /** Every input above level d has been expanded. */
  ghost predicate Expanded(g: Graph, t: Tree, d: int)
    requires g.Ok() && t.Sized(g)
  {
    forall i, e :: e < d && AtLevel(g, t, i, e) ==> Closed(g, t, i)
  }

  /** The stack holds exactly the inputs of level d, each once. */
  ghost predicate Frontier(g: Graph, t: Tree, st: seq<int>, d: int)
    requires g.Ok() && t.Sized(g)
  {
    && (forall k :: 0 <= k < |st| ==> AtLevel(g, t, st[k], d))
    && (forall i :: AtLevel(g, t, i, d) ==> i in st)
    && (forall k, l :: 0 <= k < l < |st| ==> st[k] != st[l])
  }

  /** t1 reaches at least what t reaches, in the same way, and everything new at level d. */
  ghost predicate Extends(g: Graph, t: Tree, t1: Tree, d: int)
    requires g.Ok() && t.Sized(g) && t1.Sized(g)
  {
    forall j {:trigger t1.Reached(j)} :: 0 <= j < g.outputs ==>
      && (t.Reached(j) ==> t1.from[j] == t.from[j] && t1.level[j] == t.level[j])
      && (!t.Reached(j) && t1.Reached(j) ==> t1.level[j] == d)
  }

  lemma ExtendsKeeps(g: Graph, t: Tree, t1: Tree, d: int, st: seq<int>)
    requires g.Ok() && t.Sized(g) && t1.Sized(g) && Extends(g, t, t1, d)
    ensures forall i, e :: e <= d ==> (AtLevel(g, t, i, e) <==> AtLevel(g, t1, i, e))
    ensures Frontier(g, t, st, d) ==> Frontier(g, t1, st, d)
    ensures forall i :: 0 <= i < g.inputs && Closed(g, t, i) ==> Closed(g, t1, i)
    ensures Expanded(g, t, d) ==> Expanded(g, t1, d)
  {
    forall i, e | e <= d
      ensures AtLevel(g, t, i, e) <==> AtLevel(g, t1, i, e)
    {
      if 0 <= i < g.inputs && g.inm[i] != NONE {
        assert t.Reached(g.inm[i]) || !t.Reached(g.inm[i]);
        assert t1.Reached(g.inm[i]) || !t1.Reached(g.inm[i]);
      }
    }
    forall i | 0 <= i < g.inputs && Closed(g, t, i)
      ensures Closed(g, t1, i)
    {
      forall j | 0 <= j < g.outputs && g.Edge(i, j) && g.inm[i] != j
        ensures t1.Reached(j)
      {
        assert t.Reached(j);
        assert t1.Reached(j) || !t1.Reached(j);
      }
    }
  }

  /** Reaching one more, already matched output keeps the tree and adds its partner to the next stack. */
  lemma Visit(g: Graph, t: Tree, t1: Tree, d: nat, i: int, j: int, nst: seq<int>)
    requires g.Ok() && t.Sized(g) && IsTree(g, t) && AtLevel(g, t, i, d)
    requires 0 <= j < g.outputs && j < |t.from| && !t.Reached(j) && g.Edge(i, j) && g.inm[i] != j
    requires Frontier(g, t, nst, d + 1)
    requires t1 == Tree(t.from[j := i], t.level[j := d])
    ensures t1.Sized(g) && IsTree(g, t1) && Extends(g, t, t1, d)
    ensures g.outm[j] != NONE ==> Frontier(g, t1, nst + [g.outm[j]], d + 1) && |nst| < g.inputs
  {
    forall x | 0 <= x < g.outputs
      ensures t1.Reached(x) <==> t.Reached(x) || x == j
    {
    }
    forall x, e | AtLevel(g, t, x, e)
      ensures AtLevel(g, t1, x, e)
    {
    }
    if g.outm[j] != NONE {
      var p := g.outm[j];
      assert AtLevel(g, t1, p, d + 1);
      var st := nst + [p];
      forall x | AtLevel(g, t1, x, d + 1)
        ensures x in st
      {
        if x != p {
          assert AtLevel(g, t, x, d + 1);
          assert x in nst;
        }
      }
      assert p !in nst by {
        assert !AtLevel(g, t, p, d + 1);
      }
      Pigeonhole(st, g.inputs);
    }
  }

  /** The search array, sized by the inputs, has an entry for every requested output. */
  ghost predicate SearchFits(req: Matrix, inputs: nat) {
    forall e :: e in EdgesOf(req) ==> e.1 < inputs
  }

  lemma PastTheEnd(g: Graph, i: int, j: int)
    requires g.Ok() && 0 <= i < g.inputs <= j < g.outputs && g.Edge(i, j)
    ensures !SearchFits(g.req, g.inputs)
  {
    assert (i, j) in EdgesOf(g.req);
  }

  ghost predicate RowDone(g: Graph, t0: Tree, t: Tree, d: nat) {
    g.Ok() && t0.Sized(g) && t.Sized(g) && IsTree(g, t) && Extends(g, t0, t, d)
  }

  /** The state of expanding input i of level d when outputs below j are done; t0 was the tree before. */
  ghost predicate RowInv(g: Graph, t0: Tree, t: Tree, d: nat, i: int, j: int, nst: seq<int>) {
    && RowDone(g, t0, t, d) && NoneFree(g, t, d + 1) && Frontier(g, t, nst, d + 1) && AtLevel(g, t, i, d)
    && forall x :: 0 <= x < j && x < g.outputs && g.Edge(i, x) && g.inm[i] != x ==> t.Reached(x)
  }

  lemma RowShape(g: Graph, t0: Tree, t: Tree, d: nat, i: int, j: int, nst: seq<int>)
    requires RowInv(g, t0, t, d, i, j, nst)
    ensures g.Ok() && t.Sized(g) && 0 <= i < g.inputs && RowDone(g, t0, t, d)
  {
  }

  /** The search reached an unmatched output. */
  ghost predicate PathFound(g: Graph, t: Tree, hit: int) {
    g.Ok() && t.Sized(g) && IsTree(g, t) && 0 <= hit < g.outputs && t.Reached(hit) && g.outm[hit] == NONE
  }

  lemma FreeIsPath(g: Graph, t0: Tree, t: Tree, d: nat, j: int)
    requires RowDone(g, t0, t, d) && 0 <= j < g.outputs && t.Reached(j) && g.outm[j] == NONE
    ensures PathFound(g, t, j)
  {
  }

  lemma ExtendsChain(g: Graph, t: Tree, t1: Tree, t2: Tree, d: int)
    requires g.Ok() && t.Sized(g) && t1.Sized(g) && t2.Sized(g)
    requires Extends(g, t, t1, d) && Extends(g, t1, t2, d)
    ensures Extends(g, t, t2, d)
  {
    forall j | 0 <= j < g.outputs
      ensures t.Reached(j) ==> t2.from[j] == t.from[j] && t2.level[j] == t.level[j]
      ensures !t.Reached(j) && t2.Reached(j) ==> t2.level[j] == d
    {
      assert t1.Reached(j) || !t1.Reached(j);
      assert t2.Reached(j) || !t2.Reached(j);
    }
  }

  lemma RowVisit(g: Graph, t0: Tree, t: Tree, d: nat, i: int, j: int, nst: seq<int>)
    requires RowInv(g, t0, t, d, i, j, nst)
    requires 0 <= j < g.outputs && j < |t.from| && !t.Reached(j) && g.Edge(i, j) && g.inm[i] != j
    ensures var t1 := Tree(t.from[j := i], t.level[j := d]);
            && RowDone(g, t0, t1, d) && t1.Reached(j)
            && (g.outm[j] != NONE ==> |nst| < g.inputs && RowInv(g, t0, t1, d, i, j + 1, nst + [g.outm[j]]))
  {
    var t1 := Tree(t.from[j := i], t.level[j := d]);
    Visit(g, t, t1, d, i, j, nst);
    ExtendsKeeps(g, t, t1, d, []);
    ExtendsChain(g, t0, t, t1, d);
    forall x | 0 <= x < g.outputs
      ensures t1.Reached(x) <==> t.Reached(x) || x == j
    {
    }
  }

  lemma RowSkip(g: Graph, t0: Tree, t: Tree, d: nat, i: int, j: int, nst: seq<int>)
    requires RowInv(g, t0, t, d, i, j, nst)
    requires 0 <= j < g.outputs && !(!t.Reached(j) && g.Edge(i, j) && g.inm[i] != j)
    ensures RowInv(g, t0, t, d, i, j + 1, nst)
  {
  }

  /** The input one level above. */
  lemma Up(g: Graph, t: Tree, i: int, d: nat) returns (up: int)
    requires g.Ok() && t.Sized(g) && IsTree(g, t) && AtLevel(g, t, i, d) && d > 0
    ensures AtLevel(g, t, up, d - 1)
  {
    assert t.Reached(g.inm[i]);
    up := t.from[g.inm[i]];
  }

  /** The inputs on the way from input i, at level d, up to its root; the last one has level 0. */
  lemma {:induction false} Chain(g: Graph, t: Tree, i: int, d: nat) returns (c: seq<int>)
    requires g.Ok() && t.Sized(g) && IsTree(g, t) && AtLevel(g, t, i, d)
    ensures |c| == d + 1 && forall k :: 0 <= k <= d ==> AtLevel(g, t, c[k], d - k)
    decreases d
  {
    hide IsTree, AtLevel, Graph.Ok;
    c := [i];
    if d > 0 {
      var up := Up(g, t, i, d);
      var rest := Chain(g, t, up, d - 1);
      c := [i] + rest;
      forall k | 1 <= k <= d
        ensures AtLevel(g, t, c[k], d - k)
      {
        assert c[k] == rest[k - 1];
      }
    }
  }

  /** A level that is not empty has as many inputs above it as its number says. */
  lemma DepthBound(g: Graph, t: Tree, i: int, d: nat)
    requires g.Ok() && t.Sized(g) && IsTree(g, t) && AtLevel(g, t, i, d)
    ensures d < g.inputs
  {
    var c := Chain(g, t, i, d);
    forall k, l | 0 <= k < l < |c|
      ensures c[k] != c[l]
    {
      assert AtLevel(g, t, c[k], d - k) && AtLevel(g, t, c[l], d - l);
    }
    Pigeonhole(c, g.inputs);
  }

  lemma {:induction false} ImageSize(dom: set<int>, inm: seq<int>)
    requires forall i :: i in dom ==> 0 <= i < |inm|
    requires forall i, k :: i in dom && k in dom && i != k ==> inm[i] != inm[k]
    ensures |set i | i in dom :: inm[i]| == |dom|
    decreases |dom|
  {
    if dom != {} {
      var x := Pick(dom);
      var rest := dom - {x};
      ImageSize(rest, inm);
      assert (set i | i in dom :: inm[i]) == (set i | i in rest :: inm[i]) + {inm[x]};
    }
  }

  /** The inputs the search did not reach, and the outputs it did. */
  ghost function CoverLeft(g: Graph, t: Tree): set<int>
    requires g.Ok() && t.Sized(g)
  {
    set i | 0 <= i < g.inputs && g.inm[i] != NONE && !t.Reached(g.inm[i])
  }

  ghost function CoverRight(g: Graph, t: Tree): set<int>
    requires g.Ok() && t.Sized(g)
  {
    set j | 0 <= j < g.outputs && t.Reached(j)
  }

  lemma ReachedIsClosed(g: Graph, t: Tree, d: int, i: int)
    requires g.Ok() && t.Sized(g) && NoneFree(g, t, d) && Expanded(g, t, d) && Frontier(g, t, [], d) && 0 <= d
    requires 0 <= i < g.inputs && i !in CoverLeft(g, t)
    ensures Closed(g, t, i)
  {
    var e := if g.inm[i] == NONE then 0 else t.level[g.inm[i]] + 1;
    assert g.inm[i] != NONE ==> t.Reached(g.inm[i]);
    assert AtLevel(g, t, i, e);
    assert e <= d;
    assert e != d;
  }

  /** König: a search that stops without a free output leaves a vertex cover of the matching's size. */
  lemma FailedSearchIsCertificate(g: Graph, t: Tree, d: int)
    requires g.Ok() && t.Sized(g) && IsTree(g, t)
    requires NoneFree(g, t, d) && Expanded(g, t, d) && Frontier(g, t, [], d) && 0 <= d
    ensures IsCover(EdgesOf(g.req), CoverLeft(g, t), CoverRight(g, t))
    ensures |Pairs(g.inm)| == |CoverLeft(g, t)| + |CoverRight(g, t)|
    ensures Maximum(EdgesOf(g.req), g.inm)
  {
    var left, right := CoverLeft(g, t), CoverRight(g, t);
    forall e | e in EdgesOf(g.req)
      ensures e.0 in left || e.1 in right
    {
      if e.0 !in left {
        ReachedIsClosed(g, t, d, e.0);
        assert g.Edge(e.0, e.1);
        assert g.inm[e.0] != e.1 ==> t.Reached(e.1);
      }
    }
    var r := MatchedInputs(g.inm) - left;
    forall j | j in right
      ensures j in (set i | i in r :: g.inm[i])
    {
      assert t.Reached(j);
      assert g.outm[j] in r && g.inm[g.outm[j]] == j;
    }
    assert right == set i | i in r :: g.inm[i];
    ImageSize(r, g.inm);
    assert MatchedInputs(g.inm) == left + r;
    PairsCount(g.inm);
    CoverCertifies(EdgesOf(g.req), g.inm, left, right);
  }

  /** The stack of level d is ready to be expanded. */
  ghost predicate LevelReady(g: Graph, t: Tree, d: nat, st: seq<int>) {
    && g.Ok() && t.Sized(g) && IsTree(g, t) && NoneFree(g, t, d) && Frontier(g, t, st, d) && Expanded(g, t, d)
  }

  ghost predicate KeepsMatched(before: seq<int>, after: seq<int>) {
    |before| == |after| && forall x :: 0 <= x < |before| && before[x] != NONE ==> after[x] != NONE
  }

  lemma AllKept(m: seq<int>)
    ensures KeepsMatched(m, m)
  {
  }

  lemma KeptSince(a: seq<int>, b: seq<int>, c: seq<int>)
    requires KeepsMatched(a, b) && KeepsMatched(b, c)
    ensures KeepsMatched(a, c)
  {
  }

  /** One more input and one more output are matched, and no port lost its match. */
  ghost predicate GrownByOne(inm: seq<int>, inm1: seq<int>, outm: seq<int>, outm1: seq<int>) {
    && KeepsMatched(inm, inm1) && KeepsMatched(outm, outm1)
    && |MatchedInputs(inm1)| == |MatchedInputs(inm)| + 1
    && |MatchedInputs(outm1)| == |MatchedInputs(outm)| + 1
  }

  /** After as many levels as there are inputs the stack is empty, so the search was complete. */
  lemma SearchExhausted(g: Graph, t: Tree, st: seq<int>)
    requires LevelReady(g, t, g.inputs, st)
    ensures Maximum(EdgesOf(g.req), g.inm)
  {
    if st != [] {
      DepthBound(g, t, st[0], g.inputs);
    }
    FailedSearchIsCertificate(g, t, g.inputs);
  }

  /** The state of expanding level d when the first e inputs of its stack are done. */
  ghost predicate LevelInv(g: Graph, t: Tree, d: nat, st: seq<int>, e: int, nst: seq<int>) {
    && g.Ok() && t.Sized(g) && IsTree(g, t) && NoneFree(g, t, d + 1) && Frontier(g, t, nst, d + 1)
    && Frontier(g, t, st, d) && Expanded(g, t, d)
    && forall k {:trigger st[k]} :: 0 <= k < e && k < |st| ==> Closed(g, t, st[k])
  }

  lemma RowStart(g: Graph, t: Tree, d: nat, st: seq<int>, e: nat, nst: seq<int>)
    requires e < |st| && LevelInv(g, t, d, st, e, nst)
    ensures RowInv(g, t, t, d, st[e], 0, nst)
  {
  }

  /** st lists the unmatched inputs among the first i in turn order. */
  ghost predicate Unmatched(inm: seq<int>, st: seq<int>, prio: nat, i: int) {
    && (forall k :: 0 <= k < |st| ==> 0 <= st[k] < |inm| && inm[st[k]] == NONE && Dist(|inm|, prio, st[k]) < i)
    && (forall k, l :: 0 <= k < l < |st| ==> Dist(|inm|, prio, st[k]) < Dist(|inm|, prio, st[l]))
    && (forall x {:trigger inm[x]} :: 0 <= x < |inm| && Dist(|inm|, prio, x) < i && inm[x] == NONE ==> x in st)
  }

  lemma UnmatchedStep(inm: seq<int>, st: seq<int>, prio: nat, i: nat, j: int)
    requires prio < |inm| && i < |inm| && Unmatched(inm, st, prio, i)
    requires j == if i + prio < |inm| then i + prio else i + prio - |inm|
    ensures Unmatched(inm, if inm[j] == NONE then st + [j] else st, prio, i + 1)
  {
    assert forall x :: 0 <= x < |inm| && Dist(|inm|, prio, x) == i ==> x == j;
    assert Dist(|inm|, prio, j) == i;
    assert j !in st;
    assert j == (st + [j])[|st|];
  }

  /** Before anything is reached, the unmatched inputs are level 0. */
  lemma RootsAreLevelZero(g: Graph, t: Tree, st: seq<int>, prio: nat)
    requires g.Ok() && t.Sized(g) && prio < g.inputs && Unmatched(g.inm, st, prio, g.inputs)
    requires forall j :: 0 <= j < g.inputs ==> t.from[j] == NONE
    ensures LevelReady(g, t, 0, st)
  {
  }

  lemma NothingBelow(g: Graph, t: Tree, d: int)
    requires g.Ok() && t.Sized(g) && NoneFree(g, t, d) && 0 <= d
    ensures NoneFree(g, t, d + 1) && Frontier(g, t, [], d + 1)
  {
    assert forall i {:trigger g.inm[i]} :: 0 <= i < g.inputs && g.inm[i] != NONE ==> t.Reached(g.inm[i]) || !t.Reached(g.inm[i]);
  }

  lemma LevelStart(g: Graph, t: Tree, d: nat, st: seq<int>)
    requires LevelReady(g, t, d, st)
    ensures LevelInv(g, t, d, st, 0, [])
  {
    NothingBelow(g, t, d);
  }

  lemma LevelStep(g: Graph, t: Tree, t1: Tree, d: nat, st: seq<int>, e: nat, nst: seq<int>, nst1: seq<int>)
    requires e < |st| && LevelInv(g, t, d, st, e, nst)
    requires RowInv(g, t, t1, d, st[e], g.outputs, nst1)
    ensures LevelInv(g, t1, d, st, e + 1, nst1)
  {
    ExtendsKeeps(g, t, t1, d, st);
  }

  lemma LevelEnd(g: Graph, t: Tree, d: nat, st: seq<int>, nst: seq<int>)
    requires LevelInv(g, t, d, st, |st|, nst)
    ensures LevelReady(g, t, d + 1, nst)
  {
    forall i, e | e < d + 1 && AtLevel(g, t, i, e)
      ensures Closed(g, t, i)
    {
      if e == d {
        assert i in st;
      }
    }
  }

  /** Output j points at input i, which does not point back; everything else is inverse and requested. */
  ghost predicate OneLoose(edges: Edges, inm: seq<int>, outm: seq<int>, i: int, j: int) {
    && 0 <= i < |inm| && 0 <= j < |outm| && outm[j] == i
    && (forall x :: 0 <= x < |inm| && inm[x] != NONE ==>
          0 <= inm[x] < |outm| && inm[x] != j && outm[inm[x]] == x && (x, inm[x]) in edges)
    && (forall y :: 0 <= y < |outm| && y != j && outm[y] != NONE ==> 0 <= outm[y] < |inm| && inm[outm[y]] == y)
  }

  /** The state of the flip at output j: j already points at its new partner i, which still points
      at its old one, and nothing above level[j] has been touched. */
  ghost predicate Halfway(g: Graph, t: Tree, inm: seq<int>, outm: seq<int>, last: int, i: int, j: int) {
    && g.Ok() && t.Sized(g) && |inm| == g.inputs && |outm| == g.outputs
    && OneLoose(EdgesOf(g.req), inm, outm, i, j) && t.Reached(j)
    && (forall x :: 0 <= x < g.inputs ==> (inm[x] == NONE <==> g.inm[x] == NONE))
    && (forall y :: 0 <= y < g.outputs ==> (outm[y] != NONE <==> g.outm[y] != NONE || y == last))
    && (forall x {:trigger inm[x]} ::
          0 <= x < g.inputs && g.inm[x] != NONE && t.Reached(g.inm[x]) && t.level[g.inm[x]] < t.level[j] ==>
          inm[x] == g.inm[x])
  }

  /** What the tree says about one reached output. */
  ghost predicate Parent(g: Graph, t: Tree, j: int, i: int) {
    && g.Ok() && t.Sized(g) && 0 <= j < g.outputs && t.Reached(j) && i == t.from[j]
    && 0 <= t.level[j] && AtLevel(g, t, i, t.level[j]) && g.Edge(i, j) && g.inm[i] != j
  }

  ghost predicate AllParents(g: Graph, t: Tree) {
    && g.Ok() && t.Sized(g)
    && forall j {:trigger t.from[j]} :: 0 <= j < g.outputs && t.Reached(j) ==> Parent(g, t, j, t.from[j])
  }

  lemma TreeHasParents(g: Graph, t: Tree, hit: int)
    requires PathFound(g, t, hit)
    ensures AllParents(g, t) && 0 <= hit < g.outputs && t.Sized(g) && t.Reached(hit) && g.outm[hit] == NONE
  {
  }

  lemma FlipStart(g: Graph, t: Tree, last: int, i: int)
    requires Parent(g, t, last, i) && g.outm[last] == NONE
    ensures 0 <= i < g.inputs && Halfway(g, t, g.inm, g.outm[last := i], last, i, last)
  {
  }

  /** One step up the path: input i takes j, and its old partner jn turns to its own parent. */
  lemma FlipStep(g: Graph, t: Tree, inm: seq<int>, outm: seq<int>, last: int, i: int, j: int, jn: int, inext: int)
    requires Halfway(g, t, inm, outm, last, i, j) && Parent(g, t, j, i)
    requires jn == inm[i] != NONE && Parent(g, t, jn, inext)
    ensures 0 <= j < g.outputs && 0 <= jn < g.outputs && 0 <= inext < g.inputs && 0 <= t.level[jn] < t.level[j]
    ensures Halfway(g, t, inm[i := j], outm[jn := inext], last, inext, jn)
  {
    assert jn == g.inm[i];
    assert (i, j) in EdgesOf(g.req);
  }

  /** An input's partner on the path is reached, so that the walk can go on. */
  lemma FlipUp(g: Graph, t: Tree, inm: seq<int>, outm: seq<int>, last: int, i: int, j: int)
    requires Halfway(g, t, inm, outm, last, i, j) && Parent(g, t, j, i) && inm[i] != NONE
    ensures 0 <= inm[i] < g.outputs && t.Reached(inm[i])
  {
    assert inm[i] == g.inm[i];
  }

  lemma TieUp(edges: Edges, inm: seq<int>, outm: seq<int>, i: int, j: int)
    requires OneLoose(edges, inm, outm, i, j) && inm[i] == NONE && (i, j) in edges
    ensures IsMatching(edges, inm[i := j], outm)
  {
  }

  lemma Grown(before: seq<int>, after: seq<int>, x: int)
    requires |before| == |after| && 0 <= x < |before| && before[x] == NONE
    requires forall y :: 0 <= y < |before| ==> (after[y] != NONE <==> before[y] != NONE || y == x)
    ensures KeepsMatched(before, after) && |MatchedInputs(after)| == |MatchedInputs(before)| + 1
  {
    assert MatchedInputs(after) == MatchedInputs(before) + {x};
  }

  /** The root of the path takes j: the flip is complete. */
  lemma FlipEnd(g: Graph, t: Tree, inm: seq<int>, outm: seq<int>, last: int, i: int, j: int)
    requires Halfway(g, t, inm, outm, last, i, j) && Parent(g, t, j, i)
    requires inm[i] == NONE && 0 <= last < g.outputs && g.outm[last] == NONE
    ensures Graph(g.inputs, g.outputs, g.req, inm[i := j], outm).Ok()
    ensures GrownByOne(g.inm, inm[i := j], g.outm, outm)
  {
    TieUp(EdgesOf(g.req), inm, outm, i, j);
    Grown(g.inm, inm[i := j], i);
    Grown(g.outm, outm, last);
  }

  // ---- turns ----

  /** A request of an unmatched input for an unmatched output. */
  ghost predicate Direct(g: Graph, i: int, j: int)
    requires g.Ok()
  {
    0 <= i < g.inputs && 0 <= j < g.outputs && g.Edge(i, j) && g.inm[i] == NONE && g.outm[j] == NONE
  }

  ghost predicate NoDirect(g: Graph)
    requires g.Ok()
  {
    forall i, j :: !Direct(g, i, j)
  }

  /** Input i comes first, counting from prio, of all with a direct request, and j is its lowest one. */
  ghost predicate FirstDirect(g: Graph, prio: nat, i: int, j: int)
    requires g.Ok()
  {
    && Direct(g, i, j)
    && forall x, y :: Direct(g, x, y) ==> Dist(g.inputs, prio, i) < Dist(g.inputs, prio, x) || (x == i && j <= y)
  }

  /** A search grants the first direct request if there is one. */
  ghost predicate TakesTurn(g: Graph, prio: nat, inm: seq<int>, outm: seq<int>)
    requires g.Ok()
  {
    NoDirect(g) || exists i, j :: FirstDirect(g, prio, i, j) && inm == g.inm[i := j] && outm == g.outm[j := i]
  }

  /** Among the outputs below `hit` input i requests no unmatched one. */
  ghost predicate RowFirst(g: Graph, i: int, hit: int)
    requires g.Ok() && 0 <= i < g.inputs
  {
    forall x :: 0 <= x < hit && x < g.outputs && g.Edge(i, x) && g.inm[i] != x ==> g.outm[x] != NONE
  }

  /** The unmatched output `hit` was reached from entry e of the stack, and from no earlier entry could any be. */
  ghost predicate LevelFirst(g: Graph, t: Tree, st: seq<int>, e: nat, hit: int) {
    && g.Ok() && 0 <= hit < |t.from| && e < |st| && t.from[hit] == st[e]
    && (forall k :: 0 <= k <= e ==> 0 <= st[k] < g.inputs)
    && RowFirst(g, st[e], hit) && forall k {:trigger st[k]} :: 0 <= k < e ==> RowFirst(g, st[k], g.outputs)
  }

  lemma RowIsFirst(g: Graph, t0: Tree, t: Tree, d: nat, i: int, j: int, nst: seq<int>)
    requires RowInv(g, t0, t, d, i, j, nst)
    ensures RowFirst(g, i, j)
  {
  }

  lemma EarlierRows(g: Graph, t: Tree, d: nat, st: seq<int>, e: nat, nst: seq<int>)
    requires e < |st| && LevelInv(g, t, d, st, e, nst)
    ensures forall k :: 0 <= k <= e ==> 0 <= st[k] < g.inputs
    ensures forall k {:trigger st[k]} :: 0 <= k < e ==> RowFirst(g, st[k], g.outputs)
  {
    assert forall k {:trigger st[k]} :: 0 <= k <= e ==> AtLevel(g, t, st[k], d);
  }

  /** A hit at level 0 is the first direct request. */
  lemma HitIsFirst(g: Graph, t: Tree, prio: nat, st: seq<int>, e: nat, hit: int)
    requires LevelFirst(g, t, st, e, hit) && PathFound(g, t, hit) && prio < g.inputs
    requires Unmatched(g.inm, st, prio, g.inputs)
    ensures FirstDirect(g, prio, t.from[hit], hit)
  {
    var i := st[e];
    assert Parent(g, t, hit, i);
    forall x, y | Direct(g, x, y)
      ensures Dist(g.inputs, prio, i) < Dist(g.inputs, prio, x) || (x == i && hit <= y)
    {
      assert g.inm[x] == NONE;
      var k :| 0 <= k < |st| && st[k] == x;
      assert e <= k;
    }
  }

  lemma DirectEnds(g: Graph, prio: nat, i: int, j: int)
    requires g.Ok() && FirstDirect(g, prio, i, j)
    ensures 0 <= i < g.inputs && 0 <= j < g.outputs && g.inm[i] == NONE
  {
  }

  /** Once level 0 is expanded without a hit there is no direct request. */
  lemma LevelZeroDone(g: Graph, t: Tree, d: nat, st: seq<int>)
    requires LevelReady(g, t, d, st) && 0 < d
    ensures NoDirect(g)
  {
    forall i, j | 0 <= i < g.inputs && 0 <= j < g.outputs && g.Edge(i, j) && g.inm[i] == NONE
      ensures g.outm[j] != NONE
    {
      assert AtLevel(g, t, i, 0);
      assert Closed(g, t, i) && t.Reached(j);
    }
  }

  /** Every matched output that an unmatched input requests went to an input that comes before it, counting from prio. */
  ghost predicate InTurn(g: Graph, prio: nat)
    requires g.Ok()
  {
    forall i, j :: 0 <= i < g.inputs && 0 <= j < g.outputs && g.Edge(i, j) && g.inm[i] == NONE && g.outm[j] != NONE ==>
      Dist(g.inputs, prio, g.outm[j]) < Dist(g.inputs, prio, i)
  }

  lemma TurnsStay(g: Graph, prio: nat, i: int, j: int, g1: Graph)
    requires g.Ok() && g1.Ok() && InTurn(g, prio) && FirstDirect(g, prio, i, j)
    requires g1 == g.(inm := g.inm[i := j], outm := g.outm[j := i])
    ensures InTurn(g1, prio)
  {
    forall x, y | 0 <= x < g.inputs && 0 <= y < g.outputs && g1.Edge(x, y) && g1.inm[x] == NONE && g1.outm[y] != NONE
      ensures Dist(g.inputs, prio, g1.outm[y]) < Dist(g.inputs, prio, x)
    {
      assert g.Edge(x, y);
      if y == j {
        assert Direct(g, x, j);
      }
    }
  }

  /** The outputs an input requests. */
  ghost function Wanted(req: Matrix, inputs: nat, outputs: nat, i: int): set<int>
    requires Sized(req, inputs, outputs) && 0 <= i < inputs
  {
    set j | 0 <= j < outputs && Has(req, i, j)
  }

  /** The matched inputs that come before i, counting from prio. */
  ghost function Ahead(inm: seq<int>, prio: nat, i: int): set<int> {
    set x | 0 <= x < |inm| && inm[x] != NONE && Dist(|inm|, prio, x) < Dist(|inm|, prio, i)
  }

  /** An input goes without a grant only if at least as many inputs before it as it has requests got one. */
  ghost predicate Served(req: Matrix, inputs: nat, outputs: nat, prio: nat, inm: seq<int>)
    requires Sized(req, inputs, outputs)
  {
    |inm| == inputs && forall i :: 0 <= i < inputs && inm[i] == NONE ==> |Wanted(req, inputs, outputs, i)| <= |Ahead(inm, prio, i)|
  }

  lemma {:induction false} SubsetSize(a: set<int>, b: set<int>)
    requires a <= b
    ensures |a| <= |b|
  {
    assert b == a + (b - a) && a !! (b - a);
  }

  /** When the direct requests are exhausted the inputs that took an input's outputs all come before it. */
  lemma TurnsServe(g: Graph, prio: nat)
    requires g.Ok() && InTurn(g, prio) && NoDirect(g)
    ensures Served(g.req, g.inputs, g.outputs, prio, g.inm)
  {
    forall i | 0 <= i < g.inputs && g.inm[i] == NONE
      ensures |Wanted(g.req, g.inputs, g.outputs, i)| <= |Ahead(g.inm, prio, i)|
    {
      var wanted, ahead := Wanted(g.req, g.inputs, g.outputs, i), Ahead(g.inm, prio, i);
      forall j | j in wanted
        ensures g.outm[j] in ahead && g.outm[j] != NONE
      {
        assert g.Edge(i, j) && !Direct(g, i, j);
      }
      ImageSize(wanted, g.outm);
      SubsetSize(set j | j in wanted :: g.outm[j], ahead);
    }
  }

  /** Inputs that get matched later do not change that. */
  lemma ServedStays(req: Matrix, inputs: nat, outputs: nat, prio: nat, inm: seq<int>, inm1: seq<int>)
    requires Sized(req, inputs, outputs) && Served(req, inputs, outputs, prio, inm) && KeepsMatched(inm, inm1)
    ensures Served(req, inputs, outputs, prio, inm1)
  {
    forall i | 0 <= i < inputs && inm1[i] == NONE
      ensures |Wanted(req, inputs, outputs, i)| <= |Ahead(inm1, prio, i)|
    {
      SubsetSize(Ahead(inm, prio, i), Ahead(inm1, prio, i));
    }
  }

  /** Where the searches of a round stand: direct requests were granted in turn, or they are exhausted. */
  ghost predicate Fair(g: Graph, prio: nat)
    requires g.Ok()
  {
    InTurn(g, prio) || Served(g.req, g.inputs, g.outputs, prio, g.inm)
  }

  lemma FairStays(g: Graph, prio: nat, g1: Graph)
    requires g.Ok() && g1.Ok() && g1 == g.(inm := g1.inm, outm := g1.outm)
    requires Fair(g, prio) && TakesTurn(g, prio, g1.inm, g1.outm) && KeepsMatched(g.inm, g1.inm)
    ensures Fair(g1, prio)
  {
    hide Served, InTurn, NoDirect;
    if InTurn(g, prio) && NoDirect(g) {
      TurnsServe(g, prio);
    }
    if Served(g.req, g.inputs, g.outputs, prio, g.inm) {
      ServedStays(g.req, g.inputs, g.outputs, prio, g.inm, g1.inm);
    } else {
      var i, j :| FirstDirect(g, prio, i, j) && g1.inm == g.inm[i := j] && g1.outm == g.outm[j := i];
      TurnsStay(g, prio, i, j, g1);
    }
  }

  lemma FairEnds(g: Graph, prio: nat)
    requires g.Ok() && Fair(g, prio) && NoDirect(g)
    ensures Served(g.req, g.inputs, g.outputs, prio, g.inm)
  {
    if InTurn(g, prio) {
      TurnsServe(g, prio);
    }
  }

  /** Nothing is granted yet. */
  ghost predicate Empty(m: seq<int>) {
    forall i :: 0 <= i < |m| ==> m[i] == NONE
  }

  lemma EmptyIsFair(g: Graph, prio: nat)
    requires g.Ok() && Empty(g.inm)
    ensures Fair(g, prio)
  {
    assert forall j :: 0 <= j < g.outputs && g.outm[j] != NONE ==> g.inm[g.outm[j]] == j;
    assert InTurn(g, prio);
  }

  lemma {:induction false} TurnsDiffer(s: set<int>, n: nat, prio: nat)
    requires prio < n && forall x :: x in s ==> 0 <= x < n
    ensures |set x | x in s :: Dist(n, prio, x)| == |s|
    decreases |s|
  {
    if s != {} {
      var x := Pick(s);
      TurnsDiffer(s - {x}, n, prio);
      assert (set y | y in s :: Dist(n, prio, y)) == (set y | y in s - {x} :: Dist(n, prio, y)) + {Dist(n, prio, x)};
    }
  }

  lemma {:induction false} AheadSize(inm: seq<int>, prio: nat, i: int)
    requires prio < |inm| && 0 <= i < |inm|
    ensures |Ahead(inm, prio, i)| <= Dist(|inm|, prio, i)
  {
    var n := Dist(|inm|, prio, i);
    var turns := set x | x in Ahead(inm, prio, i) :: Dist(|inm|, prio, x);
    TurnsDiffer(Ahead(inm, prio, i), |inm|, prio);
    BelowSize(turns, n);
  }

  /** The first input with a request, counting from prio, is matched; so is every input that requests more outputs than
      there are inputs before it. */
  lemma FirstIsServed(req: Matrix, inputs: nat, outputs: nat, prio: nat, inm: seq<int>, outm: seq<int>, i: int)
    requires Sized(req, inputs, outputs) && Served(req, inputs, outputs, prio, inm) && IsMatching(EdgesOf(req), inm, outm)
    requires prio < inputs && 0 <= i < inputs && |outm| == outputs
    ensures Dist(inputs, prio, i) < |Wanted(req, inputs, outputs, i)| ==> inm[i] != NONE
    ensures Wanted(req, inputs, outputs, i) != {}
      && (forall x :: 0 <= x < inputs && Dist(inputs, prio, x) < Dist(inputs, prio, i) ==> Wanted(req, inputs, outputs, x) == {})
      ==> inm[i] != NONE
  {
    AheadSize(inm, prio, i);
    if (forall x :: 0 <= x < inputs && Dist(inputs, prio, x) < Dist(inputs, prio, i) ==> Wanted(req, inputs, outputs, x) == {}) {
      forall x | 0 <= x < inputs && inm[x] != NONE
        ensures Wanted(req, inputs, outputs, x) != {}
      {
        assert (x, inm[x]) in EdgesOf(req);
        assert inm[x] in Wanted(req, inputs, outputs, x);
      }
      assert Ahead(inm, prio, i) == {};
    }
  }

  /** One round: the requests, the input that had priority and the grants. */
  datatype Round = Round(req: Matrix, prio: nat, inm: seq<int>)

  /** Rounds that each start from an empty matching and pass the priority on. */
  ghost predicate IsRun(inputs: nat, outputs: nat, rounds: seq<Round>) {
    && (forall t :: 0 <= t < |rounds| ==>
          && Sized(rounds[t].req, inputs, outputs) && rounds[t].prio < inputs
          && Served(rounds[t].req, inputs, outputs, rounds[t].prio, rounds[t].inm))
    && (forall t :: 0 < t < |rounds| ==> rounds[t].prio == (rounds[t - 1].prio + 1) % inputs)
  }

  lemma {:induction false} TurnComesCloser(inputs: nat, outputs: nat, rounds: seq<Round>, i: int, t: nat)
    requires IsRun(inputs, outputs, rounds) && 0 <= i < inputs && t < |rounds| && t <= Dist(inputs, rounds[0].prio, i)
    ensures Dist(inputs, rounds[t].prio, i) == Dist(inputs, rounds[0].prio, i) - t
  {
    if t > 0 {
      TurnComesCloser(inputs, outputs, rounds, i, t - 1);
      WrapMod(rounds[t - 1].prio + 1, inputs);
    }
  }

  /** No input starves: one that requests m or more outputs in every round is matched at the latest when fewer than m
      inputs are left before it, which takes fewer rounds than there are inputs. */
  lemma NoStarvation(inputs: nat, outputs: nat, rounds: seq<Round>, i: int, m: nat) returns (t: nat)
    requires IsRun(inputs, outputs, rounds) && |rounds| == inputs && 0 <= i < inputs && 0 < m
    requires forall r :: r in rounds ==> m <= |Wanted(r.req, inputs, outputs, i)|
    ensures t < inputs && rounds[t].inm[i] != NONE
    ensures t + m <= Dist(inputs, rounds[0].prio, i) + 1 || t == 0
  {
    var d := Dist(inputs, rounds[0].prio, i);
    t := if d < m then 0 else d - m + 1;
    TurnComesCloser(inputs, outputs, rounds, i, t);
    AheadSize(rounds[t].inm, rounds[t].prio, i);
    assert rounds[t] in rounds;
  }

  class MaxSizeMatch {
    const alloc: DenseAllocator
    var from: seq<int>
    ghost var level: seq<int>
    var s: array<int>
    var ns: array<int>
    var prio: nat

    ghost predicate Valid()
      reads this, alloc
    {
      && alloc.Valid()
      && prio < alloc.inputs
      && s != ns && s.Length == ns.Length == alloc.inputs
    }

    ghost function G(): Graph
      reads alloc
    {
      Graph(alloc.inputs, alloc.outputs, alloc.request, alloc.inmatch, alloc.outmatch)
    }

    ghost function T(): Tree
      reads this
    {
      Tree(from, level)
    }

    constructor (inputs: nat, outputs: nat)
      requires 0 < inputs
      ensures Valid() && fresh(alloc) && fresh(s) && fresh(ns)
      ensures alloc.inputs == inputs && alloc.outputs == outputs && prio == 0
    {
      alloc := new DenseAllocator(inputs, outputs);
      from := seq(outputs, _ => NONE);
      level := seq(outputs, _ => 0);
      s := new int[inputs];
      ns := new int[inputs];
      prio := 0;
    }

    /** Level 0: the unmatched inputs, starting with the one that has priority. */
    method PushUnmatched() returns (n: nat)
      requires Valid()
      modifies s
      ensures n <= s.Length && Unmatched(alloc.inmatch, s[..n], prio, alloc.inputs)
    {
      n := 0;
      var i := 0;
      assert s[..n] == [];
      assert Unmatched(alloc.inmatch, [], prio, 0);
      hide Unmatched, IsMatching, Inverse;
      while i < alloc.inputs
        invariant 0 <= i <= alloc.inputs && n <= i
        invariant Unmatched(alloc.inmatch, s[..n], prio, i)
      {
        ghost var before := s[..n];
        WrapMod(i + prio, alloc.inputs);
        var j := (i + prio) % alloc.inputs;
        if alloc.inmatch[j] == NONE {
          s[n] := j;
          n := n + 1;
          assert s[..n] == before + [j];
        }
        UnmatchedStep(alloc.inmatch, before, prio, i, j);
        i := i + 1;
      }
    }

    /** Expands input i: every unreached output it requests is reached from it, until one is unmatched.  Fails when it
        requests an output past the search array, which is sized by the inputs. */
    method ScanRow(i: int, n: nat, ghost d: nat) returns (ok: bool, m: nat, hit: int)
      requires Valid() && n <= ns.Length && RowInv(G(), T(), T(), d, i, 0, ns[..n])
      modifies this`from, this`level, ns
      ensures SearchFits(alloc.request, alloc.inputs) ==> ok
      ensures ok ==> RowDone(G(), old(T()), T(), d)
      ensures ok && hit == NONE ==> m <= ns.Length && RowInv(G(), old(T()), T(), d, i, alloc.outputs, ns[..m])
      ensures ok && hit != NONE ==> PathFound(G(), T(), hit) && T().from[hit] == i && RowFirst(G(), i, hit)
    {
      ok, m, hit := true, n, NONE;
      ghost var g, t0, t := G(), T(), T();
      RowShape(g, t0, t, d, i, 0, ns[..m]);
      hide RowInv, RowDone, PathFound, RowFirst, SearchFits, Graph.Ok;
      var j := 0;
      while j < alloc.outputs
        invariant 0 <= j <= alloc.outputs && t == T() && m <= ns.Length && ok
        invariant RowInv(g, t0, t, d, i, j, ns[..m])
      {
        RowShape(g, t0, t, d, i, j, ns[..m]);
        ghost var st := ns[..m];
        var open := Has(alloc.request, i, j) && alloc.inmatch[i] != j;
        if open && j >= |from| {
          PastTheEnd(g, i, j);
          ok := false;
          return;
        }
        if open && from[j] == NONE {
          RowVisit(g, t0, t, d, i, j, st);
          RowIsFirst(g, t0, t, d, i, j, st);
          t := Tree(t.from[j := i], t.level[j := d]);
          from := from[j := i];
          level := level[j := d];
          if alloc.outmatch[j] == NONE {
            FreeIsPath(g, t0, t, d, j);
            hit := j;
            return;
          }
          ns[m] := alloc.outmatch[j];
          m := m + 1;
          assert ns[..m] == st + [g.outm[j]];
        } else {
          RowSkip(g, t0, t, d, i, j, st);
        }
        j := j + 1;
      }
      RowShape(g, t0, t, d, i, j, ns[..m]);
    }

    /** Expands the whole stack of level d, leaving the stack of level d + 1 in ns. */
    method ScanLevel(n: nat, ghost d: nat) returns (ok: bool, m: nat, hit: int, ghost e0: nat)
      requires Valid() && n <= s.Length && LevelInv(G(), T(), d, s[..n], 0, [])
      modifies this`from, this`level, ns
      ensures SearchFits(alloc.request, alloc.inputs) ==> ok
      ensures ok && hit == NONE ==> m <= ns.Length && LevelInv(G(), T(), d, s[..n], n, ns[..m])
      ensures ok && hit != NONE ==> PathFound(G(), T(), hit) && LevelFirst(G(), T(), s[..n], e0, hit)
    {
      ok, m, hit, e0 := true, 0, NONE, 0;
      ghost var g, st, t := G(), s[..n], T();
      assert ns[..m] == [];
      var e := 0;
      while e < n
        invariant 0 <= e <= n && m <= ns.Length && t == T() && hit == NONE && ok
        invariant s[..n] == st
        invariant LevelInv(g, t, d, st, e, ns[..m])
      {
        ghost var nst := ns[..m];
        assert s[e] == st[e];
        RowStart(g, t, d, st, e, nst);
        EarlierRows(g, t, d, st, e, nst);
        ok, m, hit := ScanRow(s[e], m, d);
        if !ok || hit != NONE {
          e0 := e;
          return;
        }
        LevelStep(g, t, T(), d, st, e, nst, ns[..m]);
        t := T();
        e := e + 1;
      }
    }

    /** The assignment that ends a flip. */
    method SetRoot(i: int, j: int)
      requires 0 <= i < |alloc.inmatch|
      requires Graph(alloc.inputs, alloc.outputs, alloc.request, alloc.inmatch[i := j], alloc.outmatch).Ok()
      modifies alloc`inmatch
      ensures G().Ok() && alloc.inmatch == old(alloc.inmatch)[i := j]
    {
      alloc.inmatch := alloc.inmatch[i := j];
    }

    /** Flips the path that ends at the unmatched output `last`. */
    method Flip(last: int)
      requires Valid() && AllParents(G(), T())
      requires 0 <= last < alloc.outputs && T().Reached(last) && alloc.outmatch[last] == NONE
      modifies alloc`inmatch, alloc`outmatch
      ensures G().Ok()
      ensures GrownByOne(old(alloc.inmatch), alloc.inmatch, old(alloc.outmatch), alloc.outmatch)
      ensures 0 <= from[last] < alloc.inputs
      ensures old(alloc.inmatch[from[last]]) == NONE ==>
        alloc.inmatch == old(alloc.inmatch)[from[last] := last] && alloc.outmatch == old(alloc.outmatch)[last := from[last]]
    {
      hide Halfway, Parent, GrownByOne;
      ghost var g, t := G(), T();
      var j := last;
      var i := from[j];
      assert Parent(g, t, j, i);
      FlipStart(g, t, last, i);
      alloc.outmatch := alloc.outmatch[j := i];
      while alloc.inmatch[i] != NONE
        invariant 0 <= i < |alloc.inmatch| == g.inputs && 0 <= j < |alloc.outmatch| == g.outputs
        invariant Parent(g, t, j, i)
        invariant Halfway(g, t, alloc.inmatch, alloc.outmatch, last, i, j)
        invariant 0 <= from[last] < g.inputs
        invariant g.inm[from[last]] == NONE ==>
          i == from[last] && j == last && alloc.inmatch == g.inm && alloc.outmatch == g.outm[last := i]
        decreases t.level[j]
      {
        FlipUp(g, t, alloc.inmatch, alloc.outmatch, last, i, j);
        var jn := alloc.inmatch[i];
        assert Parent(g, t, jn, from[jn]);
        FlipStep(g, t, alloc.inmatch, alloc.outmatch, last, i, j, jn, from[jn]);
        alloc.inmatch := alloc.inmatch[i := j];
        j := jn;
        i := from[j];
        alloc.outmatch := alloc.outmatch[j := i];
      }
      FlipEnd(g, t, alloc.inmatch, alloc.outmatch, last, i, j);
      SetRoot(i, j);
    }

    /** Grows the matching by one augmenting path, or reports that there is none.  A failed search changes nothing. */
    method ShortestAugmenting() returns (ok: bool, found: bool)
      requires Valid() && G().Ok()
      modifies this`from, this`level, this`s, this`ns, s, ns, alloc`inmatch, alloc`outmatch
      ensures Valid() && G().Ok() && {s, ns} == old({s, ns})
      ensures SearchFits(alloc.request, alloc.inputs) ==> ok
      ensures !ok || !found ==> alloc.inmatch == old(alloc.inmatch) && alloc.outmatch == old(alloc.outmatch)
      ensures ok && !found ==> Maximum(EdgesOf(alloc.request), alloc.inmatch)
      ensures ok && found ==> GrownByOne(old(alloc.inmatch), alloc.inmatch, old(alloc.outmatch), alloc.outmatch)
      ensures ok && found ==> TakesTurn(old(G()), prio, alloc.inmatch, alloc.outmatch)
      ensures ok && !found ==> NoDirect(G())
    {
      hide LevelInv, LevelReady, PathFound, AllParents, GrownByOne, Maximum, Unmatched, LevelFirst, FirstDirect, NoDirect;
      var n := PushUnmatched();
      from := seq(alloc.inputs, _ => NONE);
      level := seq(alloc.outputs, _ => 0);
      ghost var g := G();
      RootsAreLevelZero(g, T(), s[..n], prio);
      var iter := 0;
      while iter < alloc.inputs
        invariant 0 <= iter <= alloc.inputs && Valid() && g == G() && {s, ns} == old({s, ns})
        invariant n <= s.Length && LevelReady(g, T(), iter, s[..n])
        invariant if iter == 0 then Unmatched(g.inm, s[..n], prio, g.inputs) else NoDirect(g)
      {
        LevelStart(g, T(), iter, s[..n]);
        var m, hit;
        ghost var e0;
        ok, m, hit, e0 := ScanLevel(n, iter);
        if !ok {
          return false, false;
        }
        if hit != NONE {
          TreeHasParents(g, T(), hit);
          if iter == 0 {
            HitIsFirst(g, T(), prio, s[..n], e0, hit);
            DirectEnds(g, prio, from[hit], hit);
          }
          Flip(hit);
          assert iter == 0 ==> FirstDirect(g, prio, from[hit], hit);
          return true, true;
        }
        LevelEnd(g, T(), iter, s[..n], ns[..m]);
        LevelZeroDone(g, T(), iter + 1, ns[..m]);
        s, ns := ns, s;
        n := m;
        iter := iter + 1;
      }
      SearchExhausted(g, T(), s[..n]);
      return true, false;
    }

    /** Augments until no augmenting path is left; the result is a matching of maximum size, and no
        port that was matched before loses its match.  Can fail only when some request names an output past the search
        array. */
    method Allocate() returns (ok: bool)
      requires Valid() && G().Ok()
      modifies this, s, ns, alloc`inmatch, alloc`outmatch
      ensures Valid() && IsMatching(EdgesOf(alloc.request), alloc.inmatch, alloc.outmatch)
      ensures SearchFits(alloc.request, alloc.inputs) ==> ok
      ensures ok ==> Maximum(EdgesOf(alloc.request), alloc.inmatch)
      ensures KeepsMatched(old(alloc.inmatch), alloc.inmatch) && KeepsMatched(old(alloc.outmatch), alloc.outmatch)
      ensures ok ==> prio == (old(prio) + 1) % alloc.inputs
      ensures ok && old(Empty(alloc.inmatch)) ==>
        Served(alloc.request, alloc.inputs, alloc.outputs, old(prio), alloc.inmatch)
    {
      hide Maximum, KeepsMatched, IsMatching, Served, Fair, NoDirect, TakesTurn, Empty;
      ok := true;
      var again := true;
      ghost var g := G();
      if Empty(alloc.inmatch) {
        EmptyIsFair(g, prio);
      }
      AllKept(alloc.inmatch);
      AllKept(alloc.outmatch);
      while again
        invariant ok
        invariant Valid() && G().Ok() && {s, ns} == old({s, ns}) && prio == old(prio)
        invariant !again ==> Maximum(EdgesOf(alloc.request), alloc.inmatch)
        invariant KeepsMatched(old(alloc.inmatch), alloc.inmatch)
        invariant KeepsMatched(old(alloc.outmatch), alloc.outmatch)
        invariant g == G() && (old(Empty(alloc.inmatch)) ==> Fair(g, prio)) && (!again ==> NoDirect(g))
        decreases again, alloc.inputs - |MatchedInputs(alloc.inmatch)|
      {
        BelowSize(MatchedInputs(alloc.inmatch), alloc.inputs);
        ok, again := ShortestAugmenting();
        if !ok {
          return;
        }
        BelowSize(MatchedInputs(alloc.inmatch), alloc.inputs);
        if again {
          KeptSince(old(alloc.inmatch), g.inm, alloc.inmatch);
          KeptSince(old(alloc.outmatch), g.outm, alloc.outmatch);
          if old(Empty(alloc.inmatch)) {
            FairStays(g, prio, G());
          }
          g := G();
        }
      }
      if old(Empty(alloc.inmatch)) {
        FairEnds(g, prio);
      }
      prio := (prio + 1) % alloc.inputs;
    }
  }
}
