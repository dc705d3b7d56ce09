/** The concentrated mesh with express channels around its edge (two dimensions, one or four nodes per router).

A router at the edge has no neighbour to one side; the output on that side leads half-way along
the edge instead.
*/
module CMesh {
  import opened Arith

  /** Routers per row and nodes per router. */
  datatype Config = Config(k: nat, c: nat) {
    ghost predicate Ok() {
      2 <= k && k % 2 == 0 && (c == 1 || c == 4)
    }

    function CX(): nat {
      if c < 2 then 1 else c / 2
    }

    function CY(): nat {
      c / CX()
    }
  }

  const PX := 0
  const NX := 1
  const PY := 2
  const NY := 3

  ghost predicate OnGrid(k: nat, x: int, y: int) {
    0 <= x < k && 0 <= y < k
  }

  ghost predicate IsPort(p: int) {
    0 <= p < 4
  }

  /** The number of the channel in block b that belongs to the router at (x, y). */
  function Code(k: nat, b: int, x: int, y: int): int {
    k * y + x + b * (k * k)
  }

  /** The channel behind output p of the router at (x, y). */
  function OutChannel(k: nat, p: int, x: int, y: int): int {
    Code(k, p, x, y)
  }

  /** The channel in front of input p of the router at (x, y). */
  function InChannel(k: nat, p: int, x: int, y: int): int {
    var offset := k * k;
    if p == PX then
      if x == k - 1 then (if y < k / 2 then k * (y + k / 2) + x else k * (y - k / 2) + x)
      else k * y + (x + 1) + 1 * offset
    else if p == NX then
      if x == 0 then (if y < k / 2 then k * (y + k / 2) + x + offset else k * (y - k / 2) + x + offset)
      else k * y + (x - 1) + 0 * offset
    else if p == PY then
      if y == k - 1 then (if x < k / 2 then k * y + (x + k / 2) + 2 * offset else k * y + (x - k / 2) + 2 * offset)
      else k * (y + 1) + x + 3 * offset
    else
      if y == 0 then (if x < k / 2 then k * y + (x + k / 2) + 3 * offset else k * y + (x - k / 2) + 3 * offset)
      else k * (y - 1) + x + 2 * offset
  }

  /** The position half a side away. */
  function Across(k: nat, v: int): int {
    if v < k / 2 then v + k / 2 else v - k / 2
  }

  /** Where the channel behind output p of (x, y) ends: column, row and input port. */
  function Sink(k: nat, p: int, x: int, y: int): (int, int, int) {
    if p == PX then (if x < k - 1 then (x + 1, y, NX) else (x, Across(k, y), PX))
    else if p == NX then (if x > 0 then (x - 1, y, PX) else (x, Across(k, y), NX))
    else if p == PY then (if y < k - 1 then (x, y + 1, NY) else (Across(k, x), y, PY))
    else (if y > 0 then (x, y - 1, PY) else (Across(k, x), y, NY))
  }

  lemma CodeRange(k: nat, b: int, x: int, y: int)
    requires OnGrid(k, x, y) && IsPort(b)
    ensures 0 <= Code(k, b, x, y) < 4 * (k * k)
  {
    MulNonneg(y, k);
    MulMono(y + 1, k, k);
    assert (y + 1) * k == y * k + k && k * y == y * k;
    MulNonneg(k, k);
    MulNonneg(b, k * k);
    MulMono(b + 1, 4, k * k);
    assert (b + 1) * (k * k) == b * (k * k) + k * k;
  }

  lemma CodeUnique(k: nat, b: int, x: int, y: int, b1: int, x1: int, y1: int)
    requires OnGrid(k, x, y) && IsPort(b) && OnGrid(k, x1, y1) && IsPort(b1)
    requires Code(k, b, x, y) == Code(k, b1, x1, y1)
    ensures b == b1 && x == x1 && y == y1
  {
    var r, r1 := y * k + x, y1 * k + x1;
    MulNonneg(y, k);
    MulNonneg(y1, k);
    MulMono(y + 1, k, k);
    MulMono(y1 + 1, k, k);
    assert (y + 1) * k == y * k + k && (y1 + 1) * k == y1 * k + k && k * y == y * k && k * y1 == y1 * k;
    DivModUnique(Code(k, b, x, y), k * k, b, r);
    DivModUnique(Code(k, b1, x1, y1), k * k, b1, r1);
    DivModUnique(r, k, y, x);
    DivModUnique(r1, k, y1, x1);
  }

  /** The channel behind an output is the channel in front of the input it ends at. */
  lemma SinkMeetsSource(k: nat, p: int, x: int, y: int)
    requires 2 <= k && k % 2 == 0 && OnGrid(k, x, y) && IsPort(p)
    ensures var (x1, y1, p1) := Sink(k, p, x, y);
            OnGrid(k, x1, y1) && IsPort(p1) && InChannel(k, p1, x1, y1) == OutChannel(k, p, x, y)
  {
  }

  /** The link relation is symmetric: the sink of the sink's output on the same side is where we started. */
  lemma SinkIsInvolution(k: nat, p: int, x: int, y: int)
    requires 2 <= k && k % 2 == 0 && OnGrid(k, x, y) && IsPort(p)
    ensures var (x1, y1, p1) := Sink(k, p, x, y); Sink(k, p1, x1, y1) == (x, y, p)
  {
  }

  /** No channel is the input of two ports. */
  lemma InChannelUnique(k: nat, p: int, x: int, y: int, q: int, u: int, v: int)
    requires 2 <= k && k % 2 == 0 && OnGrid(k, x, y) && IsPort(p) && OnGrid(k, u, v) && IsPort(q)
    requires InChannel(k, p, x, y) == InChannel(k, q, u, v)
    ensures (p, x, y) == (q, u, v)
  {
    hide InChannel, Code;
    SinkIsInvolution(k, p, x, y);
    SinkIsInvolution(k, q, u, v);
    var (x1, y1, p1) := Sink(k, p, x, y);
    var (u1, v1, q1) := Sink(k, q, u, v);
    SinkMeetsSource(k, p, x, y);
    SinkMeetsSource(k, q, u, v);
    SinkMeetsSource(k, p1, x1, y1);
    SinkMeetsSource(k, q1, u1, v1);
    CodeUnique(k, p1, x1, y1, q1, u1, v1);
  }

  /** Every channel number belongs to some router. */
  lemma Decode(k: nat, ch: nat) returns (b: int, x: int, y: int)
    requires 0 < k && ch < 4 * (k * k)
    ensures OnGrid(k, x, y) && IsPort(b) && Code(k, b, x, y) == ch
  {
    hide Quot, Rem;
    MulMono(1, k, k);
    b := Quot(ch, k * k);
    var r := Rem(ch, k * k);
    QuotRem(ch, k * k);
    if b >= 4 {
      MulMono(4, b, k * k);
    }
    y, x := Quot(r, k), Rem(r, k);
    QuotRem(r, k);
    if y >= k {
      MulMono(k, y, k);
    }
    assert k * y == y * k;
  }

  /** The coordinates of a router number. */
  function X(k: nat, node: nat): nat
    requires 0 < k
  {
    Rem(node, k)
  }

  function Y(k: nat, node: nat): nat
    requires 0 < k
  {
    Quot(node, k)
  }

  lemma RouterAt(k: nat, x: nat, y: nat)
    requires OnGrid(k, x, y)
    ensures 0 <= k * y + x < k * k && X(k, k * y + x) == x && Y(k, k * y + x) == y
  {
    MulNonneg(y, k);
    MulMono(y + 1, k, k);
    assert (y + 1) * k == y * k + k && k * y == y * k;
    QuotRemUnique(k * y + x, k, y, x);
  }

  lemma RouterOnGrid(k: nat, node: nat)
    requires 0 < k && node < k * k
    ensures OnGrid(k, X(k, node), Y(k, node)) && k * Y(k, node) + X(k, node) == node
  {
    hide Quot, Rem;
    QuotRem(node, k);
    if Y(k, node) >= k {
      MulMono(k, Y(k, node), k);
    }
    assert k * Y(k, node) == Y(k, node) * k;
  }

  /** The map from channels to (router, port), for the ports of the routers below n. */
  ghost predicate InputsOf(k: nat, n: nat, ins: map<int, (int, int)>)
    requires 0 < k
  {
    && (forall r: nat, p :: r < n && IsPort(p) ==>
          InChannel(k, p, X(k, r), Y(k, r)) in ins && ins[InChannel(k, p, X(k, r), Y(k, r))] == (r, p))
    && (forall ch :: ch in ins ==> var (r, p) := ins[ch];
          0 <= r < n && IsPort(p) && ch == InChannel(k, p, X(k, r), Y(k, r)))
  }

  ghost predicate OutputsOf(k: nat, n: nat, outs: map<int, (int, int)>)
    requires 0 < k
  {
    && (forall r: nat, p :: r < n && IsPort(p) ==>
          OutChannel(k, p, X(k, r), Y(k, r)) in outs && outs[OutChannel(k, p, X(k, r), Y(k, r))] == (r, p))
    && (forall ch :: ch in outs ==> var (r, p) := outs[ch];
          0 <= r < n && IsPort(p) && ch == OutChannel(k, p, X(k, r), Y(k, r)))
  }

  /** The channels of the next router are new. */
  lemma FreshInput(k: nat, n: nat, ins: map<int, (int, int)>, p: int)
    requires 2 <= k && k % 2 == 0 && n < k * k && InputsOf(k, n, ins) && IsPort(p)
    ensures InChannel(k, p, X(k, n), Y(k, n)) !in ins
  {
    hide InChannel, X, Y;
    RouterOnGrid(k, n);
    var ch := InChannel(k, p, X(k, n), Y(k, n));
    if ch in ins {
      var (r, q) := ins[ch];
      RouterOnGrid(k, r);
      InChannelUnique(k, p, X(k, n), Y(k, n), q, X(k, r), Y(k, r));
    }
  }

  lemma FreshOutput(k: nat, n: nat, outs: map<int, (int, int)>, p: int)
    requires 2 <= k && k % 2 == 0 && n < k * k && OutputsOf(k, n, outs) && IsPort(p)
    ensures OutChannel(k, p, X(k, n), Y(k, n)) !in outs
  {
    hide Code, X, Y;
    RouterOnGrid(k, n);
    var ch := OutChannel(k, p, X(k, n), Y(k, n));
    if ch in outs {
      var (r, q) := outs[ch];
      RouterOnGrid(k, r);
      CodeUnique(k, p, X(k, n), Y(k, n), q, X(k, r), Y(k, r));
    }
  }

  lemma OtherPorts(k: nat, x: int, y: int, p: int)
    requires 2 <= k && k % 2 == 0 && OnGrid(k, x, y) && IsPort(p)
    ensures forall q :: IsPort(q) && q != p ==> InChannel(k, q, x, y) != InChannel(k, p, x, y)
    ensures forall q :: IsPort(q) && q != p ==> OutChannel(k, q, x, y) != OutChannel(k, p, x, y)
  {
    forall q | IsPort(q) && q != p
      ensures InChannel(k, q, x, y) != InChannel(k, p, x, y)
      ensures OutChannel(k, q, x, y) != OutChannel(k, p, x, y)
    {
      if InChannel(k, q, x, y) == InChannel(k, p, x, y) {
        InChannelUnique(k, q, x, y, p, x, y);
      }
      if OutChannel(k, q, x, y) == OutChannel(k, p, x, y) {
        CodeUnique(k, q, x, y, p, x, y);
      }
    }
  }

  /** Adds the four output channels of one router. */
  method AddOutputs(k: nat, node: nat, outs: map<int, (int, int)>) returns (outs1: map<int, (int, int)>)
    requires 2 <= k && k % 2 == 0 && node < k * k && OutputsOf(k, node, outs)
    ensures OutputsOf(k, node + 1, outs1)
  {
    hide OutChannel, X, Y;
    outs1 := outs;
    var x, y := X(k, node), Y(k, node);
    RouterOnGrid(k, node);
    var p := 0;
    while p < 4
      invariant 0 <= p <= 4
      invariant forall ch :: ch in outs ==> ch in outs1 && outs1[ch] == outs[ch]
      invariant forall q :: 0 <= q < p ==> OutChannel(k, q, x, y) in outs1 && outs1[OutChannel(k, q, x, y)] == (node, q)
      invariant forall ch :: ch in outs1 && ch !in outs ==>
        outs1[ch].0 == node && 0 <= outs1[ch].1 < p && ch == OutChannel(k, outs1[ch].1, x, y)
    {
      FreshOutput(k, node, outs, p);
      OtherPorts(k, x, y, p);
      assert OutChannel(k, p, x, y) !in outs1;
      outs1 := outs1[OutChannel(k, p, x, y) := (node, p)];
      p := p + 1;
    }
  }

  /** Adds the four input channels of one router. */
  method AddInputs(k: nat, node: nat, ins: map<int, (int, int)>) returns (ins1: map<int, (int, int)>)
    requires 2 <= k && k % 2 == 0 && node < k * k && InputsOf(k, node, ins)
    ensures InputsOf(k, node + 1, ins1)
  {
    hide InChannel, X, Y;
    ins1 := ins;
    var x, y := X(k, node), Y(k, node);
    RouterOnGrid(k, node);
    var p := 0;
    while p < 4
      invariant 0 <= p <= 4
      invariant forall ch :: ch in ins ==> ch in ins1 && ins1[ch] == ins[ch]
      invariant forall q :: 0 <= q < p ==> InChannel(k, q, x, y) in ins1 && ins1[InChannel(k, q, x, y)] == (node, q)
      invariant forall ch :: ch in ins1 && ch !in ins ==>
        ins1[ch].0 == node && 0 <= ins1[ch].1 < p && ch == InChannel(k, ins1[ch].1, x, y)
    {
      FreshInput(k, node, ins, p);
      OtherPorts(k, x, y, p);
      assert InChannel(k, p, x, y) !in ins1;
      ins1 := ins1[InChannel(k, p, x, y) := (node, p)];
      p := p + 1;
    }
  }

  lemma NoRouters(k: nat)
    requires 0 < k
    ensures InputsOf(k, 0, map[]) && OutputsOf(k, 0, map[])
  {
  }

  lemma ChannelUsed(k: nat, outs: map<int, (int, int)>, ins: map<int, (int, int)>, ch: int)
    requires 2 <= k && k % 2 == 0 && InputsOf(k, k * k, ins) && OutputsOf(k, k * k, outs)
    ensures ch in outs <==> 0 <= ch < 4 * (k * k)
    ensures ch in ins <==> 0 <= ch < 4 * (k * k)
  {
    hide InChannel, Code, X, Y;
    if 0 <= ch < 4 * (k * k) {
      var b, x, y := Decode(k, ch);
      RouterAt(k, x, y);
      assert OutChannel(k, b, X(k, k * y + x), Y(k, k * y + x)) == ch;
      SinkMeetsSource(k, b, x, y);
      var (x1, y1, p1) := Sink(k, b, x, y);
      RouterAt(k, x1, y1);
      assert InChannel(k, p1, X(k, k * y1 + x1), Y(k, k * y1 + x1)) == ch;
    }
    if ch in outs {
      var (r, p) := outs[ch];
      RouterOnGrid(k, r);
      CodeRange(k, p, X(k, r), Y(k, r));
    }
    if ch in ins {
      var (r, p) := ins[ch];
      RouterOnGrid(k, r);
      SinkMeetsSource(k, p, X(k, r), Y(k, r));
      SinkIsInvolution(k, p, X(k, r), Y(k, r));
      var (x1, y1, p1) := Sink(k, p, X(k, r), Y(k, r));
      SinkMeetsSource(k, p1, x1, y1);
      CodeRange(k, p1, x1, y1);
    }
  }

  /** The wiring of the network: every channel is the output of exactly one port and the input of exactly
      one port. */
  method BuildNet(k: nat) returns (outs: map<int, (int, int)>, ins: map<int, (int, int)>)
    requires 2 <= k && k % 2 == 0
    ensures InputsOf(k, k * k, ins) && OutputsOf(k, k * k, outs)
    ensures forall ch :: ch in outs <==> 0 <= ch < 4 * (k * k)
    ensures forall ch :: ch in ins <==> 0 <= ch < 4 * (k * k)
  {
    hide InputsOf, OutputsOf;
    outs, ins := map[], map[];
    NoRouters(k);
    var node: nat := 0;
    var size := k * k;
    while node < size
      invariant node <= size && InputsOf(k, node, ins) && OutputsOf(k, node, outs)
    {
      outs := AddOutputs(k, node, outs);
      ins := AddInputs(k, node, ins);
      node := node + 1;
    }
    forall ch
      ensures ch in outs <==> 0 <= ch < 4 * (k * k)
      ensures ch in ins <==> 0 <= ch < 4 * (k * k)
    {
      ChannelUsed(k, outs, ins, ch);
    }
  }

  // ---- nodes ----

  /** The address of node (x, y) of the router at (xi, yi). */
  function NodeLink(cfg: Config, xi: nat, yi: nat, x: nat, y: nat): int {
    (cfg.k * cfg.CX()) * (cfg.CY() * yi + y) + (cfg.CX() * xi + x)
  }

  function NodeToRouter(cfg: Config, address: nat): int
    requires 0 < cfg.CX() * cfg.k && 0 < cfg.CY()
  {
    var y := Quot(Quot(address, cfg.CX() * cfg.k), cfg.CY());
    var x := Quot(Rem(address, cfg.CX() * cfg.k), cfg.CY());
    y * cfg.k + x
  }

  /** Masking with one less than a power of two is taking the remainder. */
  function NodeToPort(cfg: Config, address: nat): int
    requires 0 < cfg.CX() && 0 < cfg.CY() && 0 < 2 * cfg.k
  {
    var x := Rem(address, cfg.CX());
    var y := Rem(Quot(address, 2 * cfg.k), cfg.CY());
    (cfg.c / 2) * y + x
  }

  lemma Commute(k: nat, cx: nat, row: nat)
    ensures (k * cx) * row == row * (cx * k)
  {
  }

  lemma PortInverts(k: nat, cx: nat, row: nat, xi: nat, x: nat, y: nat, a: nat)
    requires 0 < k && (cx == 1 || cx == 2) && x < cx && y < cx && a == row * (cx * k) + (cx * xi + x)
    requires Quot(a, cx * k) == row && Rem(row, cx) == y
    ensures Rem(a, cx) == x && Rem(Quot(a, 2 * k), cx) == y
  {
    hide Quot, Rem;
    if cx == 1 {
      QuotRemUnique(a, 1, a, 0);
      QuotRemUnique(Quot(a, 2 * k), 1, Quot(a, 2 * k), 0);
    } else {
      assert row * (2 * k) == (row * k) * 2;
      MulNonneg(row, k);
      QuotRemUnique(a, 2, row * k + xi, x);
    }
  }

  lemma LinkInRange(cfg: Config, row: nat, col: nat)
    requires cfg.Ok() && row < cfg.CY() * cfg.k && col < cfg.CX() * cfg.k
    ensures row * (cfg.CX() * cfg.k) + col < cfg.c * (cfg.k * cfg.k)
  {
    var m := cfg.CX() * cfg.k;
    MulMono(row + 1, cfg.CY() * cfg.k, m);
    assert (row + 1) * m == row * m + m;
    if cfg.c == 4 {
      assert (2 * cfg.k) * (2 * cfg.k) == 4 * (cfg.k * cfg.k);
    }
  }

  /** An address counts the nodes row by row over the whole network. */
  lemma LinkIs(cfg: Config, xi: nat, yi: nat, x: nat, y: nat)
    requires cfg.Ok() && OnGrid(cfg.k, xi, yi) && x < cfg.CX() && y < cfg.CY()
    ensures var a, m, row, col := NodeLink(cfg, xi, yi, x, y), cfg.CX() * cfg.k, cfg.CY() * yi + y, cfg.CX() * xi + x;
      && 0 <= a && 0 < m && a == row * m + col && col < m && row < cfg.CY() * cfg.k
      && Quot(a, m) == row && Rem(a, m) == col && a / m == row && a % m == col
  {
    hide Quot, Rem;
    var k, cx := cfg.k, cfg.CX();
    var row, col := cfg.CY() * yi + y, cx * xi + x;
    assert cx == cfg.CY() && (cx == 1 || cx == 2);
    Commute(k, cx, row);
    MulNonneg(row, cx * k);
    QuotRemUnique(row * (cx * k) + col, cx * k, row, col);
    DivModUnique(row * (cx * k) + col, cx * k, row, col);
  }

  /** Both conversions invert the attachment: the router, and the port in the order the nodes are attached. */
  lemma AttachmentInverts(cfg: Config, xi: nat, yi: nat, x: nat, y: nat)
    requires cfg.Ok() && OnGrid(cfg.k, xi, yi) && x < cfg.CX() && y < cfg.CY()
    ensures 0 < cfg.CX() * cfg.k && 0 <= NodeLink(cfg, xi, yi, x, y) < cfg.c * (cfg.k * cfg.k)
    ensures NodeToRouter(cfg, NodeLink(cfg, xi, yi, x, y)) == cfg.k * yi + xi
    ensures NodeToPort(cfg, NodeLink(cfg, xi, yi, x, y)) == cfg.CX() * y + x
    ensures NodeLink(cfg, xi, yi, x, y) % (cfg.CX() * cfg.k) == cfg.CX() * xi + x
    ensures NodeLink(cfg, xi, yi, x, y) / (cfg.CX() * cfg.k) == cfg.CY() * yi + y
  {
    hide Quot, Rem;
    var k, cx, cy := cfg.k, cfg.CX(), cfg.CY();
    var row, col := cy * yi + y, cx * xi + x;
    var a := NodeLink(cfg, xi, yi, x, y);
    assert cx == cy && (cx == 1 || cx == 2) && cfg.c == cx * cx;
    LinkIs(cfg, xi, yi, x, y);
    hide NodeLink;
    QuotRemUnique(row, cy, yi, y);
    QuotRemUnique(col, cy, xi, x);
    assert yi * k == k * yi;
    LinkInRange(cfg, row, col);
    PortInverts(k, cx, row, xi, x, y, a);
  }

  lemma RowBound(cfg: Config, row: nat, col: nat)
    requires cfg.Ok() && row * (cfg.CX() * cfg.k) + col < cfg.c * (cfg.k * cfg.k)
    ensures row < cfg.CY() * cfg.k
  {
    var m := cfg.CX() * cfg.k;
    assert cfg.c == 4 ==> (2 * cfg.k) * (2 * cfg.k) == 4 * (cfg.k * cfg.k);
    if row >= cfg.CY() * cfg.k {
      MulMono(cfg.CY() * cfg.k, row, m);
    }
  }

  /** Every address is attached somewhere. */
  lemma EveryNodeAttached(cfg: Config, a: nat) returns (xi: nat, yi: nat, x: nat, y: nat)
    requires cfg.Ok() && a < cfg.c * (cfg.k * cfg.k)
    ensures OnGrid(cfg.k, xi, yi) && x < cfg.CX() && y < cfg.CY() && NodeLink(cfg, xi, yi, x, y) == a
  {
    hide Quot, Rem;
    var k, cx, cy := cfg.k, cfg.CX(), cfg.CY();
    assert cx == cy && (cx == 1 || cx == 2);
    var m := cx * k;
    var row, col := Quot(a, m), Rem(a, m);
    QuotRem(a, m);
    RowBound(cfg, row, col);
    yi, y, xi, x := Quot(row, cy), Rem(row, cy), Quot(col, cx), Rem(col, cx);
    QuotRem(row, cy);
    QuotRem(col, cx);
    Commute(k, cx, row);
  }

  // ---- routing ----

  /** The output port, counted from the first one that is not a node's. */
  function NextDir(k: nat, x: int, y: int, dx: int, dy: int): int {
    if x < dx then
      if dx - x > k / 2 - 1 && y == 0 then NY
      else if dx - x > k / 2 - 1 && y == k - 1 then PY
      else PX
    else if x > dx then
      if x - dx > k / 2 - 1 && y == 0 then NY
      else if x - dx > k / 2 - 1 && y == k - 1 then PY
      else NX
    else if y < dy then
      if dy - y > k / 2 - 1 && x == 0 then NX
      else if dy - y > k / 2 - 1 && x == k - 1 then PX
      else PY
    else
      if y - dy > k / 2 - 1 && x == 0 then NX
      else if y - dy > k / 2 - 1 && x == k - 1 then PX
      else NY
  }

  /** The routing function on router numbers. */
  function CmeshNext(cfg: Config, cur: nat, dest: nat): int
    requires 0 < cfg.k
  {
    cfg.c + NextDir(cfg.k, X(cfg.k, cur), Y(cfg.k, cur), X(cfg.k, dest), Y(cfg.k, dest))
  }

  /** The columns first.  A hop covers one step, or half a side where that is not too far and the router lies on the edge
      that the express channels run along. */
  lemma HopIsNearer(k: nat, x: int, y: int, dx: int, dy: int)
    requires 2 <= k && k % 2 == 0 && OnGrid(k, x, y) && OnGrid(k, dx, dy) && (x != dx || y != dy)
    ensures var dir := NextDir(k, x, y, dx, dy);
            var (x1, y1, _) := Sink(k, dir, x, y);
      && IsPort(dir) && OnGrid(k, x1, y1)
      && (x != dx ==> y1 == y && Abs(x1 - dx) == Abs(x - dx) - if 2 * Abs(x - dx) >= k && (y == 0 || y == k - 1) then k / 2 else 1)
      && (x == dx ==> x1 == x && Abs(y1 - dy) == Abs(y - dy) - if 2 * Abs(y - dy) >= k && (x == 0 || x == k - 1) then k / 2 else 1)
  {
  }

  /** The hops for d steps along an edge, where one may cover half a side, and elsewhere. */
  function Hops(k: nat, d: nat, edge: bool): nat {
    if edge && 2 * d >= k then d - k / 2 + 1 else d
  }

  /** The hops from (x, y) to (dx, dy). */
  ghost function HopsBetween(k: nat, x: int, y: int, dx: int, dy: int): nat {
    Hops(k, Abs(x - dx), y == 0 || y == k - 1) + Hops(k, Abs(y - dy), dx == 0 || dx == k - 1)
  }

  lemma HopCounts(k: nat, x: int, y: int, dx: int, dy: int)
    requires 2 <= k && k % 2 == 0 && OnGrid(k, x, y) && OnGrid(k, dx, dy) && (x != dx || y != dy)
    ensures var dir := NextDir(k, x, y, dx, dy); var (x1, y1, _) := Sink(k, dir, x, y);
      IsPort(dir) && OnGrid(k, x1, y1) && HopsBetween(k, x1, y1, dx, dy) == HopsBetween(k, x, y, dx, dy) - 1
  {
    hide NextDir, Sink;
    HopIsNearer(k, x, y, dx, dy);
  }

  /** The hops from router r to router dest. */
  ghost function HopsTo(k: nat, r: nat, dest: nat): nat
    requires 0 < k
  {
    HopsBetween(k, X(k, r), Y(k, r), X(k, dest), Y(k, dest))
  }

  lemma SinkIsWired(k: nat, ins: map<int, (int, int)>, r: nat, p: int)
    requires 2 <= k && k % 2 == 0 && r < k * k && InputsOf(k, k * k, ins) && IsPort(p)
    ensures var (x1, y1, p1) := Sink(k, p, X(k, r), Y(k, r));
      && OutChannel(k, p, X(k, r), Y(k, r)) in ins
      && ins[OutChannel(k, p, X(k, r), Y(k, r))] == (k * y1 + x1, p1)
      && OnGrid(k, x1, y1)
  {
    hide InChannel, Code, X, Y;
    RouterOnGrid(k, r);
    SinkMeetsSource(k, p, X(k, r), Y(k, r));
    var (x1, y1, p1) := Sink(k, p, X(k, r), Y(k, r));
    RouterAt(k, x1, y1);
    assert InChannel(k, p1, X(k, k * y1 + x1), Y(k, k * y1 + x1)) in ins;
  }

  /** The router that output `port` of router r leads to, read off the wiring. */
  ghost function Linked(cfg: Config, ins: map<int, (int, int)>, r: nat, port: int): int
    requires cfg.Ok() && r < cfg.k * cfg.k && InputsOf(cfg.k, cfg.k * cfg.k, ins) && IsPort(port - cfg.c)
  {
    RouterOnGrid(cfg.k, r);
    var ch := OutChannel(cfg.k, port - cfg.c, X(cfg.k, r), Y(cfg.k, r));
    SinkIsWired(cfg.k, ins, r, port - cfg.c);
    ins[ch].0
  }

  /** Following cmesh_next over the wiring that was built: every hop is to a router of the network, and one fewer is
      left. */
  lemma WiredHopCounts(cfg: Config, ins: map<int, (int, int)>, cur: nat, dest: nat)
    requires cfg.Ok() && cur < cfg.k * cfg.k && dest < cfg.k * cfg.k && cur != dest && InputsOf(cfg.k, cfg.k * cfg.k, ins)
    ensures IsPort(CmeshNext(cfg, cur, dest) - cfg.c)
    ensures var r := Linked(cfg, ins, cur, CmeshNext(cfg, cur, dest));
      0 <= r < cfg.k * cfg.k && HopsTo(cfg.k, r, dest) == HopsTo(cfg.k, cur, dest) - 1
  {
    hide X, Y, NextDir, HopsBetween, Sink, OutChannel;
    RouterOnGrid(cfg.k, cur);
    RouterOnGrid(cfg.k, dest);
    var x, y, dx, dy := X(cfg.k, cur), Y(cfg.k, cur), X(cfg.k, dest), Y(cfg.k, dest);
    HopCounts(cfg.k, x, y, dx, dy);
    var dir := NextDir(cfg.k, x, y, dx, dy);
    SinkIsWired(cfg.k, ins, cur, dir);
    var (x1, y1, _) := Sink(cfg.k, dir, x, y);
    RouterAt(cfg.k, x1, y1);
  }

  /** The router a packet has reached after i hops. */
  ghost function At(cfg: Config, ins: map<int, (int, int)>, src: nat, dest: nat, i: nat): (r: nat)
    requires cfg.Ok() && src < cfg.k * cfg.k && dest < cfg.k * cfg.k && InputsOf(cfg.k, cfg.k * cfg.k, ins)
    ensures r < cfg.k * cfg.k
  {
    if i == 0 then src
    else
      var r := At(cfg, ins, src, dest, i - 1);
      if r == dest then r else
        WiredHopCounts(cfg, ins, r, dest);
        Linked(cfg, ins, r, CmeshNext(cfg, r, dest))
  }

  lemma NoHopsLeft(k: nat, r: nat, dest: nat)
    requires 2 <= k && k % 2 == 0 && r < k * k && dest < k * k
    ensures HopsTo(k, r, dest) == 0 <==> r == dest
  {
    RouterOnGrid(k, r);
    RouterOnGrid(k, dest);
  }

  /** Every packet arrives after exactly the hops that the express channels leave of its distance. */
  lemma {:induction false} Delivers(cfg: Config, ins: map<int, (int, int)>, src: nat, dest: nat, i: nat)
    requires cfg.Ok() && src < cfg.k * cfg.k && dest < cfg.k * cfg.k && InputsOf(cfg.k, cfg.k * cfg.k, ins)
    ensures var total := HopsTo(cfg.k, src, dest);
            var r := At(cfg, ins, src, dest, i);
            HopsTo(cfg.k, r, dest) == (if i < total then total - i else 0) && (r == dest <==> total <= i)
  {
    hide HopsTo, NextDir, Linked, InputsOf;
    NoHopsLeft(cfg.k, At(cfg, ins, src, dest, i), dest);
    if i > 0 {
      Delivers(cfg, ins, src, dest, i - 1);
      var r := At(cfg, ins, src, dest, i - 1);
      if r != dest {
        WiredHopCounts(cfg, ins, r, dest);
      }
    }
  }

  // ---- the nodes of a router ----

  /** The loop that attaches the nodes of a router: port number CX * y + x is the node at place (x, y). */
  method AttachNodes(cfg: Config, xi: nat, yi: nat) returns (ports: seq<int>)
    requires cfg.Ok() && OnGrid(cfg.k, xi, yi)
    ensures |ports| == cfg.c
    ensures forall x, y :: 0 <= x < cfg.CX() && 0 <= y < cfg.CY() ==>
      0 <= cfg.CX() * y + x < cfg.c && ports[cfg.CX() * y + x] == NodeLink(cfg, xi, yi, x, y)
  {
    hide NodeLink;
    ports := [];
    var y := 0;
    while y < cfg.CY()
      invariant 0 <= y <= cfg.CY() && |ports| == cfg.CX() * y
      invariant forall u, v :: 0 <= u < cfg.CX() && 0 <= v < y ==>
        0 <= cfg.CX() * v + u < |ports| && ports[cfg.CX() * v + u] == NodeLink(cfg, xi, yi, u, v)
    {
      ghost var before := ports;
      var x := 0;
      while x < cfg.CX()
        invariant 0 <= x <= cfg.CX() && |ports| == cfg.CX() * y + x && before <= ports
        invariant forall u :: 0 <= u < x ==> ports[cfg.CX() * y + u] == NodeLink(cfg, xi, yi, u, y)
      {
        ports := ports + [NodeLink(cfg, xi, yi, x, y)];
        x := x + 1;
      }
      y := y + 1;
    }
  }

  lemma PlaceInRange(cfg: Config, x: nat, y: nat)
    requires cfg.Ok() && x < cfg.CX() && y < cfg.CY()
    ensures 0 <= cfg.CX() * y + x < cfg.c
  {
  }

  lemma NextIsLink(cfg: Config, cur: nat, dest: nat)
    requires cfg.Ok() && cur < cfg.k * cfg.k && dest < cfg.k * cfg.k && cur != dest
    ensures IsPort(CmeshNext(cfg, cur, dest) - cfg.c)
  {
    hide X, Y, NextDir;
    RouterOnGrid(cfg.k, cur);
    RouterOnGrid(cfg.k, dest);
    HopIsNearer(cfg.k, X(cfg.k, cur), Y(cfg.k, cur), X(cfg.k, dest), Y(cfg.k, dest));
  }

  /** The routing function: towards the node's router over a link, and there through the port of the node. */
  method DorCmesh(cfg: Config, cur: nat, dest: nat) returns (outPort: int)
    requires cfg.Ok() && cur < cfg.k * cfg.k && dest < cfg.c * (cfg.k * cfg.k)
    ensures 0 < cfg.CX() * cfg.k && 0 <= NodeToRouter(cfg, dest) < cfg.k * cfg.k
    ensures outPort < cfg.c <==> cur == NodeToRouter(cfg, dest)
    ensures cur != NodeToRouter(cfg, dest) ==> outPort == CmeshNext(cfg, cur, NodeToRouter(cfg, dest)) && IsPort(outPort - cfg.c)
    ensures forall xi: nat, yi: nat, x: nat, y: nat ::
      OnGrid(cfg.k, xi, yi) && x < cfg.CX() && y < cfg.CY() && NodeLink(cfg, xi, yi, x, y) == dest && cur == cfg.k * yi + xi ==>
        outPort == cfg.CX() * y + x
  {
    ghost var xi, yi, x, y := EveryNodeAttached(cfg, dest);
    AttachmentInverts(cfg, xi, yi, x, y);
    ghost var router := cfg.k * yi + xi;
    RouterAt(cfg.k, xi, yi);
    PlaceInRange(cfg, x, y);
    hide NodeLink, NodeToRouter, NodeToPort, CmeshNext;
    if cur == NodeToRouter(cfg, dest) {
      outPort := NodeToPort(cfg, dest);
    } else {
      outPort := CmeshNext(cfg, cur, NodeToRouter(cfg, dest));
      NextIsLink(cfg, cur, router);
    }
    forall ui: nat, vi: nat, u: nat, v: nat | OnGrid(cfg.k, ui, vi) && u < cfg.CX() && v < cfg.CY() && NodeLink(cfg, ui, vi, u, v) == dest
      ensures NodeToRouter(cfg, dest) == cfg.k * vi + ui && NodeToPort(cfg, dest) == cfg.CX() * v + u
    {
      AttachmentInverts(cfg, ui, vi, u, v);
    }
  }
}
