/**
  Cost grids, monotone (right/down) paths through them, and the row-major
  minimum-path-sum recurrence that both solvers of the repository compute.
  Everything here is a value-level specification that the imperative
  modules are proved against.
 */
module Grids {

  /** A matrix with at least one row, every row as long as the first. */
  predicate Rect(g: seq<seq<int>>) {
    |g| > 0 && forall i :: 0 <= i < |g| ==> |g[i]| == |g[0]|
  }

  /** An n-by-n matrix. */
  predicate IsSquare(g: seq<seq<int>>, n: int) {
    |g| == n && forall i :: 0 <= i < |g| ==> |g[i]| == n
  }

  /** Every entry of g lies in lo..hi. */
  predicate CostsWithin(g: seq<seq<int>>, lo: int, hi: int) {
    forall i, j :: 0 <= i < |g| && 0 <= j < |g[i]| ==> lo <= g[i][j] <= hi
  }

  /** (r, c) is a cell of the rectangular grid g. */
  predicate OnGrid(g: seq<seq<int>>, r: int, c: int) {
    Rect(g) && 0 <= r < |g| && 0 <= c < |g[0]|
  }

  function Min(a: int, b: int): int {
    if a <= b then a else b
  }

  /**
    The row-major dynamic program: the cheapest cost of reaching (r, c) from
    (0, 0). Row 0 and column 0 are prefix sums; every other cell adds its own
    cost to the cheaper of the cell above and the cell to the left.
   */
  function Dp(g: seq<seq<int>>, r: nat, c: nat): int
    requires OnGrid(g, r, c)
    decreases r + c
  {
    if r == 0 && c == 0 then g[0][0]
    else if r == 0 then Dp(g, 0, c - 1) + g[0][c]
    else if c == 0 then Dp(g, r - 1, 0) + g[r][0]
    else Min(Dp(g, r - 1, c), Dp(g, r, c - 1)) + g[r][c]
  }

  /** Sum of a sequence, peeling off the last element. */
  function Sum(s: seq<int>): int {
    if s == [] then 0 else Sum(s[..|s| - 1]) + s[|s| - 1]
  }

  /** Column c of a rectangular grid, top to bottom. */
  function Column(g: seq<seq<int>>, c: nat): (col: seq<int>)
    requires Rect(g) && c < |g[0]|
    ensures |col| == |g| && forall i :: 0 <= i < |g| ==> col[i] == g[i][c]
  {
    seq(|g|, i requires 0 <= i < |g| => g[i][c])
  }

  /** Along the top row no minimum applies: Dp is the prefix sum of row 0. */
  lemma {:induction false} DpTopRow(g: seq<seq<int>>, c: nat)
    requires OnGrid(g, 0, c)
    ensures Dp(g, 0, c) == Sum(g[0][..c + 1])
  {
    if c > 0 {
      DpTopRow(g, c - 1);
      assert g[0][..c + 1][..c] == g[0][..c];
    }
  }

  /** Down the left column no minimum applies: Dp is the prefix sum of column 0. */
  lemma {:induction false} DpLeftColumn(g: seq<seq<int>>, r: nat)
    requires OnGrid(g, r, 0)
    ensures Dp(g, r, 0) == Sum(Column(g, 0)[..r + 1])
  {
    if r > 0 {
      DpLeftColumn(g, r - 1);
      assert Column(g, 0)[..r + 1][..r] == Column(g, 0)[..r];
    }
  }

  /** With every cost in 0..m, a cell on anti-diagonal r + c costs at most (r + c + 1) * m. */
  lemma {:induction false} DpBounds(g: seq<seq<int>>, m: int, r: nat, c: nat)
    requires OnGrid(g, r, c) && CostsWithin(g, 0, m)
    ensures 0 <= Dp(g, r, c) <= (r + c + 1) * m
    decreases r + c
  {
    assert 0 <= g[r][c] <= m;
    if r == 0 && c == 0 {
    } else if r == 0 {
      DpBounds(g, m, 0, c - 1);
      MulSucc(r + c, m);
    } else if c == 0 {
      DpBounds(g, m, r - 1, 0);
      MulSucc(r + c, m);
    } else {
      DpBounds(g, m, r - 1, c);
      DpBounds(g, m, r, c - 1);
      MulSucc(r + c, m);
    }
  }

  lemma MulSucc(a: int, m: int)
    ensures a * m + m == (a + 1) * m
  {
  }

  // ---------------------------------------------------------------------
  // Monotone paths

  datatype Move = Right | Down

  /** Number of Down moves in p. */
  function Downs(p: seq<Move>): nat {
    if p == [] then 0 else Downs(p[..|p| - 1]) + (if p[|p| - 1] == Down then 1 else 0)
  }

  /** Number of Right moves in p. */
  function Rights(p: seq<Move>): nat {
    if p == [] then 0 else Rights(p[..|p| - 1]) + (if p[|p| - 1] == Right then 1 else 0)
  }

  /**
    The cost of the path that starts at (0, 0) and makes the moves of p: the
    sum of the costs of every cell it visits, both ends included. A path of
    moves p ends at (Downs(p), Rights(p)).
   */
  function PathCost(g: seq<seq<int>>, p: seq<Move>): int
    requires OnGrid(g, Downs(p), Rights(p))
  {
    if p == [] then g[0][0] else PathCost(g, p[..|p| - 1]) + g[Downs(p)][Rights(p)]
  }

  /** p is a right/down path from (0, 0) to the cell (r, c) of g. */
  ghost predicate IsPath(g: seq<seq<int>>, p: seq<Move>, r: int, c: int) {
    OnGrid(g, r, c) && Downs(p) == r && Rights(p) == c
  }

  /** v is the least cost of a right/down path from (0, 0) to (r, c), and some path costs exactly v. */
  ghost predicate IsMinPathCost(g: seq<seq<int>>, r: int, c: int, v: int) {
    (forall p :: IsPath(g, p, r, c) ==> PathCost(g, p) >= v) &&
    (exists p :: IsPath(g, p, r, c) && PathCost(g, p) == v)
  }

  /** No path is cheaper than the recurrence. */
  lemma {:induction false} DpIsLowerBound(g: seq<seq<int>>, p: seq<Move>)
    requires OnGrid(g, Downs(p), Rights(p))
    ensures PathCost(g, p) >= Dp(g, Downs(p), Rights(p))
    decreases |p|
  {
    if p != [] {
      var q := p[..|p| - 1];
      DpIsLowerBound(g, q);
    }
  }

  /** Appending one move moves the end point by one cell. */
  lemma Moves(q: seq<Move>, m: Move)
    ensures Downs(q + [m]) == Downs(q) + (if m == Down then 1 else 0)
    ensures Rights(q + [m]) == Rights(q) + (if m == Right then 1 else 0)
  {
    assert (q + [m])[..|q + [m]| - 1] == q;
  }

  /** ... and adds the cost of the cell it reaches. */
  lemma Extend(g: seq<seq<int>>, q: seq<Move>, m: Move)
    requires OnGrid(g, Downs(q + [m]), Rights(q + [m]))
    ensures PathCost(g, q + [m]) == PathCost(g, q) + g[Downs(q + [m])][Rights(q + [m])]
  {
    Moves(q, m);
    assert (q + [m])[..|q + [m]| - 1] == q;
  }

  /**
    A path to (r, c) that costs exactly Dp, built by following the cheaper
    predecessor backwards: the recurrence is achieved by a path.
   */
  lemma {:induction false} BestPath(g: seq<seq<int>>, r: nat, c: nat) returns (p: seq<Move>)
    requires OnGrid(g, r, c)
    ensures IsPath(g, p, r, c) && PathCost(g, p) == Dp(g, r, c)
    decreases r + c
  {
    if r == 0 && c == 0 {
      p := [];
    } else if r == 0 || (c > 0 && Dp(g, r, c - 1) < Dp(g, r - 1, c)) {
      assert Dp(g, r, c) == Dp(g, r, c - 1) + g[r][c];
      var q := BestPath(g, r, c - 1);
      StepCost(g, q, Right, r, c);
      p := q + [Right];
    } else {
      assert Dp(g, r, c) == Dp(g, r - 1, c) + g[r][c];
      var q := BestPath(g, r - 1, c);
      StepCost(g, q, Down, r, c);
      p := q + [Down];
    }
  }

  /** One step of BestPath: extending the chosen predecessor's path by m reaches (r, c) and adds g[r][c]. */
  lemma StepCost(g: seq<seq<int>>, q: seq<Move>, m: Move, r: int, c: int)
    requires OnGrid(g, r, c)
    requires Downs(q) + (if m == Down then 1 else 0) == r && Rights(q) + (if m == Right then 1 else 0) == c
    ensures Downs(q + [m]) == r && Rights(q + [m]) == c
    ensures PathCost(g, q + [m]) == PathCost(g, q) + g[r][c]
  {
    Moves(q, m);
    assert Downs(q + [m]) == r && Rights(q + [m]) == c;
    Extend(g, q, m);
  }

  /** The recurrence computes exactly the minimum path sum. */
  lemma DpIsMinPath(g: seq<seq<int>>, r: nat, c: nat)
    requires OnGrid(g, r, c)
    ensures IsMinPathCost(g, r, c, Dp(g, r, c))
  {
    forall p | IsPath(g, p, r, c) ensures PathCost(g, p) >= Dp(g, r, c) {
      DpIsLowerBound(g, p);
    }
    var best := BestPath(g, r, c);
  }

  // ---------------------------------------------------------------------
  // The generated grids

  /** 2 to the power k. */
  function Pow2(k: nat): (p: nat)
    ensures p >= 1
  {
    if k == 0 then 1 else 2 * Pow2(k - 1)
  }

  /**
    The low `bits` bits of the two's-complement XOR of a and b, read as a
    number, lowest bit first. For every int, a % 2 is its lowest
    two's-complement bit and a / 2 its arithmetic shift right (Dafny's
    division is Euclidean, so both hold for negative a too).
   */
  function XorLow(a: int, b: int, bits: nat): (x: nat)
    ensures x < Pow2(bits)
    decreases bits
  {
    if bits == 0 then 0 else 2 * XorLow(a / 2, b / 2, bits - 1) + (a % 2 + b % 2) % 2
  }

  /**
    The generator's cell cost ((r ^ c ^ seed) & 15) + 1 on ints: the mask
    keeps the low four bits of the XOR, which are the XOR of the low four
    bits of r ^ c with those of the seed.
   */
  function XorCost(r: nat, c: nat, seed: int): (cost: int)
    ensures 1 <= cost <= 16
  {
    XorLow(XorLow(r, c, 4), seed, 4) + 1
  }

  /** The size-by-size grid of generated costs for a seed. */
  function SeedGrid(size: nat, seed: int): (g: seq<seq<int>>)
    ensures IsSquare(g, size) && CostsWithin(g, 1, 16)
    ensures forall r, c :: 0 <= r < size && 0 <= c < size ==> g[r][c] == XorCost(r, c, seed)
  {
    seq(size, r requires 0 <= r < size => seq(size, c requires 0 <= c < size => XorCost(r, c, seed)))
  }

  /** The 3-by-3 grid both programs test against. */
  const Example: seq<seq<int>> := [[1, 3, 1], [1, 5, 1], [4, 2, 1]]

  /** Its cheapest right/down path, 1 + 3 + 1 + 1 + 1, costs 7. */
  lemma ExampleCosts7()
    ensures IsSquare(Example, 3) && Rect(Example) && CostsWithin(Example, 1, 5)
    ensures Dp(Example, 2, 2) == 7 && IsMinPathCost(Example, 2, 2, 7)
  {
    assert Dp(Example, 0, 1) == 4 && Dp(Example, 0, 2) == 5;
    assert Dp(Example, 1, 0) == 2 && Dp(Example, 2, 0) == 6;
    assert Dp(Example, 1, 1) == 7 && Dp(Example, 1, 2) == 6;
    assert Dp(Example, 2, 1) == 8;
    DpIsMinPath(Example, 2, 2);
  }
}
