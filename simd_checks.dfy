/**
  The verification drivers of the SIMD project: the scalar reference DP over
  a 2-D array of the generated costs, the 3-by-3 grid pushed through an
  explicitly built weight stream, and the full-size comparison of the
  diagonal sweep with the reference.
 */
module SimdChecks {
  import opened Grids
  import opened WeightStreams
  import opened DiagonalSweep
  import opened BranchlessSolver

  /**
    The reference DP of VerifyLargeScale on a size-by-size 2-D array: the
    start cost, prefix sums along row 0 and column 0, then every interior
    cell as the cheaper neighbour plus its own XOR cost. It returns the
    bottom-right cell, which is the cheapest right/down path through the
    generated grid g (given as a ghost matrix of the same costs).
   */
  method ReferenceDp(size: int, seed: int, ghost g: seq<seq<int>>) returns (expected: int)
    requires size >= 1 && IsSquare(g, size)
    requires forall r, c {:trigger XorCost(r, c, seed)} :: 0 <= r < size && 0 <= c < size ==> g[r][c] == XorCost(r, c, seed)
    ensures expected == Dp(g, size - 1, size - 1)
  {
    var dp := new int[size, size];
    var startVal := CellCost(0, 0, seed, size, g);
    dp[0, 0] := startVal;
    ReferenceTopRow(dp, size, seed, g);
    ReferenceLeftColumn(dp, size, seed, g);
    FillReference(dp, size, seed, g);
    expected := dp[size - 1, size - 1];
  }

  /** The first loop of the reference DP: dp[0, c] = dp[0, c - 1] + cost of (0, c). */
  method ReferenceTopRow(dp: array2<int>, size: int, seed: int, ghost g: seq<seq<int>>)
    requires size >= 1 && IsSquare(g, size) && dp.Length0 == size && dp.Length1 == size
    requires forall r, c {:trigger XorCost(r, c, seed)} :: 0 <= r < size && 0 <= c < size ==> g[r][c] == XorCost(r, c, seed)
    requires dp[0, 0] == g[0][0]
    modifies dp
    ensures forall c :: 0 <= c < size ==> dp[0, c] == Dp(g, 0, c)
    ensures forall r, c :: 0 < r < size && 0 <= c < size ==> dp[r, c] == old(dp[r, c])
  {
    for c := 1 to size
      invariant forall cc :: 0 <= cc < c ==> dp[0, cc] == Dp(g, 0, cc)
      invariant forall r, cc :: 0 < r < size && 0 <= cc < size ==> dp[r, cc] == old(dp[r, cc])
    {
      var w := CellCost(0, c, seed, size, g);
      dp[0, c] := dp[0, c - 1] + w;
    }
  }

  /** The second loop of the reference DP: dp[r, 0] = dp[r - 1, 0] + cost of (r, 0). */
  method ReferenceLeftColumn(dp: array2<int>, size: int, seed: int, ghost g: seq<seq<int>>)
    requires size >= 1 && IsSquare(g, size) && dp.Length0 == size && dp.Length1 == size
    requires forall r, c {:trigger XorCost(r, c, seed)} :: 0 <= r < size && 0 <= c < size ==> g[r][c] == XorCost(r, c, seed)
    requires forall c :: 0 <= c < size ==> dp[0, c] == Dp(g, 0, c)
    modifies dp
    ensures forall c :: 0 <= c < size ==> dp[0, c] == Dp(g, 0, c)
    ensures forall r :: 0 <= r < size ==> dp[r, 0] == Dp(g, r, 0)
    ensures forall r, c :: 0 < r < size && 0 < c < size ==> dp[r, c] == old(dp[r, c])
  {
    for r := 1 to size
      invariant forall c :: 0 <= c < size ==> dp[0, c] == Dp(g, 0, c)
      invariant forall rr :: 0 <= rr < r ==> dp[rr, 0] == Dp(g, rr, 0)
      invariant forall rr, c :: 0 < rr < size && 0 < c < size ==> dp[rr, c] == old(dp[rr, c])
    {
      var w := CellCost(r, 0, seed, size, g);
      dp[r, 0] := dp[r - 1, 0] + w;
    }
  }

  /** The nested loop of the reference DP: row by row, dp[r, c] = min(dp[r - 1, c], dp[r, c - 1]) + cost. */
  method FillReference(dp: array2<int>, size: int, seed: int, ghost g: seq<seq<int>>)
    requires size >= 1 && IsSquare(g, size) && dp.Length0 == size && dp.Length1 == size
    requires forall r, c {:trigger XorCost(r, c, seed)} :: 0 <= r < size && 0 <= c < size ==> g[r][c] == XorCost(r, c, seed)
    requires forall cc :: 0 <= cc < size ==> dp[0, cc] == Dp(g, 0, cc)
    requires forall rr :: 0 <= rr < size ==> dp[rr, 0] == Dp(g, rr, 0)
    modifies dp
    ensures forall r, c :: 0 <= r < size && 0 <= c < size ==> dp[r, c] == Dp(g, r, c)
  {
    for r := 1 to size
      invariant forall rr, cc :: 0 <= rr < r && 0 <= cc < size ==> dp[rr, cc] == Dp(g, rr, cc)
      invariant forall rr :: 0 <= rr < size ==> dp[rr, 0] == Dp(g, rr, 0)
    {
      FillReferenceRow(dp, size, seed, g, r);
    }
  }

  /** The inner loop of the reference DP over row r, left to right from column 1. */
  method FillReferenceRow(dp: array2<int>, size: int, seed: int, ghost g: seq<seq<int>>, r: int)
    requires 1 <= r < size && IsSquare(g, size) && dp.Length0 == size && dp.Length1 == size
    requires forall r, c {:trigger XorCost(r, c, seed)} :: 0 <= r < size && 0 <= c < size ==> g[r][c] == XorCost(r, c, seed)
    requires forall rr, cc :: 0 <= rr < r && 0 <= cc < size ==> dp[rr, cc] == Dp(g, rr, cc)
    requires dp[r, 0] == Dp(g, r, 0)
    modifies dp
    ensures forall cc :: 0 <= cc < size ==> dp[r, cc] == Dp(g, r, cc)
    ensures forall rr, cc :: 0 <= rr < size && rr != r && 0 <= cc < size ==> dp[rr, cc] == old(dp[rr, cc])
  {
    for c := 1 to size
      invariant forall cc :: 0 <= cc < c ==> dp[r, cc] == Dp(g, r, cc)
      invariant forall rr, cc :: 0 <= rr < size && rr != r && 0 <= cc < size ==> dp[rr, cc] == old(dp[rr, cc])
    {
      var w := CellCost(r, c, seed, size, g);
      dp[r, c] := Min(dp[r - 1, c], dp[r, c - 1]) + w;
    }
  }

  /** The cost expression ((r ^ c ^ seed) & 15) + 1 the reference DP evaluates for cell (r, c). */
  method CellCost(r: nat, c: nat, seed: int, size: int, ghost g: seq<seq<int>>) returns (w: int)
    requires r < size && c < size && IsSquare(g, size)
    requires forall r, c {:trigger XorCost(r, c, seed)} :: 0 <= r < size && 0 <= c < size ==> g[r][c] == XorCost(r, c, seed)
    ensures w == g[r][c] && 1 <= w <= 16
  {
    w := XorCost(r, c, seed);
  }

  /**
    VerifyAVXOnManualGrid: the 3-by-3 example grid pushed through the
    explicitly built stream and the diagonal sweep gives 7.
   */
  method VerifyAvxOnManualGrid() returns (ok: bool)
    ensures ok
  {
    var size := 3;
    var grid := Example;
    ManualGridFacts();
    var result := SolveManualGrid(grid, size);
    ok := result == 7;
  }

  /**
    The body of VerifyAVXOnManualGrid for an explicit grid: start value
    (short)grid[0, 0], Inf-filled buffers of size + 64 shorts, the stream
    written diagonal by diagonal from the grid's cells into a 4096-byte
    buffer, then the sweep. The result is the grid's minimum path sum.
   */
  method SolveManualGrid(grid: seq<seq<int>>, size: int) returns (result: int)
    requires SolvableGrid(grid, size) && StreamLength(size) <= 4096
    ensures result == Dp(grid, size - 1, size - 1)
  {
    var startVal := grid[0][0] as i16;
    var b1 := new i16[size + 64](_ => Inf);
    var b2 := new i16[size + 64](_ => Inf);
    var wStream := new byte[4096];
    BuildStream(size, grid, wStream);
    result := SolveBranchless(size, b1, b2, wStream, startVal, grid);
  }

  /**
    The example is a grid the solver is proved for, its cheapest path costs
    7, and its stream is four 32-byte segments, well inside the 4096-byte
    buffer.
   */
  lemma ManualGridFacts()
    ensures SolvableGrid(Example, 3) && Example[0][0] == 1 && Dp(Example, 2, 2) == 7
    ensures StreamLength(3) == 128
  {
    ExampleCosts7();
    assert SegStart(3, 2) == 32;
    assert SegStart(3, 3) == 64;
    assert SegStart(3, 4) == 96;
    assert SegStart(3, 5) == 128;
  }

  /**
    VerifyLargeScale: for the 1024-by-1024 grid of any seed, the diagonal
    sweep agrees with the reference DP.
   */
  method VerifyLargeScale(seed: int) returns (passed: bool)
    ensures passed
  {
    var size := MaxSize;
    ghost var g := SeedGrid(size, seed);
    SeededGrid(size, seed);
    var expected := ReferenceDp(size, seed, g);
    var actual := SolveSeeded(size, seed);
    passed := actual == expected;
  }

  /**
    The SIMD half of VerifyLargeScale (and of Main): Inf-filled buffers of
    size + 64 shorts, the padded stream of the seed in a 4 MiB buffer, the
    start value ((0 ^ 0 ^ seed) & 15) + 1, and the diagonal sweep. For every
    size up to 1024 and every seed the result is the minimum path sum of the
    generated grid.
   */
  method SolveSeeded(size: int, seed: int) returns (actual: int)
    requires 1 <= size <= MaxSize
    ensures actual == Dp(SeedGrid(size, seed), size - 1, size - 1)
  {
    ghost var g := SeedGrid(size, seed);
    SeededGrid(size, seed);
    var b1 := new i16[size + 64](_ => Inf);
    var b2 := new i16[size + 64](_ => Inf);
    var wStr := new byte[4 * 1024 * 1024];
    PrecomputeWeightsPad(size, seed, wStr);
    var startVal := XorCost(0, 0, seed) as i16;
    actual := SolveBranchless(size, b1, b2, wStr, startVal, g);
  }

  /**
    A generated grid of size up to 1024 is one the solver is proved for, its
    start cell is the XOR cost of (0, 0), and its stream fits in 4 MiB.
   */
  lemma SeededGrid(size: int, seed: int)
    requires 1 <= size <= MaxSize
    ensures SolvableGrid(SeedGrid(size, seed), size)
    ensures SeedGrid(size, seed)[0][0] == XorCost(0, 0, seed)
    ensures forall r, c {:trigger XorCost(r, c, seed)} :: 0 <= r < size && 0 <= c < size ==>
      SeedGrid(size, seed)[r][c] == XorCost(r, c, seed)
    ensures StreamLength(size) <= 4 * 1024 * 1024
  {
    StreamFits(size);
  }
}
