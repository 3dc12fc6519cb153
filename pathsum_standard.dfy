/**
  The scalar solver of the Standard project: a jagged grid int[][] whose rows
  are updated in place, first into prefix sums along row 0 and column 0, then
  cell by cell in row-major order into the minimum path cost of every cell.
  The jagged grid is an array of row arrays; the outer array is never
  reassigned, only its rows are written.
 */
module PathSumStandard {
  import opened Grids

  /** The row arrays of a jagged grid: what writing its cells may change. */
  ghost function Rows(grid: array<array<int>>): set<array<int>>
    reads grid
  {
    set i | 0 <= i < grid.Length :: grid[i]
  }

  /** No row array appears twice, so a write to one row leaves every other row alone. */
  ghost predicate DistinctRows(grid: array<array<int>>)
    reads grid
  {
    forall i, j :: 0 <= i < j < grid.Length ==> grid[i] != grid[j]
  }

  /**
    A grid MinPathSum can run on: at least one row, the first row (which
    fixes the column count) non-empty, and every row at least that long, so
    that no index of the two passes falls outside a row.
   */
  ghost predicate Shaped(grid: array<array<int>>)
    reads grid, Rows(grid)
  {
    grid.Length >= 1 && grid[0].Length >= 1 && DistinctRows(grid) &&
    forall i :: 0 <= i < grid.Length ==> grid[i].Length >= grid[0].Length
  }

  /** The cost matrix the solver sees: every row cut to the column count of row 0. */
  ghost function Window(grid: array<array<int>>): (g: seq<seq<int>>)
    reads grid, Rows(grid)
    requires Shaped(grid)
    ensures Rect(g) && |g| == grid.Length && |g[0]| == grid[0].Length
    ensures forall i, j :: 0 <= i < |g| && 0 <= j < |g[0]| ==> g[i][j] == grid[i][j]
  {
    seq(grid.Length, i requires 0 <= i < grid.Length && grid[0].Length <= grid[i].Length reads grid, Rows(grid) =>
      grid[i][..grid[0].Length])
  }

  /**
    Cells of the window after the edge pass: row 0 and column 0 hold the
    recurrence over the original costs g (their prefix sums), every other
    cell still holds its own cost.
   */
  ghost predicate EdgesInitialized(grid: array<array<int>>, g: seq<seq<int>>)
    reads grid, Rows(grid)
  {
    Rect(g) && grid.Length == |g| &&
    (forall i :: 0 <= i < |g| ==> grid[i].Length >= |g[0]|) &&
    forall i, j :: 0 <= i < |g| && 0 <= j < |g[0]| ==>
      grid[i][j] == if i == 0 || j == 0 then Dp(g, i, j) else g[i][j]
  }

  /** Every cell of the window holds the cheapest cost of reaching it over the original costs g. */
  ghost predicate PathsFilled(grid: array<array<int>>, g: seq<seq<int>>)
    reads grid, Rows(grid)
  {
    Rect(g) && grid.Length == |g| &&
    (forall i :: 0 <= i < |g| ==> grid[i].Length >= |g[0]|) &&
    forall i, j :: 0 <= i < |g| && 0 <= j < |g[0]| ==> grid[i][j] == Dp(g, i, j)
  }

  /**
    MinPathSum: the edge pass, then the interior pass, then the bottom-right
    cell of the window. The grid is overwritten with the cost of the
    cheapest path to every cell, which is why callers hand it a copy.
   */
  method MinPathSum(grid: array<array<int>>) returns (result: int)
    requires Shaped(grid)
    modifies Rows(grid)
    ensures Shaped(grid)
    ensures var g := old(Window(grid));
      result == Dp(g, |g| - 1, |g[0]| - 1) && IsMinPathCost(g, |g| - 1, |g[0]| - 1, result)
    ensures grid.Length == 1 && grid[0].Length == 1 ==> result == old(grid[0][0])
    ensures PathsFilled(grid, old(Window(grid)))
    ensures forall i, j :: 0 <= i < grid.Length && grid[0].Length <= j < grid[i].Length ==>
      grid[i][j] == old(grid[i][j])
  {
    ghost var g := Window(grid);
    var rows := grid.Length;
    var cols := grid[0].Length;
    InitializeEdges(grid, rows, cols, g);
    FillRemainingPaths(grid, rows, cols, g);
    result := grid[rows - 1][cols - 1];
    DpIsMinPath(g, rows - 1, cols - 1);
  }

  /**
    InitializeEdges: row 0 becomes its own prefix sums (left to right), then
    column 0 becomes its own prefix sums (top to bottom); no other cell
    changes.
   */
  method InitializeEdges(grid: array<array<int>>, rows: int, cols: int, ghost g: seq<seq<int>>)
    requires Shaped(grid) && rows == grid.Length && cols == grid[0].Length && g == Window(grid)
    modifies Rows(grid)
    ensures Shaped(grid) && EdgesInitialized(grid, g)
    ensures forall i, j :: 0 <= i < rows && cols <= j < grid[i].Length ==> grid[i][j] == old(grid[i][j])
  {
    PrefixTopRow(grid, cols, g);
    PrefixLeftColumn(grid, rows, cols, g);
  }

  /** The first loop of InitializeEdges: grid[0][j] += grid[0][j - 1] for j = 1 .. cols - 1. */
  method PrefixTopRow(grid: array<array<int>>, cols: int, ghost g: seq<seq<int>>)
    requires Shaped(grid) && cols == grid[0].Length && Rect(g) && |g| == grid.Length && |g[0]| == cols
    requires forall j :: 0 <= j < cols ==> grid[0][j] == g[0][j]
    modifies grid[0]
    ensures forall j :: 0 <= j < cols ==> grid[0][j] == Dp(g, 0, j)
  {
    for j := 1 to cols
      invariant forall jj :: 0 <= jj < j ==> grid[0][jj] == Dp(g, 0, jj)
      invariant forall jj :: j <= jj < cols ==> grid[0][jj] == g[0][jj]
    {
      grid[0][j] := grid[0][j] + grid[0][j - 1];
    }
  }

  /** The second loop of InitializeEdges: grid[i][0] += grid[i - 1][0] for i = 1 .. rows - 1. */
  method PrefixLeftColumn(grid: array<array<int>>, rows: int, cols: int, ghost g: seq<seq<int>>)
    requires Shaped(grid) && rows == grid.Length && cols == grid[0].Length && Rect(g) && |g| == rows && |g[0]| == cols
    requires forall i :: 0 <= i < rows ==> grid[i][0] == if i == 0 then Dp(g, 0, 0) else g[i][0]
    modifies Rows(grid)
    ensures forall i :: 0 <= i < rows ==> grid[i][0] == Dp(g, i, 0)
    ensures forall i, j :: 0 <= i < rows && 0 < j < grid[i].Length ==> grid[i][j] == old(grid[i][j])
  {
    for i := 1 to rows
      invariant forall ii :: 0 <= ii < i ==> grid[ii][0] == Dp(g, ii, 0)
      invariant forall ii :: i <= ii < rows ==> grid[ii][0] == g[ii][0]
      invariant forall ii, j :: 0 <= ii < rows && 0 < j < grid[ii].Length ==> grid[ii][j] == old(grid[ii][j])
    {
      grid[i][0] := grid[i][0] + grid[i - 1][0];
    }
  }

  /**
    FillRemainingPaths: row by row, left to right, each interior cell adds
    the smaller of the (already final) cell above and cell to its left.
   */
  method FillRemainingPaths(grid: array<array<int>>, rows: int, cols: int, ghost g: seq<seq<int>>)
    requires Shaped(grid) && rows == grid.Length && cols == grid[0].Length && |g| == rows && |g[0]| == cols
    requires EdgesInitialized(grid, g)
    modifies Rows(grid)
    ensures Shaped(grid) && PathsFilled(grid, g)
    ensures forall i, j :: 0 <= i < rows && cols <= j < grid[i].Length ==> grid[i][j] == old(grid[i][j])
  {
    for i := 1 to rows
      invariant forall ii, jj :: 0 <= ii < i && 0 <= jj < cols ==> grid[ii][jj] == Dp(g, ii, jj)
      invariant forall ii, jj :: i <= ii < rows && 0 <= jj < cols ==>
        grid[ii][jj] == if jj == 0 then Dp(g, ii, 0) else g[ii][jj]
      invariant forall ii, jj :: 0 <= ii < rows && cols <= jj < grid[ii].Length ==> grid[ii][jj] == old(grid[ii][jj])
    {
      assert forall ii :: 0 <= ii < rows && ii != i ==> grid[ii] != grid[i];
      FillRow(grid, i, cols, g);
    }
  }

  /** The inner loop of FillRemainingPaths over row i: grid[i][j] += min(grid[i - 1][j], grid[i][j - 1]). */
  method FillRow(grid: array<array<int>>, i: int, cols: int, ghost g: seq<seq<int>>)
    requires Shaped(grid) && 1 <= i < grid.Length && cols == grid[0].Length && Rect(g) && |g| == grid.Length && |g[0]| == cols
    requires forall ii, j :: 0 <= ii < i && 0 <= j < cols ==> grid[ii][j] == Dp(g, ii, j)
    requires forall j :: 0 <= j < cols ==> grid[i][j] == if j == 0 then Dp(g, i, 0) else g[i][j]
    modifies grid[i]
    ensures forall j :: 0 <= j < cols ==> grid[i][j] == Dp(g, i, j)
    ensures forall j :: cols <= j < grid[i].Length ==> grid[i][j] == old(grid[i][j])
  {
    assert grid[i - 1] != grid[i];
    for j := 1 to cols
      invariant forall jj :: 0 <= jj < j ==> grid[i][jj] == Dp(g, i, jj)
      invariant forall jj :: j <= jj < grid[i].Length ==> grid[i][jj] == old(grid[i][jj])
    {
      grid[i][j] := grid[i][j] + Min(grid[i - 1][j], grid[i][j - 1]);
    }
  }

  /** PrecomputeWeights: a fresh size-by-size grid, fresh rows, cell (r, c) the XOR cost of the seed. */
  method PrecomputeWeights(size: int, seed: int) returns (grid: array<array<int>>)
    requires size >= 0
    ensures fresh(grid) && grid.Length == size && DistinctRows(grid)
    ensures forall r :: 0 <= r < size ==> fresh(grid[r]) && grid[r][..] == SeedGrid(size, seed)[r]
  {
    var rowArrays: seq<array<int>> := [];
    for r := 0 to size
      invariant |rowArrays| == r
      invariant forall a, b :: 0 <= a < b < r ==> rowArrays[a] != rowArrays[b]
      invariant forall a :: 0 <= a < r ==> fresh(rowArrays[a]) && rowArrays[a][..] == SeedGrid(size, seed)[a]
    {
      var row := new int[size];
      for c := 0 to size
        modifies row
        invariant forall cc :: 0 <= cc < c ==> row[cc] == XorCost(r, cc, seed)
      {
        row[c] := XorCost(r, c, seed);
      }
      rowArrays := rowArrays + [row];
    }
    grid := new array<int>[size](i requires 0 <= i < size => rowArrays[i]);
  }

  /**
    ResetGrid: copies every source row over the start of the destination row
    with the same index (Array.Copy of source[i].Length cells). The source is
    only read; destination cells past the copied prefix keep their values.
   */
  method ResetGrid(destination: array<array<int>>, source: array<array<int>>)
    requires source.Length <= destination.Length && DistinctRows(destination)
    requires forall i :: 0 <= i < source.Length ==> source[i].Length <= destination[i].Length
    requires forall i, j :: 0 <= i < destination.Length && 0 <= j < source.Length ==> destination[i] != source[j]
    modifies Rows(destination)
    ensures forall i :: 0 <= i < source.Length ==> destination[i][..source[i].Length] == source[i][..]
    ensures forall i :: 0 <= i < source.Length ==> source[i][..] == old(source[i][..])
    ensures forall i, j ::
      0 <= i < destination.Length && 0 <= j < destination[i].Length && (i >= source.Length || j >= source[i].Length) ==>
        destination[i][j] == old(destination[i][j])
  {
    for i := 0 to source.Length
      invariant forall ii :: 0 <= ii < i ==> destination[ii][..source[ii].Length] == source[ii][..]
      invariant forall ii :: 0 <= ii < source.Length ==> source[ii][..] == old(source[ii][..])
      invariant forall ii, j ::
        0 <= ii < destination.Length && 0 <= j < destination[ii].Length && (ii >= i || j >= source[ii].Length) ==>
          destination[ii][j] == old(destination[ii][j])
    {
      CopyRow(source[i], destination[i]);
    }
  }

  /** Array.Copy(src, dst, src.Length): the prefix of dst becomes src; the rest of dst and src are unchanged. */
  method CopyRow(src: array<int>, dst: array<int>)
    requires src != dst && src.Length <= dst.Length
    modifies dst
    ensures dst[..src.Length] == src[..]
    ensures forall j :: src.Length <= j < dst.Length ==> dst[j] == old(dst[j])
  {
    for j := 0 to src.Length
      invariant forall jj :: 0 <= jj < j ==> dst[jj] == src[jj]
      invariant forall jj :: j <= jj < dst.Length ==> dst[jj] == old(dst[jj])
    {
      dst[j] := src[j];
    }
  }

  /** CloneGrid: a fresh outer array of fresh rows, each equal to the matching row of grid. */
  method CloneGrid(grid: array<array<int>>) returns (clone: array<array<int>>)
    ensures fresh(clone) && clone.Length == grid.Length && DistinctRows(clone)
    ensures forall i :: 0 <= i < clone.Length ==> fresh(clone[i]) && clone[i][..] == grid[i][..]
  {
    var rowArrays: seq<array<int>> := [];
    for i := 0 to grid.Length
      invariant |rowArrays| == i
      invariant forall a, b :: 0 <= a < b < i ==> rowArrays[a] != rowArrays[b]
      invariant forall a :: 0 <= a < i ==> fresh(rowArrays[a]) && rowArrays[a][..] == grid[a][..]
    {
      var source := grid[i];
      var row := new int[source.Length](j requires 0 <= j < source.Length reads source => source[j]);
      assert row[..] == source[..];
      rowArrays := rowArrays + [row];
    }
    clone := new array<int>[grid.Length](i requires 0 <= i < grid.Length => rowArrays[i]);
  }

  /** VerifySmallScale: MinPathSum on the 3-by-3 example grid returns 7. */
  method VerifySmallScale() returns (ok: bool)
    ensures ok
  {
    var r0 := new int[3] [1, 3, 1];
    var r1 := new int[3] [1, 5, 1];
    var r2 := new int[3] [4, 2, 1];
    var grid := new array<int>[3] [r0, r1, r2];
    ghost var g := Window(grid);
    forall i | 0 <= i < 3 ensures g[i] == Example[i] {
      assert forall j :: 0 <= j < 3 ==> g[i][j] == Example[i][j];
    }
    assert g == Example;
    ExampleCosts7();
    var result := MinPathSum(grid);
    ok := result == 7;
  }
}
