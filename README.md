# Path-Sum Solver, modelled in Dafny

The repository solves the minimum path sum of an N-by-N grid of small positive
costs, where a path starts at the top-left cell, moves only right or down, and
ends at the bottom-right cell. It does this twice.

- **PathSum.Standard** holds a jagged `int[][]` grid. `MinPathSum` overwrites it
  in place, in row-major order. First row 0 and column 0 become prefix sums.
  Then every other cell adds the smaller of the cell above and the cell to its
  left. `PrecomputeWeights`, `CloneGrid` and `ResetGrid` build and copy the
  grids it runs on.
- **PathSum.Simd** first flattens the costs into an anti-diagonal byte stream
  (`PrecomputeWeightsPad`). Diagonal k = r + c comes with its rows increasing,
  and each diagonal is zero-padded to a multiple of 32 bytes. The start cell is
  not streamed; its cost is passed as a separate start value. `SolveBranchless`
  then sweeps diagonal after diagonal over two `short` buffers that swap roles.
  Each buffer is addressed from 16 slots in and pre-filled with the sentinel
  `Inf` = 20000. Every block of 32 lanes computes
  `new[r] = min(old[r], old[r - 1]) + w`. Two drivers check the result:
  - `VerifyAVXOnManualGrid` runs the 3-by-3 example through a hand-built stream;
  - `VerifyLargeScale` compares the sweep with a `long` reference DP.

The Dafny project has six modules.

- `Grids` holds the specification both programs are proved against:
  - the row-major recurrence `Dp`;
  - right/down paths and their costs, with `Dp` proved to be exactly the
    cheapest path cost;
  - the generator cost `((r ^ c ^ seed) & 15) + 1`;
  - the 3-by-3 example grid.
- `WeightStreams` holds the stream layout as functions and the builder as
  methods that write into a byte array.
- `DiagonalSweep` holds:
  - 16-bit accumulators with explicit two's-complement wrap-around and sbyte
    widening;
  - one lane, one 32-lane block and one diagonal sweep;
  - lane-by-lane lemmas showing that sentinel and padding lanes never corrupt
    live rows.
- `BranchlessSolver` holds the two phases and `SolveBranchless`. It is proved
  to return `Dp` of the grid whose stream it reads, for every N up to 1024 and
  every cost in 0..16. For the seed-generated grids this holds for every seed.
- `PathSumStandard` and `SimdChecks` hold the in-place scalar solver, the grid
  helpers, the reference DP over a 2-D array, and the verification drivers.

The drivers are proved to return `true`. `VerifyLargeScale` is proved through
`SolveSeeded`, which gives the same equality for every size up to 1024, not
only 1024.

A sentinel above every achievable path sum would have to exceed
(2·1024 − 1)·16 = 32752. The code's `Inf` = 20000 does not, and the model
follows the code. The code is still correct. The sentinel only ever competes
with the prefix sums of row 0 and column 0, and those are at most 16·1024 = 16384. Everything else is bounded by 32752, which
fits a `short`, and `Inf` + 16 does not wrap. The model proves exactly this
weaker, sufficient condition (`DiagonalSweep.SentinelHeadroom`,
`DiagonalSweep.TopRowLane`, `DiagonalSweep.LeftColumnLane`).

## Model

| member | source | states |
|---|---|---|
| Grids.DpTopRow | src/PathSum.Standard/Program.cs:70-73 | along row 0 the recurrence is the prefix sum of the row's costs |
| Grids.DpLeftColumn | src/PathSum.Standard/Program.cs:75-78 | down column 0 the recurrence is the prefix sum of the column's costs |
| Grids.DpBounds | src/PathSum.Simd/Program.cs:226-228 | with costs in 0..m, the value on anti-diagonal r + c lies in 0..(r + c + 1)·m, so no accumulator exceeds (2N − 1)·16 |
| Grids.DpIsLowerBound | src/PathSum.Standard/Program.cs:57-66 | no right/down path to a cell is cheaper than the recurrence there |
| Grids.BestPath | src/PathSum.Standard/Program.cs:57-66 | some right/down path to each cell costs exactly the recurrence |
| Grids.DpIsMinPath | src/PathSum.Standard/Program.cs:57-66 | the recurrence is the minimum over all right/down paths of their summed costs, and it is attained |
| Grids.XorLow | src/PathSum.Simd/Program.cs:182 | the masked XOR of two ints, on the low bits of their two's-complement form, is below 2^bits |
| Grids.XorCost | src/PathSum.Standard/Program.cs:100 | `((r ^ c ^ seed) & 15) + 1` always lies in 1..16 |
| Grids.SeedGrid | src/PathSum.Standard/Program.cs:94-102 | the generated grid is size-by-size, every cell (r, c) is its XOR cost, and all costs lie in 1..16 |
| Grids.ExampleCosts7 | src/PathSum.Simd/Program.cs:116-134 | the example is a 3-by-3 grid with costs in 1..5, its recurrence at the corner is 7, and 7 is its minimum right/down path sum |
| WeightStreams.ToByte | src/PathSum.Simd/Program.cs:81 | the `(byte)` cast keeps values in 0..255 and otherwise reduces modulo 256 |
| WeightStreams.RoundUp32 | src/PathSum.Simd/Program.cs:215 | `(n + 31) & ~31` is the least multiple of 32 that is at least n |
| WeightStreams.RoundUpShift | src/PathSum.Simd/Program.cs:184 | padding from a 32-aligned cursor advances it by exactly the rounded-up count |
| WeightStreams.DiagonalRows | src/PathSum.Simd/Program.cs:186-187 | row r has a cell on diagonal k exactly when r is one of the DiagLen rows from RowStart: k + 1 rows from 0 while k < N, 2N − 1 − k rows from k − N + 1 after |
| WeightStreams.SegmentAt | src/PathSum.Simd/Program.cs:176-185 | byte j of a diagonal's segment is the cost of cell (rStart + j, k − rStart − j) for live j, and 0 in the padding |
| WeightStreams.StreamLayout | src/PathSum.Simd/Program.cs:184 | every segment starts at a multiple of 32, and the stream written so far ends there |
| WeightStreams.StreamPrefix | src/PathSum.Simd/Program.cs:186-187 | later diagonals only append: the stream up to diagonal k is a prefix of the stream up to any later one |
| WeightStreams.SegmentInStream | src/PathSum.Simd/Program.cs:186-187 | segment k occupies bytes SegStart(k) .. SegStart(k) + RoundUp32(DiagLen(k)) of the stream, whose length is the sum over diagonals 1 .. 2N − 2 of their padded lengths |
| WeightStreams.CellInStream | src/PathSum.Simd/Program.cs:176-187 | every cell except the start cell is in the stream, as its byte-cast cost, at StreamIndex(r, c) = SegStart(r + c) + r − RowStart(r + c) |
| WeightStreams.StreamFits | src/PathSum.Simd/Program.cs:156-158 | for N up to 1024 the stream fits the 4 MiB buffer |
| WeightStreams.WriteDiag | src/PathSum.Simd/Program.cs:176-185 | the bytes written from the cursor are the diagonal's costs followed by zeros, the new cursor is the next multiple of 32, and nothing else changes |
| WeightStreams.BuildStream | src/PathSum.Simd/Program.cs:72-96 | the stream buffer's prefix becomes the grid's weight stream, and bytes past it are untouched |
| WeightStreams.WriteAscending | src/PathSum.Simd/Program.cs:74-84 | diagonals 1 .. N − 1 are laid out in order, the cursor ends at SegStart(N), and every byte from the cursor on keeps its value |
| WeightStreams.WriteDescending | src/PathSum.Simd/Program.cs:85-96 | diagonals N .. 2N − 2 are appended, completing the weight stream |
| WeightStreams.WriteSegment | src/PathSum.Simd/Program.cs:186-187 | one WriteDiag call appends exactly segment k, stays inside the stream, and leaves every byte from the new cursor on unchanged |
| WeightStreams.PrecomputeWeightsPad | src/PathSum.Simd/Program.cs:173-188 | the buffer's prefix is the weight stream of the generated grid for the seed, and the bytes past it are unchanged |
| WeightStreams.SeedStreamCells | src/PathSum.Simd/Program.cs:182 | every live byte of a generated stream is the cell's XOR cost, in 1..16 |
| DiagonalSweep.SentinelHeadroom | src/PathSum.Simd/Program.cs:13-14 | Inf = 20000 exceeds every row-0 and column-0 prefix sum (at most 16·1024); Inf + 16 and (2N − 1)·16 fit a short |
| DiagonalSweep.Lane | src/PathSum.Simd/Program.cs:226-232 | one lane of `Avx2.Add(Avx2.Min(vCenter, vLeft), vw)`: the signed minimum of the lane's own old slot and the slot before it, plus the sign-extended weight byte; exact when the sum fits a short, and equal to it modulo 2^16 otherwise |
| DiagonalSweep.Wrap16 | src/PathSum.Simd/Program.cs:228 | a 16-bit add is exact inside the short range and congruent modulo 2^16 otherwise |
| DiagonalSweep.SignExtend | src/PathSum.Simd/Program.cs:223-224 | widening an sbyte gives a value in −128..127 whose low byte is the original byte |
| DiagonalSweep.WidenCost | src/PathSum.Simd/Program.cs:223-224 | a cost below 128 survives the byte cast and the sign extension unchanged |
| DiagonalSweep.LaneExact | src/PathSum.Simd/Program.cs:228 | without overflow a lane is min(center, left) plus the widened weight |
| DiagonalSweep.InteriorLane | src/PathSum.Simd/Program.cs:226-228 | with the left and upper neighbours live, the lane computes the recurrence for an interior cell, and the result is in 0..32752 |
| DiagonalSweep.TopRowLane | src/PathSum.Simd/Program.cs:227 | for row 0 the slot before it holds Inf, which loses to the row-0 prefix sum |
| DiagonalSweep.LeftColumnLane | src/PathSum.Simd/Program.cs:226 | for column 0 the row's own old slot holds Inf, which loses to the column-0 prefix sum |
| DiagonalSweep.LiveLane | src/PathSum.Simd/Program.cs:226-228 | every live lane other than the start cell computes the recurrence |
| DiagonalSweep.LiveWeight | src/PathSum.Simd/Program.cs:222-224 | the widened weight byte of a live lane is the cost of the cell it stands for |
| DiagonalSweep.PadWeight | src/PathSum.Simd/Program.cs:184 | a padding byte widens to 0 |
| DiagonalSweep.GrowingLive | src/PathSum.Simd/Program.cs:226-232 | in the growing phase a live slot receives the recurrence of its cell |
| DiagonalSweep.GrowingNeighbours | src/PathSum.Simd/Program.cs:226-227 | in the growing phase a lane reads the cell to its left (Inf in column 0) and the cell above (Inf in row 0) |
| DiagonalSweep.GrowingPad | src/PathSum.Simd/Program.cs:215 | in the growing phase padding lanes stay Inf, since min(Inf, Inf) + 0 = Inf |
| DiagonalSweep.GrowingLane | src/PathSum.Simd/Program.cs:220-236 | after a growing diagonal every live slot holds the recurrence, every other slot holds Inf, and all slots are in 0..32752 |
| DiagonalSweep.GrowingStep | src/PathSum.Simd/Program.cs:212-239 | a growing diagonal carries the invariant from diagonal k − 1 to diagonal k with the buffers swapped |
| DiagonalSweep.ShrinkingLive | src/PathSum.Simd/Program.cs:258-264 | in the shrinking phase a live slot receives the recurrence of its interior cell |
| DiagonalSweep.ShrinkingNeighbours | src/PathSum.Simd/Program.cs:258-259 | in the shrinking phase both old slots a live lane reads hold live cells |
| DiagonalSweep.ShrinkingPad | src/PathSum.Simd/Program.cs:246-250 | lanes past row N − 1 take a weight of 0 and stay in 0..32752, so they can never overflow |
| DiagonalSweep.ShrinkingLane | src/PathSum.Simd/Program.cs:252-268 | after a shrinking diagonal the live rows hold the recurrence, and every slot stays in 0..32752 |
| DiagonalSweep.ShrinkingStep | src/PathSum.Simd/Program.cs:242-271 | a shrinking diagonal carries the invariant from diagonal k − 1 to diagonal k with the buffers swapped |
| DiagonalSweep.SweepDiagonal | src/PathSum.Simd/Program.cs:220-236 | the vectorCount slots from the diagonal's first row are the lanes over the old buffer and the segment's weights, no other slot changes, and the stream pointer advances by vectorCount |
| DiagonalSweep.SweepBlock | src/PathSum.Simd/Program.cs:222-234 | one block sets 32 consecutive slots to their lanes and leaves the rest of the buffer alone |
| DiagonalSweep.StartState | src/PathSum.Simd/Program.cs:204-207 | the start value at row 0, with the sentinel everywhere else, is the state before diagonal 1 |
| DiagonalSweep.PhaseChange | src/PathSum.Simd/Program.cs:241-242 | the state after the growing phase is the state the shrinking phase starts from |
| DiagonalSweep.Finished | src/PathSum.Simd/Program.cs:273 | after the last diagonal, row N − 1 of the old buffer holds the recurrence of the corner cell |
| DiagonalSweep.StreamSegment | src/PathSum.Simd/Program.cs:222 | the weights a diagonal loads from the stream pointer are that diagonal's segment |
| BranchlessSolver.GrowDiagonal | src/PathSum.Simd/Program.cs:214-238 | one growing diagonal advances the stream pointer to the next segment and leaves diagonal k in the new buffer |
| BranchlessSolver.ShrinkDiagonal | src/PathSum.Simd/Program.cs:244-270 | one shrinking diagonal, starting at row k − N + 1, advances the stream pointer and leaves diagonal k in the new buffer |
| BranchlessSolver.GrowingPhase | src/PathSum.Simd/Program.cs:212-239 | after diagonals 1 .. N − 1 the old buffer (one of the two, swapped each time) holds diagonal N − 1 |
| BranchlessSolver.ShrinkingPhase | src/PathSum.Simd/Program.cs:241-271 | after diagonals N .. 2N − 2 the old buffer holds the last diagonal |
| BranchlessSolver.SolveBranchless | src/PathSum.Simd/Program.cs:202-274 | with Inf-filled buffers and the grid's stream, the result is the minimum path sum `Dp(g, N − 1, N − 1)`; for N = 1 it is the start value |
| PathSumStandard.MinPathSum | src/PathSum.Standard/Program.cs:57-66 | returns the recurrence at the bottom-right cell of the original costs, which is the minimum right/down path sum (also when rows ≠ cols), leaves every cell holding its own minimum, returns a 1-by-1 grid's cell unchanged, and keeps cells past the column count |
| PathSumStandard.InitializeEdges | src/PathSum.Standard/Program.cs:68-79 | row 0 and column 0 become the prefix sums of the original row and column; interior cells keep their costs |
| PathSumStandard.PrefixTopRow | src/PathSum.Standard/Program.cs:70-73 | each cell of row 0 becomes the prefix sum of the original row up to it |
| PathSumStandard.PrefixLeftColumn | src/PathSum.Standard/Program.cs:75-78 | each cell of column 0 becomes the prefix sum of the original column up to it; no other cell changes |
| PathSumStandard.FillRemainingPaths | src/PathSum.Standard/Program.cs:81-90 | row by row, every cell becomes its original cost plus the smaller of the already final cell above and cell to its left |
| PathSumStandard.FillRow | src/PathSum.Standard/Program.cs:85-88 | one row becomes the recurrence from the final row above and its own final left cells; cells past the column count keep their values |
| PathSumStandard.PrecomputeWeights | src/PathSum.Standard/Program.cs:92-105 | a fresh size-by-size grid of fresh, distinct rows, where cell (r, c) is `((r ^ c ^ seed) & 15) + 1` |
| PathSumStandard.ResetGrid | src/PathSum.Standard/Program.cs:107-113 | each destination row starts with the matching source row, the source is unchanged, and every other destination cell is untouched |
| PathSumStandard.CopyRow | src/PathSum.Standard/Program.cs:111 | `Array.Copy(src, dst, src.Length)`: the prefix of dst becomes src, and the rest of dst is unchanged |
| PathSumStandard.CloneGrid | src/PathSum.Standard/Program.cs:115-120 | a fresh outer array of fresh, distinct rows, each equal to the matching row of the input grid |
| PathSumStandard.VerifySmallScale | src/PathSum.Standard/Program.cs:122-131 | MinPathSum on the 3-by-3 example returns 7, so the check returns true |
| SimdChecks.ReferenceDp | src/PathSum.Simd/Program.cs:139-149 | the `long` reference DP over the generated costs returns the recurrence at the corner |
| SimdChecks.ReferenceTopRow | src/PathSum.Simd/Program.cs:143 | row 0 of the reference becomes the recurrence, and the other rows are untouched |
| SimdChecks.ReferenceLeftColumn | src/PathSum.Simd/Program.cs:144 | column 0 of the reference becomes the recurrence, row 0 is kept, and every interior cell is unchanged |
| SimdChecks.FillReference | src/PathSum.Simd/Program.cs:145-147 | every cell of the reference becomes the recurrence |
| SimdChecks.FillReferenceRow | src/PathSum.Simd/Program.cs:146-147 | one row of the reference becomes the recurrence, and the other rows are untouched |
| SimdChecks.CellCost | src/PathSum.Simd/Program.cs:147 | the inline cost expression is the generated grid's cell, in 1..16 |
| SimdChecks.VerifyAvxOnManualGrid | src/PathSum.Simd/Program.cs:55-114 | the sweep over the hand-built stream of the 3-by-3 example returns 7, so the check returns true |
| SimdChecks.SolveManualGrid | src/PathSum.Simd/Program.cs:62-98 | start value `(short)grid[0, 0]`, Inf-filled buffers, the hand-built stream and the sweep give the grid's minimum path sum |
| SimdChecks.ManualGridFacts | src/PathSum.Simd/Program.cs:57-61 | the example has costs the solver is proved for, its start cost is 1, its minimum is 7, and its stream is 128 bytes, inside the 4096-byte buffer |
| SimdChecks.VerifyLargeScale | src/PathSum.Simd/Program.cs:136-171 | for the 1024-by-1024 grid of any seed the sweep equals the reference DP, so the check returns true |
| SimdChecks.SolveSeeded | src/PathSum.Simd/Program.cs:151-160 | for every size up to 1024 and every seed, the padded stream, the start value `((0 ^ 0 ^ seed) & 15) + 1` and the sweep give the minimum path sum of the generated grid |
| SimdChecks.SeededGrid | src/PathSum.Simd/Program.cs:140-141 | a generated grid is one the solver is proved for, its start cell is the start value's expression, and its stream fits 4 MiB |

## Left out

- `Main` and `RunBench` of both programs are not modelled: Stopwatch timing, the microsecond `double` arithmetic and console output. These are benchmarking and I/O.
- `NativeMemory.AlignedAlloc`/`AlignedFree` and raw pointers are not modelled. Buffers are Dafny arrays, and the pointer `buff + 16` is the index offset `Margin`. Aligned and unaligned loads and stores behave the same, so alignment is not modelled.
- The AVX/AVX2 intrinsics are not modelled. A 32-lane block is a scalar loop over 32 lanes (`DiagonalSweep.SweepBlock`). The load, min, add and store of the two 16-lane halves are folded into that loop.
- The buffer reuse in `RunBench` is not modelled. It calls the solver again without re-filling `Inf`. The solver's precondition asks for Inf-filled buffers, as every checked call site provides.
- The fixed 4 MiB and 4096-byte stream allocations are not modelled exactly. A precondition that the stream fits the buffer stands in for them (`WeightStreams.StreamFits` and `SimdChecks.ManualGridFacts` show that it does).
- `VerifyReferenceLogic` (the hand-filled 3-by-3 table) is not a separate method. `Grids.ExampleCosts7` proves the same cell values and the result 7.
- BranchlessSolver.SolveBranchless: proved only for N ≤ 1024 and costs 0..16, the range in which the 16-bit argument holds. The sweep takes the grid as a ghost argument; it is the grid whose stream the sweep reads.
- BranchlessSolver.SolveBranchless: its frame names only the two buffers, so it promises nothing about what the buffers hold afterwards, and it does not write the stream.
- PathSumStandard.MinPathSum: the `int` arithmetic is unbounded, so 32-bit wrap-around is not modelled. With costs up to 16 no sum comes near it.
- PathSumStandard.MinPathSum: requires distinct row arrays, so aliased rows are not modelled. It also requires a non-empty first row and no row shorter than row 0; on such grids the C# code throws `IndexOutOfRangeException`.
- PathSumStandard.ResetGrid: requires destination rows distinct from one another and from every source row, and requires each source row to fit its destination row. On a too-short destination `Array.Copy` throws.
- PathSumStandard.PrecomputeWeights: requires size ≥ 0; a negative size makes `new int[size][]` throw.
- SimdChecks.ReferenceDp: `long` is unbounded `int` here, which changes nothing because every value is at most 32752. Its contract gives the recurrence at the corner; that this is the minimum path sum follows from `Grids.DpIsMinPath`.
- The inner loops of `InitializeEdges`, `FillRemainingPaths` and the reference DP are separate methods (`PrefixTopRow`, `FillRow`, `FillReferenceRow`, …). The statements are those of the C# loops.
- The independence of the result from the vector width is not modelled; only the 32-lane width of the code is.
