/**
  SolveBranchless and its two phases: the anti-diagonals of an n-by-n grid
  swept one after another over two swapping buffers, each diagonal proved
  to carry the recurrence from the previous one.
 */
module BranchlessSolver {
  import opened Grids
  import opened WeightStreams
  import opened DiagonalSweep

  /** Growing-phase diagonal k (rows 0 .. k): from diagonal k - 1 in old to diagonal k in new. */
  method GrowDiagonal(size: int, pOld: array<i16>, pNew: array<i16>, wStream: array<byte>, k: int, pW: int,
                      ghost g: seq<seq<int>>)
    returns (pWNext: int)
    requires SolvableGrid(g, size) && 1 <= k < size && pOld != pNew
    requires StreamLength(size) <= wStream.Length && wStream[..StreamLength(size)] == WeightStream(g, size)
    requires pW == SegStart(size, k) && GrowingState(g, size, k, pOld[..], pNew[..])
    modifies pNew
    ensures pWNext == SegStart(size, k + 1) && GrowingState(g, size, k + 1, pNew[..], pOld[..])
  {
    var count := k + 1;
    var vectorCount := RoundUp32(count);
    StreamSegment(g, size, k, wStream);
    assert DiagLen(size, k) == count && RowStart(size, k) == 0;
    ghost var o, n0 := pOld[..], pNew[..];
    ghost var seg := wStream[pW..pW + vectorCount];
    assert seg == Segment(g, size, k);
    pWNext := SweepDiagonal(pOld, pNew, Margin, vectorCount, wStream, pW);
    assert pOld[..] == o;
    GrowingStep(g, size, k, o, n0, pNew[..]);
  }

  /** Shrinking-phase diagonal k (rows k - size + 1 .. size - 1): from diagonal k - 1 in old to diagonal k in new. */
  method ShrinkDiagonal(size: int, pOld: array<i16>, pNew: array<i16>, wStream: array<byte>, k: int, pW: int,
                        ghost g: seq<seq<int>>)
    returns (pWNext: int)
    requires SolvableGrid(g, size) && size <= k < 2 * size - 1 && pOld != pNew
    requires StreamLength(size) <= wStream.Length && wStream[..StreamLength(size)] == WeightStream(g, size)
    requires pW == SegStart(size, k) && ShrinkingState(g, size, k, pOld[..], pNew[..])
    modifies pNew
    ensures pWNext == SegStart(size, k + 1) && ShrinkingState(g, size, k + 1, pNew[..], pOld[..])
  {
    var rStart := k - size + 1;
    var count := size - rStart;
    var vectorCount := RoundUp32(count);
    StreamSegment(g, size, k, wStream);
    assert count == 2 * size - 1 - k == DiagLen(size, k) && RowStart(size, k) == rStart;
    assert vectorCount == RoundUp32(2 * size - 1 - k) && Margin + rStart + vectorCount <= pNew.Length;
    ghost var o, n0 := pOld[..], pNew[..];
    ghost var seg := wStream[pW..pW + vectorCount];
    assert seg == Segment(g, size, k);
    pWNext := SweepDiagonal(pOld, pNew, Margin + rStart, vectorCount, wStream, pW);
    assert pOld[..] == o;
    assert Swept(o, n0, pNew[..], Margin + k - size + 1, RoundUp32(2 * size - 1 - k), Segment(g, size, k));
    ShrinkingStep(g, size, k, o, n0, pNew[..]);
  }

  /** The growing phase, diagonals 1 .. size - 1; the buffers swap after each one. */
  method GrowingPhase(size: int, buff1: array<i16>, buff2: array<i16>, wStream: array<byte>, ghost g: seq<seq<int>>)
    returns (pOld: array<i16>, pNew: array<i16>, pW: int)
    requires SolvableGrid(g, size) && buff1 != buff2
    requires StreamLength(size) <= wStream.Length && wStream[..StreamLength(size)] == WeightStream(g, size)
    requires GrowingState(g, size, 1, buff1[..], buff2[..])
    modifies buff1, buff2
    ensures (pOld == buff1 && pNew == buff2) || (pOld == buff2 && pNew == buff1)
    ensures pW == SegStart(size, size) && GrowingState(g, size, size, pOld[..], pNew[..])
  {
    pOld, pNew := buff1, buff2;
    pW := 0;
    var k := 1;
    while k < size
      invariant 1 <= k <= size
      invariant (pOld == buff1 && pNew == buff2) || (pOld == buff2 && pNew == buff1)
      invariant pW == SegStart(size, k)
      invariant GrowingState(g, size, k, pOld[..], pNew[..])
    {
      pW := GrowDiagonal(size, pOld, pNew, wStream, k, pW, g);
      pOld, pNew := pNew, pOld;
      k := k + 1;
    }
    assert k == size;
  }

  /** The shrinking phase, diagonals size .. 2 * size - 2, continuing from the growing phase's buffers. */
  method ShrinkingPhase(size: int, buff1: array<i16>, buff2: array<i16>, wStream: array<byte>, pW0: int,
                        ghost g: seq<seq<int>>)
    returns (pOld: array<i16>, pNew: array<i16>)
    requires SolvableGrid(g, size) && buff1 != buff2
    requires StreamLength(size) <= wStream.Length && wStream[..StreamLength(size)] == WeightStream(g, size)
    requires pW0 == SegStart(size, size) && ShrinkingState(g, size, size, buff1[..], buff2[..])
    modifies buff1, buff2
    ensures (pOld == buff1 && pNew == buff2) || (pOld == buff2 && pNew == buff1)
    ensures ShrinkingState(g, size, 2 * size - 1, pOld[..], pNew[..])
  {
    pOld, pNew := buff1, buff2;
    var pW := pW0;
    var k := size;
    var totalDiags := 2 * size - 1;
    while k < totalDiags
      invariant size <= k <= totalDiags
      invariant (pOld == buff1 && pNew == buff2) || (pOld == buff2 && pNew == buff1)
      invariant pW == SegStart(size, k)
      invariant ShrinkingState(g, size, k, pOld[..], pNew[..])
    {
      pW := ShrinkDiagonal(size, pOld, pNew, wStream, k, pW, g);
      pOld, pNew := pNew, pOld;
      k := k + 1;
    }
    assert k == 2 * size - 1;
  }

  /**
    SolveBranchless: the minimum path sum of the n-by-n grid g from its weight
    stream and its start cost, with both buffers pre-filled with the sentinel.
    The stream is only read.
   */
  method SolveBranchless(size: int, buff1: array<i16>, buff2: array<i16>, wStream: array<byte>, startValue: i16,
                         ghost g: seq<seq<int>>)
    returns (result: int)
    requires SolvableGrid(g, size) && startValue as int == g[0][0]
    requires buff1 != buff2 && buff1.Length == size + 64 && buff2.Length == size + 64
    requires forall i :: 0 <= i < buff1.Length ==> buff1[i] == Inf
    requires forall i :: 0 <= i < buff2.Length ==> buff2[i] == Inf
    requires StreamLength(size) <= wStream.Length && wStream[..StreamLength(size)] == WeightStream(g, size)
    modifies buff1, buff2
    ensures result == Dp(g, size - 1, size - 1)
    ensures size == 1 ==> result == startValue as int
  {
    buff1[Margin] := startValue;
    StartState(g, size, buff1[..], buff2[..]);
    var pOld, pNew, pW := GrowingPhase(size, buff1, buff2, wStream, g);
    PhaseChange(g, size, pOld[..], pNew[..]);
    pOld, pNew := ShrinkingPhase(size, pOld, pNew, wStream, pW, g);
    Finished(g, size, pOld[..], pNew[..]);
    result := pOld[Margin + size - 1] as int;
  }
}
