/**
  The anti-diagonal weight stream of the SIMD solver: the costs of an n-by-n
  grid flattened diagonal by diagonal (k = r + c increasing, rows increasing
  within a diagonal), one byte per cell, each diagonal's segment zero-padded
  to a multiple of the 32-lane block width. Diagonal 0, the start cell, is not
  streamed; its cost reaches the solver as a separate start value.
 */
module WeightStreams {
  import opened Grids

  /** An unsigned byte of the stream. */
  newtype byte = x: int | 0 <= x < 0x100

  /** Lanes per vector block: 32 bytes of weights per step. */
  const Lanes: int := 32

  /** The truncating cast (byte)v: the low eight bits of v. */
  function ToByte(v: int): (b: byte)
    ensures 0 <= v < 0x100 ==> b as int == v
    ensures (v - b as int) % 0x100 == 0
  {
    (v % 0x100) as byte
  }

  /** (n + 31) & ~31 for n >= 0: n rounded up to the block width. */
  function RoundUp32(n: int): (m: int)
    requires n >= 0
    ensures m % Lanes == 0 && n <= m < n + Lanes
  {
    (n + 31) / 32 * 32
  }

  /** Rounding up a multiple of the block width plus n adds exactly RoundUp32(n). */
  lemma RoundUpShift(base: int, n: int)
    requires base >= 0 && base % Lanes == 0 && n >= 0
    ensures RoundUp32(base + n) == base + RoundUp32(n)
  {
    var q := base / 32;
    assert base == 32 * q;
    assert (base + n + 31) / 32 == q + (n + 31) / 32;
  }

  /** Number of cells of an n-by-n grid on anti-diagonal k. */
  function DiagLen(n: int, k: int): int {
    if k < n then k + 1 else 2 * n - 1 - k
  }

  /** First row of an n-by-n grid on anti-diagonal k. */
  function RowStart(n: int, k: int): int {
    if k < n then 0 else k - n + 1
  }

  /**
    Diagonal coverage: a row r holds a cell of diagonal k, that is (r, k - r)
    lies on the grid, exactly when r is one of the DiagLen(n, k) rows from
    RowStart(n, k) on.
   */
  lemma DiagonalRows(n: int, k: int, r: int)
    requires 0 <= k <= 2 * n - 2
    ensures (0 <= r < n && 0 <= k - r < n) <==> RowStart(n, k) <= r < RowStart(n, k) + DiagLen(n, k)
  {
  }

  /**
    The bytes one diagonal occupies in the stream: (byte)g[r][k - r] for the
    count rows r = rStart .. rStart + count - 1, then zeros up to width.
   */
  function Padded(g: seq<seq<int>>, k: int, rStart: int, count: int, width: int): (s: seq<byte>)
    requires Rect(g) && 0 <= rStart && 0 <= count <= width && rStart + count <= |g|
    requires count > 0 ==> 0 <= k - rStart - count + 1 && k - rStart < |g[0]|
    ensures |s| == width
  {
    seq(width, j requires 0 <= j < width => if j < count then ToByte(g[rStart + j][k - rStart - j]) else 0)
  }

  /** The padded segment of diagonal k: its live bytes, then zeros up to the block width. */
  function Segment(g: seq<seq<int>>, n: int, k: int): (s: seq<byte>)
    requires IsSquare(g, n) && 1 <= k <= 2 * n - 2
    ensures |s| == RoundUp32(DiagLen(n, k))
  {
    Padded(g, k, RowStart(n, k), DiagLen(n, k), RoundUp32(DiagLen(n, k)))
  }

  /** Byte j of segment k: the cost of cell (RowStart + j, k - RowStart - j) while j is live, else 0. */
  lemma SegmentAt(g: seq<seq<int>>, n: int, k: int, j: int)
    requires IsSquare(g, n) && 1 <= k <= 2 * n - 2
    requires 0 <= j < RoundUp32(DiagLen(n, k))
    ensures |Segment(g, n, k)| == RoundUp32(DiagLen(n, k))
    ensures j < DiagLen(n, k) ==>
      var r := RowStart(n, k) + j;
      0 <= r < n && 0 <= k - r < n && Segment(g, n, k)[j] == ToByte(g[r][k - r])
    ensures j >= DiagLen(n, k) ==> Segment(g, n, k)[j] == 0
  {
  }

  /** A live byte j of segment k, for the cell (r, c) it stands for. */
  lemma SegmentByte(g: seq<seq<int>>, n: int, k: int, j: int, r: int, c: int)
    requires IsSquare(g, n) && 1 <= k <= 2 * n - 2 && 0 <= j < DiagLen(n, k)
    requires r == RowStart(n, k) + j && c == k - r
    ensures 0 <= r < n && 0 <= c < n && Segment(g, n, k)[j] == ToByte(g[r][c])
  {
    SegmentAt(g, n, k, j);
  }

  /** Stream offset of the segment of diagonal k: the padded lengths of diagonals 1 .. k - 1. */
  function SegStart(n: int, k: int): (offset: int)
    requires 1 <= k <= 2 * n - 1
    ensures offset >= 0
  {
    if k == 1 then 0 else SegStart(n, k - 1) + RoundUp32(DiagLen(n, k - 1))
  }

  /** Total stream length: the sum over diagonals 1 .. 2n - 2 of their padded lengths. */
  function StreamLength(n: int): (len: int)
    requires n >= 1
    ensures len >= 0
  {
    SegStart(n, 2 * n - 1)
  }

  /** The segments of diagonals 1 .. k - 1, in order. */
  function Stream(g: seq<seq<int>>, n: int, k: int): (s: seq<byte>)
    requires IsSquare(g, n) && 1 <= k <= 2 * n - 1
    ensures |s| == SegStart(n, k)
  {
    if k == 1 then [] else Stream(g, n, k - 1) + Segment(g, n, k - 1)
  }

  /** The whole weight stream of the grid g. */
  function WeightStream(g: seq<seq<int>>, n: int): (s: seq<byte>)
    requires IsSquare(g, n) && n >= 1
    ensures |s| == StreamLength(n)
  {
    Stream(g, n, 2 * n - 1)
  }

  /** Segment layout: every segment starts at a multiple of 32, and the stream so far has exactly that length. */
  lemma {:induction false} StreamLayout(g: seq<seq<int>>, n: int, k: int)
    requires IsSquare(g, n) && 1 <= k <= 2 * n - 1
    ensures |Stream(g, n, k)| == SegStart(n, k) && SegStart(n, k) % Lanes == 0
  {
    if k > 1 {
      StreamLayout(g, n, k - 1);
      RoundUpShift(SegStart(n, k - 1), DiagLen(n, k - 1));
    }
  }

  /** Later diagonals only append: the stream up to diagonal k is a prefix of the one up to K. */
  lemma {:induction false} StreamPrefix(g: seq<seq<int>>, n: int, k: int, bigK: int)
    requires IsSquare(g, n) && 1 <= k <= bigK <= 2 * n - 1
    ensures SegStart(n, k) <= |Stream(g, n, bigK)|
    ensures Stream(g, n, bigK)[..SegStart(n, k)] == Stream(g, n, k)
    decreases bigK - k
  {
    if k < bigK {
      StreamPrefix(g, n, k, bigK - 1);
      var before := Stream(g, n, bigK - 1);
      assert Stream(g, n, bigK) == before + Segment(g, n, bigK - 1);
      PrefixOfAppend(before, Segment(g, n, bigK - 1), SegStart(n, k));
    }
  }

  lemma PrefixOfAppend(a: seq<byte>, b: seq<byte>, m: int)
    requires 0 <= m <= |a|
    ensures (a + b)[..m] == a[..m]
  {
  }

  /** The segment of diagonal k sits in the weight stream between SegStart(n, k) and SegStart(n, k + 1). */
  lemma SegmentInStream(g: seq<seq<int>>, n: int, k: int)
    requires IsSquare(g, n) && 1 <= k <= 2 * n - 2
    ensures SegStart(n, k + 1) == SegStart(n, k) + RoundUp32(DiagLen(n, k))
    ensures SegStart(n, k + 1) <= StreamLength(n) == |WeightStream(g, n)|
    ensures WeightStream(g, n)[SegStart(n, k)..SegStart(n, k + 1)] == Segment(g, n, k)
  {
    StreamPrefix(g, n, k + 1, 2 * n - 1);
    StreamLayout(g, n, k);
    StreamLayout(g, n, 2 * n - 1);
    var w := WeightStream(g, n);
    assert w[..SegStart(n, k + 1)] == Stream(g, n, k) + Segment(g, n, k);
    assert w[SegStart(n, k)..SegStart(n, k + 1)] == w[..SegStart(n, k + 1)][SegStart(n, k)..];
  }

  /** The index in the stream of the byte that carries cell (r, c), for any cell but (0, 0). */
  function StreamIndex(n: int, r: int, c: int): int
    requires 0 <= r < n && 0 <= c < n && 0 < r + c
  {
    SegStart(n, r + c) + (r - RowStart(n, r + c))
  }

  /** Every grid cell except the start cell is streamed, as its truncated cost, at StreamIndex. */
  lemma CellInStream(g: seq<seq<int>>, n: int, r: int, c: int)
    requires IsSquare(g, n) && 0 <= r < n && 0 <= c < n && 0 < r + c
    ensures 0 <= StreamIndex(n, r, c) < |WeightStream(g, n)|
    ensures WeightStream(g, n)[StreamIndex(n, r, c)] == ToByte(g[r][c])
  {
    var k := r + c;
    SegmentCell(g, n, r, c);
    SegmentInStream(g, n, k);
    var i := StreamIndex(n, r, c);
    assert i - SegStart(n, k) == r - RowStart(n, k);
    SliceAt(WeightStream(g, n), SegStart(n, k), SegStart(n, k + 1), Segment(g, n, k), i);
  }

  /** Cell (r, c) is byte r - RowStart of the segment of its diagonal r + c. */
  lemma SegmentCell(g: seq<seq<int>>, n: int, r: int, c: int)
    requires IsSquare(g, n) && 0 <= r < n && 0 <= c < n && 0 < r + c
    ensures 0 <= r - RowStart(n, r + c) < DiagLen(n, r + c)
    ensures Segment(g, n, r + c)[r - RowStart(n, r + c)] == ToByte(g[r][c])
  {
    DiagonalRows(n, r + c, r);
    SegmentAt(g, n, r + c, r - RowStart(n, r + c));
  }

  /** Byte i of w is byte i - a of its slice w[a..b]. */
  lemma SliceAt(w: seq<byte>, a: int, b: int, s: seq<byte>, i: int)
    requires 0 <= a <= i < b <= |w| && w[a..b] == s
    ensures w[i] == s[i - a]
  {
  }

  /** Each segment is at most n + 31 bytes, so the stream has at most (2n - 2)(n + 31) bytes. */
  lemma {:induction false} SegStartBound(n: int, k: int)
    requires 1 <= k <= 2 * n - 1
    ensures 0 <= SegStart(n, k) <= (k - 1) * (n + 31)
  {
    if k > 1 {
      SegStartBound(n, k - 1);
      assert RoundUp32(DiagLen(n, k - 1)) <= n + 31;
      assert (k - 2) * (n + 31) + (n + 31) == (k - 1) * (n + 31);
    }
  }

  /** For n up to 1024 the stream fits the 4 MiB buffer the programs allocate. */
  lemma StreamFits(n: int)
    requires 1 <= n <= 1024
    ensures StreamLength(n) <= 4 * 1024 * 1024
  {
    SegStartBound(n, 2 * n - 1);
    MulMono(2 * n - 2, 2046, n + 31);
  }

  lemma MulMono(a: int, b: int, c: int)
    requires 0 <= a <= b && 0 <= c
    ensures a * c <= b * c
  {
  }

  // ---------------------------------------------------------------------
  // The builder

  /**
    Writes the bytes of one diagonal at the cursor — (byte)g[r][k - r] for
    r = rStart, rStart + 1, ... (count of them) — then zeros until the cursor
    is a multiple of 32, and returns the advanced cursor.
   */
  method WriteDiag(stream: array<byte>, g: seq<seq<int>>, k: int, rStart: int, count: int, cursor: int)
    returns (next: int)
    requires Rect(g) && 0 <= rStart && 0 <= count && rStart + count <= |g|
    requires count > 0 ==> 0 <= k - rStart - count + 1 && k - rStart < |g[0]|
    requires 0 <= cursor && RoundUp32(cursor + count) <= stream.Length
    modifies stream
    ensures next == RoundUp32(cursor + count)
    ensures stream[cursor..next] == Padded(g, k, rStart, count, next - cursor)
    ensures forall i :: 0 <= i < stream.Length && !(cursor <= i < next) ==> stream[i] == old(stream[i])
  {
    ghost var width := RoundUp32(cursor + count) - cursor;
    ghost var bytes := Padded(g, k, rStart, count, width);
    next := cursor;
    for j := 0 to count
      invariant next == cursor + j
      invariant forall i :: cursor <= i < next ==> stream[i] == bytes[i - cursor]
      invariant forall i :: 0 <= i < stream.Length && !(cursor <= i < next) ==> stream[i] == old(stream[i])
    {
      var r := rStart + j;
      var c := k - r;
      stream[next] := ToByte(g[r][c]);
      next := next + 1;
    }
    var end := RoundUp32(cursor + count);
    while next % Lanes != 0
      invariant cursor + count <= next <= end
      invariant forall i :: cursor <= i < next ==> stream[i] == bytes[i - cursor]
      invariant forall i :: 0 <= i < stream.Length && !(cursor <= i < next) ==> stream[i] == old(stream[i])
      decreases end - next
    {
      stream[next] := 0;
      next := next + 1;
    }
    forall j | 0 <= j < next - cursor
      ensures stream[cursor..next][j] == bytes[j]
    {
      assert stream[cursor..next][j] == stream[cursor + j];
    }
  }

  /**
    Builds the weight stream of the n-by-n grid g into stream: the ascending
    diagonals, then the descending ones. Bytes past the stream are left as
    they were.
   */
  method BuildStream(n: int, g: seq<seq<int>>, stream: array<byte>)
    requires n >= 1 && IsSquare(g, n)
    requires StreamLength(n) <= stream.Length
    modifies stream
    ensures stream[..StreamLength(n)] == WeightStream(g, n)
    ensures stream[StreamLength(n)..] == old(stream[StreamLength(n)..])
  {
    var cursor := WriteAscending(n, g, stream);
    WriteDescending(n, g, stream, cursor);
    assert stream[StreamLength(n)..] == old(stream[StreamLength(n)..]);
  }

  /** The ascending diagonals k = 1 .. n - 1, each from row 0 with k + 1 cells. */
  method WriteAscending(n: int, g: seq<seq<int>>, stream: array<byte>) returns (cursor: int)
    requires n >= 1 && IsSquare(g, n)
    requires StreamLength(n) <= stream.Length
    modifies stream
    ensures cursor == SegStart(n, n) && cursor <= StreamLength(n) && stream[..cursor] == Stream(g, n, n)
    ensures forall i :: cursor <= i < stream.Length ==> stream[i] == old(stream[i])
  {
    cursor := 0;
    var k := 1;
    while k < n
      invariant 1 <= k <= n
      invariant cursor == SegStart(n, k) && cursor <= StreamLength(n)
      invariant stream[..cursor] == Stream(g, n, k)
      invariant forall i :: cursor <= i < stream.Length ==> stream[i] == old(stream[i])
    {
      cursor := WriteSegment(stream, g, n, k, 0, k + 1, cursor);
      k := k + 1;
    }
    assert k == n;
  }

  /** The descending diagonals k = n .. 2n - 2, each from row k - n + 1 with 2n - 1 - k cells. */
  method WriteDescending(n: int, g: seq<seq<int>>, stream: array<byte>, cursor0: int)
    requires n >= 1 && IsSquare(g, n)
    requires StreamLength(n) <= stream.Length
    requires cursor0 == SegStart(n, n) && cursor0 <= StreamLength(n) && stream[..cursor0] == Stream(g, n, n)
    modifies stream
    ensures stream[..StreamLength(n)] == WeightStream(g, n)
    ensures forall i :: StreamLength(n) <= i < stream.Length ==> stream[i] == old(stream[i])
  {
    var cursor := cursor0;
    var k := n;
    while k < 2 * n - 1
      invariant n <= k <= 2 * n - 1
      invariant cursor == SegStart(n, k) && cursor <= StreamLength(n)
      invariant stream[..cursor] == Stream(g, n, k)
      invariant forall i :: StreamLength(n) <= i < stream.Length ==> stream[i] == old(stream[i])
    {
      assert RowStart(n, k) == k - n + 1 && DiagLen(n, k) == n - (k - n + 1);
      cursor := WriteSegment(stream, g, n, k, k - n + 1, n - (k - n + 1), cursor);
      k := k + 1;
    }
    assert k == 2 * n - 1;
  }

  /**
    One call of WriteDiag from the builder's loops, with the proof that it
    appends exactly the segment of diagonal k and stays inside the stream.
   */
  method WriteSegment(stream: array<byte>, g: seq<seq<int>>, n: int, k: int, rStart: int, count: int, cursor: int)
    returns (next: int)
    requires n >= 1 && IsSquare(g, n) && 1 <= k <= 2 * n - 2
    requires rStart == RowStart(n, k) && count == DiagLen(n, k)
    requires StreamLength(n) <= stream.Length
    requires cursor == SegStart(n, k) && cursor <= stream.Length && stream[..cursor] == Stream(g, n, k)
    modifies stream
    ensures next == SegStart(n, k + 1) && next <= StreamLength(n) && stream[..next] == Stream(g, n, k + 1)
    ensures forall i :: next <= i < stream.Length ==> stream[i] == old(stream[i])
  {
    StreamLayout(g, n, k);
    SegmentInStream(g, n, k);
    RoundUpShift(cursor, count);
    ghost var before := stream[..];
    next := WriteDiag(stream, g, k, rStart, count, cursor);
    assert next - cursor == RoundUp32(count);
    Splice(before, stream[..], cursor, next, Stream(g, n, k), Segment(g, n, k));
  }

  /** Writing seg at cursor behind an untouched prefix pre leaves pre + seg in front of the new cursor. */
  lemma Splice(before: seq<byte>, after: seq<byte>, cursor: int, next: int, pre: seq<byte>, seg: seq<byte>)
    requires |before| == |after| && 0 <= cursor <= next <= |after|
    requires before[..cursor] == pre && after[cursor..next] == seg
    requires forall i :: 0 <= i < cursor ==> after[i] == before[i]
    ensures after[..next] == pre + seg
  {
    assert after[..cursor] == before[..cursor];
    assert after[..next] == after[..cursor] + after[cursor..next];
  }

  /**
    PrecomputeWeightsPad: the weight stream of the generated grid of a seed;
    every live byte is the XOR cost of its cell, in 1..16.
   */
  method PrecomputeWeightsPad(size: int, seed: int, stream: array<byte>)
    requires size >= 1 && StreamLength(size) <= stream.Length
    modifies stream
    ensures stream[..StreamLength(size)] == WeightStream(SeedGrid(size, seed), size)
    ensures stream[StreamLength(size)..] == old(stream[StreamLength(size)..])
  {
    BuildStream(size, SeedGrid(size, seed), stream);
  }

  /** The live bytes of a generated stream are the XOR costs themselves, each in 1..16. */
  lemma SeedStreamCells(size: int, seed: int, r: int, c: int)
    requires 0 <= r < size && 0 <= c < size && 0 < r + c
    ensures 0 <= StreamIndex(size, r, c) < StreamLength(size)
    ensures WeightStream(SeedGrid(size, seed), size)[StreamIndex(size, r, c)] as int == XorCost(r, c, seed)
    ensures 1 <= WeightStream(SeedGrid(size, seed), size)[StreamIndex(size, r, c)] <= 16
  {
    CellInStream(SeedGrid(size, seed), size, r, c);
    StreamLayout(SeedGrid(size, seed), size, 2 * size - 1);
  }
}
