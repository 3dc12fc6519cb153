/**
  The diagonal-sweep solver. Two buffers of 16-bit accumulators, each
  addressed from an origin 16 slots in (the pointers buff + 16 of the C#
  code), hold the previous and the current anti-diagonal indexed by row.
  Every diagonal is swept in blocks of 32 lanes; each lane computes
  new[r] = min(old[r], old[r - 1]) + w with 16-bit wrapping arithmetic,
  and the two buffers swap roles after each diagonal.
 */
module DiagonalSweep {
  import opened Grids
  import opened WeightStreams

  /** A signed 16-bit accumulator (C# short). */
  newtype i16 = x: int | -0x8000 <= x < 0x8000

  /** The sentinel that pre-fills both buffers. */
  const Inf: i16 := 20000
  /** Slots before row 0 in each buffer: pOld = buff + 16. */
  const Margin: int := 16
  /** Largest grid size the 16-bit accumulators are proved safe for (N of the program). */
  const MaxSize: int := 1024
  /** Largest cell cost. */
  const MaxCost: int := 16
  /** The longest path has 2 * MaxSize - 1 cells, so no path sum exceeds Cap. */
  const Cap: int := (2 * MaxSize - 1) * MaxCost

  /** The sentinel dominates every row-0 and column-0 prefix sum, and Cap and Inf + MaxCost fit in a short. */
  lemma SentinelHeadroom()
    ensures MaxSize * MaxCost < Inf as int && Inf as int + MaxCost < 0x8000
    ensures Inf as int <= Cap < 0x8000
  {
  }

  /** Two's-complement wrap-around of a 16-bit add. */
  function Wrap16(x: int): (v: i16)
    ensures -0x8000 <= x < 0x8000 ==> v as int == x
    ensures (x - v as int) % 0x10000 == 0
  {
    ((x + 0x8000) % 0x10000 - 0x8000) as i16
  }

  /** Widening an sbyte to a short: a byte read with its top bit as sign. */
  function SignExtend(b: byte): (v: i16)
    ensures -128 <= v < 128 && ToByte(v as int) == b
  {
    if b < 128 then b as int as i16 else (b as int - 256) as i16
  }

  /** A cost below 128 survives the byte cast and the sign extension unchanged. */
  lemma WidenCost(v: int)
    requires 0 <= v < 128
    ensures SignExtend(ToByte(v)) as int == v
  {
  }

  /**
    One lane of a block, Add(Min(center, left), widened weight) on shorts:
    the signed minimum of the lane's own old slot and the slot before it,
    plus the sign-extended weight byte, wrapping modulo 2^16.
   */
  function Lane(center: i16, left: i16, w: byte): (v: i16)
    ensures var sum := Min(center as int, left as int) + SignExtend(w) as int;
      (-0x8000 <= sum < 0x8000 ==> v as int == sum) && (sum - v as int) % 0x10000 == 0
  {
    Wrap16(Min(center as int, left as int) + SignExtend(w) as int)
  }

  // ---------------------------------------------------------------------
  // Buffer states

  /** Every slot holds a value in 0..Cap. */
  ghost predicate Bounded(b: seq<i16>) {
    forall i :: 0 <= i < |b| ==> 0 <= b[i] as int <= Cap
  }

  /** Every slot outside lo..hi - 1 holds the sentinel. */
  ghost predicate InfOutside(b: seq<i16>, lo: int, hi: int) {
    forall i :: 0 <= i < |b| && !(lo <= i < hi) ==> b[i] == Inf
  }

  /** Rows lo .. hi - 1 of b hold the recurrence on diagonal k: slot Margin + r holds Dp(g, r, k - r). */
  ghost predicate Holds(b: seq<i16>, g: seq<seq<int>>, k: int, lo: int, hi: int) {
    Rect(g) && 0 <= lo && hi <= |g| && 0 <= k - hi + 1 && k - lo < |g[0]| && Margin + hi <= |b| &&
    forall i :: Margin + lo <= i < Margin + hi ==> b[i] as int == Dp(g, i - Margin, k - (i - Margin))
  }

  /** The grids the solver is proved for: n-by-n, n <= 1024, costs 0..16. */
  ghost predicate SolvableGrid(g: seq<seq<int>>, n: int) {
    1 <= n <= MaxSize && IsSquare(g, n) && CostsWithin(g, 0, MaxCost)
  }

  /**
    Before growing-phase diagonal k: old holds diagonal k - 1 (rows 0 .. k - 1)
    with the sentinel everywhere else, margin included; new is the sentinel
    outside rows 0 .. k - 2.
   */
  ghost predicate GrowingState(g: seq<seq<int>>, n: int, k: int, o: seq<i16>, nw: seq<i16>) {
    |o| == n + 64 && |nw| == n + 64 &&
    Holds(o, g, k - 1, 0, k) && InfOutside(o, Margin, Margin + k) &&
    InfOutside(nw, Margin, Margin + k - 1) && Bounded(o) && Bounded(nw)
  }

  /**
    Before shrinking-phase diagonal k: old holds diagonal k - 1 on its rows
    k - n .. n - 1; every slot of both buffers stays in 0..Cap.
   */
  ghost predicate ShrinkingState(g: seq<seq<int>>, n: int, k: int, o: seq<i16>, nw: seq<i16>) {
    |o| == n + 64 && |nw| == n + 64 &&
    Holds(o, g, k - 1, k - n, n) && Bounded(o) && Bounded(nw)
  }

  /** The vc slots of n1 from base on are the lanes over o and the weight bytes seg. */
  ghost predicate SweptLanes(o: seq<i16>, n1: seq<i16>, base: int, vc: int, seg: seq<byte>) {
    1 <= base && base + vc <= |o| && |n1| == |o| && |seg| == vc &&
    forall i :: base <= i < base + vc ==> n1[i] == Lane(o[i], o[i - 1], seg[i - base])
  }

  /** Every slot of n1 outside base .. base + vc - 1 is as in n0. */
  ghost predicate Unswept(n0: seq<i16>, n1: seq<i16>, base: int, vc: int) {
    |n0| == |n1| && forall i :: 0 <= i < |n1| && !(base <= i < base + vc) ==> n1[i] == n0[i]
  }

  /**
    n1 is n0 after one diagonal sweep: the vc slots from base on are lanes
    computed from o and the weight bytes seg; every other slot is as in n0.
   */
  ghost predicate Swept(o: seq<i16>, n0: seq<i16>, n1: seq<i16>, base: int, vc: int, seg: seq<byte>) {
    SweptLanes(o, n1, base, vc, seg) && Unswept(n0, n1, base, vc)
  }

  // ---------------------------------------------------------------------
  // One diagonal step, lane by lane
  //
  // The small accessor lemmas below take the very terms their callers use
  // (a slot index and the cell it stands for), which keeps each step's proof
  // local to one slot.

  /** Slot i of a buffer that holds diagonal k on rows lo .. hi - 1 stands for cell (r, c). */
  lemma HoldsAt(b: seq<i16>, g: seq<seq<int>>, k: int, lo: int, hi: int, i: int, r: int, c: int)
    requires Holds(b, g, k, lo, hi) && lo <= r < hi && r == i - Margin && c == k - r
    ensures OnGrid(g, r, c) && 0 <= i < |b| && b[i] as int == Dp(g, r, c)
  {
  }

  /** A slot outside lo .. hi - 1 holds the sentinel. */
  lemma InfAt(b: seq<i16>, lo: int, hi: int, i: int)
    requires InfOutside(b, lo, hi) && 0 <= i < |b| && !(lo <= i < hi)
    ensures b[i] == Inf
  {
  }

  /** A slot of a bounded buffer lies in 0..Cap. */
  lemma BoundedAt(b: seq<i16>, i: int)
    requires Bounded(b) && 0 <= i < |b|
    ensures 0 <= b[i] as int <= Cap
  {
  }

  /** A swept slot is the lane over its two old neighbours and weight byte j = i - base. */
  lemma SweptAt(o: seq<i16>, n1: seq<i16>, base: int, vc: int, seg: seq<byte>, i: int, j: int)
    requires SweptLanes(o, n1, base, vc, seg) && base <= i < base + vc && j == i - base
    ensures 1 <= i < |o| && i < |n1| && 0 <= j < |seg| && n1[i] == Lane(o[i], o[i - 1], seg[j])
  {
  }

  /** A slot the sweep does not reach keeps its value. */
  lemma UnsweptAt(n0: seq<i16>, n1: seq<i16>, base: int, vc: int, i: int)
    requires Unswept(n0, n1, base, vc) && 0 <= i < |n1| && !(base <= i < base + vc)
    ensures i < |n0| && n1[i] == n0[i]
  {
  }

  /** Without overflow a lane is the plain minimum plus the widened weight. */
  lemma LaneExact(center: i16, left: i16, w: byte)
    requires 0 <= Min(center as int, left as int) + SignExtend(w) as int < 0x8000
    ensures Lane(center, left, w) as int == Min(center as int, left as int) + SignExtend(w) as int
  {
  }

  /** Lanes over pairs of live predecessors compute the recurrence for an interior cell. */
  lemma InteriorLane(g: seq<seq<int>>, n: int, r: int, c: int, center: i16, left: i16, w: byte)
    requires SolvableGrid(g, n) && 0 < r < n && 0 < c < n
    requires center as int == Dp(g, r, c - 1) && left as int == Dp(g, r - 1, c)
    requires SignExtend(w) as int == g[r][c]
    ensures Lane(center, left, w) as int == Dp(g, r, c) <= Cap && 0 <= Dp(g, r, c)
  {
    DpBounds(g, MaxCost, r, c);
    LaneExact(center, left, w);
  }

  /** Row 0: the slot before it holds the sentinel, which loses to the row-0 prefix sum. */
  lemma TopRowLane(g: seq<seq<int>>, n: int, c: int, center: i16, w: byte)
    requires SolvableGrid(g, n) && 1 <= c < n
    requires center as int == Dp(g, 0, c - 1) && SignExtend(w) as int == g[0][c]
    ensures Lane(center, Inf, w) as int == Dp(g, 0, c) <= Cap && 0 <= Dp(g, 0, c)
  {
    DpBounds(g, MaxCost, 0, c - 1);
    DpBounds(g, MaxCost, 0, c);
    LaneExact(center, Inf, w);
  }

  /** Column 0: the slot of the row itself holds the sentinel, which loses to the column-0 prefix sum. */
  lemma LeftColumnLane(g: seq<seq<int>>, n: int, r: int, left: i16, w: byte)
    requires SolvableGrid(g, n) && 1 <= r < n
    requires left as int == Dp(g, r - 1, 0) && SignExtend(w) as int == g[r][0]
    ensures Lane(Inf, left, w) as int == Dp(g, r, 0) <= Cap && 0 <= Dp(g, r, 0)
  {
    DpBounds(g, MaxCost, r - 1, 0);
    DpBounds(g, MaxCost, r, 0);
    LaneExact(Inf, left, w);
  }

  /**
    A lane for cell (r, c) other than the start: its own-row neighbour is the
    cell to the left (the sentinel in column 0), the row before is the cell
    above (the sentinel in row 0), and the lane computes the recurrence.
   */
  lemma LiveLane(g: seq<seq<int>>, n: int, r: int, c: int, center: i16, left: i16, w: byte)
    requires SolvableGrid(g, n) && 0 <= r < n && 0 <= c < n && 0 < r + c
    requires c > 0 ==> center as int == Dp(g, r, c - 1)
    requires c == 0 ==> center == Inf
    requires r > 0 ==> left as int == Dp(g, r - 1, c)
    requires r == 0 ==> left == Inf
    requires SignExtend(w) as int == g[r][c]
    ensures Lane(center, left, w) as int == Dp(g, r, c) <= Cap && 0 <= Dp(g, r, c)
  {
    if r == 0 {
      TopRowLane(g, n, c, center, w);
    } else if c == 0 {
      LeftColumnLane(g, n, r, left, w);
    } else {
      InteriorLane(g, n, r, c, center, left, w);
    }
  }

  /** Byte j of a live lane of diagonal k carries the cost of the cell (r, c) it stands for. */
  lemma LiveWeight(g: seq<seq<int>>, n: int, k: int, j: int, r: int, c: int)
    requires SolvableGrid(g, n) && 1 <= k <= 2 * n - 2 && 0 <= j < DiagLen(n, k)
    requires r == RowStart(n, k) + j && c == k - r
    ensures 0 <= r < n && 0 <= c < n && SignExtend(Segment(g, n, k)[j]) as int == g[r][c]
  {
    SegmentByte(g, n, k, j, r, c);
    WidenCost(g[r][c]);
  }

  /** A padding byte of diagonal k widens to 0. */
  lemma PadWeight(g: seq<seq<int>>, n: int, k: int, j: int)
    requires SolvableGrid(g, n) && 1 <= k <= 2 * n - 2 && DiagLen(n, k) <= j < RoundUp32(DiagLen(n, k))
    ensures SignExtend(Segment(g, n, k)[j]) == 0
  {
    SegmentAt(g, n, k, j);
  }

  /** A growing-phase lane on the live slot i of diagonal k, which stands for cell (r, c). */
  lemma GrowingLive(g: seq<seq<int>>, n: int, k: int, o: seq<i16>, n1: seq<i16>, i: int, r: int, c: int)
    requires SolvableGrid(g, n) && 1 <= k < n && 0 <= r <= k && r == i - Margin && c == k - r
    requires Holds(o, g, k - 1, 0, k) && InfOutside(o, Margin, Margin + k) && Margin + k < |o|
    requires SweptLanes(o, n1, Margin, RoundUp32(k + 1), Segment(g, n, k))
    ensures 0 <= i < |n1| && OnGrid(g, r, c) && n1[i] as int == Dp(g, r, c)
    ensures 0 <= n1[i] as int <= Cap
  {
    assert DiagLen(n, k) == k + 1 && RowStart(n, k) + r == r;
    LiveWeight(g, n, k, r, r, c);
    SweptAt(o, n1, Margin, RoundUp32(k + 1), Segment(g, n, k), i, r);
    GrowingNeighbours(g, k, o, i, r, c);
    LiveLane(g, n, r, c, o[i], o[i - 1], Segment(g, n, k)[r]);
  }

  /**
    The two old slots a growing-phase lane for cell (r, c) reads: its own
    slot holds the cell to the left, or the sentinel in column 0; the slot
    before holds the cell above, or the sentinel in row 0.
   */
  lemma GrowingNeighbours(g: seq<seq<int>>, k: int, o: seq<i16>, i: int, r: int, c: int)
    requires Holds(o, g, k - 1, 0, k) && InfOutside(o, Margin, Margin + k) && Margin + k < |o|
    requires 0 <= r <= k && r == i - Margin && c == k - r
    ensures 1 <= i < |o|
    ensures c > 0 ==> OnGrid(g, r, c - 1) && o[i] as int == Dp(g, r, c - 1)
    ensures c == 0 ==> o[i] == Inf
    ensures r > 0 ==> OnGrid(g, r - 1, c) && o[i - 1] as int == Dp(g, r - 1, c)
    ensures r == 0 ==> o[i - 1] == Inf
  {
    if c > 0 {
      HoldsAt(o, g, k - 1, 0, k, i, r, c - 1);
    } else {
      InfAt(o, Margin, Margin + k, i);
    }
    if r > 0 {
      HoldsAt(o, g, k - 1, 0, k, i - 1, r - 1, c);
    } else {
      InfAt(o, Margin, Margin + k, i - 1);
    }
  }

  /** A growing-phase padding lane: both neighbours and the weight are sentinel and 0. */
  lemma GrowingPad(g: seq<seq<int>>, n: int, k: int, o: seq<i16>, n1: seq<i16>, i: int)
    requires SolvableGrid(g, n) && 1 <= k < n && Margin + k + 1 <= i < Margin + RoundUp32(k + 1)
    requires InfOutside(o, Margin, Margin + k)
    requires SweptLanes(o, n1, Margin, RoundUp32(k + 1), Segment(g, n, k))
    ensures 0 <= i < |n1| && n1[i] == Inf
  {
    var j := i - Margin;
    assert DiagLen(n, k) == k + 1;
    PadWeight(g, n, k, j);
    SweptAt(o, n1, Margin, RoundUp32(k + 1), Segment(g, n, k), i, j);
    InfAt(o, Margin, Margin + k, i);
    InfAt(o, Margin, Margin + k, i - 1);
    LaneExact(o[i], o[i - 1], Segment(g, n, k)[j]);
  }

  /** A growing-phase lane: live rows get the recurrence, every other slot holds the sentinel. */
  lemma GrowingLane(g: seq<seq<int>>, n: int, k: int, o: seq<i16>, n0: seq<i16>, n1: seq<i16>, i: int)
    requires SolvableGrid(g, n) && 1 <= k < n
    requires GrowingState(g, n, k, o, n0)
    requires Swept(o, n0, n1, Margin, RoundUp32(k + 1), Segment(g, n, k))
    requires 0 <= i < |n1|
    ensures Margin <= i < Margin + k + 1 ==>
      OnGrid(g, i - Margin, k - (i - Margin)) && n1[i] as int == Dp(g, i - Margin, k - (i - Margin))
    ensures !(Margin <= i < Margin + k + 1) ==> n1[i] == Inf
    ensures 0 <= n1[i] as int <= Cap
  {
    if Margin <= i < Margin + k + 1 {
      GrowingLive(g, n, k, o, n1, i, i - Margin, k - (i - Margin));
    } else if Margin + k + 1 <= i < Margin + RoundUp32(k + 1) {
      GrowingPad(g, n, k, o, n1, i);
    } else {
      UnsweptAt(n0, n1, Margin, RoundUp32(k + 1), i);
      InfAt(n0, Margin, Margin + k - 1, i);
    }
  }

  /** A growing-phase diagonal: the new buffer holds diagonal k and the sentinel elsewhere. */
  lemma GrowingStep(g: seq<seq<int>>, n: int, k: int, o: seq<i16>, n0: seq<i16>, n1: seq<i16>)
    requires SolvableGrid(g, n) && 1 <= k < n
    requires GrowingState(g, n, k, o, n0)
    requires Swept(o, n0, n1, Margin, RoundUp32(k + 1), Segment(g, n, k))
    ensures GrowingState(g, n, k + 1, n1, o)
  {
    forall i | 0 <= i < |n1|
      ensures Margin <= i < Margin + k + 1 ==>
        OnGrid(g, i - Margin, k - (i - Margin)) && n1[i] as int == Dp(g, i - Margin, k - (i - Margin))
      ensures !(Margin <= i < Margin + k + 1) ==> n1[i] == Inf
      ensures 0 <= n1[i] as int <= Cap
    {
      GrowingLane(g, n, k, o, n0, n1, i);
    }
  }

  /** A shrinking-phase lane on the live slot i of diagonal k, cell (r, c): both predecessors are live, so the cell is interior. */
  lemma ShrinkingLive(g: seq<seq<int>>, n: int, k: int, o: seq<i16>, n1: seq<i16>, i: int, r: int, c: int)
    requires SolvableGrid(g, n) && n <= k <= 2 * n - 2 && k - n + 1 <= r < n && r == i - Margin && c == k - r
    requires Holds(o, g, k - 1, k - n, n)
    requires SweptLanes(o, n1, Margin + k - n + 1, RoundUp32(2 * n - 1 - k), Segment(g, n, k))
    ensures 0 <= i < |n1| && OnGrid(g, r, c) && n1[i] as int == Dp(g, r, c)
    ensures 0 <= n1[i] as int <= Cap
  {
    var j := i - (Margin + k - n + 1);
    assert DiagLen(n, k) == 2 * n - 1 - k && RowStart(n, k) + j == r;
    LiveWeight(g, n, k, j, r, c);
    SweptAt(o, n1, Margin + k - n + 1, RoundUp32(2 * n - 1 - k), Segment(g, n, k), i, j);
    ShrinkingNeighbours(g, n, k, o, i, r, c);
    InteriorLane(g, n, r, c, o[i], o[i - 1], Segment(g, n, k)[j]);
  }

  /** The two old slots a shrinking-phase lane for cell (r, c) reads: the cell to the left and the cell above. */
  lemma ShrinkingNeighbours(g: seq<seq<int>>, n: int, k: int, o: seq<i16>, i: int, r: int, c: int)
    requires Holds(o, g, k - 1, k - n, n) && n <= k
    requires k - n + 1 <= r < n && r == i - Margin && c == k - r
    ensures 1 <= i < |o|
    ensures OnGrid(g, r, c - 1) && o[i] as int == Dp(g, r, c - 1)
    ensures OnGrid(g, r - 1, c) && o[i - 1] as int == Dp(g, r - 1, c)
  {
    HoldsAt(o, g, k - 1, k - n, n, i, r, c - 1);
    HoldsAt(o, g, k - 1, k - n, n, i - 1, r - 1, c);
  }

  /** A shrinking-phase padding lane past row n - 1: weight 0, so it keeps the smaller bounded neighbour. */
  lemma ShrinkingPad(g: seq<seq<int>>, n: int, k: int, o: seq<i16>, n1: seq<i16>, i: int)
    requires SolvableGrid(g, n) && n <= k <= 2 * n - 2 && Bounded(o)
    requires SweptLanes(o, n1, Margin + k - n + 1, RoundUp32(2 * n - 1 - k), Segment(g, n, k))
    requires Margin + n <= i < Margin + k - n + 1 + RoundUp32(2 * n - 1 - k)
    ensures 0 <= i < |n1| && 0 <= n1[i] as int <= Cap
  {
    var j := i - (Margin + k - n + 1);
    assert DiagLen(n, k) == 2 * n - 1 - k;
    PadWeight(g, n, k, j);
    SweptAt(o, n1, Margin + k - n + 1, RoundUp32(2 * n - 1 - k), Segment(g, n, k), i, j);
    BoundedAt(o, i);
    BoundedAt(o, i - 1);
    LaneExact(o[i], o[i - 1], Segment(g, n, k)[j]);
  }

  /** A shrinking-phase lane: live rows get the recurrence, every slot stays in 0..Cap. */
  lemma ShrinkingLane(g: seq<seq<int>>, n: int, k: int, o: seq<i16>, n0: seq<i16>, n1: seq<i16>, i: int)
    requires SolvableGrid(g, n) && n <= k <= 2 * n - 2
    requires ShrinkingState(g, n, k, o, n0)
    requires Swept(o, n0, n1, Margin + k - n + 1, RoundUp32(2 * n - 1 - k), Segment(g, n, k))
    requires 0 <= i < |n1|
    ensures Margin + k - n + 1 <= i < Margin + n ==>
      OnGrid(g, i - Margin, k - (i - Margin)) && n1[i] as int == Dp(g, i - Margin, k - (i - Margin))
    ensures 0 <= n1[i] as int <= Cap
  {
    if Margin + k - n + 1 <= i < Margin + n {
      ShrinkingLive(g, n, k, o, n1, i, i - Margin, k - (i - Margin));
    } else if Margin + n <= i < Margin + k - n + 1 + RoundUp32(2 * n - 1 - k) {
      ShrinkingPad(g, n, k, o, n1, i);
    } else {
      UnsweptAt(n0, n1, Margin + k - n + 1, RoundUp32(2 * n - 1 - k), i);
      BoundedAt(n0, i);
    }
  }

  /** A shrinking-phase diagonal: the new buffer holds diagonal k on rows k - n + 1 .. n - 1. */
  lemma ShrinkingStep(g: seq<seq<int>>, n: int, k: int, o: seq<i16>, n0: seq<i16>, n1: seq<i16>)
    requires SolvableGrid(g, n) && n <= k <= 2 * n - 2
    requires ShrinkingState(g, n, k, o, n0)
    requires Swept(o, n0, n1, Margin + k - n + 1, RoundUp32(2 * n - 1 - k), Segment(g, n, k))
    ensures ShrinkingState(g, n, k + 1, n1, o)
  {
    forall i | 0 <= i < |n1|
      ensures Margin + k - n + 1 <= i < Margin + n ==>
        OnGrid(g, i - Margin, k - (i - Margin)) && n1[i] as int == Dp(g, i - Margin, k - (i - Margin))
      ensures 0 <= n1[i] as int <= Cap
    {
      ShrinkingLane(g, n, k, o, n0, n1, i);
    }
  }

  // ---------------------------------------------------------------------
  // The solver

  /**
    One diagonal: blocks of 32 lanes from buffer index base, old read at
    base - 1 .. base + vc - 1, new written at base .. base + vc - 1, 32 weight
    bytes consumed per block from stream index pw on. vc >= 32, so the first
    test of the C# do-while always succeeds and the while loop below
    runs its body the same number of times.
   */
  method SweepDiagonal(src: array<i16>, dst: array<i16>, base: int, vc: int, w: array<byte>, pw: int)
    returns (pwNext: int)
    requires src != dst && src.Length == dst.Length
    requires 1 <= base && Lanes <= vc && vc % Lanes == 0 && base + vc <= dst.Length
    requires 0 <= pw && pw + vc <= w.Length
    modifies dst
    ensures pwNext == pw + vc
    ensures Swept(src[..], old(dst[..]), dst[..], base, vc, w[pw..pw + vc])
  {
    var pO, pN, pW := base, base, pw;
    var pEnd := base + vc;
    while pN < pEnd
      invariant base <= pN <= pEnd && pO == pN && pW == pw + (pN - base)
      invariant (pN - base) % Lanes == 0
      invariant forall i :: base <= i < pN ==> dst[i] == Lane(src[i], src[i - 1], w[pw + (i - base)])
      invariant forall i :: 0 <= i < dst.Length && !(base <= i < pN) ==> dst[i] == old(dst[i])
    {
      assert (pEnd - pN) % Lanes == 0;
      SweepBlock(src, dst, base, pw, w, pO, pN, pW);
      pO, pN, pW := pO + Lanes, pN + Lanes, pW + Lanes;
    }
    pwNext := pW;
    forall i | base <= i < base + vc
      ensures dst[..][i] == Lane(src[..][i], src[..][i - 1], w[pw..pw + vc][i - base])
    {
      assert w[pw..pw + vc][i - base] == w[pw + (i - base)];
    }
  }

  /**
    One 32-lane block of a diagonal (a load of both neighbours, a widening
    of the weights, a min, an add and a store): slots pN .. pN + 31 of dst
    become the lanes over src and the weights from pW on. The slot i of the
    diagonal that starts at base reads weight byte pw + (i - base).
   */
  method SweepBlock(src: array<i16>, dst: array<i16>, base: int, pw: int, w: array<byte>, pO: int, pN: int, pW: int)
    requires src != dst && src.Length == dst.Length
    requires 1 <= base <= pN && pO == pN && pN + Lanes <= dst.Length
    requires 0 <= pw && pW == pw + (pN - base) && pW + Lanes <= w.Length
    modifies dst
    ensures forall i :: pN <= i < pN + Lanes ==> dst[i] == Lane(src[i], src[i - 1], w[pw + (i - base)])
    ensures forall i :: 0 <= i < dst.Length && !(pN <= i < pN + Lanes) ==> dst[i] == old(dst[i])
  {
    var lane := 0;
    while lane < Lanes
      invariant 0 <= lane <= Lanes
      invariant forall i :: pN <= i < pN + lane ==> dst[i] == Lane(src[i], src[i - 1], w[pw + (i - base)])
      invariant forall i :: 0 <= i < dst.Length && !(pN <= i < pN + lane) ==> dst[i] == old(dst[i])
    {
      dst[pN + lane] := Lane(src[pO + lane], src[pO + lane - 1], w[pW + lane]);
      lane := lane + 1;
    }
  }

  /** Before diagonal 1: the start cell sits at row 0 of old, the sentinel everywhere else in both buffers. */
  lemma StartState(g: seq<seq<int>>, n: int, o: seq<i16>, nw: seq<i16>)
    requires SolvableGrid(g, n) && |o| == n + 64 && |nw| == n + 64
    requires o[Margin] as int == g[0][0]
    requires forall i :: 0 <= i < |o| && i != Margin ==> o[i] == Inf
    requires forall i :: 0 <= i < |nw| ==> nw[i] == Inf
    ensures GrowingState(g, n, 1, o, nw)
  {
    assert 0 <= g[0][0] <= MaxCost;
  }

  /** After the last growing diagonal the shrinking phase starts from the same buffers. */
  lemma PhaseChange(g: seq<seq<int>>, n: int, o: seq<i16>, nw: seq<i16>)
    requires SolvableGrid(g, n) && GrowingState(g, n, n, o, nw)
    ensures ShrinkingState(g, n, n, o, nw)
  {
  }

  /** After the last diagonal, row n - 1 of old holds the corner cell's minimum. */
  lemma Finished(g: seq<seq<int>>, n: int, o: seq<i16>, nw: seq<i16>)
    requires SolvableGrid(g, n) && ShrinkingState(g, n, 2 * n - 1, o, nw)
    ensures o[Margin + n - 1] as int == Dp(g, n - 1, n - 1)
  {
    HoldsAt(o, g, 2 * n - 1 - 1, 2 * n - 1 - n, n, Margin + n - 1, n - 1, n - 1);
  }

  /** The weight bytes of diagonal k, read straight from the stream array. */
  lemma StreamSegment(g: seq<seq<int>>, n: int, k: int, w: array<byte>)
    requires IsSquare(g, n) && 1 <= k <= 2 * n - 2
    requires StreamLength(n) <= w.Length && w[..StreamLength(n)] == WeightStream(g, n)
    ensures SegStart(n, k + 1) == SegStart(n, k) + RoundUp32(DiagLen(n, k)) <= w.Length
    ensures w[SegStart(n, k)..SegStart(n, k + 1)] == Segment(g, n, k)
  {
    SegmentInStream(g, n, k);
    assert w[SegStart(n, k)..SegStart(n, k + 1)] == w[..StreamLength(n)][SegStart(n, k)..SegStart(n, k + 1)];
  }
}
