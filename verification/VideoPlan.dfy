/**
 Planning a zoom video: the strip of a zoom is cut into segments of bounded height, and
 the frames are dealt out to the segments they are sampled from. Depths are in octaves.
 */
module VideoPlan {
  import opened Arithmetic
  import opened Wrappers

  const DEFAULT_MAX_SEGMENT_HEIGHT := 8192
  const MIN_MAX_SEGMENT_HEIGHT := 512
  const MAX_MAX_SEGMENT_HEIGHT := 32759

  datatype StripPlan = StripPlan(extraOctaves: real, extraRows: int, totalDepthRows: int, heightT: int,
                                 maxSegmentHeightT: int, segmentDepthRows: int, segmentCount: int, totalSegmentRows: int)

  function Min(a: int, b: int): int {
    if a <= b then a else b
  }

  function MinReal(a: real, b: real): real {
    if a <= b then a else b
  }

  function MaxReal(a: real, b: real): real {
    if a >= b then a else b
  }

  function Ceil(x: real): (r: int)
    ensures r as real - 1.0 < x <= r as real
  {
    -(-x).Floor
  }

  /** At least one row, and enough rows for the octaves. */
  function RowsFor(octaves: real, rowsPerOctave: real): int {
    var rows := Ceil(octaves * rowsPerOctave);
    if rows < 1 then 1 else rows
  }

  /** The least whole number of rows, at least one, that holds the octaves. */
  lemma RowsAreLeast(octaves: real, rowsPerOctave: real, rows: int)
    ensures RowsFor(octaves, rowsPerOctave) <= rows <==> rows >= 1 && rows as real >= octaves * rowsPerOctave
  {
  }

  /** The tallest strip a request allows; without a request the default makes room for the padding. */
  function HeightLimit(requested: Option<int>, extraRows: int): int {
    match requested
    case Some(h) => h
    case None =>
      if extraRows < DEFAULT_MAX_SEGMENT_HEIGHT then DEFAULT_MAX_SEGMENT_HEIGHT
      else Min(MAX_MAX_SEGMENT_HEIGHT, extraRows + 512)
  }

  /** Without a request the limit always leaves room for the padding, short of the largest that is allowed. */
  lemma DefaultLimit(extraRows: int)
    ensures HeightLimit(None, extraRows) > extraRows <==> extraRows < 32_759
    ensures HeightLimit(None, extraRows) <= 32_759
    ensures extraRows < 8192 ==> HeightLimit(None, extraRows) == 8192
    ensures 8192 <= extraRows <= 32_247 ==> HeightLimit(None, extraRows) == extraRows + 512
  {
  }

  /** Rows of depth in segment `i`. */
  function SegmentRows(p: StripPlan, i: int): int {
    Min(p.segmentDepthRows, p.totalDepthRows - i * p.segmentDepthRows)
  }

  /** `segmentCount` pieces tile the depth rows, and every piece with its padding fits. */
  ghost predicate Tiles(p: StripPlan) {
    && p.extraRows > 0 && p.segmentDepthRows > 0 && p.segmentCount > 0
    && p.heightT == p.extraRows + p.totalDepthRows
    && (p.segmentCount - 1) * p.segmentDepthRows < p.totalDepthRows <= p.segmentCount * p.segmentDepthRows
    && p.totalSegmentRows == p.totalDepthRows + p.segmentCount * p.extraRows
    && (forall i :: 0 <= i < p.segmentCount ==> 0 < SegmentRows(p, i) && SegmentRows(p, i) + p.extraRows <= p.maxSegmentHeightT)
  }

  lemma SegmentRowsPositive(rows: int, total: int, count: int, i: int)
    requires rows > 0 && (count - 1) * rows < total && 0 <= i < count
    ensures 0 < Min(rows, total - i * rows) <= rows
  {
    MulMonotone(i, count - 1, rows, rows);
  }

  /** Rounding up counts the pieces. */
  lemma PieceCount(total: int, rows: int)
    requires total > 0 && rows > 0
    ensures var count := (total + rows - 1) / rows;
            count >= 1 && (count - 1) * rows < total <= count * rows
  {
    var count := (total + rows - 1) / rows;
    DivAtLeast(total + rows - 1, rows, 1);
    assert total + rows - 1 == rows * count + (total + rows - 1) % rows;
    assert (count - 1) * rows == rows * count - rows;
  }

  method ResolveStripPlan(extra: real, slack: real, rowsPerOctave: real, depthOctaves: real, requested: Option<int>)
    returns (r: Result<StripPlan>)
    requires rowsPerOctave > 0.0
    ensures var extraRows := RowsFor(MaxReal(extra, slack + 0.5), rowsPerOctave);
            r.Err? <==>
              || !(2.0 <= extra <= 16.0)
              || (requested.Some? && !(MIN_MAX_SEGMENT_HEIGHT <= requested.value <= MAX_MAX_SEGMENT_HEIGHT))
              || HeightLimit(requested, extraRows) <= extraRows
    ensures r.Ok? ==>
              var p := r.value;
              var limit := HeightLimit(requested, p.extraRows);
              && Tiles(p)
              && p.extraOctaves >= slack + 0.5 && p.extraOctaves >= extra
              && p.extraRows == RowsFor(p.extraOctaves, rowsPerOctave)
              && p.totalDepthRows == RowsFor(depthOctaves, rowsPerOctave)
              && p.maxSegmentHeightT <= limit
              && (p.segmentCount > 1 <==> p.heightT > limit)
  {
    var extraOctaves := extra;
    if !(extraOctaves >= 2.0) || extraOctaves > 16.0 {
      return Err;
    }
    var minExtraForSlack := slack + 0.5;
    if extraOctaves < minExtraForSlack {
      extraOctaves := minExtraForSlack;
    }
    var extraRows := RowsFor(extraOctaves, rowsPerOctave);
    var totalDepthRows := RowsFor(depthOctaves, rowsPerOctave);
    var heightT := extraRows + totalDepthRows;
    var requestedMax := if requested.Some? then requested.value else DEFAULT_MAX_SEGMENT_HEIGHT;
    if requestedMax < MIN_MAX_SEGMENT_HEIGHT || requestedMax > MAX_MAX_SEGMENT_HEIGHT {
      return Err;
    }
    if requested.None? && requestedMax <= extraRows {
      requestedMax := Min(MAX_MAX_SEGMENT_HEIGHT, extraRows + 512);
    }
    if requestedMax <= extraRows {
      return Err;
    }
    var p := CutStrip(extraOctaves, extraRows, totalDepthRows, requestedMax);
    r := Ok(p);
  }

  /** Cutting the depth rows so that no piece is taller than `limit`. */
  method CutStrip(extraOctaves: real, extraRows: int, totalDepthRows: int, limit: int) returns (p: StripPlan)
    requires 0 < extraRows < limit && totalDepthRows > 0
    ensures Tiles(p) && p.extraOctaves == extraOctaves && p.extraRows == extraRows && p.totalDepthRows == totalDepthRows
    ensures p.maxSegmentHeightT <= limit && (p.segmentCount > 1 <==> p.heightT > limit)
  {
    var heightT := extraRows + totalDepthRows;
    var maxSegmentHeightT := Min(heightT, limit);
    var segmentDepthRows := maxSegmentHeightT - extraRows;
    if segmentDepthRows < 1 {
      segmentDepthRows := 1;
    }
    var segmentCount := (totalDepthRows + segmentDepthRows - 1) / segmentDepthRows;
    PieceCount(totalDepthRows, segmentDepthRows);
    if segmentCount < 1 {
      segmentCount := 1;
    }
    var totalSegmentRows := SumSegments(totalDepthRows, segmentDepthRows, segmentCount, extraRows);
    OnePiece(totalDepthRows, segmentDepthRows, segmentCount);
    if segmentCount <= 1 {
      maxSegmentHeightT := heightT;
      segmentDepthRows := totalDepthRows;
      totalSegmentRows := heightT;
    }
    p := StripPlan(extraOctaves, extraRows, totalDepthRows, heightT, maxSegmentHeightT,
                   segmentDepthRows, segmentCount, totalSegmentRows);
    forall i | 0 <= i < p.segmentCount
      ensures 0 < SegmentRows(p, i) && SegmentRows(p, i) + p.extraRows <= p.maxSegmentHeightT
    {
      SegmentRowsPositive(p.segmentDepthRows, p.totalDepthRows, p.segmentCount, i);
    }
  }

  lemma OnePiece(total: int, rows: int, count: int)
    requires rows > 0 && count > 0 && (count - 1) * rows < total <= count * rows
    ensures count > 1 <==> total > rows
  {
    if count > 1 {
      MulMonotone(1, count - 1, rows, rows);
    }
  }

  /** The row loop visits each piece once. */
  method SumSegments(total: int, rows: int, count: int, extraRows: int) returns (sum: int)
    requires rows > 0 && count > 0 && (count - 1) * rows < total <= count * rows
    ensures sum == total + count * extraRows
  {
    sum := 0;
    var row0 := 0;
    ghost var k := 0;
    while row0 < total
      invariant 0 <= k <= count && row0 == k * rows
      invariant sum == Min(row0, total) + k * extraRows
      invariant k == count ==> row0 >= total
      decreases count - k
    {
      var depthRows := Min(rows, total - row0);
      sum := sum + depthRows + extraRows;
      NextRow(k, rows, count, total);
      assert (k + 1) * extraRows == k * extraRows + extraRows;
      row0 := row0 + rows;
      k := k + 1;
    }
    LastPiece(k, rows, count, total);
  }

  lemma NextRow(k: int, rows: int, count: int, total: int)
    requires rows > 0 && 0 <= k < count && (count - 1) * rows < total <= count * rows
    ensures (k + 1) * rows == k * rows + rows
    ensures k + 1 == count ==> (k + 1) * rows >= total
  {
  }

  lemma LastPiece(k: int, rows: int, count: int, total: int)
    requires rows > 0 && 0 <= k <= count && (count - 1) * rows < total && k * rows >= total
    ensures k == count
  {
    if k < count {
      MulMonotone(k, count - 1, rows, rows);
    }
  }

  // ---- Dealing out the frames -----------------------------------------------------------

  const EPSILON: real := 0.000000000001

  /** What segment planning is asked: a tiled strip for `depth` octaves and a number of frames. */
  datatype Zoom = Zoom(plan: StripPlan, depth: real, rowsPerOctave: real, octavesPerRow: real, frames: nat, slack: real)

  /** The plan was resolved for the same zoom. */
  ghost predicate Resolved(z: Zoom) {
    && Tiles(z.plan) && z.depth >= 0.0
    && z.rowsPerOctave > 0.0 && z.octavesPerRow > 0.0 && z.octavesPerRow * z.rowsPerOctave == 1.0
    && z.plan.extraRows == RowsFor(z.plan.extraOctaves, z.rowsPerOctave)
    && z.plan.totalDepthRows == RowsFor(z.depth, z.rowsPerOctave)
    && z.plan.extraOctaves >= z.slack + 0.5
  }

  function Depth(z: Zoom, row: int): real {
    row as real * z.octavesPerRow
  }

  function FrameDepth(z: Zoom, frame: int): real {
    if z.frames <= 1 then 0.0
    else
      var clamped := if frame < 0 then 0 else Min(frame, z.frames - 1);
      z.depth * (clamped as real / (z.frames - 1) as real)
  }

  datatype Segment = Segment(index: int, depthRowStart: int, depthRows: int, heightT: int,
                             startDepth: real, endDepth: real, finalFrameDepth: real,
                             frameStart: int, frameEnd: int, frameCount: int,
                             firstFrameDepth: real, lastFrameDepth: real, depthOctaves: real)

  predicate IsLast(z: Zoom, i: int) {
    i == z.plan.segmentCount - 1
  }

  /** Frame `f` of more than one lies at the fraction `f / (frames - 1)` of the depth. */
  lemma FrameInProportion(z: Zoom, f: int)
    requires z.frames > 1 && 0 <= f < z.frames
    ensures FrameDepth(z, f) * (z.frames - 1) as real == z.depth * f as real
  {
    var n := (z.frames - 1) as real;
    assert z.depth * (f as real / n) * n == z.depth * (f as real / n * n);
  }

  /** The frames are evenly spaced from depth zero to the full depth. */
  lemma FramesEvenlySpaced(z: Zoom, f: int)
    requires z.frames > 1 && 0 <= f < z.frames - 1
    ensures FrameDepth(z, 0) == 0.0 && FrameDepth(z, z.frames - 1) == z.depth
    ensures FrameDepth(z, f + 1) - FrameDepth(z, f) == z.depth / (z.frames - 1) as real
  {
    hide FrameDepth;
    var n := (z.frames - 1) as real;
    FrameInProportion(z, 0);
    FrameInProportion(z, z.frames - 1);
    FrameInProportion(z, f);
    FrameInProportion(z, f + 1);
    FactorOut(FrameDepth(z, 0), 0.0, n);
    FactorOut(FrameDepth(z, z.frames - 1), z.depth, n);
    var step := FrameDepth(z, f + 1) - FrameDepth(z, f);
    assert step * n == FrameDepth(z, f + 1) * n - FrameDepth(z, f) * n;
    assert z.depth * (f + 1) as real == z.depth * f as real + z.depth;
    assert z.depth / n * n == z.depth;
    FactorOut(step, z.depth / n, n);
  }

  lemma FactorOut(a: real, b: real, n: real)
    requires n > 0.0 && a * n == b * n
    ensures a == b
  {
    assert (a - b) * n == 0.0;
  }

  /** Segment `i` starts where the previous one ends, and the last one ends at the full depth. */
  function EndDepth(z: Zoom, i: int): real {
    if IsLast(z, i) then z.depth else Depth(z, (i + 1) * z.plan.segmentDepthRows)
  }

  /** The fallback frame leaves the slack above the strip's bottom and never out-zooms the video. */
  function FallbackDepth(z: Zoom, i: int): real {
    if IsLast(z, i) then z.depth else MinReal(z.depth, EndDepth(z, i) + (z.plan.extraOctaves - z.slack))
  }

  predicate Geometry(z: Zoom, s: Segment, i: int) {
    && s.index == i
    && s.depthRowStart == i * z.plan.segmentDepthRows && s.depthRows == SegmentRows(z.plan, i)
    && s.heightT == s.depthRows + z.plan.extraRows
    && s.startDepth == Depth(z, i * z.plan.segmentDepthRows) && s.endDepth == EndDepth(z, i)
    && s.finalFrameDepth == FallbackDepth(z, i)
  }

  /** The frames of segment `i`: not shallower than its strip, and not deeper unless one frame was forced on it. */
  ghost predicate Dealt(z: Zoom, s: Segment, i: int) {
    && 0 <= s.frameStart < s.frameEnd <= z.frames && s.frameCount == s.frameEnd - s.frameStart
    && (forall f :: s.frameStart <= f < s.frameEnd ==> FrameDepth(z, f) >= s.startDepth - EPSILON)
    && (!IsLast(z, i) ==>
          && (s.frameEnd < z.frames ==> FrameDepth(z, s.frameEnd) >= s.endDepth - EPSILON)
          && (if FrameDepth(z, s.frameStart) >= s.endDepth - EPSILON then s.frameCount == 1
              else forall f :: s.frameStart <= f < s.frameEnd ==> FrameDepth(z, f) < s.endDepth - EPSILON))
    && s.firstFrameDepth == FrameDepth(z, s.frameStart) && s.lastFrameDepth == FrameDepth(z, s.frameEnd - 1)
    && s.depthOctaves == MaxReal(0.000000001, s.lastFrameDepth - s.firstFrameDepth)
  }

  ghost predicate Planned(z: Zoom, segments: seq<Segment>) {
    && (forall i :: 0 <= i < |segments| ==> Geometry(z, segments[i], i) && Dealt(z, segments[i], i))
    && (forall i :: 0 < i < |segments| ==> segments[i].frameStart == segments[i - 1].frameEnd)
    && (|segments| > 0 ==> segments[0].frameStart == 0)
  }

  // ---- Depth arithmetic -------------------------------------------------------------------

  lemma RowDepth(z: Zoom, row: int, octaves: real)
    requires z.octavesPerRow > 0.0 && z.octavesPerRow * z.rowsPerOctave == 1.0
    ensures row as real >= octaves * z.rowsPerOctave ==> Depth(z, row) >= octaves
    ensures row as real <= octaves * z.rowsPerOctave ==> Depth(z, row) <= octaves
    ensures row as real < octaves * z.rowsPerOctave ==> Depth(z, row) < octaves
  {
    var x := octaves * z.rowsPerOctave;
    assert x * z.octavesPerRow == octaves * (z.octavesPerRow * z.rowsPerOctave);
    if row as real > x {
      RealMonotone(x, row as real, z.octavesPerRow);
    } else {
      RealMonotone(row as real, x, z.octavesPerRow);
      if row as real < x {
        assert (x - row as real) * z.octavesPerRow > 0.0;
      }
    }
  }

  lemma DepthMonotone(z: Zoom, a: int, b: int)
    requires a <= b && z.octavesPerRow > 0.0
    ensures Depth(z, a) <= Depth(z, b)
    ensures a < b ==> Depth(z, a) < Depth(z, b)
  {
    RealMonotone(a as real, b as real, z.octavesPerRow);
    if a < b {
      assert (b - a) as real * z.octavesPerRow > 0.0;
    }
  }

  /** Every row but the last lies above the full depth. */
  lemma RowsAbove(z: Zoom, row: int)
    requires Resolved(z) && 0 <= row < z.plan.totalDepthRows
    ensures Depth(z, row) <= z.depth
    ensures row > 0 ==> Depth(z, row) < z.depth
  {
    if row > 0 {
      RowDepth(z, row, z.depth);
    }
  }

  /** Segments other than the last end above the full depth. */
  lemma EndsAbove(z: Zoom, i: int)
    requires Resolved(z) && 0 <= i < z.plan.segmentCount
    ensures i * z.plan.segmentDepthRows < z.plan.totalDepthRows
    ensures IsLast(z, i) <==> i * z.plan.segmentDepthRows + SegmentRows(z.plan, i) >= z.plan.totalDepthRows
    ensures !IsLast(z, i) ==> SegmentRows(z.plan, i) == z.plan.segmentDepthRows &&
                              i * z.plan.segmentDepthRows + z.plan.segmentDepthRows ==
                              (i + 1) * z.plan.segmentDepthRows < z.plan.totalDepthRows
  {
    var rows := z.plan.segmentDepthRows;
    MulMonotone(i, z.plan.segmentCount - 1, rows, rows);
    assert (i + 1) * rows == i * rows + rows;
    if i + 1 < z.plan.segmentCount {
      MulMonotone(i + 1, z.plan.segmentCount - 1, rows, rows);
    }
  }

  lemma FrameDepthMonotone(z: Zoom, f: int, g: int)
    requires z.depth >= 0.0 && f <= g
    ensures 0.0 <= FrameDepth(z, f) <= FrameDepth(z, g) <= z.depth
  {
    if z.frames > 1 {
      var n := z.frames - 1;
      var a := if f < 0 then 0 else Min(f, n);
      var b := if g < 0 then 0 else Min(g, n);
      FractionMonotone(a, b, n);
      RealMonotone(a as real / n as real, b as real / n as real, z.depth);
      RealMonotone(b as real / n as real, 1.0, z.depth);
      RealMonotone(0.0, a as real / n as real, z.depth);
    }
  }

  lemma FractionMonotone(a: int, b: int, n: int)
    requires 0 <= a <= b <= n && n > 0
    ensures 0.0 <= a as real / n as real <= b as real / n as real <= 1.0
  {
    RealDivMonotone(a as real, b as real, n as real);
    RealDivMonotone(b as real, n as real, n as real);
  }

  /** Frames spaced evenly over the depth reach the end of a segment in proportion. */
  lemma FrameReaches(z: Zoom, i: int, g: int)
    requires Resolved(z) && 0 <= i < z.plan.segmentCount - 1 && 0 <= g < z.frames && z.frames > 1
    requires g * (z.plan.segmentCount - 1) >= (i + 1) * (z.frames - 1)
    ensures FrameDepth(z, g) >= EndDepth(z, i)
  {
    hide SegmentRows, RowsFor;
    var c, m := (z.frames - 1) as real, (z.plan.segmentCount - 1) as real;
    var y, l, e := g as real / c, Depth(z, z.plan.segmentDepthRows), (i + 1) as real;
    MulMonotone(1, z.plan.segmentCount - 1, 1, z.plan.segmentDepthRows);
    RowsAbove(z, (z.plan.segmentCount - 1) * z.plan.segmentDepthRows);
    DepthMultiple(z, z.plan.segmentCount - 1);
    DepthMultiple(z, i + 1);
    DepthMonotone(z, 0, z.plan.segmentDepthRows);
    assert Depth(z, 0) == 0.0;
    hide Resolved, Depth;
    InProportion(g as real, m, e, c);
    Proportion(z.depth, l, m, y, e);
  }

  lemma Proportion(depth: real, l: real, m: real, y: real, e: real)
    requires m * l <= depth && y * m >= e && y >= 0.0 && l >= 0.0
    ensures depth * y >= e * l
  {
    RealMonotone(m * l, depth, y);
    RealMonotone(e, y * m, l);
    assert m * l * y == y * m * l;
  }

  lemma DepthMultiple(z: Zoom, k: int)
    ensures Depth(z, k * z.plan.segmentDepthRows) == k as real * Depth(z, z.plan.segmentDepthRows)
  {
    assert (k * z.plan.segmentDepthRows) as real == k as real * z.plan.segmentDepthRows as real;
  }

  lemma InProportion(g: real, m: real, e: real, c: real)
    requires c > 0.0 && g >= 0.0 && g * m >= e * c
    ensures g / c >= 0.0 && g / c * m >= e
  {
    RealDivMonotone(e * c, g * m, c);
    assert e * c / c == e;
    assert g * m / c == g / c * m;
  }

  // ---- The frames of one segment ------------------------------------------------------------

  /** How far the frames reach when segment `i` is next: enough are left, or one went to each segment. */
  ghost predicate OnTrack(z: Zoom, i: int, nextFrame: int) {
    && 0 <= nextFrame <= z.frames
    && (i == z.plan.segmentCount ==> nextFrame == z.frames)
    && (i < z.plan.segmentCount <= z.frames ==> nextFrame <= z.frames - z.plan.segmentCount + i)
    && (z.frames < z.plan.segmentCount ==> nextFrame == Min(i, z.frames))
    && (nextFrame < z.frames ==> FrameDepth(z, nextFrame) >= Depth(z, i * z.plan.segmentDepthRows) - EPSILON)
  }

  /** What the frame loop of a segment that is not the last decides. */
  ghost predicate Advanced(z: Zoom, endDepth: real, frameStart: int, nextFrame: int) {
    && (frameStart == z.frames ==> nextFrame == z.frames)
    && (frameStart < z.frames ==>
          && frameStart < nextFrame <= z.frames
          && (nextFrame < z.frames ==> FrameDepth(z, nextFrame) >= endDepth - EPSILON)
          && (if FrameDepth(z, frameStart) >= endDepth - EPSILON then nextFrame == frameStart + 1
              else forall f :: frameStart <= f < nextFrame ==> FrameDepth(z, f) < endDepth - EPSILON))
  }

  method DealFrames(z: Zoom, isLast: bool, endDepth: real, frameStart: int) returns (nextFrame: int)
    requires z.depth >= 0.0 && 0 <= frameStart <= z.frames
    ensures if isLast then nextFrame == z.frames else Advanced(z, endDepth, frameStart, nextFrame)
  {
    hide FrameDepth;
    nextFrame := frameStart;
    if isLast {
      nextFrame := z.frames;
    } else {
      while nextFrame < z.frames && FrameDepth(z, nextFrame) < endDepth - EPSILON
        invariant frameStart <= nextFrame <= z.frames
        invariant forall f :: frameStart <= f < nextFrame ==> FrameDepth(z, f) < endDepth - EPSILON
      {
        nextFrame := nextFrame + 1;
      }
    }
    if nextFrame <= frameStart && nextFrame < z.frames {
      FrameDepthMonotone(z, nextFrame, nextFrame + 1);
      nextFrame := nextFrame + 1;
    }
  }

  /** A frame loop stops at the latest at frame `g` when that one is deep enough and forced frames do not pass it. */
  lemma StopsBy(z: Zoom, endDepth: real, frameStart: int, nextFrame: int, g: int)
    requires 0 <= frameStart < z.frames && Advanced(z, endDepth, frameStart, nextFrame)
    requires frameStart < g && (g < z.frames ==> FrameDepth(z, g) >= endDepth - EPSILON)
    ensures nextFrame <= g
  {
  }

  lemma TrackKept(z: Zoom, i: int, frameStart: int, nextFrame: int)
    requires Resolved(z) && 0 <= i < z.plan.segmentCount - 1 && OnTrack(z, i, frameStart)
    requires Advanced(z, EndDepth(z, i), frameStart, nextFrame)
    ensures OnTrack(z, i + 1, nextFrame)
  {
    var n := z.plan.segmentCount;
    hide FrameDepth, Depth, Resolved;
    if frameStart < z.frames {
      if z.frames >= n {
        var g := z.frames - n + i + 1;
        Crossing(z.frames - 1, n - 1, i + 1);
        FrameReaches(z, i, g);
        StopsBy(z, EndDepth(z, i), frameStart, nextFrame, g);
      } else {
        if i + 1 < z.frames {
          MulMonotone(i + 1, i + 1, z.frames - 1, n - 1);
          FrameReaches(z, i, i + 1);
        }
        StopsBy(z, EndDepth(z, i), frameStart, nextFrame, i + 1);
      }
    }
  }

  lemma Crossing(c: int, m: int, k: int)
    requires c >= m >= k >= 0
    ensures (c - m + k) * m >= k * c
  {
    MulMonotone(0, c - m, 0, m - k);
    assert (c - m + k) * m - k * c == (c - m) * (m - k);
  }

  // ---- Planning all segments ------------------------------------------------------------------

  /** The clamps and the repair of an empty depth range never change a segment's geometry. */
  method Place(z: Zoom, index: int, row0: int) returns (s: Segment)
    requires Resolved(z) && 0 <= index < z.plan.segmentCount && row0 == index * z.plan.segmentDepthRows
    ensures Geometry(z, s, index)
  {
    EndsAbove(z, index);
    RowsAbove(z, row0);
    DepthMonotone(z, row0, row0 + SegmentRows(z.plan, index));
    if !IsLast(z, index) {
      RowsAbove(z, row0 + SegmentRows(z.plan, index));
    }
    ZeroDepth(z, index);
    hide Depth, RowsFor, Resolved;
    var p := z.plan;
    var depthRows := Min(p.segmentDepthRows, p.totalDepthRows - row0);
    var isLastRowSegment := row0 + depthRows >= p.totalDepthRows;
    var startDepth := MinReal(z.depth, Depth(z, row0));
    var endDepth := if row0 + depthRows >= p.totalDepthRows then z.depth else MinReal(z.depth, Depth(z, row0 + depthRows));
    if !(endDepth > startDepth) {
      endDepth := MinReal(z.depth, startDepth + Depth(z, depthRows));
    }
    var finalFrameDepth := if isLastRowSegment then z.depth
                           else MinReal(z.depth, endDepth + MaxReal(0.25, p.extraOctaves - z.slack));
    s := Segment(index, row0, depthRows, depthRows + p.extraRows, startDepth, endDepth, finalFrameDepth, 0, 0, 0, 0.0, 0.0, 0.0);
  }

  /** Only a zoom of no depth has an empty depth range, and it has a single segment at depth zero. */
  lemma ZeroDepth(z: Zoom, i: int)
    requires Resolved(z) && 0 <= i < z.plan.segmentCount
    ensures z.plan.extraOctaves - z.slack >= 0.5
    ensures z.depth <= Depth(z, i * z.plan.segmentDepthRows) ==> z.depth == 0.0
    ensures z.depth == 0.0 ==> i == 0 && IsLast(z, i) && Depth(z, 0) == 0.0 && Depth(z, SegmentRows(z.plan, i)) > 0.0
  {
    var row := i * z.plan.segmentDepthRows;
    EndsAbove(z, i);
    RowsAbove(z, row);
    DepthMonotone(z, 0, SegmentRows(z.plan, i));
    assert Depth(z, 0) == 0.0;
    if z.depth == 0.0 {
      assert z.depth * z.rowsPerOctave == 0.0;
      if z.plan.segmentCount > 1 {
        MulMonotone(1, z.plan.segmentCount - 1, 1, z.plan.segmentDepthRows);
      }
    }
    if i > 0 {
      MulMonotone(1, i, 1, z.plan.segmentDepthRows);
    }
  }

  method Fill(z: Zoom, placed: Segment, frameStart: int, frameEnd: int) returns (s: Segment)
    ensures s == placed.(frameStart := frameStart, frameEnd := frameEnd, frameCount := frameEnd - frameStart,
                         firstFrameDepth := FrameDepth(z, frameStart), lastFrameDepth := FrameDepth(z, frameEnd - 1),
                         depthOctaves := MaxReal(0.000000001, FrameDepth(z, frameEnd - 1) - FrameDepth(z, frameStart)))
  {
    s := placed.(frameStart := frameStart, frameEnd := frameEnd, frameCount := frameEnd - frameStart,
                 firstFrameDepth := FrameDepth(z, frameStart), lastFrameDepth := FrameDepth(z, frameEnd - 1));
    s := s.(depthOctaves := MaxReal(0.000000001, s.lastFrameDepth - s.firstFrameDepth));
  }

  /** A segment with frames starts where the frames before it ended. */
  lemma SegmentDealt(z: Zoom, i: int, s: Segment)
    requires Resolved(z) && 0 <= i < z.plan.segmentCount && Geometry(z, s, i)
    requires OnTrack(z, i, s.frameStart)
    requires 0 <= s.frameStart < s.frameEnd <= z.frames && s.frameCount == s.frameEnd - s.frameStart
    requires !IsLast(z, i) ==> Advanced(z, EndDepth(z, i), s.frameStart, s.frameEnd)
    requires s.firstFrameDepth == FrameDepth(z, s.frameStart) && s.lastFrameDepth == FrameDepth(z, s.frameEnd - 1)
    requires s.depthOctaves == MaxReal(0.000000001, s.lastFrameDepth - s.firstFrameDepth)
    ensures Dealt(z, s, i)
  {
    hide FrameDepth, Depth, FallbackDepth, SegmentRows;
    forall f | s.frameStart <= f < s.frameEnd
      ensures FrameDepth(z, f) >= s.startDepth - EPSILON
    {
      FrameDepthMonotone(z, s.frameStart, f);
    }
  }

  lemma NonePlanned(z: Zoom)
    ensures Planned(z, [])
  {
  }

  lemma AddSegment(z: Zoom, segments: seq<Segment>, s: Segment)
    requires Planned(z, segments) && Geometry(z, s, |segments|) && Dealt(z, s, |segments|)
    requires s.frameStart == if segments == [] then 0 else segments[|segments| - 1].frameEnd
    ensures Planned(z, segments + [s])
  {
    hide Geometry, Dealt;
  }

  lemma OnTrackStart(z: Zoom)
    requires Resolved(z)
    ensures OnTrack(z, 0, 0)
  {
    FrameDepthMonotone(z, 0, 0);
    assert Depth(z, 0) == 0.0;
  }

  /** The segments planned so far take up all frames before `nextFrame`, one segment after the other. */
  ghost predicate PlannedTo(z: Zoom, i: int, nextFrame: int, segments: seq<Segment>) {
    && Planned(z, segments) && |segments| == Min(i, z.frames)
    && (|segments| < i ==> nextFrame == z.frames)
    && nextFrame == if segments == [] then 0 else segments[|segments| - 1].frameEnd
  }

  lemma LastTrack(z: Zoom, i: int)
    requires IsLast(z, i)
    ensures OnTrack(z, i + 1, z.frames)
  {
  }

  lemma TrackCount(z: Zoom, i: int, frameStart: int, nextFrame: int)
    requires 0 <= i < z.plan.segmentCount && OnTrack(z, i, frameStart)
    requires if IsLast(z, i) then nextFrame == z.frames else Advanced(z, EndDepth(z, i), frameStart, nextFrame)
    ensures frameStart < nextFrame <==> i < z.frames
    ensures i >= z.frames ==> frameStart == nextFrame == z.frames
    ensures 0 <= frameStart <= nextFrame <= z.frames
  {
  }

  lemma PlacedEnd(z: Zoom, s: Segment, i: int)
    requires Geometry(z, s, i)
    ensures s.endDepth == EndDepth(z, i) && s.depthRows == SegmentRows(z.plan, i)
  {
  }

  lemma SameGeometry(z: Zoom, placed: Segment, s: Segment, i: int)
    requires Geometry(z, placed, i)
    requires s == placed.(frameStart := s.frameStart, frameEnd := s.frameEnd, frameCount := s.frameCount,
                          firstFrameDepth := s.firstFrameDepth, lastFrameDepth := s.lastFrameDepth,
                          depthOctaves := s.depthOctaves)
    ensures Geometry(z, s, i)
  {
  }

  lemma TrackDone(z: Zoom, nextFrame: int)
    requires OnTrack(z, z.plan.segmentCount, nextFrame)
    ensures nextFrame == z.frames
  {
  }

  lemma TrackRange(z: Zoom, i: int, nextFrame: int)
    requires OnTrack(z, i, nextFrame)
    ensures 0 <= nextFrame <= z.frames
  {
  }

  lemma ResolvedRows(z: Zoom)
    requires Resolved(z)
    ensures var p := z.plan;
            z.depth >= 0.0 && p.segmentDepthRows > 0 && p.segmentCount > 0 &&
            (p.segmentCount - 1) * p.segmentDepthRows < p.totalDepthRows <= p.segmentCount * p.segmentDepthRows
  {
  }

  /** One strip of the plan: where it lies, and the frames it gets, if any are left. */
  method PlanSegment(z: Zoom, index: int, row0: int, frameStart: int, segments: seq<Segment>)
    returns (nextFrame: int, after: seq<Segment>)
    requires Resolved(z) && 0 <= index < z.plan.segmentCount && row0 == index * z.plan.segmentDepthRows
    requires OnTrack(z, index, frameStart) && PlannedTo(z, index, frameStart, segments)
    ensures OnTrack(z, index + 1, nextFrame) && PlannedTo(z, index + 1, nextFrame, after)
  {
    hide Depth, FrameDepth, RowsFor, Advanced, OnTrack, Geometry, Dealt, FallbackDepth, SegmentRows, Resolved, Planned, EndDepth;
    ResolvedRows(z);
    after := segments;
    EndsAbove(z, index);
    var placed := Place(z, index, row0);
    var seg := placed;
    PlacedEnd(z, seg, index);
    var isLastRowSegment := row0 + seg.depthRows >= z.plan.totalDepthRows;
    TrackRange(z, index, frameStart);
    nextFrame := DealFrames(z, isLastRowSegment, seg.endDepth, frameStart);
    TrackCount(z, index, frameStart, nextFrame);
    if nextFrame > frameStart {
      seg := Fill(z, seg, frameStart, nextFrame);
      SameGeometry(z, placed, seg, index);
      SegmentDealt(z, index, seg);
      AddSegment(z, segments, seg);
      after := segments + [seg];
    }
    if isLastRowSegment {
      LastTrack(z, index);
    } else {
      TrackKept(z, index, frameStart, nextFrame);
    }
  }

  /** The loop over the strips. */
  method PlanSegments(z: Zoom) returns (segments: seq<Segment>)
    requires Resolved(z)
    ensures Planned(z, segments) && |segments| == Min(z.plan.segmentCount, z.frames)
    ensures segments != [] ==> segments[|segments| - 1].frameEnd == z.frames
  {
    hide Depth, FrameDepth, RowsFor, Advanced, OnTrack, Geometry, Dealt, FallbackDepth, SegmentRows, Resolved, Planned, EndDepth;
    ResolvedRows(z);
    NonePlanned(z);
    segments := [];
    var nextFrame, index, row0 := 0, 0, 0;
    var rows := z.plan.segmentDepthRows;
    OnTrackStart(z);
    while row0 < z.plan.totalDepthRows
      invariant 0 <= index <= z.plan.segmentCount && row0 == index * rows
      invariant OnTrack(z, index, nextFrame) && PlannedTo(z, index, nextFrame, segments)
      invariant index == z.plan.segmentCount ==> row0 >= z.plan.totalDepthRows
      decreases z.plan.segmentCount - index
    {
      EndsAbove(z, index);
      nextFrame, segments := PlanSegment(z, index, row0, nextFrame, segments);
      NextRow(index, rows, z.plan.segmentCount, z.plan.totalDepthRows);
      row0 := row0 + rows;
      index := index + 1;
    }
    LastPiece(index, rows, z.plan.segmentCount, z.plan.totalDepthRows);
    TrackDone(z, nextFrame);
  }

  method BuildSegments(z: Zoom) returns (segments: seq<Segment>)
    requires Resolved(z)
    ensures Planned(z, segments) && |segments| == Min(z.plan.segmentCount, z.frames)
    ensures segments != [] ==> segments[|segments| - 1].frameEnd == z.frames
    // The first and last depth of a segment are those of its first and last frame on an even scale.
    ensures z.frames > 1 ==> forall i :: 0 <= i < |segments| ==>
              segments[i].firstFrameDepth * (z.frames - 1) as real == z.depth * segments[i].frameStart as real &&
              segments[i].lastFrameDepth * (z.frames - 1) as real == z.depth * (segments[i].frameEnd - 1) as real
    // The strips are consecutive stretches of rows, each with the padding below it.
    ensures forall i :: 0 <= i < |segments| ==>
              segments[i].depthRowStart == i * z.plan.segmentDepthRows &&
              segments[i].heightT == segments[i].depthRows + z.plan.extraRows &&
              segments[i].startDepth == segments[i].depthRowStart as real * z.octavesPerRow
  {
    segments := PlanSegments(z);
    PlannedInNumbers(z, segments);
  }

  lemma PlannedInNumbers(z: Zoom, segments: seq<Segment>)
    requires Planned(z, segments)
    ensures z.frames > 1 ==> forall i :: 0 <= i < |segments| ==>
              segments[i].firstFrameDepth * (z.frames - 1) as real == z.depth * segments[i].frameStart as real &&
              segments[i].lastFrameDepth * (z.frames - 1) as real == z.depth * (segments[i].frameEnd - 1) as real
    ensures forall i :: 0 <= i < |segments| ==>
              segments[i].depthRowStart == i * z.plan.segmentDepthRows &&
              segments[i].heightT == segments[i].depthRows + z.plan.extraRows &&
              segments[i].startDepth == segments[i].depthRowStart as real * z.octavesPerRow
  {
    hide Geometry, Dealt, FrameDepth, Depth;
    forall i | 0 <= i < |segments|
      ensures segments[i].depthRowStart == i * z.plan.segmentDepthRows
      ensures segments[i].heightT == segments[i].depthRows + z.plan.extraRows
      ensures segments[i].startDepth == segments[i].depthRowStart as real * z.octavesPerRow
    {
      SegmentPlaced(z, segments[i], i);
    }
    if z.frames > 1 {
      forall i | 0 <= i < |segments|
        ensures segments[i].firstFrameDepth * (z.frames - 1) as real == z.depth * segments[i].frameStart as real
        ensures segments[i].lastFrameDepth * (z.frames - 1) as real == z.depth * (segments[i].frameEnd - 1) as real
      {
        SegmentEnds(z, segments[i], i);
      }
    }
  }

  lemma SegmentEnds(z: Zoom, s: Segment, i: int)
    requires Dealt(z, s, i) && z.frames > 1
    ensures s.firstFrameDepth * (z.frames - 1) as real == z.depth * s.frameStart as real
    ensures s.lastFrameDepth * (z.frames - 1) as real == z.depth * (s.frameEnd - 1) as real
  {
    hide FrameDepth;
    FrameInProportion(z, s.frameStart);
    FrameInProportion(z, s.frameEnd - 1);
  }

  lemma FrameAgainst(z: Zoom, f: int, limit: real)
    requires z.frames > 1 && 0 <= f < z.frames
    ensures FrameDepth(z, f) >= limit <==> z.depth * f as real >= limit * (z.frames - 1) as real
  {
    hide FrameDepth;
    FrameInProportion(z, f);
    Scaled(FrameDepth(z, f), limit, (z.frames - 1) as real);
  }

  /**
   Frame `f` of a segment, at the depth `depth * f / (frames - 1)`, is not above its
   strip, and not below it unless it is the only frame of the segment.
   */
  lemma FrameInStrip(z: Zoom, s: Segment, i: int, f: int)
    requires Dealt(z, s, i) && z.frames > 1 && s.frameStart <= f < s.frameEnd
    ensures z.depth * f as real >= (s.startDepth - 0.000000000001) * (z.frames - 1) as real
    ensures i != z.plan.segmentCount - 1 && s.frameCount > 1 ==>
              z.depth * f as real < (s.endDepth - 0.000000000001) * (z.frames - 1) as real
  {
    hide FrameDepth;
    FrameAgainst(z, f, s.startDepth - 0.000000000001);
    FrameAgainst(z, f, s.endDepth - 0.000000000001);
  }

  /** The first frame after a segment lies at or below the end of its strip. */
  lemma NextFrameBeyond(z: Zoom, s: Segment, i: int)
    requires Dealt(z, s, i) && z.frames > 1 && i != z.plan.segmentCount - 1 && s.frameEnd < z.frames
    ensures z.depth * s.frameEnd as real >= (s.endDepth - 0.000000000001) * (z.frames - 1) as real
  {
    hide FrameDepth;
    FrameAgainst(z, s.frameEnd, s.endDepth - 0.000000000001);
  }

  /** The rows, depths and fallback of a segment in numbers. */
  lemma SegmentPlaced(z: Zoom, s: Segment, i: int)
    requires Geometry(z, s, i)
    ensures s.depthRowStart == i * z.plan.segmentDepthRows && s.heightT == s.depthRows + z.plan.extraRows
    ensures s.startDepth == s.depthRowStart as real * z.octavesPerRow
    ensures i < z.plan.segmentCount - 1 ==> s.endDepth == (i + 1) as real * z.plan.segmentDepthRows as real * z.octavesPerRow
    ensures i == z.plan.segmentCount - 1 ==> s.endDepth == z.depth && s.finalFrameDepth == z.depth
    ensures i < z.plan.segmentCount - 1 ==>
              && s.finalFrameDepth <= z.depth && s.finalFrameDepth <= s.endDepth + z.plan.extraOctaves - z.slack
              && (s.finalFrameDepth == z.depth || s.finalFrameDepth == s.endDepth + z.plan.extraOctaves - z.slack)
  {
    assert ((i + 1) * z.plan.segmentDepthRows) as real == (i + 1) as real * z.plan.segmentDepthRows as real;
  }

  lemma Scaled(a: real, b: real, n: real)
    requires n > 0.0
    ensures a >= b <==> a * n >= b * n
  {
    assert a * n - b * n == (a - b) * n;
    if a < b {
      assert (b - a) * n > 0.0;
    }
  }

  // ---- What the plan guarantees -------------------------------------------------------------

  lemma {:induction false} SegmentsInOrder(z: Zoom, segments: seq<Segment>, i: int, j: int)
    requires Planned(z, segments) && 0 <= i < j < |segments|
    ensures segments[i].frameEnd <= segments[j].frameStart
    decreases j
  {
    if i < j - 1 {
      SegmentsInOrder(z, segments, i, j - 1);
      assert Dealt(z, segments[j - 1], j - 1);
    }
  }

  /** Every frame belongs to exactly one segment. */
  lemma FramesPartitioned(z: Zoom, segments: seq<Segment>, f: int)
    requires Planned(z, segments) && segments != [] && segments[|segments| - 1].frameEnd == z.frames
    requires 0 <= f < z.frames
    ensures exists i :: 0 <= i < |segments| && segments[i].frameStart <= f < segments[i].frameEnd &&
              forall j :: 0 <= j < |segments| && segments[j].frameStart <= f < segments[j].frameEnd ==> j == i
  {
    var i := |segments| - 1;
    while f < segments[i].frameStart
      invariant 0 <= i < |segments| && f < segments[i].frameEnd
    {
      assert i > 0;
      i := i - 1;
    }
    forall j | 0 <= j < |segments| && segments[j].frameStart <= f < segments[j].frameEnd
      ensures j == i
    {
      if j < i {
        SegmentsInOrder(z, segments, j, i);
      } else if i < j {
        SegmentsInOrder(z, segments, i, j);
      }
    }
  }

  /** The planned segments hold every requested frame, so the frame count is never corrected to them. */
  method TotalFrames(z: Zoom, segments: seq<Segment>) returns (total: int)
    requires Planned(z, segments) && (segments != [] ==> segments[|segments| - 1].frameEnd == z.frames)
    ensures total == if segments == [] then 0 else z.frames
  {
    total := 0;
    for i := 0 to |segments|
      invariant total == if i == 0 then 0 else segments[i - 1].frameEnd
    {
      assert Dealt(z, segments[i], i);
      total := total + segments[i].frameCount;
    }
  }

  /** The deepest strip is planned exactly when there are as many frames as segments. */
  lemma DeepestPlannedIff(z: Zoom, segments: seq<Segment>)
    requires Resolved(z) && Planned(z, segments) && |segments| == Min(z.plan.segmentCount, z.frames) && z.frames > 0
    ensures (segments[|segments| - 1].depthRowStart + segments[|segments| - 1].depthRows >= z.plan.totalDepthRows) <==>
            z.frames >= z.plan.segmentCount
    ensures z.frames >= z.plan.segmentCount ==> segments[|segments| - 1].finalFrameDepth == z.depth
  {
    var last := |segments| - 1;
    hide FrameDepth, RowsFor, Dealt, SegmentRows;
    assert Geometry(z, segments[last], last);
    EndsAbove(z, last);
  }

  /** Eighteen octaves at a thousand rows each, cut at the default height: three strips. */
  const THREE_STRIPS: StripPlan := StripPlan(2.0, 2000, 18000, 20000, 8192, 6192, 3, 24000)

  /** The same with the two frames that the shortest videos have. */
  const TWO_FRAMES: Zoom := Zoom(THREE_STRIPS, 18.0, 1000.0, 0.001, 2, 1.0)

  lemma ThreeStripsTile()
    ensures Tiles(THREE_STRIPS)
  {
    var p := THREE_STRIPS;
    forall i | 0 <= i < p.segmentCount
      ensures 0 < SegmentRows(p, i) && SegmentRows(p, i) + p.extraRows <= p.maxSegmentHeightT
    {
      SegmentRowsPositive(p.segmentDepthRows, p.totalDepthRows, p.segmentCount, i);
    }
  }

  /** Two frames for three strips: the plan ends with the second strip, well above the full depth, and so does its fallback. */
  lemma ShortVideoStopsEarly(segments: seq<Segment>)
    requires Planned(TWO_FRAMES, segments) && |segments| == Min(THREE_STRIPS.segmentCount, TWO_FRAMES.frames)
    ensures Resolved(TWO_FRAMES) && |segments| == 2
    ensures var last := segments[1];
            last.depthRowStart + last.depthRows == 12384 < THREE_STRIPS.totalDepthRows &&
            last.endDepth == 12.384 && last.finalFrameDepth == 13.384 < TWO_FRAMES.depth
  {
    ThreeStripsTile();
    assert Geometry(TWO_FRAMES, segments[1], 1);
  }

  /** Every fallback frame with its slack lies within the strip it backs. */
  lemma FallbackCovered(z: Zoom, i: int)
    requires Resolved(z) && 0 <= i < z.plan.segmentCount
    ensures FallbackDepth(z, i) + z.slack <= Depth(z, i * z.plan.segmentDepthRows + SegmentRows(z.plan, i) + z.plan.extraRows)
    ensures FallbackDepth(z, i) >= EndDepth(z, i)
  {
    hide Depth, SegmentRows, RowsFor;
    var low := i * z.plan.segmentDepthRows + SegmentRows(z.plan, i);
    EndsAbove(z, i);
    RowsAreLeast(z.plan.extraOctaves, z.rowsPerOctave, z.plan.extraRows);
    RowsAreLeast(z.depth, z.rowsPerOctave, z.plan.totalDepthRows);
    RowDepth(z, z.plan.extraRows, z.plan.extraOctaves);
    RowDepth(z, z.plan.totalDepthRows, z.depth);
    DepthPlus(z, low, z.plan.extraRows);
    if IsLast(z, i) {
      DepthMonotone(z, z.plan.totalDepthRows, low);
    } else {
      MulMonotone(0, i + 1, z.plan.segmentDepthRows, z.plan.segmentDepthRows);
      RowsAbove(z, low);
    }
  }

  lemma DepthPlus(z: Zoom, a: int, b: int)
    ensures Depth(z, a + b) == Depth(z, a) + Depth(z, b)
  {
    assert (a + b) as real * z.octavesPerRow == a as real * z.octavesPerRow + b as real * z.octavesPerRow;
  }

  /** Fallback depths never decrease, so synthesis from the next segment only zooms in. */
  lemma FallbacksDeepen(z: Zoom, i: int, j: int)
    requires Resolved(z) && 0 <= i <= j < z.plan.segmentCount
    ensures FallbackDepth(z, i) <= FallbackDepth(z, j) <= z.depth
  {
    var rows := z.plan.segmentDepthRows;
    MulMonotone(i + 1, j + 1, rows, rows);
    DepthMonotone(z, (i + 1) * rows, (j + 1) * rows);
    hide Depth;
  }

  /** Only a frame forced on a segment can out-zoom the segment's fallback frame. */
  lemma FrameWithinFallback(z: Zoom, s: Segment, i: int, f: int)
    requires Resolved(z) && 0 <= i < z.plan.segmentCount && Geometry(z, s, i) && Dealt(z, s, i)
    requires s.frameStart <= f < s.frameEnd && FrameDepth(z, f) > s.finalFrameDepth
    ensures !IsLast(z, i) && s.frameCount == 1 && s.firstFrameDepth >= s.endDepth - EPSILON
  {
    FallbackCovered(z, i);
    FrameDepthMonotone(z, f, f);
    hide FrameDepth, Depth, FallbackDepth, Resolved, SegmentRows;
  }

  /** Resolving the strip, dealing out the frames, and correcting the frame count to the segments. */
  method PlanVideo(extra: real, slack: real, rowsPerOctave: real, octavesPerRow: real, depth: real,
                   requested: Option<int>, frames: nat)
    returns (r: Result<Zoom>, segments: seq<Segment>, frameCount: int)
    requires rowsPerOctave > 0.0 && octavesPerRow > 0.0 && octavesPerRow * rowsPerOctave == 1.0 && depth >= 0.0
    ensures r.Ok? ==> Resolved(r.value) && Planned(r.value, segments) && frameCount == frames
    ensures r.Ok? ==> |segments| == Min(r.value.plan.segmentCount, frames)
  {
    hide Planned, Tiles, RowsFor;
    segments, frameCount := [], frames;
    var plan := ResolveStripPlan(extra, slack, rowsPerOctave, depth, requested);
    if plan.Err? {
      return Err, segments, frameCount;
    }
    var z := Zoom(plan.value, depth, rowsPerOctave, octavesPerRow, frames, slack);
    segments := BuildSegments(z);
    var total := TotalFrames(z, segments);
    if plan.value.segmentCount > 1 && total != frameCount {
      frameCount := total;
    }
    r := Ok(z);
  }
}
