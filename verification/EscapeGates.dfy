/**
 Fixed-point escape iteration. Three escape gates decide when an orbit leaves the
 bailout disk: Direct compares the saturating squared magnitude, Component and L1
 first try comparisons that need no multiplication. The run with a fast gate is
 compared with the Direct run on every step function, start point and limit.
 */
module EscapeGates {
  import opened Arithmetic
  import opened Wrappers

  const TWO_63: int := 0x8000_0000_0000_0000
  const TWO_64: int := 0x1_0000_0000_0000_0000
  const MAX_U64: int := 0xFFFF_FFFF_FFFF_FFFF
  const MAX_I64: int := 0x7FFF_FFFF_FFFF_FFFF
  const ONE_Q60: int := 0x1000_0000_0000_0000
  const TWO_Q60: int := 0x2000_0000_0000_0000
  const FOUR_Q60: int := 0x4000_0000_0000_0000
  const TWO_SQRT2_Q60_FLOOR: int := 0x2D41_3CCC_FE77_9921

  type i64 = x: int | -0x8000_0000_0000_0000 <= x < 0x8000_0000_0000_0000
  type u64 = x: int | 0 <= x < 0x1_0000_0000_0000_0000

  /** One complex value in raw fixed-point form. */
  datatype Point = Point(x: i64, y: i64)

  /** The cached quadratic step: new point from the point, its cast squares and the captured constant. */
  type StepFn = (i64, i64, i64, i64) -> Point

  datatype Gate = Direct | Component | L1

  /** The compile-time result mask. */
  datatype Need = Need(iter: bool, norm: bool, escaped: bool, minAbs: bool, maxAbs: bool)

  datatype Params = Params(frac: nat, gate: Gate, need: Need, maxIter: int, bailout: u64, bailout2: u64,
                           two: u64, twoSqrt2: u64, precheck: bool)

  /** Fields the mask leaves out keep their defaults; magnitudes stay in raw form. */
  datatype IterResult = IterResult(iter: int, escaped: bool, norm: Option<u64>,
                                   minMag2: Option<u64>, maxMag2: Option<u64>)

  function Pow2(n: nat): nat {
    if n == 0 then 1 else 2 * Pow2(n - 1)
  }

  lemma {:induction n} Pow2Positive(n: nat)
    ensures Pow2(n) >= 1
  {
  }

  lemma Pow2Of60()
    ensures Pow2(60) == ONE_Q60
  {
    assert Pow2(10) == 1024;
    assert Pow2(20) == 1024 * 1024;
    assert Pow2(30) == 1024 * 1024 * 1024;
    assert Pow2(40) == 1024 * 1024 * 1024 * 1024;
    assert Pow2(50) == 1024 * 1024 * 1024 * 1024 * 1024;
  }

  // ---- Saturating 64-bit arithmetic ---------------------------------------

  /** Two's complement magnitude; exact even for the most negative value. */
  function AbsU64(x: i64): (r: u64)
    ensures r == if x < 0 then -(x as int) else x as int
  {
    var ux := if x < 0 then x + TWO_64 else x;
    if x < 0 then (MAX_U64 - ux + 1) % TWO_64 else ux
  }

  /** Wrapping addition with overflow detection is addition capped at the maximum. */
  function AddU64Sat(a: u64, b: u64): (r: u64)
    ensures r == if a + b > MAX_U64 then MAX_U64 else a + b
  {
    var sum := (a + b) % TWO_64;
    if sum < a then MAX_U64 else sum
  }

  function U64ToI64Sat(v: u64): i64 {
    if v > MAX_I64 then MAX_I64 else v
  }

  function SquareOf(frac: nat, a: u64): u64 {
    Pow2Positive(frac);
    var shifted := (a * a) / Pow2(frac);
    if shifted > MAX_U64 then MAX_U64 else SquareNonNegative(a, Pow2(frac)); shifted
  }

  lemma SquareNonNegative(a: int, d: int)
    requires d >= 1
    ensures a * a / d >= 0
  {
  }

  /** The saturating fixed-point square of a raw component. */
  function SquareQSat(frac: nat, raw: i64): u64 {
    SquareOf(frac, AbsU64(raw))
  }

  function Mag2(frac: nat, z: Point): u64 {
    AddU64Sat(SquareQSat(frac, z.x), SquareQSat(frac, z.y))
  }

  // ---- Decisions ----------------------------------------------------------

  predicate CanGateWithoutMag2(need: Need) {
    !(need.minAbs || need.maxAbs || need.norm)
  }

  predicate DirectFires(p: Params, z: Point) {
    Mag2(p.frac, z) > p.bailout2
  }

  /** The decision of a gate on one point. */
  predicate GateFires(p: Params, gate: Gate, z: Point) {
    var ax, ay := AbsU64(z.x), AbsU64(z.y);
    match gate
    case Direct => DirectFires(p, z)
    case Component => ax > p.bailout || ay > p.bailout || DirectFires(p, z)
    case L1 =>
      || ax > p.bailout || ay > p.bailout
      || AddU64Sat(ax, ay) > p.twoSqrt2
      || (AddU64Sat(ax, ay) > p.two && DirectFires(p, z))
  }

  /** Inside the loop the fast gates apply only when no magnitude is reported. */
  function LoopGate(need: Need, gate: Gate): Gate {
    if CanGateWithoutMag2(need) then gate else Direct
  }

  // ---- The reference run: no cached squares, one gate throughout -----------

  function Next(step: StepFn, frac: nat, z: Point): Point {
    step(z.x, z.y, U64ToI64Sat(SquareQSat(frac, z.x)), U64ToI64Sat(SquareQSat(frac, z.y)))
  }

  /** Least and greatest of the magnitudes compared so far, with the loop's starting values when there are none. */
  function MinOf(mags: seq<u64>): u64 {
    if mags == [] then MAX_U64
    else
      var rest, last := MinOf(mags[..|mags| - 1]), mags[|mags| - 1];
      if last < rest then last else rest
  }

  function MaxOf(mags: seq<u64>): u64 {
    if mags == [] then 0
    else
      var rest, last := MaxOf(mags[..|mags| - 1]), mags[|mags| - 1];
      if rest < last then last else rest
  }

  function FinishEscape(need: Need, i: int, mag2: u64, minMag2: u64, maxMag2: u64): IterResult {
    IterResult(if need.iter then i else 0,
               need.escaped,
               if need.norm then Some(mag2) else None,
               if need.minAbs then Some(minMag2) else None,
               if need.maxAbs then Some(maxMag2) else None)
  }

  function Escaped(p: Params, i: int, mags: seq<u64>): IterResult
    requires mags != []
  {
    FinishEscape(p.need, i, mags[|mags| - 1], MinOf(mags), MaxOf(mags))
  }

  function Exhausted(p: Params, mags: seq<u64>): IterResult {
    IterResult(if p.need.iter then p.maxIter else 0,
               false,
               None,
               if p.need.minAbs then Some(MinOf(mags)) else None,
               if p.need.maxAbs then Some(MaxOf(mags)) else None)
  }

  /** Iterations `i` onward from `z`, after the magnitudes `mags` were compared. */
  function RunFrom(step: StepFn, p: Params, gate: Gate, z: Point, i: int, mags: seq<u64>): IterResult
    decreases p.maxIter - i
  {
    if i >= p.maxIter then Exhausted(p, mags)
    else
      var n := Next(step, p.frac, z);
      var mags' := mags + [Mag2(p.frac, n)];
      if GateFires(p, LoopGate(p.need, gate), n) then Escaped(p, i, mags')
      else RunFrom(step, p, gate, n, i + 1, mags')
  }

  /** The magnitudes compared before the first step. */
  function Initial(p: Params, z: Point): seq<u64> {
    if p.precheck then [Mag2(p.frac, z)] else []
  }

  function Run(step: StepFn, p: Params, gate: Gate, z: Point): IterResult {
    if p.precheck && GateFires(p, gate, z) then Escaped(p, 0, Initial(p, z))
    else RunFrom(step, p, gate, z, 0, Initial(p, z))
  }

  // ---- The loop with cached squares ---------------------------------------

  /**
   The iteration as written: squares are computed once per point, cast and handed
   to the next step, and skipped when a fast gate already fired. Its result is the
   reference run of its gate.
   */
  method Iterate(step: StepFn, p: Params, z: Point) returns (r: IterResult)
    ensures r == Run(step, p, p.gate, z)
  {
    var x, y := z.x, z.y;
    var x2: u64, y2: u64 := 0, 0;
    var minMag2: u64, maxMag2: u64 := MAX_U64, 0;
    ghost var mags := Initial(p, z);
    if p.precheck {
      var escapedInitial, mag2;
      escapedInitial, mag2, x2, y2, minMag2, maxMag2 := PrecheckInitial(p, z);
      if escapedInitial {
        return FinishEscape(p.need, 0, mag2, minMag2, maxMag2);
      }
    }
    if x2 == 0 && y2 == 0 && (x != 0 || y != 0) {
      x2, y2 := SquareQSat(p.frac, x), SquareQSat(p.frac, y);
    }
    ZeroSquare(p.frac);
    var xs, ys := U64ToI64Sat(x2), U64ToI64Sat(y2);
    var i := 0;
    while i < p.maxIter
      invariant xs == U64ToI64Sat(SquareQSat(p.frac, x)) && ys == U64ToI64Sat(SquareQSat(p.frac, y))
      invariant Tracks(p, mags, minMag2, maxMag2)
      invariant p.maxIter <= 0 || i <= p.maxIter
      invariant Run(step, p, p.gate, z) == RunFrom(step, p, p.gate, Point(x, y), i, mags)
    {
      var n := step(x, y, xs, ys);
      var escapedNow, mag2, nx2, ny2;
      escapedNow, mag2, nx2, ny2, minMag2, maxMag2 := CheckNext(p, n, minMag2, maxMag2, mags);
      mags := mags + [Mag2(p.frac, n)];
      if escapedNow {
        return FinishEscape(p.need, i, mag2, minMag2, maxMag2);
      }
      x, y := n.x, n.y;
      xs, ys := U64ToI64Sat(nx2), U64ToI64Sat(ny2);
      i := i + 1;
    }
    r := IterResult(if p.need.iter then p.maxIter else 0, false, None,
                    if p.need.minAbs then Some(minMag2) else None,
                    if p.need.maxAbs then Some(maxMag2) else None);
  }

  /** The running extremes are those of the points compared so far, when they are tracked at all. */
  ghost predicate Tracks(p: Params, mags: seq<u64>, minMag2: u64, maxMag2: u64) {
    && (p.need.minAbs ==> minMag2 == MinOf(mags))
    && (p.need.maxAbs ==> maxMag2 == MaxOf(mags))
  }

  /** The check of the start point; here the gate applies whatever the mask asks for. */
  method PrecheckInitial(p: Params, z: Point)
    returns (escaped: bool, mag2: u64, x2: u64, y2: u64, minMag2: u64, maxMag2: u64)
    ensures escaped == GateFires(p, p.gate, z)
    ensures Tracks(p, [Mag2(p.frac, z)], minMag2, maxMag2)
    ensures p.need.norm ==> mag2 == Mag2(p.frac, z)
    ensures !escaped ==> x2 == SquareQSat(p.frac, z.x) && y2 == SquareQSat(p.frac, z.y)
  {
    var trackMin, trackMax, wantsNorm := p.need.minAbs, p.need.maxAbs, p.need.norm;
    escaped, mag2, x2, y2, minMag2, maxMag2 := false, 0, 0, 0, MAX_U64, 0;
    var l1: u64, haveMag2 := 0, false;
    assert [Mag2(p.frac, z)][..0] == [];
    if p.gate != Direct {
      var ax, ay := AbsU64(z.x), AbsU64(z.y);
      escaped := ax > p.bailout || ay > p.bailout;
      if p.gate == L1 && !escaped {
        l1 := AddU64Sat(ax, ay);
        escaped := l1 > p.twoSqrt2;
      }
    }
    if p.gate == Direct || trackMin || trackMax || wantsNorm {
      x2, y2 := SquareQSat(p.frac, z.x), SquareQSat(p.frac, z.y);
      mag2 := AddU64Sat(x2, y2);
      haveMag2 := true;
      if trackMin && mag2 < minMag2 { minMag2 := mag2; }
      if trackMax && maxMag2 < mag2 { maxMag2 := mag2; }
    }
    if !escaped {
      if !haveMag2 {
        x2, y2 := SquareQSat(p.frac, z.x), SquareQSat(p.frac, z.y);
        mag2 := AddU64Sat(x2, y2);
      }
      escaped := if p.gate == L1 then l1 > p.two && mag2 > p.bailout2 else mag2 > p.bailout2;
    }
  }

  /** The check of a freshly stepped point. */
  method CheckNext(p: Params, n: Point, min0: u64, max0: u64, ghost mags: seq<u64>)
    returns (escaped: bool, mag2: u64, nx2: u64, ny2: u64, minMag2: u64, maxMag2: u64)
    requires Tracks(p, mags, min0, max0)
    ensures escaped == GateFires(p, LoopGate(p.need, p.gate), n)
    ensures Tracks(p, mags + [Mag2(p.frac, n)], minMag2, maxMag2)
    ensures p.need.norm ==> mag2 == Mag2(p.frac, n)
    ensures !escaped ==> nx2 == SquareQSat(p.frac, n.x) && ny2 == SquareQSat(p.frac, n.y)
  {
    var canGate := CanGateWithoutMag2(p.need);
    escaped, mag2, nx2, ny2, minMag2, maxMag2 := false, 0, 0, 0, min0, max0;
    var l1: u64 := 0;
    assert (mags + [Mag2(p.frac, n)])[..|mags|] == mags;
    if canGate && p.gate != Direct {
      var ax, ay := AbsU64(n.x), AbsU64(n.y);
      escaped := ax > p.bailout || ay > p.bailout;
      if p.gate == L1 && !escaped {
        l1 := AddU64Sat(ax, ay);
        escaped := l1 > p.twoSqrt2;
      }
    }
    if !escaped {
      nx2, ny2 := SquareQSat(p.frac, n.x), SquareQSat(p.frac, n.y);
      mag2 := AddU64Sat(nx2, ny2);
      if p.need.minAbs && mag2 < minMag2 { minMag2 := mag2; }
      if p.need.maxAbs && maxMag2 < mag2 { maxMag2 := mag2; }
      escaped := if canGate && p.gate == L1 then l1 > p.two && mag2 > p.bailout2 else mag2 > p.bailout2;
    }
  }

  lemma ZeroSquare(frac: nat)
    ensures SquareQSat(frac, 0) == 0
  {
    Pow2Positive(frac);
  }

  // ---- When a gate decides like Direct ------------------------------------

  /** The gate decides every point as the squared magnitude does. */
  ghost predicate GateExact(p: Params) {
    forall z: Point :: GateFires(p, p.gate, z) <==> DirectFires(p, z)
  }

  lemma SquareMonotone(frac: nat, a: u64, b: u64)
    requires a <= b
    ensures SquareOf(frac, a) <= SquareOf(frac, b)
  {
    Pow2Positive(frac);
    MulMonotone(a, b, a, b);
    DivMonotone(a * a, b * b, Pow2(frac));
  }

  /**
   Component is exact precisely when no component can exceed the bailout, or the
   square of the first component that does already exceeds the squared bailout.
   */
  lemma ComponentExact(p: Params)
    requires p.gate == Component
    ensures GateExact(p) <==> p.bailout >= TWO_63 || SquareOf(p.frac, p.bailout + 1) > p.bailout2
  {
    if p.bailout < TWO_63 {
      var edge := Point(-(p.bailout + 1), 0);
      ZeroSquare(p.frac);
      assert GateFires(p, Component, edge);
      assert Mag2(p.frac, edge) == SquareOf(p.frac, p.bailout + 1);
      if SquareOf(p.frac, p.bailout + 1) > p.bailout2 {
        forall z: Point
          ensures GateFires(p, Component, z) <==> DirectFires(p, z)
        {
          if AbsU64(z.x) > p.bailout { SquareMonotone(p.frac, p.bailout + 1, AbsU64(z.x)); }
          if AbsU64(z.y) > p.bailout { SquareMonotone(p.frac, p.bailout + 1, AbsU64(z.y)); }
        }
      }
    }
  }

  /** The rounding slack under which a bailout and its square suit the Component gate. */
  lemma ComponentSafe(p: Params)
    requires p.gate == Component && p.bailout2 < MAX_U64
    requires p.bailout2 * Pow2(p.frac) <= p.bailout * p.bailout && 2 * p.bailout + 1 >= Pow2(p.frac)
    ensures GateExact(p)
  {
    ComponentExact(p);
    if p.bailout < TWO_63 {
      Pow2Positive(p.frac);
      RoundingSlack(p.bailout, p.bailout2, Pow2(p.frac));
    }
  }

  lemma RoundingSlack(b: nat, b2: nat, d: nat)
    requires d >= 1 && b2 * d <= b * b && 2 * b + 1 >= d
    ensures (b + 1) * (b + 1) / d > b2
  {
    assert (b + 1) * (b + 1) == b * b + (2 * b + 1);
    assert (b2 + 1) * d == b2 * d + d;
    DivAtLeast((b + 1) * (b + 1), d, b2 + 1);
  }

  /** The template constants of the Q3.60 instantiation. */
  predicate Q60(p: Params) {
    p.frac == 60 && p.gate == L1 && p.two == TWO_Q60 && p.twoSqrt2 == TWO_SQRT2_Q60_FLOOR
  }

  function SquareQ60(a: u64): u64 {
    var q := (a * a) / ONE_Q60;
    if q > MAX_U64 then MAX_U64 else SquareNonNegative(a, ONE_Q60); q
  }

  lemma SquareAtQ60(a: u64)
    ensures SquareOf(60, a) == SquareQ60(a)
  {
    Pow2Of60();
  }

  lemma Mag2AtQ60(z: Point)
    ensures Mag2(60, z) == AddU64Sat(SquareQ60(AbsU64(z.x)), SquareQ60(AbsU64(z.y)))
  {
    SquareAtQ60(AbsU64(z.x));
    SquareAtQ60(AbsU64(z.y));
  }

  /** Beyond the L1 threshold the magnitude exceeds 4.0 in spite of both floors. */
  lemma L1Outside(a: u64, b: u64)
    requires a + b > TWO_SQRT2_Q60_FLOOR
    ensures SquareQ60(a) + SquareQ60(b) > FOUR_Q60
  {
    var c := TWO_SQRT2_Q60_FLOOR + 1;
    assert 2 * (a * a + b * b) == (a + b) * (a + b) + (a - b) * (a - b);
    assert (a - b) * (a - b) >= 0;
    MulMonotone(c, a + b, c, a + b);
    assert c * c > 2 * FOUR_Q60 * ONE_Q60 + 4 * ONE_Q60 - 4;
    assert a * a == ONE_Q60 * (a * a / ONE_Q60) + a * a % ONE_Q60;
    assert b * b == ONE_Q60 * (b * b / ONE_Q60) + b * b % ONE_Q60;
  }

  /** Within L1 distance 2.0 the magnitude does not exceed 4.0. */
  lemma L1Inside(a: u64, b: u64)
    requires a + b <= TWO_Q60
    ensures SquareQ60(a) + SquareQ60(b) <= FOUR_Q60
  {
    assert (a + b) * (a + b) == a * a + b * b + 2 * (a * b);
    assert a * b >= 0;
    MulMonotone(a + b, TWO_Q60, a + b, TWO_Q60);
    assert a * a == ONE_Q60 * (a * a / ONE_Q60) + a * a % ONE_Q60;
    assert b * b == ONE_Q60 * (b * b / ONE_Q60) + b * b % ONE_Q60;
  }

  lemma SquareBeyondTwo(a: u64)
    requires a > TWO_Q60
    ensures SquareQ60(a) > FOUR_Q60
  {
    MulMonotone(TWO_Q60 + 1, a, TWO_Q60 + 1, a);
    DivMonotone((TWO_Q60 + 1) * (TWO_Q60 + 1), a * a, ONE_Q60);
  }

  lemma L1ExactAtTwo(p: Params)
    requires Q60(p) && p.bailout >= TWO_Q60 && p.bailout2 == FOUR_Q60
    ensures GateExact(p)
  {
    forall z: Point
      ensures GateFires(p, L1, z) <==> DirectFires(p, z)
    {
      var ax, ay := AbsU64(z.x), AbsU64(z.y);
      Mag2AtQ60(z);
      if ax > p.bailout { SquareBeyondTwo(ax); }
      if ay > p.bailout { SquareBeyondTwo(ay); }
      if ax + ay > TWO_SQRT2_Q60_FLOOR { L1Outside(ax, ay); }
      if ax + ay <= TWO_Q60 { L1Inside(ax, ay); }
    }
  }

  /** The point at which the two magnitudes just beyond the L1 threshold add up to 4.0 and one unit. */
  const SHARP: Point := Point(0x16A0_9E66_7F3B_CC93, 0x16A0_9E66_7F3B_CC8F)

  /** With any other squared bailout one of two points is decided wrongly: 2.0 is kept, or the sharp point escapes. */
  lemma L1WrongElsewhere(p: Params) returns (z: Point)
    requires Q60(p) && p.bailout >= TWO_Q60 && p.bailout2 != FOUR_Q60
    ensures z == if p.bailout2 < FOUR_Q60 then Point(TWO_Q60, 0) else SHARP
    ensures GateFires(p, L1, z) != DirectFires(p, z)
    ensures !GateExact(p)
  {
    if p.bailout2 < FOUR_Q60 {
      z := Point(TWO_Q60, 0);
      Mag2AtQ60(z);
      assert DirectFires(p, z) && !GateFires(p, L1, z);
    } else {
      z := SHARP;
      Mag2AtQ60(z);
      SharpPoint();
      assert GateFires(p, L1, z) && !DirectFires(p, z);
    }
  }

  /** Both floors bite here: the magnitude just beyond the L1 threshold is only one unit above 4.0. */
  lemma SharpPoint()
    ensures SquareQ60(AbsU64(SHARP.x)) + SquareQ60(AbsU64(SHARP.y)) == FOUR_Q60 + 1
  {
  }

  /** The larger partner a component at the bailout can have within L1 distance 2.0. */
  function Partner(b: u64): u64
    requires b < TWO_Q60
  {
    if b < TWO_Q60 - b then b else TWO_Q60 - b
  }

  /** Below 2.0 two points pin the squared bailout into a window, empty for all but extreme bailouts. */
  predicate NarrowWindow(p: Params)
    requires p.bailout < TWO_Q60
  {
    SquareQ60(p.bailout) + SquareQ60(Partner(p.bailout)) <= p.bailout2 < SquareQ60(p.bailout + 1)
  }

  /** The corner of the diamond must be kept, the first component beyond the bailout must escape. */
  lemma WindowNecessary(p: Params)
    requires Q60(p) && p.bailout < TWO_Q60 && GateExact(p)
    ensures NarrowWindow(p)
  {
    WindowCorner(p);
    WindowEdge(p);
  }

  lemma WindowCorner(p: Params)
    requires Q60(p) && p.bailout < TWO_Q60 && GateExact(p)
    ensures SquareQ60(p.bailout) + SquareQ60(Partner(p.bailout)) <= p.bailout2
  {
    var z := Point(p.bailout, Partner(p.bailout));
    Mag2AtQ60(z);
    SquareBelowTwo(p.bailout);
    SquareBelowTwo(Partner(p.bailout));
    assert !GateFires(p, L1, z);
  }

  lemma WindowEdge(p: Params)
    requires Q60(p) && p.bailout < TWO_Q60 && GateExact(p)
    ensures p.bailout2 < SquareQ60(p.bailout + 1)
  {
    var edge := Point(p.bailout + 1, 0);
    Mag2AtQ60(edge);
    assert GateFires(p, L1, edge);
  }

  lemma SquareBelowTwo(a: u64)
    requires a <= TWO_Q60
    ensures SquareQ60(a) <= FOUR_Q60
  {
    MulMonotone(a, TWO_Q60, a, TWO_Q60);
    DivMonotone(a * a, TWO_Q60 * TWO_Q60, ONE_Q60);
  }

  lemma SquareMonotoneQ60(a: u64, b: u64)
    requires a <= b
    ensures SquareQ60(a) <= SquareQ60(b)
  {
    MulMonotone(a, b, a, b);
    DivMonotone(a * a, b * b, ONE_Q60);
  }

  /** The window is empty unless the bailout is within 2^32 units of 0.0 or 2.0. */
  lemma WindowEmpty(b: u64)
    requires 0x1_0000_0000 <= b <= TWO_Q60 - 0x1_0000_0000
    ensures SquareQ60(b) + SquareQ60(Partner(b)) > SquareQ60(b + 1)
  {
    var q: int := Partner(b);
    MulMonotone(0x1_0000_0000, q, 0x1_0000_0000, q);
    DivMonotone(0x1_0000_0000 * 0x1_0000_0000, q * q, ONE_Q60);
    assert (b + 1) * (b + 1) == b * b + 2 * b + 1;
    SquareBelowTwo(b + 1);
  }

  /** Just below 2.0 every point in the L1 diamond is dominated by the corner at the bailout. */
  lemma CornerDominates(b: u64, x: u64, y: u64)
    requires TWO_Q60 - 0x1_0000_0000 < b < TWO_Q60
    requires y <= x <= b && x + y <= TWO_Q60
    ensures SquareQ60(x) + SquareQ60(y) <= SquareQ60(b) + SquareQ60(TWO_Q60 - b)
  {
    var q := TWO_Q60 - b;
    if x == b {
      SquareMonotoneQ60(y, q);
    } else if x < ONE_Q60 {
      SquareMonotoneQ60(x, ONE_Q60);
      SquareMonotoneQ60(y, ONE_Q60);
      SquareMonotoneQ60(TWO_Q60 - 0x1_0000_0000, b);
    } else {
      var t, r := b - x, TWO_Q60 - x;
      SquareMonotoneQ60(y, r);
      assert b * b + q * q - x * x - r * r == 2 * (t * (x - q)) by {
        assert b == x + t && r == q + t;
      }
      CornerLead(t, x, q, b);
      assert x * x == ONE_Q60 * (x * x / ONE_Q60) + x * x % ONE_Q60;
      assert r * r == ONE_Q60 * (r * r / ONE_Q60) + r * r % ONE_Q60;
      assert b * b == ONE_Q60 * (b * b / ONE_Q60) + b * b % ONE_Q60;
      assert q * q == ONE_Q60 * (q * q / ONE_Q60) + q * q % ONE_Q60;
      SquareBelowTwo(x);
      SquareBelowTwo(r);
      SquareBelowTwo(b);
      SquareBelowTwo(q);
    }
  }

  lemma CornerLead(t: nat, x: nat, q: nat, b: nat)
    requires t >= 1 && x >= ONE_Q60 && q < 0x1_0000_0000 && x + t == b && b + q == TWO_Q60
    ensures t * (x - q) >= ONE_Q60
  {
    if t >= 2 {
      MulMonotone(2, t, ONE_Q60 - 0x1_0000_0000, x - q);
    }
  }

  lemma WindowSufficient(p: Params)
    requires Q60(p) && p.bailout < TWO_Q60 && NarrowWindow(p)
    ensures GateExact(p)
  {
    var b := p.bailout;
    SquareBelowTwo(b + 1);
    forall z: Point
      ensures GateFires(p, L1, z) <==> DirectFires(p, z)
    {
      var ax, ay := AbsU64(z.x), AbsU64(z.y);
      Mag2AtQ60(z);
      if ax > b { SquareMonotoneQ60(b + 1, ax); }
      if ay > b { SquareMonotoneQ60(b + 1, ay); }
      if ax + ay > TWO_SQRT2_Q60_FLOOR { L1Outside(ax, ay); }
      if ax <= b && ay <= b && ax + ay <= TWO_Q60 { InsideBelowWindow(b, ax, ay); }
    }
  }

  lemma InsideBelowWindow(b: u64, x: u64, y: u64)
    requires b < TWO_Q60 && SquareQ60(b) + SquareQ60(Partner(b)) < SquareQ60(b + 1)
    requires x <= b && y <= b && x + y <= TWO_Q60
    ensures SquareQ60(x) + SquareQ60(y) <= SquareQ60(b) + SquareQ60(Partner(b))
  {
    if b < 0x1_0000_0000 {
      SquareMonotoneQ60(x, b);
      SquareMonotoneQ60(y, b);
    } else if b <= TWO_Q60 - 0x1_0000_0000 {
      WindowEmpty(b);
    } else if y <= x {
      CornerDominates(b, x, y);
    } else {
      CornerDominates(b, y, x);
    }
  }

  /**
   The L1 gate of Q3.60 decides like Direct exactly when the squared bailout is 4.0
   for a bailout of at least 2.0, or sits in the narrow window of a smaller bailout.
   */
  lemma L1Exact(p: Params)
    requires Q60(p)
    ensures GateExact(p) <==> if p.bailout >= TWO_Q60 then p.bailout2 == FOUR_Q60 else NarrowWindow(p)
  {
    if p.bailout >= TWO_Q60 {
      if p.bailout2 == FOUR_Q60 {
        L1ExactAtTwo(p);
      } else {
        var _ := L1WrongElsewhere(p);
      }
    } else if NarrowWindow(p) {
      WindowSufficient(p);
    } else if GateExact(p) {
      WindowNecessary(p);
    }
  }

  /** So an ordinary bailout below 2.0 is never exact, whatever squared bailout it comes with. */
  lemma L1NeverBelowTwo(p: Params)
    requires Q60(p) && 0x1_0000_0000 <= p.bailout <= TWO_Q60 - 0x1_0000_0000
    ensures !GateExact(p)
  {
    WindowEmpty(p.bailout);
    L1Exact(p);
  }

  // ---- Whole runs ----------------------------------------------------------

  /** From any position an exact gate leads to the Direct result, every field included. */
  lemma {:induction false} RunFromAgrees(step: StepFn, p: Params, z: Point, i: int, mags: seq<u64>)
    requires GateExact(p)
    ensures RunFrom(step, p, p.gate, z, i, mags) == RunFrom(step, p, Direct, z, i, mags)
    decreases p.maxIter - i
  {
    if i < p.maxIter {
      var n := Next(step, p.frac, z);
      assert GateFires(p, p.gate, n) <==> DirectFires(p, n);
      RunFromAgrees(step, p, n, i + 1, mags + [Mag2(p.frac, n)]);
    }
  }

  /** The fast run equals the Direct run for every step function, start point and limit. */
  lemma RunAgrees(step: StepFn, p: Params, z: Point)
    requires GateExact(p)
    ensures Run(step, p, p.gate, z) == Run(step, p, Direct, z)
  {
    assert GateFires(p, p.gate, z) <==> DirectFires(p, z);
    RunFromAgrees(step, p, z, 0, Initial(p, z));
  }

  /** A gate that misjudges one point changes the result of some one-step orbit. */
  lemma RunDiffers(p: Params) returns (step: StepFn, q: Params)
    requires !GateExact(p)
    ensures q == p.(need := q.need, maxIter := 1, precheck := false)
    ensures Run(step, q, q.gate, Point(0, 0)).escaped != Run(step, q, Direct, Point(0, 0)).escaped
  {
    var bad: Point :| GateFires(p, p.gate, bad) != DirectFires(p, bad);
    step := (x, y, x2, y2) => bad;
    q := p.(need := Need(true, false, true, false, false), maxIter := 1, precheck := false);
    var z := Point(0, 0);
    assert Next(step, q.frac, z) == bad;
    assert GateFires(q, q.gate, bad) == GateFires(p, p.gate, bad) && DirectFires(q, bad) == DirectFires(p, bad);
    OneStep(step, q, q.gate, z);
    OneStep(step, q, Direct, z);
  }

  lemma OneStep(step: StepFn, p: Params, gate: Gate, z: Point)
    requires p.maxIter == 1 && !p.precheck && p.need == Need(true, false, true, false, false)
    ensures Run(step, p, gate, z).escaped == GateFires(p, gate, Next(step, p.frac, z))
  {
    var n := Next(step, p.frac, z);
    assert LoopGate(p.need, gate) == gate;
    var mags := Initial(p, z) + [Mag2(p.frac, n)];
    assert RunFrom(step, p, gate, z, 0, Initial(p, z)) ==
           if GateFires(p, gate, n) then Escaped(p, 0, mags) else RunFrom(step, p, gate, n, 1, mags);
  }

  // ---- What the Direct run reports -----------------------------------------

  function Orbit(step: StepFn, frac: nat, z: Point, k: nat): Point {
    if k == 0 then z else Next(step, frac, Orbit(step, frac, z, k - 1))
  }

  /** The magnitudes of the first `k` points after the start. */
  function Trail(step: StepFn, frac: nat, z: Point, k: nat): (t: seq<u64>)
    ensures |t| == k && forall j :: 0 <= j < k ==> t[j] == Mag2(frac, Orbit(step, frac, z, j + 1))
  {
    if k == 0 then [] else Trail(step, frac, z, k - 1) + [Mag2(frac, Orbit(step, frac, z, k))]
  }

  /** No point from the first stepped one to the `k`-th squares beyond the bailout. */
  ghost predicate StaysInside(step: StepFn, p: Params, z: Point, k: nat) {
    forall j :: 1 <= j <= k ==> !DirectFires(p, Orbit(step, p.frac, z, j))
  }

  /** The same for any gate, as the loop applies it. */
  ghost predicate GateStaysShut(step: StepFn, p: Params, gate: Gate, z: Point, k: nat) {
    forall j :: 1 <= j <= k ==> !GateFires(p, LoopGate(p.need, gate), Orbit(step, p.frac, z, j))
  }

  lemma {:induction false} RunReaches(step: StepFn, p: Params, gate: Gate, z: Point, k: nat, mags: seq<u64>)
    requires k <= p.maxIter || k == 0
    requires GateStaysShut(step, p, gate, z, k)
    ensures RunFrom(step, p, gate, z, 0, mags) ==
            RunFrom(step, p, gate, Orbit(step, p.frac, z, k), k, mags + Trail(step, p.frac, z, k))
  {
    hide GateFires, Mag2, Next, LoopGate;
    if k == 0 {
      assert mags + [] == mags;
    } else {
      RunReaches(step, p, gate, z, k - 1, mags);
      var n := Orbit(step, p.frac, z, k);
      assert !GateFires(p, LoopGate(p.need, gate), n);
      assert mags + Trail(step, p.frac, z, k - 1) + [Mag2(p.frac, n)] == mags + Trail(step, p.frac, z, k);
    }
  }

  /** `mags` lists the magnitudes of the points `first` to `last`. */
  ghost predicate Compared(mags: seq<u64>, step: StepFn, frac: nat, z: Point, first: nat, last: nat) {
    && |mags| == last + 1 - first
    && forall a: nat :: a < |mags| ==> mags[a] == Mag2(frac, Orbit(step, frac, z, a + first))
  }

  /** A run compares the magnitudes of its points, and that of a checked start. */
  lemma ComparedMagnitudes(step: StepFn, p: Params, z: Point, k: nat)
    ensures Compared(Initial(p, z) + Trail(step, p.frac, z, k), step, p.frac, z, if p.precheck then 0 else 1, k)
  {
    hide Mag2;
    assert Orbit(step, p.frac, z, 0) == z;
  }

  lemma NextPoint(step: StepFn, p: Params, z: Point, k: nat)
    ensures Orbit(step, p.frac, z, k + 1) == Next(step, p.frac, Orbit(step, p.frac, z, k))
    ensures Initial(p, z) + Trail(step, p.frac, z, k + 1) ==
            Initial(p, z) + Trail(step, p.frac, z, k) + [Mag2(p.frac, Orbit(step, p.frac, z, k + 1))]
  {
    hide Mag2;
  }

  /** The value is the least of the magnitudes of the points `first` to `last`. */
  ghost predicate LeastOf(m: Option<u64>, step: StepFn, frac: nat, z: Point, first: nat, last: nat) {
    && m.Some?
    && (exists j: nat :: first <= j <= last && Mag2(frac, Orbit(step, frac, z, j)) == m.value)
    && (forall j: nat :: first <= j <= last ==> m.value <= Mag2(frac, Orbit(step, frac, z, j)))
  }

  ghost predicate GreatestOf(m: Option<u64>, step: StepFn, frac: nat, z: Point, first: nat, last: nat) {
    && m.Some?
    && (exists j: nat :: first <= j <= last && Mag2(frac, Orbit(step, frac, z, j)) == m.value)
    && (forall j: nat :: first <= j <= last ==> Mag2(frac, Orbit(step, frac, z, j)) <= m.value)
  }

  lemma ComparedExtremes(mags: seq<u64>, step: StepFn, frac: nat, z: Point, first: nat, last: nat)
    requires Compared(mags, step, frac, z, first, last) && mags != []
    ensures LeastOf(Some(MinOf(mags)), step, frac, z, first, last)
    ensures GreatestOf(Some(MaxOf(mags)), step, frac, z, first, last)
  {
    hide Orbit, Mag2, MinOf, MaxOf;
    ExtremesAreExtreme(mags);
    var a :| 0 <= a < |mags| && mags[a] == MinOf(mags);
    var b :| 0 <= b < |mags| && mags[b] == MaxOf(mags);
    assert Mag2(frac, Orbit(step, frac, z, a + first)) == MinOf(mags);
    assert Mag2(frac, Orbit(step, frac, z, b + first)) == MaxOf(mags);
    forall j: nat | first <= j <= last
      ensures MinOf(mags) <= Mag2(frac, Orbit(step, frac, z, j)) <= MaxOf(mags)
    {
      var at := j - first;
      assert mags[at] == Mag2(frac, Orbit(step, frac, z, at + first));
    }
  }

  /**
   A run stops at the first point its gate fires on, `k` points after the first stepped
   one. Under its mask bit the count is `k`, the escape flag is set, the norm is the
   squared magnitude of that point, and the extremes range over every point compared up
   to and including it, a checked start among them.
   */
  lemma FirstEscape(step: StepFn, p: Params, gate: Gate, z: Point, k: nat)
    requires k < p.maxIter && GateStaysShut(step, p, gate, z, k)
    requires GateFires(p, LoopGate(p.need, gate), Orbit(step, p.frac, z, k + 1))
    requires p.precheck ==> !GateFires(p, gate, z)
    ensures var r, first := Run(step, p, gate, z), if p.precheck then 0 else 1;
            && r.iter == (if p.need.iter then k else 0)
            && r.escaped == p.need.escaped
            && r.norm == (if p.need.norm then Some(Mag2(p.frac, Orbit(step, p.frac, z, k + 1))) else None)
            && (if p.need.minAbs then LeastOf(r.minMag2, step, p.frac, z, first, k + 1) else r.minMag2.None?)
            && (if p.need.maxAbs then GreatestOf(r.maxMag2, step, p.frac, z, first, k + 1) else r.maxMag2.None?)
  {
    hide GateFires, Mag2, LeastOf, GreatestOf, Compared, Orbit, Trail, MinOf, MaxOf, Next, Initial;
    RunReaches(step, p, gate, z, k, Initial(p, z));
    NextPoint(step, p, z, k);
    var mags := Initial(p, z) + Trail(step, p.frac, z, k + 1);
    ComparedMagnitudes(step, p, z, k + 1);
    ComparedExtremes(mags, step, p.frac, z, if p.precheck then 0 else 1, k + 1);
  }

  /** A run no point escapes reports the limit, a clear flag, no norm and the extremes of all its points. */
  lemma NeverEscapes(step: StepFn, p: Params, gate: Gate, z: Point, n: nat)
    requires n == (if p.maxIter < 0 then 0 else p.maxIter) && GateStaysShut(step, p, gate, z, n)
    requires p.precheck ==> !GateFires(p, gate, z)
    ensures var r, first := Run(step, p, gate, z), if p.precheck then 0 else 1;
            && r.iter == (if p.need.iter then p.maxIter else 0)
            && !r.escaped && r.norm == None
            && (p.need.minAbs <==> r.minMag2.Some?) && (p.need.maxAbs <==> r.maxMag2.Some?)
            && (p.need.minAbs ==> if first <= n then LeastOf(r.minMag2, step, p.frac, z, first, n)
                                  else r.minMag2 == Some(MAX_U64))
            && (p.need.maxAbs ==> if first <= n then GreatestOf(r.maxMag2, step, p.frac, z, first, n)
                                  else r.maxMag2 == Some(0))
  {
    hide GateFires, Mag2, LeastOf, GreatestOf, Compared, Orbit, Next;
    RunReaches(step, p, gate, z, n, Initial(p, z));
    if p.precheck || n > 0 {
      ComparedMagnitudes(step, p, z, n);
      ComparedExtremes(Initial(p, z) + Trail(step, p.frac, z, n), step, p.frac, z, if p.precheck then 0 else 1, n);
    }
  }

  /** A checked start that its own gate stops is reported as iteration 0, with its own magnitude throughout. */
  lemma StartEscapes(step: StepFn, p: Params, gate: Gate, z: Point)
    requires p.precheck && GateFires(p, gate, z)
    ensures var r, m := Run(step, p, gate, z), Mag2(p.frac, z);
            && r.iter == 0 && r.escaped == p.need.escaped
            && r.norm == (if p.need.norm then Some(m) else None)
            && r.minMag2 == (if p.need.minAbs then Some(m) else None)
            && r.maxMag2 == (if p.need.maxAbs then Some(m) else None)
  {
    hide GateFires, Mag2;
    ExtremesAreExtreme(Initial(p, z));
  }

  /**
   The Direct run stops at the first point whose square exceeds the squared bailout: its
   index is the iteration count, and the extremes range over every point compared.
   */
  lemma DirectFirstEscape(step: StepFn, p: Params, z: Point, k: nat)
    requires k < p.maxIter && StaysInside(step, p, z, k)
    requires Mag2(p.frac, Orbit(step, p.frac, z, k + 1)) > p.bailout2
    requires p.precheck ==> Mag2(p.frac, z) <= p.bailout2
    ensures var r, first := Run(step, p, Direct, z), if p.precheck then 0 else 1;
            && r.iter == (if p.need.iter then k else 0)
            && r.escaped == p.need.escaped
            && r.norm == (if p.need.norm then Some(Mag2(p.frac, Orbit(step, p.frac, z, k + 1))) else None)
            && (if p.need.minAbs then LeastOf(r.minMag2, step, p.frac, z, first, k + 1) else r.minMag2.None?)
            && (if p.need.maxAbs then GreatestOf(r.maxMag2, step, p.frac, z, first, k + 1) else r.maxMag2.None?)
  {
    hide Run, Mag2, LeastOf, GreatestOf;
    FirstEscape(step, p, Direct, z, k);
  }

  lemma DirectNeverEscapes(step: StepFn, p: Params, z: Point, n: nat)
    requires n == (if p.maxIter < 0 then 0 else p.maxIter) && StaysInside(step, p, z, n)
    requires p.precheck ==> Mag2(p.frac, z) <= p.bailout2
    ensures var r, first := Run(step, p, Direct, z), if p.precheck then 0 else 1;
            && r.iter == (if p.need.iter then p.maxIter else 0)
            && !r.escaped && r.norm == None
            && (p.need.minAbs <==> r.minMag2.Some?) && (p.need.maxAbs <==> r.maxMag2.Some?)
            && (p.need.minAbs ==> if first <= n then LeastOf(r.minMag2, step, p.frac, z, first, n)
                                  else r.minMag2 == Some(MAX_U64))
            && (p.need.maxAbs ==> if first <= n then GreatestOf(r.maxMag2, step, p.frac, z, first, n)
                                  else r.maxMag2 == Some(0))
  {
    hide Run, Mag2, LeastOf, GreatestOf;
    NeverEscapes(step, p, Direct, z, n);
  }

  /** The magnitude is the sum of the shifted squares, capped at the largest 64-bit value. */
  lemma MagnitudeInNumbers(frac: nat, z: Point)
    ensures Pow2(frac) > 0
    ensures var exact := z.x * z.x / Pow2(frac) + z.y * z.y / Pow2(frac);
            Mag2(frac, z) == if exact > MAX_U64 then MAX_U64 else exact
  {
    Pow2Positive(frac);
    SquareOfAbs(z.x);
    SquareOfAbs(z.y);
    SquareNonNegative(AbsU64(z.x), Pow2(frac));
    SquareNonNegative(AbsU64(z.y), Pow2(frac));
  }

  /** The reported extremes are attained and bound every compared magnitude. */
  lemma {:induction false} ExtremesAreExtreme(mags: seq<u64>)
    requires mags != []
    ensures MinOf(mags) in mags && MaxOf(mags) in mags
    ensures forall j :: 0 <= j < |mags| ==> MinOf(mags) <= mags[j] <= MaxOf(mags)
  {
    var rest, last := mags[..|mags| - 1], mags[|mags| - 1];
    assert mags == rest + [last];
    if rest != [] {
      ExtremesAreExtreme(rest);
    }
  }

  /** The cast squares of a point are the exact shifted products. */
  predicate SquaresExact(frac: nat, w: Point) {
    var d := Pow2(frac);
    d > 0 && U64ToI64Sat(SquareQSat(frac, w.x)) == w.x * w.x / d && U64ToI64Sat(SquareQSat(frac, w.y)) == w.y * w.y / d
  }

  /**
   With a squared bailout below 2^63, at every point of the unescaped prefix the
   square handed to the next step is the exact shifted product: neither the
   saturation nor the signed cast changes it. The start counts when it was checked.
   */
  lemma PrefixSquaresExact(step: StepFn, p: Params, z: Point, k: nat, j: nat)
    requires p.bailout2 < TWO_63 && StaysInside(step, p, z, k) && j <= k
    requires j == 0 ==> !DirectFires(p, z)
    ensures SquaresExact(p.frac, Orbit(step, p.frac, z, j))
    ensures var w := Orbit(step, p.frac, z, j);
            Orbit(step, p.frac, z, j + 1) ==
            step(w.x, w.y, U64ToI64Sat(SquareQSat(p.frac, w.x)), U64ToI64Sat(SquareQSat(p.frac, w.y)))
  {
    var w := Orbit(step, p.frac, z, j);
    assert !DirectFires(p, w);
    InsideSquaresExact(p, w);
  }

  lemma InsideSquaresExact(p: Params, w: Point)
    requires p.bailout2 < TWO_63 && !DirectFires(p, w)
    ensures SquaresExact(p.frac, w)
  {
    Pow2Positive(p.frac);
    SquareOfAbs(w.x);
    SquareOfAbs(w.y);
  }

  /** A start that any of the gates let pass has exact squares as well; L1 needs its Q3.60 constants. */
  lemma CheckedStartExact(p: Params, z: Point)
    requires p.bailout2 < TWO_63 && !GateFires(p, p.gate, z)
    requires p.gate == L1 ==> Q60(p)
    ensures SquaresExact(p.frac, z)
  {
    if DirectFires(p, z) {
      SquareOfAbs(z.x);
      SquareOfAbs(z.y);
      SquareAtQ60(AbsU64(z.x));
      SquareAtQ60(AbsU64(z.y));
      SquareBelowTwo(AbsU64(z.x));
      SquareBelowTwo(AbsU64(z.y));
      Pow2Of60();
    } else {
      InsideSquaresExact(p, z);
    }
  }

  lemma SquareOfAbs(x: i64)
    ensures AbsU64(x) * AbsU64(x) == x * x
  {
  }

  /** The fast gate gives the Direct result whatever the step, start, mask, limit and precheck. */
  ghost predicate RunsAlwaysAgree(p: Params) {
    forall step: StepFn, z: Point, need: Need, maxIter: int, precheck: bool ::
      var q := p.(need := need, maxIter := maxIter, precheck := precheck);
      Run(step, q, q.gate, z) == Run(step, q, Direct, z)
  }

  lemma RunsAgreeIffExact(p: Params)
    ensures RunsAlwaysAgree(p) <==> GateExact(p)
  {
    if GateExact(p) {
      forall step: StepFn, z: Point, need: Need, maxIter: int, precheck: bool
        ensures var q := p.(need := need, maxIter := maxIter, precheck := precheck);
                Run(step, q, q.gate, z) == Run(step, q, Direct, z)
      {
        var q := p.(need := need, maxIter := maxIter, precheck := precheck);
        ExactForAllMasks(p, q);
        RunAgrees(step, q, z);
      }
    } else {
      var step, q := RunDiffers(p);
      assert q == p.(need := q.need, maxIter := q.maxIter, precheck := q.precheck);
    }
  }

  lemma ExactForAllMasks(p: Params, q: Params)
    requires GateExact(p) && q == p.(need := q.need, maxIter := q.maxIter, precheck := q.precheck)
    ensures GateExact(q)
  {
    forall z: Point
      ensures GateFires(q, q.gate, z) <==> DirectFires(q, z)
    {
      assert GateFires(p, p.gate, z) <==> DirectFires(p, z);
    }
  }

  /** Whole Q3.60 runs agree with Direct under the same condition. */
  lemma L1RunsExact(p: Params)
    requires Q60(p)
    ensures RunsAlwaysAgree(p) <==> if p.bailout >= TWO_Q60 then p.bailout2 == FOUR_Q60 else NarrowWindow(p)
  {
    RunsAgreeIffExact(p);
    L1Exact(p);
  }

  /** Whole runs under the Component gate. */
  lemma ComponentRunsExact(p: Params)
    requires p.gate == Component
    ensures RunsAlwaysAgree(p) <==> p.bailout >= TWO_63 || SquareOf(p.frac, p.bailout + 1) > p.bailout2
  {
    RunsAgreeIffExact(p);
    ComponentExact(p);
  }

  // ---- What the field renderer can show ------------------------------------------

  /** The masks of the fixed-point field renderer; every one of them reports a magnitude. */
  const ESCAPE_SMOOTH: Need := Need(true, true, true, false, false)
  const LEAST: Need := Need(false, false, false, true, false)
  const GREATEST: Need := Need(false, false, false, false, true)
  const ENVELOPE: Need := Need(false, false, false, true, true)

  predicate RendererMask(need: Need) {
    need == ESCAPE_SMOOTH || need == LEAST || need == GREATEST || need == ENVELOPE
  }

  lemma {:induction false} LoopIsDirect(step: StepFn, p: Params, z: Point, i: int, mags: seq<u64>)
    requires !CanGateWithoutMag2(p.need)
    ensures RunFrom(step, p, p.gate, z, i, mags) == RunFrom(step, p, Direct, z, i, mags)
    decreases p.maxIter - i
  {
    if i < p.maxIter {
      var n := Next(step, p.frac, z);
      LoopIsDirect(step, p, n, i + 1, mags + [Mag2(p.frac, n)]);
    }
  }

  /** The gate is consulted once, at a checked start point, and only there can it differ from Direct. */
  predicate StartMisjudged(p: Params, z: Point) {
    p.precheck && GateFires(p, p.gate, z) != DirectFires(p, z)
  }

  /** With a magnitude reported, runs agree with Direct whenever the start is judged alike. */
  lemma StartDecides(step: StepFn, p: Params, z: Point)
    requires !CanGateWithoutMag2(p.need) && !StartMisjudged(p, z)
    ensures Run(step, p, p.gate, z) == Run(step, p, Direct, z)
  {
    LoopIsDirect(step, p, z, 0, Initial(p, z));
  }

  /** Renders that do not check the start, as those of the parameter plane, are untouched by the gate. */
  lemma UncheckedUntouched(step: StepFn, p: Params, z: Point)
    requires RendererMask(p.need) && !p.precheck
    ensures Run(step, p, p.gate, z) == Run(step, p, Direct, z)
  {
    StartDecides(step, p, z);
  }

  /** A misjudged start that an extreme already reached hides: no escape is reported, and no point can change the extreme. */
  predicate Hidden(p: Params, z: Point) {
    !p.need.escaped &&
    (p.maxIter <= 0 || (!p.need.maxAbs && Mag2(p.frac, z) == 0) || (!p.need.minAbs && Mag2(p.frac, z) == MAX_U64))
  }

  ghost predicate AgreesAt(p: Params, z: Point) {
    forall step: StepFn :: Run(step, p, p.gate, z) == Run(step, p, Direct, z)
  }

  lemma {:induction false} LeastStays(step: StepFn, p: Params, gate: Gate, z: Point, i: int, mags: seq<u64>)
    requires p.need.minAbs && mags != [] && MinOf(mags) == 0
    ensures RunFrom(step, p, gate, z, i, mags).minMag2 == Some(0)
    decreases p.maxIter - i
  {
    if i < p.maxIter {
      var n := Next(step, p.frac, z);
      assert (mags + [Mag2(p.frac, n)])[..|mags|] == mags;
      LeastStays(step, p, gate, n, i + 1, mags + [Mag2(p.frac, n)]);
    }
  }

  lemma {:induction false} GreatestStays(step: StepFn, p: Params, gate: Gate, z: Point, i: int, mags: seq<u64>)
    requires p.need.maxAbs && mags != [] && MaxOf(mags) == MAX_U64
    ensures RunFrom(step, p, gate, z, i, mags).maxMag2 == Some(MAX_U64)
    decreases p.maxIter - i
  {
    if i < p.maxIter {
      var n := Next(step, p.frac, z);
      assert (mags + [Mag2(p.frac, n)])[..|mags|] == mags;
      GreatestStays(step, p, gate, n, i + 1, mags + [Mag2(p.frac, n)]);
    }
  }

  /** An orbit that stays at the origin never escapes. */
  lemma {:induction false} OriginStays(p: Params, z: Point, i: int, mags: seq<u64>)
    ensures !RunFrom(STILL, p, Direct, z, i, mags).escaped
    decreases p.maxIter - i
  {
    ZeroSquare(p.frac);
    if i < p.maxIter {
      OriginStays(p, Point(0, 0), i + 1, mags + [Mag2(p.frac, Point(0, 0))]);
    }
  }

  const STILL: StepFn := (x, y, x2, y2) => Point(0, 0)
  const FAR: StepFn := (x, y, x2, y2) => Point(-0x8000_0000_0000_0000, -0x8000_0000_0000_0000)

  lemma {:induction false} Pow2Grows(a: nat, b: nat)
    requires a <= b
    ensures Pow2(a) <= Pow2(b)
  {
    if a < b {
      Pow2Grows(a, b - 1);
    }
  }

  lemma FarMagnitude(frac: nat)
    requires frac <= 62
    ensures Mag2(frac, Point(-0x8000_0000_0000_0000, -0x8000_0000_0000_0000)) == MAX_U64
  {
    Pow2Of60();
    Pow2Positive(frac);
    Pow2Grows(frac, 62);
    assert Pow2(62) == 4 * ONE_Q60;
    MulMonotone(TWO_64, TWO_64, Pow2(frac), Pow2(62));
    assert TWO_64 * Pow2(62) == TWO_63 * TWO_63;
    DivAtLeast(TWO_63 * TWO_63, Pow2(frac), TWO_64);
  }

  /** The result of a run that was stopped at its start. */
  function Stopped(p: Params, z: Point): IterResult {
    Escaped(p, 0, [Mag2(p.frac, z)])
  }

  /** After a misjudged start one run stops and the other goes on under Direct. */
  lemma MisjudgedRuns(step: StepFn, p: Params, z: Point)
    requires RendererMask(p.need) && StartMisjudged(p, z)
    ensures var on := RunFrom(step, p, Direct, z, 0, [Mag2(p.frac, z)]);
            Run(step, p, p.gate, z) == Run(step, p, Direct, z) <==> Stopped(p, z) == on
  {
    LoopIsDirect(step, p, z, 0, [Mag2(p.frac, z)]);
  }

  lemma LeastShows(p: Params, z: Point)
    requires p.need.minAbs && p.maxIter > 0 && Mag2(p.frac, z) != 0
    ensures RunFrom(STILL, p, Direct, z, 0, [Mag2(p.frac, z)]).minMag2 == Some(0)
  {
    var m := Mag2(p.frac, z);
    ZeroSquare(p.frac);
    assert [m][..0] == [] && [m, 0][..1] == [m] && [m] + [0] == [m, 0];
    assert Next(STILL, p.frac, z) == Point(0, 0) && Mag2(p.frac, Point(0, 0)) == 0;
    LeastStays(STILL, p, Direct, Point(0, 0), 1, [m, 0]);
  }

  lemma GreatestShows(p: Params, z: Point)
    requires p.need.maxAbs && p.maxIter > 0 && p.frac <= 62
    ensures RunFrom(FAR, p, Direct, z, 0, [Mag2(p.frac, z)]).maxMag2 == Some(MAX_U64)
  {
    var m, n := Mag2(p.frac, z), Next(FAR, p.frac, z);
    FarMagnitude(p.frac);
    assert Mag2(p.frac, n) == MAX_U64;
    assert [m][..0] == [] && [m, MAX_U64][..1] == [m] && [m] + [MAX_U64] == [m, MAX_U64];
    assert MaxOf([m, MAX_U64]) == MAX_U64;
    GreatestStays(FAR, p, Direct, n, 1, [m, MAX_U64]);
  }

  lemma MisjudgedShows(p: Params, z: Point) returns (step: StepFn)
    requires RendererMask(p.need) && p.frac <= 62 && StartMisjudged(p, z) && !Hidden(p, z)
    ensures Run(step, p, p.gate, z) != Run(step, p, Direct, z)
  {
    var m := Mag2(p.frac, z);
    assert MinOf([m]) == MaxOf([m]) == m by {
      assert [m][..0] == [];
    }
    if p.need.escaped {
      step := STILL;
      OriginStays(p, z, 0, [m]);
    } else if p.need.minAbs && m != 0 {
      step := STILL;
      LeastShows(p, z);
    } else {
      step := FAR;
      GreatestShows(p, z);
    }
    hide RunFrom, DirectFires, GateFires, Mag2;
    MisjudgedRuns(step, p, z);
  }

  lemma HiddenAgrees(step: StepFn, p: Params, z: Point)
    requires RendererMask(p.need) && StartMisjudged(p, z) && Hidden(p, z)
    ensures Run(step, p, p.gate, z) == Run(step, p, Direct, z)
  {
    var m := Mag2(p.frac, z);
    assert [m][..0] == [];
    if p.maxIter > 0 && !p.need.maxAbs {
      LeastStays(step, p, Direct, z, 0, [m]);
      OnlyExtremes(step, p, z, 0, [m]);
    } else if p.maxIter > 0 {
      GreatestStays(step, p, Direct, z, 0, [m]);
      OnlyExtremes(step, p, z, 0, [m]);
    }
    MisjudgedRuns(step, p, z);
  }

  /** Without escape fields a result holds its extremes and nothing else. */
  lemma {:induction false} OnlyExtremes(step: StepFn, p: Params, z: Point, i: int, mags: seq<u64>)
    requires RendererMask(p.need) && !p.need.escaped
    ensures var r := RunFrom(step, p, Direct, z, i, mags);
            r == IterResult(0, false, None, r.minMag2, r.maxMag2) && r.minMag2.Some? == p.need.minAbs && r.maxMag2.Some? == p.need.maxAbs
    decreases p.maxIter - i
  {
    if i < p.maxIter {
      var n := Next(step, p.frac, z);
      OnlyExtremes(step, p, n, i + 1, mags + [Mag2(p.frac, n)]);
    }
  }

  /**
   The renderer's results equal the Direct results for every step function exactly when
   the start is not checked, is judged alike, or the misjudgement is hidden by an extreme.
   */
  lemma RendererAgreesIff(p: Params, z: Point)
    requires RendererMask(p.need) && p.frac <= 62
    ensures AgreesAt(p, z) <==> !StartMisjudged(p, z) || Hidden(p, z)
  {
    if !StartMisjudged(p, z) {
      forall step: StepFn
        ensures Run(step, p, p.gate, z) == Run(step, p, Direct, z)
      {
        StartDecides(step, p, z);
      }
    } else if Hidden(p, z) {
      forall step: StepFn
        ensures Run(step, p, p.gate, z) == Run(step, p, Direct, z)
      {
        HiddenAgrees(step, p, z);
      }
    } else {
      var step := MisjudgedShows(p, z);
    }
  }

  /** A Julia escape render: smooth mask, start checked. */
  predicate JuliaEscape(p: Params) {
    p.need == ESCAPE_SMOOTH && p.precheck && p.frac <= 62
  }

  ghost predicate AgreesEverywhere(p: Params) {
    forall z :: AgreesAt(p, z)
  }

  /** A Julia escape render agrees with Direct on all start points exactly when its gate is exact. */
  lemma JuliaAgreesIff(p: Params)
    requires JuliaEscape(p)
    ensures AgreesEverywhere(p) <==> GateExact(p)
  {
    forall z
      ensures AgreesAt(p, z) <==> GateFires(p, p.gate, z) == DirectFires(p, z)
    {
      RendererAgreesIff(p, z);
    }
    if AgreesEverywhere(p) {
      forall z
        ensures GateFires(p, p.gate, z) <==> DirectFires(p, z)
      {
        assert AgreesAt(p, z);
      }
    }
  }

  lemma L1JuliaExact(p: Params)
    requires JuliaEscape(p) && Q60(p)
    ensures AgreesEverywhere(p) <==> if p.bailout >= TWO_Q60 then p.bailout2 == FOUR_Q60 else NarrowWindow(p)
  {
    JuliaAgreesIff(p);
    L1Exact(p);
  }

  lemma ComponentJuliaExact(p: Params)
    requires JuliaEscape(p) && p.gate == Component
    ensures AgreesEverywhere(p) <==> p.bailout >= TWO_63 || SquareOf(p.frac, p.bailout + 1) > p.bailout2
  {
    JuliaAgreesIff(p);
    ComponentExact(p);
  }

  /** A Julia start at which the Q3.60 renderer and Direct differ, for any squared bailout other than 4.0. */
  lemma L1JuliaDiffers(p: Params) returns (z: Point, step: StepFn)
    requires JuliaEscape(p) && Q60(p) && p.bailout >= TWO_Q60 && p.bailout2 != FOUR_Q60
    ensures z == if p.bailout2 < FOUR_Q60 then Point(TWO_Q60, 0) else SHARP
    ensures Run(step, p, p.gate, z) != Run(step, p, Direct, z)
  {
    z := L1WrongElsewhere(p);
    step := MisjudgedShows(p, z);
  }

  /** Radius 1.0 with an independent squared radius of 9.0: Component stops a Julia orbit at once that Direct keeps. */
  lemma ComponentWithLooseSquare(p: Params) returns (z: Point, step: StepFn)
    requires JuliaEscape(p) && p.frac == 59 && p.gate == Component
    requires p.bailout == 0x0800_0000_0000_0000 && p.bailout2 == 9 * 0x0800_0000_0000_0000
    ensures z == Point(0x0800_0000_0000_0001, 1)
    ensures Run(step, p, p.gate, z) != Run(step, p, Direct, z)
  {
    z := Point(0x0800_0000_0000_0001, 1);
    Pow2Of60();
    assert Pow2(60) == 2 * Pow2(59);
    assert !DirectFires(p, z);
    step := MisjudgedShows(p, z);
  }

  // ---- Pixel coordinates ----------------------------------------------------

  /** The truncating quotient and remainder of the machine. */
  function TruncDiv(a: int, d: int): int
    requires d > 0
  {
    if a >= 0 then a / d else -(-a / d)
  }

  function TruncMod(a: int, d: int): int
    requires d > 0
  {
    a - TruncDiv(a, d) * d
  }

  /** The distance of pixel centre `k` of `n` from the first edge, computed without a wide product. */
  function PixelOffset(span: int, n: int, k: int): int
    requires n > 0
  {
    var denominator, factor := 2 * n, 2 * k + 1;
    TruncDiv(span, denominator) * factor + TruncDiv(TruncMod(span, denominator) * factor, denominator)
  }

  function PixelRe(center: int, span: int, width: int, x: int): int
    requires width > 0
  {
    center - TruncDiv(span, 2) + PixelOffset(span, width, x)
  }

  function PixelIm(center: int, span: int, height: int, y: int): int
    requires height > 0
  {
    center + TruncDiv(span, 2) - PixelOffset(span, height, y)
  }

  /** Splitting off the quotient first loses nothing: the offset is the full product divided once. */
  lemma PixelOffsetExact(span: int, n: int, k: nat)
    requires n > 0
    ensures PixelOffset(span, n, k) == TruncDiv(span * (2 * k + 1), 2 * n)
  {
    var d, f := 2 * n, 2 * k + 1;
    var s := if span >= 0 then span else -span;
    SplitQuotient(s, d, f);
    if span < 0 {
      NegatedOffset(s, d, f);
    }
  }

  /** Both sides of the exactness law change sign with the span. */
  lemma NegatedOffset(s: int, d: int, f: int)
    requires d > 0 && s > 0 && f > 0 && s % d == s - s / d * d
    requires s * f >= 0 && s % d * f >= 0
    ensures TruncMod(-s, d) == -(s % d)
    ensures TruncDiv(-s, d) * f == -(s / d * f)
    ensures TruncDiv(TruncMod(-s, d) * f, d) == -(s % d * f / d)
    ensures TruncDiv(-s * f, d) == -(s * f / d)
  {
    var q, r := s / d, s % d;
    assert TruncDiv(-s, d) == -q;
    assert -s * f == -(s * f) && -q * f == -(q * f) && -r * f == -(r * f) && -q * d == -(q * d);
    NegatedQuotient(s * f, d);
    NegatedQuotient(r * f, d);
  }

  lemma NegatedQuotient(a: int, d: int)
    requires d > 0 && a >= 0
    ensures TruncDiv(-a, d) == -(a / d)
  {
    if a == 0 {
      DivUnique(0, d, 0, 0);
    }
  }

  lemma SplitQuotient(s: nat, d: int, f: nat)
    requires d > 0
    ensures s % d == s - s / d * d
    ensures s * f >= 0 && s % d * f >= 0 && s / d * f + s % d * f / d == s * f / d
  {
    var q, r := s / d, s % d;
    assert s == d * q + r;
    var t := r * f;
    assert t == d * (t / d) + t % d;
    assert s * f == (q * f + t / d) * d + t % d by {
      assert s * f == (d * q) * f + t;
      assert (d * q) * f == (q * f) * d;
    }
    DivUnique(s * f, d, q * f + t / d, t % d);
  }

  /** Pixel centres run in order and stay within the span. */
  lemma PixelOffsetOrdered(span: nat, n: int, k: nat)
    requires k < n
    ensures 0 <= PixelOffset(span, n, k) <= span
    ensures PixelOffset(span, n, k) <= PixelOffset(span, n, k + 1)
  {
    PixelOffsetExact(span, n, k);
    PixelOffsetExact(span, n, k + 1);
    ScaledQuotients(span, 2 * n, 2 * k + 1, 2 * (k + 1) + 1);
  }

  /** The viewport's coordinates run left to right and top to bottom, inside the span around the centre. */
  lemma PixelCoordinatesOrdered(center: int, span: nat, n: int, k: nat)
    requires k < n
    ensures center - TruncDiv(span, 2) <= PixelRe(center, span, n, k) <= center - TruncDiv(span, 2) + span
    ensures center + TruncDiv(span, 2) - span <= PixelIm(center, span, n, k) <= center + TruncDiv(span, 2)
    ensures PixelRe(center, span, n, k) <= PixelRe(center, span, n, k + 1)
    ensures PixelIm(center, span, n, k + 1) <= PixelIm(center, span, n, k)
  {
    hide PixelOffset;
    PixelOffsetOrdered(span, n, k);
  }

  lemma ScaledQuotients(span: nat, d: int, f: nat, g: nat)
    requires d > 0 && f <= g
    ensures 0 <= TruncDiv(span * f, d) <= TruncDiv(span * g, d)
    ensures f <= d ==> TruncDiv(span * f, d) <= span
  {
    MulMonotone(span, span, f, g);
    DivMonotone(span * f, span * g, d);
    if f <= d {
      MulMonotone(span, span, f, d);
      DivMonotone(span * f, span * d, d);
      DivUnique(span * d, d, span, 0);
    }
  }

  /** With a span of twice the width, or of 1024 over 513 pixels, the offsets are the odd numbers and the middle. */
  lemma OddOffsets(k: nat)
    requires k < 512
    ensures PixelOffset(1024, 512, k) == 2 * k + 1 && PixelOffset(1024, 513, 256) == 512
  {
    PixelOffsetExact(1024, 512, k);
    DivUnique(1024 * (2 * k + 1), 1024, 2 * k + 1, 0);
    PixelOffsetExact(1024, 513, 256);
    DivUnique(1024 * 513, 1026, 512, 0);
  }

  /** The misjudged start points are pixels of viewports of 1024 units, 513 or 512 pixels wide and high. */
  lemma MisjudgedPixels()
    ensures PixelRe(TWO_Q60, 1024, 513, 256) == TWO_Q60 && PixelIm(0, 1024, 513, 256) == 0
    ensures PixelRe(0x16A0_9E66_7F3B_CC00, 1024, 512, 329) == SHARP.x
    ensures PixelIm(0x16A0_9E66_7F3B_CC00, 1024, 512, 184) == SHARP.y
    ensures PixelRe(0x0800_0000_0000_0000, 1024, 512, 256) == 0x0800_0000_0000_0001 && PixelIm(0, 1024, 512, 255) == 1
  {
    hide PixelOffset;
    OddOffsets(329);
    OddOffsets(184);
    OddOffsets(256);
    OddOffsets(255);
  }

  // ---- Pixel arithmetic in 64 bits ------------------------------------------------

  predicate FitsI64(v: int) {
    -TWO_63 <= v < TWO_63
  }

  /** Everything computed for the offset of pixel `k` of `n` stays within 64 bits. */
  predicate OffsetFits(span: int, n: int, k: int)
    requires n > 0
  {
    var denominator, factor := 2 * n, 2 * k + 1;
    && FitsI64(denominator) && FitsI64(factor)
    && FitsI64(TruncDiv(span, denominator) * factor) && FitsI64(TruncMod(span, denominator) * factor)
    && FitsI64(PixelOffset(span, n, k))
  }

  /** The widest image whose remainder products cannot overflow. */
  const WIDEST: int := 1_518_500_250

  lemma QuotientProduct(s: nat, d: int, f: nat)
    requires 0 < d && f <= d
    ensures 0 <= s / d * f <= s && 0 <= s % d * f <= (d - 1) * f
  {
    assert s == d * (s / d) + s % d;
    MulMonotone(s / d, s / d, f, d);
    MulMonotone(s % d, d - 1, f, f);
    MulMonotone(0, s / d, 0, f);
  }

  lemma OffsetProductsFit(span: int, n: int, k: nat)
    requires FitsI64(span) && 0 < n <= WIDEST && k < n
    ensures OffsetFits(span, n, k)
  {
    var d, f := 2 * n, 2 * k + 1;
    var s := if span >= 0 then span else -span;
    QuotientProduct(s, d, f);
    SplitQuotient(s, d, f);
    MulMonotone(d - 1, 2 * WIDEST - 1, f, 2 * WIDEST - 1);
    PixelOffsetExact(span, n, k);
    OffsetBound(s, d, f);
    if span < 0 {
      NegatedOffset(s, d, f);
    }
  }

  lemma OffsetBound(s: nat, d: int, f: nat)
    requires 0 < d && f <= d
    ensures 0 <= s * f / d <= s
  {
    MulMonotone(s, s, f, d);
    DivMonotone(s * f, s * d, d);
    DivUnique(s * d, d, s, 0);
  }

  /** No intermediate overflows, for any span and pixel, exactly up to a width of 1518500250. */
  lemma OffsetFitsIff(n: int)
    requires 0 < n < 0x8000_0000
    ensures (forall span, k: nat :: FitsI64(span) && k < n ==> OffsetFits(span, n, k)) <==> n <= WIDEST
  {
    if n <= WIDEST {
      forall span, k: nat | FitsI64(span) && k < n
        ensures OffsetFits(span, n, k)
      {
        OffsetProductsFit(span, n, k);
      }
    } else {
      var d := 2 * n;
      DivUnique(d - 1, d, 0, d - 1);
      MulMonotone(2 * WIDEST + 1, d - 1, 2 * WIDEST + 1, d - 1);
      assert !OffsetFits(d - 1, n, n - 1);
    }
  }

  /** With both edges of the viewport in range, so are the coordinates of every pixel. */
  lemma CoordinatesFit(center: int, span: nat, n: int, k: nat)
    requires FitsI64(span) && 0 < n <= WIDEST && k < n
    requires FitsI64(center - TruncDiv(span, 2)) && FitsI64(center - TruncDiv(span, 2) + span)
    requires FitsI64(center + TruncDiv(span, 2)) && FitsI64(center + TruncDiv(span, 2) - span)
    ensures OffsetFits(span, n, k) && FitsI64(PixelRe(center, span, n, k)) && FitsI64(PixelIm(center, span, n, k))
  {
    OffsetProductsFit(span, n, k);
    PixelCoordinatesOrdered(center, span, n, k);
  }
}
