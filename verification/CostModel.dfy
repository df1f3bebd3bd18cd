/**
 The profiled cost model: benchmark entries predict the time an engine needs, samples of
 the same size are merged by their sample counts, and the fastest predicted engine wins.
 Times and sizes are real numbers.
 */
module CostModel {
  import opened Arithmetic
  import opened Wrappers

  datatype Entry = Entry(family: string, workload: string, engine: string, scalar: string, workUnits: real,
                         elapsedMs: real, sampleCount: int, mpixPerSec: real, available: bool)

  datatype CostPoint = CostPoint(work: real, elapsed: real, samples: int)

  /** Whose cost is asked for. */
  datatype Profile = Profile(family: string, scalar: string, engine: string)

  const FLOOR: real := 0.001

  function Max(a: real, b: real): real {
    if a >= b then a else b
  }

  predicate Sample(p: CostPoint) {
    p.work > 0.0 && p.elapsed > 0.0 && p.samples >= 1
  }

  predicate Samples(points: seq<CostPoint>) {
    forall i :: 0 <= i < |points| ==> Sample(points[i])
  }

  predicate Increasing(points: seq<CostPoint>) {
    forall i, j :: 0 <= i < j < |points| ==> points[i].work < points[j].work
  }

  // ---- Interpolation --------------------------------------------------------------------

  function Slope(a: CostPoint, b: CostPoint): real
    requires b.work > a.work
  {
    Max(0.0, (b.elapsed - a.elapsed) / (b.work - a.work))
  }

  function Interpolate(a: CostPoint, b: CostPoint, target: real): real {
    if !(b.work - a.work > 0.0) then Max(FLOOR, a.elapsed)
    else Max(FLOOR, a.elapsed + (target - a.work) * Slope(a, b))
  }

  /** The first point at or past the target, from point `i` on. */
  function Bracket(points: seq<CostPoint>, target: real, i: nat): (r: nat)
    requires i <= |points|
    ensures i <= r <= |points|
    ensures r < |points| ==> target <= points[r].work
    ensures forall k :: i <= k < r ==> points[k].work < target
    decreases |points| - i
  {
    if i < |points| && points[i].work < target then Bracket(points, target, i + 1) else i
  }

  function InProportion(p: CostPoint, target: real): real
    requires p.work > 0.0
  {
    p.elapsed * target / p.work
  }

  /** The prediction from strictly increasing sizes. */
  function Curve(points: seq<CostPoint>, target: real): real
    requires points != [] && Samples(points)
  {
    if |points| == 1 then
      if target <= 0.0 then points[0].elapsed
      else Max(FLOOR, InProportion(points[0], target))
    else
      var b := Bracket(points, target, 0);
      var i := if b == 0 then 1 else if b == |points| then |points| - 1 else b;
      Interpolate(points[i - 1], points[i], target)
  }

  lemma SlopeTimesSpan(a: CostPoint, b: CostPoint)
    requires b.work > a.work
    ensures Slope(a, b) >= 0.0
    ensures (b.work - a.work) * Slope(a, b) == Max(0.0, b.elapsed - a.elapsed)
  {
    var span, rise := b.work - a.work, b.elapsed - a.elapsed;
    var q := rise / span;
    assert q * span == rise;
    if rise >= 0.0 {
      RealDivMonotone(0.0, rise, span);
    } else {
      RealDivMonotone(rise, 0.0, span);
    }
  }

  /** An interpolated time grows with the target and meets both ends. */
  lemma InterpolateShape(a: CostPoint, b: CostPoint, t: real, u: real)
    requires b.work > a.work && t <= u
    ensures Interpolate(a, b, t) <= Interpolate(a, b, u)
    ensures Interpolate(a, b, a.work) == Max(FLOOR, a.elapsed)
    ensures Interpolate(a, b, b.work) == Max(FLOOR, Max(a.elapsed, b.elapsed))
  {
    hide Slope;
    SlopeTimesSpan(a, b);
    RealMonotone(t - a.work, u - a.work, Slope(a, b));
    assert (a.work - a.work) * Slope(a, b) == 0.0;
  }

  lemma CurveAt(points: seq<CostPoint>, target: real, i: nat)
    requires Samples(points) && Increasing(points) && 0 < i < |points|
    requires i == 1 || points[i - 1].work < target
    requires i == |points| - 1 || target <= points[i].work
    ensures Curve(points, target) == Interpolate(points[i - 1], points[i], target)
  {
    var b := Bracket(points, target, 0);
    assert forall k :: 0 <= k < i - 1 ==> points[k].work < points[i - 1].work;
  }

  /**
   Between two measurements of growing time, and beyond the outer ones, the curve is the
   straight line through both; where the time falls it stays level at the first one.
   Nothing is predicted below a microsecond.
   */
  lemma CurveIsLine(points: seq<CostPoint>, target: real, i: nat)
    requires Samples(points) && Increasing(points) && 0 < i < |points|
    requires i == 1 || points[i - 1].work < target
    requires i == |points| - 1 || target <= points[i].work
    ensures var a, b := points[i - 1], points[i];
            var span := b.work - a.work;
            if a.elapsed <= b.elapsed
            then Curve(points, target) * span ==
                 Max(0.001 * span, a.elapsed * (b.work - target) + b.elapsed * (target - a.work))
            else Curve(points, target) == Max(0.001, a.elapsed)
  {
    hide Curve, Interpolate;
    CurveAt(points, target, i);
    InterpolateLine(points[i - 1], points[i], target);
  }

  lemma InterpolateLine(a: CostPoint, b: CostPoint, target: real)
    requires a.work < b.work
    ensures var span := b.work - a.work;
            if a.elapsed <= b.elapsed
            then Interpolate(a, b, target) * span ==
                 Max(0.001 * span, a.elapsed * (b.work - target) + b.elapsed * (target - a.work))
            else Interpolate(a, b, target) == Max(0.001, a.elapsed)
  {
    hide Slope;
    SlopeTimesSpan(a, b);
    LineTimesSpan(a.elapsed, b.elapsed, a.work, b.work, target, Slope(a, b));
    if a.elapsed <= b.elapsed {
      MaxTimes(FLOOR, a.elapsed + (target - a.work) * Slope(a, b), b.work - a.work);
    }
  }

  /** A line through two points, its slope multiplied out. */
  lemma LineTimesSpan(e: real, f: real, w: real, v: real, target: real, slope: real)
    requires w < v && slope >= 0.0 && (v - w) * slope == Max(0.0, f - e)
    ensures e <= f ==> (e + (target - w) * slope) * (v - w) == e * (v - target) + f * (target - w)
    ensures e > f ==> (target - w) * slope == 0.0
  {
    var x, span := target - w, v - w;
    if e <= f {
      assert x * slope * span == x * (span * slope);
      assert x * (f - e) == x * f - x * e;
      assert e * span == e * (v - target) + e * x;
    } else {
      assert slope == span * slope / span;
    }
  }

  lemma MaxTimes(a: real, b: real, c: real)
    requires c > 0.0
    ensures Max(a, b) * c == Max(a * c, b * c)
  {
    if a >= b {
      RealMonotone(b, a, c);
    } else {
      RealMonotone(a, b, c);
    }
  }

  /** A single measurement predicts in proportion to the size. */
  lemma SingleIsProportional(p: CostPoint, target: real)
    requires Sample(p) && target > 0.0
    ensures Curve([p], target) * p.work == Max(0.001 * p.work, p.elapsed * target)
  {
    assert InProportion(p, target) * p.work == p.elapsed * target;
    MaxTimes(FLOOR, InProportion(p, target), p.work);
  }

  /** What the curve predicts at a measured size. */
  lemma CurveAtPoint(points: seq<CostPoint>, i: nat)
    requires Samples(points) && Increasing(points) && i < |points| && |points| > 1
    ensures Curve(points, points[i].work) ==
            if i == 0 then Max(FLOOR, points[0].elapsed) else Max(FLOOR, Max(points[i - 1].elapsed, points[i].elapsed))
  {
    var k := if i == 0 then 1 else i;
    CurveAt(points, points[i].work, k);
    InterpolateShape(points[k - 1], points[k], 0.0, 0.0);
  }

  predicate TimesGrow(points: seq<CostPoint>) {
    forall i :: 0 < i < |points| ==> points[i - 1].elapsed <= points[i].elapsed
  }

  /** The curve meets every measurement. */
  predicate Exact(points: seq<CostPoint>)
    requires points != [] && Samples(points)
  {
    forall i :: 0 <= i < |points| ==> Curve(points, points[i].work) == points[i].elapsed
  }

  /** Times that never fall and are at least a microsecond are met exactly, and no others are. */
  lemma ExactIff(points: seq<CostPoint>)
    requires Samples(points) && Increasing(points) && |points| > 1
    ensures Exact(points) <==> TimesGrow(points) && points[0].elapsed >= FLOOR
  {
    hide Curve;
    if TimesGrow(points) && points[0].elapsed >= FLOOR {
      forall i | 0 <= i < |points|
        ensures Curve(points, points[i].work) == points[i].elapsed
      {
        CurveAtPoint(points, i);
        TimesFrom(points, i);
      }
    }
    if Exact(points) {
      CurveAtPoint(points, 0);
      forall i | 0 < i < |points|
        ensures points[i - 1].elapsed <= points[i].elapsed
      {
        CurveAtPoint(points, i);
      }
    }
  }

  lemma {:induction false} TimesFrom(points: seq<CostPoint>, i: nat)
    requires TimesGrow(points) && i < |points|
    ensures points[0].elapsed <= points[i].elapsed
  {
    if i > 0 {
      TimesFrom(points, i - 1);
    }
  }

  /** A larger render is never predicted to finish sooner, down to one of no size. */
  ghost predicate Monotone(points: seq<CostPoint>)
    requires points != [] && Samples(points)
  {
    forall t, u :: 0.0 <= t <= u ==> Curve(points, t) <= Curve(points, u)
  }

  /** At point `i` the measured time falls, from above the least predicted time. */
  predicate Dips(points: seq<CostPoint>, i: nat)
    requires 0 < i < |points|
  {
    points[i].elapsed < points[i - 1].elapsed && points[i - 1].elapsed > FLOOR
  }

  lemma {:induction false} NoDipsBetween(points: seq<CostPoint>, a: nat, b: nat)
    requires a <= b < |points| && forall i :: a < i <= b ==> !Dips(points, i)
    ensures Max(FLOOR, points[a].elapsed) <= Max(FLOOR, points[b].elapsed)
  {
    if a < b {
      NoDipsBetween(points, a, b - 1);
      assert !Dips(points, b);
    }
  }

  /** The interval a target is predicted from. */
  function Interval(points: seq<CostPoint>, target: real): (i: nat)
    requires Samples(points) && Increasing(points) && |points| > 1
    ensures 0 < i < |points|
    ensures i == 1 || points[i - 1].work < target
    ensures i == |points| - 1 || target <= points[i].work
  {
    var b := Bracket(points, target, 0);
    if b == 0 then 1 else if b == |points| then |points| - 1 else b
  }

  lemma NoDipsMonotone(points: seq<CostPoint>, t: real, u: real)
    requires Samples(points) && Increasing(points) && |points| > 1 && t <= u
    requires forall i :: 0 < i < |points| - 1 ==> !Dips(points, i)
    ensures Curve(points, t) <= Curve(points, u)
  {
    var a, b := Interval(points, t), Interval(points, u);
    assert forall i, j :: 0 <= i <= j < |points| ==> points[i].work <= points[j].work;
    hide Curve, Interpolate;
    CurveAt(points, t, a);
    CurveAt(points, u, b);
    if a == b {
      InterpolateShape(points[a - 1], points[a], t, u);
    } else if a < b {
      InterpolateShape(points[a - 1], points[a], t, points[a].work);
      InterpolateShape(points[b - 1], points[b], points[b - 1].work, u);
      assert !Dips(points, a);
      NoDipsBetween(points, a, b - 1);
    }
  }

  /** A line rising from below `top` is still below it a little further on. */
  lemma StillBelow(bottom: real, top: real, slope: real, span: real) returns (step: real)
    requires bottom < top && slope >= 0.0 && span > 0.0
    ensures 0.0 < step <= span && bottom + step * slope < top
  {
    var room := top - bottom;
    if span * slope < room {
      step := span;
    } else {
      step := room / (2.0 * slope);
      assert step * (2.0 * slope) == room;
      assert step * slope == room / 2.0;
      if step > span {
        RealMonotone(span, step, slope);
      }
    }
  }

  /** Just past a dip the prediction is below the one at the dip. */
  lemma DipFalls(points: seq<CostPoint>, i: nat) returns (u: real)
    requires Samples(points) && Increasing(points) && 0 < i < |points| - 1 && Dips(points, i)
    ensures points[i].work < u && Curve(points, u) < Curve(points, points[i].work)
  {
    var p, q := points[i], points[i + 1];
    hide Slope, Curve;
    SlopeTimesSpan(p, q);
    var step := StillBelow(p.elapsed, points[i - 1].elapsed, Slope(p, q), q.work - p.work);
    u := p.work + step;
    assert u - p.work == step;
    CurveAtPoint(points, i);
    CurveAt(points, u, i + 1);
  }

  lemma SampleAt(points: seq<CostPoint>, i: nat)
    requires Samples(points) && i < |points|
    ensures Sample(points[i])
  {
  }

  lemma RealDivStrict(a: real, b: real, c: real)
    requires a < b && c > 0.0
    ensures a / c < b / c
  {
  }

  lemma RealMulStrict(a: real, b: real, c: real)
    requires a < b && c > 0.0
    ensures c * a < c * b
  {
  }

  lemma ProportionShape(p: CostPoint, t: real, u: real)
    requires Sample(p) && t <= u
    ensures InProportion(p, t) <= InProportion(p, u)
    ensures t < u ==> InProportion(p, t) < InProportion(p, u)
  {
    if t < u {
      RealMulStrict(t, u, p.elapsed);
      RealDivStrict(p.elapsed * t, p.elapsed * u, p.work);
    }
  }

  lemma ProportionAtPoint(p: CostPoint)
    requires Sample(p)
    ensures InProportion(p, p.work) == p.elapsed
  {
  }

  /**
   One point predicts in proportion for positive targets. For no size it predicts more than
   for a positive one exactly when its time is above the least and the size is below its own.
   */
  lemma SinglePoint(p: CostPoint, t: real, u: real)
    requires Sample(p) && 0.0 < t <= u
    ensures Curve([p], t) <= Curve([p], u)
    ensures Curve([p], p.work) == Max(FLOOR, p.elapsed)
    ensures Curve([p], 0.0) > Curve([p], t) <==> p.elapsed > FLOOR && t < p.work
  {
    hide InProportion;
    ProportionShape(p, t, u);
    ProportionAtPoint(p);
    if t < p.work {
      ProportionShape(p, t, p.work);
    } else {
      ProportionShape(p, p.work, t);
    }
  }

  lemma SinglePointMonotone(p: CostPoint)
    requires Sample(p)
    ensures Monotone([p]) <==> p.elapsed <= FLOOR
  {
    hide InProportion;
    if p.elapsed <= FLOOR {
      forall t, u | 0.0 <= t <= u
        ensures Curve([p], t) <= Curve([p], u)
      {
        if t > 0.0 {
          SinglePoint(p, t, u);
        }
      }
    } else {
      var half := p.work / 2.0;
      SinglePoint(p, half, half);
      assert 0.0 <= half && Curve([p], 0.0) > Curve([p], half);
    }
  }

  /**
   The prediction never falls exactly when no measurement but the first and last dips, or,
   for a single measurement, when its time is not above the least predicted one.
   */
  lemma MonotoneIff(points: seq<CostPoint>)
    requires Samples(points) && Increasing(points) && points != []
    ensures Monotone(points) <==>
              if |points| == 1 then points[0].elapsed <= FLOOR
              else forall i :: 0 < i < |points| - 1 ==> !Dips(points, i)
  {
    hide Curve, Increasing;
    if |points| == 1 {
      assert points == [points[0]];
      SinglePointMonotone(points[0]);
    } else if forall i :: 0 < i < |points| - 1 ==> !Dips(points, i) {
      forall t, u | 0.0 <= t <= u
        ensures Curve(points, t) <= Curve(points, u)
      {
        NoDipsMonotone(points, t, u);
      }
    } else {
      var i :| 0 < i < |points| - 1 && Dips(points, i);
      var u := DipFalls(points, i);
      SampleAt(points, i);
      assert Curve(points, points[i].work) > Curve(points, u);
    }
  }

  // ---- Merging samples of one size --------------------------------------------------------

  function Weighted(p: CostPoint): real {
    p.elapsed * p.samples as real
  }

  function TotalSamples(raw: seq<CostPoint>, w: real): int {
    if raw == [] then 0
    else
      var p := raw[|raw| - 1];
      TotalSamples(raw[..|raw| - 1], w) + (if p.work == w then p.samples else 0)
  }

  function TotalTime(raw: seq<CostPoint>, w: real): real {
    if raw == [] then 0.0
    else
      var p := raw[|raw| - 1];
      TotalTime(raw[..|raw| - 1], w) + (if p.work == w then Weighted(p) else 0.0)
  }

  predicate HasWork(points: seq<CostPoint>, w: real) {
    exists i :: 0 <= i < |points| && points[i].work == w
  }

  /** One point per measured size, holding all its samples and all its sample-weighted time. */
  ghost predicate Coalesces(raw: seq<CostPoint>, points: seq<CostPoint>) {
    && Samples(points) && Increasing(points)
    && (forall w :: HasWork(points, w) <==> HasWork(raw, w))
    && (forall i :: 0 <= i < |points| ==>
          points[i].samples == TotalSamples(raw, points[i].work) && Weighted(points[i]) == TotalTime(raw, points[i].work))
  }

  lemma TotalsAppend(raw: seq<CostPoint>, p: CostPoint, w: real)
    ensures TotalSamples(raw + [p], w) == TotalSamples(raw, w) + (if p.work == w then p.samples else 0)
    ensures TotalTime(raw + [p], w) == TotalTime(raw, w) + (if p.work == w then Weighted(p) else 0.0)
    ensures HasWork(raw + [p], w) <==> HasWork(raw, w) || p.work == w
  {
    assert (raw + [p])[..|raw|] == raw;
    if HasWork(raw, w) {
      var i :| 0 <= i < |raw| && raw[i].work == w;
      assert (raw + [p])[i].work == w;
    }
    if p.work == w {
      assert (raw + [p])[|raw|].work == w;
    }
  }

  lemma {:induction false} TotalsConcat(a: seq<CostPoint>, b: seq<CostPoint>, w: real)
    ensures TotalSamples(a + b, w) == TotalSamples(a, w) + TotalSamples(b, w)
    ensures TotalTime(a + b, w) == TotalTime(a, w) + TotalTime(b, w)
  {
    if b == [] {
      assert a + b == a;
    } else {
      var c, p := b[..|b| - 1], b[|b| - 1];
      assert a + b == (a + c) + [p] && b == c + [p];
      TotalsConcat(a, c, w);
      TotalsAppend(a + c, p, w);
      TotalsAppend(c, p, w);
    }
  }

  /** The last element of a sequence is found in every permutation of it. */
  lemma FindIn<T>(a: seq<T>, b: seq<T>) returns (j: nat)
    requires a != [] && multiset(a) == multiset(b)
    ensures j < |b| && b[j] == a[|a| - 1]
    ensures b == b[..j] + [b[j]] + b[j + 1..]
    ensures multiset(a[..|a| - 1]) == multiset(b[..j] + b[j + 1..])
  {
    var n := |a| - 1;
    assert a == a[..n] + [a[n]];
    assert a[n] in multiset(b);
    j :| 0 <= j < |b| && b[j] == a[n];
    assert b == b[..j] + [b[j]] + b[j + 1..];
    var one, rest, others := multiset{a[n]}, multiset(a[..n]), multiset(b[..j] + b[j + 1..]);
    assert rest + one == multiset(a) == multiset(b) == others + one;
    assert rest == rest + one - one && others == others + one - one;
  }

  lemma {:induction false} TotalsPermute(a: seq<CostPoint>, b: seq<CostPoint>, w: real)
    requires multiset(a) == multiset(b)
    ensures TotalSamples(a, w) == TotalSamples(b, w) && TotalTime(a, w) == TotalTime(b, w)
  {
    if a == [] {
      assert |multiset(b)| == 0;
    } else {
      var n := |a| - 1;
      var j := FindIn(a, b);
      TotalsPermute(a[..n], b[..j] + b[j + 1..], w);
      TotalsConcat(b[..j], b[j + 1..], w);
      TotalsConcat(b[..j] + [b[j]], b[j + 1..], w);
      TotalsAppend(b[..j], b[j], w);
    }
  }

  lemma HasWorkPermute(a: seq<CostPoint>, b: seq<CostPoint>, w: real)
    requires multiset(a) == multiset(b) && HasWork(a, w)
    ensures HasWork(b, w)
  {
    var i :| 0 <= i < |a| && a[i].work == w;
    assert a[i] in multiset(b);
    var j :| 0 <= j < |b| && b[j] == a[i];
  }

  /** The order of the samples does not matter. */
  lemma CoalescesPermute(a: seq<CostPoint>, b: seq<CostPoint>, points: seq<CostPoint>)
    requires Coalesces(a, points) && multiset(a) == multiset(b)
    ensures Coalesces(b, points)
  {
    hide HasWork, Weighted, TotalSamples, TotalTime;
    forall w
      ensures HasWork(a, w) <==> HasWork(b, w)
    {
      if HasWork(a, w) {
        HasWorkPermute(a, b, w);
      }
      if HasWork(b, w) {
        HasWorkPermute(b, a, w);
      }
    }
    forall i | 0 <= i < |points|
      ensures points[i].samples == TotalSamples(b, points[i].work) && Weighted(points[i]) == TotalTime(b, points[i].work)
    {
      TotalsPermute(a, b, points[i].work);
    }
  }

  lemma SameTime(a: CostPoint, b: CostPoint)
    requires Sample(a) && a.work == b.work && a.samples == b.samples && Weighted(a) == Weighted(b)
    ensures a == b
  {
    var n := a.samples as real;
    assert (a.elapsed - b.elapsed) * n == 0.0;
  }

  /** Increasing sequences over the same sizes are position-wise of the same sizes. */
  lemma {:induction false} SameWorks(a: seq<CostPoint>, b: seq<CostPoint>)
    requires Increasing(a) && Increasing(b) && forall w :: HasWork(a, w) <==> HasWork(b, w)
    ensures |a| == |b| && forall i :: 0 <= i < |a| ==> a[i].work == b[i].work
  {
    if a == [] {
      if b != [] {
        assert HasWork(b, b[0].work);
      }
    } else {
      var m, n := |a| - 1, |b| - 1;
      assert HasWork(a, a[m].work);
      assert n >= 0;
      assert HasWork(b, b[n].work);
      assert a[m].work == b[n].work;
      forall w
        ensures HasWork(a[..m], w) <==> HasWork(b[..n], w)
      {
        DropLast(a, w);
        DropLast(b, w);
      }
      SameWorks(a[..m], b[..n]);
    }
  }

  lemma DropLast(a: seq<CostPoint>, w: real)
    requires Increasing(a) && a != []
    ensures HasWork(a[..|a| - 1], w) <==> HasWork(a, w) && w != a[|a| - 1].work
  {
    var n := |a| - 1;
    if HasWork(a, w) && w != a[n].work {
      var i :| 0 <= i < |a| && a[i].work == w;
      assert a[..n][i].work == w;
    }
    if HasWork(a[..n], w) {
      var i :| 0 <= i < n && a[..n][i].work == w;
      assert a[i].work == w;
    }
  }

  /** Samples merge into points in only one way. */
  lemma CoalescedUnique(raw: seq<CostPoint>, a: seq<CostPoint>, b: seq<CostPoint>)
    requires Coalesces(raw, a) && Coalesces(raw, b)
    ensures a == b
  {
    hide HasWork, Weighted, TotalSamples, TotalTime;
    SameWorks(a, b);
    forall i | 0 <= i < |a|
      ensures a[i] == b[i]
    {
      SameTime(a[i], b[i]);
    }
  }

  function Merge(a: CostPoint, p: CostPoint): CostPoint
    requires a.samples > 0 && p.samples > 0
  {
    var total := a.samples + p.samples;
    CostPoint(a.work, (a.elapsed * a.samples as real + p.elapsed * p.samples as real) / total as real, total)
  }

  lemma MergeKeeps(a: CostPoint, p: CostPoint)
    requires Sample(a) && Sample(p)
    ensures Sample(Merge(a, p)) && Weighted(Merge(a, p)) == Weighted(a) + Weighted(p)
  {
    var time, total := Weighted(a) + Weighted(p), (a.samples + p.samples) as real;
    assert Merge(a, p).elapsed == time / total;
    assert time / total * total == time;
    assert Weighted(a) > 0.0 && Weighted(p) > 0.0;
  }

  lemma {:induction false} NoTotals(raw: seq<CostPoint>, w: real)
    requires !HasWork(raw, w)
    ensures TotalSamples(raw, w) == 0 && TotalTime(raw, w) == 0.0
  {
    if raw != [] {
      var n := |raw| - 1;
      assert raw[n].work != w;
      forall i | 0 <= i < n
        ensures raw[..n][i].work != w
      {
        assert raw[i].work != w;
      }
      NoTotals(raw[..n], w);
    }
  }

  /** A sample of a size past all points starts a new point. */
  lemma NewPoint(raw: seq<CostPoint>, points: seq<CostPoint>, p: CostPoint)
    requires Coalesces(raw, points) && Sample(p)
    requires points == [] || points[|points| - 1].work < p.work
    ensures Coalesces(raw + [p], points + [p])
  {
    hide TotalSamples, TotalTime, Weighted, HasWork;
    forall w
      ensures HasWork(points + [p], w) <==> HasWork(raw + [p], w)
    {
      TotalsAppend(raw, p, w);
      TotalsAppend(points, p, w);
    }
    PastAll(points, p.work);
    NoTotals(raw, p.work);
    forall i | 0 <= i < |points| + 1
      ensures var q := (points + [p])[i];
              q.samples == TotalSamples(raw + [p], q.work) && Weighted(q) == TotalTime(raw + [p], q.work)
    {
      TotalsAppend(raw, p, (points + [p])[i].work);
    }
  }

  lemma PastAll(points: seq<CostPoint>, w: real)
    requires Increasing(points) && (points == [] || points[|points| - 1].work < w)
    ensures !HasWork(points, w)
  {
  }

  /** A sample of the last point's size joins it. */
  lemma JoinPoint(raw: seq<CostPoint>, points: seq<CostPoint>, p: CostPoint)
    requires Coalesces(raw, points) && Sample(p) && points != [] && points[|points| - 1].work == p.work
    ensures Coalesces(raw + [p], points[..|points| - 1] + [Merge(points[|points| - 1], p)])
  {
    hide TotalSamples, TotalTime, Weighted, HasWork, Merge;
    var n := |points| - 1;
    var merged := Merge(points[n], p);
    MergedWork(points[n], p);
    MergeKeeps(points[n], p);
    var after := points[..n] + [merged];
    forall w
      ensures HasWork(after, w) <==> HasWork(raw + [p], w)
    {
      TotalsAppend(raw, p, w);
      SameSizes(points, after, w);
      SameSizes(after, points, w);
      LastSize(points);
    }
    forall i | 0 <= i < |after|
      ensures after[i].samples == TotalSamples(raw + [p], after[i].work) &&
              Weighted(after[i]) == TotalTime(raw + [p], after[i].work)
    {
      TotalsAppend(raw, p, after[i].work);
    }
  }

  /** Two samples of one size become their mean, weighted by the sample counts; of two sizes, both remain. */
  lemma TwoSamples(p: CostPoint, q: CostPoint, points: seq<CostPoint>)
    requires Sample(p) && Sample(q) && Coalesces([p, q], points)
    ensures p.work == q.work ==>
              && |points| == 1 && points[0].work == p.work && points[0].samples == p.samples + q.samples
              && points[0].elapsed * (p.samples + q.samples) as real ==
                 p.elapsed * p.samples as real + q.elapsed * q.samples as real
    ensures p.work < q.work ==> points == [p, q]
  {
    hide Coalesces;
    Nothing();
    NewPoint([], [], p);
    assert [] + [p] == [p] && [p] + [q] == [p, q];
    if p.work == q.work {
      JoinPoint([p], [p], q);
      assert [p][..0] + [Merge(p, q)] == [Merge(p, q)];
      CoalescedUnique([p, q], points, [Merge(p, q)]);
      MergeKeeps(p, q);
    } else if p.work < q.work {
      NewPoint([p], [p], q);
      CoalescedUnique([p, q], points, [p, q]);
    }
  }

  lemma MergedWork(a: CostPoint, p: CostPoint)
    requires Sample(a) && Sample(p)
    ensures Merge(a, p).work == a.work && Merge(a, p).samples == a.samples + p.samples
  {
  }

  lemma SameSizes(a: seq<CostPoint>, b: seq<CostPoint>, w: real)
    requires |a| == |b| && forall i :: 0 <= i < |a| ==> a[i].work == b[i].work
    ensures HasWork(a, w) ==> HasWork(b, w)
  {
  }

  lemma LastSize(points: seq<CostPoint>)
    requires points != []
    ensures HasWork(points, points[|points| - 1].work)
  {
  }

  predicate Sorted(points: seq<CostPoint>) {
    forall i, j :: 0 <= i < j < |points| ==> points[i].work <= points[j].work
  }

  lemma InsertKeepsSorted(points: seq<CostPoint>, k: nat, p: CostPoint)
    requires Sorted(points) && k <= |points|
    requires k > 0 ==> points[k - 1].work <= p.work
    requires forall j :: k <= j < |points| ==> p.work < points[j].work
    ensures Sorted(points[..k] + [p] + points[k..])
  {
    var after := points[..k] + [p] + points[k..];
    forall i, j | 0 <= i < j < |after|
      ensures after[i].work <= after[j].work
    {
      assert i < k ==> points[i].work <= points[k - 1].work;
    }
  }

  lemma InsertCounts<T>(points: seq<T>, k: nat, p: T)
    requires k <= |points|
    ensures multiset(points[..k] + [p] + points[k..]) == multiset(points) + multiset{p}
  {
    assert points == points[..k] + points[k..];
  }

  /** Sorting by size leaves samples of one size in any order. */
  method SortByWork(points: seq<CostPoint>) returns (sorted: seq<CostPoint>)
    ensures Sorted(sorted) && multiset(sorted) == multiset(points)
  {
    sorted := [];
    for i := 0 to |points|
      invariant Sorted(sorted) && multiset(sorted) == multiset(points[..i])
    {
      var p, k := points[i], |sorted|;
      while k > 0 && sorted[k - 1].work > p.work
        invariant 0 <= k <= |sorted|
        invariant forall j :: k <= j < |sorted| ==> p.work < sorted[j].work
      {
        k := k - 1;
      }
      assert points[..i + 1] == points[..i] + [p];
      InsertKeepsSorted(sorted, k, p);
      InsertCounts(sorted, k, p);
      sorted := sorted[..k] + [p] + sorted[k..];
    }
    assert points[..|points|] == points;
  }

  /** Merging neighbours of equal size in a sorted list. */
  method CoalesceSorted(raw: seq<CostPoint>) returns (points: seq<CostPoint>)
    requires Samples(raw) && Sorted(raw)
    ensures Coalesces(raw, points)
  {
    hide Coalesces, Merge, Sorted;
    points := [];
    Nothing();
    for i := 0 to |raw|
      invariant Coalesces(raw[..i], points)
      invariant points != [] ==> i > 0 && points[|points| - 1].work == raw[i - 1].work
      invariant points == [] ==> i == 0
    {
      var point := raw[i];
      assert raw[..i + 1] == raw[..i] + [point];
      CoalescedSamples(raw[..i], points);
      if points == [] || points[|points| - 1].work != point.work {
        SortedNext(raw, i);
        NewPoint(raw[..i], points, point);
        points := points + [point];
      } else {
        JoinPoint(raw[..i], points, point);
        MergedWork(points[|points| - 1], point);
        points := points[..|points| - 1] + [Merge(points[|points| - 1], point)];
      }
    }
    assert raw[..|raw|] == raw;
  }

  lemma Nothing()
    ensures Coalesces([], [])
  {
  }

  lemma CoalescedSamples(raw: seq<CostPoint>, points: seq<CostPoint>)
    requires Coalesces(raw, points)
    ensures Samples(points) && Increasing(points)
  {
  }

  lemma SortedNext(raw: seq<CostPoint>, i: nat)
    requires Sorted(raw) && i < |raw|
    ensures i > 0 ==> raw[i - 1].work <= raw[i].work
  {
  }

  // ---- Predicting from the benchmark table ----------------------------------------------------

  predicate Matches(e: Entry, q: Profile) {
    e.available && e.family == q.family && e.scalar == q.scalar && e.engine == q.engine
  }

  predicate Measured(e: Entry, q: Profile) {
    Matches(e, q) && e.workUnits > 0.0 && e.elapsedMs > 0.0
  }

  function PointOf(e: Entry): CostPoint {
    CostPoint(e.workUnits, e.elapsedMs, if e.sampleCount < 1 then 1 else e.sampleCount)
  }

  function RawPoints(entries: seq<Entry>, q: Profile): (r: seq<CostPoint>)
    ensures Samples(r)
  {
    if entries == [] then []
    else
      var e := entries[|entries| - 1];
      RawPoints(entries[..|entries| - 1], q) + (if Measured(e, q) then [PointOf(e)] else [])
  }

  /** `speed` is the highest positive throughput of the matching entries, or zero. */
  predicate FastestOf(entries: seq<Entry>, q: Profile, speed: real) {
    && speed >= 0.0
    && (forall i :: 0 <= i < |entries| && Matches(entries[i], q) ==> entries[i].mpixPerSec <= speed)
    && (speed > 0.0 ==> exists i :: 0 <= i < |entries| && Matches(entries[i], q) && entries[i].mpixPerSec == speed)
  }

  /** The time read off the coalesced samples. */
  ghost predicate ReadOff(raw: seq<CostPoint>, points: seq<CostPoint>, work: real, r: Option<real>) {
    points != [] && Coalesces(raw, points) && r == Some(Curve(points, Max(0.0, work)))
  }

  predicate FromThroughput(speed: real, work: real, r: Option<real>) {
    r == if speed > 0.0 then Some(Max(1.0, work) / speed) else None
  }

  /** Measured samples decide the prediction, then throughputs, and without either there is none. */
  ghost predicate Predicts(entries: seq<Entry>, q: Profile, work: real, r: Option<real>) {
    var raw := RawPoints(entries, q);
    if raw != [] then
      exists points :: ReadOff(raw, points, work, r)
    else
      exists speed :: FastestOf(entries, q, speed) && FromThroughput(speed, work, r)
  }

  lemma {:induction false} RawConcat(a: seq<Entry>, b: seq<Entry>, q: Profile)
    ensures RawPoints(a + b, q) == RawPoints(a, q) + RawPoints(b, q)
  {
    if b == [] {
      assert a + b == a;
    } else {
      var n := |b| - 1;
      assert (a + b)[..|a + b| - 1] == a + b[..n];
      RawConcat(a, b[..n], q);
    }
  }

  lemma {:induction false} RawPermute(a: seq<Entry>, b: seq<Entry>, q: Profile)
    requires multiset(a) == multiset(b)
    ensures multiset(RawPoints(a, q)) == multiset(RawPoints(b, q))
  {
    if a == [] {
      assert |multiset(b)| == 0;
    } else {
      var n := |a| - 1;
      var j := FindIn(a, b);
      var one := [b[j]];
      RawPermute(a[..n], b[..j] + b[j + 1..], q);
      RawConcat(b[..j], b[j + 1..], q);
      RawConcat(b[..j] + one, b[j + 1..], q);
      RawConcat(b[..j], one, q);
      RawConcat(a[..n], one, q);
      assert a == a[..n] + one;
    }
  }

  lemma FastestPermute(a: seq<Entry>, b: seq<Entry>, q: Profile, x: real, y: real)
    requires multiset(a) == multiset(b) && FastestOf(a, q, x) && FastestOf(b, q, y)
    ensures x <= y
  {
    if x > 0.0 {
      var i :| 0 <= i < |a| && Matches(a[i], q) && a[i].mpixPerSec == x;
      assert a[i] in multiset(b);
      var j :| 0 <= j < |b| && b[j] == a[i];
    }
  }

  lemma ReadOffUnique(a: seq<CostPoint>, b: seq<CostPoint>, p: seq<CostPoint>, o: seq<CostPoint>, work: real,
                      r: Option<real>, s: Option<real>)
    requires multiset(a) == multiset(b) && ReadOff(a, p, work, r) && ReadOff(b, o, work, s)
    ensures r == s
  {
    CoalescesPermute(a, b, p);
    CoalescedUnique(b, p, o);
  }

  /** A prediction does not depend on the order of the benchmark entries. */
  lemma PredictionPermute(a: seq<Entry>, b: seq<Entry>, q: Profile, work: real, r: Option<real>, s: Option<real>)
    requires multiset(a) == multiset(b) && Predicts(a, q, work, r) && Predicts(b, q, work, s)
    ensures r == s
  {
    hide ReadOff, FastestOf, RawPoints;
    var rawA, rawB := RawPoints(a, q), RawPoints(b, q);
    RawPermute(a, b, q);
    assert |rawA| == |multiset(rawA)| == |multiset(rawB)| == |rawB|;
    if rawA != [] {
      var p :| ReadOff(rawA, p, work, r);
      var o :| ReadOff(rawB, o, work, s);
      ReadOffUnique(rawA, rawB, p, o, work, r, s);
    } else {
      var x :| FastestOf(a, q, x) && FromThroughput(x, work, r);
      var y :| FastestOf(b, q, y) && FromThroughput(y, work, s);
      FastestPermute(a, b, q, x, y);
      FastestPermute(b, a, q, y, x);
    }
  }

  /** An entry of another family, scalar type or engine, or one that is not available, changes no prediction. */
  lemma OthersIrrelevant(entries: seq<Entry>, e: Entry, q: Profile, work: real, r: Option<real>, s: Option<real>)
    requires !e.available || e.family != q.family || e.scalar != q.scalar || e.engine != q.engine
    requires Predicts(entries, q, work, r) && Predicts(entries + [e], q, work, s)
    ensures r == s
  {
    assert (entries + [e])[..|entries|] == entries;
    assert RawPoints(entries + [e], q) == RawPoints(entries, q);
    var raw := RawPoints(entries, q);
    hide RawPoints;
    if raw != [] {
      hide ReadOff, FastestOf;
      var p :| ReadOff(raw, p, work, r);
      var o :| ReadOff(raw, o, work, s);
      ReadOffUnique(raw, raw, p, o, work, r, s);
    } else {
      var x :| FastestOf(entries, q, x) && FromThroughput(x, work, r);
      var y :| FastestOf(entries + [e], q, y) && FromThroughput(y, work, s);
      SpeedIgnores(entries, e, q, x, y);
    }
  }

  lemma SpeedIgnores(entries: seq<Entry>, e: Entry, q: Profile, x: real, y: real)
    requires !Matches(e, q) && FastestOf(entries, q, x) && FastestOf(entries + [e], q, y)
    ensures x == y
  {
    var all := entries + [e];
    if x > 0.0 {
      var i :| 0 <= i < |entries| && Matches(entries[i], q) && entries[i].mpixPerSec == x;
      assert Matches(all[i], q) && all[i].mpixPerSec <= y;
    }
    if y > 0.0 {
      var i :| 0 <= i < |all| && Matches(all[i], q) && all[i].mpixPerSec == y;
      assert Matches(entries[i], q);
    }
  }

  /**
   One available entry of the very family, scalar type and engine decides the prediction:
   by its measurement in proportion to the size, or else by its throughput.
   */
  lemma OneEntryPredicts(e: Entry, q: Profile, work: real, r: Option<real>)
    requires e.available && e.family == q.family && e.scalar == q.scalar && e.engine == q.engine && work > 0.0
    requires Predicts([e], q, work, r)
    ensures e.workUnits > 0.0 && e.elapsedMs > 0.0 ==>
              r.Some? && r.value * e.workUnits == Max(0.001 * e.workUnits, e.elapsedMs * work)
    ensures !(e.workUnits > 0.0 && e.elapsedMs > 0.0) && e.mpixPerSec > 0.0 ==>
              r.Some? && r.value * e.mpixPerSec == Max(1.0, work)
    ensures !(e.workUnits > 0.0 && e.elapsedMs > 0.0) && e.mpixPerSec <= 0.0 ==> r.None?
  {
    hide Predicts;
    if e.workUnits > 0.0 && e.elapsedMs > 0.0 {
      OneMeasured(e, q, work, r);
    } else {
      OneThroughput(e, q, work, r);
    }
  }

  lemma OneMeasured(e: Entry, q: Profile, work: real, r: Option<real>)
    requires Measured(e, q) && work > 0.0 && Predicts([e], q, work, r)
    ensures r.Some? && r.value * e.workUnits == Max(0.001 * e.workUnits, e.elapsedMs * work)
  {
    hide Matches, RawPoints, FastestOf, ReadOff;
    OneRaw(e, q);
    var points :| ReadOff([PointOf(e)], points, work, r);
    OneReadOff(PointOf(e), points, work, r);
  }

  lemma OneThroughput(e: Entry, q: Profile, work: real, r: Option<real>)
    requires Matches(e, q) && !(e.workUnits > 0.0 && e.elapsedMs > 0.0) && Predicts([e], q, work, r)
    ensures e.mpixPerSec > 0.0 ==> r.Some? && r.value * e.mpixPerSec == Max(1.0, work)
    ensures e.mpixPerSec <= 0.0 ==> r.None?
  {
    hide Matches, RawPoints, FastestOf, ReadOff;
    OneRaw(e, q);
    var speed :| FastestOf([e], q, speed) && FromThroughput(speed, work, r);
    OneSpeed(e, q, speed);
    if speed > 0.0 {
      assert Max(1.0, work) / speed * speed == Max(1.0, work);
    }
  }

  lemma OneRaw(e: Entry, q: Profile)
    requires Matches(e, q)
    ensures RawPoints([e], q) == if e.workUnits > 0.0 && e.elapsedMs > 0.0 then [PointOf(e)] else []
  {
    assert [e][..0] == [];
  }

  lemma OneReadOff(p: CostPoint, points: seq<CostPoint>, work: real, r: Option<real>)
    requires Sample(p) && work > 0.0 && ReadOff([p], points, work, r)
    ensures r.Some? && r.value * p.work == Max(0.001 * p.work, p.elapsed * work)
  {
    hide Coalesces, Curve;
    OneCoalesced(p);
    CoalescedUnique([p], points, [p]);
    SingleIsProportional(p, work);
  }

  lemma OneSpeed(e: Entry, q: Profile, speed: real)
    requires Matches(e, q) && FastestOf([e], q, speed)
    ensures speed == Max(0.0, e.mpixPerSec)
  {
    assert [e][0] == e;
  }

  lemma OneCoalesced(p: CostPoint)
    requires Sample(p)
    ensures Coalesces([p], [p])
  {
    assert [p][..0] == [];
    Nothing();
    NewPoint([], [], p);
    assert [] + [p] == [p];
  }

  /** The loop over the points finds the interval of the target. */
  method Evaluate(points: seq<CostPoint>, target: real) returns (ms: real)
    requires points != [] && Samples(points) && Increasing(points) && target >= 0.0
    ensures ms == Curve(points, target)
  {
    if |points| == 1 {
      if !(target > 0.0) {
        return points[0].elapsed;
      }
      return Max(FLOOR, points[0].elapsed * target / points[0].work);
    }
    if target <= points[0].work {
      return Interpolate(points[0], points[1], target);
    }
    for i := 1 to |points|
      invariant points[i - 1].work < target
    {
      if target <= points[i].work {
        CurveAt(points, target, i);
        return Interpolate(points[i - 1], points[i], target);
      }
    }
    CurveAt(points, target, |points| - 1);
    ms := Interpolate(points[|points| - 2], points[|points| - 1], target);
  }

  method Predict(entries: seq<Entry>, q: Profile, work: real) returns (r: Option<real>)
    ensures Predicts(entries, q, work, r)
  {
    hide Coalesces, Curve;
    var raw: seq<CostPoint> := [];
    var legacySpeed := 0.0;
    for i := 0 to |entries|
      invariant raw == RawPoints(entries[..i], q) && FastestOf(entries[..i], q, legacySpeed)
    {
      var e := entries[i];
      assert entries[..i + 1][..i] == entries[..i];
      NextFastest(entries, i, q, legacySpeed);
      if Matches(e, q) {
        if e.workUnits > 0.0 && e.elapsedMs > 0.0 {
          raw := raw + [PointOf(e)];
        }
        if e.mpixPerSec > 0.0 {
          legacySpeed := Max(legacySpeed, e.mpixPerSec);
        }
      }
    }
    assert entries[..|entries|] == entries;
    if raw != [] {
      var sorted := SortByWork(raw);
      SamplesPermute(raw, sorted);
      var points := CoalesceSorted(sorted);
      CoalescesPermute(sorted, raw, points);
      CoalescedSamples(raw, points);
      CoalescedSome(raw, points);
      var ms := Evaluate(points, Max(0.0, work));
      assert ReadOff(raw, points, work, Some(ms));
      return Some(ms);
    }
    r := if legacySpeed > 0.0 then Some(Max(1.0, work) / legacySpeed) else None;
    assert FromThroughput(legacySpeed, work, r);
  }

  lemma NextFastest(entries: seq<Entry>, i: nat, q: Profile, speed: real)
    requires i < |entries| && FastestOf(entries[..i], q, speed)
    ensures FastestOf(entries[..i + 1], q, if Matches(entries[i], q) && entries[i].mpixPerSec > 0.0
                                            then Max(speed, entries[i].mpixPerSec) else speed)
  {
    var next := entries[..i + 1];
    assert next[i] == entries[i];
    if speed > 0.0 {
      var k :| 0 <= k < i && Matches(entries[..i][k], q) && entries[..i][k].mpixPerSec == speed;
      assert next[k] == entries[k];
    }
    assert forall k :: 0 <= k < i ==> next[k] == entries[..i][k];
  }

  lemma SamplesPermute(a: seq<CostPoint>, b: seq<CostPoint>)
    requires Samples(a) && multiset(a) == multiset(b)
    ensures Samples(b)
  {
    forall i | 0 <= i < |b|
      ensures Sample(b[i])
    {
      assert b[i] in multiset(a);
    }
  }

  lemma CoalescedSome(raw: seq<CostPoint>, points: seq<CostPoint>)
    requires Coalesces(raw, points) && raw != []
    ensures points != []
  {
    assert HasWork(raw, raw[0].work);
  }

  // ---- Choosing an engine -----------------------------------------------------------------------

  /** Candidate `i` is the first of those predicted to be fastest. */
  predicate Fastest(predicted: seq<Option<real>>, i: nat) {
    i < |predicted| && predicted[i].Some? &&
    forall j :: 0 <= j < |predicted| && predicted[j].Some? ==>
      predicted[i].value <= predicted[j].value && (j < i ==> predicted[i].value < predicted[j].value)
  }

  /** An unnamed engine stands for none. */
  function Named(engine: string, fallback: string): string {
    if engine == "" then fallback else engine
  }

  /** What each candidate is predicted to take. */
  ghost predicate Predictions(entries: seq<Entry>, family: string, scalar: string, work: real, candidates: seq<string>,
                              predicted: seq<Option<real>>) {
    |predicted| == |candidates| &&
    forall i :: 0 <= i < |candidates| ==> Predicts(entries, Profile(family, scalar, candidates[i]), work, predicted[i])
  }

  /** The first of the fastest candidates is chosen, the fallback when nothing is predicted. */
  ghost predicate Chosen(predicted: seq<Option<real>>, candidates: seq<string>, fallback: string, engine: string) {
    if exists i :: 0 <= i < |predicted| && predicted[i].Some? then
      exists i: nat :: Fastest(predicted, i) && i < |candidates| && engine == Named(candidates[i], fallback)
    else
      engine == fallback
  }

  method SelectEngine(entries: seq<Entry>, family: string, scalar: string, work: real, candidates: seq<string>, fallback: string)
    returns (engine: string)
    ensures exists predicted ::
              Predictions(entries, family, scalar, work, candidates, predicted) && Chosen(predicted, candidates, fallback, engine)
  {
    hide Predicts;
    var best := "";
    var bestMs: Option<real> := None;
    ghost var predicted: seq<Option<real>> := [];
    ghost var at: nat := 0;
    for i := 0 to |candidates|
      invariant |predicted| == i
      invariant forall j :: 0 <= j < i ==> Predicts(entries, Profile(family, scalar, candidates[j]), work, predicted[j])
      invariant bestMs.None? ==> best == "" && forall j :: 0 <= j < i ==> predicted[j].None?
      invariant bestMs.Some? ==> Fastest(predicted, at) && bestMs == predicted[at] && best == candidates[at]
    {
      var ms := Predict(entries, Profile(family, scalar, candidates[i]), work);
      predicted := predicted + [ms];
      if ms.Some? && (bestMs.None? || ms.value < bestMs.value) {
        bestMs, best, at := ms, candidates[i], i;
      }
    }
    engine := Named(best, fallback);
    assert Chosen(predicted, candidates, fallback, engine);
    assert Predictions(entries, family, scalar, work, candidates, predicted);
  }

  /** The choice is determined by the benchmark entries in any order. */
  lemma SelectionPermute(a: seq<Entry>, b: seq<Entry>, family: string, scalar: string, work: real, candidates: seq<string>,
                         fallback: string, p: seq<Option<real>>, q: seq<Option<real>>, x: string, y: string)
    requires multiset(a) == multiset(b)
    requires Predictions(a, family, scalar, work, candidates, p) && Chosen(p, candidates, fallback, x)
    requires Predictions(b, family, scalar, work, candidates, q) && Chosen(q, candidates, fallback, y)
    ensures x == y
  {
    hide Predicts;
    forall i | 0 <= i < |candidates|
      ensures p[i] == q[i]
    {
      PredictionPermute(a, b, Profile(family, scalar, candidates[i]), work, p[i], q[i]);
    }
    assert p == q;
  }

  // ---- The benchmark cache ------------------------------------------------------------------------

  datatype Slot = Slot(family: string, workload: string, engine: string, scalar: string, workUnits: real)

  function SlotOf(e: Entry): Slot {
    Slot(e.family, e.workload, e.engine, e.scalar, e.workUnits)
  }

  /** Entries share a slot exactly when all five of its fields agree. */
  predicate SameSlot(a: Entry, b: Entry)
    ensures SameSlot(a, b) <==> a.family == b.family && a.workload == b.workload && a.engine == b.engine &&
                                a.scalar == b.scalar && a.workUnits == b.workUnits
  {
    SlotOf(a) == SlotOf(b)
  }

  /** What the cache holds for a slot: the first entry of it. */
  function FirstAt(entries: seq<Entry>, slot: Slot): Option<Entry> {
    if entries == [] then None
    else if SlotOf(entries[0]) == slot then Some(entries[0])
    else FirstAt(entries[1..], slot)
  }

  /** What a batch says about a slot: its last entry of it. */
  function LastAt(batch: seq<Entry>, slot: Slot): Option<Entry> {
    if batch == [] then None
    else if SlotOf(batch[|batch| - 1]) == slot then Some(batch[|batch| - 1])
    else LastAt(batch[..|batch| - 1], slot)
  }

  predicate DistinctSlots(entries: seq<Entry>) {
    forall i, j :: 0 <= i < j < |entries| ==> SlotOf(entries[i]) != SlotOf(entries[j])
  }

  /** A keyed update of the cache by a batch: the batch's last word on a slot, or else the cache's. */
  ghost predicate Updates(before: seq<Entry>, batch: seq<Entry>, after: seq<Entry>) {
    forall slot :: FirstAt(after, slot) == if LastAt(batch, slot).Some? then LastAt(batch, slot) else FirstAt(before, slot)
  }

  lemma {:induction false} FirstAtFinds(entries: seq<Entry>, k: nat, slot: Slot)
    requires k <= |entries| && forall j :: 0 <= j < k ==> SlotOf(entries[j]) != slot
    ensures FirstAt(entries, slot) == FirstAt(entries[k..], slot)
  {
    if k > 0 {
      FirstAtFinds(entries[1..], k - 1, slot);
      assert entries[1..][k - 1..] == entries[k..];
    } else {
      assert entries[0..] == entries;
    }
  }

  lemma FirstAtIndex(entries: seq<Entry>, k: nat)
    requires k < |entries| && forall j :: 0 <= j < k ==> SlotOf(entries[j]) != SlotOf(entries[k])
    ensures FirstAt(entries, SlotOf(entries[k])) == Some(entries[k])
  {
    FirstAtFinds(entries, k, SlotOf(entries[k]));
  }

  lemma {:induction false} FirstAtAppend(entries: seq<Entry>, e: Entry, slot: Slot)
    ensures FirstAt(entries + [e], slot) ==
            if FirstAt(entries, slot).Some? then FirstAt(entries, slot) else if SlotOf(e) == slot then Some(e) else None
  {
    if entries == [] {
      assert entries + [e] == [e];
    } else {
      FirstAtAppend(entries[1..], e, slot);
      assert (entries + [e])[1..] == entries[1..] + [e];
    }
  }

  lemma {:induction false} FirstAtReplace(entries: seq<Entry>, k: nat, e: Entry, slot: Slot)
    requires k < |entries| && SlotOf(entries[k]) == SlotOf(e) != slot
    ensures FirstAt(entries[k := e], slot) == FirstAt(entries, slot)
  {
    if k > 0 {
      FirstAtReplace(entries[1..], k - 1, e, slot);
      assert entries[k := e][1..] == entries[1..][k - 1 := e];
    } else {
      assert entries[0 := e][1..] == entries[1..];
    }
  }

  lemma NoneFound(entries: seq<Entry>, slot: Slot)
    requires forall j :: 0 <= j < |entries| ==> SlotOf(entries[j]) != slot
    ensures FirstAt(entries, slot) == None
  {
    FirstAtFinds(entries, |entries|, slot);
  }

  class BenchmarkCache {
    var entries: seq<Entry>

    constructor ()
      ensures entries == []
    {
      entries := [];
    }

    /** Nothing of the old table is left; a batch of distinct slots is held as merging it into an empty table would. */
    method Replace(batch: seq<Entry>)
      modifies this
      ensures entries == batch
      ensures DistinctSlots(batch) ==> Updates([], batch, entries)
    {
      entries := batch;
      if DistinctSlots(batch) {
        forall slot
          ensures LastAt(batch, slot) == FirstAt(batch, slot)
        {
          LastIsFirst(batch, slot);
        }
      }
    }

    /** No slot is held any more. */
    method Clear()
      modifies this
      ensures entries == [] && forall slot :: FirstAt(entries, slot) == None
    {
      entries := [];
    }

    method HasEntries() returns (r: bool)
      ensures r <==> exists i :: 0 <= i < |entries| && entries[i].available
    {
      for i := 0 to |entries|
        invariant forall j :: 0 <= j < i ==> !entries[j].available
      {
        if entries[i].available {
          return true;
        }
      }
      r := false;
    }

    /** The position of a slot, or the length of the table. */
    method Find(slot: Slot) returns (k: nat)
      ensures k <= |entries| && (k < |entries| ==> SlotOf(entries[k]) == slot)
      ensures forall j :: 0 <= j < k ==> SlotOf(entries[j]) != slot
    {
      k := 0;
      while k < |entries| && SlotOf(entries[k]) != slot
        invariant k <= |entries|
        invariant forall j :: 0 <= j < k ==> SlotOf(entries[j]) != slot
      {
        k := k + 1;
      }
    }

    method Put(incoming: Entry)
      modifies this
      ensures Updates(old(entries), [incoming], entries)
      ensures incoming in entries
      ensures forall e :: e in old(entries) && !SameSlot(e, incoming) ==> e in entries
      ensures forall e :: e in entries && e != incoming ==> e in old(entries)
      ensures |entries| == |old(entries)| <==> exists e :: e in old(entries) && SameSlot(e, incoming)
      ensures DistinctSlots(old(entries)) ==> DistinctSlots(entries)
      ensures |old(entries)| <= |entries|
      ensures forall i :: 0 <= i < |old(entries)| ==> SlotOf(entries[i]) == SlotOf(old(entries)[i])
    {
      var slot := SlotOf(incoming);
      var k := Find(slot);
      ghost var before := entries;
      if k == |entries| {
        entries := entries + [incoming];
        NoneFound(before, slot);
        assert entries[k] == incoming;
        assert forall e :: e in before ==> exists j :: 0 <= j < k && before[j] == e;
      } else {
        entries := entries[k := incoming];
        FirstAtIndex(entries, k);
        assert entries[k] == incoming;
        assert before[k] in before && SameSlot(before[k], incoming);
        assert forall j :: 0 <= j < |before| && j != k ==> entries[j] == before[j];
      }
      forall other
        ensures FirstAt(entries, other) ==
                if LastAt([incoming], other).Some? then LastAt([incoming], other) else FirstAt(before, other)
      {
        if k == |before| {
          FirstAtAppend(before, incoming, other);
        } else if other != slot {
          FirstAtReplace(before, k, incoming, other);
        }
      }
    }

    /** Each incoming entry takes its slot over, or a new place at the end. */
    method Merge(batch: seq<Entry>)
      modifies this
      ensures Updates(old(entries), batch, entries)
      ensures DistinctSlots(old(entries)) ==> DistinctSlots(entries)
      ensures |old(entries)| <= |entries|
      ensures forall i :: 0 <= i < |old(entries)| ==> SlotOf(entries[i]) == SlotOf(old(entries)[i])
    {
      hide FirstAt, SlotOf, DistinctSlots;
      for i := 0 to |batch|
        invariant Updates(old(entries), batch[..i], entries)
        invariant DistinctSlots(old(entries)) ==> DistinctSlots(entries)
        invariant |old(entries)| <= |entries|
        invariant forall j :: 0 <= j < |old(entries)| ==> SlotOf(entries[j]) == SlotOf(old(entries)[j])
      {
        ghost var before := entries;
        Put(batch[i]);
        UpdatesCompose(old(entries), batch[..i], before, batch[i], entries);
        assert batch[..i + 1] == batch[..i] + [batch[i]];
      }
      assert batch[..|batch|] == batch;
    }
  }

  lemma UpdatesCompose(a: seq<Entry>, batch: seq<Entry>, b: seq<Entry>, e: Entry, c: seq<Entry>)
    requires Updates(a, batch, b) && Updates(b, [e], c)
    ensures Updates(a, batch + [e], c)
  {
    hide FirstAt, SlotOf;
    assert (batch + [e])[..|batch|] == batch && [e][..0] == [];
    forall slot
      ensures FirstAt(c, slot) == if LastAt(batch + [e], slot).Some? then LastAt(batch + [e], slot) else FirstAt(a, slot)
    {
      assert LastAt([e], slot) == if SlotOf(e) == slot then Some(e) else None;
    }
  }

  /** After a merge the batch's last word on each slot is held, and so is every entry of a slot the batch does not name. */
  lemma MergedHolds(before: seq<Entry>, batch: seq<Entry>, after: seq<Entry>, e: Entry)
    requires Updates(before, batch, after)
    ensures (exists i :: 0 <= i < |batch| && batch[i] == e && forall j :: i < j < |batch| ==> !SameSlot(batch[j], e)) ==>
              e in after
    ensures DistinctSlots(before) && e in before && (forall b :: b in batch ==> !SameSlot(b, e)) ==> e in after
  {
    hide SlotOf;
    FirstIsMember(after, SlotOf(e));
    if i :| 0 <= i < |batch| && batch[i] == e && forall j :: i < j < |batch| ==> !SameSlot(batch[j], e) {
      LastAtIndex(batch, i);
    }
    if DistinctSlots(before) && e in before && forall b :: b in batch ==> !SameSlot(b, e) {
      var k :| 0 <= k < |before| && before[k] == e;
      FirstAtIndex(before, k);
      NoLast(batch, SlotOf(e));
    }
  }

  lemma {:induction false} FirstIsMember(entries: seq<Entry>, slot: Slot)
    ensures FirstAt(entries, slot).Some? ==> FirstAt(entries, slot).value in entries
  {
    if entries != [] {
      FirstIsMember(entries[1..], slot);
    }
  }

  lemma {:induction false} LastAtIndex(batch: seq<Entry>, i: nat)
    requires i < |batch| && forall j :: i < j < |batch| ==> SlotOf(batch[j]) != SlotOf(batch[i])
    ensures LastAt(batch, SlotOf(batch[i])) == Some(batch[i])
  {
    if i < |batch| - 1 {
      LastAtIndex(batch[..|batch| - 1], i);
    }
  }

  lemma {:induction false} NoLast(batch: seq<Entry>, slot: Slot)
    requires forall b :: b in batch ==> SlotOf(b) != slot
    ensures LastAt(batch, slot) == None
  {
    if batch != [] {
      NoLast(batch[..|batch| - 1], slot);
    }
  }

  lemma {:induction false} CountedOnce(entries: seq<Entry>, e: Entry)
    requires DistinctSlots(entries)
    ensures multiset(entries)[e] == if FirstAt(entries, SlotOf(e)) == Some(e) then 1 else 0
  {
    if entries != [] {
      var rest := entries[1..];
      assert entries == [entries[0]] + rest;
      CountedOnce(rest, e);
      if SlotOf(entries[0]) == SlotOf(e) {
        NoneFound(rest, SlotOf(e));
      }
    }
  }

  /** Caches that hold the same for every slot predict the same, whatever order they were merged in. */
  lemma SameSlotsPredictSame(a: seq<Entry>, b: seq<Entry>, q: Profile, work: real, r: Option<real>, s: Option<real>)
    requires DistinctSlots(a) && DistinctSlots(b) && forall slot :: FirstAt(a, slot) == FirstAt(b, slot)
    requires Predicts(a, q, work, r) && Predicts(b, q, work, s)
    ensures r == s
  {
    hide Predicts;
    forall e
      ensures multiset(a)[e] == multiset(b)[e]
    {
      CountedOnce(a, e);
      CountedOnce(b, e);
    }
    assert multiset(a) == multiset(b);
    PredictionPermute(a, b, q, work, r, s);
  }

  lemma {:induction false} LastIsFirst(entries: seq<Entry>, slot: Slot)
    requires DistinctSlots(entries)
    ensures LastAt(entries, slot) == FirstAt(entries, slot)
  {
    if entries != [] {
      var n := |entries| - 1;
      LastIsFirst(entries[..n], slot);
      FirstAtAppend(entries[..n], entries[n], slot);
      assert entries == entries[..n] + [entries[n]];
      if SlotOf(entries[n]) == slot {
        NoneFound(entries[..n], slot);
      }
    }
  }

  /** Replacing the cache by a batch of distinct slots predicts as clearing it and merging the batch does. */
  lemma ReplaceIsClearAndMerge(batch: seq<Entry>, merged: seq<Entry>, q: Profile, work: real, r: Option<real>, s: Option<real>)
    requires DistinctSlots(batch) && DistinctSlots(merged) && Updates([], batch, merged)
    requires Predicts(batch, q, work, r) && Predicts(merged, q, work, s)
    ensures r == s
  {
    hide Predicts;
    forall slot
      ensures FirstAt(batch, slot) == FirstAt(merged, slot)
    {
      LastIsFirst(batch, slot);
    }
    SameSlotsPredictSame(batch, merged, q, work, r, s);
  }
}
