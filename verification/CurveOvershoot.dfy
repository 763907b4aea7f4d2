/**
 What settled tangents buy: on every segment the hermite reading stays between
 the two end values, and through ascending values the whole curve is nondecreasing.
 The cubic is affine in each tangent, so it suffices that the four extreme choices
 (each tangent zero or three times the secant) give increasing cubics.
 */
module CurveOvershoot {
  import opened RealArithmetic
  import opened CurvePoints
  import opened CurveEvaluation
  import opened MonotoneCurves

  // The three basis polynomials of a hermite segment, apart from the start value.
  function Rise(p: real): real { 3.0 * (p * p) - 2.0 * (p * p * p) }
  function Lead(p: real): real { p * p * p - 2.0 * (p * p) + p }
  function Trail(p: real): real { p * p * p - p * p }

  /** A segment from its start value, its rise, and its two tangents scaled by the segment length. */
  function Cubic(v0: real, rise: real, a: real, b: real, p: real): real {
    v0 + Rise(p) * rise + Lead(p) * a + Trail(p) * b
  }

  /** A slope carried over the length of a segment. */
  function Scaled(from: Point, to: Point, slope: real): real {
    (to.time - from.time) * slope
  }

  // ------------------------------------------------------------ the four corners

  lemma CornerNone(p: real, r: real)
    requires 0.0 <= p <= r <= 1.0
    ensures Rise(p) <= Rise(r)
  {
    var f := r * (3.0 - 2.0 * r - p) + p * (3.0 - 2.0 * p - r);
    ProductNonnegative(r, 3.0 - 2.0 * r - p);
    ProductNonnegative(p, 3.0 - 2.0 * p - r);
    ProductNonnegative(r - p, f);
    assert (r - p) * f == Rise(r) - Rise(p);
  }

  lemma CornerLead(p: real, r: real)
    requires p <= r
    ensures Rise(p) + 3.0 * Lead(p) <= Rise(r) + 3.0 * Lead(r)
  {
    CubeOrder(1.0 - r, 1.0 - p);
    ComplementCube(p);
    ComplementCube(r);
  }

  lemma ComplementCube(p: real)
    ensures (1.0 - p) * (1.0 - p) * (1.0 - p) == 1.0 - (Rise(p) + 3.0 * Lead(p))
  {
  }

  lemma CornerTrail(p: real, r: real)
    requires p <= r
    ensures Rise(p) + 3.0 * Trail(p) <= Rise(r) + 3.0 * Trail(r)
  {
    CubeOrder(p, r);
  }

  lemma CornerBoth(p: real, r: real)
    requires p <= r
    ensures Rise(p) + 3.0 * Lead(p) + 3.0 * Trail(p) <= Rise(r) + 3.0 * Lead(r) + 3.0 * Trail(r)
  {
    CubeOrder(2.0 * p - 1.0, 2.0 * r - 1.0);
    DoubledCube(p);
    DoubledCube(r);
  }

  lemma DoubledCube(p: real)
    ensures (2.0 * p - 1.0) * (2.0 * p - 1.0) * (2.0 * p - 1.0)
            == 2.0 * (Rise(p) + 3.0 * Lead(p) + 3.0 * Trail(p)) - 1.0
  {
  }

  function Affine(c: real, g: real, k: real, rise: real, a: real, b: real): real {
    c * rise + g * a + k * b
  }

  /** An affine form that is non-negative at the four corners of a square is non-negative on it. */
  lemma BoxNonnegative(c: real, g: real, k: real, rise: real, a: real, b: real)
    requires rise >= 0.0 && 0.0 <= a <= 3.0 * rise && 0.0 <= b <= 3.0 * rise
    requires c >= 0.0 && c + 3.0 * g >= 0.0 && c + 3.0 * k >= 0.0 && c + 3.0 * g + 3.0 * k >= 0.0
    ensures Affine(c, g, k, rise, a, b) >= 0.0
  {
    var ga := AtLeastCorner(g, rise, a);
    var kb := AtLeastCorner(k, rise, b);
    ProductNonnegative(c + ga + kb, rise);
    Distribute(c, ga, rise);
    Distribute(c + ga, kb, rise);
  }

  /** A product with `a` in `[0, 3 rise]` is at least its value at one of the two ends. */
  lemma AtLeastCorner(g: real, rise: real, a: real) returns (corner: real)
    requires rise >= 0.0 && 0.0 <= a <= 3.0 * rise
    ensures (corner == 0.0 || corner == 3.0 * g) && corner * rise <= g * a
  {
    if g >= 0.0 {
      corner := 0.0;
      ProductNonnegative(g, a);
    } else {
      corner := 3.0 * g;
      ProductNonnegative(-g, 3.0 * rise - a);
      assert (-g) * (3.0 * rise - a) == g * a - 3.0 * g * rise;
    }
  }

  // ------------------------------------------------------------- one segment rises

  lemma CubicRises(v0: real, rise: real, a: real, b: real, p: real, r: real)
    requires rise >= 0.0 && 0.0 <= a <= 3.0 * rise && 0.0 <= b <= 3.0 * rise
    requires 0.0 <= p <= r <= 1.0
    ensures Cubic(v0, rise, a, b, p) <= Cubic(v0, rise, a, b, r)
  {
    CornerNone(p, r);
    CornerLead(p, r);
    CornerTrail(p, r);
    CornerBoth(p, r);
    hide Rise, Lead, Trail, Cubic, Affine;
    CubicDifference(v0, rise, a, b, p, r);
    BoxNonnegative(Rise(r) - Rise(p), Lead(r) - Lead(p), Trail(r) - Trail(p), rise, a, b);
  }

  lemma CubicDifference(v0: real, rise: real, a: real, b: real, p: real, r: real)
    ensures Cubic(v0, rise, a, b, r) - Cubic(v0, rise, a, b, p)
            == Affine(Rise(r) - Rise(p), Lead(r) - Lead(p), Trail(r) - Trail(p), rise, a, b)
  {
  }

  /** A cubic whose scaled tangents agree with its rise stays between its end values. */
  lemma CubicBetween(v0: real, rise: real, a: real, b: real, p: real)
    requires ScaledWithin(a, rise) && ScaledWithin(b, rise) && 0.0 <= p <= 1.0
    ensures Between(Cubic(v0, rise, a, b, p), v0, v0 + rise)
  {
    hide Cubic;
    if rise >= 0.0 {
      CubicEnds(v0, rise, a, b);
      CubicRises(v0, rise, a, b, 0.0, p);
      CubicRises(v0, rise, a, b, p, 1.0);
    } else {
      CubicEnds(-v0, -rise, -a, -b);
      CubicRises(-v0, -rise, -a, -b, 0.0, p);
      CubicRises(-v0, -rise, -a, -b, p, 1.0);
      CubicNegated(v0, rise, a, b, p);
    }
  }

  ghost predicate ScaledWithin(a: real, rise: real) {
    (rise >= 0.0 ==> 0.0 <= a <= 3.0 * rise) && (rise <= 0.0 ==> 3.0 * rise <= a <= 0.0)
  }

  lemma CubicNegated(v0: real, rise: real, a: real, b: real, p: real)
    ensures Cubic(-v0, -rise, -a, -b, p) == -Cubic(v0, rise, a, b, p)
  {
  }

  lemma CubicEnds(v0: real, rise: real, a: real, b: real)
    ensures Cubic(v0, rise, a, b, 0.0) == v0
    ensures Cubic(v0, rise, a, b, 1.0) == v0 + rise
  {
  }

  ghost predicate Between(x: real, a: real, b: real) {
    a <= x <= b || b <= x <= a
  }

  /** A settled tangent, scaled by the segment length, lies between zero and three times the rise. */
  lemma ScaledTangent(t: real, from: Point, to: Point)
    requires from.time < to.time && Within(t, Secant(from, to))
    ensures ScaledWithin(Scaled(from, to, t), to.value - from.value)
  {
  }

  function ProgressAt(from: Point, to: Point, time: real): real
    requires from.time < to.time
  {
    (time - from.time) / (to.time - from.time)
  }

  lemma ProgressBounds(p: real, h: real, elapsed: real)
    requires h > 0.0 && p * h == elapsed && 0.0 <= elapsed <= h
    ensures 0.0 <= p <= 1.0
  {
  }

  lemma ProgressOrder(p: real, r: real, h: real)
    requires h > 0.0 && p * h <= r * h
    ensures p <= r
  {
  }

  /** Progress is in `[0, 1]` and increases with the time. */
  lemma ProgressInOrder(from: Point, to: Point, t1: real, t2: real)
    requires from.time <= t1 <= t2 <= to.time && from.time < to.time
    ensures 0.0 <= ProgressAt(from, to, t1) <= ProgressAt(from, to, t2) <= 1.0
  {
    var h := to.time - from.time;
    var p, r := ProgressAt(from, to, t1), ProgressAt(from, to, t2);
    assert p * h == t1 - from.time;
    assert r * h == t2 - from.time;
    hide ProgressAt;
    ProgressBounds(p, h, t1 - from.time);
    ProgressBounds(r, h, t2 - from.time);
    ProgressOrder(p, r, h);
  }

  /** The reading inside a segment, as the cubic of its progress. */
  lemma SegmentIsCubic(points: seq<Point>, k: nat, time: real)
    requires StrictlyAscending(points) && k + 1 < |points|
    ensures var from, to := points[k], points[k + 1];
            SegmentReading(points, Hermite, k, time)
            == Cubic(from.value, to.value - from.value, Scaled(from, to, from.outTangent),
                     Scaled(from, to, to.inTangent), ProgressAt(from, to, time))
  {
  }

  /** No overshoot: inside a segment the reading lies between the segment's two end values. */
  lemma SegmentBetween(points: seq<Point>, k: nat, time: real)
    requires Settled(points) && k + 1 < |points| && points[k].time <= time <= points[k + 1].time
    ensures Between(SegmentReading(points, Hermite, k, time), points[k].value, points[k + 1].value)
  {
    hide Cubic, SegmentReading, ScaledWithin, Within, Secant, Scaled, ProgressAt;
    var from, to := points[k], points[k + 1];
    SegmentIsCubic(points, k, time);
    ProgressInOrder(from, to, time, time);
    ScaledTangent(from.outTangent, from, to);
    ScaledTangent(to.inTangent, from, to);
    CubicBetween(from.value, to.value - from.value, Scaled(from, to, from.outTangent),
                 Scaled(from, to, to.inTangent), ProgressAt(from, to, time));
  }

  lemma SegmentRises(points: seq<Point>, k: nat, t1: real, t2: real)
    requires Settled(points) && k + 1 < |points| && points[k].value <= points[k + 1].value
    requires points[k].time <= t1 <= t2 <= points[k + 1].time
    ensures SegmentReading(points, Hermite, k, t1) <= SegmentReading(points, Hermite, k, t2)
  {
    hide Cubic, SegmentReading, Within, Secant, Scaled, ProgressAt;
    var from, to := points[k], points[k + 1];
    SegmentIsCubic(points, k, t1);
    SegmentIsCubic(points, k, t2);
    ProgressInOrder(from, to, t1, t2);
    ScaledTangent(from.outTangent, from, to);
    ScaledTangent(to.inTangent, from, to);
    CubicRises(from.value, to.value - from.value, Scaled(from, to, from.outTangent),
               Scaled(from, to, to.inTangent), ProgressAt(from, to, t1), ProgressAt(from, to, t2));
  }

  // ------------------------------------------------------------------ whole curves

  ghost predicate AscendingValues(points: seq<Point>) {
    forall i, j :: 0 <= i <= j < |points| ==> points[i].value <= points[j].value
  }

  /** A settled curve through ascending values is nondecreasing over its whole timeline. */
  lemma ReadingRises(points: seq<Point>, t1: real, t2: real)
    requires Settled(points) && points != [] && AscendingValues(points) && t1 <= t2
    ensures Reading(points, Hermite, t1) <= Reading(points, Hermite, t2)
  {
    hide SegmentReading;
    var last := |points| - 1;
    if points[0].time < t1 < points[last].time {
      LocateExact(points, t1, 0);
      SegmentBetween(points, Locate(points, t1, 0), t1);
    }
    if points[0].time < t2 < points[last].time {
      LocateExact(points, t2, 0);
      SegmentBetween(points, Locate(points, t2, 0), t2);
    }
    if points[0].time < t1 && t2 < points[last].time {
      var i, j := Locate(points, t1, 0), Locate(points, t2, 0);
      if i == j {
        SegmentRises(points, i, t1, t2);
      } else {
        assert i < j;
      }
    }
  }

  /**
   The promise of the tangents, for any list of points: no hermite reading leaves
   the interval spanned by the end values of its segment.
   */
  lemma NoOvershoot(points: seq<Point>, n: seq<Point>, root: real -> real, k: nat, time: real)
    requires IsSquareRoot(root) && IsNormalization(points, n)
    requires k + 1 < |n| && n[k].time <= time <= n[k + 1].time
    ensures var r := WithTangents(n, Tangents(n, root));
            StrictlyAscending(r)
            && Between(Eval(r, Hermite, false, time).value, n[k].value, n[k + 1].value)
  {
    TangentsSettle(n, root);
    hide Tangents;
    var r := WithTangents(n, Tangents(n, root));
    hide Settled;
    assert StrictlyAscending(r);
    if time == n[k].time {
      ControlTimesRead(r, Hermite, k);
    } else if time == n[k + 1].time {
      ControlTimesRead(r, Hermite, k + 1);
    } else {
      LocateUnique(r, time, k);
      SegmentBetween(r, k, time);
    }
  }

  /** Through ascending values, the curve with monotone tangents never falls as the phase advances. */
  lemma NeverFalls(points: seq<Point>, n: seq<Point>, root: real -> real, t1: real, t2: real)
    requires IsSquareRoot(root) && IsNormalization(points, n) && n != [] && AscendingValues(n) && t1 <= t2
    ensures var r := WithTangents(n, Tangents(n, root));
            StrictlyAscending(r)
            && Eval(r, Hermite, false, t1).value <= Eval(r, Hermite, false, t2).value
  {
    TangentsSettle(n, root);
    hide Tangents;
    var r := WithTangents(n, Tangents(n, root));
    hide Settled;
    assert StrictlyAscending(r) && AscendingValues(r);
    ReadingRises(r, t1, t2);
  }
}
