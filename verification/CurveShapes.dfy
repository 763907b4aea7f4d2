/**
 What a curve reads between its points, stated on the readings themselves: chords,
 steps, cubics that meet both end values with both end slopes, and held ends.
 */
module CurveShapes {
  import opened Results
  import opened RealArithmetic
  import opened CurvePoints
  import opened CurveEvaluation
  import opened MonotoneCurves
  import opened CurveOvershoot
  import opened MonotoneShapes

  /** The reading of a curve that does not loop. */
  function Read(n: seq<Point>, kind: Kind, time: real): real
    requires StrictlyAscending(n) && n != []
  {
    Eval(n, kind, false, time).value
  }

  ghost predicate InSegment(n: seq<Point>, k: nat, time: real) {
    k + 1 < |n| && n[k].time <= time <= n[k + 1].time
  }

  /** From its first point up to its second a segment is read by its own interpolation. */
  lemma SegmentRead(n: seq<Point>, kind: Kind, k: nat, time: real)
    requires StrictlyAscending(n) && InSegment(n, k, time) && time < n[k + 1].time
    ensures Read(n, kind, time) == SegmentReading(n, kind, k, time)
  {
    hide Interpolate;
    if time == n[k].time {
      ControlTimesRead(n, kind, k);
      ProgressOf(0.0, n[k + 1].time - n[k].time, 0.0);
      InterpolateAtZero(kind, n[k], n[k + 1], n[k + 1].time - n[k].time);
    } else {
      LocateUnique(n, time, k);
    }
  }

  lemma ProgressOf(elapsed: real, segment: real, p: real)
    requires segment > 0.0 && p * segment == elapsed
    ensures elapsed / segment == p
  {
  }

  // ---------------------------------------------------------------- held ends and steps

  /** Before the first point and after the last one their values are held; one point is a constant. */
  lemma EndsHold(n: seq<Point>, kind: Kind, loop: bool, time: real)
    requires StrictlyAscending(n)
    ensures Eval(n, kind, loop, time) == None <==> n == []
    ensures |n| == 1 ==> Eval(n, kind, loop, time) == Some(n[0].value)
    ensures n != [] && time <= n[0].time ==> Eval(n, kind, false, time) == Some(n[0].value)
    ensures n != [] && time >= n[|n| - 1].time ==> Eval(n, kind, false, time) == Some(n[|n| - 1].value)
  {
    hide SegmentReading, PositiveRemainder;
  }

  /** A step holds the value of the point it left until the next point's time. */
  lemma StepHolds(n: seq<Point>, k: nat, time: real)
    requires StrictlyAscending(n) && InSegment(n, k, time) && time < n[k + 1].time
    ensures Eval(n, Step, false, time) == Some(n[k].value)
  {
    SegmentRead(n, Step, k, time);
    hide Reading;
  }

  // ----------------------------------------------------------------------------- chords

  /** `value` is where the segment's chord passes at `time`. */
  ghost predicate OnChord(from: Point, to: Point, time: real, value: real) {
    (value - from.value) * (to.time - from.time) == (to.value - from.value) * (time - from.time)
  }

  lemma LinearOnChord(from: Point, to: Point, time: real)
    requires from.time < to.time
    ensures var h := to.time - from.time;
            OnChord(from, to, time, Interpolate(Linear, from, to, (time - from.time) / h, h))
  {
    var h, rise := to.time - from.time, to.value - from.value;
    var p := (time - from.time) / h;
    assert p * h == time - from.time;
    ProductShift(rise, p, h, time - from.time);
  }

  lemma ProductShift(rise: real, p: real, h: real, u: real)
    requires p * h == u
    ensures (rise * p) * h == rise * u
  {
    assert (rise * p) * h == rise * (p * h);
  }

  /** A linear curve runs along the chord of each segment, ends included. */
  lemma LinearRead(n: seq<Point>, k: nat, time: real)
    requires StrictlyAscending(n) && InSegment(n, k, time)
    ensures OnChord(n[k], n[k + 1], time, Read(n, Linear, time))
  {
    hide Reading, Interpolate;
    if time < n[k + 1].time {
      SegmentRead(n, Linear, k, time);
      LinearOnChord(n[k], n[k + 1], time);
    } else {
      ControlTimesRead(n, Linear, k + 1);
    }
  }

  function Blend(w: real, a: real, b: real): real {
    (1.0 - w) * a + w * b
  }

  lemma BlendChord(from: Point, to: Point, w: real, a: real, b: real, x: real, y: real)
    requires OnChord(from, to, a, x) && OnChord(from, to, b, y)
    ensures OnChord(from, to, Blend(w, a, b), Blend(w, x, y))
  {
    var h, rise := to.time - from.time, to.value - from.value;
    BlendLess(w, a, b, from.time);
    BlendLess(w, x, y, from.value);
    BlendScaled(w, x - from.value, y - from.value, h);
    BlendScaled(w, a - from.time, b - from.time, rise);
    assert (a - from.time) * rise == rise * (a - from.time);
    assert (b - from.time) * rise == rise * (b - from.time);
    hide Blend;
  }

  lemma BlendLess(w: real, a: real, b: real, c: real)
    ensures Blend(w, a, b) - c == Blend(w, a - c, b - c)
  {
  }

  lemma BlendScaled(w: real, a: real, b: real, h: real)
    ensures Blend(w, a, b) * h == Blend(w, a * h, b * h)
  {
  }

  lemma BlendInside(w: real, a: real, b: real, low: real, high: real)
    requires 0.0 <= w <= 1.0 && low <= a <= high && low <= b <= high
    ensures low <= Blend(w, a, b) <= high
  {
    ProductNonnegative(1.0 - w, a - low);
    ProductNonnegative(w, b - low);
    ProductNonnegative(1.0 - w, high - a);
    ProductNonnegative(w, high - b);
    assert (1.0 - w) * (a - low) + w * (b - low) == Blend(w, a, b) - low;
    assert (1.0 - w) * (high - a) + w * (high - b) == high - Blend(w, a, b);
  }

  lemma ChordUnique(from: Point, to: Point, time: real, x: real, y: real)
    requires from.time < to.time && OnChord(from, to, time, x) && OnChord(from, to, time, y)
    ensures x == y
  {
    SameQuotient(x - from.value, y - from.value, to.time - from.time);
  }

  /** On a linear segment a blend of two times reads the same blend of their readings. */
  lemma LinearBlends(n: seq<Point>, k: nat, a: real, b: real, w: real)
    requires StrictlyAscending(n) && InSegment(n, k, a) && InSegment(n, k, b) && 0.0 <= w <= 1.0
    ensures Read(n, Linear, Blend(w, a, b)) == Blend(w, Read(n, Linear, a), Read(n, Linear, b))
  {
    hide Read, Blend, OnChord;
    BlendInside(w, a, b, n[k].time, n[k + 1].time);
    LinearRead(n, k, a);
    LinearRead(n, k, b);
    LinearRead(n, k, Blend(w, a, b));
    BlendChord(n[k], n[k + 1], w, a, b, Read(n, Linear, a), Read(n, Linear, b));
    ChordUnique(n[k], n[k + 1], Blend(w, a, b), Read(n, Linear, Blend(w, a, b)),
                Blend(w, Read(n, Linear, a), Read(n, Linear, b)));
  }

  // ----------------------------------------------------------------------------- cubics

  /** A cubic in `u` that leaves `value` with the given slope. */
  function Leaving(value: real, slope: real, c: real, d: real, u: real): real {
    value + slope * u + u * u * (c + d * u)
  }

  function Bend(v0: real, v1: real, out: real, into: real, h: real): real {
    3.0 * (v1 - v0) - h * (2.0 * out + into)
  }

  function Twist(v0: real, v1: real, out: real, into: real, h: real): real {
    h * (out + into) - 2.0 * (v1 - v0)
  }

  lemma HermiteLeaves(from: Point, to: Point, p: real, h: real)
    ensures HermiteAt(from, to, p, h)
            == Leaving(from.value, from.outTangent * h, Bend(from.value, to.value, from.outTangent, to.inTangent, h),
                       Twist(from.value, to.value, from.outTangent, to.inTangent, h), p)
  {
  }

  /** A segment run backwards: values change places and slopes change sign as well. */
  function Reversed(p: Point): Point {
    Point(-p.time, p.value, -p.outTangent, -p.inTangent)
  }

  lemma HermiteReversed(from: Point, to: Point, p: real, h: real)
    ensures HermiteAt(from, to, p, h) == HermiteAt(Reversed(to), Reversed(from), 1.0 - p, h)
  {
  }

  /** The coefficients for elapsed time in place of progress. */
  lemma InTime(a: real, b: real, h: real) returns (c: real, d: real)
    requires h > 0.0
    ensures a == c * h * h && b == d * h * h * h
  {
    c, d := a / h / h, b / h / h / h;
  }

  lemma HermiteInTime(from: Point, to: Point, h: real, c: real, d: real, u: real)
    requires h > 0.0
    requires Bend(from.value, to.value, from.outTangent, to.inTangent, h) == c * h * h
    requires Twist(from.value, to.value, from.outTangent, to.inTangent, h) == d * h * h * h
    ensures HermiteAt(from, to, u / h, h) == Leaving(from.value, from.outTangent, c, d, u)
  {
    var p, slope := u / h, from.outTangent * h;
    var bend := Bend(from.value, to.value, from.outTangent, to.inTangent, h);
    var twist := Twist(from.value, to.value, from.outTangent, to.inTangent, h);
    HermiteLeaves(from, to, p, h);
    hide HermiteAt, Bend, Twist;
    assert p * h == u;
    ScaledTerms(from.outTangent, c, d, h, p, u, slope, bend, twist);
    LeavingBy(from.value, slope, bend, twist, p);
    LeavingBy(from.value, from.outTangent, c, d, u);
    hide Leaving;
  }

  lemma LeavingBy(value: real, slope: real, c: real, d: real, u: real)
    ensures Leaving(value, slope, c, d, u) == value + Terms(slope, c, d, u)
  {
  }

  function Terms(slope: real, c: real, d: real, u: real): real {
    slope * u + u * u * (c + d * u)
  }

  lemma ScaledTerms(out: real, c: real, d: real, h: real, p: real, u: real, slope: real, bend: real, twist: real)
    requires u == p * h && slope == out * h && bend == c * h * h && twist == d * h * h * h
    ensures Terms(slope, bend, twist, p) == Terms(out, c, d, u)
  {
  }

  ghost predicate LeavesStart(n: seq<Point>, k: nat, c: real, d: real, time: real)
    requires StrictlyAscending(n) && k + 1 < |n|
  {
    InSegment(n, k, time) ==>
      Read(n, Hermite, time) == Leaving(n[k].value, n[k].outTangent, c, d, time - n[k].time)
  }

  ghost predicate ReachesEnd(n: seq<Point>, k: nat, c: real, d: real, time: real)
    requires StrictlyAscending(n) && k + 1 < |n|
  {
    InSegment(n, k, time) ==>
      Read(n, Hermite, time) == Leaving(n[k + 1].value, -n[k + 1].inTangent, c, d, n[k + 1].time - time)
  }

  /** Both ends of a hermite segment are read by the same formula as its inside. */
  lemma HermiteRead(n: seq<Point>, k: nat, time: real)
    requires StrictlyAscending(n) && InSegment(n, k, time)
    ensures var h := n[k + 1].time - n[k].time;
            Read(n, Hermite, time) == HermiteAt(n[k], n[k + 1], (time - n[k].time) / h, h)
  {
    if time < n[k + 1].time {
      SegmentRead(n, Hermite, k, time);
      hide Reading;
    } else {
      ControlTimesRead(n, Hermite, k + 1);
      hide Reading;
      ProgressOf(time - n[k].time, n[k + 1].time - n[k].time, 1.0);
      HermiteAtOne(n[k], n[k + 1], n[k + 1].time - n[k].time);
      hide HermiteAt;
    }
  }

  lemma HermiteAtOne(from: Point, to: Point, h: real)
    ensures HermiteAt(from, to, 1.0, h) == to.value
  {
  }

  /** A hermite segment is one cubic that leaves its first point and reaches its second with their slopes. */
  lemma HermiteMeetsSlopes(n: seq<Point>, k: nat) returns (c: real, d: real, e: real, f: real)
    requires StrictlyAscending(n) && k + 1 < |n|
    ensures forall time :: LeavesStart(n, k, c, d, time)
    ensures forall time :: ReachesEnd(n, k, e, f, time)
  {
    hide HermiteAt, Leaving, Bend, Twist, Read;
    var from, to := n[k], n[k + 1];
    var h := to.time - from.time;
    var out, into := from.outTangent, to.inTangent;
    c, d := InTime(Bend(from.value, to.value, out, into, h), Twist(from.value, to.value, out, into, h), h);
    e, f := InTime(Bend(to.value, from.value, -into, -out, h), Twist(to.value, from.value, -into, -out, h), h);
    forall time | InSegment(n, k, time) ensures LeavesStart(n, k, c, d, time) && ReachesEnd(n, k, e, f, time) {
      HermiteRead(n, k, time);
      HermiteInTime(from, to, h, c, d, time - from.time);
      HermiteReversed(from, to, (time - from.time) / h, h);
      Complement(time - from.time, to.time - time, h);
      HermiteInTime(Reversed(to), Reversed(from), h, e, f, to.time - time);
    }
  }

  lemma Complement(u: real, v: real, h: real)
    requires h > 0.0 && u + v == h
    ensures 1.0 - u / h == v / h
  {
    assert (u / h) * h == u;
    Distribute(1.0, -(u / h), h);
    ProgressOf(v, h, 1.0 - u / h);
  }

  // ------------------------------------------------------------------- lines stay lines

  ghost predicate OnLine(p: Point, start: Point, s: real) {
    p.value - start.value == s * (p.time - start.time)
  }

  lemma LineStep(start: Point, p: Point, q: Point, s: real)
    requires OnLine(p, start, s) && IsSlope(s, p, q)
    ensures OnLine(q, start, s)
  {
    assert s * (q.time - start.time) == s * (q.time - p.time) + s * (p.time - start.time);
  }

  lemma {:induction false} PointsOnLine(n: seq<Point>, s: real, k: nat)
    requires k < |n| && forall i :: 0 <= i < |n| - 1 ==> IsSlope(s, n[i], n[i + 1])
    ensures OnLine(n[k], n[0], s)
  {
    if k > 0 {
      hide IsSlope, OnLine;
      PointsOnLine(n, s, k - 1);
      assert IsSlope(s, n[k - 1], n[k - 1 + 1]);
      LineStep(n[0], n[k - 1], n[k], s);
    }
  }

  /** With both tangents equal to the chord's slope the cubic is the chord. */
  lemma StraightSegment(from: Point, to: Point, s: real, p: real, h: real)
    requires from.outTangent == s == to.inTangent && to.value - from.value == s * h
    ensures HermiteAt(from, to, p, h) == from.value + s * (p * h)
  {
    HermiteLeaves(from, to, p, h);
    assert Bend(from.value, to.value, s, s, h) == 0.0 && Twist(from.value, to.value, s, s, h) == 0.0;
    assert s * h * p == s * (p * h);
    hide HermiteAt, Bend, Twist;
  }

  /** Points on a straight line, given monotone tangents, are read as that line. */
  lemma LineReadsItself(n: seq<Point>, root: real -> real, s: real, k: nat, time: real)
    requires IsSquareRoot(root) && StrictlyAscending(n) && InSegment(n, k, time)
    requires forall i :: 0 <= i < |n| - 1 ==> IsSlope(s, n[i], n[i + 1])
    ensures var r := WithTangents(n, Tangents(n, root));
            StrictlyAscending(r) && Read(r, Hermite, time) - n[0].value == s * (time - n[0].time)
  {
    hide Tangents, HermiteAt, Read;
    LineReproduced(n, root, s);
    var r := WithTangents(n, Tangents(n, root));
    assert StrictlyAscending(r);
    assert InSegment(r, k, time);
    HermiteRead(r, k, time);
    PointsOnLine(n, s, k);
    var h := n[k + 1].time - n[k].time;
    var p := (time - n[k].time) / h;
    assert IsSlope(s, n[k], n[k + 1]);
    StraightSegment(r[k], r[k + 1], s, p, h);
    LineValue(n[0], n[k], s, time, p, h);
  }

  lemma LineValue(start: Point, from: Point, s: real, time: real, p: real, h: real)
    requires OnLine(from, start, s) && h > 0.0 && p == (time - from.time) / h
    ensures from.value + s * (p * h) - start.value == s * (time - start.time)
  {
    assert p * h == time - from.time;
    assert s * (time - start.time) == s * (time - from.time) + s * (from.time - start.time);
  }
}
