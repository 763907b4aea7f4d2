/**
 Reading a curve at a point of its own timeline: segment search, the four
 interpolations, held ends, and looping over the curve's span. Numbers are reals.
 */
module CurveEvaluation {
  import opened Results
  import opened CurvePoints
  import opened RealArithmetic

  datatype Kind = Linear | Step | Hermite | Bezier

  datatype Curve = Curve(points: seq<Point>, interpolation: Kind, loop: bool)

  function HermiteAt(from: Point, to: Point, progress: real, segment: real): real {
    var squared := progress * progress;
    var cubed := squared * progress;
    (2.0 * cubed - 3.0 * squared + 1.0) * from.value
    + (cubed - 2.0 * squared + progress) * segment * from.outTangent
    + (-2.0 * cubed + 3.0 * squared) * to.value
    + (cubed - squared) * segment * to.inTangent
  }

  function BezierAt(from: Point, to: Point, progress: real, segment: real): real {
    var control1 := from.value + from.outTangent * segment / 3.0;
    var control2 := to.value - to.inTangent * segment / 3.0;
    var inverse := 1.0 - progress;
    inverse * inverse * inverse * from.value
    + 3.0 * inverse * inverse * progress * control1
    + 3.0 * inverse * progress * progress * control2
    + progress * progress * progress * to.value
  }

  function Interpolate(kind: Kind, from: Point, to: Point, progress: real, segment: real): real {
    match kind
    case Step => from.value
    case Hermite => HermiteAt(from, to, progress, segment)
    case Bezier => BezierAt(from, to, progress, segment)
    case Linear => from.value + (to.value - from.value) * progress
  }

  // ------------------------------------------------------------------ remainders

  function Truncate(q: real): int {
    if q >= 0.0 then q.Floor else -((-q).Floor)
  }

  /** The platform's `%`, whose result takes the sign of the dividend. */
  function Remainder(value: real, span: real): real
    requires span > 0.0
  {
    value - span * Truncate(value / span) as real
  }

  function PositiveRemainder(value: real, span: real): real
    requires span > 0.0
  {
    Remainder(Remainder(value, span) + span, span)
  }

  lemma UnitRange(f: real, span: real)
    requires span > 0.0
    ensures 0.0 <= f < 1.0 <==> 0.0 <= f * span < span
  {
  }

  /** For a non-negative dividend the quotient is the one that leaves a remainder in `[0, span)`. */
  lemma RemainderUnique(value: real, span: real, r: real, k: int)
    requires span > 0.0 && k >= 0 && 0.0 <= r < span && value == r + k as real * span
    ensures Remainder(value, span) == r
  {
    var f := Quotient(r, span);
    UnitRange(f, span);
    Distribute(f, k as real, span);
    QuotientUnique(value, span, f + k as real);
    FloorOf(f, k);
  }

  lemma FloorOf(f: real, k: int)
    requires 0.0 <= f < 1.0
    ensures (f + k as real).Floor == k
  {
  }

  lemma Fraction(q: real) returns (f: real, k: int)
    ensures 0.0 <= f < 1.0 && q == f + k as real
  {
    k := q.Floor;
    f := q - k as real;
  }

  lemma RemainderNegated(value: real, span: real)
    requires span > 0.0
    ensures Remainder(-value, span) == -Remainder(value, span)
  {
    var q := value / span;
    assert (-q) * span == -value;
    QuotientUnique(-value, span, -q);
    assert Truncate(-q) == -Truncate(q);
  }

  /** The remainder is the one representative of `value` modulo `span` in `[0, span)`. */
  lemma PositiveRemainderUnique(value: real, span: real, r: real, k: int)
    requires span > 0.0 && 0.0 <= r < span && value == r + k as real * span
    ensures PositiveRemainder(value, span) == r
  {
    if k >= 0 {
      RemainderUnique(value, span, r, k);
      RemainderUnique(r + span, span, r, 1);
    } else if r == 0.0 {
      assert -value == 0.0 + (-k) as real * span;
      RemainderUnique(-value, span, 0.0, -k);
      RemainderNegated(-value, span);
      RemainderUnique(0.0 + span, span, 0.0, 1);
    } else {
      assert -value == (span - r) + (-k - 1) as real * span;
      RemainderUnique(-value, span, span - r, -k - 1);
      RemainderNegated(-value, span);
      RemainderUnique(r, span, r, 0);
    }
  }

  lemma Representative(value: real, span: real) returns (r: real, k: int)
    requires span > 0.0
    ensures 0.0 <= r < span && value == r + k as real * span
  {
    var q := Quotient(value, span);
    var f;
    f, k := Fraction(q);
    r := f * span;
    UnitRange(f, span);
    Distribute(f, k as real, span);
  }

  lemma PositiveRemainderShift(value: real, span: real, n: int)
    requires span > 0.0
    ensures PositiveRemainder(value + n as real * span, span) == PositiveRemainder(value, span)
    ensures 0.0 <= PositiveRemainder(value, span) < span
  {
    var r, k := Representative(value, span);
    PositiveRemainderUnique(value, span, r, k);
    Distribute(k as real, n as real, span);
    PositiveRemainderUnique(value + n as real * span, span, r, k + n);
  }

  // ------------------------------------------------------------------ evaluation

  /** The last point, from `i` on, that is not later than `time`. */
  function Locate(points: seq<Point>, time: real, i: nat): (k: nat)
    requires i < |points|
    ensures i <= k < |points|
    decreases |points| - i
  {
    if i + 1 < |points| && points[i + 1].time <= time then Locate(points, time, i + 1) else i
  }

  function TimeOn(points: seq<Point>, loop: bool, phase: real): real
    requires points != []
  {
    var span := points[|points| - 1].time - points[0].time;
    if loop && span > 0.0 then points[0].time + PositiveRemainder(phase - points[0].time, span) else phase
  }

  function Eval(points: seq<Point>, kind: Kind, loop: bool, phase: real): Option<real>
    requires StrictlyAscending(points)
  {
    if points == [] then None
    else Some(Reading(points, kind, TimeOn(points, loop, phase)))
  }

  function Reading(points: seq<Point>, kind: Kind, time: real): real
    requires StrictlyAscending(points) && points != []
  {
    var n := |points|;
    if time <= points[0].time || n == 1 then points[0].value
    else if time >= points[n - 1].time then points[n - 1].value
    else
      var k := Locate(points, time, 0);
      LocateExact(points, time, 0);
      SegmentReading(points, kind, k, time)
  }

  function SegmentReading(points: seq<Point>, kind: Kind, k: nat, time: real): real
    requires StrictlyAscending(points) && k + 1 < |points|
  {
    var segment := points[k + 1].time - points[k].time;
    Interpolate(kind, points[k], points[k + 1], (time - points[k].time) / segment, segment)
  }

  lemma {:induction false} LocateExact(points: seq<Point>, time: real, i: nat)
    requires StrictlyAscending(points) && i < |points| && points[i].time <= time < points[|points| - 1].time
    ensures var k := Locate(points, time, i);
            k + 1 < |points| && points[k].time <= time < points[k + 1].time
    decreases |points| - i
  {
    if i + 1 < |points| && points[i + 1].time <= time {
      LocateExact(points, time, i + 1);
    }
  }

  /** The segment search finds the one segment whose half-open interval holds the time. */
  lemma LocateUnique(points: seq<Point>, time: real, k: nat)
    requires StrictlyAscending(points) && k + 1 < |points| && points[k].time <= time < points[k + 1].time
    ensures Locate(points, time, 0) == k
  {
    var j := Locate(points, time, 0);
    assert points[0].time <= time;
    LocateExact(points, time, 0);
  }

  method EvaluateNormalizedCurve(points: seq<Point>, kind: Kind, loop: bool, phase: real) returns (r: Option<real>)
    requires StrictlyAscending(points)
    ensures r == Eval(points, kind, loop, phase)
  {
    hide Interpolate, PositiveRemainder;
    if points == [] { return None; }
    var first, last := points[0], points[|points| - 1];
    if |points| == 1 { return Some(first.value); }
    var span := last.time - first.time;
    var time := if loop && span > 0.0 then first.time + PositiveRemainder(phase - first.time, span) else phase;
    if time <= first.time { return Some(first.value); }
    if time >= last.time { return Some(last.value); }
    LocateExact(points, time, 0);
    var index := 0;
    while index + 1 < |points| && points[index + 1].time <= time
      invariant index < |points|
      invariant Locate(points, time, index) == Locate(points, time, 0)
    {
      index := index + 1;
    }
    var from, to := points[index], points[index + 1];
    var segment := to.time - from.time;
    r := Some(Interpolate(kind, from, to, (time - from.time) / segment, segment));
    assert r.value == SegmentReading(points, kind, index, time);
    hide SegmentReading;
  }

  method EvaluateCurve(curve: Option<Curve>, phase: real) returns (r: Option<real>)
    ensures curve.None? ==> r.None?
    ensures curve.Some? ==> exists n ::
              && IsNormalization(curve.value.points, n)
              && r == Eval(n, curve.value.interpolation, curve.value.loop, phase)
  {
    if curve.None? { return None; }
    var normalized := NormalizeCurvePoints(curve.value.points);
    r := EvaluateNormalizedCurve(normalized, curve.value.interpolation, curve.value.loop, phase);
  }

  // -------------------------------------------------------------------- theorems

  /** On a non-looping curve every control time reads its own value, whatever the interpolation. */
  lemma ControlTimesRead(points: seq<Point>, kind: Kind, k: nat)
    requires StrictlyAscending(points) && k < |points|
    ensures Eval(points, kind, false, points[k].time) == Some(points[k].value)
  {
    if 0 < k < |points| - 1 {
      LocateUnique(points, points[k].time, k);
      var segment := points[k + 1].time - points[k].time;
      assert (points[k].time - points[k].time) / segment == 0.0;
      InterpolateAtZero(kind, points[k], points[k + 1], segment);
    }
  }

  lemma InterpolateAtZero(kind: Kind, from: Point, to: Point, segment: real)
    ensures Interpolate(kind, from, to, 0.0, segment) == from.value
  {
  }

  /** The two ways of writing a cubic segment agree at every progress. */
  lemma BezierIsHermite(from: Point, to: Point, progress: real, segment: real)
    ensures BezierAt(from, to, progress, segment) == HermiteAt(from, to, progress, segment)
  {
  }

  lemma BezierCurveIsHermiteCurve(points: seq<Point>, loop: bool, phase: real)
    requires StrictlyAscending(points)
    ensures Eval(points, Bezier, loop, phase) == Eval(points, Hermite, loop, phase)
  {
  }

  lemma TimeRepeats(points: seq<Point>, phase: real, n: int, shift: real)
    requires |points| > 1 && points[0].time < points[|points| - 1].time
    requires shift == n as real * (points[|points| - 1].time - points[0].time)
    ensures TimeOn(points, true, phase + shift) == TimeOn(points, true, phase)
  {
    var span := points[|points| - 1].time - points[0].time;
    PositiveRemainderShift(phase - points[0].time, span, n);
    hide PositiveRemainder;
    assert phase + shift - points[0].time == phase - points[0].time + n as real * span;
  }

  /** A looping curve repeats: shifting the phase by whole spans, either way, changes nothing. */
  lemma LoopRepeats(points: seq<Point>, kind: Kind, phase: real, n: int)
    requires StrictlyAscending(points) && points != []
    ensures var shift := n as real * (points[|points| - 1].time - points[0].time);
            Eval(points, kind, true, phase + shift) == Eval(points, kind, true, phase)
  {
    var shift := n as real * (points[|points| - 1].time - points[0].time);
    if |points| > 1 {
      TimeRepeats(points, phase, n, shift);
      hide Reading, TimeOn;
    } else {
      assert shift == 0.0;
    }
  }

  /** Inside its span a looping curve reads as the plain one, except that its end wraps to its start. */
  lemma LoopAgreesInside(points: seq<Point>, kind: Kind, phase: real)
    requires StrictlyAscending(points) && |points| > 1
    requires points[0].time <= phase < points[|points| - 1].time
    ensures Eval(points, kind, true, phase) == Eval(points, kind, false, phase)
  {
    var span := points[|points| - 1].time - points[0].time;
    PositiveRemainderUnique(phase - points[0].time, span, phase - points[0].time, 0);
    hide PositiveRemainder, Reading;
  }
}
