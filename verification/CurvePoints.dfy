/**
 Normalising the control points of a simulation curve: sorted by time, one point
 per time, the last-listed point holding a contested time.
 */
module CurvePoints {
  import opened StableSorting

  datatype Point = Point(time: real, value: real, inTangent: real, outTangent: real)

  const ByTime: Point -> real := (p: Point) => p.time

  ghost predicate StrictlyAscending(points: seq<Point>) {
    forall i, j :: 0 <= i < j < |points| ==> points[i].time < points[j].time
  }

  /** The points listed for time `t`, in order. */
  function At(points: seq<Point>, t: real): seq<Point> {
    Bucket(points, ByTime, t)
  }

  /** `normalized` has exactly the times of `points`, each holding the point listed last for it. */
  ghost predicate IsNormalization(points: seq<Point>, normalized: seq<Point>) {
    && StrictlyAscending(normalized)
    && forall t :: LastWins(points, normalized, t)
  }

  ghost predicate LastWins(points: seq<Point>, normalized: seq<Point>, t: real) {
    var listed := At(points, t);
    At(normalized, t) == if listed == [] then [] else [listed[|listed| - 1]]
  }

  method NormalizeCurvePoints(points: seq<Point>) returns (normalized: seq<Point>)
    ensures IsNormalization(points, normalized)
  {
    var sorted := StableSort(points, ByTime);
    SortIsStable(points, ByTime);
    normalized := [];
    for i := 0 to |sorted|
      invariant IsNormalization(sorted[..i], normalized)
      invariant forall k, j :: 0 <= k < |normalized| && i <= j < |sorted| ==> normalized[k].time <= sorted[j].time
    {
      assert sorted[..i + 1] == sorted[..i] + [sorted[i]];
      var point := sorted[i];
      if |normalized| > 0 && normalized[|normalized| - 1].time == point.time {
        ReplaceLast(sorted[..i], normalized, point);
        normalized := normalized[..|normalized| - 1] + [point];
      } else {
        PushPoint(sorted[..i], normalized, point);
        normalized := normalized + [point];
      }
    }
    assert sorted[..|sorted|] == sorted;
    forall t ensures LastWins(points, normalized, t) {
      assert LastWins(sorted, normalized, t);
    }
  }

  lemma {:induction false} AtOfAscending(points: seq<Point>, k: nat)
    requires StrictlyAscending(points) && k < |points|
    ensures At(points, points[k].time) == [points[k]]
  {
    assert points == points[..k] + [points[k]] + points[k + 1..];
    BucketConcat(points[..k] + [points[k]], points[k + 1..], ByTime, points[k].time);
    BucketConcat(points[..k], [points[k]], ByTime, points[k].time);
    AtElsewhere(points[..k], points[k].time);
    AtElsewhere(points[k + 1..], points[k].time);
    assert [points[k]][1..] == [];
  }

  lemma {:induction false} AtElsewhere(points: seq<Point>, t: real)
    requires forall i :: 0 <= i < |points| ==> points[i].time != t
    ensures At(points, t) == []
  {
    if points != [] {
      AtElsewhere(points[1..], t);
    }
  }

  lemma PushPoint(seen: seq<Point>, normalized: seq<Point>, point: Point)
    requires IsNormalization(seen, normalized)
    requires forall k :: 0 <= k < |normalized| ==> normalized[k].time <= point.time
    requires |normalized| == 0 || normalized[|normalized| - 1].time != point.time
    ensures IsNormalization(seen + [point], normalized + [point])
  {
    var longer := normalized + [point];
    assert StrictlyAscending(longer);
    forall t ensures LastWins(seen + [point], longer, t) {
      assert LastWins(seen, normalized, t);
      BucketConcat(seen, [point], ByTime, t);
      BucketConcat(normalized, [point], ByTime, t);
      assert [point][1..] == [];
      if t == point.time {
        AtElsewhere(normalized, t);
      }
    }
  }

  lemma ReplaceLast(seen: seq<Point>, normalized: seq<Point>, point: Point)
    requires IsNormalization(seen, normalized)
    requires |normalized| > 0 && normalized[|normalized| - 1].time == point.time
    ensures IsNormalization(seen + [point], normalized[..|normalized| - 1] + [point])
  {
    var n := |normalized| - 1;
    var front := normalized[..n];
    assert normalized == front + [normalized[n]];
    forall t ensures LastWins(seen + [point], front + [point], t) {
      assert LastWins(seen, normalized, t);
      BucketConcat(seen, [point], ByTime, t);
      BucketConcat(front, [point], ByTime, t);
      BucketConcat(front, [normalized[n]], ByTime, t);
      assert [point][1..] == [] && [normalized[n]][1..] == [];
      if t == point.time {
        AtElsewhere(front, t);
      }
    }
  }

  /** The normalisation of a list is unique, so every consumer agrees on it. */
  lemma NormalizationUnique(points: seq<Point>, a: seq<Point>, b: seq<Point>)
    requires IsNormalization(points, a) && IsNormalization(points, b)
    ensures a == b
  {
    forall t ensures Bucket(a, ByTime, t) == Bucket(b, ByTime, t) {
      assert LastWins(points, a, t) && LastWins(points, b, t);
    }
    StableSortUnique(a, b, ByTime);
  }

  /** Normalised points are their own normalisation: normalising twice changes nothing. */
  lemma NormalizationIdempotent(points: seq<Point>, normalized: seq<Point>)
    requires StrictlyAscending(points)
    ensures IsNormalization(points, normalized) <==> normalized == points
  {
    forall t ensures LastWins(points, points, t) {
      if k :| 0 <= k < |points| && points[k].time == t {
        AtOfAscending(points, k);
      } else {
        AtElsewhere(points, t);
      }
    }
    if IsNormalization(points, normalized) {
      NormalizationUnique(points, points, normalized);
    }
  }

  /** The times are covered exactly: none is lost and none is invented. */
  lemma NormalizationTimes(points: seq<Point>, normalized: seq<Point>, t: real)
    requires IsNormalization(points, normalized)
    ensures (exists i :: 0 <= i < |points| && points[i].time == t)
            <==> (exists k :: 0 <= k < |normalized| && normalized[k].time == t)
  {
    assert LastWins(points, normalized, t);
    NonemptyAt(points, t);
    NonemptyAt(normalized, t);
  }

  lemma {:induction false} NonemptyAt(points: seq<Point>, t: real)
    ensures At(points, t) != [] <==> exists i :: 0 <= i < |points| && points[i].time == t
  {
    if points != [] {
      NonemptyAt(points[1..], t);
      if i :| 0 <= i < |points| && points[i].time == t {
        assert i > 0 ==> points[1..][i - 1].time == t;
      }
    }
  }

  /** The last point listed for a time that is listed at all. */
  lemma {:induction false} LastAt(points: seq<Point>, t: real) returns (i: nat)
    requires At(points, t) != []
    ensures i < |points| && points[i].time == t && points[i] == At(points, t)[|At(points, t)| - 1]
    ensures forall j :: i < j < |points| ==> points[j].time != t
  {
    var n := |points| - 1;
    assert points == points[..n] + [points[n]];
    BucketConcat(points[..n], [points[n]], ByTime, t);
    assert [points[n]][1..] == [];
    if points[n].time == t {
      i := n;
    } else {
      i := LastAt(points[..n], t);
    }
  }

  /** Every normalised point is one of those listed, with no later one listed for its time. */
  lemma LastListedWins(points: seq<Point>, normalized: seq<Point>, k: nat)
    requires IsNormalization(points, normalized) && k < |normalized|
    ensures exists i :: 0 <= i < |points| && points[i] == normalized[k]
                        && forall j :: i < j < |points| ==> points[j].time != normalized[k].time
  {
    var t := normalized[k].time;
    AtOfAscending(normalized, k);
    assert LastWins(points, normalized, t);
    var i := LastAt(points, t);
  }
}
