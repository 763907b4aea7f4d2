/**
 Monotone cubic tangents after Fritsch and Carlson (SIAM Journal on Numerical
 Analysis, 1980), and the promise made for them: a hermite curve with these
 tangents never overshoots its points, and through ascending points it never
 falls. The square root is a parameter.
 */
module MonotoneCurves {
  import opened CurvePoints

  ghost predicate IsSquareRoot(root: real -> real) {
    forall x :: x > 9.0 ==> root(x) > 0.0 && root(x) * root(x) == x
  }

  // ---------------------------------------------------------------- the algorithm

  function Secant(from: Point, to: Point): real
    requires from.time < to.time
  {
    (to.value - from.value) / (to.time - from.time)
  }

  function Secants(points: seq<Point>): (s: seq<real>)
    requires StrictlyAscending(points) && |points| >= 1
    ensures |s| == |points| - 1
  {
    seq(|points| - 1, i requires 0 <= i < |points| - 1 => Secant(points[i], points[i + 1]))
  }

  function Sign(x: real): int {
    if x > 0.0 then 1 else if x < 0.0 then -1 else 0
  }

  /** The end points take their only secant; a turn or a plateau is pinned flat; otherwise the secants average. */
  function InitialTangent(secants: seq<real>, i: nat): real
    requires 1 <= |secants| && i <= |secants|
  {
    if i == 0 then secants[0]
    else if i == |secants| then secants[i - 1]
    else if secants[i - 1] == 0.0 || secants[i] == 0.0 || Sign(secants[i - 1]) != Sign(secants[i]) then 0.0
    else (secants[i - 1] + secants[i]) / 2.0
  }

  function InitialTangents(secants: seq<real>): seq<real>
    requires 1 <= |secants|
  {
    seq(|secants| + 1, i requires 0 <= i <= |secants| => InitialTangent(secants, i))
  }

  function Over(a: real, b: real): real
    requires b != 0.0
  {
    a / b
  }

  function Radius(alpha: real, beta: real): real {
    alpha * alpha + beta * beta
  }

  /** A ratio scaled back onto the circle of radius three, as a slope again. */
  function Rescaled(length: real, alpha: real, secant: real): real
    requires length != 0.0
  {
    3.0 / length * alpha * secant
  }

  /** What the sweep makes of the two tangents of one segment. */
  function ShrunkPair(start: real, end: real, secant: real, root: real -> real): (real, real)
    requires IsSquareRoot(root)
  {
    if secant == 0.0 then (0.0, 0.0)
    else
      var alpha, beta := Over(start, secant), Over(end, secant);
      var radius := Radius(alpha, beta);
      if radius > 9.0 then
        (Rescaled(root(radius), alpha, secant), Rescaled(root(radius), beta, secant))
      else (start, end)
  }

  function SweepAt(tangents: seq<real>, secants: seq<real>, i: nat, root: real -> real): seq<real>
    requires IsSquareRoot(root) && |tangents| == |secants| + 1 && i < |secants|
  {
    var pair := ShrunkPair(tangents[i], tangents[i + 1], secants[i], root);
    tangents[i := pair.0][i + 1 := pair.1]
  }

  function SweepFrom(tangents: seq<real>, secants: seq<real>, i: nat, root: real -> real): (r: seq<real>)
    requires IsSquareRoot(root) && |tangents| == |secants| + 1 && i <= |secants|
    ensures |r| == |tangents|
    decreases |secants| - i
  {
    if i == |secants| then tangents
    else SweepFrom(SweepAt(tangents, secants, i, root), secants, i + 1, root)
  }

  /** The tangent of every normalised point; a lone point is flat. */
  function Tangents(points: seq<Point>, root: real -> real): (r: seq<real>)
    requires IsSquareRoot(root) && StrictlyAscending(points)
    ensures |r| == |points|
  {
    if |points| < 2 then seq(|points|, _ => 0.0)
    else SweepFrom(InitialTangents(Secants(points)), Secants(points), 0, root)
  }

  function WithTangents(points: seq<Point>, tangents: seq<real>): seq<Point>
    requires |points| == |tangents|
  {
    seq(|points|, i requires 0 <= i < |points| => points[i].(inTangent := tangents[i], outTangent := tangents[i]))
  }

  method MonotoneTangents(points: seq<Point>, root: real -> real) returns (r: seq<Point>)
    requires IsSquareRoot(root)
    ensures exists n :: IsNormalization(points, n) && r == WithTangents(n, Tangents(n, root))
  {
    var normalized := NormalizeCurvePoints(points);
    if |normalized| < 2 {
      r := WithTangents(normalized, seq(|normalized|, _ => 0.0));
      return;
    }
    var secants: seq<real> := [];
    for i := 0 to |normalized| - 1
      invariant secants == Secants(normalized)[..i]
    {
      secants := secants + [Secant(normalized[i], normalized[i + 1])];
    }
    assert secants == Secants(normalized);
    var tangents := SweepTangents(secants, root);
    r := WithTangents(normalized, tangents);
  }

  /** The in-place sweep: each step rewrites two neighbouring tangents, one of them shared with the step before. */
  method SweepTangents(secants: seq<real>, root: real -> real) returns (r: seq<real>)
    requires IsSquareRoot(root) && |secants| >= 1
    ensures r == SweepFrom(InitialTangents(secants), secants, 0, root)
  {
    hide ShrunkPair;
    var tangents := new real[|secants| + 1](i requires 0 <= i <= |secants| => InitialTangent(secants, i));
    assert tangents[..] == InitialTangents(secants);
    for i := 0 to |secants|
      invariant SweepFrom(tangents[..], secants, i, root) == SweepFrom(InitialTangents(secants), secants, 0, root)
    {
      ghost var before := tangents[..];
      var pair := ShrunkPair(tangents[i], tangents[i + 1], secants[i], root);
      tangents[i] := pair.0;
      tangents[i + 1] := pair.1;
      assert tangents[..] == SweepAt(before, secants, i, root);
    }
    r := tangents[..];
  }

  // ------------------------------------------------------------- what the sweep leaves

  /** The tangent points the way the secant does, and vanishes where the secant does. */
  ghost predicate Agrees(t: real, s: real) {
    (s >= 0.0 ==> t >= 0.0) && (s <= 0.0 ==> t <= 0.0)
  }

  /** The tangent lies between zero and three times the secant. */
  ghost predicate Within(t: real, s: real) {
    (s >= 0.0 ==> 0.0 <= t <= 3.0 * s) && (s <= 0.0 ==> 3.0 * s <= t <= 0.0)
  }

  ghost predicate Shrinks(a: real, b: real) {
    0.0 <= b <= a || a <= b <= 0.0
  }

  lemma ShrinkByFactor(c: real, x: real)
    requires 0.0 <= c <= 1.0
    ensures Shrinks(x, c * x)
  {
  }

  lemma WithinByRatio(a: real, s: real)
    requires 0.0 <= a <= 3.0
    ensures Within(a * s, s)
  {
  }

  lemma SquareBound(a: real, w: real)
    requires a >= 0.0 && w > 0.0 && a * a <= w * w
    ensures a <= w
  {
  }

  /** An agreeing tangent is a non-negative multiple of a non-zero secant. */
  lemma RatioOf(t: real, s: real)
    requires s != 0.0 && Agrees(t, s)
    ensures Over(t, s) >= 0.0 && Over(t, s) * s == t
  {
  }

  lemma RadiusBounds(alpha: real, beta: real)
    ensures alpha * alpha <= Radius(alpha, beta) && beta * beta <= Radius(alpha, beta)
  {
  }

  lemma RootOf(root: real -> real, x: real)
    requires IsSquareRoot(root) && x > 9.0
    ensures root(x) > 3.0 && root(x) * root(x) == x
  {
  }

  lemma PairWithin(start: real, end: real, secant: real, root: real -> real)
    requires IsSquareRoot(root) && Agrees(start, secant) && Agrees(end, secant)
    ensures var pair := ShrunkPair(start, end, secant, root);
            && Within(pair.0, secant) && Within(pair.1, secant)
            && Shrinks(start, pair.0) && Shrinks(end, pair.1)
  {
    if secant != 0.0 {
      hide Over, Radius, Rescaled, Within, Shrinks;
      var alpha, beta := Over(start, secant), Over(end, secant);
      RatioOf(start, secant);
      RatioOf(end, secant);
      RadiusBounds(alpha, beta);
      if Radius(alpha, beta) > 9.0 {
        RootOf(root, Radius(alpha, beta));
        RescaledWithin(alpha, start, secant, root(Radius(alpha, beta)));
        RescaledWithin(beta, end, secant, root(Radius(alpha, beta)));
      } else {
        KeptWithin(alpha, start, secant);
        KeptWithin(beta, end, secant);
      }
    }
  }

  lemma KeptWithin(alpha: real, start: real, secant: real)
    requires alpha >= 0.0 && alpha * alpha <= 9.0 && alpha * secant == start
    ensures Within(start, secant) && Shrinks(start, start)
  {
  }

  lemma RescaledWithin(alpha: real, start: real, secant: real, w: real)
    requires alpha >= 0.0 && w > 3.0 && alpha * alpha <= w * w && alpha * secant == start
    ensures Within(Rescaled(w, alpha, secant), secant) && Shrinks(start, Rescaled(w, alpha, secant))
  {
    SquareBound(alpha, w);
    var scale := RescaledForms(w, alpha, secant);
    ScaledRatio(scale, alpha, w, 3.0);
    hide Within, Shrinks, Rescaled;
    WithinByRatio(scale * alpha, secant);
    ShrinkByFactor(scale, start);
  }

  lemma RescaledForms(w: real, alpha: real, secant: real) returns (scale: real)
    requires w > 3.0
    ensures 0.0 < scale <= 1.0 && scale * w == 3.0
    ensures Rescaled(w, alpha, secant) == (scale * alpha) * secant == scale * (alpha * secant)
  {
    scale := 3.0 / w;
  }

  lemma ScaledRatio(scale: real, alpha: real, w: real, bound: real)
    requires 0.0 <= alpha <= w && 0.0 < scale && bound == scale * w
    ensures 0.0 <= scale * alpha <= bound
  {
  }

  /** Before segment `i` the sweep has settled the segments; from `i` on the tangents still agree. */
  ghost predicate SweptTo(t: seq<real>, s: seq<real>, i: int)
    requires |t| == |s| + 1
  {
    && (forall j :: 0 <= j < |s| ==> Agrees(t[j], s[j]) && Agrees(t[j + 1], s[j]))
    && (forall j :: 0 <= j < i && j < |s| ==> Within(t[j], s[j]) && Within(t[j + 1], s[j]))
  }

  lemma InitiallyAgrees(s: seq<real>)
    requires |s| >= 1
    ensures SweptTo(InitialTangents(s), s, 0)
  {
  }

  lemma SweepAtSettles(t: seq<real>, s: seq<real>, i: nat, root: real -> real)
    requires IsSquareRoot(root) && |t| == |s| + 1 && i < |s| && SweptTo(t, s, i)
    ensures SweptTo(SweepAt(t, s, i, root), s, i + 1)
  {
    hide ShrunkPair;
    PairWithin(t[i], t[i + 1], s[i], root);
    var u := SweepAt(t, s, i, root);
    assert forall j :: 0 <= j < |t| ==> Shrinks(t[j], u[j]) || u[j] == t[j];
  }

  lemma {:induction false} SweepSettles(t: seq<real>, s: seq<real>, i: nat, root: real -> real)
    requires IsSquareRoot(root) && |t| == |s| + 1 && i <= |s| && SweptTo(t, s, i)
    ensures SweptTo(SweepFrom(t, s, i, root), s, |s|)
    decreases |s| - i
  {
    if i < |s| {
      SweepAtSettles(t, s, i, root);
      SweepSettles(SweepAt(t, s, i, root), s, i + 1, root);
    }
  }

  /** Every segment's two tangents lie between zero and three times its secant. */
  ghost predicate Settled(points: seq<Point>) {
    && StrictlyAscending(points)
    && forall i :: 0 <= i < |points| - 1 ==>
         && Within(points[i].outTangent, Secant(points[i], points[i + 1]))
         && Within(points[i + 1].inTangent, Secant(points[i], points[i + 1]))
  }

  lemma SameSecant(a: Point, b: Point, c: Point, d: Point)
    requires a.time == c.time && a.value == c.value && b.time == d.time && b.value == d.value && a.time < b.time
    ensures Secant(a, b) == Secant(c, d)
  {
  }

  lemma TangentsSettle(n: seq<Point>, root: real -> real)
    requires IsSquareRoot(root) && StrictlyAscending(n)
    ensures Settled(WithTangents(n, Tangents(n, root)))
  {
    hide InitialTangents, SweepFrom, ShrunkPair, Within, Secant;
    if |n| >= 2 {
      var s, t := Secants(n), Tangents(n, root);
      InitiallyAgrees(s);
      SweepSettles(InitialTangents(s), s, 0, root);
      var r := WithTangents(n, t);
      forall i | 0 <= i < |r| - 1
        ensures Within(r[i].outTangent, Secant(r[i], r[i + 1])) && Within(r[i + 1].inTangent, Secant(r[i], r[i + 1]))
      {
        SameSecant(r[i], r[i + 1], n[i], n[i + 1]);
      }
    }
  }
}
