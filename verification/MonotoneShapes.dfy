/**
 What the monotone tangents are, without square roots and divisions: slopes, their
 means, and one pass that pulls each segment's pair back to the circle of radius three.
 */
module MonotoneShapes {
  import opened RealArithmetic
  import opened CurvePoints
  import opened MonotoneCurves

  // ---------------------------------------------------------------- the reference

  ghost predicate IsSlope(s: real, from: Point, to: Point) {
    s * (to.time - from.time) == to.value - from.value
  }

  ghost predicate AreSlopes(n: seq<Point>, slopes: seq<real>) {
    && |slopes| + 1 == |n|
    && forall i :: 0 <= i < |slopes| ==> IsSlope(slopes[i], n[i], n[i + 1])
  }

  /** A flat tangent at a turn or beside a plateau, twice the tangent the sum of the slopes elsewhere. */
  ghost predicate IsMean(before: real, after: real, t: real) {
    if before * after <= 0.0 then t == 0.0 else 2.0 * t == before + after
  }

  ghost predicate AreMeans(slopes: seq<real>, t: seq<real>) {
    && |t| == |slopes| + 1 >= 2
    && t[0] == slopes[0] && t[|slopes|] == slopes[|slopes| - 1]
    && forall i :: 0 < i < |slopes| ==> IsMean(slopes[i - 1], slopes[i], t[i])
  }

  /** The pair lies in the circle about zero of radius three times the slope. */
  ghost predicate InCircle(a: real, b: real, s: real) {
    Square(a) + Square(b) <= 9.0 * Square(s)
  }

  function Square(a: real): real {
    a * a
  }

  /** `(c, d)` points the way `(a, b)` does. */
  ghost predicate SameDirection(a: real, b: real, c: real, d: real) {
    c * b == d * a && c * a >= 0.0 && d * b >= 0.0
  }

  /** A pair inside the circle is kept, one outside is moved straight to it, and a plateau is flat. */
  ghost predicate Tamed(a: real, b: real, s: real, c: real, d: real) {
    if s == 0.0 then c == 0.0 && d == 0.0
    else if InCircle(a, b, s) then c == a && d == b
    else Square(c) + Square(d) == 9.0 * Square(s) && SameDirection(a, b, c, d)
  }

  ghost predicate IsTurn(t: seq<real>, u: seq<real>, slopes: seq<real>, i: nat)
    requires |t| == |u| == |slopes| + 1 && i < |slopes|
  {
    && Tamed(t[i], t[i + 1], slopes[i], u[i], u[i + 1])
    && u == t[i := u[i]][i + 1 := u[i + 1]]
  }

  /** One pass over the segments in order, each turn starting from what the turn before left. */
  ghost predicate IsPass(slopes: seq<real>, trace: seq<seq<real>>) {
    && |trace| == |slopes| + 1
    && (forall i :: 0 <= i < |trace| ==> |trace[i]| == |slopes| + 1)
    && (forall i :: 0 <= i < |slopes| ==> IsTurn(trace[i], trace[i + 1], slopes, i))
  }

  // ----------------------------------------------------------------- the code meets it

  lemma SecantIsSlope(from: Point, to: Point)
    requires from.time < to.time
    ensures IsSlope(Secant(from, to), from, to)
  {
  }

  lemma SignsAgree(a: real, b: real)
    ensures a * b <= 0.0 <==> a == 0.0 || b == 0.0 || Sign(a) != Sign(b)
  {
    if (a > 0.0 && b > 0.0) || (a < 0.0 && b < 0.0) {
      assert a * b > 0.0;
    } else if a >= 0.0 && b <= 0.0 {
      ProductNonnegative(a, -b);
    } else {
      ProductNonnegative(-a, b);
    }
  }

  lemma StartsWithMeans(slopes: seq<real>)
    requires |slopes| >= 1
    ensures AreMeans(slopes, InitialTangents(slopes))
  {
    forall i | 0 < i < |slopes| ensures IsMean(slopes[i - 1], slopes[i], InitialTangents(slopes)[i]) {
      SignsAgree(slopes[i - 1], slopes[i]);
    }
  }

  lemma OverTimes(a: real, s: real)
    requires s != 0.0
    ensures Over(a, s) * s == a && Square(a) == Square(Over(a, s)) * Square(s)
  {
    var q := Over(a, s);
    assert Square(q * s) == Square(q) * Square(s);
  }

  lemma CircleIsRadius(a: real, b: real, s: real)
    requires s != 0.0
    ensures InCircle(a, b, s) <==> Radius(Over(a, s), Over(b, s)) <= 9.0
  {
    OverTimes(a, s);
    OverTimes(b, s);
    var r := Radius(Over(a, s), Over(b, s));
    assert Square(a) + Square(b) == r * Square(s) by {
      Distribute(Square(Over(a, s)), Square(Over(b, s)), Square(s));
    }
    SquarePositive(s);
    hide Square, Radius, Over;
    CompareProducts(r, 9.0, Square(s));
  }

  lemma SquarePositive(a: real)
    requires a != 0.0
    ensures Square(a) > 0.0
  {
    if a > 0.0 {
      PositiveProduct(a, a, Square(a));
    } else {
      PositiveProduct(-a, -a, Square(a));
    }
  }

  lemma PositiveProduct(a: real, b: real, product: real)
    requires a > 0.0 && b > 0.0 && product == a * b
    ensures product > 0.0
  {
  }

  lemma CompareProducts(a: real, b: real, c: real)
    requires c > 0.0
    ensures a * c <= b * c <==> a <= b
  {
  }

  lemma ScaleDirection(k: real, a: real, b: real)
    requires k > 0.0
    ensures SameDirection(a, b, k * a, k * b)
  {
    assert (k * a) * a == k * (a * a) && (k * b) * b == k * (b * b);
  }

  lemma RescaledLength(w: real, alpha: real, beta: real, s: real)
    requires w > 3.0 && w * w == Radius(alpha, beta)
    ensures Square(Rescaled(w, alpha, s)) + Square(Rescaled(w, beta, s)) == 9.0 * Square(s)
  {
    var k := RescaledForms(w, alpha, s);
    var k' := RescaledForms(w, beta, s);
    SameFactor(k, k', w);
    hide Rescaled, Radius;
    ScaledSquare(k, alpha, s);
    ScaledSquare(k, beta, s);
    assert k * k * (w * w) == (k * w) * (k * w) == 9.0;
    CircleOf(k, w, alpha, beta, s);
  }

  lemma SameFactor(k: real, l: real, w: real)
    requires w > 3.0 && k * w == l * w
    ensures k == l
  {
  }

  lemma ScaledSquare(k: real, alpha: real, s: real)
    ensures Square((k * alpha) * s) == k * k * (alpha * alpha) * Square(s)
  {
  }

  lemma CircleOf(k: real, w: real, alpha: real, beta: real, s: real)
    requires w * w == Radius(alpha, beta) && k * k * (w * w) == 9.0
    ensures k * k * (alpha * alpha) * Square(s) + k * k * (beta * beta) * Square(s) == 9.0 * Square(s)
  {
    Distribute(k * k * (alpha * alpha), k * k * (beta * beta), Square(s));
    assert k * k * (alpha * alpha) + k * k * (beta * beta) == k * k * (alpha * alpha + beta * beta);
  }

  lemma RescaledBy(w: real, a: real, s: real)
    requires w > 3.0 && s != 0.0
    ensures Rescaled(w, Over(a, s), s) == 3.0 / w * a
  {
    OverTimes(a, s);
    var k, q := 3.0 / w, Over(a, s);
    hide Over;
    assert k * q * s == k * (q * s);
  }

  /** The sweep's step on one pair is the reference's. */
  lemma PairTamed(a: real, b: real, s: real, root: real -> real)
    requires IsSquareRoot(root)
    ensures var pair := ShrunkPair(a, b, s, root); Tamed(a, b, s, pair.0, pair.1)
  {
    if s != 0.0 {
      hide Over, Radius, Rescaled, InCircle, SameDirection, Square;
      CircleIsRadius(a, b, s);
      var alpha, beta := Over(a, s), Over(b, s);
      if Radius(alpha, beta) > 9.0 {
        var w := root(Radius(alpha, beta));
        RootOf(root, Radius(alpha, beta));
        RescaledLength(w, alpha, beta, s);
        RescaledBy(w, a, s);
        RescaledBy(w, b, s);
        ScaleDirection(3.0 / w, a, b);
      }
    }
  }

  /** The lists the sweep runs through. */
  ghost function TraceFrom(t: seq<real>, s: seq<real>, i: nat, root: real -> real): seq<seq<real>>
    requires IsSquareRoot(root) && |t| == |s| + 1 && i <= |s|
    decreases |s| - i
  {
    if i == |s| then [t] else [t] + TraceFrom(SweepAt(t, s, i, root), s, i + 1, root)
  }

  lemma {:induction false} TraceTurns(t: seq<real>, s: seq<real>, i: nat, root: real -> real)
    requires IsSquareRoot(root) && |t| == |s| + 1 && i <= |s|
    ensures var trace := TraceFrom(t, s, i, root);
            && |trace| == |s| + 1 - i
            && trace[0] == t && trace[|s| - i] == SweepFrom(t, s, i, root)
            && (forall k :: 0 <= k < |trace| ==> |trace[k]| == |s| + 1)
            && (forall k :: 0 <= k < |s| - i ==> IsTurn(trace[k], trace[k + 1], s, i + k))
    decreases |s| - i
  {
    if i < |s| {
      hide IsTurn, ShrunkPair, Tamed;
      var u := SweepAt(t, s, i, root);
      TraceTurns(u, s, i + 1, root);
      SweepTurns(t, s, i, root);
      var trace, later := TraceFrom(t, s, i, root), TraceFrom(u, s, i + 1, root);
      forall k | 0 <= k < |s| - i ensures IsTurn(trace[k], trace[k + 1], s, i + k) {
        if k > 0 {
          assert IsTurn(later[k - 1], later[k], s, i + 1 + (k - 1));
        }
      }
    }
  }

  lemma SweepTurns(t: seq<real>, s: seq<real>, i: nat, root: real -> real)
    requires IsSquareRoot(root) && |t| == |s| + 1 && i < |s|
    ensures IsTurn(t, SweepAt(t, s, i, root), s, i)
  {
    PairTamed(t[i], t[i + 1], s[i], root);
    hide ShrunkPair, Tamed;
  }

  /** The tangents are what one pass makes of the means of the slopes. */
  lemma TangentsByReference(n: seq<Point>, root: real -> real) returns (slopes: seq<real>, trace: seq<seq<real>>)
    requires IsSquareRoot(root) && StrictlyAscending(n) && |n| >= 2
    ensures AreSlopes(n, slopes) && IsPass(slopes, trace)
    ensures AreMeans(slopes, trace[0]) && trace[|slopes|] == Tangents(n, root)
  {
    hide Secants, InitialTangents, SweepFrom, AreMeans, AreSlopes, IsPass, TraceFrom;
    slopes := Secants(n);
    SecantsAreSlopes(n);
    StartsWithMeans(slopes);
    trace := TraceFrom(InitialTangents(slopes), slopes, 0, root);
    TraceIsPass(InitialTangents(slopes), slopes, root);
  }

  lemma SecantsAreSlopes(n: seq<Point>)
    requires StrictlyAscending(n) && |n| >= 2
    ensures AreSlopes(n, Secants(n))
  {
    hide IsSlope, Secant;
    forall i | 0 <= i < |n| - 1 ensures IsSlope(Secants(n)[i], n[i], n[i + 1]) {
      SecantIsSlope(n[i], n[i + 1]);
    }
  }

  lemma TraceIsPass(t: seq<real>, s: seq<real>, root: real -> real)
    requires IsSquareRoot(root) && |t| == |s| + 1
    ensures var trace := TraceFrom(t, s, 0, root);
            IsPass(s, trace) && trace[0] == t && trace[|s|] == SweepFrom(t, s, 0, root)
  {
    TraceTurns(t, s, 0, root);
    hide IsTurn, TraceFrom, SweepFrom;
    var trace := TraceFrom(t, s, 0, root);
    assert forall k :: 0 <= k < |s| ==> IsTurn(trace[k], trace[k + 1], s, 0 + k);
  }

  // -------------------------------------------------------- the reference leaves no choice

  lemma SameSlopes(n: seq<Point>, s: seq<real>, r: seq<real>)
    requires StrictlyAscending(n) && AreSlopes(n, s) && AreSlopes(n, r)
    ensures s == r
  {
    forall i | 0 <= i < |s| ensures s[i] == r[i] {
      assert IsSlope(s[i], n[i], n[i + 1]) && IsSlope(r[i], n[i], n[i + 1]);
      SameQuotient(s[i], r[i], n[i + 1].time - n[i].time);
    }
  }

  lemma SameQuotient(a: real, b: real, h: real)
    requires h > 0.0 && a * h == b * h
    ensures a == b
  {
  }

  lemma SameTamed(a: real, b: real, s: real, c: real, d: real, e: real, f: real)
    requires Tamed(a, b, s, c, d) && Tamed(a, b, s, e, f)
    ensures c == e && d == f
  {
    if s != 0.0 && !InCircle(a, b, s) {
      OutsideNonzero(a, b, s);
      if a != 0.0 {
        SameRay(a, b, c, d, e, f);
      } else {
        SameRay(b, a, d, c, f, e);
      }
    }
  }

  lemma OutsideNonzero(a: real, b: real, s: real)
    requires !InCircle(a, b, s)
    ensures a != 0.0 || b != 0.0
  {
  }

  /** Two points of one circle in one direction are the same point. */
  lemma SameRay(a: real, b: real, c: real, d: real, e: real, f: real)
    requires a != 0.0 && SameDirection(a, b, c, d) && SameDirection(a, b, e, f)
    requires Square(c) + Square(d) == Square(e) + Square(f)
    ensures c == e && d == f
  {
    var k, l := Over(c, a), Over(e, a);
    OnRay(a, b, c, d);
    OnRay(a, b, e, f);
    SquarePositive(a);
    SquareNonnegative(b);
    var m := Square(a) + Square(b);
    assert m > 0.0;
    hide Over, SameDirection, Square;
    RayLength(k, a, b);
    RayLength(l, a, b);
    SameSquare(k, l, m);
  }

  lemma OnRay(a: real, b: real, c: real, d: real)
    requires a != 0.0 && SameDirection(a, b, c, d)
    ensures Over(c, a) >= 0.0 && c == Over(c, a) * a && d == Over(c, a) * b
  {
    var k := Over(c, a);
    assert k * a == c;
    assert c * a == k * (a * a);
    SquarePositive(a);
    CompareProducts(0.0, k, a * a);
    assert (k * b) * a == d * a by {
      assert (k * b) * a == (k * a) * b;
    }
    Cancel(k * b, d, a);
  }

  lemma Cancel(x: real, y: real, a: real)
    requires a != 0.0 && x * a == y * a
    ensures x == y
  {
  }

  lemma RayLength(k: real, a: real, b: real)
    ensures Square(k * a) + Square(k * b) == Square(k) * (Square(a) + Square(b))
  {
  }

  lemma SquareOrder(k: real, l: real)
    requires 0.0 <= k < l
    ensures Square(k) < Square(l)
  {
    PositiveProduct(l - k, l + k, Square(l) - Square(k));
  }

  lemma SameSquare(k: real, l: real, m: real)
    requires k >= 0.0 && l >= 0.0 && m > 0.0 && Square(k) * m == Square(l) * m
    ensures k == l
  {
    SameQuotient(Square(k), Square(l), m);
    if k < l {
      SquareOrder(k, l);
    } else if l < k {
      SquareOrder(l, k);
    }
  }

  lemma SameTurn(t: seq<real>, u: seq<real>, v: seq<real>, slopes: seq<real>, i: nat)
    requires |t| == |u| == |v| == |slopes| + 1 && i < |slopes|
    requires IsTurn(t, u, slopes, i) && IsTurn(t, v, slopes, i)
    ensures u == v
  {
    SameTamed(t[i], t[i + 1], slopes[i], u[i], u[i + 1], v[i], v[i + 1]);
    hide Tamed;
  }

  /** Points have one list of tangents by the reference. */
  lemma {:induction false} ReferenceUnique(slopes: seq<real>, a: seq<seq<real>>, b: seq<seq<real>>, i: nat)
    requires IsPass(slopes, a) && IsPass(slopes, b) && a[0] == b[0] && i <= |slopes|
    ensures a[i] == b[i]
  {
    if i > 0 {
      hide IsTurn;
      ReferenceUnique(slopes, a, b, i - 1);
      SameTurn(a[i - 1], a[i], b[i], slopes, i - 1);
    }
  }

  // ------------------------------------------------------------------------ shapes

  /** No segment's pair needs pulling back. */
  ghost predicate Calm(slopes: seq<real>, t: seq<real>)
    requires |t| == |slopes| + 1
  {
    forall i :: 0 <= i < |slopes| ==>
      InCircle(t[i], t[i + 1], slopes[i]) && (slopes[i] == 0.0 ==> t[i] == 0.0 && t[i + 1] == 0.0)
  }

  lemma CalmTurn(t: seq<real>, u: seq<real>, slopes: seq<real>, i: nat)
    requires |t| == |u| == |slopes| + 1 && i < |slopes| && Calm(slopes, t) && IsTurn(t, u, slopes, i)
    ensures u == t
  {
    hide InCircle, SameDirection, Square;
  }

  lemma {:induction false} CalmStays(slopes: seq<real>, trace: seq<seq<real>>, i: nat)
    requires IsPass(slopes, trace) && Calm(slopes, trace[0]) && i <= |slopes|
    ensures trace[i] == trace[0]
  {
    if i > 0 {
      CalmStays(slopes, trace, i - 1);
      CalmTurn(trace[i - 1], trace[i], slopes, i - 1);
    }
  }

  /** Slopes of one sign, none more than twice its neighbour. */
  ghost predicate Gentle(slopes: seq<real>) {
    forall i :: 0 < i < |slopes| ==> Comparable(slopes[i - 1], slopes[i])
  }

  ghost predicate Comparable(a: real, b: real) {
    || (0.0 < a <= 2.0 * b && b <= 2.0 * a)
    || (0.0 > a >= 2.0 * b && b >= 2.0 * a)
    || (a == 0.0 && b == 0.0)
  }

  /** A tangent within one and a half slopes, on the slope's side. */
  ghost predicate Moderate(t: real, s: real) {
    0.0 <= 2.0 * t <= 3.0 * s || 3.0 * s <= 2.0 * t <= 0.0
  }

  lemma MeanModerate(a: real, b: real, t: real)
    requires Comparable(a, b) && IsMean(a, b, t)
    ensures Moderate(t, a) && Moderate(t, b)
  {
    SignsAgree(a, b);
  }

  lemma ModerateInCircle(a: real, b: real, s: real)
    requires Moderate(a, s) && Moderate(b, s)
    ensures InCircle(a, b, s)
  {
    ModerateSquare(a, s);
    ModerateSquare(b, s);
    assert Square(s) >= 0.0;
  }

  lemma ModerateSquare(t: real, s: real)
    requires Moderate(t, s)
    ensures 4.0 * Square(t) <= 9.0 * Square(s)
  {
    if s >= 0.0 {
      ProductNonnegative(3.0 * s - 2.0 * t, 3.0 * s + 2.0 * t);
    } else {
      ProductNonnegative(2.0 * t - 3.0 * s, -3.0 * s - 2.0 * t);
    }
    assert (3.0 * s - 2.0 * t) * (3.0 * s + 2.0 * t) == 9.0 * Square(s) - 4.0 * Square(t);
  }

  lemma GentleIsCalm(slopes: seq<real>, t: seq<real>)
    requires AreMeans(slopes, t) && Gentle(slopes)
    ensures Calm(slopes, t)
  {
    hide InCircle, Comparable;
    forall i | 0 <= i < |t|
      ensures i > 0 ==> Moderate(t[i], slopes[i - 1])
      ensures i < |slopes| ==> Moderate(t[i], slopes[i])
    {
      if 0 < i < |slopes| {
        MeanModerate(slopes[i - 1], slopes[i], t[i]);
      }
    }
    forall i | 0 <= i < |slopes| ensures InCircle(t[i], t[i + 1], slopes[i]) {
      ModerateInCircle(t[i], t[i + 1], slopes[i]);
    }
  }

  /** Through points whose slopes keep their sign and at most double, the tangents are the means. */
  lemma GentleMeans(n: seq<Point>, root: real -> real, slopes: seq<real>)
    requires IsSquareRoot(root) && StrictlyAscending(n) && |n| >= 2 && AreSlopes(n, slopes) && Gentle(slopes)
    ensures AreMeans(slopes, Tangents(n, root))
  {
    var s, trace := TangentsByReference(n, root);
    SameSlopes(n, s, slopes);
    hide AreSlopes, Tangents, StrictlyAscending;
    GentleIsCalm(slopes, trace[0]);
    CalmStays(slopes, trace, |slopes|);
  }

  /** A straight line is reproduced: points of one slope have that slope as every tangent. */
  lemma LineReproduced(n: seq<Point>, root: real -> real, s: real)
    requires IsSquareRoot(root) && StrictlyAscending(n) && |n| >= 2
    requires forall i :: 0 <= i < |n| - 1 ==> IsSlope(s, n[i], n[i + 1])
    ensures forall i :: 0 <= i < |n| ==> Tangents(n, root)[i] == s
  {
    hide Tangents, IsSlope;
    var slopes := seq(|n| - 1, _ => s);
    GentleMeans(n, root, slopes);
    SignsAgree(s, s);
    var t := Tangents(n, root);
    forall i | 0 <= i < |n| ensures t[i] == s {
      if 0 < i < |slopes| {
        assert IsMean(slopes[i - 1], slopes[i], t[i]);
      }
    }
  }

  lemma FlatTurn(t: seq<real>, u: seq<real>, slopes: seq<real>, i: nat, k: nat)
    requires |t| == |u| == |slopes| + 1 && i < |slopes| && k < |t| && IsTurn(t, u, slopes, i)
    requires t[k] == 0.0
    ensures u[k] == 0.0
  {
    if slopes[i] != 0.0 && !InCircle(t[i], t[i + 1], slopes[i]) {
      OutsideNonzero(t[i], t[i + 1], slopes[i]);
      if k == i {
        Cancel(u[i], 0.0, t[i + 1]);
      } else if k == i + 1 {
        Cancel(u[i + 1], 0.0, t[i]);
      }
    }
  }

  lemma {:induction false} FlatStays(slopes: seq<real>, trace: seq<seq<real>>, i: nat, k: nat)
    requires IsPass(slopes, trace) && i <= |slopes| && k <= |slopes| && trace[0][k] == 0.0
    ensures trace[i][k] == 0.0
  {
    if i > 0 {
      hide IsTurn;
      FlatStays(slopes, trace, i - 1, k);
      FlatTurn(trace[i - 1], trace[i], slopes, i - 1, k);
    }
  }

  /** `b` is not strictly between its neighbours. */
  ghost predicate Turns(a: real, b: real, c: real) {
    !(a < b < c) && !(a > b > c)
  }

  /** Where the values turn, or stay level on one side, the tangent is flat. */
  lemma TurnsAreFlat(n: seq<Point>, root: real -> real, k: nat)
    requires IsSquareRoot(root) && StrictlyAscending(n) && 0 < k < |n| - 1
    requires Turns(n[k - 1].value, n[k].value, n[k + 1].value)
    ensures Tangents(n, root)[k] == 0.0
  {
    var slopes, trace := TangentsByReference(n, root);
    hide Tangents, IsSlope, IsMean, IsTurn, Turns;
    assert IsSlope(slopes[k - 1], n[k - 1], n[k - 1 + 1]);
    MeanOfTurn(slopes[k - 1], slopes[k], n[k - 1], n[k], n[k + 1], trace[0][k]);
    FlatStays(slopes, trace, |slopes|, k);
  }

  lemma MeanOfTurn(s: real, r: real, a: Point, b: Point, c: Point, t: real)
    requires a.time < b.time < c.time && IsSlope(s, a, b) && IsSlope(r, b, c) && IsMean(s, r, t)
    requires Turns(a.value, b.value, c.value)
    ensures t == 0.0
  {
    SlopeSign(s, b.time - a.time);
    SlopeSign(r, c.time - b.time);
    SignsAgree(s, r);
  }

  lemma SlopeSign(s: real, h: real)
    requires h > 0.0
    ensures Sign(s * h) == Sign(s)
  {
    CompareProducts(s, 0.0, h);
    CompareProducts(0.0, s, h);
  }
}
