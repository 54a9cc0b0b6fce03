/** Segment intersection: the crossing of two line segments, rejecting
    parallel pairs and crossings near an endpoint. */
module Intersection {
  import opened Wrappers
  import opened Geometry

  /** Crossings whose parameter lies within this fraction of either end are rejected. */
  const Epsilon: real := 0.01

  /** Parallel or anti-parallel directions. Over exact reals this is what
      "the normalised directions are equal or opposite" means; see
      `ParallelIffUnitsMatch`. */
  predicate Parallel(a: Segment, b: Segment) {
    Cross(Vec(a), Vec(b)) == 0.0
  }

  /** The determinant denominator of the line-intersection formula. It is the
      cross product of the two directions, so it is nonzero exactly when the
      parallel check has passed. */
  function Denominator(a: Segment, b: Segment): (r: real)
    ensures r == Cross(Vec(a), Vec(b))
    ensures r != 0.0 <==> !Parallel(a, b)
  {
    (a.p1.x - a.p2.x) * (b.p1.y - b.p2.y) - (a.p1.y - a.p2.y) * (b.p1.x - b.p2.x)
  }

  /** The determinant formula for the crossing of the two infinite lines. */
  function LineCrossing(a: Segment, b: Segment): Point
    requires !Parallel(a, b)
  {
    var ca := a.p1.x * a.p2.y - a.p1.y * a.p2.x;
    var cb := b.p1.x * b.p2.y - b.p1.y * b.p2.x;
    var d := Denominator(a, b);
    Point((ca * (b.p1.x - b.p2.x) - (a.p1.x - a.p2.x) * cb) / d,
          (ca * (b.p1.y - b.p2.y) - (a.p1.y - a.p2.y) * cb) / d)
  }

  /** `p` lies on the infinite line through `s`. */
  predicate OnLine(s: Segment, p: Point) {
    Cross(Vec(s), Sub(p, s.p1)) == 0.0
  }

  /** The point at fraction `t` of the way from `p1` to `p2`. */
  function AtParam(s: Segment, t: real): Point {
    Translate(s.p1, Scale(Vec(s), t))
  }

  /** The parameter of `p` along `s`, from the X span, or from the Y span when
      the segment is vertical (the X ratio is then 0/0, a NaN under IEEE
      division). */
  function Lambda(s: Segment, p: Point): real
    requires s.p1 != s.p2
  {
    if s.p2.x - s.p1.x != 0.0 then (p.x - s.p1.x) / (s.p2.x - s.p1.x)
    else (p.y - s.p1.y) / (s.p2.y - s.p1.y)
  }

  /** A parameter the intersection accepts: within [0.01, 0.99]. */
  predicate InBand(t: real) {
    !(t < 0.0 + Epsilon || t > 1.0 - Epsilon)
  }

  /** The intersection of `a` (the receiver) with `b`, or `None`. A returned
      point lies on both segments' lines, at a parameter in the accepted band
      of each. */
  function Intersect(a: Segment, b: Segment): (r: Option<Point>)
    ensures Parallel(a, b) ==> r == None
    ensures r.Some? ==> a.p1 != a.p2 && b.p1 != b.p2 && Denominator(a, b) != 0.0
    ensures r.Some? ==> OnLine(a, r.value) && OnLine(b, r.value)
    ensures r.Some? ==> AtParam(a, Lambda(a, r.value)) == r.value && InBand(Lambda(a, r.value))
    ensures r.Some? ==> AtParam(b, Lambda(b, r.value)) == r.value && InBand(Lambda(b, r.value))
  {
    if Parallel(a, b) then None
    else
      NonParallelNondegenerate(a, b);
      var p := LineCrossing(a, b);
      var lambda1 := Lambda(b, p);
      var lambda2 := Lambda(a, p);
      if !InBand(lambda1) || !InBand(lambda2) then None
      else
        CrossingOnBothLines(a, b);
        LambdaLocatesPoint(a, p);
        LambdaLocatesPoint(b, p);
        Some(p)
  }

  /** Completeness: when the two lines cross at parameter `t` of `a` and `u`
      of `b`, the intersection reports that point exactly when both parameters
      are in the band, so crossings at or within 1% of an endpoint are rejected. */
  lemma IntersectIffInteriorCrossing(a: Segment, b: Segment, t: real, u: real)
    requires !Parallel(a, b)
    requires AtParam(a, t) == AtParam(b, u)
    ensures Intersect(a, b) == (if InBand(t) && InBand(u) then Some(AtParam(a, t)) else None)
  {
    NonParallelNondegenerate(a, b);
    var p := AtParam(a, t);
    AtParamOnLine(a, t);
    AtParamOnLine(b, u);
    CrossingIsUnique(a, b, p);
    LambdaOfAtParam(a, t);
    LambdaOfAtParam(b, u);
  }

  /** The parallel check rejects every pair whose unit directions are equal
      or opposite, for nondegenerate segments of lengths `la` and `lb`. */
  lemma ParallelIffUnitsMatch(a: Segment, b: Segment, la: real, lb: real)
    requires IsLength(Vec(a), la) && IsLength(Vec(b), lb)
    ensures Parallel(a, b) <==>
      (Unit(Vec(b), lb) == Unit(Vec(a), la) || Scale(Unit(Vec(b), lb), -1.0) == Unit(Vec(a), la))
  {
    SameUnitIffCodirected(Vec(b), Vec(a), lb, la);
    NegatedUnitIffOpposite(Vec(a), Vec(b), la, lb);
    assert Cross(Vec(b), Vec(a)) == -Cross(Vec(a), Vec(b));
    assert Dot(Vec(b), Vec(a)) == Dot(Vec(a), Vec(b));
    if Parallel(a, b) {
      PositiveLengthSquared(Vec(a), la);
      NonzeroDotWhenParallel(Vec(a), Vec(b), lb);
    }
  }

  /** Two parallel nonzero vectors have a nonzero dot product. */
  lemma NonzeroDotWhenParallel(u: Vector, v: Vector, lv: real)
    requires Dot(u, u) > 0.0 && IsLength(v, lv) && Cross(u, v) == 0.0
    ensures Dot(u, v) != 0.0
  {
    PositiveLengthSquared(v, lv);
    ScalarMultipleOfParallel(u, v);
    var k := Dot(u, v) / Dot(v, v);
    assert Dot(u, u) == k * Dot(u, v);
  }

  /** The parallel check rejects every pair that contains a zero-length segment. */
  lemma NonParallelNondegenerate(a: Segment, b: Segment)
    requires !Parallel(a, b)
    ensures a.p1 != a.p2 && b.p1 != b.p2
  {
  }

  /** The point found by the determinant formula lies on both lines. */
  lemma CrossingOnBothLines(a: Segment, b: Segment)
    requires !Parallel(a, b)
    ensures OnLine(a, LineCrossing(a, b)) && OnLine(b, LineCrossing(a, b))
  {
    var ca := a.p1.x * a.p2.y - a.p1.y * a.p2.x;
    var cb := b.p1.x * b.p2.y - b.p1.y * b.p2.x;
    var d := Denominator(a, b);
    var nx := ca * (b.p1.x - b.p2.x) - (a.p1.x - a.p2.x) * cb;
    var ny := ca * (b.p1.y - b.p2.y) - (a.p1.y - a.p2.y) * cb;
    var p := LineCrossing(a, b);
    assert p.x * d == nx && p.y * d == ny;
    LineEquationScaled(a, p, d, nx, ny);
    LineEquationScaled(b, p, d, nx, ny);
  }

  /** Clearing the denominator: `p` is on the line of `s` when the scaled
      numerators satisfy the line's equation. */
  lemma LineEquationScaled(s: Segment, p: Point, d: real, nx: real, ny: real)
    requires d != 0.0 && p.x * d == nx && p.y * d == ny
    requires (s.p2.x - s.p1.x) * (ny - s.p1.y * d) - (s.p2.y - s.p1.y) * (nx - s.p1.x * d) == 0.0
    ensures OnLine(s, p)
  {
    var c := Cross(Vec(s), Sub(p, s.p1));
    assert c * d == (s.p2.x - s.p1.x) * (ny - s.p1.y * d) - (s.p2.y - s.p1.y) * (nx - s.p1.x * d);
  }

  /** Non-parallel lines meet in exactly one point. */
  lemma CrossingIsUnique(a: Segment, b: Segment, p: Point)
    requires !Parallel(a, b) && OnLine(a, p) && OnLine(b, p)
    ensures p == LineCrossing(a, b)
  {
    SolveLineEquations(a.p1.x, a.p1.y, a.p2.x, a.p2.y, b.p1.x, b.p1.y, b.p2.x, b.p2.y, p.x, p.y);
  }

  /** The unique solution of the two line equations, in coordinates. */
  lemma SolveLineEquations(x1: real, y1: real, x2: real, y2: real,
                           x3: real, y3: real, x4: real, y4: real, px: real, py: real)
    requires (x2 - x1) * (py - y1) - (y2 - y1) * (px - x1) == 0.0
    requires (x4 - x3) * (py - y3) - (y4 - y3) * (px - x3) == 0.0
    requires (x1 - x2) * (y3 - y4) - (y1 - y2) * (x3 - x4) != 0.0
    ensures
      var ca := x1 * y2 - y1 * x2;
      var cb := x3 * y4 - y3 * x4;
      var d := (x1 - x2) * (y3 - y4) - (y1 - y2) * (x3 - x4);
      && px == (ca * (x3 - x4) - (x1 - x2) * cb) / d
      && py == (ca * (y3 - y4) - (y1 - y2) * cb) / d
  {
    var dxa, dya := x2 - x1, y2 - y1;
    var dxb, dyb := x4 - x3, y4 - y3;
    // The two line equations, in the form -dy * x + dx * y == dx * y1 - dy * x1.
    var ea := dxa * y1 - dya * x1;
    var eb := dxb * y3 - dyb * x3;
    assert -dya * px + dxa * py == ea;
    assert -dyb * px + dxb * py == eb;
    Cramer(-dya, dxa, ea, -dyb, dxb, eb, px, py);
    var d := (x1 - x2) * (y3 - y4) - (y1 - y2) * (x3 - x4);
    assert (-dya) * dxb - (-dyb) * dxa == d;
    NumeratorsAgree(x1, y1, x2, y2, x3, y3, x4, y4);
    var ca := x1 * y2 - y1 * x2;
    var cb := x3 * y4 - y3 * x4;
    DivideOut(px, d, ca * (x3 - x4) - (x1 - x2) * cb);
    DivideOut(py, d, ca * (y3 - y4) - (y1 - y2) * cb);
  }

  lemma DivideOut(x: real, d: real, n: real)
    requires d != 0.0 && x * d == n
    ensures x == n / d
  {
  }

  /** Cramer's rule for two linear equations in `x` and `y`. */
  lemma Cramer(a1: real, b1: real, c1: real, a2: real, b2: real, c2: real, x: real, y: real)
    requires a1 * x + b1 * y == c1 && a2 * x + b2 * y == c2
    ensures x * (a1 * b2 - a2 * b1) == c1 * b2 - c2 * b1
    ensures y * (a1 * b2 - a2 * b1) == a1 * c2 - a2 * c1
  {
    assert x * (a1 * b2 - a2 * b1) == (a1 * x + b1 * y) * b2 - (a2 * x + b2 * y) * b1;
    assert y * (a1 * b2 - a2 * b1) == a1 * (a2 * x + b2 * y) - a2 * (a1 * x + b1 * y);
  }

  /** Cramer's numerators for the two line equations are the numerators of
      the determinant formula. */
  lemma NumeratorsAgree(x1: real, y1: real, x2: real, y2: real, x3: real, y3: real, x4: real, y4: real)
    ensures
      var ea := (x2 - x1) * y1 - (y2 - y1) * x1;
      var eb := (x4 - x3) * y3 - (y4 - y3) * x3;
      var ca := x1 * y2 - y1 * x2;
      var cb := x3 * y4 - y3 * x4;
      && ea * (x4 - x3) - eb * (x2 - x1) == ca * (x3 - x4) - (x1 - x2) * cb
      && -(y2 - y1) * eb - -(y4 - y3) * ea == ca * (y3 - y4) - (y1 - y2) * cb
  {
  }

  /** Every point of the parametric line lies on the line. */
  lemma AtParamOnLine(s: Segment, t: real)
    ensures OnLine(s, AtParam(s, t))
  {
  }

  /** On a vertical segment, a point of its line has the same X as `p1`, so
      the X ratio is 0/0 and the Y span is used instead. */
  lemma VerticalSpanIsZeroOverZero(s: Segment, p: Point)
    requires s.p1 != s.p2 && s.p2.x - s.p1.x == 0.0 && OnLine(s, p)
    ensures p.x - s.p1.x == 0.0
    ensures s.p2.y - s.p1.y != 0.0
  {
    assert (s.p2.y - s.p1.y) * (p.x - s.p1.x) == 0.0;
  }

  /** `Lambda` recovers the parameter of a point of the parametric line. */
  lemma LambdaOfAtParam(s: Segment, t: real)
    requires s.p1 != s.p2
    ensures Lambda(s, AtParam(s, t)) == t
  {
  }

  /** A point of the line sits at parameter `Lambda` of it. */
  lemma LambdaLocatesPoint(s: Segment, p: Point)
    requires s.p1 != s.p2 && OnLine(s, p)
    ensures AtParam(s, Lambda(s, p)) == p
  {
    var dx, dy := s.p2.x - s.p1.x, s.p2.y - s.p1.y;
    assert dx * (p.y - s.p1.y) == dy * (p.x - s.p1.x);
    if dx != 0.0 {
      var l := (p.x - s.p1.x) / dx;
      assert s.p1.x + dx * l == p.x;
      assert dy * l == dy * (p.x - s.p1.x) / dx;
      assert s.p1.y + dy * l == p.y;
    } else {
      VerticalSpanIsZeroOverZero(s, p);
    }
  }

  /** 2 to the power `n`. */
  function Pow2(n: nat): (r: real)
    ensures r >= 1.0
  {
    if n == 0 then 1.0 else 2.0 * Pow2(n - 1)
  }

  /** The smallest positive normalised double, 2^-1022: the value of the
      coordinate the C++ implementation uses to mean "no intersection". */
  const NoIntersection: real := 1.0 / Pow2(1022)

  /** The intersection as the C++ implementation reports it: the crossing
      point itself, or the point with both coordinates `NoIntersection` when
      there is none. Any other point is a genuine crossing; the sentinel point
      means either no crossing or a crossing exactly at the sentinel. */
  function IntersectAsWritten(a: Segment, b: Segment): (p: Point)
    ensures p != Point(NoIntersection, NoIntersection) ==> Intersect(a, b) == Some(p)
    ensures p == Point(NoIntersection, NoIntersection) <==>
      (Intersect(a, b).None? || Intersect(a, b) == Some(Point(NoIntersection, NoIntersection)))
  {
    match Intersect(a, b)
    case None => Point(NoIntersection, NoIntersection)
    case Some(p) => p
  }

  /** The sentinel is a small positive coordinate, not an out-of-band value:
      two perpendicular segments crossing at their midpoints at
      (NoIntersection, NoIntersection) report the same point as two parallel
      segments, so a caller cannot tell a real crossing from none. */
  lemma SentinelCollidesWithCrossing()
    ensures 0.0 < NoIntersection <= 1.0
    ensures
      var m := NoIntersection;
      var a := Segment(Point(m - 1.0, m), Point(m + 1.0, m));
      var b := Segment(Point(m, m - 1.0), Point(m, m + 1.0));
      var c := Segment(Point(0.0, 0.0), Point(1.0, 0.0));
      var e := Segment(Point(0.0, 1.0), Point(1.0, 1.0));
      && Intersect(a, b) == Some(Point(m, m))
      && Intersect(c, e) == None
      && IntersectAsWritten(a, b) == IntersectAsWritten(c, e)
  {
    var m := NoIntersection;
    var a := Segment(Point(m - 1.0, m), Point(m + 1.0, m));
    var b := Segment(Point(m, m - 1.0), Point(m, m + 1.0));
    assert AtParam(a, 0.5) == Point(m, m) == AtParam(b, 0.5);
    IntersectIffInteriorCrossing(a, b, 0.5, 0.5);
  }
}
