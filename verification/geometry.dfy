/** Two-dimensional value types: vectors, points and line segments, over the
    exact reals instead of IEEE doubles. */
module Geometry {

  /** A displacement in the plane. */
  datatype Vector = Vector(x: real, y: real)

  /** A position in the plane. Point equality is exact, so it is Dafny's `==`. */
  datatype Point = Point(x: real, y: real)

  /** An ordered pair of endpoints; its direction runs from `p1` to `p2`. */
  datatype Segment = Segment(p1: Point, p2: Point)

  /** Per-coordinate tolerance of vector equality. */
  const Tolerance: real := 0.001

  function Abs(r: real): real {
    if r < 0.0 then -r else r
  }

  /** Vector equality: each coordinate agrees to within `Tolerance`. */
  predicate ApproxEq(u: Vector, v: Vector) {
    Abs(u.x - v.x) < Tolerance && Abs(u.y - v.y) < Tolerance
  }

  /** Exactly equal vectors are approximately equal, and the relation is symmetric. */
  lemma ApproxEqReflexiveSymmetric(u: Vector, v: Vector)
    ensures ApproxEq(u, u)
    ensures ApproxEq(u, v) <==> ApproxEq(v, u)
  {
  }

  /** The tolerance makes vector equality non-transitive. */
  lemma ApproxEqNotTransitive()
    ensures ApproxEq(Vector(0.0, 0.0), Vector(0.0006, 0.0))
    ensures ApproxEq(Vector(0.0006, 0.0), Vector(0.0012, 0.0))
    ensures !ApproxEq(Vector(0.0, 0.0), Vector(0.0012, 0.0))
  {
  }

  function Cross(u: Vector, v: Vector): real {
    u.x * v.y - u.y * v.x
  }

  function Dot(u: Vector, v: Vector): real {
    u.x * v.x + u.y * v.y
  }

  /** Vector times a scalar. */
  function Scale(v: Vector, n: real): Vector {
    Vector(v.x * n, v.y * n)
  }

  /** A scaled vector stays on the line of `v`, its projection onto `v` is
      scaled by `n`, and scaling by -1 twice gives `v` back. */
  lemma ScaleKeepsDirection(v: Vector, n: real)
    ensures Cross(v, Scale(v, n)) == 0.0
    ensures Dot(v, Scale(v, n)) == n * Dot(v, v)
    ensures Scale(Scale(v, -1.0), -1.0) == v
  {
  }

  /** Point plus vector. */
  function Translate(p: Point, v: Vector): Point {
    Point(p.x + v.x, p.y + v.y)
  }

  /** Point minus point: the displacement that carries `q` to `p`. */
  function Sub(p: Point, q: Point): (v: Vector)
    ensures Translate(q, v) == p
  {
    Vector(p.x - q.x, p.y - q.y)
  }

  /** Translating by a vector and subtracting the start point gives the vector back. */
  lemma SubTranslateRoundTrip(p: Point, v: Vector)
    ensures Sub(Translate(p, v), p) == v
  {
  }

  /** The direction of a segment, `p2 - p1`; applied to `p1` it lands exactly on `p2`. */
  function Vec(s: Segment): (v: Vector)
    ensures Translate(s.p1, v) == s.p2
    ensures v == Vector(0.0, 0.0) <==> s.p1 == s.p2
  {
    Sub(s.p2, s.p1)
  }

  /** `len` is the Euclidean length of a nonzero `v`. The square root itself is
      not modelled; lemmas that need a length take one with this property. */
  ghost predicate IsLength(v: Vector, len: real) {
    len > 0.0 && len * len == Dot(v, v)
  }

  /** Normalisation of `v` whose length is `len`. */
  function Unit(v: Vector, len: real): Vector
    requires len != 0.0
  {
    Vector(v.x / len, v.y / len)
  }

  /** Over exact reals, two nonzero vectors normalise to the same unit vector
      exactly when they are parallel and point the same way. */
  lemma SameUnitIffCodirected(u: Vector, v: Vector, lu: real, lv: real)
    requires IsLength(u, lu) && IsLength(v, lv)
    ensures Unit(u, lu) == Unit(v, lv) <==> Cross(u, v) == 0.0 && Dot(u, v) > 0.0
  {
    PositiveLengthSquared(v, lv);
    if Unit(u, lu) == Unit(v, lv) {
      EqualUnitsGiveMultiple(u, v, lu, lv);
      MultipleIsCodirected(u, v, lu / lv);
    }
    if Cross(u, v) == 0.0 && Dot(u, v) > 0.0 {
      CodirectedGivesEqualUnits(u, v, lu, lv);
    }
  }

  /** Equal unit vectors: `u` is `lu / lv` times `v`. */
  lemma EqualUnitsGiveMultiple(u: Vector, v: Vector, lu: real, lv: real)
    requires lu > 0.0 && lv > 0.0 && Unit(u, lu) == Unit(v, lv)
    ensures lu / lv > 0.0
    ensures u.x == lu / lv * v.x && u.y == lu / lv * v.y
  {
    assert u.x / lu == v.x / lv;
    assert u.y / lu == v.y / lv;
  }

  /** A positive multiple of a nonzero vector is parallel to it and points the same way. */
  lemma MultipleIsCodirected(u: Vector, v: Vector, k: real)
    requires Dot(v, v) > 0.0 && k > 0.0 && u.x == k * v.x && u.y == k * v.y
    ensures Cross(u, v) == 0.0 && Dot(u, v) > 0.0
  {
    assert Dot(u, v) == k * Dot(v, v);
  }

  /** Parallel, same-way vectors normalise to the same unit vector. */
  lemma CodirectedGivesEqualUnits(u: Vector, v: Vector, lu: real, lv: real)
    requires IsLength(u, lu) && IsLength(v, lv) && Dot(v, v) > 0.0
    requires Cross(u, v) == 0.0 && Dot(u, v) > 0.0
    ensures Unit(u, lu) == Unit(v, lv)
  {
    ScalarMultipleOfParallel(u, v);
    var k := Dot(u, v) / Dot(v, v);
    assert k > 0.0;
    LengthOfMultiple(u, v, k, lu, lv);
    DivideMultiple(u.x, v.x, k, lv);
    DivideMultiple(u.y, v.y, k, lv);
  }

  lemma DivideMultiple(a: real, b: real, k: real, l: real)
    requires k > 0.0 && l > 0.0 && a == k * b
    ensures a / (k * l) == b / l
  {
  }

  /** Over exact reals, a nonzero `u` normalises to the negation of `v`'s unit
      vector exactly when the two are parallel and point opposite ways. */
  lemma NegatedUnitIffOpposite(u: Vector, v: Vector, lu: real, lv: real)
    requires IsLength(u, lu) && IsLength(v, lv)
    ensures Scale(Unit(v, lv), -1.0) == Unit(u, lu) <==> Cross(u, v) == 0.0 && Dot(u, v) < 0.0
  {
    var w := Scale(v, -1.0);
    assert Dot(w, w) == Dot(v, v);
    assert IsLength(w, lv);
    assert Unit(w, lv) == Scale(Unit(v, lv), -1.0);
    assert Cross(u, w) == -Cross(u, v);
    assert Dot(u, w) == -Dot(u, v);
    SameUnitIffCodirected(u, w, lu, lv);
  }

  /** A vector parallel to a nonzero `v` is the multiple `Dot(u, v) / Dot(v, v)` of it. */
  lemma ScalarMultipleOfParallel(u: Vector, v: Vector)
    requires Dot(v, v) > 0.0 && Cross(u, v) == 0.0
    ensures u.x == Dot(u, v) / Dot(v, v) * v.x
    ensures u.y == Dot(u, v) / Dot(v, v) * v.y
  {
    var n := Dot(v, v);
    assert u.x * n == Dot(u, v) * v.x by {
      assert u.x * n - Dot(u, v) * v.x == v.y * Cross(u, v);
    }
    assert u.y * n == Dot(u, v) * v.y by {
      assert u.y * n - Dot(u, v) * v.y == -v.x * Cross(u, v);
    }
  }

  lemma PositiveLengthSquared(v: Vector, lv: real)
    requires IsLength(v, lv)
    ensures Dot(v, v) > 0.0
  {
    calc {
      0.0;
    <
      lv * lv;
    ==
      Dot(v, v);
    }
  }

  /** Lengths scale with a positive multiplier. */
  lemma LengthOfMultiple(u: Vector, v: Vector, k: real, lu: real, lv: real)
    requires IsLength(u, lu) && IsLength(v, lv)
    requires k > 0.0 && u.x == k * v.x && u.y == k * v.y
    ensures lu == k * lv
  {
    assert Dot(u, u) == k * k * Dot(v, v);
    assert lu * lu == (k * lv) * (k * lv);
    assert (lu - k * lv) * (lu + k * lv) == 0.0;
    assert lu + k * lv > 0.0;
  }
}
