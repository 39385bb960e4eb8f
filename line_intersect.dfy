/** Segment-segment and line-segment intersection (src/lineIntersect.ts).
    Both tests are exact over the reals; `None` is the source's `false`. */
module LineIntersect {
  import opened Types

  // ---------------------------------------------------------------------
  // Segment-segment intersection, in Paul Bourke's parametric form
  // ---------------------------------------------------------------------

  /** Both endpoints of `l` coincide. */
  predicate ZeroLength(l: Line) {
    l.a.x == l.b.x && l.a.y == l.b.y
  }

  /** The determinant of the 2x2 system for the two segment parameters. */
  function Denominator(l1: Line, l2: Line): real {
    (l2.b.y - l2.a.y) * (l1.b.x - l1.a.x) - (l2.b.x - l2.a.x) * (l1.b.y - l1.a.y)
  }

  function UaNumerator(l1: Line, l2: Line): real {
    (l2.b.x - l2.a.x) * (l1.a.y - l2.a.y) - (l2.b.y - l2.a.y) * (l1.a.x - l2.a.x)
  }

  function UbNumerator(l1: Line, l2: Line): real {
    (l1.b.x - l1.a.x) * (l1.a.y - l2.a.y) - (l1.b.y - l1.a.y) * (l1.a.x - l2.a.x)
  }

  /** The parameter of the crossing point along `l1`. */
  function Ua(l1: Line, l2: Line): real
    requires Denominator(l1, l2) != 0.0
  {
    UaNumerator(l1, l2) / Denominator(l1, l2)
  }

  /** The parameter of the crossing point along `l2`. */
  function Ub(l1: Line, l2: Line): real
    requires Denominator(l1, l2) != 0.0
  {
    UbNumerator(l1, l2) / Denominator(l1, l2)
  }

  predicate InUnit(t: real) {
    0.0 <= t <= 1.0
  }

  /** The crossing point of two segments, if they cross. A zero-length
      segment and a zero determinant (parallel or collinear segments) give
      no point; so does a crossing outside either segment. The endpoints
      (parameter 0 or 1) count as inside. */
  function Intersect(l1: Line, l2: Line): (r: Option<Point>)
    ensures ZeroLength(l1) || ZeroLength(l2) ==> r == None
    ensures Denominator(l1, l2) == 0.0 ==> r == None
    ensures r.Some? <==> Denominator(l1, l2) != 0.0 && InUnit(Ua(l1, l2)) && InUnit(Ub(l1, l2))
    ensures r.Some? ==> r.value == PointAt(l1, Ua(l1, l2)) && r.value == PointAt(l2, Ub(l1, l2))
  {
    if ZeroLength(l1) || ZeroLength(l2) then
      None
    else
      var denominator := Denominator(l1, l2);
      if denominator == 0.0 then
        None
      else
        var ua := UaNumerator(l1, l2) / denominator;
        var ub := UbNumerator(l1, l2) / denominator;
        if ua < 0.0 || ua > 1.0 || ub < 0.0 || ub > 1.0 then
          None
        else
          CrossingOnBothLines(l1, l2);
          Some(Point(l1.a.x + ua * (l1.b.x - l1.a.x), l1.a.y + ua * (l1.b.y - l1.a.y)))
  }

  /** Over the reals the point at `ua` on the first line is the point at
      `ub` on the second. */
  lemma CrossingOnBothLines(l1: Line, l2: Line)
    requires Denominator(l1, l2) != 0.0
    ensures PointAt(l1, Ua(l1, l2)) == PointAt(l2, Ub(l1, l2))
  {
    ParametersTimesDenominator(l1, l2);
    var den, ua, ub := Denominator(l1, l2), Ua(l1, l2), Ub(l1, l2);
    var d1x, d1y := l1.b.x - l1.a.x, l1.b.y - l1.a.y;
    var d2x, d2y := l2.b.x - l2.a.x, l2.b.y - l2.a.y;
    CramerSolution(l1.a.x, l1.a.y, d1x, d1y, l2.a.x, l2.a.y, d2x, d2y, den, ua, ub);
  }

  lemma ParametersTimesDenominator(l1: Line, l2: Line)
    requires Denominator(l1, l2) != 0.0
    ensures Ua(l1, l2) * Denominator(l1, l2) == UaNumerator(l1, l2)
    ensures Ub(l1, l2) * Denominator(l1, l2) == UbNumerator(l1, l2)
  {
  }

  /** Cramer's rule for `a1 + ua*d1 == a2 + ub*d2`, on plain reals. */
  lemma CramerSolution(a1x: real, a1y: real, d1x: real, d1y: real,
                       a2x: real, a2y: real, d2x: real, d2y: real,
                       den: real, ua: real, ub: real)
    requires den == d2y * d1x - d2x * d1y && den != 0.0
    requires ua * den == d2x * (a1y - a2y) - d2y * (a1x - a2x)
    requires ub * den == d1x * (a1y - a2y) - d1y * (a1x - a2x)
    ensures a1x + ua * d1x == a2x + ub * d2x
    ensures a1y + ua * d1y == a2y + ub * d2y
  {
  }

  /** A zero-length segment already makes the determinant zero, so over the
      reals the first rejection is subsumed by the second. */
  lemma ZeroLengthIsParallel(l1: Line, l2: Line)
    requires ZeroLength(l1) || ZeroLength(l2)
    ensures Denominator(l1, l2) == 0.0
  {
  }

  /** Completeness: whenever two non-parallel segments share a point, that
      point is what `Intersect` returns, endpoints included. */
  lemma IntersectComplete(l1: Line, l2: Line, t: real, s: real)
    requires Denominator(l1, l2) != 0.0
    requires InUnit(t) && InUnit(s)
    requires PointAt(l1, t) == PointAt(l2, s)
    ensures Ua(l1, l2) == t && Ub(l1, l2) == s
    ensures Intersect(l1, l2) == Some(PointAt(l1, t))
  {
  }

  /** Completeness stops at parallel segments: these two collinear segments
      share (1.5, 0), yet the zero determinant rejects them. */
  lemma IntersectMissesCollinearOverlap()
    ensures PointAt(Line(Point(0.0, 0.0), Point(2.0, 0.0)), 0.75)
         == PointAt(Line(Point(1.0, 0.0), Point(3.0, 0.0)), 0.25)
    ensures Intersect(Line(Point(0.0, 0.0), Point(2.0, 0.0)), Line(Point(1.0, 0.0), Point(3.0, 0.0))) == None
  {
    assert Denominator(Line(Point(0.0, 0.0), Point(2.0, 0.0)), Line(Point(1.0, 0.0), Point(3.0, 0.0))) == 0.0;
  }

  /** The result is on both segments. */
  lemma IntersectOnBothSegments(l1: Line, l2: Line)
    ensures Intersect(l1, l2).Some? ==>
      OnSegment(Intersect(l1, l2).value, l1) && OnSegment(Intersect(l1, l2).value, l2)
  {
  }

  /** The order of the arguments does not matter: both calls give no point,
      or both give the same point. */
  lemma IntersectSymmetric(l1: Line, l2: Line)
    ensures Intersect(l1, l2) == Intersect(l2, l1)
  {
    var den := Denominator(l1, l2);
    assert Denominator(l2, l1) == -den;
    if den != 0.0 {
      assert UaNumerator(l2, l1) == -UbNumerator(l1, l2);
      assert UbNumerator(l2, l1) == -UaNumerator(l1, l2);
      assert Ua(l2, l1) == Ub(l1, l2);
      assert Ub(l2, l1) == Ua(l1, l2);
    }
  }

  // ---------------------------------------------------------------------
  // Line-segment intersection with a 2D cross product
  // ---------------------------------------------------------------------

  /** The vector from `a` to `b`. */
  function Delta(a: Point, b: Point): (r: Point)
    ensures Add(a, r) == b
  {
    Point(b.x - a.x, b.y - a.y)
  }

  /** The source's 2D cross product, `a.y*b.x - a.x*b.y`: the negated
      standard determinant of `a` and `b`. */
  function Cp(a: Point, b: Point): (r: real)
    ensures a == ZeroVector || b == ZeroVector ==> r == 0.0
  {
    a.y * b.x - a.x * b.y
  }

  lemma CpAntisymmetric(a: Point, b: Point)
    ensures Cp(a, b) == -Cp(b, a)
    ensures Cp(a, a) == 0.0
  {
  }

  /** The parameter `v` of the hit along the segment. */
  function SegmentParameter(line: Line, point: Point, vector: Point): real
    requires Cp(vector, Delta(line.a, line.b)) != 0.0
  {
    Cp(Delta(point, line.a), vector) / Cp(vector, Delta(line.a, line.b))
  }

  /** The parameter `u` of the hit along `vector` from `point`. The source
      computes it and then never reads it; nothing restricts its sign. */
  function RayParameter(line: Line, point: Point, vector: Point): real
    requires Cp(vector, Delta(line.a, line.b)) != 0.0
  {
    Cp(Delta(point, line.a), Delta(line.a, line.b)) / Cp(vector, Delta(line.a, line.b))
  }

  /** The hit of the infinite line through `point` along `vector` on the
      segment `line`, if any. A zero cross product (parallel directions, a
      zero-length segment or a zero vector) gives no point, and so does a
      hit outside the segment. A hit behind `point` is accepted. */
  function Intersection(line: Line, point: Point, vector: Point): (r: Option<Point>)
    ensures Cp(vector, Delta(line.a, line.b)) == 0.0 ==> r == None
    ensures line.a == line.b || vector == ZeroVector ==> r == None
    ensures r.Some? <==>
      Cp(vector, Delta(line.a, line.b)) != 0.0 && InUnit(SegmentParameter(line, point, vector))
    ensures r.Some? ==> r.value == PointAt(line, SegmentParameter(line, point, vector))
    ensures r.Some? ==> r.value == Add(point, Scale(RayParameter(line, point, vector), vector))
    ensures r.Some? ==> Cp(Delta(point, r.value), vector) == 0.0
  {
    var lineDelta := Delta(line.a, line.b);
    var pointToLineDelta := Delta(point, line.a);
    var crossProduct := Cp(vector, lineDelta);
    if crossProduct == 0.0 then
      None
    else
      var v := Cp(pointToLineDelta, vector) / crossProduct;
      if !(v >= 0.0 && v <= 1.0) then
        None
      else
        HitOnRayLine(line, point, vector);
        Some(Point(line.a.x + lineDelta.x * v, line.a.y + lineDelta.y * v))
  }

  /** The point at `v` on the segment is the point at `u` along the ray, and
      it is on the ray's line. */
  lemma HitOnRayLine(line: Line, point: Point, vector: Point)
    requires Cp(vector, Delta(line.a, line.b)) != 0.0
    ensures PointAt(line, SegmentParameter(line, point, vector))
         == Add(point, Scale(RayParameter(line, point, vector), vector))
    ensures Cp(Delta(point, PointAt(line, SegmentParameter(line, point, vector))), vector) == 0.0
  {
    var ld, w := Delta(line.a, line.b), Delta(point, line.a);
    var v, u := SegmentParameter(line, point, vector), RayParameter(line, point, vector);
    RayParametersTimesCross(line, point, vector);
    RaySolution(w.x, w.y, ld.x, ld.y, vector.x, vector.y, Cp(vector, ld), v, u);
    assert Delta(point, PointAt(line, v)) == Scale(u, vector);
  }

  lemma RayParametersTimesCross(line: Line, point: Point, vector: Point)
    requires Cp(vector, Delta(line.a, line.b)) != 0.0
    ensures SegmentParameter(line, point, vector) * Cp(vector, Delta(line.a, line.b))
         == Cp(Delta(point, line.a), vector)
    ensures RayParameter(line, point, vector) * Cp(vector, Delta(line.a, line.b))
         == Cp(Delta(point, line.a), Delta(line.a, line.b))
  {
  }

  /** Cramer's rule for `w + v*d == u*vec`, on plain reals. */
  lemma RaySolution(wx: real, wy: real, dx: real, dy: real, vx: real, vy: real,
                    cross: real, v: real, u: real)
    requires cross == vy * dx - vx * dy && cross != 0.0
    requires v * cross == wy * vx - wx * vy
    requires u * cross == wy * dx - wx * dy
    ensures wx + v * dx == u * vx
    ensures wy + v * dy == u * vy
  {
    assert cross * (wx + v * dx - u * vx) == 0.0;
    assert cross * (wy + v * dy - u * vy) == 0.0;
  }

  /** Completeness: every point that lies both on the segment and on the
      line through `point` along `vector` is returned, whatever the sign of
      its ray parameter `u`. */
  lemma IntersectionComplete(line: Line, point: Point, vector: Point, v: real, u: real)
    requires Cp(vector, Delta(line.a, line.b)) != 0.0
    requires InUnit(v)
    requires PointAt(line, v) == Add(point, Scale(u, vector))
    ensures SegmentParameter(line, point, vector) == v
    ensures RayParameter(line, point, vector) == u
    ensures Intersection(line, point, vector) == Some(PointAt(line, v))
  {
  }

  /** Completeness stops at parallel lines: a line along a multiple of the
      segment's direction gives no point, even when `point` is on the
      segment's line and so the line contains the whole segment. */
  lemma IntersectionRejectsParallel(line: Line, point: Point, vector: Point, k: real)
    requires vector == Scale(k, Delta(line.a, line.b))
    ensures Intersection(line, point, vector) == None
  {
    var d := Delta(line.a, line.b);
    assert Cp(vector, d) == k * (d.y * d.x - d.x * d.y);
  }

  /** A line that meets the segment's line outside the segment (its
      parameter `v` is below 0 or above 1) gives no point. */
  lemma IntersectionRejectsOutside(line: Line, point: Point, vector: Point, v: real)
    requires Cp(vector, Delta(line.a, line.b)) != 0.0
    requires Cp(Delta(point, line.a), vector) == v * Cp(vector, Delta(line.a, line.b))
    requires !InUnit(v)
    ensures SegmentParameter(line, point, vector) == v
    ensures Intersection(line, point, vector) == None
  {
  }

  /** A line through one of the segment's endpoints hits that endpoint
      (parameter 0 or 1 is inside). */
  lemma IntersectionAtEndpoints(line: Line, point: Point, vector: Point)
    requires Cp(vector, Delta(line.a, line.b)) != 0.0
    ensures Cp(Delta(point, line.a), vector) == 0.0 ==> Intersection(line, point, vector) == Some(line.a)
    ensures Cp(Delta(point, line.b), vector) == 0.0 ==> Intersection(line, point, vector) == Some(line.b)
  {
    var ld, w := Delta(line.a, line.b), Delta(point, line.a);
    var cross := Cp(vector, ld);
    assert Cp(Delta(point, line.b), vector) == Cp(w, vector) - cross;
    if Cp(w, vector) == 0.0 {
      assert SegmentParameter(line, point, vector) == 0.0;
      assert PointAt(line, 0.0) == line.a;
    }
    if Cp(Delta(point, line.b), vector) == 0.0 {
      assert SegmentParameter(line, point, vector) == 1.0;
      assert PointAt(line, 1.0) == line.b;
    }
  }

  /** Only the direction of `vector` matters, not its length or sense. */
  lemma IntersectionScaleInvariant(line: Line, point: Point, vector: Point, k: real)
    requires k != 0.0
    ensures Intersection(line, point, Scale(k, vector)) == Intersection(line, point, vector)
  {
    var ld, w := Delta(line.a, line.b), Delta(point, line.a);
    var kv := Scale(k, vector);
    assert Cp(kv, ld) == k * Cp(vector, ld);
    assert Cp(w, kv) == k * Cp(w, vector);
    if Cp(vector, ld) != 0.0 {
      assert SegmentParameter(line, point, kv) == SegmentParameter(line, point, vector);
    }
  }

  /** A hit behind the origin of the ray is accepted: here `u` is -1. */
  lemma IntersectionBehindOrigin()
    ensures Intersection(Line(Point(0.0, -1.0), Point(0.0, 1.0)), Point(1.0, 0.0), Point(1.0, 0.0))
         == Some(Point(0.0, 0.0))
    ensures RayParameter(Line(Point(0.0, -1.0), Point(0.0, 1.0)), Point(1.0, 0.0), Point(1.0, 0.0)) == -1.0
  {
    var line, point, vector := Line(Point(0.0, -1.0), Point(0.0, 1.0)), Point(1.0, 0.0), Point(1.0, 0.0);
    assert Delta(line.a, line.b) == Point(0.0, 2.0);
    assert Delta(point, line.a) == Point(-1.0, -1.0);
    assert Cp(vector, Delta(line.a, line.b)) == -2.0;
    assert SegmentParameter(line, point, vector) == 0.5;
    assert RayParameter(line, point, vector) == -1.0;
  }
}
