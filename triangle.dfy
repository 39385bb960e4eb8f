/** The centroid of a triangle and the candidate points of a rectangle inside
    it (src/triangle.ts). The two diagonal directions, which the source
    builds with `Math.cos` and `Math.sin` of 45 and 315 degrees, are
    parameters here. */
module TriangleGeometry {
  import opened Types
  import opened LineIntersect

  /** The mean of the three vertices: the one point from which the three
      vertex offsets sum to the zero vector. */
  function Centroid(t: Triangle): (g: Point)
    ensures Add(Add(Delta(g, t.a), Delta(g, t.b)), Delta(g, t.c)) == ZeroVector
  {
    Point((t.a.x + t.b.x + t.c.x) / 3.0, (t.a.y + t.b.y + t.c.y) / 3.0)
  }

  /** No other point balances the three vertices. */
  lemma CentroidUnique(t: Triangle, q: Point)
    requires Add(Add(Delta(q, t.a), Delta(q, t.b)), Delta(q, t.c)) == ZeroVector
    ensures q == Centroid(t)
  {
  }

  /** Relabelling the vertices does not move the centroid. */
  lemma CentroidPermutationInvariant(a: Point, b: Point, c: Point)
    ensures Centroid(Triangle(a, b, c)) == Centroid(Triangle(a, c, b))
    ensures Centroid(Triangle(a, b, c)) == Centroid(Triangle(b, a, c))
    ensures Centroid(Triangle(a, b, c)) == Centroid(Triangle(b, c, a))
    ensures Centroid(Triangle(a, b, c)) == Centroid(Triangle(c, a, b))
    ensures Centroid(Triangle(a, b, c)) == Centroid(Triangle(c, b, a))
  {
  }

  /** The edges a-b, b-c, c-a, in that order: a closed chain through the
      three vertices. */
  function Edges(t: Triangle): (r: seq<Line>)
    ensures |r| == 3
    ensures r[0].a == t.a && r[1].a == t.b && r[2].a == t.c
    ensures forall i :: 0 <= i < |r| ==> r[i].b == r[(i + 1) % 3].a
  {
    [Line(t.a, t.b), Line(t.b, t.c), Line(t.c, t.a)]
  }

  /** The hit of the line through `origin` along `dir` on `edge`, as a
      sequence of zero or one points. */
  function Hit(edge: Line, origin: Point, dir: Point): seq<Point> {
    match Intersection(edge, origin, dir)
    case None => []
    case Some(p) => [p]
  }

  /** The hits on one edge, in the order of `dirs`. */
  function EdgeHits(edge: Line, origin: Point, dirs: seq<Point>): seq<Point> {
    if dirs == [] then []
    else EdgeHits(edge, origin, dirs[..|dirs| - 1]) + Hit(edge, origin, dirs[|dirs| - 1])
  }

  /** The hits on all edges: edge-major, then in the order of `dirs`. */
  function AllHits(edges: seq<Line>, origin: Point, dirs: seq<Point>): seq<Point> {
    if edges == [] then []
    else AllHits(edges[..|edges| - 1], origin, dirs) + EdgeHits(edges[|edges| - 1], origin, dirs)
  }

  /** What `getRectangleInsideTriangle` returns, given its two direction
      vectors. */
  function CandidatePoints(t: Triangle, dir45: Point, dir315: Point): seq<Point> {
    AllHits(Edges(t), Centroid(t), [dir45, dir315])
  }

  /** Builds the candidate points the way the source does: nested loops over
      the edges and the two directions, appending each hit. The result is
      a function of the arguments alone. */
  method RectangleInsideTriangle(t: Triangle, dir45: Point, dir315: Point)
    returns (points: seq<Point>)
    ensures points == CandidatePoints(t, dir45, dir315)
    ensures |points| <= 6
  {
    var centroid := Centroid(t);
    var directionVectors := [dir45, dir315];
    var linesOfTriangle := Edges(t);
    points := [];
    var i := 0;
    while i < |linesOfTriangle|
      invariant 0 <= i <= |linesOfTriangle|
      invariant points == AllHits(linesOfTriangle[..i], centroid, directionVectors)
    {
      var line := linesOfTriangle[i];
      var j := 0;
      while j < |directionVectors|
        invariant 0 <= j <= |directionVectors|
        invariant points == AllHits(linesOfTriangle[..i], centroid, directionVectors)
                            + EdgeHits(line, centroid, directionVectors[..j])
      {
        assert directionVectors[..j + 1][..j] == directionVectors[..j];
        var point := Intersection(line, centroid, directionVectors[j]);
        if point.Some? {
          points := points + [point.value];
        }
        j := j + 1;
      }
      assert directionVectors[..j] == directionVectors;
      assert linesOfTriangle[..i + 1][..i] == linesOfTriangle[..i];
      i := i + 1;
    }
    assert linesOfTriangle[..i] == linesOfTriangle;
    CandidatePointsAtMostSix(t, dir45, dir315);
  }

  // ---------------------------------------------------------------------
  // Properties of the candidate points
  // ---------------------------------------------------------------------

  lemma {:induction false} EdgeHitsBound(edge: Line, origin: Point, dirs: seq<Point>)
    ensures |EdgeHits(edge, origin, dirs)| <= |dirs|
  {
    if dirs != [] {
      EdgeHitsBound(edge, origin, dirs[..|dirs| - 1]);
    }
  }

  /** At most one point per (edge, direction) pair. */
  lemma {:induction false} AllHitsBound(edges: seq<Line>, origin: Point, dirs: seq<Point>)
    ensures |AllHits(edges, origin, dirs)| <= |edges| * |dirs|
  {
    if edges != [] {
      AllHitsBound(edges[..|edges| - 1], origin, dirs);
      EdgeHitsBound(edges[|edges| - 1], origin, dirs);
      assert (|edges| - 1) * |dirs| + |dirs| == |edges| * |dirs|;
    }
  }

  lemma CandidatePointsAtMostSix(t: Triangle, dir45: Point, dir315: Point)
    ensures |CandidatePoints(t, dir45, dir315)| <= 6
  {
    AllHitsBound(Edges(t), Centroid(t), [dir45, dir315]);
  }

  /** A point is among an edge's hits exactly when some direction hits the
      edge there. */
  lemma {:induction false} EdgeHitsMembership(edge: Line, origin: Point, dirs: seq<Point>, p: Point)
    ensures p in EdgeHits(edge, origin, dirs) <==>
      exists d :: d in dirs && Intersection(edge, origin, d) == Some(p)
  {
    if dirs != [] {
      var init, last := dirs[..|dirs| - 1], dirs[|dirs| - 1];
      EdgeHitsMembership(edge, origin, init, p);
      assert dirs == init + [last];
      if exists d :: d in dirs && Intersection(edge, origin, d) == Some(p) {
        var d :| d in dirs && Intersection(edge, origin, d) == Some(p);
        if d != last {
          assert d in init;
        }
      }
    }
  }

  /** A point is among all the hits exactly when some edge and some direction
      give it. */
  lemma {:induction false} AllHitsMembership(edges: seq<Line>, origin: Point, dirs: seq<Point>, p: Point)
    ensures p in AllHits(edges, origin, dirs) <==>
      exists e, d :: e in edges && d in dirs && Intersection(e, origin, d) == Some(p)
  {
    if edges != [] {
      var init, last := edges[..|edges| - 1], edges[|edges| - 1];
      AllHitsMembership(init, origin, dirs, p);
      EdgeHitsMembership(last, origin, dirs, p);
      assert edges == init + [last];
      if exists e, d :: e in edges && d in dirs && Intersection(e, origin, d) == Some(p) {
        var e, d :| e in edges && d in dirs && Intersection(e, origin, d) == Some(p);
        if e != last {
          assert e in init;
        }
      }
    }
  }

  /** Every candidate point is the hit of one of the two diagonals through
      the centroid on one of the triangle's edges, so it lies on that edge;
      and every such hit is a candidate point. */
  lemma CandidatePointsOnEdges(t: Triangle, dir45: Point, dir315: Point, p: Point)
    ensures p in CandidatePoints(t, dir45, dir315) <==>
      exists e, d :: e in Edges(t) && d in [dir45, dir315] && Intersection(e, Centroid(t), d) == Some(p)
    ensures p in CandidatePoints(t, dir45, dir315) ==>
      exists e :: e in Edges(t) && OnSegment(p, e)
  {
    AllHitsMembership(Edges(t), Centroid(t), [dir45, dir315], p);
    if p in CandidatePoints(t, dir45, dir315) {
      var e, d :| e in Edges(t) && d in [dir45, dir315] && Intersection(e, Centroid(t), d) == Some(p);
      var v := SegmentParameter(e, Centroid(t), d);
      assert InUnit(v) && PointAt(e, v) == p;
    }
  }

  /** The exact order: edge a-b first, then b-c, then c-a; on each edge the
      45-degree direction before the 315-degree one. */
  lemma CandidatePointsOrder(t: Triangle, dir45: Point, dir315: Point)
    ensures var g := Centroid(t);
      CandidatePoints(t, dir45, dir315)
      == Hit(Line(t.a, t.b), g, dir45) + Hit(Line(t.a, t.b), g, dir315)
       + Hit(Line(t.b, t.c), g, dir45) + Hit(Line(t.b, t.c), g, dir315)
       + Hit(Line(t.c, t.a), g, dir45) + Hit(Line(t.c, t.a), g, dir315)
  {
    var g, dirs, edges := Centroid(t), [dir45, dir315], Edges(t);
    assert dirs[..1] == [dir45] && [dir45][..0] == [];
    assert edges[..2][..1] == edges[..1] && edges[..1][..0] == [];
    assert edges[..3] == edges;
    assert EdgeHits(edges[0], g, [dir45]) == Hit(edges[0], g, dir45);
    assert EdgeHits(edges[1], g, [dir45]) == Hit(edges[1], g, dir45);
    assert EdgeHits(edges[2], g, [dir45]) == Hit(edges[2], g, dir45);
    assert AllHits(edges[..1], g, dirs) == EdgeHits(edges[0], g, dirs);
    assert AllHits(edges[..2], g, dirs) == AllHits(edges[..1], g, dirs) + EdgeHits(edges[1], g, dirs);
  }

  /** A zero-length edge contributes nothing, whatever the directions. */
  lemma {:induction false} ZeroLengthEdgeHitsNothing(edge: Line, origin: Point, dirs: seq<Point>)
    requires edge.a == edge.b
    ensures EdgeHits(edge, origin, dirs) == []
  {
    if dirs != [] {
      ZeroLengthEdgeHitsNothing(edge, origin, dirs[..|dirs| - 1]);
    }
  }

  /** With two coincident vertices a and b, only the edges b-c and c-a can
      contribute, so at most four points come back. */
  lemma CoincidentVerticesAtMostFour(t: Triangle, dir45: Point, dir315: Point)
    requires t.a == t.b
    ensures var g, dirs := Centroid(t), [dir45, dir315];
      CandidatePoints(t, dir45, dir315)
      == EdgeHits(Line(t.b, t.c), g, dirs) + EdgeHits(Line(t.c, t.a), g, dirs)
    ensures |CandidatePoints(t, dir45, dir315)| <= 4
  {
    var g, dirs, edges := Centroid(t), [dir45, dir315], Edges(t);
    ZeroLengthEdgeHitsNothing(edges[0], g, dirs);
    EdgeHitsBound(edges[1], g, dirs);
    EdgeHitsBound(edges[2], g, dirs);
    assert edges[..2][..1] == edges[..1] && edges[..1][..0] == [];
    assert edges[..3] == edges;
    assert AllHits(edges[..1], g, dirs) == AllHits([], g, dirs) + EdgeHits(edges[0], g, dirs) == [];
    assert AllHits(edges[..2], g, dirs) == EdgeHits(edges[1], g, dirs);
    assert AllHits(edges, g, dirs) == AllHits(edges[..2], g, dirs) + EdgeHits(edges[2], g, dirs);
  }

  // ---------------------------------------------------------------------
  // The demo's starting triangle (src/index.ts)
  // ---------------------------------------------------------------------

  /** The triangle the demo starts with. */
  const DemoTriangle := Triangle(Point(380.0, 180.0), Point(220.0, 50.0), Point(100.0, 180.0))

  /** The exact 45-degree and 315-degree diagonals; by
      IntersectionScaleInvariant any positive multiple gives the same hits. */
  const Diagonal45 := Point(1.0, 1.0)
  const Diagonal315 := Point(1.0, -1.0)

  lemma DemoCentroid()
    ensures Centroid(DemoTriangle) == Point(700.0 / 3.0, 410.0 / 3.0)
  {
  }

  /** The 45-degree diagonal meets the line of a-b outside the edge (v = 31/9). */
  lemma DemoHitAB45()
    ensures Hit(Line(DemoTriangle.a, DemoTriangle.b), Point(700.0 / 3.0, 410.0 / 3.0), Diagonal45) == []
  {
    var g := Point(700.0 / 3.0, 410.0 / 3.0);
    assert Delta(g, DemoTriangle.a) == Point(440.0 / 3.0, 130.0 / 3.0);
    assert Delta(DemoTriangle.a, DemoTriangle.b) == Point(-160.0, -130.0);
    assert Cp(Diagonal45, Delta(DemoTriangle.a, DemoTriangle.b)) == -30.0;
    assert Cp(Delta(g, DemoTriangle.a), Diagonal45) == -310.0 / 3.0;
    IntersectionRejectsOutside(Line(DemoTriangle.a, DemoTriangle.b), g, Diagonal45, 31.0 / 9.0);
  }

  /** The 315-degree diagonal hits a-b at v = 19/29. */
  lemma DemoHitAB315()
    ensures Hit(Line(DemoTriangle.a, DemoTriangle.b), Point(700.0 / 3.0, 410.0 / 3.0), Diagonal315) == [Point(7980.0 / 29.0, 2750.0 / 29.0)]
  {
    var e, g := Line(DemoTriangle.a, DemoTriangle.b), Point(700.0 / 3.0, 410.0 / 3.0);
    assert Delta(g, e.a) == Point(440.0 / 3.0, 130.0 / 3.0);
    assert Delta(e.a, e.b) == Point(-160.0, -130.0);
    assert Cp(Diagonal315, Delta(e.a, e.b)) == 290.0;
    assert Cp(Delta(g, e.a), Diagonal315) == 190.0;
    assert PointAt(e, 19.0 / 29.0) == Point(7980.0 / 29.0, 2750.0 / 29.0);
    IntersectionComplete(e, g, Diagonal315, 19.0 / 29.0, 3640.0 / 87.0);
  }

  /** The 45-degree diagonal hits b-c at v = 22/75, behind the centroid. */
  lemma DemoHitBC45()
    ensures Hit(Line(DemoTriangle.b, DemoTriangle.c), Point(700.0 / 3.0, 410.0 / 3.0), Diagonal45) == [Point(924.0 / 5.0, 1322.0 / 15.0)]
  {
    var e, g := Line(DemoTriangle.b, DemoTriangle.c), Point(700.0 / 3.0, 410.0 / 3.0);
    assert Delta(g, e.a) == Point(-40.0 / 3.0, -260.0 / 3.0);
    assert Delta(e.a, e.b) == Point(-120.0, 130.0);
    assert Cp(Diagonal45, Delta(e.a, e.b)) == -250.0;
    assert Cp(Delta(g, e.a), Diagonal45) == -220.0 / 3.0;
    assert PointAt(e, 22.0 / 75.0) == Point(924.0 / 5.0, 1322.0 / 15.0);
    IntersectionComplete(e, g, Diagonal45, 22.0 / 75.0, -728.0 / 15.0);
  }

  /** The 315-degree diagonal meets the line of b-c outside the edge (v = 10). */
  lemma DemoHitBC315()
    ensures Hit(Line(DemoTriangle.b, DemoTriangle.c), Point(700.0 / 3.0, 410.0 / 3.0), Diagonal315) == []
  {
    var g := Point(700.0 / 3.0, 410.0 / 3.0);
    assert Delta(g, DemoTriangle.b) == Point(-40.0 / 3.0, -260.0 / 3.0);
    assert Delta(DemoTriangle.b, DemoTriangle.c) == Point(-120.0, 130.0);
    assert Cp(Diagonal315, Delta(DemoTriangle.b, DemoTriangle.c)) == -10.0;
    assert Cp(Delta(g, DemoTriangle.b), Diagonal315) == -100.0;
    IntersectionRejectsOutside(Line(DemoTriangle.b, DemoTriangle.c), g, Diagonal315, 10.0);
  }

  /** The 45-degree diagonal hits c-a at v = 53/84. */
  lemma DemoHitCA45()
    ensures Hit(Line(DemoTriangle.c, DemoTriangle.a), Point(700.0 / 3.0, 410.0 / 3.0), Diagonal45) == [Point(830.0 / 3.0, 180.0)]
  {
    var e, g := Line(DemoTriangle.c, DemoTriangle.a), Point(700.0 / 3.0, 410.0 / 3.0);
    assert Delta(g, e.a) == Point(-400.0 / 3.0, 130.0 / 3.0);
    assert Delta(e.a, e.b) == Point(280.0, 0.0);
    assert Cp(Diagonal45, Delta(e.a, e.b)) == 280.0;
    assert Cp(Delta(g, e.a), Diagonal45) == 530.0 / 3.0;
    assert PointAt(e, 53.0 / 84.0) == Point(830.0 / 3.0, 180.0);
    IntersectionComplete(e, g, Diagonal45, 53.0 / 84.0, 130.0 / 3.0);
  }

  /** The 315-degree diagonal hits c-a at v = 9/28, behind the centroid. */
  lemma DemoHitCA315()
    ensures Hit(Line(DemoTriangle.c, DemoTriangle.a), Point(700.0 / 3.0, 410.0 / 3.0), Diagonal315) == [Point(190.0, 180.0)]
  {
    var e, g := Line(DemoTriangle.c, DemoTriangle.a), Point(700.0 / 3.0, 410.0 / 3.0);
    assert Delta(g, e.a) == Point(-400.0 / 3.0, 130.0 / 3.0);
    assert Delta(e.a, e.b) == Point(280.0, 0.0);
    assert Cp(Diagonal315, Delta(e.a, e.b)) == -280.0;
    assert Cp(Delta(g, e.a), Diagonal315) == -90.0;
    assert PointAt(e, 9.0 / 28.0) == Point(190.0, 180.0);
    IntersectionComplete(e, g, Diagonal315, 9.0 / 28.0, -130.0 / 3.0);
  }

  /** On the demo triangle four of the six (edge, direction) pairs hit, and
      neither diagonal misses every edge. */
  lemma DemoTriangleCandidates()
    ensures CandidatePoints(DemoTriangle, Diagonal45, Diagonal315)
         == [Point(7980.0 / 29.0, 2750.0 / 29.0), Point(924.0 / 5.0, 1322.0 / 15.0),
             Point(830.0 / 3.0, 180.0), Point(190.0, 180.0)]
  {
    var t := DemoTriangle;
    var p1, p2 := Point(7980.0 / 29.0, 2750.0 / 29.0), Point(924.0 / 5.0, 1322.0 / 15.0);
    var p3, p4 := Point(830.0 / 3.0, 180.0), Point(190.0, 180.0);
    assert [] + [p1] + [p2] + [] + [p3] + [p4] == [p1, p2, p3, p4];
    CandidatePointsOrder(t, Diagonal45, Diagonal315);
    DemoCentroid();
    DemoHitAB45();
    DemoHitAB315();
    DemoHitBC45();
    DemoHitBC315();
    DemoHitCA45();
    DemoHitCA315();
    assert CandidatePoints(t, Diagonal45, Diagonal315) == [] + [p1] + [p2] + [] + [p3] + [p4];
  }
}
