# Triangle sandbox geometry kernel, in Dafny

This project models the planar-geometry kernel of the shape sandbox, a demo
in which a triangle's vertices are dragged around and a rectangle is fitted
inside it. The kernel has two parts:

- `src/lineIntersect.ts`: `intersect`, the segment–segment intersection in
  Paul Bourke's parametric form, and `intersection`, which meets the infinite
  line through a point along a vector with a finite segment, using the
  helpers `delta` and `cp`. `cp` is the source's own 2D cross product,
  `a.y*b.x - a.x*b.y`.
- `src/triangle.ts`: `getTriangleCentroid` and `getRectangleInsideTriangle`.
  The second function casts two diagonal directions (45° and 315°) from the
  centroid against the edges a–b, b–c and c–a. It collects every hit, edge by
  edge and then direction by direction.

Files:

- `types.dfy` (module `Types`): `Point`, `Line` and `Triangle` from
  `src/types.ts`, plus an `Option` type whose `None` stands for the source's
  `false` result. It also holds the vector helpers and `PointAt`, the
  parametric point of a segment.
- `line_intersect.dfy` (module `LineIntersect`): `Intersect`, `Delta`, `Cp`
  and `Intersection`, written as pure functions with the same early returns
  as the source. Lemmas prove soundness (the returned point lies on both
  figures), completeness for non-parallel figures (every common point is
  returned when the determinant or cross product is non-zero), symmetry,
  and what happens in each degenerate case. Parallel figures give no point
  even when they overlap, and two lemmas exhibit that.
- `triangle.dfy` (module `TriangleGeometry`): `Centroid`, `Edges` and
  `RectangleInsideTriangle`. The last one is a method with the source's
  nested loops appending to a sequence. It is proved equal to the functional
  specification `CandidatePoints`, and the count, membership and order
  properties are proved about that specification. The module also works
  through the demo's starting triangle from `src/index.ts`.

Coordinates are exact `real`s and every `=== 0` test is an exact comparison.
In `getRectangleInsideTriangle` the direction vectors come from `Math.cos`
and `Math.sin`, so here they are the parameters `dir45` and `dir315`.
`IntersectionScaleInvariant` shows that only their direction matters.

`src/index.ts` and `src/debug_utils.ts` import
`getLinesOfTriangle`, `getCandidateLinesFromTrianglePoints` and
`getRightAngleIntersections` from `./triangle`, but `src/triangle.ts` does not
define them, and no body for them is visible anywhere in `src/`, so they are
not modelled.

## Model

| member | source | states |
|---|---|---|
| `LineIntersect.Intersect` | src/lineIntersect.ts:7-44 | No point when either segment has zero length or the determinant is zero. Otherwise a point exactly when both `ua` and `ub` lie in [0,1], endpoints included. That point is `line1.a + ua*(line1.b - line1.a)` and also `line2.a + ub*(line2.b - line2.a)`. |
| `LineIntersect.CrossingOnBothLines` | src/lineIntersect.ts:25-43 | When the determinant is non-zero, the point at `ua` on the first line is the point at `ub` on the second (Cramer's rule over the reals). |
| `LineIntersect.ZeroLengthIsParallel` | src/lineIntersect.ts:9-23 | A zero-length segment already makes the determinant zero, so the first early return is subsumed by the parallel test. |
| `LineIntersect.IntersectComplete` | src/lineIntersect.ts:25-43 | Every common point of non-parallel segments (non-zero determinant) is returned: if they share a point at parameters t, s in [0,1], then `ua == t`, `ub == s` and `intersect` returns that point. |
| `LineIntersect.IntersectMissesCollinearOverlap` | src/lineIntersect.ts:16-23 | Collinear segments (0,0)-(2,0) and (1,0)-(3,0) share (1.5,0), yet the zero determinant makes `intersect` return no point. |
| `LineIntersect.IntersectOnBothSegments` | src/lineIntersect.ts:34-43 | Any returned point lies on both closed segments. |
| `LineIntersect.IntersectSymmetric` | src/lineIntersect.ts:16-43 | `intersect(l1, l2)` and `intersect(l2, l1)` are both no point, or both the same point. |
| `LineIntersect.Delta` | src/lineIntersect.ts:49-51 | `a + delta(a, b) == b`. |
| `LineIntersect.Cp` | src/lineIntersect.ts:53-55 | The cross product is zero when either vector is the zero vector; `CpAntisymmetric` proves its antisymmetry. |
| `LineIntersect.CpAntisymmetric` | src/lineIntersect.ts:53-55 | `cp(a, b) == -cp(b, a)` and `cp(a, a) == 0`. |
| `LineIntersect.Intersection` | src/lineIntersect.ts:57-78 | No point when `cp(vector, lineDelta) == 0`, which covers a zero-length segment and a zero vector. Otherwise a point exactly when `v` is in [0,1]. That point is `line.a + lineDelta*v`, equals `point + u*vector`, and lies on the line through `point` along `vector`. |
| `LineIntersect.HitOnRayLine` | src/lineIntersect.ts:69-77 | The point at `v` on the segment is `point + u*vector`, with `u` the ray parameter the source computes and never reads. `cp(hit - point, vector) == 0`. |
| `LineIntersect.IntersectionComplete` | src/lineIntersect.ts:62-77 | When the line through `point` is not parallel to the segment (non-zero cross product), every point on both the segment and that line is returned, whatever the sign of its ray parameter `u`. |
| `LineIntersect.IntersectionRejectsParallel` | src/lineIntersect.ts:62-68 | A line whose vector is a multiple of the segment's direction gives no point, even a line that contains the whole segment: the zero cross product rejects it. |
| `LineIntersect.IntersectionRejectsOutside` | src/lineIntersect.ts:70-74 | A meeting point whose segment parameter `v` is outside [0,1] gives no point. |
| `LineIntersect.IntersectionAtEndpoints` | src/lineIntersect.ts:70-77 | A line not parallel to the segment (non-zero cross product) through `line.a` returns `line.a` (v = 0); such a line through `line.b` returns `line.b` (v = 1). |
| `LineIntersect.IntersectionScaleInvariant` | src/lineIntersect.ts:62-74 | Multiplying `vector` by any non-zero factor leaves the result unchanged. |
| `LineIntersect.IntersectionBehindOrigin` | src/lineIntersect.ts:69-77 | A concrete hit with `u == -1`, behind the ray's origin, is accepted. |
| `TriangleGeometry.Centroid` | src/triangle.ts:5-10 | The offsets from the centroid to the three vertices sum to the zero vector. |
| `TriangleGeometry.CentroidUnique` | src/triangle.ts:5-10 | Any point whose vertex offsets sum to zero is the centroid. |
| `TriangleGeometry.CentroidPermutationInvariant` | src/triangle.ts:5-10 | Every relabelling of a, b, c gives the same centroid. |
| `TriangleGeometry.Edges` | src/triangle.ts:38-42 | Three edges starting at a, b, c in that order, forming a closed chain: each edge ends where the next one starts. |
| `TriangleGeometry.RectangleInsideTriangle` | src/triangle.ts:12-55 | The nested loops return exactly `CandidatePoints(t, dir45, dir315)`, a function of the arguments alone, with at most 6 points. |
| `TriangleGeometry.AllHitsBound` | src/triangle.ts:44-52 | At most one point per (edge, direction) pair. |
| `TriangleGeometry.CandidatePointsAtMostSix` | src/triangle.ts:38-52 | At most 6 candidate points. |
| `TriangleGeometry.AllHitsMembership` | src/triangle.ts:44-52 | A point is collected exactly when some edge and some direction give it as their `intersection`. |
| `TriangleGeometry.CandidatePointsOnEdges` | src/triangle.ts:38-52 | A candidate point is exactly an `intersection(edge, centroid, dir)` for one of the three edges and one of the two directions. Every candidate point lies on a triangle edge. |
| `TriangleGeometry.CandidatePointsOrder` | src/triangle.ts:25-52 | The result is the hits of a–b, then b–c, then c–a; on each edge the 45° hit comes before the 315° hit. A failing combination contributes nothing. |
| `TriangleGeometry.ZeroLengthEdgeHitsNothing` | src/triangle.ts:45-51 | A zero-length edge contributes no point, whatever the directions. |
| `TriangleGeometry.CoincidentVerticesAtMostFour` | src/triangle.ts:38-52 | When a == b, only b–c and c–a contribute, so there are at most 4 points. |
| `TriangleGeometry.DemoTriangleCandidates` | src/index.ts:32-36 | For the demo's triangle (380,180), (220,50), (100,180) with the diagonals (1,1) and (1,-1), the result is exactly the four points listed, in that order. |

## Left out

- `Math.cos` and `Math.sin` of the radian constants (src/triangle.ts:16-34) are not modelled. The two direction vectors are parameters. The demo lemmas use the exact diagonals (1,1) and (1,-1). The source's floating-point vectors are only approximately proportional to these, so those lemmas describe the ideal directions.
- The 135° and 225° constants (src/triangle.ts:18-21) are declared but never used.
- `console.log` (src/triangle.ts:36) is a side effect only.
- IEEE-754 rounding, NaN and infinities are not modelled. This includes the falsy test `!crossProduct` (src/lineIntersect.ts:67), which also rejects NaN, and the NaN-rejecting form `!(v >= 0 && v <= 1)` (src/lineIntersect.ts:72). Over the reals both become plain comparisons.
- `LineIntersect.Intersect` and `LineIntersect.Intersection` return no point for parallel figures even when they overlap, as the source does (src/lineIntersect.ts:21-23 and 67-68). Completeness is therefore proved only for non-parallel figures.
- `LineIntersect.Intersection` does not compute the unused `u` (src/lineIntersect.ts:69). It never affects the result. `RayParameter` defines it, and the lemmas about `Intersection` use it.
- `TriangleGeometry.RectangleInsideTriangle` appends to a local `seq`, not a mutable array. The source's `points` array is local and never aliased, so nothing is lost.
- `getLinesOfTriangle`, `getCandidateLinesFromTrianglePoints` and `getRightAngleIntersections` are imported at src/index.ts:3-9 and src/debug_utils.ts:10-16 but not defined in src/triangle.ts. They are not part of this model, and neither is `./shapes`.
- Rendering, dragging and the debug panel (src/index.ts, src/render_utils.ts, src/debug_utils.ts, src/draggable.ts) are not modelled. Nor is the build configuration (webpack.config.js). None of these has geometric logic.
- The unused `Quad` interface (src/types.ts:17-22) is not modelled.
