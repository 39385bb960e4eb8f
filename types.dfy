/** The plane geometry values shared by the intersection primitives and the
    triangle helpers (src/types.ts). Coordinates are exact reals: the model
    does not follow IEEE rounding, NaN or infinities. */
module Types {

  /** A result that may be absent; `None` stands for the source's `false`. */
  datatype Option<T> = None | Some(value: T)

  /** A point of the plane. The source also uses it as a 2D vector. */
  datatype Point = Point(x: real, y: real)

  /** A finite segment from `a` to `b`. */
  datatype Line = Line(a: Point, b: Point)

  /** Three vertices; the edges are a-b, b-c and c-a. */
  datatype Triangle = Triangle(a: Point, b: Point, c: Point)

  /** The zero vector. */
  const ZeroVector := Point(0.0, 0.0)

  function Add(p: Point, q: Point): Point {
    Point(p.x + q.x, p.y + q.y)
  }

  function Scale(k: real, p: Point): Point {
    Point(k * p.x, k * p.y)
  }

  /** The point at parameter `t` of the segment's parametric form:
      `l.a` at 0 and `l.b` at 1. */
  function PointAt(l: Line, t: real): Point {
    Point(l.a.x + t * (l.b.x - l.a.x), l.a.y + t * (l.b.y - l.a.y))
  }

  /** `p` lies on the closed segment `l`. */
  ghost predicate OnSegment(p: Point, l: Line) {
    exists t :: 0.0 <= t <= 1.0 && PointAt(l, t) == p
  }
}
