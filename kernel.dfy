/** Exact planar kernel primitives the segment Voronoi constructions are built on:
    points, vectors, lines `a*x + b*y + c = 0`, rays, and the handful of
    constructions the diagram code asks of its kernel (midpoint, line through two
    points, perpendicular through a point, direction of a line).

    Coordinates are `real`: the kernel's number type is exact, so no rounding is
    modelled. The line formulas follow CGAL's generic Cartesian kernel:
    the line through `p` and `q` is `(py - qy) x + (qx - px) y + c = 0`, its
    direction is `(b, -a)`, and the perpendicular through a point turns that
    direction a quarter turn counter-clockwise. */
module Kernel {

  datatype Point = Point(x: real, y: real)

  datatype Vector = Vector(dx: real, dy: real)

  /** The line of all `z` with `a * z.x + b * z.y + c == 0`, oriented by `Direction`. */
  datatype Line = Line(a: real, b: real, c: real)

  /** A half-line starting at `source` and running along `direction`. */
  datatype Ray = Ray(source: Point, direction: Vector)

  const Zero := Vector(0.0, 0.0)

  /** The vector from `q` to `p`. */
  function Sub(p: Point, q: Point): Vector {
    Vector(p.x - q.x, p.y - q.y)
  }

  function Neg(v: Vector): Vector {
    Vector(-v.dx, -v.dy)
  }

  function Dot(u: Vector, v: Vector): real {
    u.dx * v.dx + u.dy * v.dy
  }

  function Cross(u: Vector, v: Vector): real {
    u.dx * v.dy - u.dy * v.dx
  }

  /** A quarter turn counter-clockwise. */
  function RotateCcw(v: Vector): Vector {
    Vector(-v.dy, v.dx)
  }

  function SqDist(p: Point, q: Point): real {
    Dot(Sub(p, q), Sub(p, q))
  }

  predicate OnLine(l: Line, z: Point) {
    l.a * z.x + l.b * z.y + l.c == 0.0
  }

  /** The coefficients do not describe a line (every point satisfies the equation). */
  predicate Degenerate(l: Line) {
    l.a == 0.0 && l.b == 0.0
  }

  /** The direction of `l` (CGAL's `Line_2::direction`). */
  function Direction(l: Line): Vector {
    Vector(l.b, -l.a)
  }

  /** Two lines meet at a right angle (trivially true when one is degenerate). */
  predicate ArePerpendicular(l: Line, m: Line) {
    Dot(Direction(l), Direction(m)) == 0.0
  }

  function Negated(l: Line): Line {
    Line(-l.a, -l.b, -l.c)
  }

  /** The point halfway between `p` and `q`. */
  function Midpoint(p: Point, q: Point): Point {
    Point((p.x + q.x) / 2.0, (p.y + q.y) / 2.0)
  }

  /** The line through `p` and `q`, oriented from `p` towards `q`. */
  function LineThrough(p: Point, q: Point): Line {
    var a := p.y - q.y;
    var b := q.x - p.x;
    Line(a, b, -p.x * a - p.y * b)
  }

  /** The line through `pt` perpendicular to `l`; its direction is that of `l`
      turned a quarter turn counter-clockwise (CGAL's `Line_2::perpendicular`). */
  function Perpendicular(l: Line, pt: Point): Line {
    Line(-l.b, l.a, l.b * pt.x - l.a * pt.y)
  }

  /** The point `source + t * direction` of the line carrying `ray` (on the ray itself
      when `t >= 0`). */
  function PointAlong(ray: Ray, t: real): Point {
    Point(ray.source.x + t * ray.direction.dx, ray.source.y + t * ray.direction.dy)
  }

  function Scale(t: real, v: Vector): Vector {
    Vector(t * v.dx, t * v.dy)
  }

  // The basic facts about the constructions above are lemmas rather than
  // postconditions, so that they enter a proof only where they are asked for.

  lemma RotateCcwFacts(v: Vector)
    ensures Dot(RotateCcw(v), v) == 0.0
    ensures Cross(v, RotateCcw(v)) == Dot(v, v)
    ensures RotateCcw(v) == Zero <==> v == Zero
  {
  }

  lemma LineThroughFacts(p: Point, q: Point)
    ensures OnLine(LineThrough(p, q), p) && OnLine(LineThrough(p, q), q)
    ensures Direction(LineThrough(p, q)) == Sub(q, p)
    ensures Degenerate(LineThrough(p, q)) <==> p == q
  {
  }

  lemma PerpendicularFacts(l: Line, pt: Point)
    ensures OnLine(Perpendicular(l, pt), pt)
    ensures Direction(Perpendicular(l, pt)) == RotateCcw(Direction(l))
    ensures ArePerpendicular(Perpendicular(l, pt), l)
    ensures Degenerate(Perpendicular(l, pt)) <==> Degenerate(l)
  {
  }

  /** A point lies on the line through `p` and `q` exactly when it is collinear with them. */
  lemma OnLineThroughIff(p: Point, q: Point, z: Point)
    ensures OnLine(LineThrough(p, q), z) <==> Cross(Sub(q, p), Sub(z, p)) == 0.0
  {
    var l := LineThrough(p, q);
    assert l.a * z.x + l.b * z.y + l.c == Cross(Sub(q, p), Sub(z, p)) by {
      assert l.a * z.x + l.b * z.y + l.c
          == (p.y - q.y) * (z.x - p.x) + (q.x - p.x) * (z.y - p.y);
    }
  }

  /** A point lies on the perpendicular to `l` through `pt` exactly when the step from
      `pt` to it is orthogonal to `l`. */
  lemma OnPerpendicularIff(l: Line, pt: Point, z: Point)
    ensures OnLine(Perpendicular(l, pt), z) <==> Dot(Sub(z, pt), Direction(l)) == 0.0
  {
    var r := Perpendicular(l, pt);
    assert r.a * z.x + r.b * z.y + r.c == -Dot(Sub(z, pt), Direction(l)) by {
      assert r.a * z.x + r.b * z.y + r.c == -l.b * (z.x - pt.x) + l.a * (z.y - pt.y);
    }
  }

  /** Two vectors orthogonal to the same non-zero vector are parallel. */
  lemma CommonNormalParallel(n: Vector, w: Vector, d: Vector)
    requires n != Zero
    requires Dot(n, w) == 0.0 && Dot(n, d) == 0.0
    ensures Cross(w, d) == 0.0
  {
    assert n.dx * Cross(w, d) == d.dy * (n.dx * w.dx + n.dy * w.dy) - w.dy * (n.dx * d.dx + n.dy * d.dy);
    assert n.dy * Cross(w, d) == w.dx * (n.dx * d.dx + n.dy * d.dy) - d.dx * (n.dx * w.dx + n.dy * w.dy);
  }

  /** The factor by which a vector `(wx, wy)` parallel to a non-zero `(dx, dy)` is a
      multiple of it. */
  function Ratio(wx: real, wy: real, dx: real, dy: real): real {
    if dx != 0.0 then wx / dx else if dy != 0.0 then wy / dy else 0.0
  }

  lemma ParallelComponents(wx: real, wy: real, dx: real, dy: real)
    requires dx != 0.0 || dy != 0.0
    requires wx * dy == wy * dx
    ensures wx == Ratio(wx, wy, dx, dy) * dx && wy == Ratio(wx, wy, dx, dy) * dy
  {
    var t := Ratio(wx, wy, dx, dy);
    if dx != 0.0 {
      assert wy * dx == t * dy * dx;
    } else {
      assert wx * dy == 0.0;
      assert wx == (wx * dy) / dy;
    }
  }

  /** A vector parallel to a non-zero `d` is a multiple of `d`. */
  lemma ParallelIsMultiple(w: Vector, d: Vector)
    requires d != Zero && Cross(w, d) == 0.0
    ensures w == Scale(Ratio(w.dx, w.dy, d.dx, d.dy), d)
  {
    ParallelComponents(w.dx, w.dy, d.dx, d.dy);
  }

  /** A ray that starts on a proper line `l` and runs parallel to it carries exactly
      `l`: a point is on `l` if and only if it is `source + t * direction` for some `t`. */
  lemma CarrierIsLine(l: Line, ray: Ray, z: Point)
    requires !Degenerate(l) && ray.direction != Zero
    requires Cross(ray.direction, Direction(l)) == 0.0
    requires OnLine(l, ray.source)
    ensures OnLine(l, z) <==> exists t :: z == PointAlong(ray, t)
  {
    if exists t :: z == PointAlong(ray, t) {
      var t :| z == PointAlong(ray, t);
      CarrierOnLine(l, ray, t);
    }
    if OnLine(l, z) {
      LineOnCarrier(l, ray, z);
    }
  }

  lemma CarrierOnLine(l: Line, ray: Ray, t: real)
    requires Cross(ray.direction, Direction(l)) == 0.0
    requires OnLine(l, ray.source)
    ensures OnLine(l, PointAlong(ray, t))
  {
    var v, d, z := ray.source, ray.direction, PointAlong(ray, t);
    assert l.a * d.dx + l.b * d.dy == 0.0 by {
      assert Cross(d, Direction(l)) == -(l.a * d.dx + l.b * d.dy);
    }
    assert l.a * z.x + l.b * z.y + l.c
        == (l.a * v.x + l.b * v.y + l.c) + t * (l.a * d.dx + l.b * d.dy);
  }

  lemma LineOnCarrier(l: Line, ray: Ray, z: Point)
    requires !Degenerate(l) && ray.direction != Zero
    requires Cross(ray.direction, Direction(l)) == 0.0
    requires OnLine(l, ray.source) && OnLine(l, z)
    ensures exists t :: z == PointAlong(ray, t)
  {
    var v, d, w := ray.source, ray.direction, Sub(z, ray.source);
    var n := Vector(l.a, l.b);
    assert Dot(n, d) == 0.0 by {
      assert Cross(d, Direction(l)) == -Dot(n, d);
    }
    assert Dot(n, w) == 0.0 by {
      assert Dot(n, w) == (l.a * z.x + l.b * z.y + l.c) - (l.a * v.x + l.b * v.y + l.c);
    }
    CommonNormalParallel(n, w, d);
    ParallelIsMultiple(w, d);
    assert z == PointAlong(ray, Ratio(w.dx, w.dy, d.dx, d.dy));
  }
}
