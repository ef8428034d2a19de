/** The geometric constructions of the segment Voronoi diagram: the Voronoi vertex
    of three sites, and the bisector of two sites as an unbounded line, as a ray
    bounded by one Voronoi vertex, and as an edge bounded by two.

    The Voronoi vertex itself is computed by an external three-site solver; here
    it is a parameter of every construction that needs it. */
module SvdConstructions {
  import opened Kernel
  import opened Sites

  /** The external solver that yields the point equidistant from three sites. */
  type VertexSolver = (Site, Site, Site) -> Point

  /** A bounded Voronoi edge: a straight segment, or an arc of the parabola with
      the given focus and directrix; in both cases from `first` to `last`. */
  datatype Edge =
    | StraightSegment(first: Point, last: Point)
    | ParabolaSegment(focus: Point, directrix: Line, first: Point, last: Point)

  /** The same edge traversed from `last` to `first`. */
  function Reversed(e: Edge): Edge {
    match e
    case StraightSegment(a, b) => StraightSegment(b, a)
    case ParabolaSegment(f, l, a, b) => ParabolaSegment(f, l, b, a)
  }

  /** The Voronoi vertex of three sites: a plain delegation to the solver. */
  function ConstructVertex(vertex: VertexSolver, s1: Site, s2: Site, s3: Site): Point {
    vertex(s1, s2, s3)
  }

  // ---------------------------------------------------------------------------
  // Bisector line
  // ---------------------------------------------------------------------------

  /** The unbounded bisector of two sites, at most one of which is a segment.
      For two points it is their perpendicular bisector; for a point and a segment
      it is the perpendicular to the segment's supporting line through the point
      (meaningful when the point is an endpoint of the segment). The point it passes
      through and its direction determine the coefficient triple; further properties
      are the lemmas that follow, by case. */
  function BisectorLine(p: Site, q: Site): (l: Line)
    requires !(p.Seg? && q.Seg?)
    ensures p.Pt? && q.Pt? ==>
      OnLine(l, Midpoint(p.point, q.point)) && Direction(l) == RotateCcw(Sub(q.point, p.point))
    ensures p.Seg? ==>
      OnLine(l, q.point) && Direction(l) == RotateCcw(Sub(p.target, p.source))
    ensures q.Seg? ==>
      OnLine(l, p.point) && Direction(l) == RotateCcw(Sub(q.target, q.source))
  {
    if p.Pt? && q.Pt? then
      var mid := Midpoint(p.point, q.point);
      var l := LineThrough(p.point, q.point);
      LineThroughFacts(p.point, q.point);
      PerpendicularFacts(l, mid);
      Perpendicular(l, mid)
    else if p.Seg? && q.Pt? then
      var l := SupportingLine(p);
      LineThroughFacts(p.source, p.target);
      PerpendicularFacts(l, q.point);
      Perpendicular(l, q.point)
    else
      var l := SupportingLine(q);
      LineThroughFacts(q.source, q.target);
      PerpendicularFacts(l, p.point);
      Perpendicular(l, p.point)
  }

  /** Two point sites: the bisector line passes through their midpoint at a right
      angle to the line through them (its direction is `q - p` turned counter-
      clockwise), it is a proper line exactly when the points differ, and exchanging
      the points reverses its orientation. */
  lemma BisectorLineOfPoints(p: Point, q: Point)
    ensures var l := BisectorLine(Pt(p), Pt(q));
      && OnLine(l, Midpoint(p, q))
      && ArePerpendicular(l, LineThrough(p, q))
      && Direction(l) == RotateCcw(Sub(q, p))
      && (Degenerate(l) <==> p == q)
      && BisectorLine(Pt(q), Pt(p)) == Negated(l)
  {
    var line, mid := LineThrough(p, q), Midpoint(p, q);
    var l := BisectorLine(Pt(p), Pt(q));
    assert l == Perpendicular(line, mid);
    LineThroughFacts(p, q);
    PerpendicularFacts(line, mid);
    assert BisectorLine(Pt(q), Pt(p)) == Negated(l) by {
      assert LineThrough(q, p) == Negated(line);
      assert Midpoint(q, p) == mid;
    }
  }

  /** A point and a segment, in either order: the same line, through the point, at a
      right angle to the segment's supporting line (its direction is the segment's
      turned counter-clockwise), and a proper line exactly when the segment is. */
  lemma BisectorLineOfPointAndSegment(pt: Point, seg: Site)
    requires seg.Seg?
    ensures var l := BisectorLine(Pt(pt), seg);
      && l == BisectorLine(seg, Pt(pt))
      && OnLine(l, pt)
      && ArePerpendicular(l, SupportingLine(seg))
      && Direction(l) == RotateCcw(Sub(seg.target, seg.source))
      && (Degenerate(l) <==> !ValidSite(seg))
  {
    LineThroughFacts(seg.source, seg.target);
    PerpendicularFacts(SupportingLine(seg), pt);
  }

  /** The bisector line of two points is exactly the set of points equidistant from them. */
  lemma BisectorLineEquidistant(p: Point, q: Point, z: Point)
    ensures OnLine(BisectorLine(Pt(p), Pt(q)), z) <==> SqDist(z, p) == SqDist(z, q)
  {
    var m := Midpoint(p, q);
    var u := Sub(q, p);
    OnPerpendicularIff(LineThrough(p, q), m, z);
    var w := Sub(z, m);
    // z - p == w + u/2 and z - q == w - u/2, so the squared distances differ by 2 w.u
    assert Sub(z, p) == Vector(w.dx + u.dx / 2.0, w.dy + u.dy / 2.0);
    assert Sub(z, q) == Vector(w.dx - u.dx / 2.0, w.dy - u.dy / 2.0);
    assert SqDist(z, p) - SqDist(z, q) == 2.0 * Dot(w, u) by {
      var a, b, c, d := w.dx, w.dy, u.dx / 2.0, u.dy / 2.0;
      assert (a + c) * (a + c) - (a - c) * (a - c) == 4.0 * a * c;
      assert (b + d) * (b + d) - (b - d) * (b - d) == 4.0 * b * d;
    }
  }

  /** For a point and a segment the bisector line is the set of points whose step
      from the point site is orthogonal to the segment. */
  lemma BisectorLineOrthogonalToSegment(pt: Point, seg: Site, z: Point)
    requires seg.Seg?
    ensures OnLine(BisectorLine(Pt(pt), seg), z)
        <==> Dot(Sub(z, pt), Sub(seg.target, seg.source)) == 0.0
  {
    OnPerpendicularIff(SupportingLine(seg), pt, z);
  }

  // ---------------------------------------------------------------------------
  // Bisector ray
  // ---------------------------------------------------------------------------

  /** The two reference points `(p1, p2)` the ray's direction is taken from: the ray
      runs perpendicular to the line from `p1` to `p2`. Two points give `(q, p)`; a
      point and a segment give the point site and the segment endpoint that is not
      the point site. */
  function RayReference(p: Site, q: Site): (refs: (Point, Point))
    requires !(p.Seg? && q.Seg?)
    requires p.Pt? && q.Seg? ==> IsEndpointOf(p.point, q)
    ensures p.Pt? && q.Pt? ==> refs == (q.point, p.point)
    ensures p.Pt? && q.Seg? ==>
      && refs.1 == p.point
      && IsEndpointOf(refs.0, q)
      && (ValidSite(q) ==> refs.0 != p.point)
    ensures p.Seg? ==>
      && refs.0 == q.point
      && IsEndpointOf(refs.1, p)
      && (ValidSite(p) && IsEndpointOf(q.point, p) ==> refs.1 != q.point)
      && (!IsEndpointOf(q.point, p) ==> refs.1 == p.source)
  {
    if p.Pt? && q.Pt? then
      (q.point, p.point)
    else if p.Pt? && q.Seg? then
      (if p.point == q.source then q.target else q.source, p.point)
    else
      (q.point, if q.point == p.source then p.target else p.source)
  }

  /** The bisector of `p` and `q` bounded by the Voronoi vertex of `p`, `q`, `r`: it
      starts at that vertex and runs along the reference direction `p2 - p1` turned a
      quarter turn counter-clockwise. */
  function BisectorRay(vertex: VertexSolver, p: Site, q: Site, r: Site): (ray: Ray)
    requires !(p.Seg? && q.Seg?)
    requires p.Pt? && q.Seg? ==> IsEndpointOf(p.point, q)
    ensures ray.source == vertex(p, q, r)
    ensures var (p1, p2) := RayReference(p, q);
      && Dot(ray.direction, Sub(p2, p1)) == 0.0
      && Cross(Sub(p2, p1), ray.direction) == SqDist(p2, p1)
      && (ray.direction == Zero <==> p1 == p2)
  {
    var v := ConstructVertex(vertex, p, q, r);
    var (p1, p2) := RayReference(p, q);
    var l := LineThrough(p1, p2);
    var lperp := Perpendicular(l, v);
    Ray(v, Direction(lperp))
  }

  /** Where the bisector line is the local bisector (two distinct points, or a point
      that is an endpoint of a proper segment), the ray runs along it: it is parallel
      to the line and neither direction vanishes. The sign is fixed in every case: for
      two points the ray runs against the orientation of `BisectorLine(p, q)`; for a
      point and a segment it runs along it exactly when the reference step `p2 - p1`
      has the segment's own orientation. */
  lemma RayAlongBisectorLine(vertex: VertexSolver, p: Site, q: Site, r: Site)
    requires ValidSite(p) && ValidSite(q)
    requires p.Pt? && q.Pt? ==> p.point != q.point
    requires p.Pt? && q.Seg? ==> IsEndpointOf(p.point, q)
    requires p.Seg? ==> q.Pt? && IsEndpointOf(q.point, p)
    ensures Cross(BisectorRay(vertex, p, q, r).direction, Direction(BisectorLine(p, q))) == 0.0
    ensures BisectorRay(vertex, p, q, r).direction != Zero
    ensures !Degenerate(BisectorLine(p, q))
    ensures p.Pt? && q.Pt? ==>
      BisectorRay(vertex, p, q, r).direction == Neg(Direction(BisectorLine(p, q)))
    ensures p.Pt? && q.Seg? && p.point == q.source ==>
      BisectorRay(vertex, p, q, r).direction == Neg(Direction(BisectorLine(p, q)))
    ensures p.Pt? && q.Seg? && p.point == q.target ==>
      BisectorRay(vertex, p, q, r).direction == Direction(BisectorLine(p, q))
    ensures p.Seg? && q.point == p.source ==>
      BisectorRay(vertex, p, q, r).direction == Direction(BisectorLine(p, q))
    ensures p.Seg? && q.point == p.target ==>
      BisectorRay(vertex, p, q, r).direction == Neg(Direction(BisectorLine(p, q)))
  {
    var (p1, p2) := RayReference(p, q);
    var u := if p.Pt? && q.Pt? then Sub(q.point, p.point)
             else if p.Seg? then Sub(p.target, p.source) else Sub(q.target, q.source);
    RayDirection(vertex, p, q, r);
    assert Sub(p2, p1) == u || Sub(p2, p1) == Neg(u) by {
      // the reference points are the two endpoints, in one order or the other
      if p.Pt? && q.Pt? {
        assert Sub(p2, p1) == Neg(u);
      }
    }
    RotationsOfOpposites(Sub(p2, p1), u);
  }

  /** The ray's direction is the reference direction turned counter-clockwise. */
  lemma RayDirection(vertex: VertexSolver, p: Site, q: Site, r: Site)
    requires !(p.Seg? && q.Seg?)
    requires p.Pt? && q.Seg? ==> IsEndpointOf(p.point, q)
    ensures var (p1, p2) := RayReference(p, q);
      BisectorRay(vertex, p, q, r).direction == RotateCcw(Sub(p2, p1))
  {
  }

  lemma RotationsOfOpposites(v: Vector, u: Vector)
    requires v == u || v == Neg(u)
    ensures Cross(RotateCcw(v), RotateCcw(u)) == 0.0
  {
    if v == u {
      assert Cross(RotateCcw(v), RotateCcw(u)) == u.dy * u.dx - u.dx * u.dy;
    } else {
      assert Cross(RotateCcw(v), RotateCcw(u)) == -u.dy * u.dx + u.dx * u.dy;
    }
  }

  /** If the solver places the vertex on the bisector line (as a Voronoi vertex of `p`
      and `q` is), the line carrying the ray is the bisector line: every point
      `vertex + t * direction` lies on it, and every point of it is such a point. */
  lemma RayCarrierIsBisectorLine(vertex: VertexSolver, p: Site, q: Site, r: Site, z: Point)
    requires ValidSite(p) && ValidSite(q)
    requires p.Pt? && q.Pt? ==> p.point != q.point
    requires p.Pt? && q.Seg? ==> IsEndpointOf(p.point, q)
    requires p.Seg? ==> q.Pt? && IsEndpointOf(q.point, p)
    requires OnLine(BisectorLine(p, q), vertex(p, q, r))
    ensures OnLine(BisectorLine(p, q), z)
        <==> exists t :: z == PointAlong(BisectorRay(vertex, p, q, r), t)
  {
    RayAlongBisectorLine(vertex, p, q, r);
    CarrierIsLine(BisectorLine(p, q), BisectorRay(vertex, p, q, r), z);
  }

  /** For two distinct points whose vertex the solver places equidistant from both, the
      line carrying the ray is exactly the set of points equidistant from `p` and `q`. */
  lemma RayCarrierEquidistant(vertex: VertexSolver, p: Point, q: Point, r: Site, z: Point)
    requires p != q
    requires SqDist(vertex(Pt(p), Pt(q), r), p) == SqDist(vertex(Pt(p), Pt(q), r), q)
    ensures SqDist(z, p) == SqDist(z, q)
        <==> exists t :: z == PointAlong(BisectorRay(vertex, Pt(p), Pt(q), r), t)
  {
    BisectorLineEquidistant(p, q, vertex(Pt(p), Pt(q), r));
    BisectorLineEquidistant(p, q, z);
    RayCarrierIsBisectorLine(vertex, Pt(p), Pt(q), r, z);
  }

  // ---------------------------------------------------------------------------
  // Bisector segment
  // ---------------------------------------------------------------------------

  /** The Voronoi edge of `p` and `q` bounded by the vertex of `(p, q, r)` and the
      vertex of `(q, p, s)`. It is straight when the two sites have the same type or
      the point site is an endpoint of the segment site; otherwise it is a parabolic
      arc with the point site as focus and the segment's supporting line as directrix. */
  function BisectorSegment(vertex: VertexSolver, p: Site, q: Site, r: Site, s: Site): (e: Edge)
    ensures e.first == vertex(p, q, r) && e.last == vertex(q, p, s)
    ensures e.StraightSegment? <==>
      || p.Pt? == q.Pt?
      || (p.Pt? && IsEndpointOf(p.point, q))
      || (q.Pt? && IsEndpointOf(q.point, p))
    ensures e.ParabolaSegment? && p.Pt? ==>
      e.focus == p.point && q.Seg? && e.directrix == SupportingLine(q)
    ensures e.ParabolaSegment? && q.Pt? ==>
      e.focus == q.point && p.Seg? && e.directrix == SupportingLine(p)
  {
    var vpqr := ConstructVertex(vertex, p, q, r);
    var vqps := ConstructVertex(vertex, q, p, s);
    if (p.Pt? && q.Pt?) || (p.Seg? && q.Seg?) then
      StraightSegment(vpqr, vqps)
    else if p.Pt? then
      if p.point == q.source || p.point == q.target then
        StraightSegment(vpqr, vqps)
      else
        ParabolaSegment(p.point, SupportingLine(q), vpqr, vqps)
    else if q.point == p.source || q.point == p.target then
      StraightSegment(vpqr, vqps)
    else
      ParabolaSegment(q.point, SupportingLine(p), vpqr, vqps)
  }

  /** Exchanging the two bisected sites, together with the two bounding sites, yields
      the same edge traversed the other way: in particular the point/segment and
      segment/point cases agree on focus and directrix. */
  lemma BisectorSegmentSwap(vertex: VertexSolver, p: Site, q: Site, r: Site, s: Site)
    ensures BisectorSegment(vertex, q, p, s, r) == Reversed(BisectorSegment(vertex, p, q, r, s))
  {
  }

  /** A curved edge only arises between a point and a proper segment that does not
      have the point as an endpoint; its directrix is then a proper line, and a point
      lies on it exactly when it is collinear with the segment. */
  lemma ParabolaDirectrix(vertex: VertexSolver, p: Site, q: Site, r: Site, s: Site, z: Point)
    requires ValidSite(p) && ValidSite(q)
    requires BisectorSegment(vertex, p, q, r, s).ParabolaSegment?
    ensures var e := BisectorSegment(vertex, p, q, r, s);
      var seg := if p.Seg? then p else q;
      && p.Pt? != q.Pt?
      && !IsEndpointOf(e.focus, seg)
      && !Degenerate(e.directrix)
      && (OnLine(e.directrix, z) <==> Cross(Sub(seg.target, seg.source), Sub(z, seg.source)) == 0.0)
  {
    var seg := if p.Seg? then p else q;
    OnLineThroughIff(seg.source, seg.target, z);
  }
}
