/** Concrete configurations of the constructions, stated as lemmas. */
module SvdScenarios {
  import opened Kernel
  import opened Sites
  import opened SvdConstructions

  /** Two points at the same height: their bisector is the vertical line halfway between
      them (or every point, when they coincide). */
  lemma LevelPointsBisector(p: Point, q: Point, z: Point)
    requires p.y == q.y
    ensures OnLine(BisectorLine(Pt(p), Pt(q)), z) <==> (p.x == q.x || z.x == (p.x + q.x) / 2.0)
  {
    assert BisectorLine(Pt(p), Pt(q)) == Perpendicular(LineThrough(p, q), Midpoint(p, q));
    LevelPerpendicular(p, q, z);
  }

  lemma LevelPerpendicular(p: Point, q: Point, z: Point)
    requires p.y == q.y
    ensures OnLine(Perpendicular(LineThrough(p, q), Midpoint(p, q)), z)
        <==> (p.x == q.x || z.x == (p.x + q.x) / 2.0)
  {
    var line, mid := LineThrough(p, q), Midpoint(p, q);
    OnPerpendicularIff(line, mid, z);
    assert Dot(Sub(z, mid), Direction(line)) == (z.x - mid.x) * (q.x - p.x);
    ProductZero(z.x - mid.x, q.x - p.x);
  }

  lemma ProductZero(a: real, b: real)
    ensures a * b == 0.0 <==> a == 0.0 || b == 0.0
  {
  }

  /** A point and a proper horizontal segment: their bisector line is the vertical line
      through the point. */
  lemma LevelSegmentBisector(pt: Point, seg: Site, z: Point)
    requires seg.Seg? && seg.source.y == seg.target.y && seg.source.x != seg.target.x
    ensures OnLine(BisectorLine(Pt(pt), seg), z) <==> z.x == pt.x
    ensures OnLine(BisectorLine(seg, Pt(pt)), z) <==> z.x == pt.x
  {
    BisectorLineOfPointAndSegment(pt, seg);
    BisectorLineOrthogonalToSegment(pt, seg, z);
    assert Dot(Sub(z, pt), Sub(seg.target, seg.source))
        == (z.x - pt.x) * (seg.target.x - seg.source.x);
  }

  /** The supporting line of a proper horizontal segment is the line y = const. */
  lemma LevelSupportingLine(seg: Site, z: Point)
    requires seg.Seg? && seg.source.y == seg.target.y && seg.source.x != seg.target.x
    ensures OnLine(SupportingLine(seg), z) <==> z.y == seg.source.y
  {
    OnLineThroughIff(seg.source, seg.target, z);
    assert Cross(Sub(seg.target, seg.source), Sub(z, seg.source))
        == (seg.target.x - seg.source.x) * (z.y - seg.source.y);
  }

  /** The bisector of the points (0,0) and (2,0) is the vertical line x = 1. */
  lemma TwoPointsBisector(z: Point)
    ensures OnLine(BisectorLine(Pt(Point(0.0, 0.0)), Pt(Point(2.0, 0.0))), z) <==> z.x == 1.0
  {
    LevelPointsBisector(Point(0.0, 0.0), Point(2.0, 0.0), z);
  }

  /** The bisector of the point (0,0) and the segment from (0,0) to (4,0), in either
      order, is the vertical line x = 0. */
  lemma EndpointBisector(z: Point)
    ensures var pt, seg := Pt(Point(0.0, 0.0)), Seg(Point(0.0, 0.0), Point(4.0, 0.0));
      && (OnLine(BisectorLine(pt, seg), z) <==> z.x == 0.0)
      && (OnLine(BisectorLine(seg, pt), z) <==> z.x == 0.0)
  {
    LevelSegmentBisector(Point(0.0, 0.0), Seg(Point(0.0, 0.0), Point(4.0, 0.0)), z);
  }

  /** The ray between the point (0,0) and the segment from (0,0) to (4,0) leaves the
      vertex along the step from (4,0) to (0,0) turned counter-clockwise: straight down. */
  lemma EndpointRay(vertex: VertexSolver, r: Site)
    ensures var ray := BisectorRay(vertex, Pt(Point(0.0, 0.0)), Seg(Point(0.0, 0.0), Point(4.0, 0.0)), r);
      ray.source == vertex(Pt(Point(0.0, 0.0)), Seg(Point(0.0, 0.0), Point(4.0, 0.0)), r)
      && ray.direction == Vector(0.0, -4.0)
  {
  }

  /** A point off the endpoints of a proper horizontal segment: their edge, in either
      order, is a parabolic arc with the point as focus and the horizontal line through
      the segment as directrix. */
  lemma LevelSegmentParabola(vertex: VertexSolver, pt: Point, seg: Site, r: Site, s: Site, z: Point)
    requires seg.Seg? && seg.source.y == seg.target.y && seg.source.x != seg.target.x
    requires !IsEndpointOf(pt, seg)
    ensures var e := BisectorSegment(vertex, Pt(pt), seg, r, s);
      && e.ParabolaSegment? && e.focus == pt
      && (OnLine(e.directrix, z) <==> z.y == seg.source.y)
      && BisectorSegment(vertex, seg, Pt(pt), s, r) == Reversed(e)
  {
    LevelSupportingLine(seg, z);
    BisectorSegmentSwap(vertex, Pt(pt), seg, r, s);
  }

  /** The point (1,5) is not an endpoint of the segment from (0,0) to (4,0), so their
      edge is a parabolic arc with focus (1,5) and directrix 4y = 0, whichever of the
      two comes first. */
  lemma OffSegmentParabola(vertex: VertexSolver, r: Site, s: Site)
    ensures BisectorSegment(vertex, Pt(Point(1.0, 5.0)), Seg(Point(0.0, 0.0), Point(4.0, 0.0)), r, s)
         == ParabolaSegment(Point(1.0, 5.0), Line(0.0, 4.0, 0.0),
              vertex(Pt(Point(1.0, 5.0)), Seg(Point(0.0, 0.0), Point(4.0, 0.0)), r),
              vertex(Seg(Point(0.0, 0.0), Point(4.0, 0.0)), Pt(Point(1.0, 5.0)), s))
    ensures BisectorSegment(vertex, Seg(Point(0.0, 0.0), Point(4.0, 0.0)), Pt(Point(1.0, 5.0)), s, r)
         == ParabolaSegment(Point(1.0, 5.0), Line(0.0, 4.0, 0.0),
              vertex(Seg(Point(0.0, 0.0), Point(4.0, 0.0)), Pt(Point(1.0, 5.0)), s),
              vertex(Pt(Point(1.0, 5.0)), Seg(Point(0.0, 0.0), Point(4.0, 0.0)), r))
  {
  }

  /** An endpoint of the segment gives a straight edge between the two vertices. */
  lemma EndpointStraight(vertex: VertexSolver, r: Site, s: Site)
    ensures var pt, seg := Pt(Point(4.0, 0.0)), Seg(Point(0.0, 0.0), Point(4.0, 0.0));
      BisectorSegment(vertex, seg, pt, r, s) == StraightSegment(vertex(seg, pt, r), vertex(pt, seg, s))
  {
  }
}
