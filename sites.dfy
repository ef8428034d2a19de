/** Sites of a segment Voronoi diagram: each is either a point or a segment. */
module Sites {
  import opened Kernel

  datatype Site = Pt(point: Point) | Seg(source: Point, target: Point)

  /** Degenerate segments are rejected before a site reaches the diagram. */
  predicate ValidSite(s: Site) {
    s.Seg? ==> s.source != s.target
  }

  /** The infinite line carrying a segment site, oriented from source to target. */
  function SupportingLine(s: Site): Line
    requires s.Seg?
  {
    LineThrough(s.source, s.target)
  }

  /** `pt` is one of the two endpoints of the segment site `s` (exact comparison). */
  predicate IsEndpointOf(pt: Point, s: Site) {
    s.Seg? && (pt == s.source || pt == s.target)
  }
}
