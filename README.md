# Segment Voronoi diagram constructions, modelled in Dafny

This project models the geometric constructions of CGAL's segment Voronoi diagram
(`Segment_Voronoi_diagram_constructions_C2.h`). The sites of this diagram are points
and line segments. Given sites that the diagram already knows to be adjacent, the
constructions build concrete geometry:

- the Voronoi vertex of three sites (`Construct_svd_vertex_2`);
- the unbounded bisector line of two sites (`Construct_svd_bisector_2`);
- the bisector ray of two sites, bounded by the vertex they share with a third site
  (`Construct_svd_bisector_ray_2`);
- the bounded Voronoi edge of two sites, between the vertex of `(p, q, r)` and the
  vertex of `(q, p, s)` (`Construct_svd_bisector_segment_2`). This edge is either a
  straight segment or a parabolic arc.

Files and modules:

- `kernel.dfy`, module `Kernel`: exact planar primitives over `real`. These are points,
  vectors, lines `a x + b y + c = 0`, rays, the midpoint, the line through two points,
  the perpendicular through a point and the direction of a line. CGAL's Cartesian
  kernel is not part of this model. The formulas are its generic ones: the line through
  `p`, `q` has `a = py - qy`, `b = qx - px`; its direction is `(b, -a)`; the
  perpendicular through a point has the direction turned a quarter turn
  counter-clockwise.
- `sites.dfy`, module `Sites`: `Site = Pt(point) | Seg(source, target)`, the supporting
  line of a segment, and the exact "is an endpoint of" test.
- `constructions.dfy`, module `SvdConstructions`: the four constructions, the `Edge`
  result type (`StraightSegment` or `ParabolaSegment`), and the lemmas about them.
- `scenarios.dfy`, module `SvdScenarios`: concrete configurations, e.g. the bisector of
  (0,0) and (2,0) is the line x = 1.

The three-site vertex solver (`Svd_voronoi_vertex_2`) is not part of this model. Every
construction that needs a vertex takes the solver as a parameter
`vertex: (Site, Site, Site) -> Point`. Every lemma is stated for an arbitrary solver.
The two ray-carrier lemmas also assume something about the solver's vertex: that it
lies on the bisector line, or that it is equidistant from both points.
`ConstructVertex` only applies that parameter (source lines 36-41), so it has no
contract of its own.

A line is compared as a coefficient triple, so `BisectorLine` says which triple is
built. Newer CGAL kernels special-case horizontal and vertical lines. They only rescale
the triple by a positive factor, so the point set and the orientation stay the same.

The `CGAL_assertion` preconditions become `requires` clauses:

- not both sites are segments, for the line and for the ray;
- the point is an endpoint of the segment, for the ray's point/segment case.

The functions are total on every other combination of site types.

The curved edge is a single `Parabola_segment_2` built from the focus, the directrix
and the two vertices (lines 187 and 197).

The ray (lines 137-140) and `BisectorLine` both turn a line a quarter turn
counter-clockwise. The lines they turn have different orientations, so whether the ray
runs along or against `BisectorLine(p, q)` depends on the case. `RayAlongBisectorLine`
states the sign for each case.

## Model

| member | source | states |
|---|---|---|
| SvdConstructions.BisectorLine | Packages/Segment_Voronoi_diagram_2/include/CGAL/Segment_Voronoi_diagram_constructions_C2.h:81-100 | For two point sites, the line passes through their midpoint, with direction `q - p` turned counter-clockwise. For a point and a segment, in either order, it passes through the point, with direction `target - source` turned counter-clockwise. Each of these pins down the coefficient triple. |
| SvdConstructions.BisectorLineOfPoints | Packages/Segment_Voronoi_diagram_2/include/CGAL/Segment_Voronoi_diagram_constructions_C2.h:85-89 | For two point sites, the line passes through their midpoint and is perpendicular to the line through them. Its direction is `q - p` turned counter-clockwise. It is a proper line exactly when `p != q`. Exchanging `p` and `q` negates it (same line, opposite orientation). |
| SvdConstructions.BisectorLineEquidistant | Packages/Segment_Voronoi_diagram_2/include/CGAL/Segment_Voronoi_diagram_constructions_C2.h:85-89 | For two point sites, a point lies on the bisector line if and only if it is equally far from both. |
| SvdConstructions.BisectorLineOfPointAndSegment | Packages/Segment_Voronoi_diagram_2/include/CGAL/Segment_Voronoi_diagram_constructions_C2.h:90-99 | A point site and a segment site give the same line in either order. The line passes through the point and is perpendicular to the segment's supporting line. Its direction is the segment's turned counter-clockwise. It is proper exactly when the segment is non-degenerate. |
| SvdConstructions.BisectorLineOrthogonalToSegment | Packages/Segment_Voronoi_diagram_2/include/CGAL/Segment_Voronoi_diagram_constructions_C2.h:90-99 | For a point and a segment, a point `z` is on the bisector line if and only if `z - point` is orthogonal to `target - source`. |
| SvdConstructions.RayReference | Packages/Segment_Voronoi_diagram_2/include/CGAL/Segment_Voronoi_diagram_constructions_C2.h:123-136 | Two points give the reference pair `(q, p)`. In the point/segment case (where the point must be an endpoint), the second reference point is the point site and the first is the segment's other endpoint. In the segment/point case, the first reference point is the point site and the second is an endpoint of the segment: the other one when the point is an endpoint, the source when it is not. |
| SvdConstructions.BisectorRay | Packages/Segment_Voronoi_diagram_2/include/CGAL/Segment_Voronoi_diagram_constructions_C2.h:117-141 | The ray starts exactly at `vertex(p, q, r)`. Its direction is perpendicular to `p2 - p1`, where `(p1, p2)` is the reference pair. The direction is positively oriented (`p2 - p1` turned counter-clockwise), and it is zero only if `p1 == p2`. |
| SvdConstructions.RayAlongBisectorLine | Packages/Segment_Voronoi_diagram_2/include/CGAL/Segment_Voronoi_diagram_constructions_C2.h:81-141 | Take two distinct points, or a point at an endpoint of a proper segment. Then the ray's direction is non-zero and parallel to the bisector line, which is proper. The sign is fixed in every case. For two points the ray runs opposite to `BisectorLine(p, q)`. For a point and a segment it runs opposite when the point is the segment's source, and along it when the point is the target. For a segment and a point these two cases are swapped. |
| SvdConstructions.RayCarrierIsBisectorLine | Packages/Segment_Voronoi_diagram_2/include/CGAL/Segment_Voronoi_diagram_constructions_C2.h:117-141 | Take two distinct points, or a point at an endpoint of a proper segment, and a solver that places their vertex on the bisector line. Then the line carrying the ray is exactly the bisector line: a point is on `BisectorLine(p, q)` if and only if it is `vertex + t * direction` for some `t`. |
| SvdConstructions.RayCarrierEquidistant | Packages/Segment_Voronoi_diagram_2/include/CGAL/Segment_Voronoi_diagram_constructions_C2.h:122-140 | For two distinct points and a solver whose vertex is equidistant from them, a point is equidistant from `p` and `q` if and only if it lies on the line carrying the ray. The Voronoi ray of two points runs along their locus of equal distance. |
| SvdConstructions.BisectorSegment | Packages/Segment_Voronoi_diagram_2/include/CGAL/Segment_Voronoi_diagram_constructions_C2.h:164-199 | In every branch the edge runs from `vertex(p, q, r)` to `vertex(q, p, s)`. It is straight exactly when: both sites are points, or both are segments, or the point site is an endpoint of the segment site. Otherwise it is a parabolic arc. The focus is the point site and the directrix is the segment's supporting line. |
| SvdConstructions.BisectorSegmentSwap | Packages/Segment_Voronoi_diagram_2/include/CGAL/Segment_Voronoi_diagram_constructions_C2.h:174-198 | Swapping `p` with `q` and `r` with `s` gives the same edge traversed backwards. The point/segment and segment/point branches therefore agree on focus and directrix. |
| SvdConstructions.ParabolaDirectrix | Packages/Segment_Voronoi_diagram_2/include/CGAL/Segment_Voronoi_diagram_constructions_C2.h:179-198 | Suppose the edge is a parabolic arc and both sites are valid. Then exactly one site is a point, and the focus is not an endpoint of the segment. The directrix is a proper line, and a point `z` lies on it exactly when `z` is collinear with the segment. |
| SvdScenarios.LevelPointsBisector | Packages/Segment_Voronoi_diagram_2/include/CGAL/Segment_Voronoi_diagram_constructions_C2.h:85-89 | Two points at the same height have as bisector the vertical line halfway between them (every point, when the two points coincide). |
| SvdScenarios.TwoPointsBisector | Packages/Segment_Voronoi_diagram_2/include/CGAL/Segment_Voronoi_diagram_constructions_C2.h:85-89 | The bisector of (0,0) and (2,0) is the line x = 1. |
| SvdScenarios.LevelSegmentBisector | Packages/Segment_Voronoi_diagram_2/include/CGAL/Segment_Voronoi_diagram_constructions_C2.h:90-99 | A point and a proper horizontal segment, in either order, have as bisector line the vertical line through the point. |
| SvdScenarios.EndpointBisector | Packages/Segment_Voronoi_diagram_2/include/CGAL/Segment_Voronoi_diagram_constructions_C2.h:90-99 | The point (0,0) and the segment (0,0)-(4,0), in either order, have as bisector line x = 0. |
| SvdScenarios.EndpointRay | Packages/Segment_Voronoi_diagram_2/include/CGAL/Segment_Voronoi_diagram_constructions_C2.h:127-140 | For the point (0,0) and the segment (0,0)-(4,0), the ray starts at the solver's vertex and points straight down, along (0,-4). |
| SvdScenarios.LevelSupportingLine | Packages/Segment_Voronoi_diagram_2/include/CGAL/Segment_Voronoi_diagram_constructions_C2.h:186 | The supporting line of a proper horizontal segment is the horizontal line through it. |
| SvdScenarios.LevelSegmentParabola | Packages/Segment_Voronoi_diagram_2/include/CGAL/Segment_Voronoi_diagram_constructions_C2.h:179-198 | A point off the endpoints of a proper horizontal segment gives, in either order, a parabolic arc. The focus is the point and the directrix is the horizontal line of the segment. |
| SvdScenarios.OffSegmentParabola | Packages/Segment_Voronoi_diagram_2/include/CGAL/Segment_Voronoi_diagram_constructions_C2.h:186-188 | The point (1,5) and the segment (0,0)-(4,0) give a parabolic arc with focus (1,5) and directrix 4y = 0. It is bounded by the two solver vertices. The reversed arc comes out when the sites are given in the other order. |
| SvdScenarios.EndpointStraight | Packages/Segment_Voronoi_diagram_2/include/CGAL/Segment_Voronoi_diagram_constructions_C2.h:191-194 | The segment (0,0)-(4,0) and its endpoint (4,0) give a straight edge between the two vertices. |

## Left out

- `Construct_svd_circle_2` (lines 58-63): it only hands its sites to the external solver, which is not part of this model, and returns that solver's circle. Circles are not modelled.
- `Svd_voronoi_vertex_2`, the three-site solver: it is a function parameter with no properties. So the model proves nothing about equidistance of the vertex from its three sites. It also does not model the solver failing on degenerate triples.
- `Parabola_segment_2` and `Parabola_2`: their internals are not modelled. A parabolic edge records only its focus, its directrix and its two bounding points.
- CGAL's `Object` / `make_object` type erasure: it is replaced by the closed datatype `Edge`.
- Kernel genericity (the `Gt`, `K` and `M` template parameters): coordinates are fixed to exact `real`s. Floating-point filtering is not modelled.
- `Are_same_points_2` versus `==`: the segment construction uses the predicate in its point/segment branch and `==` in its segment/point branch. Both are modelled as exact equality of points, so the model does not tell them apart.
- `CGAL_assertion`: the checks are modelled as preconditions. Their being compiled out in release builds is not modelled.
