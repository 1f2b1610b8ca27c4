/**
 * The boundary a scroll tree grows inside (Polygon.cs): a closed ring of straight
 * edges built from a vertex list, its area and centroid by the shoelace formula, and
 * the single circular edge that replaces the ring when it has more than eight edges.
 */
module Boundary {
  import opened Angles
  import opened Plane
  import opened Seqs

  /** FlEdge (from A to B) and its subclass CircularEdge (a circle of radius rad). */
  datatype Edge = Straight(a: Point, b: Point) | Circular(ctr: Point, rad: real)

  /** The fields of a Polygon: vertices, edges, centroid, area and the circle radius
      (zero until the polygon becomes circular). */
  datatype Polygon = Polygon(vertices: seq<Point>, edges: seq<Edge>, centroid: Point,
                             area: real, radius: real)

  /** The polygon the parameterless constructor and the short-list case leave behind. */
  const EmptyPolygon: Polygon := Polygon([], [], Point(0.0, 0.0), 0.0, 0.0)

  /** FlEdge.EdgeCrossProduct: the shoelace term of the edge from p1 to p2. */
  function EdgeCross(p1: Point, p2: Point): real
  {
    p1.x * p2.y - p2.x * p1.y
  }

  /** FlEdge.EdgePartialX and EdgePartialY: the centroid terms of the edge from p1 to p2. */
  function PartialX(p1: Point, p2: Point): real
  {
    EdgeCross(p1, p2) * (p1.x + p2.x)
  }

  function PartialY(p1: Point, p2: Point): real
  {
    EdgeCross(p1, p2) * (p1.y + p2.y)
  }

  /** The vertex before vertex i on the closed ring: the last one comes before the first. */
  function Prev(vs: seq<Point>, i: nat): Point
    requires i < |vs|
  {
    if i == 0 then vs[|vs| - 1] else vs[i - 1]
  }

  /** The ring of a vertex list: edge i runs from the vertex before i to vertex i. */
  function RingEdges(vs: seq<Point>): (r: seq<Edge>)
    ensures |r| == |vs|
    ensures forall i :: 0 <= i < |vs| ==> r[i] == Straight(Prev(vs, i), vs[i])
  {
    seq(|vs|, i requires 0 <= i < |vs| => Straight(Prev(vs, i), vs[i]))
  }

  /** The shoelace terms of the ring, edge by edge. */
  function ShoelaceTerms(vs: seq<Point>): (r: seq<real>)
    ensures |r| == |vs|
    ensures forall i :: 0 <= i < |vs| ==> r[i] == EdgeCross(Prev(vs, i), vs[i])
  {
    seq(|vs|, i requires 0 <= i < |vs| => EdgeCross(Prev(vs, i), vs[i]))
  }

  function PartialXTerms(vs: seq<Point>): (r: seq<real>)
    ensures |r| == |vs|
    ensures forall i :: 0 <= i < |vs| ==> r[i] == PartialX(Prev(vs, i), vs[i])
  {
    seq(|vs|, i requires 0 <= i < |vs| => PartialX(Prev(vs, i), vs[i]))
  }

  function PartialYTerms(vs: seq<Point>): (r: seq<real>)
    ensures |r| == |vs|
    ensures forall i :: 0 <= i < |vs| ==> r[i] == PartialY(Prev(vs, i), vs[i])
  {
    seq(|vs|, i requires 0 <= i < |vs| => PartialY(Prev(vs, i), vs[i]))
  }

  /** The signed area of the ring: half the sum of its shoelace terms (positive when
      the vertices run counter-clockwise). */
  function ShoelaceArea(vs: seq<Point>): real
  {
    0.5 * Sum(ShoelaceTerms(vs))
  }

  /** The centroid of the ring by the shoelace formula, with the source's coefficient
      1 / (6 * area). */
  function ShoelaceCentroid(vs: seq<Point>): Point
  {
    CentroidFrom(ShoelaceArea(vs), Sum(PartialXTerms(vs)), Sum(PartialYTerms(vs)))
  }

  /** The last step of the centroid formula: both partial sums times 1 / (6 * area). */
  function CentroidFrom(area: real, partialX: real, partialY: real): Point
  {
    var areaRatio := Quot(1.0, 6.0 * area);
    Point(areaRatio * partialX, areaRatio * partialY)
  }

  /** Polygon.ScaleVertices: every coordinate multiplied by the configured scale. */
  function ScaleVertices(vs: seq<Point>, scale: real): (r: seq<Point>)
    ensures |r| == |vs|
    ensures forall i :: 0 <= i < |vs| ==> r[i] == ScalePoint(vs[i], scale)
  {
    seq(|vs|, i requires 0 <= i < |vs| => ScalePoint(vs[i], scale))
  }

  /** A point with both coordinates multiplied by k. */
  function ScalePoint(p: Point, k: real): Point
  {
    Point(p.x * k, p.y * k)
  }

  /** Scaling both ends of an edge by k scales its shoelace term, and so its share of
      the area, by k * k. */
  lemma ScaledCross(p: Point, q: Point, k: real)
    ensures EdgeCross(ScalePoint(p, k), ScalePoint(q, k)) == EdgeCross(p, q) * (k * k)
  {
    ScaledCrossCoords(p.x, p.y, q.x, q.y, k);
  }

  lemma ScaledCrossCoords(px: real, py: real, qx: real, qy: real, k: real)
    ensures (px * k) * (qy * k) - (qx * k) * (py * k) == (px * qy - qx * py) * (k * k)
  {
  }

  /** Scaling keeps the ring: edge i of the scaled list joins the scaled ends of edge i. */
  lemma ScaledRing(vs: seq<Point>, k: real, i: nat)
    requires i < |vs|
    ensures RingEdges(ScaleVertices(vs, k))[i] == Straight(ScalePoint(Prev(vs, i), k), ScalePoint(vs[i], k))
  {
    ScaledPrev(vs, k, i);
  }

  lemma ScaledPrev(vs: seq<Point>, k: real, i: nat)
    requires i < |vs|
    ensures Prev(ScaleVertices(vs, k), i) == ScalePoint(Prev(vs, i), k)
  {
  }

  /** The ring started one vertex later. */
  function RotateLeft(vs: seq<Point>): (r: seq<Point>)
    requires |vs| > 0
    ensures |r| == |vs|
  {
    vs[1..] + [vs[0]]
  }

  /** The area does not depend on which vertex the list starts with. */
  lemma {:induction false} ShoelaceRotate(vs: seq<Point>)
    requires |vs| > 1
    ensures ShoelaceArea(RotateLeft(vs)) == ShoelaceArea(vs)
  {
    var n := |vs|;
    var rv := RotateLeft(vs);
    var t, rt := ShoelaceTerms(vs), ShoelaceTerms(rv);
    forall i | 0 <= i < n - 1
      ensures rt[i] == t[i + 1]
    {
      assert rv[i] == vs[i + 1];
      assert Prev(rv, i) == vs[i];
    }
    assert rt[n - 1] == t[0] by {
      assert rv[n - 1] == vs[0];
      assert Prev(rv, n - 1) == vs[n - 1];
    }
    assert rt == t[1..] + [t[0]];
    assert t == [t[0]] + t[1..];
    SumConcat(t[1..], [t[0]]);
    SumConcat([t[0]], t[1..]);
  }

  /** The distances from c to every vertex. */
  function CtrDists(o: Oracle, c: Point, vs: seq<Point>): (r: seq<real>)
    ensures |r| == |vs|
    ensures forall i :: 0 <= i < |vs| ==> r[i] == PointDist(o, c, vs[i])
  {
    seq(|vs|, i requires 0 <= i < |vs| => PointDist(o, c, vs[i]))
  }

  /**
   * Polygon.BecomeCircular: the edges are replaced by one circular edge around the
   * centroid whose radius is the distance to the nearest vertex, so the circle touches
   * the nearest vertex and has every vertex on or outside it. (The source takes the
   * minimum of the distance list, which throws on a polygon without vertices.)
   */
  function BecomeCircular(o: Oracle, p: Polygon): (r: Polygon)
    requires |p.vertices| > 0
    ensures r.vertices == p.vertices && r.centroid == p.centroid && r.area == p.area
    ensures r.edges == [Circular(p.centroid, r.radius)]
    ensures exists i :: 0 <= i < |p.vertices| && r.radius == PointDist(o, p.centroid, p.vertices[i])
    ensures forall i :: 0 <= i < |p.vertices| ==> r.radius <= PointDist(o, p.centroid, p.vertices[i])
    ensures SqrtSound(o) ==> 0.0 <= r.radius
  {
    var dists := CtrDists(o, p.centroid, p.vertices);
    var radius := MinOf(dists);
    Polygon(p.vertices, [Circular(p.centroid, radius)], p.centroid, p.area, radius)
  }

  /**
   * The Polygon constructor: the vertex list is scaled when asked; with three or more
   * vertices every vertex is kept, the ring of edges is built from the last vertex round
   * to the first while the shoelace sums are accumulated, and a ring of more than eight
   * edges becomes a circle. With fewer than three vertices the polygon stays empty.
   */
  method Build(o: Oracle, vertexLst: seq<Point>, useScale: bool, scale: real) returns (p: Polygon)
    ensures |vertexLst| <= 2 ==> p == EmptyPolygon
    ensures |vertexLst| > 2 ==>
              p.vertices == (if useScale then ScaleVertices(vertexLst, scale) else vertexLst)
    ensures |vertexLst| > 2 ==>
              p.area == ShoelaceArea(p.vertices) && p.centroid == ShoelaceCentroid(p.vertices)
    ensures 2 < |vertexLst| <= 8 ==> p.edges == RingEdges(p.vertices) && p.radius == 0.0
    ensures |vertexLst| > 8 ==>
              p == BecomeCircular(o, Polygon(p.vertices, RingEdges(p.vertices), p.centroid, p.area, 0.0))
  {
    var vs := if useScale then ScaleVertices(vertexLst, scale) else vertexLst;
    if |vs| <= 2 {
      return EmptyPolygon;
    }
    var edges, area, partialX, partialY := Ring(vs);
    area := 0.5 * area;
    assert area == ShoelaceArea(vs);
    var centroid := CentroidFrom(area, partialX, partialY);
    p := Polygon(vs, edges, centroid, area, 0.0);
    if |edges| > 8 {
      p := BecomeCircular(o, p);
    }
  }

  /** The constructor's loop: one edge per vertex, from the vertex before it, with the
      shoelace sums of area and centroid accumulated along the way. */
  method Ring(vs: seq<Point>) returns (edges: seq<Edge>, area: real, partialX: real, partialY: real)
    requires |vs| > 0
    ensures edges == RingEdges(vs)
    ensures area == Sum(ShoelaceTerms(vs))
    ensures partialX == Sum(PartialXTerms(vs)) && partialY == Sum(PartialYTerms(vs))
  {
    var n := |vs|;
    edges := [];
    area, partialX, partialY := 0.0, 0.0, 0.0;
    var lastVrtx := vs[n - 1];
    var i := 0;
    while i < n
      invariant 0 <= i <= n
      invariant i < n ==> lastVrtx == Prev(vs, i)
      invariant edges == RingEdges(vs)[..i]
      invariant area == Sum(ShoelaceTerms(vs)[..i])
      invariant partialX == Sum(PartialXTerms(vs)[..i])
      invariant partialY == Sum(PartialYTerms(vs)[..i])
    {
      var vrtx := vs[i];
      RingStep(vs, i, lastVrtx, vrtx);
      area := area + EdgeCross(lastVrtx, vrtx);
      partialX := partialX + PartialX(lastVrtx, vrtx);
      partialY := partialY + PartialY(lastVrtx, vrtx);
      edges := edges + [Straight(lastVrtx, vrtx)];
      lastVrtx := vrtx;
      i := i + 1;
    }
    RingComplete(vs);
  }

  /** After the last turn every prefix is the whole list. */
  lemma RingComplete(vs: seq<Point>)
    ensures ShoelaceTerms(vs)[..|vs|] == ShoelaceTerms(vs)
    ensures PartialXTerms(vs)[..|vs|] == PartialXTerms(vs)
    ensures PartialYTerms(vs)[..|vs|] == PartialYTerms(vs)
    ensures RingEdges(vs)[..|vs|] == RingEdges(vs)
  {
  }

  /** One turn of the constructor's loop extends every prefix by the edge from the
      vertex before i to vertex i. */
  lemma RingStep(vs: seq<Point>, i: nat, last: Point, v: Point)
    requires i < |vs| && last == Prev(vs, i) && v == vs[i]
    ensures RingEdges(vs)[..i + 1] == RingEdges(vs)[..i] + [Straight(last, v)]
    ensures Sum(ShoelaceTerms(vs)[..i + 1]) == Sum(ShoelaceTerms(vs)[..i]) + EdgeCross(last, v)
    ensures Sum(PartialXTerms(vs)[..i + 1]) == Sum(PartialXTerms(vs)[..i]) + PartialX(last, v)
    ensures Sum(PartialYTerms(vs)[..i + 1]) == Sum(PartialYTerms(vs)[..i]) + PartialY(last, v)
  {
    RingEdgesSnoc(vs, i);
    PrefixSnoc(ShoelaceTerms(vs), i, EdgeCross(last, v));
    PrefixSnoc(PartialXTerms(vs), i, PartialX(last, v));
    PrefixSnoc(PartialYTerms(vs), i, PartialY(last, v));
  }

  lemma RingEdgesSnoc(vs: seq<Point>, i: nat)
    requires i < |vs|
    ensures RingEdges(vs)[..i + 1] == RingEdges(vs)[..i] + [Straight(Prev(vs, i), vs[i])]
  {
    TakeSnoc(RingEdges(vs), i);
  }

  /** The sum of a prefix one element longer is the shorter prefix's sum plus that element. */
  lemma PrefixSnoc(s: seq<real>, i: nat, x: real)
    requires i < |s| && s[i] == x
    ensures Sum(s[..i + 1]) == Sum(s[..i]) + x
  {
    TakeSnoc(s, i);
    SumSnoc(s[..i], x);
  }

  /** Polygon.GetCircumpoint and DistToCircumference: the point of the circle in the
      direction of leafCtr, and the distance from leafCtr to it. */
  function DistToCircumference(o: Oracle, ctr: Point, rad: real, leafCtr: Point): (r: Foot)
    ensures TrigSound(o) ==> SqDist(r.pt, ctr) == rad * rad
    ensures SqrtSound(o) ==> 0.0 <= r.dist && r.dist * r.dist == SqDist(leafCtr, r.pt)
  {
    var circumpoint := Polar(o, ctr, AngleToPoint(o, ctr, leafCtr), rad);
    Foot(PointDist(o, leafCtr, circumpoint), circumpoint)
  }

  /** FlEdge.DistanceToEdge and its CircularEdge override: a straight edge measures to
      its segment, a circular edge to its circumference. */
  function DistanceToEdge(o: Oracle, e: Edge, leafCtr: Point): (r: Foot)
    ensures e.Straight? && Dot(e.a, e.b, e.b, leafCtr) > 0.0 ==> r.pt == e.b
    ensures e.Straight? && Dot(e.a, e.b, e.b, leafCtr) <= 0.0 && Dot(e.a, e.b, e.a, leafCtr) < 0.0 ==> r.pt == e.a
    ensures e.Straight? ==> OrientationValue(e.a, e.b, r.pt) == 0.0 || r.pt == e.a || r.pt == e.b
    ensures e.Circular? && TrigSound(o) ==> SqDist(r.pt, e.ctr) == e.rad * e.rad
  {
    match e
    case Straight(a, b) => MinDistance(o, a, b, leafCtr)
    case Circular(ctr, rad) => DistToCircumference(o, ctr, rad, leafCtr)
  }

  /** FlEdge.CrossEdge and its CircularEdge override: whether the segment from the parent
      centre to the leaf centre leaves the boundary through this edge. */
  function CrossesEdge(o: Oracle, e: Edge, prntCtr: Point, leafCtr: Point): (b: bool)
    ensures e.Straight? ==> (b <==> CrossEdge(e.a, e.b, prntCtr, leafCtr))
    ensures e.Straight? && prntCtr == leafCtr ==> !b
    ensures e.Circular? ==> (b <==> CrossCircularEdge(o, e.ctr, e.rad, prntCtr, leafCtr))
  {
    match e
    case Straight(a, b) => CrossEdge(a, b, prntCtr, leafCtr)
    case Circular(ctr, rad) => CrossCircularEdge(o, ctr, rad, prntCtr, leafCtr)
  }

  /** A circular edge is crossed exactly when one of the two centres is at least a
      radius away from the circle's centre, compared on squares. */
  lemma CrossesCircle(o: Oracle, ctr: Point, rad: real, prntCtr: Point, leafCtr: Point)
    requires SqrtSound(o) && 0.0 <= rad
    ensures CrossesEdge(o, Circular(ctr, rad), prntCtr, leafCtr) <==>
              SqDist(ctr, prntCtr) >= rad * rad || SqDist(ctr, leafCtr) >= rad * rad
  {
    CrossCircularEdgeSquared(o, ctr, rad, prntCtr, leafCtr);
  }
}
