/**
 * Plane geometry of the generator: the point-distance, angle-to-point and arc-fitting
 * helpers of Trig, and the segment tests of Polygon (orientation, crossing, nearest
 * point). Square roots and trigonometric functions are not computable here; they are
 * the fields of an Oracle, and Sound(o) states the facts about them the proofs use.
 */
module Plane {
  import opened Angles

  datatype Point = Point(x: real, y: real)

  /** The numeric library the source calls (Math.Sqrt, Sin, Cos, Asin, Acos, Atan2). */
  datatype Oracle = Oracle(
    sqrt: real -> real,
    sin: real -> real,
    cos: real -> real,
    asin: real -> real,
    acos: real -> real,
    atan2: (real, real) -> real)

  /** The facts of real analysis the model relies on, one group per family of functions.
      The float Pi is slightly larger than the real one, so every range below is one the
      true functions meet. */
  ghost predicate Sound(o: Oracle)
  {
    SqrtSound(o) && TrigSound(o) && InverseSound(o)
  }

  ghost predicate SqrtSound(o: Oracle)
  {
    forall x :: 0.0 <= x ==> 0.0 <= o.sqrt(x) && o.sqrt(x) * o.sqrt(x) == x
  }

  ghost predicate TrigSound(o: Oracle)
  {
    (forall t :: -1.0 <= o.sin(t) <= 1.0 && -1.0 <= o.cos(t) <= 1.0) &&
    (forall t :: o.sin(t) * o.sin(t) + o.cos(t) * o.cos(t) == 1.0)
  }

  ghost predicate InverseSound(o: Oracle)
  {
    (forall x :: -1.0 <= x <= 1.0 ==> 0.0 <= o.acos(x) <= Pi && o.cos(o.acos(x)) == x) &&
    (forall x :: 0.0 <= x <= 1.0 ==> o.acos(x) <= Pi / 2.0) &&
    (forall x :: -1.0 <= x <= 1.0 ==> -Pi / 2.0 <= o.asin(x) <= Pi / 2.0 && o.sin(o.asin(x)) == x) &&
    (forall x :: 0.0 <= x <= 1.0 ==> 0.0 <= o.asin(x)) &&
    (forall y, x :: -Pi <= o.atan2(y, x) <= Pi)
  }

  /**
   * A float division whose divisor may be zero. The source then gets an infinity or
   * NaN; the model returns 0 instead (see README, Left out).
   */
  function Quot(a: real, b: real): (q: real)
    ensures b != 0.0 ==> q * b == a
  {
    if b == 0.0 then 0.0 else a / b
  }

  /** A ratio of a side to a longer positive side lies in [-1, 1], and is not negative
      when the side is not. */
  lemma QuotUnit(a: real, b: real)
    ensures 0.0 < b && -b <= a <= b ==> -1.0 <= Quot(a, b) <= 1.0 && (0.0 <= a ==> 0.0 <= Quot(a, b))
  {
    if 0.0 < b && -b <= a <= b {
      var q := Quot(a, b);
      assert q * b == a;
      if q > 1.0 {
        MulPos(q - 1.0, b);
      }
      if q < -1.0 {
        MulPos(-1.0 - q, b);
      }
      if 0.0 <= a && q < 0.0 {
        MulPos(-q, b);
      }
    }
  }

  function SqDist(a: Point, b: Point): real
  {
    (a.x - b.x) * (a.x - b.x) + (a.y - b.y) * (a.y - b.y)
  }

  lemma MulNonneg(a: real, b: real)
    requires 0.0 <= a && 0.0 <= b
    ensures 0.0 <= a * b
  {
  }

  lemma MulPos(a: real, b: real)
    requires 0.0 < a && 0.0 < b
    ensures 0.0 < a * b
  {
  }

  /**
   * Trig.PointDist: along an axis the distance is the one non-zero side, otherwise the
   * hypotenuse (Trig.Hypotenuse; the squared sides are the squared coordinate
   * differences, so its argument is SqDist). Either way it is the Euclidean distance.
   */
  function PointDist(o: Oracle, a: Point, b: Point): (r: real)
    ensures SqrtSound(o) ==> 0.0 <= r && r * r == SqDist(a, b)
    ensures a == b ==> r == 0.0
  {
    var sideA := AbsR(a.x - b.x);
    var sideB := AbsR(a.y - b.y);
    AxisDistance(a, b);
    if sideA == 0.0 || sideB == 0.0 then
      MaxR(sideA, sideB)
    else
      o.sqrt(SqDist(a, b))
  }

  lemma AxisDistance(a: Point, b: Point)
    ensures 0.0 <= SqDist(a, b)
    ensures AbsR(a.x - b.x) == 0.0 || AbsR(a.y - b.y) == 0.0 ==>
              MaxR(AbsR(a.x - b.x), AbsR(a.y - b.y)) * MaxR(AbsR(a.x - b.x), AbsR(a.y - b.y)) == SqDist(a, b)
  {
    var dx, dy := a.x - b.x, a.y - b.y;
    assert SqDist(a, b) == dx * dx + dy * dy;
    assert 0.0 <= dx * dx && 0.0 <= dy * dy;
    assert AbsR(dx) * AbsR(dx) == dx * dx;
    assert AbsR(dy) * AbsR(dy) == dy * dy;
  }

  /** The distance does not depend on the order of the points. */
  lemma PointDistSymmetric(o: Oracle, a: Point, b: Point)
    ensures PointDist(o, a, b) == PointDist(o, b, a)
  {
    assert AbsR(a.x - b.x) == AbsR(b.x - a.x) && AbsR(a.y - b.y) == AbsR(b.y - a.y);
    var dx, dy := a.x - b.x, a.y - b.y;
    assert SqDist(a, b) == dx * dx + dy * dy;
    assert SqDist(b, a) == (-dx) * (-dx) + (-dy) * (-dy);
    assert SqDist(a, b) == SqDist(b, a);
  }

  /** For non-negative values, comparing them is comparing their squares. */
  lemma SquareMonotone(r: real, s: real)
    requires 0.0 <= r && 0.0 <= s
    ensures r >= s <==> r * r >= s * s
  {
    assert r * r - s * s == (r - s) * (r + s);
    if r >= s {
      MulNonneg(r - s, r + s);
    } else {
      MulPos(s - r, s + r);
    }
  }

  /** Trig.AngleToPoint: the direction from start to end, folded into one turn. */
  function AngleToPoint(o: Oracle, start: Point, end: Point): (r: real)
    ensures 0.0 <= r <= Tau
    ensures Congruent(r, o.atan2(end.y - start.y, end.x - start.x))
  {
    Mod2Pi(o.atan2(end.y - start.y, end.x - start.x))
  }

  /** The point at distance dist from c in direction angle. */
  function Polar(o: Oracle, c: Point, angle: real, dist: real): (p: Point)
    ensures TrigSound(o) ==> SqDist(p, c) == dist * dist
  {
    var cs, sn := o.cos(angle), o.sin(angle);
    var p := Point(c.x + cs * dist, c.y + sn * dist);
    assert SqDist(p, c) == (cs * cs + sn * sn) * (dist * dist);
    p
  }

  /** The arc-cosine step shared by EdgeFitArc and ClosestFitAngle: the angle whose
      cosine is adj / hyp, or the sentinel when the adjacent side exceeds the hypotenuse. */
  function AcosFit(o: Oracle, adj: real, hyp: real): (r: real)
    ensures hyp < adj ==> r == NoAngle
    ensures InverseSound(o) && 0.0 < hyp && -hyp <= adj <= hyp ==>
              0.0 <= r <= Pi && o.cos(r) * hyp == adj
  {
    QuotUnit(adj, hyp);
    if hyp < adj then NoAngle else o.acos(Quot(adj, hyp))
  }

  /**
   * Trig.EdgeFitArc: the rotation about the parent that brings a leaf of leafRad to
   * within the node buffer of an edge point. No arc when the leaf cannot reach the
   * edge (adjacent side longer than the hypotenuse) or when the ratio is below 0.1,
   * which would mean turning by more than about 84 degrees.
   */
  function EdgeFitArc(o: Oracle, edgePt: Point, parentCtr: Point, parentRad: real,
                      leafRad: real, leafLift: real, nodeBuffer: real): (r: real)
    ensures var hyp := parentRad + leafRad + leafLift;
            var adj := PointDist(o, edgePt, parentCtr) - leafRad - nodeBuffer;
            (hyp < adj || Quot(adj, hyp) < 0.1) ==> r == NoAngle
    ensures var hyp := parentRad + leafRad + leafLift;
            var adj := PointDist(o, edgePt, parentCtr) - leafRad - nodeBuffer;
            InverseSound(o) && 0.0 < hyp && adj <= hyp && Quot(adj, hyp) >= 0.1 ==>
              0.0 <= r <= Pi / 2.0 && o.cos(r) * hyp == adj
  {
    var hyp := parentRad + leafRad + leafLift;
    var adj := PointDist(o, edgePt, parentCtr) - leafRad - nodeBuffer;
    QuotUnit(adj, hyp);
    if hyp < adj then NoAngle
    else if Quot(adj, hyp) < 0.1 then NoAngle
    else AcosFit(o, adj, hyp)
  }

  /**
   * The arithmetic of Trig.ClosestFitAngle once the node quantities are known: the
   * wanted distance from the neighbour is hyp; the adjacent side is the neighbour's
   * surface toward the parent plus half the parent gap when that gap exceeds the leaf
   * radius, and half the centre distance otherwise.
   */
  function ClosestFitArc(o: Oracle, prntNhbrDist: real, nhbrPrntSkinDist: real,
                         nhbrSurfTowardPrnt: real, nhbrRad: real, leafRad: real,
                         leafLift: real, nodeBuffer: real): (r: real)
    ensures var hyp := nhbrRad + leafRad + nodeBuffer;
            var adj := if nhbrPrntSkinDist > leafRad
                       then nhbrSurfTowardPrnt + (nhbrPrntSkinDist - leafLift) / 2.0
                       else prntNhbrDist / 2.0;
            (hyp < adj ==> r == NoAngle) &&
            (InverseSound(o) && 0.0 < hyp && -hyp <= adj <= hyp ==> 0.0 <= r <= Pi && o.cos(r) * hyp == adj)
  {
    var hyp := nhbrRad + leafRad + nodeBuffer;
    var adj := if nhbrPrntSkinDist > leafRad
               then nhbrSurfTowardPrnt + (nhbrPrntSkinDist - leafLift) / 2.0
               else prntNhbrDist / 2.0;
    AcosFit(o, adj, hyp)
  }

  /** Trig.CalcLeafArcSpan: half the arc a leaf subtends, seen from the centre of a
      parent it touches. */
  function CalcLeafArcSpan(o: Oracle, parentRad: real, leafRad: real): (r: real)
    ensures InverseSound(o) && 0.0 < parentRad && 0.0 <= leafRad ==>
              0.0 <= r <= Pi / 2.0 && o.sin(r) * (parentRad + leafRad) == leafRad
  {
    QuotUnit(leafRad, parentRad + leafRad);
    o.asin(Quot(leafRad, parentRad + leafRad))
  }

  /** Polygon.FPointVectr.VectrDotProduct of the vectors p1->p2 and q1->q2. */
  function Dot(p1: Point, p2: Point, q1: Point, q2: Point): real
  {
    (p2.x - p1.x) * (q2.x - q1.x) + (p2.y - p1.y) * (q2.y - q1.y)
  }

  /** Polygon.FPointVectr.VectrCrossProduct of the vectors p1->p2 and q1->q2. */
  function Cross(p1: Point, p2: Point, q1: Point, q2: Point): real
  {
    (p2.x - p1.x) * (q2.y - q1.y) - (q2.x - q1.x) * (p2.y - p1.y)
  }

  /** The orientation value of Polygon.CrossEdge.orientation. */
  function OrientationValue(p: Point, q: Point, r: Point): real
  {
    (q.y - p.y) * (r.x - q.x) - (q.x - p.x) * (r.y - q.y)
  }

  /** Polygon.CrossEdge.orientation: the turn p -> q -> r as 1, -1, or 0 when collinear. */
  function Orientation(p: Point, q: Point, r: Point): (s: int)
    ensures s in {-1, 0, 1}
    ensures s == 0 <==> Cross(p, q, p, r) == 0.0
    ensures s == 1 <==> Cross(p, q, p, r) < 0.0
  {
    var v := OrientationValue(p, q, r);
    assert v == -Cross(p, q, p, r);
    if v == 0.0 then 0 else if v > 0.0 then 1 else -1
  }

  /** Exchanging the first two points reverses the turn. */
  lemma OrientationSwap(p: Point, q: Point, r: Point)
    ensures Orientation(q, p, r) == -Orientation(p, q, r)
  {
    assert Cross(q, p, q, r) == -Cross(p, q, p, r);
  }

  /**
   * Polygon.CrossEdge: whether the segments e1-e2 and c1-c2 intersect in the general
   * (non-collinear) case: each segment's end points lie on different sides of the
   * other segment's line.
   */
  function CrossEdge(e1: Point, e2: Point, c1: Point, c2: Point): (b: bool)
    ensures b <==> Orientation(e1, e2, c1) != Orientation(e1, e2, c2) &&
                   Orientation(c1, c2, e1) != Orientation(c1, c2, e2)
    ensures c1 == c2 ==> !b
  {
    var o1 := Orientation(e1, e2, c1);
    var o2 := Orientation(e1, e2, c2);
    var o3 := Orientation(c1, c2, e1);
    var o4 := Orientation(c1, c2, e2);
    o1 != o2 && o3 != o4
  }

  /** Crossing is symmetric in the two segments and in the ends of either segment. */
  lemma CrossEdgeSymmetric(e1: Point, e2: Point, c1: Point, c2: Point)
    ensures CrossEdge(e1, e2, c1, c2) == CrossEdge(c1, c2, e1, e2)
    ensures CrossEdge(e1, e2, c1, c2) == CrossEdge(e2, e1, c1, c2)
    ensures CrossEdge(e1, e2, c1, c2) == CrossEdge(e1, e2, c2, c1)
  {
    OrientationSwap(e1, e2, c1);
    OrientationSwap(e1, e2, c2);
    OrientationSwap(c1, c2, e1);
    OrientationSwap(c1, c2, e2);
  }

  /**
   * Polygon.CrossCircularEdge: the segment between two centres leaves a circular
   * boundary when either centre is at or beyond its radius.
   */
  function CrossCircularEdge(o: Oracle, polyCtr: Point, rad: real, ctr1: Point, ctr2: Point): bool
  {
    PointDist(o, polyCtr, ctr1) >= rad || PointDist(o, polyCtr, ctr2) >= rad
  }

  /** The circular test is a comparison of squared distances with the squared radius. */
  lemma CrossCircularEdgeSquared(o: Oracle, polyCtr: Point, rad: real, ctr1: Point, ctr2: Point)
    requires SqrtSound(o) && 0.0 <= rad
    ensures CrossCircularEdge(o, polyCtr, rad, ctr1, ctr2) <==>
              SqDist(polyCtr, ctr1) >= rad * rad || SqDist(polyCtr, ctr2) >= rad * rad
  {
    var d1, d2 := PointDist(o, polyCtr, ctr1), PointDist(o, polyCtr, ctr2);
    CompareSquared(d1, rad, SqDist(polyCtr, ctr1));
    CompareSquared(d2, rad, SqDist(polyCtr, ctr2));
  }

  /** A non-negative value whose square is sq reaches rad exactly when sq reaches rad * rad. */
  lemma CompareSquared(d: real, rad: real, sq: real)
    requires 0.0 <= d && 0.0 <= rad && d * d == sq
    ensures d >= rad <==> sq >= rad * rad
  {
    SquareMonotone(d, rad);
  }

  /** A distance together with the point it was measured to. */
  datatype Foot = Foot(dist: real, pt: Point)

  /**
   * Polygon.FindPoint: the foot F of the perpendicular from e on the line a-b, placed
   * at the distance from a that a right triangle with hypotenuse |ae| and leg dist gives.
   */
  function FindPoint(o: Oracle, a: Point, b: Point, e: Point, dist: real): (f: Point)
    ensures OrientationValue(a, b, f) == 0.0
  {
    var distAB := PointDist(o, a, b);
    var distEA := PointDist(o, a, e);
    var angle := o.acos(Quot(dist, distEA));
    var distAF := distEA * o.sin(angle);
    var t := Quot(distAF, distAB);
    var f := Point((1.0 - t) * a.x + t * b.x, (1.0 - t) * a.y + t * b.y);
    assert f.x - b.x == (t - 1.0) * (b.x - a.x) && f.y - b.y == (t - 1.0) * (b.y - a.y);
    f
  }

  /**
   * Polygon.MinDistance: the distance from e to the segment a-b and the point it is
   * measured to. Beyond b (the vector a->b points the same way as b->e) it is b; before
   * a it is a; otherwise the signed perpendicular distance |ab x ae| / |ab| and its foot.
   */
  function MinDistance(o: Oracle, a: Point, b: Point, e: Point): (r: Foot)
    ensures Dot(a, b, b, e) > 0.0 ==> r == Foot(PointDist(o, e, b), b)
    ensures Dot(a, b, b, e) <= 0.0 && Dot(a, b, a, e) < 0.0 ==> r == Foot(PointDist(o, e, a), a)
    ensures Dot(a, b, b, e) <= 0.0 && Dot(a, b, a, e) >= 0.0 ==>
              OrientationValue(a, b, r.pt) == 0.0 &&
              r.dist == Quot(Cross(a, b, a, e), PointDist(o, a, b))
  {
    if Dot(a, b, b, e) > 0.0 then
      Foot(PointDist(o, e, b), b)
    else if Dot(a, b, a, e) < 0.0 then
      Foot(PointDist(o, e, a), a)
    else
      var d := Quot(Cross(a, b, a, e), PointDist(o, a, b));
      Foot(d, FindPoint(o, a, b, e, d))
  }

  /** In the perpendicular case of MinDistance (a segment of non-zero length), the
      distance found is at most the distance from e to a. */
  lemma MinDistancePerpendicular(o: Oracle, a: Point, b: Point, e: Point)
    requires SqrtSound(o) && PointDist(o, a, b) != 0.0
    requires Dot(a, b, b, e) <= 0.0 && Dot(a, b, a, e) >= 0.0
    ensures MinDistance(o, a, b, e).dist * MinDistance(o, a, b, e).dist <= SqDist(e, a)
  {
    var m := MinDistance(o, a, b, e).dist;
    assert m == Quot(Cross(a, b, a, e), PointDist(o, a, b));
    PerpendicularShorter(o, a, b, e);
  }

  /** Lagrange's identity for two plane vectors. */
  lemma Lagrange(a: Point, b: Point, e: Point)
    ensures Cross(a, b, a, e) * Cross(a, b, a, e) + Dot(a, b, a, e) * Dot(a, b, a, e) ==
              SqDist(a, b) * SqDist(e, a)
  {
    LagrangeCoords(a.x, a.y, b.x, b.y, e.x, e.y);
  }

  lemma LagrangeCoords(x1: real, y1: real, x2: real, y2: real, x3: real, y3: real)
    ensures ((x2 - x1) * (y3 - y1) - (x3 - x1) * (y2 - y1)) * ((x2 - x1) * (y3 - y1) - (x3 - x1) * (y2 - y1)) +
            ((x2 - x1) * (x3 - x1) + (y2 - y1) * (y3 - y1)) * ((x2 - x1) * (x3 - x1) + (y2 - y1) * (y3 - y1)) ==
            ((x1 - x2) * (x1 - x2) + (y1 - y2) * (y1 - y2)) * ((x3 - x1) * (x3 - x1) + (y3 - y1) * (y3 - y1))
  {
  }

  /** The perpendicular distance from e to the line a-b is at most the distance from e to a. */
  lemma PerpendicularShorter(o: Oracle, a: Point, b: Point, e: Point)
    requires SqrtSound(o) && PointDist(o, a, b) != 0.0
    ensures Quot(Cross(a, b, a, e), PointDist(o, a, b)) * Quot(Cross(a, b, a, e), PointDist(o, a, b)) <= SqDist(e, a)
  {
    Lagrange(a, b, e);
    PerpendicularArith(Quot(Cross(a, b, a, e), PointDist(o, a, b)), Cross(a, b, a, e), Dot(a, b, a, e),
                       PointDist(o, a, b), SqDist(a, b), SqDist(e, a));
  }

  /** PerpendicularShorter on plain values: d is the perpendicular distance, c and dt the
      cross and dot products, ab the length of a-b and sqab, sqae the squared lengths of
      a-b and a-e. */
  lemma PerpendicularArith(d: real, c: real, dt: real, ab: real, sqab: real, sqae: real)
    requires d == Quot(c, ab)
    requires 0.0 < ab && ab * ab == sqab && c * c + dt * dt == sqab * sqae
    ensures d * d <= sqae
  {
    assert d * ab == c;
    SquareOfProduct(d, ab, c);
    ShorterArith(d * d, ab, c * c, dt * dt, sqae);
  }

  lemma SquareOfProduct(d: real, ab: real, c: real)
    requires c == d * ab
    ensures c * c == (d * d) * (ab * ab)
  {
  }

  /** The cancellation step of PerpendicularShorter, on plain values. */
  lemma ShorterArith(dd: real, ab: real, c2: real, dt2: real, sqae: real)
    requires 0.0 < ab
    requires c2 == dd * (ab * ab)
    requires 0.0 <= dt2
    requires c2 + dt2 == (ab * ab) * sqae
    ensures dd <= sqae
  {
    if dd > sqae {
      MulPos(dd - sqae, ab);
      MulPos((dd - sqae) * ab, ab);
    }
  }
}
