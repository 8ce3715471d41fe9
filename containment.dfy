/**
 * Point containment in a triangle, whatever the triangle's winding.
 */
module Containment {
  import opened Geometry

  /**
   * True unless one of the three signed areas of `pt` against the edges
   * (tri[0], tri[1]), (tri[1], tri[2]), (tri[2], tri[0]) is strictly
   * negative while another is strictly positive. No tolerance is applied.
   */
  function PointInTriangle(pt: Point, tri: Triangle): (inside: bool)
    ensures inside <==>
      var d1, d2, d3 := Sign(pt, tri.p1, tri.p2), Sign(pt, tri.p2, tri.p3), Sign(pt, tri.p3, tri.p1);
      (d1 >= 0.0 && d2 >= 0.0 && d3 >= 0.0) || (d1 <= 0.0 && d2 <= 0.0 && d3 <= 0.0)
  {
    var d1 := Sign(pt, tri.At(0), tri.At(1));
    var d2 := Sign(pt, tri.At(1), tri.At(2));
    var d3 := Sign(pt, tri.At(2), tri.At(0));
    var hasNeg := d1 < 0.0 || d2 < 0.0 || d3 < 0.0;
    var hasPos := d1 > 0.0 || d2 > 0.0 || d3 > 0.0;
    !(hasNeg && hasPos)
  }

  /** Containment does not depend on which vertex is listed first. */
  lemma PointInTriangleRotated(pt: Point, tri: Triangle)
    ensures PointInTriangle(pt, Rotated(tri)) == PointInTriangle(pt, tri)
  {
  }

  /**
   * Containment does not depend on the winding: listing the vertices in the
   * opposite order negates every signed area.
   */
  lemma PointInTriangleReversed(pt: Point, tri: Triangle)
    ensures PointInTriangle(pt, Reversed(tri)) == PointInTriangle(pt, tri)
  {
    SignAntisymmetric(pt, tri.p2, tri.p3);
    SignAntisymmetric(pt, tri.p1, tri.p2);
    SignAntisymmetric(pt, tri.p3, tri.p1);
  }

  /** Every vertex of a triangle lies in it (two of its signed areas are zero). */
  lemma VerticesInTriangle(tri: Triangle)
    ensures PointInTriangle(tri.p1, tri)
    ensures PointInTriangle(tri.p2, tri)
    ensures PointInTriangle(tri.p3, tri)
  {
  }

  /** Moving the point and the triangle by the same vector keeps containment. */
  lemma PointInTriangleTranslated(pt: Point, tri: Triangle, dx: real, dy: real)
    ensures PointInTriangle(Moved(pt, dx, dy), Translated(tri, dx, dy)) == PointInTriangle(pt, tri)
  {
    TranslatedKeepsDet2D(Triangle(pt, tri.p1, tri.p2), dx, dy);
    TranslatedKeepsDet2D(Triangle(pt, tri.p2, tri.p3), dx, dy);
    TranslatedKeepsDet2D(Triangle(pt, tri.p3, tri.p1), dx, dy);
  }

  /**
   * A convex combination of the vertices of a counter-clockwise or
   * degenerate triangle has no negative signed area against its edges.
   */
  lemma CombinationSignsNonNegative(tri: Triangle, l1: real, l2: real, l3: real, q: Point)
    requires Det2D(tri) >= 0.0 && Combination(tri, l1, l2, l3, q)
    ensures Sign(q, tri.p1, tri.p2) >= 0.0 && Sign(q, tri.p2, tri.p3) >= 0.0 && Sign(q, tri.p3, tri.p1) >= 0.0
  {
    CombinationInsideEdges(tri, 0, l1, l2, l3, q);
    CombinationInsideEdges(tri, 1, l1, l2, l3, q);
    CombinationInsideEdges(tri, 2, l1, l2, l3, q);
    RotatedKeepsDet2D(Triangle(q, tri.p1, tri.p2));
    RotatedKeepsDet2D(Triangle(q, tri.p2, tri.p3));
    RotatedKeepsDet2D(Triangle(q, tri.p3, tri.p1));
  }

  /** Every convex combination of a triangle's vertices lies in it, whatever its winding. */
  lemma CombinationInTriangle(tri: Triangle, l1: real, l2: real, l3: real, q: Point)
    requires Combination(tri, l1, l2, l3, q)
    ensures PointInTriangle(q, tri)
  {
    if Det2D(tri) >= 0.0 {
      CombinationSignsNonNegative(tri, l1, l2, l3, q);
    } else {
      CombinationReversed(tri, l1, l2, l3, q);
      CombinationSignsNonNegative(Reversed(tri), l3, l2, l1, q);
      PointInTriangleReversed(q, tri);
    }
  }

  /**
   * For a non-degenerate triangle the test is exact: `pt` is reported
   * inside if and only if it is the convex combination of the vertices
   * whose weights are its signed areas against the opposite edges,
   * divided by the triangle's signed area.
   */
  lemma PointInTriangleIffCombination(pt: Point, tri: Triangle)
    requires Det2D(tri) != 0.0
    ensures var d, d1, d2, d3 := Det2D(tri), Sign(pt, tri.p1, tri.p2), Sign(pt, tri.p2, tri.p3), Sign(pt, tri.p3, tri.p1);
            PointInTriangle(pt, tri) <==> Combination(tri, d2 / d, d3 / d, d1 / d, pt)
  {
    var d, d1, d2, d3 := Det2D(tri), Sign(pt, tri.p1, tri.p2), Sign(pt, tri.p2, tri.p3), Sign(pt, tri.p3, tri.p1);
    var w1, w2, w3 := d2 / d, d3 / d, d1 / d;
    SignsBarycentric(tri.p1, tri.p2, tri.p3, pt);
    ScaledWeights(d, d2, d3, d1, tri.p1.x, tri.p2.x, tri.p3.x, pt.x);
    ScaledWeights(d, d2, d3, d1, tri.p1.y, tri.p2.y, tri.p3.y, pt.y);
    if PointInTriangle(pt, tri) {
      if d > 0.0 {
        assert d1 >= 0.0 && d2 >= 0.0 && d3 >= 0.0;
        QuotientNonNegative(d2, d);
        QuotientNonNegative(d3, d);
        QuotientNonNegative(d1, d);
      } else {
        assert d1 <= 0.0 && d2 <= 0.0 && d3 <= 0.0;
        QuotientNonNegative(-d2, -d);
        QuotientNonNegative(-d3, -d);
        QuotientNonNegative(-d1, -d);
      }
      assert Combination(tri, w1, w2, w3, pt);
    }
    if Combination(tri, w1, w2, w3, pt) {
      CombinationInTriangle(tri, w1, w2, w3, pt);
    }
  }

  /**
   * Dividing weights that sum to `d` and combine to `d * p` by `d` gives
   * weights that sum to one and combine to `p`.
   */
  lemma ScaledWeights(d: real, s1: real, s2: real, s3: real, u1: real, u2: real, u3: real, p: real)
    requires d != 0.0 && s1 + s2 + s3 == d && s1 * u1 + s2 * u2 + s3 * u3 == d * p
    ensures s1 / d + s2 / d + s3 / d == 1.0
    ensures (s1 / d) * u1 + (s2 / d) * u2 + (s3 / d) * u3 == p
  {
  }

  /** A quotient of a non-negative by a positive real is non-negative. */
  lemma QuotientNonNegative(s: real, d: real)
    requires s >= 0.0 && d > 0.0
    ensures s / d >= 0.0 && (-s) / (-d) == s / d
  {
  }

  /**
   * A degenerate triangle reports every point of its line, even one beyond
   * its vertices that is no convex combination of them: (5,0) against
   * ((0,0),(1,0),(2,0)).
   */
  lemma DegenerateReportsWholeLine()
    ensures PointInTriangle(Point(5.0, 0.0), Triangle(Point(0.0, 0.0), Point(1.0, 0.0), Point(2.0, 0.0)))
    ensures forall l1, l2, l3 :: !Combination(Triangle(Point(0.0, 0.0), Point(1.0, 0.0), Point(2.0, 0.0)), l1, l2, l3, Point(5.0, 0.0))
  {
  }

  /** The demonstration triangle ((2,2),(5,6),(10,0)). */
  function DemoTriangle(): Triangle { Triangle(Point(2.0, 2.0), Point(5.0, 6.0), Point(10.0, 0.0)) }

  /** A point with a strictly positive and a strictly negative signed area is outside. */
  lemma MixedSignsOutside(pt: Point, tri: Triangle, d1: real, d2: real, d3: real)
    requires d1 == Sign(pt, tri.p1, tri.p2) && d2 == Sign(pt, tri.p2, tri.p3) && d3 == Sign(pt, tri.p3, tri.p1)
    requires (d1 > 0.0 || d2 > 0.0 || d3 > 0.0) && (d1 < 0.0 || d2 < 0.0 || d3 < 0.0)
    ensures !PointInTriangle(pt, tri)
  {
  }

  /** A point whose three signed areas are all at most zero is inside. */
  lemma NonPositiveSignsInside(pt: Point, tri: Triangle, d1: real, d2: real, d3: real)
    requires d1 == Sign(pt, tri.p1, tri.p2) && d2 == Sign(pt, tri.p2, tri.p3) && d3 == Sign(pt, tri.p3, tri.p1)
    requires d1 <= 0.0 && d2 <= 0.0 && d3 <= 0.0
    ensures PointInTriangle(pt, tri)
  {
  }

  /**
   * (3,3) lies in the demonstration triangle: its three signed areas are
   * -1, -27 and -10 (the triangle is clockwise).
   */
  lemma DemoPointInside()
    ensures PointInTriangle(Point(3.0, 3.0), DemoTriangle())
  {
    var t, p := DemoTriangle(), Point(3.0, 3.0);
    var d1, d2, d3 := Sign(p, t.p1, t.p2), Sign(p, t.p2, t.p3), Sign(p, t.p3, t.p1);
    assert d1 == -1.0;
    assert d2 == -27.0;
    assert d3 == -10.0;
    NonPositiveSignsInside(p, t, d1, d2, d3);
  }

  /** (5,7) does not lie in the demonstration triangle: its first signed area is 3, its third -46. */
  lemma DemoPointAbove()
    ensures !PointInTriangle(Point(5.0, 7.0), DemoTriangle())
  {
    var t, p := DemoTriangle(), Point(5.0, 7.0);
    var d1, d2, d3 := Sign(p, t.p1, t.p2), Sign(p, t.p2, t.p3), Sign(p, t.p3, t.p1);
    assert d1 == 3.0;
    assert d3 == -46.0;
    MixedSignsOutside(p, t, d1, d2, d3);
  }

  /** (3,4) does not lie in the demonstration triangle: its first two signed areas are 2 and -22. */
  lemma DemoPointLeft()
    ensures !PointInTriangle(Point(3.0, 4.0), DemoTriangle())
  {
    var t, p := DemoTriangle(), Point(3.0, 4.0);
    var d1, d2, d3 := Sign(p, t.p1, t.p2), Sign(p, t.p2, t.p3), Sign(p, t.p3, t.p1);
    assert d1 == 2.0;
    assert d2 == -22.0;
    MixedSignsOutside(p, t, d1, d2, d3);
  }
}
