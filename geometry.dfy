/**
 * Points, triangles and the two signed-area primitives of the
 * triangle-intersection library.
 *
 * The source stores coordinates as `float` and evaluates both primitives
 * in `float` (`Det2D` widens its result to `double` only when it returns);
 * the two differ in the order of their operations, so their rounding
 * differs. This model uses exact `real` arithmetic, so the algebraic
 * identities between the primitives hold exactly.
 */
module Geometry {

  /** A point of the plane. */
  datatype Point = Point(x: real, y: real)

  /**
   * An ordered triple of vertices. The source overlays the named vertices
   * with a three-element array; `At` is that indexed view.
   */
  datatype Triangle = Triangle(p1: Point, p2: Point, p3: Point) {

    /** Vertex `i` in declaration order (`pointList[i]` in the source). */
    function At(i: nat): Point
      requires i < 3
    {
      if i == 0 then p1 else if i == 1 then p2 else p3
    }
  }

  /**
   * Twice the signed area of the ordered triple (p1, p2, p3), written as the
   * source's `sign` writes it (relative to p3). It agrees with `Det2D`, the
   * other formula the source uses for the same quantity.
   */
  function Sign(p1: Point, p2: Point, p3: Point): (r: real)
    ensures r == Det2D(Triangle(p1, p2, p3))
  {
    (p1.x - p3.x) * (p2.y - p3.y) - (p2.x - p3.x) * (p1.y - p3.y)
  }

  /**
   * Twice the signed area of a triangle, in the vertex order p1, p2, p3:
   * positive when the vertices turn counter-clockwise, negative when they
   * turn clockwise, zero when they are collinear. It is the cross product
   * of the edge vectors p1->p2 and p1->p3.
   */
  function Det2D(t: Triangle): (r: real)
    ensures r == (t.p2.x - t.p1.x) * (t.p3.y - t.p1.y) - (t.p3.x - t.p1.x) * (t.p2.y - t.p1.y)
  {
    t.p1.x * (t.p2.y - t.p3.y)
    + t.p2.x * (t.p3.y - t.p1.y)
    + t.p3.x * (t.p1.y - t.p2.y)
  }

  /**
   * The triangle with its first and third vertices swapped, which reverses
   * its winding: the signed area changes sign.
   */
  function Reversed(t: Triangle): (r: Triangle)
    ensures Det2D(r) == -Det2D(t)
  {
    t.(p1 := t.p3, p3 := t.p1)
  }

  /** The triangle with its vertices rotated one place: vertex i + 1 becomes vertex i. */
  function Rotated(t: Triangle): Triangle
  {
    Triangle(t.p2, t.p3, t.p1)
  }

  /** The point moved by the vector (dx, dy). */
  function Moved(p: Point, dx: real, dy: real): Point
  {
    Point(p.x + dx, p.y + dy)
  }

  /** The triangle moved by the vector (dx, dy). */
  function Translated(t: Triangle, dx: real, dy: real): Triangle
  {
    Triangle(Moved(t.p1, dx, dy), Moved(t.p2, dx, dy), Moved(t.p3, dx, dy))
  }

  /** Reversing twice gives back the triangle. */
  lemma ReversedTwice(t: Triangle)
    ensures Reversed(Reversed(t)) == t
  {
  }

  /** Rotating the vertices keeps the signed area. */
  lemma RotatedKeepsDet2D(t: Triangle)
    ensures Det2D(Rotated(t)) == Det2D(t)
  {
  }

  /** Swapping the first and last points of `Sign` negates it. */
  lemma SignAntisymmetric(a: Point, b: Point, c: Point)
    ensures Sign(c, b, a) == -Sign(a, b, c)
    ensures Sign(a, c, b) == -Sign(a, b, c)
    ensures Sign(b, a, c) == -Sign(a, b, c)
  {
  }

  /** A triple whose third point repeats one end of the edge has zero area. */
  lemma RepeatedVertexDet2DZero(a: Point, b: Point)
    ensures Det2D(Triangle(a, b, a)) == 0.0
    ensures Det2D(Triangle(a, b, b)) == 0.0
  {
  }

  /** Moving all three points by the same vector keeps the signed area. */
  lemma TranslatedKeepsDet2D(t: Triangle, dx: real, dy: real)
    ensures Det2D(Translated(t, dx, dy)) == Det2D(t)
  {
  }

  /**
   * For a fixed edge (a, b), `Det2D(a, b, p)` is an affine function of p:
   * at a convex combination of three points it is the same combination of
   * the three values.
   */
  lemma Det2DAffine(a: Point, b: Point, u: Point, v: Point, w: Point,
                    l1: real, l2: real, l3: real, q: Point)
    requires l1 + l2 + l3 == 1.0
    requires q.x == l1 * u.x + l2 * v.x + l3 * w.x
    requires q.y == l1 * u.y + l2 * v.y + l3 * w.y
    ensures Det2D(Triangle(a, b, q)) ==
              l1 * Det2D(Triangle(a, b, u)) + l2 * Det2D(Triangle(a, b, v)) + l3 * Det2D(Triangle(a, b, w))
  {
    var c0 := a.x * b.y - b.x * a.y;
    var cx := a.y - b.y;
    var cy := b.x - a.x;
    assert forall p: Point {:trigger Det2D(Triangle(a, b, p))} ::
      Det2D(Triangle(a, b, p)) == c0 + cx * p.x + cy * p.y;
    calc {
      l1 * (c0 + cx * u.x + cy * u.y) + l2 * (c0 + cx * v.x + cy * v.y) + l3 * (c0 + cx * w.x + cy * w.y);
      (l1 + l2 + l3) * c0 + cx * (l1 * u.x + l2 * v.x + l3 * w.x) + cy * (l1 * u.y + l2 * v.y + l3 * w.y);
      c0 + cx * q.x + cy * q.y;
    }
  }

  /**
   * The three signed areas of a point p against the edges of (a, b, c) add
   * up to the triangle's own signed area, and weighting each vertex by the
   * area against the opposite edge gives p scaled by that area.
   */
  lemma SignsBarycentric(a: Point, b: Point, c: Point, p: Point)
    ensures Sign(p, a, b) + Sign(p, b, c) + Sign(p, c, a) == Det2D(Triangle(a, b, c))
    ensures Sign(p, b, c) * a.x + Sign(p, c, a) * b.x + Sign(p, a, b) * c.x == Det2D(Triangle(a, b, c)) * p.x
    ensures Sign(p, b, c) * a.y + Sign(p, c, a) * b.y + Sign(p, a, b) * c.y == Det2D(Triangle(a, b, c)) * p.y
  {
  }

  /** `q` is the convex combination of `t`'s vertices with weights l1, l2, l3. */
  ghost predicate Combination(t: Triangle, l1: real, l2: real, l3: real, q: Point)
  {
    l1 >= 0.0 && l2 >= 0.0 && l3 >= 0.0 && l1 + l2 + l3 == 1.0
    && q.x == l1 * t.p1.x + l2 * t.p2.x + l3 * t.p3.x
    && q.y == l1 * t.p1.y + l2 * t.p2.y + l3 * t.p3.y
  }

  /** The same point, with the weights listed for the reversed vertex order. */
  lemma CombinationReversed(t: Triangle, l1: real, l2: real, l3: real, q: Point)
    requires Combination(t, l1, l2, l3, q)
    ensures Combination(Reversed(t), l3, l2, l1, q)
  {
  }

  /**
   * Against its own edge i, a point of `t` has the signed area of `t`
   * scaled by the weight of the vertex opposite that edge; so when `t` is
   * counter-clockwise or degenerate, the point is on the inner side or the
   * line of every edge.
   */
  lemma CombinationInsideEdges(t: Triangle, i: nat, l1: real, l2: real, l3: real, q: Point)
    requires i < 3 && Combination(t, l1, l2, l3, q)
    ensures Det2D(Triangle(t.At(i), t.At((i + 1) % 3), q)) == (if i == 0 then l3 else if i == 1 then l1 else l2) * Det2D(t)
    ensures Det2D(t) >= 0.0 ==> Det2D(Triangle(t.At(i), t.At((i + 1) % 3), q)) >= 0.0
  {
    var a, b := t.At(i), t.At((i + 1) % 3);
    Det2DAffine(a, b, t.p1, t.p2, t.p3, l1, l2, l3, q);
    var w := if i == 0 then l3 else if i == 1 then l1 else l2;
    if i == 0 {
      RepeatedVertexDet2DZero(t.p1, t.p2);
    } else if i == 1 {
      RepeatedVertexDet2DZero(t.p2, t.p3);
      RotatedKeepsDet2D(t);
    } else {
      RepeatedVertexDet2DZero(t.p3, t.p1);
      RotatedKeepsDet2D(t);
      RotatedKeepsDet2D(Rotated(t));
    }
    assert Det2D(Triangle(a, b, q)) == w * Det2D(t);
    if Det2D(t) >= 0.0 {
      NonNegativeProduct(w, Det2D(t));
    }
  }

  /**
   * If all three vertices of `t` are strictly on the negative side of edge
   * (a, b), so is every point of `t`.
   */
  lemma CombinationOutsideEdge(a: Point, b: Point, t: Triangle, l1: real, l2: real, l3: real, q: Point)
    requires Combination(t, l1, l2, l3, q)
    requires Det2D(Triangle(a, b, t.p1)) < 0.0 && Det2D(Triangle(a, b, t.p2)) < 0.0 && Det2D(Triangle(a, b, t.p3)) < 0.0
    ensures Det2D(Triangle(a, b, q)) < 0.0
  {
    Det2DAffine(a, b, t.p1, t.p2, t.p3, l1, l2, l3, q);
    ConvexOfNegatives(l1, l2, l3, Det2D(Triangle(a, b, t.p1)), Det2D(Triangle(a, b, t.p2)), Det2D(Triangle(a, b, t.p3)));
  }

  /** The product of two non-negative reals is non-negative. */
  lemma NonNegativeProduct(u: real, v: real)
    requires u >= 0.0 && v >= 0.0
    ensures u * v >= 0.0
  {
  }

  /** A weighted average of three negative numbers is negative. */
  lemma ConvexOfNegatives(m1: real, m2: real, m3: real, x1: real, x2: real, x3: real)
    requires m1 >= 0.0 && m2 >= 0.0 && m3 >= 0.0 && m1 + m2 + m3 == 1.0
    requires x1 < 0.0 && x2 < 0.0 && x3 < 0.0
    ensures m1 * x1 + m2 * x2 + m3 * x3 < 0.0
  {
    NonPositiveProduct(m1, x1);
    NonPositiveProduct(m2, x2);
    NonPositiveProduct(m3, x3);
    if m1 > 0.0 {
      NegativeProduct(m1, x1);
    } else if m2 > 0.0 {
      NegativeProduct(m2, x2);
    } else {
      NegativeProduct(m3, x3);
    }
  }

  /** A non-negative times a negative real is at most zero. */
  lemma NonPositiveProduct(m: real, x: real)
    requires m >= 0.0 && x < 0.0
    ensures m * x <= 0.0
  {
  }

  /** A positive times a negative real is negative. */
  lemma NegativeProduct(m: real, x: real)
    requires m > 0.0 && x < 0.0
    ensures m * x < 0.0
  {
  }
}
