/**
 * The triangle-triangle separating-edge collision test, its winding guard
 * and the per-vertex half-plane checks it is built from.
 */
module Collision {
  import opened Geometry

  /** The one error the library raises: a clockwise triangle where reversal is not allowed. */
  datatype WindingError = WrongWindingDirection

  /** What the winding guard does: return normally, or throw. */
  datatype Outcome = Pass | Fail(error: WindingError)

  /** What the collision test does: return a verdict, or propagate the guard's error. */
  datatype CollisionResult = Ok(collide: bool) | Err(error: WindingError)

  // ---------------------------------------------------------------------
  // Half-plane checks
  // ---------------------------------------------------------------------

  /**
   * Inclusive-mode check: the signed area of `t` is strictly below `eps`.
   * It implies the exclusive check, and it is the complement of the
   * exclusive check against the same edge walked the other way with the
   * tolerance negated.
   */
  function BoundaryCollideChk(t: Triangle, eps: real): (outside: bool)
    ensures outside ==> BoundaryDoesntCollideChk(t, eps)
    ensures outside <==> !BoundaryDoesntCollideChk(Triangle(t.p2, t.p1, t.p3), -eps)
  {
    Det2D(t) < eps
  }

  /** The three-point form of `BoundaryCollideChk`: point `p3` against edge (p1, p2). */
  function BoundaryCollideChkPoints(p1: Point, p2: Point, p3: Point, eps: real): (outside: bool)
    ensures outside ==> BoundaryDoesntCollideChkPoints(p1, p2, p3, eps)
  {
    BoundaryCollideChk(Triangle(p1, p2, p3), eps)
  }

  /**
   * Exclusive-mode check: the signed area of `t` is at most `eps`. At a
   * tolerance of zero or more, an end of the edge itself counts as outside.
   */
  function BoundaryDoesntCollideChk(t: Triangle, eps: real): (outside: bool)
    ensures eps >= 0.0 && (t.p3 == t.p1 || t.p3 == t.p2) ==> outside
  {
    RepeatedVertexDet2DZero(t.p1, t.p2);
    Det2D(t) <= eps
  }

  /** The three-point form of `BoundaryDoesntCollideChk`. */
  function BoundaryDoesntCollideChkPoints(p1: Point, p2: Point, p3: Point, eps: real): (outside: bool)
    ensures eps >= 0.0 && (p3 == p1 || p3 == p2) ==> outside
  {
    BoundaryDoesntCollideChk(Triangle(p1, p2, p3), eps)
  }

  /**
   * The check the collision loop selects: `p` counts as outside edge (a, b)
   * under the inclusive check when `onBoundary` holds, the exclusive one otherwise.
   */
  function Outside(a: Point, b: Point, p: Point, eps: real, onBoundary: bool): bool
  {
    if onBoundary then BoundaryCollideChkPoints(a, b, p, eps)
    else BoundaryDoesntCollideChkPoints(a, b, p, eps)
  }

  /**
   * The half-plane checks order the two modes and both tolerances: the
   * strict check implies the non-strict one, and raising `eps` only makes
   * more points count as outside.
   */
  lemma BoundaryChecksMonotone(t: Triangle, eps: real, eps': real)
    requires eps <= eps'
    ensures BoundaryCollideChk(t, eps) ==> BoundaryDoesntCollideChk(t, eps)
    ensures BoundaryCollideChk(t, eps) ==> BoundaryCollideChk(t, eps')
    ensures BoundaryDoesntCollideChk(t, eps) ==> BoundaryDoesntCollideChk(t, eps')
    ensures eps < eps' ==> (BoundaryDoesntCollideChk(t, eps) ==> BoundaryCollideChk(t, eps'))
  {
  }

  /** The three-point forms agree with `Sign` applied to the same points. */
  lemma BoundaryChecksBySign(p1: Point, p2: Point, p3: Point, eps: real)
    ensures BoundaryCollideChkPoints(p1, p2, p3, eps) <==> Sign(p1, p2, p3) < eps
    ensures BoundaryDoesntCollideChkPoints(p1, p2, p3, eps) <==> Sign(p1, p2, p3) <= eps
  {
  }

  // ---------------------------------------------------------------------
  // Specification of the collision verdict
  // ---------------------------------------------------------------------

  /**
   * Edge i of `e`, from vertex i to vertex (i + 1) % 3, separates `other`:
   * all three vertices of `other` pass the selected check against it.
   */
  predicate EdgeSeparates(e: Triangle, i: nat, other: Triangle, eps: real, onBoundary: bool)
    requires i < 3
  {
    var a, b := e.At(i), e.At((i + 1) % 3);
    Outside(a, b, other.p1, eps, onBoundary)
    && Outside(a, b, other.p2, eps, onBoundary)
    && Outside(a, b, other.p3, eps, onBoundary)
  }

  /**
   * The verdict of the separating-edge test on the triangles exactly as the
   * caller listed them: no edge of either triangle separates the other.
   */
  predicate Collides(t1: Triangle, t2: Triangle, eps: real, onBoundary: bool)
  {
    !EdgeSeparates(t1, 0, t2, eps, onBoundary) && !EdgeSeparates(t2, 0, t1, eps, onBoundary)
    && !EdgeSeparates(t1, 1, t2, eps, onBoundary) && !EdgeSeparates(t2, 1, t1, eps, onBoundary)
    && !EdgeSeparates(t1, 2, t2, eps, onBoundary) && !EdgeSeparates(t2, 2, t1, eps, onBoundary)
  }

  // ---------------------------------------------------------------------
  // The winding guard and the collision test
  // ---------------------------------------------------------------------

  /**
   * The winding guard. A clockwise triangle is copied with p1 and p3
   * swapped and the copy is checked once more with reversal disallowed; the
   * copy is then discarded. It throws exactly when reversal is disallowed
   * and the triangle is clockwise, and it recurses at most once (`calls`
   * counts the recursive calls).
   */
  method CheckTriWinding(t: Triangle, allowReversed: bool) returns (o: Outcome, ghost calls: nat)
    ensures o.Fail? <==> !allowReversed && Det2D(t) < 0.0
    ensures calls == (if allowReversed && Det2D(t) < 0.0 then 1 else 0)
    decreases if allowReversed then 1 else 0
  {
    var detTri := Det2D(t);
    calls := 0;
    if detTri < 0.0 {
      if allowReversed {
        var tReverse := Reversed(t);
        ghost var inner;
        o, inner := CheckTriWinding(tReverse, false);
        calls := inner + 1;
      } else {
        o := Fail(WrongWindingDirection);
      }
    } else {
      o := Pass;
    }
  }

  /**
   * The collision test. Both winding guards run first and their errors
   * propagate; the guards change nothing, so the loop reads the caller's
   * triangles in their original order. For i = 0, 1, 2 it tests edge i of
   * `t1` against `t2`, then edge i of `t2` against `t1`, and answers "no
   * collision" at the first separating edge.
   */
  method TriangleTriangleCollision(t1: Triangle, t2: Triangle, eps: real, allowReversed: bool, onBoundary: bool)
    returns (r: CollisionResult)
    ensures r.Err? <==> !allowReversed && (Det2D(t1) < 0.0 || Det2D(t2) < 0.0)
    ensures r.Ok? ==> (r.collide <==> Collides(t1, t2, eps, onBoundary))
  {
    var o1, _ := CheckTriWinding(t1, allowReversed);
    if o1.Fail? {
      return Err(o1.error);
    }
    var o2, _ := CheckTriWinding(t2, allowReversed);
    if o2.Fail? {
      return Err(o2.error);
    }
    for i := 0 to 3
      invariant forall k :: 0 <= k < i ==>
        !EdgeSeparates(t1, k, t2, eps, onBoundary) && !EdgeSeparates(t2, k, t1, eps, onBoundary)
    {
      var j := (i + 1) % 3;
      if onBoundary {
        if BoundaryCollideChkPoints(t1.At(i), t1.At(j), t2.At(0), eps)
          && BoundaryCollideChkPoints(t1.At(i), t1.At(j), t2.At(1), eps)
          && BoundaryCollideChkPoints(t1.At(i), t1.At(j), t2.At(2), eps)
        {
          assert EdgeSeparates(t1, i, t2, eps, onBoundary);
          return Ok(false);
        }
      } else {
        if BoundaryDoesntCollideChkPoints(t1.At(i), t1.At(j), t2.At(0), eps)
          && BoundaryDoesntCollideChkPoints(t1.At(i), t1.At(j), t2.At(1), eps)
          && BoundaryDoesntCollideChkPoints(t1.At(i), t1.At(j), t2.At(2), eps)
        {
          assert EdgeSeparates(t1, i, t2, eps, onBoundary);
          return Ok(false);
        }
      }
      if onBoundary {
        if BoundaryCollideChkPoints(t2.At(i), t2.At(j), t1.At(0), eps)
          && BoundaryCollideChkPoints(t2.At(i), t2.At(j), t1.At(1), eps)
          && BoundaryCollideChkPoints(t2.At(i), t2.At(j), t1.At(2), eps)
        {
          assert EdgeSeparates(t2, i, t1, eps, onBoundary);
          return Ok(false);
        }
      } else {
        if BoundaryDoesntCollideChkPoints(t2.At(i), t2.At(j), t1.At(0), eps)
          && BoundaryDoesntCollideChkPoints(t2.At(i), t2.At(j), t1.At(1), eps)
          && BoundaryDoesntCollideChkPoints(t2.At(i), t2.At(j), t1.At(2), eps)
        {
          assert EdgeSeparates(t2, i, t1, eps, onBoundary);
          return Ok(false);
        }
      }
    }
    return Ok(true);
  }

  // ---------------------------------------------------------------------
  // Properties of the verdict
  // ---------------------------------------------------------------------

  /** A collision found in exclusive mode is also found in inclusive mode. */
  lemma CollidesMonotoneInMode(t1: Triangle, t2: Triangle, eps: real)
    ensures Collides(t1, t2, eps, false) ==> Collides(t1, t2, eps, true)
  {
    if Collides(t1, t2, eps, false) {
      forall i | 0 <= i < 3
        ensures !EdgeSeparates(t1, i, t2, eps, true) && !EdgeSeparates(t2, i, t1, eps, true)
      {
        assert !EdgeSeparates(t1, i, t2, eps, false) && !EdgeSeparates(t2, i, t1, eps, false);
      }
    }
  }

  /** Raising the tolerance never turns a non-collision into a collision. */
  lemma CollidesAntitoneInEps(t1: Triangle, t2: Triangle, eps: real, eps': real, onBoundary: bool)
    requires eps <= eps'
    ensures Collides(t1, t2, eps', onBoundary) ==> Collides(t1, t2, eps, onBoundary)
  {
    if Collides(t1, t2, eps', onBoundary) {
      forall i | 0 <= i < 3
        ensures !EdgeSeparates(t1, i, t2, eps, onBoundary) && !EdgeSeparates(t2, i, t1, eps, onBoundary)
      {
        assert !EdgeSeparates(t1, i, t2, eps', onBoundary) && !EdgeSeparates(t2, i, t1, eps', onBoundary);
      }
    }
  }

  /** The verdict does not depend on which triangle is passed first. */
  lemma CollidesSymmetric(t1: Triangle, t2: Triangle, eps: real, onBoundary: bool)
    ensures Collides(t1, t2, eps, onBoundary) == Collides(t2, t1, eps, onBoundary)
  {
  }

  /** Edge i of the rotated triangle is edge i + 1 of the original; its vertex set is unchanged. */
  lemma EdgeSeparatesRotated(t1: Triangle, t2: Triangle, i: nat, eps: real, onBoundary: bool)
    requires i < 3
    ensures EdgeSeparates(Rotated(t1), i, t2, eps, onBoundary) == EdgeSeparates(t1, (i + 1) % 3, t2, eps, onBoundary)
    ensures EdgeSeparates(t2, i, Rotated(t1), eps, onBoundary) == EdgeSeparates(t2, i, t1, eps, onBoundary)
  {
  }

  /** Listing a triangle's vertices from a different starting vertex keeps the verdict. */
  lemma CollidesRotated(t1: Triangle, t2: Triangle, eps: real, onBoundary: bool)
    ensures Collides(Rotated(t1), t2, eps, onBoundary) == Collides(t1, t2, eps, onBoundary)
  {
    EdgeSeparatesRotated(t1, t2, 0, eps, onBoundary);
    EdgeSeparatesRotated(t1, t2, 1, eps, onBoundary);
    EdgeSeparatesRotated(t1, t2, 2, eps, onBoundary);
  }

  /** Moving both triangles by the same vector keeps whether edge i of one separates the other. */
  lemma EdgeSeparatesTranslated(e: Triangle, i: nat, other: Triangle, dx: real, dy: real, eps: real, onBoundary: bool)
    requires i < 3
    ensures EdgeSeparates(Translated(e, dx, dy), i, Translated(other, dx, dy), eps, onBoundary)
            == EdgeSeparates(e, i, other, eps, onBoundary)
  {
    var j := (i + 1) % 3;
    assert Translated(e, dx, dy).At(i) == Moved(e.At(i), dx, dy);
    assert Translated(e, dx, dy).At(j) == Moved(e.At(j), dx, dy);
    TranslatedKeepsDet2D(Triangle(e.At(i), e.At(j), other.p1), dx, dy);
    TranslatedKeepsDet2D(Triangle(e.At(i), e.At(j), other.p2), dx, dy);
    TranslatedKeepsDet2D(Triangle(e.At(i), e.At(j), other.p3), dx, dy);
  }

  /** Moving both triangles by the same vector keeps the verdict. */
  lemma CollidesTranslated(t1: Triangle, t2: Triangle, dx: real, dy: real, eps: real, onBoundary: bool)
    ensures Collides(Translated(t1, dx, dy), Translated(t2, dx, dy), eps, onBoundary) == Collides(t1, t2, eps, onBoundary)
  {
    forall i | 0 <= i < 3
      ensures EdgeSeparates(Translated(t1, dx, dy), i, Translated(t2, dx, dy), eps, onBoundary) == EdgeSeparates(t1, i, t2, eps, onBoundary)
      ensures EdgeSeparates(Translated(t2, dx, dy), i, Translated(t1, dx, dy), eps, onBoundary) == EdgeSeparates(t2, i, t1, eps, onBoundary)
    {
      EdgeSeparatesTranslated(t1, i, t2, dx, dy, eps, onBoundary);
      EdgeSeparatesTranslated(t2, i, t1, dx, dy, eps, onBoundary);
    }
  }

  /**
   * With a tolerance that does not count a zero area as outside, two
   * triangles that share two vertices (at distinct positions in each)
   * always collide: every edge has a shared endpoint, and a vertex on the
   * edge's own line has zero signed area.
   */
  lemma SharedVerticesCollide(t1: Triangle, t2: Triangle, i: nat, j: nat, k: nat, l: nat,
                              eps: real, onBoundary: bool)
    requires i < 3 && j < 3 && k < 3 && l < 3 && i != j && k != l
    requires t1.At(i) == t2.At(k) && t1.At(j) == t2.At(l)
    requires eps < 0.0 || (eps == 0.0 && onBoundary)
    ensures Collides(t1, t2, eps, onBoundary)
  {
    forall e | 0 <= e < 3
      ensures !EdgeSeparates(t1, e, t2, eps, onBoundary) && !EdgeSeparates(t2, e, t1, eps, onBoundary)
    {
      var f := (e + 1) % 3;
      RepeatedVertexDet2DZero(t1.At(e), t1.At(f));
      RepeatedVertexDet2DZero(t2.At(e), t2.At(f));
      assert !Outside(t1.At(e), t1.At(f), t1.At(e), eps, onBoundary);
      assert !Outside(t1.At(e), t1.At(f), t1.At(f), eps, onBoundary);
      assert !Outside(t2.At(e), t2.At(f), t2.At(e), eps, onBoundary);
      assert !Outside(t2.At(e), t2.At(f), t2.At(f), eps, onBoundary);
    }
  }

  /** Every triangle, degenerate or not, collides with itself in inclusive mode at zero tolerance. */
  lemma SelfCollides(t: Triangle)
    ensures Collides(t, t, 0.0, true)
  {
    SharedVerticesCollide(t, t, 0, 1, 0, 1, 0.0, true);
  }

  /**
   * For a triangle `e` with non-negative signed area, a point of `e` is on
   * the inner side (or the line) of each of its edges, so an edge of `e`
   * cannot separate, in inclusive mode at a tolerance of at most zero, any
   * triangle that shares that point.
   */
  lemma CommonPointBlocksEdge(e: Triangle, i: nat, other: Triangle, q: Point,
                              l1: real, l2: real, l3: real, m1: real, m2: real, m3: real, eps: real)
    requires i < 3 && Det2D(e) >= 0.0 && eps <= 0.0
    requires Combination(e, l1, l2, l3, q) && Combination(other, m1, m2, m3, q)
    ensures !EdgeSeparates(e, i, other, eps, true)
  {
    var a, b := e.At(i), e.At((i + 1) % 3);
    CombinationInsideEdges(e, i, l1, l2, l3, q);
    if EdgeSeparates(e, i, other, eps, true) {
      CombinationOutsideEdge(a, b, other, m1, m2, m3, q);
      assert false;
    }
  }

  /**
   * Soundness of the verdict for counter-clockwise (or degenerate) input:
   * two triangles with a common point collide in inclusive mode at any
   * tolerance of at most zero.
   */
  lemma CommonPointCollides(t1: Triangle, t2: Triangle, q: Point,
                            l1: real, l2: real, l3: real, m1: real, m2: real, m3: real, eps: real)
    requires Det2D(t1) >= 0.0 && Det2D(t2) >= 0.0 && eps <= 0.0
    requires Combination(t1, l1, l2, l3, q) && Combination(t2, m1, m2, m3, q)
    ensures Collides(t1, t2, eps, true)
  {
    forall i | 0 <= i < 3
      ensures !EdgeSeparates(t1, i, t2, eps, true) && !EdgeSeparates(t2, i, t1, eps, true)
    {
      CommonPointBlocksEdge(t1, i, t2, q, l1, l2, l3, m1, m2, m3, eps);
      CommonPointBlocksEdge(t2, i, t1, q, m1, m2, m3, l1, l2, l3, eps);
    }
  }

  // ---------------------------------------------------------------------
  // The discarded normalisation, and the test with it applied
  // ---------------------------------------------------------------------

  /** The copy the winding guard builds: the triangle itself, or reversed when clockwise. */
  function NormalisedWinding(t: Triangle): (r: Triangle)
    ensures Det2D(r) >= 0.0
    ensures r == t || r == Reversed(t)
    ensures Det2D(t) >= 0.0 ==> r == t
  {
    if Det2D(t) < 0.0 then Reversed(t) else t
  }

  /** Normalising twice is normalising once. */
  lemma NormalisedWindingIdempotent(t: Triangle)
    ensures NormalisedWinding(NormalisedWinding(t)) == NormalisedWinding(t)
  {
  }

  /** The separating-edge verdict on the normalised copies of both triangles. */
  predicate NormalisedCollides(t1: Triangle, t2: Triangle, eps: real, onBoundary: bool)
  {
    Collides(NormalisedWinding(t1), NormalisedWinding(t2), eps, onBoundary)
  }

  /**
   * On normalised copies the verdict no longer depends on the winding of a
   * non-degenerate triangle.
   */
  lemma NormalisedCollidesReversed(t1: Triangle, t2: Triangle, eps: real, onBoundary: bool)
    requires Det2D(t1) != 0.0
    ensures NormalisedCollides(Reversed(t1), t2, eps, onBoundary) == NormalisedCollides(t1, t2, eps, onBoundary)
  {
    ReversedTwice(t1);
    assert NormalisedWinding(Reversed(t1)) == NormalisedWinding(t1);
  }

  /**
   * With the normalised copies, two triangles of any winding that have a
   * common point collide in inclusive mode at any tolerance of at most zero.
   */
  lemma CommonPointCollidesNormalised(t1: Triangle, t2: Triangle, q: Point,
                                      l1: real, l2: real, l3: real, m1: real, m2: real, m3: real, eps: real)
    requires eps <= 0.0
    requires Combination(t1, l1, l2, l3, q) && Combination(t2, m1, m2, m3, q)
    ensures NormalisedCollides(t1, t2, eps, true)
  {
    var n1, n2 := NormalisedWinding(t1), NormalisedWinding(t2);
    var w1, w2, w3 := l1, l2, l3;
    if n1 != t1 {
      CombinationReversed(t1, l1, l2, l3, q);
      w1, w3 := l3, l1;
    }
    var v1, v2, v3 := m1, m2, m3;
    if n2 != t2 {
      CombinationReversed(t2, m1, m2, m3, q);
      v1, v3 := m3, m1;
    }
    CommonPointCollides(n1, n2, q, w1, w2, w3, v1, v2, v3, eps);
  }

  /** A small counter-clockwise triangle. */
  function InnerTriangle(): Triangle { Triangle(Point(1.0, 1.0), Point(2.0, 1.0), Point(1.0, 2.0)) }

  /** A large clockwise triangle that contains `InnerTriangle()`. */
  function ClockwiseContainer(): Triangle { Triangle(Point(0.0, 0.0), Point(0.0, 10.0), Point(10.0, 0.0)) }

  /**
   * The test as written misses a containment: the vertex (1,1) of the
   * small triangle lies in the clockwise container, yet edge 0 of the
   * container, (0,0)-(0,10), has all three small vertices on its negative
   * side and is taken as separating. The guard accepts the container
   * because reversal is allowed, but its reversed copy is never used.
   */
  lemma ClockwiseContainerMissed()
    ensures Det2D(ClockwiseContainer()) < 0.0
    ensures Combination(ClockwiseContainer(), 0.8, 0.1, 0.1, InnerTriangle().p1)
    ensures EdgeSeparates(ClockwiseContainer(), 0, InnerTriangle(), 0.0, true)
    ensures !Collides(InnerTriangle(), ClockwiseContainer(), 0.0, true)
  {
    assert EdgeSeparates(ClockwiseContainer(), 0, InnerTriangle(), 0.0, true);
  }

  /** With the normalised copies the same pair is reported as colliding. */
  lemma ClockwiseContainerNormalised()
    ensures NormalisedCollides(InnerTriangle(), ClockwiseContainer(), 0.0, true)
  {
    var small, big := InnerTriangle(), ClockwiseContainer();
    assert Combination(small, 1.0, 0.0, 0.0, small.p1);
    assert Combination(big, 0.8, 0.1, 0.1, small.p1);
    CommonPointCollidesNormalised(small, big, small.p1, 1.0, 0.0, 0.0, 0.8, 0.1, 0.1, 0.0);
  }

  // ---------------------------------------------------------------------
  // Concrete scenarios
  // ---------------------------------------------------------------------

  /** The demonstration triangle t1, counter-clockwise. */
  function DemoT1(): Triangle { Triangle(Point(3.0, 6.0), Point(6.0, 5.0), Point(6.0, 7.0)) }

  /** The demonstration triangle t2, clockwise (accepted because reversal is allowed by default). */
  function DemoT2(): Triangle { Triangle(Point(4.0, 2.0), Point(1.0, 5.0), Point(6.0, 4.0)) }

  /** The demonstration triangle t3, counter-clockwise. */
  function DemoT3(): Triangle { Triangle(Point(3.0, 12.0), Point(9.0, 8.0), Point(9.0, 12.0)) }

  /** The demonstration triangle t4, counter-clockwise. */
  function DemoT4(): Triangle { Triangle(Point(3.0, 10.0), Point(5.0, 9.0), Point(5.0, 13.0)) }

  /** At the default arguments t1 and t2 do not collide: edge 0 of t1 separates t2. */
  lemma DemoT1T2Apart()
    ensures Det2D(DemoT1()) > 0.0 && Det2D(DemoT2()) < 0.0
    ensures !Collides(DemoT1(), DemoT2(), 0.0, true)
  {
    assert EdgeSeparates(DemoT1(), 0, DemoT2(), 0.0, true);
  }

  /** At the default arguments t1 and t3 do not collide: edge 0 of t3 separates t1. */
  lemma DemoT1T3Apart()
    ensures Det2D(DemoT3()) > 0.0
    ensures !Collides(DemoT1(), DemoT3(), 0.0, true)
  {
    assert EdgeSeparates(DemoT3(), 0, DemoT1(), 0.0, true);
  }

  /** At the default arguments t3 and t4 collide: no edge separates them. */
  lemma DemoT3T4Collide()
    ensures Det2D(DemoT4()) > 0.0
    ensures Collides(DemoT3(), DemoT4(), 0.0, true)
  {
    var t3, t4 := DemoT3(), DemoT4();
    assert !EdgeSeparates(t3, 0, t4, 0.0, true);
    assert !EdgeSeparates(t3, 1, t4, 0.0, true);
    assert !EdgeSeparates(t3, 2, t4, 0.0, true);
    assert !EdgeSeparates(t4, 0, t3, 0.0, true);
    assert !EdgeSeparates(t4, 1, t3, 0.0, true);
    assert !EdgeSeparates(t4, 2, t3, 0.0, true);
  }

  /** Two counter-clockwise triangles that share the edge from (1,0) to (0,1). */
  function EdgeShareLower(): Triangle { Triangle(Point(0.0, 0.0), Point(1.0, 0.0), Point(0.0, 1.0)) }
  function EdgeShareUpper(): Triangle { Triangle(Point(1.0, 0.0), Point(1.0, 1.0), Point(0.0, 1.0)) }

  /** Triangles sharing exactly one edge collide in inclusive mode at zero tolerance. */
  lemma SharedEdgeInclusive()
    ensures Det2D(EdgeShareLower()) > 0.0 && Det2D(EdgeShareUpper()) > 0.0
    ensures Collides(EdgeShareLower(), EdgeShareUpper(), 0.0, true)
  {
    var a, b := EdgeShareLower(), EdgeShareUpper();
    assert Det2D(a) == 1.0;
    assert Det2D(b) == 1.0;
    SharedVerticesCollide(a, b, 1, 2, 0, 2, 0.0, true);
  }

  /**
   * Triangles sharing exactly one edge do not collide in exclusive mode at
   * zero tolerance: the shared edge separates them.
   */
  lemma SharedEdgeExclusive()
    ensures !Collides(EdgeShareLower(), EdgeShareUpper(), 0.0, false)
  {
    var a, b := EdgeShareLower(), EdgeShareUpper();
    assert Det2D(Triangle(a.p2, a.p3, b.p1)) == 0.0;
    assert Det2D(Triangle(a.p2, a.p3, b.p2)) == -1.0;
    assert Det2D(Triangle(a.p2, a.p3, b.p3)) == 0.0;
    assert EdgeSeparates(a, 1, b, 0.0, false);
  }
}
