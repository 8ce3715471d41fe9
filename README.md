# Triangle intersection in Dafny

A model of the 2D triangle predicates in
`triangle-intersection/triangle-intersection.cpp`: the signed-area
primitives `sign` and `Det2D`, the winding-agnostic `pointInTriangle`, the
winding guard `CheckTriWinding`, the half-plane checks
`BoundaryCollideChk` / `BoundaryDoesntCollideChk`, and the separating-edge
test `TriangleTriangleCollision`.

Coordinates are exact `real`s, so every result is a sign condition on a
polynomial in the coordinates, and the algebraic facts the algorithm relies
on are proved as lemmas.

Layout:

- `geometry.dfy`, module `Geometry`: `Point`, `Triangle` with the indexed
  view `At(i)`, `Sign`, `Det2D`, and the identities between them. It also
  holds `Combination`, which says that a point lies in a triangle with given
  barycentric weights, and the affine-area lemmas built on it.
- `containment.dfy`, module `Containment`: `PointInTriangle` and its
  invariances, plus the demonstration points.
- `collision.dfy`, module `Collision`: the half-plane checks, the winding guard
  `CheckTriWinding`, and the collision loop `TriangleTriangleCollision`.
  The loop is proved against the predicate `Collides`: no edge
  `EdgeSeparates` the other triangle. This module also holds the properties of
  `Collides`, the demonstration pairs, and the normalised variant described
  under Findings.

The C++ `throw` becomes an explicit failure value. `CheckTriWinding` returns
`Outcome` (`Pass` or `Fail(WrongWindingDirection)`).
`TriangleTriangleCollision` returns `Ok(collide)` or `Err(WrongWindingDirection)`.
The source's default arguments (`eps = 0`, `allowReversed = true`,
`onBoundary = true`) are explicit parameters here.

Facts of the code that a reader might not expect:

- (3,4) lies outside ((2,2),(5,6),(10,0)): its first two signed areas are
  d1 = 2 and d2 = -22 (`Containment.DemoPointLeft`).
- The demonstration pair t3/t4 collides, because no edge of either triangle
  separates the other (`Collision.DemoT3T4Collide`).
- `CheckTriWinding` discards its reversed copy, so the loop tests the
  caller's original vertex order (see Findings).
- For a degenerate triangle, `pointInTriangle` accepts every point of the
  triangle's line, even one beyond its vertices: (5,0) against
  ((0,0),(1,0),(2,0)) (`Containment.DegenerateReportsWholeLine`). For a
  non-degenerate triangle it accepts exactly the convex combinations of the
  vertices (`Containment.PointInTriangleIffCombination`).

## Model

| member | source | states |
|---|---|---|
| Geometry.Sign | triangle-intersection/triangle-intersection.cpp:28-31 | `sign(p1,p2,p3)` equals `Det2D` of the triangle (p1,p2,p3): both formulas compute the same signed area |
| Geometry.SignAntisymmetric | triangle-intersection/triangle-intersection.cpp:28-31 | swapping any two of the three points negates `sign` |
| Geometry.Det2D | triangle-intersection/triangle-intersection.cpp:45-50 | `Det2D` is the cross product of the edge vectors p1→p2 and p1→p3, so its sign is the turning direction of the vertices |
| Geometry.Reversed | triangle-intersection/triangle-intersection.cpp:60-63 | the copy with p1 and p3 swapped has the negated `Det2D`: reversing flips the winding |
| Geometry.ReversedTwice | triangle-intersection/triangle-intersection.cpp:60-63 | swapping p1 and p3 twice gives back the triangle |
| Geometry.RotatedKeepsDet2D | triangle-intersection/triangle-intersection.cpp:45-50 | `Det2D` does not change when the vertices are rotated cyclically |
| Geometry.RepeatedVertexDet2DZero | triangle-intersection/triangle-intersection.cpp:45-50 | `Det2D(a,b,a) = Det2D(a,b,b) = 0`: a point at an edge endpoint has zero area against that edge |
| Geometry.TranslatedKeepsDet2D | triangle-intersection/triangle-intersection.cpp:45-50 | moving all three points by one vector keeps `Det2D` |
| Geometry.Det2DAffine | triangle-intersection/triangle-intersection.cpp:45-50 | for a fixed edge, `Det2D` at a weighted average of three points is the same weighted average of their three values |
| Geometry.SignsBarycentric | triangle-intersection/triangle-intersection.cpp:28-31 | the three `sign` values of a point against the edges of a triangle add up to the triangle's `Det2D`, and weighting each vertex by the value against the opposite edge gives the point scaled by `Det2D` |
| Geometry.CombinationReversed | triangle-intersection/triangle-intersection.cpp:60-63 | a point of a triangle is a point of its reversed copy, with the weights listed in reverse order |
| Geometry.CombinationInsideEdges | triangle-intersection/triangle-intersection.cpp:45-50 | for a point of `t`, the area against edge i is `Det2D(t)` times the weight of the opposite vertex, so it is non-negative when `t` is counter-clockwise |
| Geometry.CombinationOutsideEdge | triangle-intersection/triangle-intersection.cpp:45-50 | if all three vertices have negative area against an edge, every point of the triangle does too |
| Containment.PointInTriangle | triangle-intersection/triangle-intersection.cpp:33-43 | the point is in the triangle iff its three edge areas d1, d2, d3 are all ≥ 0 or all ≤ 0, which is the same as not (some d < 0 and some d > 0) |
| Containment.PointInTriangleRotated | triangle-intersection/triangle-intersection.cpp:33-43 | containment is unchanged when the vertices are rotated cyclically |
| Containment.PointInTriangleReversed | triangle-intersection/triangle-intersection.cpp:33-43 | containment is unchanged by reversing the vertex order, so it does not depend on the winding |
| Containment.VerticesInTriangle | triangle-intersection/triangle-intersection.cpp:33-43 | every vertex of a triangle is reported as in it |
| Containment.PointInTriangleTranslated | triangle-intersection/triangle-intersection.cpp:33-43 | moving the point and the triangle by one vector keeps containment |
| Containment.CombinationSignsNonNegative | triangle-intersection/triangle-intersection.cpp:33-43 | a convex combination of the vertices of a counter-clockwise or degenerate triangle has d1, d2, d3 ≥ 0 |
| Containment.CombinationInTriangle | triangle-intersection/triangle-intersection.cpp:33-43 | every convex combination of the vertices is reported inside, whatever the winding |
| Containment.PointInTriangleIffCombination | triangle-intersection/triangle-intersection.cpp:33-43 | for a non-degenerate triangle, the point is reported inside iff it is the convex combination with weights d2/D, d3/D, d1/D (D = `Det2D`) |
| Containment.DegenerateReportsWholeLine | triangle-intersection/triangle-intersection.cpp:33-43 | for the collinear triangle ((0,0),(1,0),(2,0)), (5,0) is reported inside although no convex combination of the vertices gives it |
| Containment.DemoPointInside | triangle-intersection/triangle-intersection.cpp:152-161 | (3,3) is in ((2,2),(5,6),(10,0)) |
| Containment.DemoPointAbove | triangle-intersection/triangle-intersection.cpp:152-161 | (5,7) is not in ((2,2),(5,6),(10,0)) |
| Containment.DemoPointLeft | triangle-intersection/triangle-intersection.cpp:152-161 | (3,4) is not in ((2,2),(5,6),(10,0)) |
| Collision.BoundaryCollideChk | triangle-intersection/triangle-intersection.cpp:70-73 | a point that passes the strict check also passes `BoundaryDoesntCollideChk`; and it passes iff it fails `BoundaryDoesntCollideChk` against the same edge walked backwards with `-eps` |
| Collision.BoundaryCollideChkPoints | triangle-intersection/triangle-intersection.cpp:75-80 | the three-point form keeps the same strict-implies-non-strict relation with the three-point `BoundaryDoesntCollideChk` |
| Collision.BoundaryDoesntCollideChk | triangle-intersection/triangle-intersection.cpp:82-85 | at `eps ≥ 0`, a point at either end of the edge passes the non-strict check |
| Collision.BoundaryDoesntCollideChkPoints | triangle-intersection/triangle-intersection.cpp:87-91 | the three-point form: at `eps ≥ 0`, `p3` equal to `p1` or `p2` passes |
| Collision.BoundaryChecksMonotone | triangle-intersection/triangle-intersection.cpp:70-91 | `<` implies `<=`; raising `eps` keeps every point that passed either check; the non-strict check at `eps` implies the strict one at any larger tolerance |
| Collision.BoundaryChecksBySign | triangle-intersection/triangle-intersection.cpp:75-91 | the three-point overloads compare `sign(p1,p2,p3)` with `eps`, using `<` and `<=` |
| Collision.CheckTriWinding | triangle-intersection/triangle-intersection.cpp:52-68 | the guard throws iff `allowReversed` is false and `Det2D(t) < 0`, so it never throws when reversal is allowed. It recurses exactly once when reversal is allowed and the triangle is clockwise, and otherwise not at all |
| Collision.TriangleTriangleCollision | triangle-intersection/triangle-intersection.cpp:95-146 | the result is an error iff reversal is disallowed and either triangle is clockwise. Otherwise it is "collide" iff none of the six edges (edge i of either triangle, i = 0..2) has all three vertices of the other triangle passing the selected check. The triangles are tested in the caller's vertex order, and the verdict does not depend on `allowReversed` |
| Collision.CollidesMonotoneInMode | triangle-intersection/triangle-intersection.cpp:104-142 | a collision reported with `onBoundary = false` is also reported with `onBoundary = true` |
| Collision.CollidesAntitoneInEps | triangle-intersection/triangle-intersection.cpp:104-142 | raising `eps` never turns a non-collision into a collision |
| Collision.CollidesSymmetric | triangle-intersection/triangle-intersection.cpp:104-142 | swapping the two triangles does not change the verdict |
| Collision.EdgeSeparatesRotated | triangle-intersection/triangle-intersection.cpp:104-142 | edge i of a rotated triangle is edge i+1 of the original; rotating the other triangle does not change whether an edge separates it |
| Collision.CollidesRotated | triangle-intersection/triangle-intersection.cpp:104-142 | starting a triangle's vertex list at a different vertex does not change the verdict |
| Collision.EdgeSeparatesTranslated | triangle-intersection/triangle-intersection.cpp:104-142 | moving both triangles by one vector does not change whether edge i of one separates the other |
| Collision.CollidesTranslated | triangle-intersection/triangle-intersection.cpp:104-142 | moving both triangles by one vector does not change the verdict |
| Collision.SharedVerticesCollide | triangle-intersection/triangle-intersection.cpp:113-133 | triangles that share two vertices collide whenever a zero area does not count as outside: `onBoundary` with `eps = 0`, or any `eps < 0` |
| Collision.SelfCollides | triangle-intersection/triangle-intersection.cpp:95-146 | every triangle, even a degenerate one, collides with itself at the default arguments |
| Collision.CommonPointBlocksEdge | triangle-intersection/triangle-intersection.cpp:111-115 | an edge of a counter-clockwise triangle does not separate a triangle with which it shares a point (inclusive mode, `eps ≤ 0`) |
| Collision.CommonPointCollides | triangle-intersection/triangle-intersection.cpp:95-146 | two counter-clockwise (or degenerate) triangles with a common point collide in inclusive mode when `eps ≤ 0` |
| Collision.NormalisedWinding | triangle-intersection/triangle-intersection.cpp:56-64 | the copy the guard builds is the triangle itself or its reversal, has `Det2D ≥ 0`, and is the triangle itself when that is already non-negative |
| Collision.NormalisedWindingIdempotent | triangle-intersection/triangle-intersection.cpp:52-68 | normalising an already normalised triangle changes nothing |
| Collision.NormalisedCollidesReversed | triangle-intersection/triangle-intersection.cpp:99-101 | with normalised copies, reversing a non-degenerate triangle's vertex order does not change the verdict |
| Collision.CommonPointCollidesNormalised | triangle-intersection/triangle-intersection.cpp:99-101 | with normalised copies, triangles of any winding that share a point collide (inclusive mode, `eps ≤ 0`) |
| Collision.ClockwiseContainerMissed | triangle-intersection/triangle-intersection.cpp:99-101 | as written, a small triangle inside a clockwise triangle is reported as not colliding |
| Collision.ClockwiseContainerNormalised | triangle-intersection/triangle-intersection.cpp:99-101 | with normalised copies, the same pair is reported as colliding |
| Collision.DemoT1T2Apart | triangle-intersection/triangle-intersection.cpp:165-171 | demo t1 and t2 do not collide (t2 is clockwise, which the guard accepts) |
| Collision.DemoT1T3Apart | triangle-intersection/triangle-intersection.cpp:165-175 | demo t1 and t3 do not collide |
| Collision.DemoT3T4Collide | triangle-intersection/triangle-intersection.cpp:167-173 | demo t3 and t4 collide |
| Collision.SharedEdgeInclusive | triangle-intersection/triangle-intersection.cpp:108-141 | two counter-clockwise triangles that share one edge collide with `onBoundary = true` at `eps = 0` |
| Collision.SharedEdgeExclusive | triangle-intersection/triangle-intersection.cpp:108-141 | the same two triangles do not collide with `onBoundary = false` at `eps = 0`: the shared edge separates them |

## Left out

- Floating point: the source evaluates both `sign` and `Det2D` in `float`
  (`Det2D` widens to `double` only on return), in different orders of
  operations, and compares NaN and infinities by IEEE rules. The model uses
  exact reals, so it captures no rounding and no NaN behaviour.
- The anonymous unions (lines 3-24) that alias `x`/`y` and `p1`/`p2`/`p3`
  with arrays. They are modelled as datatype fields plus the accessor
  `Triangle.At`.
- C++ exception machinery: `std::runtime_error` is modelled as the
  `Fail` / `Err` value carrying `WrongWindingDirection`. The message text is
  not modelled.
- The `[[likely]]` / `[[unlikely]]` hints: they have no semantic effect.
- `main` and its `std::wcout` output: its inputs appear only as the Demo
  lemmas.
- The two overloads of each boundary check share one C++ name. Dafny has no
  overloading, so the three-point forms are named `BoundaryCollideChkPoints`
  and `BoundaryDoesntCollideChkPoints`.
- Collision.CommonPointCollides: only this direction is proved. Its converse,
  that two counter-clockwise triangles no edge separates share a point, is
  not proved here.

## Findings

| source | as written | input that shows it | evidently intended | confidence | as-written member | corrected member |
|---|---|---|---|---|---|---|
| triangle-intersection/triangle-intersection.cpp:99-101 | `CheckTriWinding` builds a reversed copy of a clockwise triangle and then throws it away. The loop then tests the clockwise triangle in its original order, and for that order the half-plane check's "outside" is the triangle's inner side | small = ((1,1),(2,1),(1,2)), big = ((0,0),(0,10),(10,0)), which is clockwise, at the default arguments. (1,1) lies in both, yet edge (0,0)-(0,10) of big is taken as separating, so the result is "do not collide" | the comment at line 99 says the triangles must be anti-clockwise, so the loop should run on the normalised copies | high, not executed | Collision.ClockwiseContainerMissed | Collision.CommonPointCollidesNormalised |

`TriangleTriangleCollision` models the code as written: it uses `Collides`
on the caller's triangles. The corrected test is `NormalisedCollides`, which
is `Collides` on `NormalisedWinding` copies of both triangles. Three lemmas
are proved about it:

- `CommonPointCollidesNormalised`: triangles of any winding that share a
  point collide.
- `NormalisedCollidesReversed`: for a non-degenerate triangle, the verdict
  does not depend on its winding.
- `ClockwiseContainerNormalised`: the pair in the finding collides.
