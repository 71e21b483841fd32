/** The visibility test of the Bayazit decomposer: can vertex `i` be joined to
    vertex `j` by a diagonal? Both endpoints must see each other inside their
    interior angle, and no polygon edge may cross the segment between them. */
module Visibility {
  import opened Geometry

  /** Vertex `j` lies outside the interior angle at vertex `i`. At a reflex
      vertex the angle is wider than a half-plane, so `j` is outside only when
      it is on or left of the incoming edge and on or right of the outgoing
      one; at a convex vertex either condition puts it outside. */
  function OutsideCone(i: int, j: int, v: Polygon): (r: bool)
    requires |v| >= 2 && i >= 0 && j >= 0
    ensures At(j, v) == At(i, v) || At(j, v) == At(i + 1, v) || At(j, v) == At(i - 1, v) ==> r
  {
    var a, b, c := At(i - 1, v), At(i, v), At(i + 1, v);
    AreaProperties(b, a, c);
    AreaProperties(a, b, c);
    AreaProperties(b, c, a);
    AreaProperties(b, c, b);
    AreaProperties(b, a, b);
    if Reflex(i, v) then
      LeftOn(b, a, At(j, v)) && RightOn(b, c, At(j, v))
    else
      RightOn(b, c, At(j, v)) || LeftOn(b, a, At(j, v))
  }

  /** Edge `k` (from `At(k)` to `At(k + 1)`) obstructs the segment from `At(i)`
      to `At(j)`. An edge sharing an endpoint with the segment is ignored.
      Otherwise the segment test is asked for a proper crossing; a reported
      point equal to the origin is taken for "no intersection", and so is a
      point equal to both ends of the edge. Since a degenerate edge is never
      crossed, an edge obstructs exactly when it shares no endpoint and the
      segments cross at a point other than the origin. */
  function EdgeObstructs(i: int, j: int, k: int, v: Polygon): (r: bool)
    requires |v| >= 2 && i >= 0 && j >= 0 && k >= 0
    ensures r <==>
              var p1, p2, q1, q2 := At(i, v), At(j, v), At(k, v), At(k + 1, v);
              !(p1 == q1 || p1 == q2 || p2 == q1 || p2 == q2)
              && SegmentIntersect(p1, p2, q1, q2, true, true).found
              && SegmentIntersect(p1, p2, q1, q2, true, true).point != Origin
  {
    var p1, p2, q1, q2 := At(i, v), At(j, v), At(k, v), At(k + 1, v);
    DegenerateEdgeParallel(p1, p2, q1, q2);
    !(p1 == q1 || p1 == q2 || p2 == q1 || p2 == q2)
    && var hit := SegmentIntersect(p1, p2, q1, q2, true, true);
       hit.point != Origin && (hit.point != q1 || hit.point != q2)
  }

  /** An edge whose two ends coincide is parallel to every segment. */
  lemma DegenerateEdgeParallel(p1: Point, p2: Point, q1: Point, q2: Point)
    ensures q1 == q2 ==> SegDenom(p1, p2, q1, q2) == 0.0
  {
  }

  /** The edge loop of `CanSee` from edge `k` on: it stops with `false` at the
      first obstructing edge and reaches the end with `true` otherwise. */
  function NoObstructionFrom(i: int, j: int, k: nat, v: Polygon): (r: bool)
    requires |v| >= 2 && i >= 0 && j >= 0
    ensures r <==> forall m :: k <= m < |v| ==> !EdgeObstructs(i, j, m, v)
    decreases |v| - k
  {
    if k >= |v| then true
    else if EdgeObstructs(i, j, k, v) then false
    else NoObstructionFrom(i, j, k + 1, v)
  }

  /** `CanSee(i, j, vertices)`: each endpoint lies inside the other's interior
      angle and no edge of the polygon obstructs the segment between them. */
  function CanSee(i: int, j: int, v: Polygon): (r: bool)
    requires |v| >= 2 && i >= 0 && j >= 0
    ensures r <==> !OutsideCone(i, j, v) && !OutsideCone(j, i, v)
                   && forall k :: 0 <= k < |v| ==> !EdgeObstructs(i, j, k, v)
  {
    if OutsideCone(i, j, v) then false
    else if OutsideCone(j, i, v) then false
    else NoObstructionFrom(i, j, 0, v)
  }

  // ---------------------------------------------------------------------------
  // Properties of the visibility test

  /** A vertex never sees itself, nor any vertex at the same position. */
  lemma CannotSeeSamePoint(i: int, j: int, v: Polygon)
    requires |v| >= 2 && i >= 0 && j >= 0
    requires At(i, v) == At(j, v)
    ensures !CanSee(i, j, v)
  {
    assert OutsideCone(i, j, v);
  }

  /** A polygon edge is never a diagonal: a vertex sees neither of its
      neighbours (nor any vertex that sits on one of them). */
  lemma CannotSeeNeighbour(i: int, j: int, v: Polygon)
    requires |v| >= 2 && i >= 0 && j >= 0
    requires At(j, v) == At(i + 1, v) || At(j, v) == At(i - 1, v)
    ensures !CanSee(i, j, v)
  {
    assert OutsideCone(i, j, v);
  }

  /** Visibility is symmetric: swapping the endpoints changes neither the cone
      tests (both are made) nor any edge's verdict. */
  lemma CanSeeSymmetric(i: int, j: int, v: Polygon)
    requires |v| >= 2 && i >= 0 && j >= 0
    ensures CanSee(i, j, v) <==> CanSee(j, i, v)
  {
    forall k | 0 <= k < |v|
      ensures EdgeObstructs(i, j, k, v) <==> EdgeObstructs(j, i, k, v)
    {
      EdgeObstructsSymmetric(i, j, k, v);
    }
  }

  lemma EdgeObstructsSymmetric(i: int, j: int, k: int, v: Polygon)
    requires |v| >= 2 && i >= 0 && j >= 0 && k >= 0
    ensures EdgeObstructs(i, j, k, v) <==> EdgeObstructs(j, i, k, v)
  {
    var p1, p2, q1, q2 := At(i, v), At(j, v), At(k, v), At(k + 1, v);
    if !(p1 == q1 || p1 == q2 || p2 == q1 || p2 == q2) {
      SegmentIntersectReversed(p1, p2, q1, q2);
    }
  }

  /** Reversing the first segment of the segment test gives the same answer
      whenever that segment shares no endpoint with the second. */
  lemma SegmentIntersectReversed(p1: Point, p2: Point, q1: Point, q2: Point)
    requires p1 != q1 && p2 != q1
    ensures SegmentIntersect(p1, p2, q1, q2, true, true) == SegmentIntersect(p2, p1, q1, q2, true, true)
  {
    var h, h' := SegmentIntersect(p1, p2, q1, q2, true, true), SegmentIntersect(p2, p1, q1, q2, true, true);
    var den := SegDenom(p1, p2, q1, q2);
    assert SegDenom(p2, p1, q1, q2) == -den;
    if !FloatEquals(den, 0.0) {
      ReversedParameters(p1, p2, q1, q2);
      ReversedAccepted(p1, p2, q1, q2);
      if h.found {
        var ua := SegUa(p1, p2, q1, q2);
        LerpReversed(p1, p2, ua);
      }
    }
  }

  lemma ReversedAccepted(p1: Point, p2: Point, q1: Point, q2: Point)
    requires p1 != q1 && p2 != q1
    requires SegDenom(p1, p2, q1, q2) != 0.0
    requires SegDenom(p2, p1, q1, q2) == -SegDenom(p1, p2, q1, q2)
    requires SegUa(p2, p1, q1, q2) == 1.0 - SegUa(p1, p2, q1, q2)
    requires SegUb(p2, p1, q1, q2) == SegUb(p1, p2, q1, q2)
    ensures SegmentParamsAccepted(p1, p2, q1, q2, true, true) <==> SegmentParamsAccepted(p2, p1, q1, q2, true, true)
  {
    var ua, ub := SegUa(p1, p2, q1, q2), SegUb(p1, p2, q1, q2);
    if ua == 0.0 && ub == 0.0 {
      SegmentPointOnBoth(p1, p2, q1, q2);
    }
    if ua == 1.0 && ub == 0.0 {
      SegmentPointOnBoth(p1, p2, q1, q2);
    }
  }

  lemma LerpReversed(a: Point, b: Point, t: real)
    ensures Lerp(b, a, 1.0 - t) == Lerp(a, b, t)
  {
  }

  lemma ReversedParameters(p1: Point, p2: Point, q1: Point, q2: Point)
    requires SegDenom(p1, p2, q1, q2) != 0.0
    ensures SegDenom(p2, p1, q1, q2) == -SegDenom(p1, p2, q1, q2)
    ensures SegUa(p2, p1, q1, q2) == 1.0 - SegUa(p1, p2, q1, q2)
    ensures SegUb(p2, p1, q1, q2) == SegUb(p1, p2, q1, q2)
  {
    var den := SegDenom(p1, p2, q1, q2);
    var na := (q2.x - q1.x) * (p1.y - q1.y) - (q2.y - q1.y) * (p1.x - q1.x);
    var na' := (q2.x - q1.x) * (p2.y - q1.y) - (q2.y - q1.y) * (p2.x - q1.x);
    var nb := (p2.x - p1.x) * (p1.y - q1.y) - (p2.y - p1.y) * (p1.x - q1.x);
    var nb' := (p1.x - p2.x) * (p2.y - q1.y) - (p1.y - p2.y) * (p2.x - q1.x);
    assert SegDenom(p2, p1, q1, q2) == -den;
    assert SegUa(p1, p2, q1, q2) == na / den;
    assert SegUa(p2, p1, q1, q2) == na' / (-den);
    assert SegUb(p1, p2, q1, q2) == nb / den;
    assert SegUb(p2, p1, q1, q2) == nb' / (-den);
    assert na - na' == den;
    assert nb' == -nb;
    QuotientShift(na, na', den);
    QuotientNegate(nb, nb', den);
  }

  lemma QuotientShift(na: real, na': real, den: real)
    requires den != 0.0 && na - na' == den
    ensures na' / (-den) == 1.0 - na / den
  {
    var x, y := na' / (-den), 1.0 - na / den;
    assert x * (-den) == na';
    assert (na / den) * den == na;
    assert y * den == den - na;
    assert x * den == y * den;
    CancelFactor(x, y, den);
  }

  lemma CancelFactor(x: real, y: real, d: real)
    requires d != 0.0 && x * d == y * d
    ensures x == y
  {
    assert (x - y) * d == 0.0;
  }

  lemma QuotientNegate(nb: real, nb': real, den: real)
    requires den != 0.0 && nb' == -nb
    ensures nb' / (-den) == nb / den
  {
  }
}
