/** Geometry primitives of the Bayazit decomposer: points, circular indexing,
    the signed-area turn test and its four predicates, range copy, the two
    line-intersection routines, the shoelace area with the winding test, and
    collinear-vertex removal. Coordinates are exact reals. */
module Geometry {

  /** A 2D point; equality is exact, as the decomposer's `operator ==`. */
  datatype Point = Point(x: real, y: real)

  /** A polygon is an implicitly closed sequence of points. */
  type Polygon = seq<Point>

  const Epsilon: real := 0.0001
  const Origin: Point := Point(0.0, 0.0)

  function Add(a: Point, b: Point): Point {
    Point(a.x + b.x, a.y + b.y)
  }

  /** `(a + b) / 2`, the only use of the point-by-scalar division. */
  function Midpoint(a: Point, b: Point): (m: Point)
    ensures Add(m, m) == Add(a, b)
  {
    Point((a.x + b.x) / 2.0, (a.y + b.y) / 2.0)
  }

  // ---------------------------------------------------------------------------
  // Circular indexing

  /** The index the C++ expression `i < 0 ? s - (-i % s) : i % s` computes,
      with C++'s truncating `%` (both operands are non-negative here, so
      Dafny's `%` agrees). It may equal `s`, which is out of range. */
  function RawIndex(i: int, s: int): int
    requires s > 0
  {
    if i < 0 then s - ((-i) % s) else i % s
  }

  /** `At(i)` reads inside the polygon exactly when this holds. */
  predicate Indexable(i: int, s: int) {
    s > 0 && (i >= 0 || (-i) % s != 0)
  }

  lemma {:induction false} RawIndexInRange(i: int, s: int)
    requires s > 0
    ensures 0 <= RawIndex(i, s) <= s
    ensures RawIndex(i, s) < s <==> Indexable(i, s)
  {
  }

  function AtIndex(i: int, s: int): (k: int)
    requires Indexable(i, s)
    ensures 0 <= k < s
  {
    RawIndex(i, s)
  }

  /** The vertex at circular position `i`: Euclidean modular indexing. */
  function At(i: int, v: Polygon): Point
    requires Indexable(i, |v|)
  {
    v[AtIndex(i, |v|)]
  }

  lemma AtIndexModular(i: int, s: int)
    requires Indexable(i, s)
    ensures AtIndex(i, s) == i % s
  {
    if i < 0 {
      var m := -i;
      var q := m / s;
      var r := m % s;
      assert m == q * s + r && 0 < r < s;
      assert i == (-q - 1) * s + (s - r);
      ModUnique(i, s, -q - 1, s - r);
    }
  }

  /** Wherever it is defined, `At` is plain (Euclidean) modular indexing;
      it is defined for every `i > -|v|`, and `i = -|v|` falls outside. */
  lemma AtIsModular(i: int, v: Polygon)
    requires |v| > 0
    ensures i > -|v| ==> Indexable(i, |v|)
    ensures Indexable(i, |v|) ==> At(i, v) == v[i % |v|]
    ensures i >= 0 ==> At(i, v) == v[i % |v|]
    ensures -|v| < i < 0 ==> At(i, v) == v[|v| + i]
    ensures RawIndex(-|v|, |v|) == |v|
  {
    var s := |v|;
    if Indexable(i, s) {
      AtIndexModular(i, s);
    }
    if -s < i < 0 {
      assert (-i) % s == -i;
    }
  }

  /** Euclidean remainder is unique: `q * s + r` with `0 <= r < s` leaves `r`. */
  lemma ModUnique(i: int, s: int, q: int, r: int)
    requires s > 0 && 0 <= r < s && i == q * s + r
    ensures i % s == r
  {
    var d := q - i / s;
    assert i == (i / s) * s + i % s;
    assert d * s == q * s - (i / s) * s;
    MulZero(d, s);
  }

  lemma MulZero(d: int, s: int)
    requires s > 0 && -s < d * s < s
    ensures d == 0
  {
    MulOutside(d, s);
  }

  lemma MulOutside(d: int, s: int)
    requires s > 0
    ensures d >= 1 ==> d * s >= s
    ensures d <= -1 ==> d * s <= -s
  {
    if d >= 1 {
      assert d * s == (d - 1) * s + s;
    } else if d <= -1 {
      assert d * s == -((-d - 1) * s) - s;
    }
  }

  // ---------------------------------------------------------------------------
  // Turn predicates

  /** Twice the signed area of triangle abc: positive when c lies left of ab. */
  function Area(a: Point, b: Point, c: Point): real {
    a.x * (b.y - c.y) + b.x * (c.y - a.y) + c.x * (a.y - b.y)
  }

  /** The cross-product form left in the source comment. */
  function Cross(a: Point, b: Point, c: Point): real {
    (b.x - a.x) * (c.y - a.y) - (c.x - a.x) * (b.y - a.y)
  }

  predicate Left(a: Point, b: Point, c: Point) { Area(a, b, c) > 0.0 }
  predicate LeftOn(a: Point, b: Point, c: Point) { Area(a, b, c) >= 0.0 }
  predicate Right(a: Point, b: Point, c: Point) { Area(a, b, c) < 0.0 }
  predicate RightOn(a: Point, b: Point, c: Point) { Area(a, b, c) <= 0.0 }

  /** The area formula agrees with the cross-product formula; it changes sign
      when two points swap and is invariant under rotation of its arguments. */
  lemma AreaProperties(a: Point, b: Point, c: Point)
    ensures Area(a, b, c) == Cross(a, b, c)
    ensures Area(a, c, b) == -Area(a, b, c)
    ensures Area(b, c, a) == Area(a, b, c)
    ensures Area(a, b, a) == 0.0 && Area(a, a, c) == 0.0
  {
  }

  /** The four turn predicates are the sign tests on `Area`, so each strict
      predicate is the negation of the opposite non-strict one. */
  lemma TurnPredicateDuality(a: Point, b: Point, c: Point)
    ensures Right(a, b, c) <==> !LeftOn(a, b, c)
    ensures Left(a, b, c) <==> !RightOn(a, b, c)
    ensures LeftOn(a, b, c) && RightOn(a, b, c) <==> Area(a, b, c) == 0.0
    ensures Left(a, b, c) <==> Right(a, c, b)
  {
  }

  predicate NeighboursIndexable(i: int, v: Polygon) {
    Indexable(i - 1, |v|) && Indexable(i, |v|) && Indexable(i + 1, |v|)
  }

  /** Vertex `i` turns clockwise; the source's `Right(i, vertices)`. */
  predicate Reflex(i: int, v: Polygon)
    requires NeighboursIndexable(i, v)
  {
    Right(At(i - 1, v), At(i, v), At(i + 1, v))
  }

  /** A vertex is reflex exactly when the triangle of its two neighbours
      and itself winds clockwise: negative signed area, so not
      counter-clockwise and not degenerate. */
  lemma ReflexTurnsClockwise(i: int, v: Polygon)
    requires NeighboursIndexable(i, v)
    ensures var t := [At(i - 1, v), At(i, v), At(i + 1, v)];
            (Reflex(i, v) <==> SignedArea(t) < 0.0)
            && (Reflex(i, v) ==> !IsCounterClockWise(t))
  {
  }

  /** Every vertex of a polygon of at least two points has readable neighbours. */
  lemma {:induction false} NeighboursIndexableFrom(i: int, v: Polygon)
    requires |v| >= 2 && i >= 0
    ensures NeighboursIndexable(i, v)
  {
    if i == 0 {
      ModUnique(1, |v|, 0, 1);
    }
  }

  function SquareDist(a: Point, b: Point): (d: real)
    ensures d >= 0.0
  {
    var dx := b.x - a.x;
    var dy := b.y - a.y;
    SquaresZero(dx, dy);
    dx * dx + dy * dy
  }

  lemma SquaresZero(dx: real, dy: real)
    ensures dx * dx + dy * dy >= 0.0
  {
    SquareSign(dx);
    SquareSign(dy);
  }

  lemma SquareSign(t: real)
    ensures t * t >= 0.0
  {
  }

  // ---------------------------------------------------------------------------
  // Range copy

  /** The end index `Copy` walks to: `j` plus the fewest multiples of `n`
      that bring it up to `i`. */
  function CopyEnd(i: int, j: int, n: int): (e: int)
    requires n > 0
    ensures e >= i && e >= j
    ensures (e - j) % n == 0
    ensures j >= i ==> e == j
    ensures j < i ==> e - n < i
    decreases i - j
  {
    if j < i then
      var e := CopyEnd(i, j + n, n);
      var q := (e - (j + n)) / n;
      assert e - (j + n) == q * n;
      assert e - j == (q + 1) * n;
      ModUnique(e - j, n, q + 1, 0);
      e
    else
      ModUnique(0, n, 0, 0);
      j
  }

  /** `Copy(i, j, vertices, to)`: the points `At(i), At(i+1), ..., At(e)`,
      with `e = CopyEnd(i, j, |v|)`. The source clears `to` first, so the
      result does not depend on what `to` held. */
  function Copy(i: int, j: int, v: Polygon): (r: Polygon)
    requires |v| > 0 && i >= 0
    ensures |r| == CopyEnd(i, j, |v|) - i + 1
    ensures forall k :: 0 <= k < |r| ==> r[k] == v[(i + k) % |v|]
  {
    var e := CopyEnd(i, j, |v|);
    seq(e - i + 1, k requires 0 <= k < e - i + 1 => v[(i + k) % |v|])
  }

  /** For in-range indices, `Copy` takes `j - i + 1` points when `j >= i` and
      wraps around once otherwise; it starts at `v[i]` and ends at `v[j]`. */
  lemma CopyInRange(i: int, j: int, v: Polygon)
    requires 0 <= i < |v| && 0 <= j < |v|
    ensures |Copy(i, j, v)| == if j >= i then j - i + 1 else j + |v| - i + 1
    ensures Copy(i, j, v)[0] == v[i]
    ensures Copy(i, j, v)[|Copy(i, j, v)| - 1] == v[j]
  {
    var n := |v|;
    var e := CopyEnd(i, j, n);
    ModUnique(i, n, 0, i);
    if j < i {
      var q := (e - j) / n;
      assert e - j == q * n;
      assert (q - 1) * n == q * n - n;
      MulZero(q - 1, n);
      assert e == j + n;
      ModUnique(i + (e - i), n, 1, j);
    } else {
      ModUnique(j, n, 0, j);
    }
  }

  // ---------------------------------------------------------------------------
  // Line intersection

  predicate FloatEquals(a: real, b: real) {
    -Epsilon <= a - b <= Epsilon
  }

  /** The implicit-line coefficients of line pq: a*x + b*y == c on the line. */
  function LineA(p: Point, q: Point): real { q.y - p.y }
  function LineB(p: Point, q: Point): real { p.x - q.x }
  function LineC(p: Point, q: Point): real { LineA(p, q) * p.x + LineB(p, q) * p.y }

  predicate OnLine(p: Point, q: Point, r: Point) {
    LineA(p, q) * r.x + LineB(p, q) * r.y == LineC(p, q)
  }

  function LineDet(p1: Point, p2: Point, q1: Point, q2: Point): real {
    LineA(p1, p2) * LineB(q1, q2) - LineA(q1, q2) * LineB(p1, p2)
  }

  /** Cramer's-rule solution of the two line equations (defined when the
      determinant is non-zero). */
  function CramerPoint(p1: Point, p2: Point, q1: Point, q2: Point): Point
    requires LineDet(p1, p2, q1, q2) != 0.0
  {
    var det := LineDet(p1, p2, q1, q2);
    Point((LineB(q1, q2) * LineC(p1, p2) - LineB(p1, p2) * LineC(q1, q2)) / det,
          (LineA(p1, p2) * LineC(q1, q2) - LineA(q1, q2) * LineC(p1, p2)) / det)
  }

  /** Intersection point of the infinite lines p1p2 and q1q2 (Cramer's rule);
      the origin when the determinant is within `Epsilon` of zero. */
  function LineIntersect(p1: Point, p2: Point, q1: Point, q2: Point): (r: Point)
    ensures FloatEquals(LineDet(p1, p2, q1, q2), 0.0) ==> r == Origin
    ensures !FloatEquals(LineDet(p1, p2, q1, q2), 0.0) ==> OnLine(p1, p2, r) && OnLine(q1, q2, r)
  {
    if !FloatEquals(LineDet(p1, p2, q1, q2), 0.0) then
      CramerSolves(p1, p2, q1, q2);
      CramerPoint(p1, p2, q1, q2)
    else
      Origin
  }

  lemma CramerSolves(p1: Point, p2: Point, q1: Point, q2: Point)
    requires LineDet(p1, p2, q1, q2) != 0.0
    ensures OnLine(p1, p2, CramerPoint(p1, p2, q1, q2)) && OnLine(q1, q2, CramerPoint(p1, p2, q1, q2))
  {
    var a1, b1, c1 := LineA(p1, p2), LineB(p1, p2), LineC(p1, p2);
    var a2, b2, c2 := LineA(q1, q2), LineB(q1, q2), LineC(q1, q2);
    var det := LineDet(p1, p2, q1, q2);
    var r := CramerPoint(p1, p2, q1, q2);
    CramerAlgebra(a1, b1, c1, a2, b2, c2, det, r.x, r.y);
  }

  lemma CramerAlgebra(a1: real, b1: real, c1: real, a2: real, b2: real, c2: real, det: real, x: real, y: real)
    requires det == a1 * b2 - a2 * b1 && det != 0.0
    requires x == (b2 * c1 - b1 * c2) / det && y == (a1 * c2 - a2 * c1) / det
    ensures a1 * x + b1 * y == c1 && a2 * x + b2 * y == c2
  {
    assert x * det == b2 * c1 - b1 * c2;
    assert y * det == a1 * c2 - a2 * c1;
    assert (a1 * x + b1 * y) * det == a1 * (x * det) + b1 * (y * det);
    assert (a2 * x + b2 * y) * det == a2 * (x * det) + b2 * (y * det);
  }

  /** The denominator and the two parameters of the segment form. */
  function SegDenom(p1: Point, p2: Point, p3: Point, p4: Point): real {
    (p4.y - p3.y) * (p2.x - p1.x) - (p4.x - p3.x) * (p2.y - p1.y)
  }

  function SegUa(p1: Point, p2: Point, p3: Point, p4: Point): real
    requires SegDenom(p1, p2, p3, p4) != 0.0
  {
    ((p4.x - p3.x) * (p1.y - p3.y) - (p4.y - p3.y) * (p1.x - p3.x)) / SegDenom(p1, p2, p3, p4)
  }

  function SegUb(p1: Point, p2: Point, p3: Point, p4: Point): real
    requires SegDenom(p1, p2, p3, p4) != 0.0
  {
    ((p2.x - p1.x) * (p1.y - p3.y) - (p2.y - p1.y) * (p1.x - p3.x)) / SegDenom(p1, p2, p3, p4)
  }

  /** The point at parameter `t` along segment ab. */
  function Lerp(a: Point, b: Point, t: real): Point {
    Point(a.x + t * (b.x - a.x), a.y + t * (b.y - a.y))
  }

  /** The answer of the segment form: whether the lines meet (within the
      requested segment bounds) and the point, which is the origin on a miss. */
  datatype Hit = Hit(found: bool, point: Point)

  predicate SegmentParamsAccepted(p1: Point, p2: Point, p3: Point, p4: Point,
                                  firstIsSegment: bool, secondIsSegment: bool)
    requires SegDenom(p1, p2, p3, p4) != 0.0
  {
    var ua := SegUa(p1, p2, p3, p4);
    var ub := SegUb(p1, p2, p3, p4);
    (!firstIsSegment || 0.0 <= ua <= 1.0)
    && (!secondIsSegment || 0.0 <= ub <= 1.0)
    && (ua != 0.0 || ub != 0.0)
  }

  /** Segment (or line) intersection of p1p2 with p3p4. A hit lies on both
      lines at the computed parameters; near-parallel lines, parameters out of
      [0, 1] on a segment, and the doubly-degenerate `ua == ub == 0` all miss. */
  function SegmentIntersect(p1: Point, p2: Point, p3: Point, p4: Point,
                            firstIsSegment: bool, secondIsSegment: bool): (r: Hit)
    ensures !r.found ==> r.point == Origin
    ensures FloatEquals(SegDenom(p1, p2, p3, p4), 0.0) ==> !r.found
    ensures !FloatEquals(SegDenom(p1, p2, p3, p4), 0.0) ==>
              (r.found <==> SegmentParamsAccepted(p1, p2, p3, p4, firstIsSegment, secondIsSegment))
    ensures r.found ==> SegDenom(p1, p2, p3, p4) != 0.0
                        && r.point == Lerp(p1, p2, SegUa(p1, p2, p3, p4))
                        && r.point == Lerp(p3, p4, SegUb(p1, p2, p3, p4))
  {
    var denom := SegDenom(p1, p2, p3, p4);
    // The source scales both numerators by `1.0 / denom`; over the reals
    // that is exactly `SegUa` and `SegUb`.
    if !(denom >= -Epsilon && denom <= Epsilon) then
      var ua := SegUa(p1, p2, p3, p4);
      if !firstIsSegment || (ua >= 0.0 && ua <= 1.0) then
        var ub := SegUb(p1, p2, p3, p4);
        if !secondIsSegment || (ub >= 0.0 && ub <= 1.0) then
          if ua != 0.0 || ub != 0.0 then
            SegmentPointOnBoth(p1, p2, p3, p4);
            Hit(true, Point(p1.x + ua * (p2.x - p1.x), p1.y + ua * (p2.y - p1.y)))
          else Hit(false, Origin)
        else Hit(false, Origin)
      else Hit(false, Origin)
    else Hit(false, Origin)
  }

  /** The point at `ua` along the first segment is the point at `ub` along the
      second: both parameters name the same intersection point. */
  lemma SegmentPointOnBoth(p1: Point, p2: Point, p3: Point, p4: Point)
    requires SegDenom(p1, p2, p3, p4) != 0.0
    ensures Lerp(p1, p2, SegUa(p1, p2, p3, p4)) == Lerp(p3, p4, SegUb(p1, p2, p3, p4))
  {
    var a := p4.y - p3.y;
    var b := p2.x - p1.x;
    var c := p4.x - p3.x;
    var d := p2.y - p1.y;
    var e := p1.y - p3.y;
    var f := p1.x - p3.x;
    var den := SegDenom(p1, p2, p3, p4);
    DivByReciprocal(c * e - a * f, den);
    DivByReciprocal(b * e - d * f, den);
    var ua := SegUa(p1, p2, p3, p4);
    var ub := SegUb(p1, p2, p3, p4);
    SegAlgebra(a, b, c, d, e, f, den, ua, ub);
    assert p1.x + ua * b == p3.x + ub * c;
    assert p1.y + ua * d == p3.y + ub * a;
    assert Lerp(p1, p2, ua) == Point(p1.x + ua * b, p1.y + ua * d);
    assert Lerp(p3, p4, ub) == Point(p3.x + ub * c, p3.y + ub * a);
  }

  lemma DivByReciprocal(x: real, den: real)
    requires den != 0.0
    ensures (x / den) * den == x
  {
  }

  lemma SegAlgebra(a: real, b: real, c: real, d: real, e: real, f: real, den: real, ua: real, ub: real)
    requires den == a * b - c * d && den != 0.0
    requires ua * den == c * e - a * f
    requires ub * den == b * e - d * f
    ensures f + ua * b - ub * c == 0.0
    ensures e + ua * d - ub * a == 0.0
  {
    assert (f + ua * b - ub * c) * den == f * den + (ua * den) * b - (ub * den) * c;
    assert (e + ua * d - ub * a) * den == e * den + (ua * den) * d - (ub * den) * a;
  }

  // ---------------------------------------------------------------------------
  // Signed area and winding

  /** Twice-area term of the edge from a to b. */
  function EdgeTerm(a: Point, b: Point): real {
    a.x * b.y - a.y * b.x
  }

  /** Sum of `EdgeTerm` over the open chain v[0] -> v[1] -> ... -> v[|v|-1]. */
  function ChainSum(v: Polygon): real
    decreases |v|
  {
    if |v| < 2 then 0.0 else EdgeTerm(v[0], v[1]) + ChainSum(v[1..])
  }

  /** Half the shoelace sum over the closed polygon; 0 below three points.
      For a triangle it is half the turn `Area`. */
  function SignedArea(v: Polygon): (a: real)
    ensures |v| == 3 ==> a == 0.5 * Area(v[0], v[1], v[2])
  {
    if |v| < 3 then 0.0
    else
      ChainSumTriangle(v);
      0.5 * (ChainSum(v) + EdgeTerm(v[|v| - 1], v[0]))
  }

  lemma ChainSumTriangle(v: Polygon)
    ensures |v| == 3 ==> ChainSum(v) == EdgeTerm(v[0], v[1]) + EdgeTerm(v[1], v[2])
  {
    if |v| == 3 {
      assert v[1..][1..] == [v[2]];
      assert ChainSum(v[1..][1..]) == 0.0;
    }
  }

  /** `IsCounterClockWise`: a triangle is counter-clockwise exactly when it
      turns left. */
  predicate IsCounterClockWise(v: Polygon): (r: bool)
    ensures |v| == 3 ==> (r <==> Left(v[0], v[1], v[2]))
  {
    |v| < 3 || SignedArea(v) > 0.0
  }

  /** The shoelace loop of `GetSignedArea`, edge by edge in index order. */
  method ComputeSignedArea(v: Polygon) returns (area: real)
    ensures area == SignedArea(v)
  {
    if |v| < 3 {
      return 0.0;
    }
    var sum := 0.0;
    var i := 0;
    while i < |v|
      invariant 0 <= i <= |v|
      invariant i < |v| ==> sum == ChainSum(v[..i + 1])
      invariant i == |v| ==> sum == ChainSum(v) + EdgeTerm(v[|v| - 1], v[0])
    {
      var p1 := v[i];
      var p2 := if i != |v| - 1 then v[i + 1] else v[0];
      if i != |v| - 1 {
        ChainSumSnoc(v[..i + 1], v[i + 1]);
        assert v[..i + 1] + [v[i + 1]] == v[..i + 2];
      } else {
        assert v[..i + 1] == v;
      }
      sum := sum + (p1.x * p2.y - p1.y * p2.x);
      i := i + 1;
    }
    area := 0.5 * sum;
  }

  lemma {:induction false} ChainSumSnoc(v: Polygon, p: Point)
    requires |v| >= 1
    ensures ChainSum(v + [p]) == ChainSum(v) + EdgeTerm(v[|v| - 1], p)
    decreases |v|
  {
    if |v| == 1 {
      assert (v + [p])[1..] == [p];
    } else {
      assert (v + [p])[1..] == v[1..] + [p];
      ChainSumSnoc(v[1..], p);
    }
  }

  /** `std::reverse` of the vertex order. */
  function Reverse(v: Polygon): (r: Polygon)
    ensures |r| == |v|
  {
    if |v| == 0 then [] else Reverse(v[1..]) + [v[0]]
  }

  /** Reversal reads the polygon from the back. */
  lemma {:induction false} ReverseIndex(v: Polygon)
    ensures forall k :: 0 <= k < |v| ==> Reverse(v)[k] == v[|v| - 1 - k]
    decreases |v|
  {
    if |v| > 0 {
      ReverseIndex(v[1..]);
    }
  }

  lemma {:induction false} ChainSumReverse(v: Polygon)
    ensures ChainSum(Reverse(v)) == -ChainSum(v)
    decreases |v|
  {
    if |v| >= 2 {
      var t := v[1..];
      ChainSumReverse(t);
      assert Reverse(v) == Reverse(t) + [v[0]];
      ChainSumSnoc(Reverse(t), v[0]);
    }
  }

  /** Reversing a polygon negates its signed area. */
  lemma SignedAreaReverse(v: Polygon)
    ensures SignedArea(Reverse(v)) == -SignedArea(v)
  {
    ChainSumReverse(v);
    ReverseIndex(v);
  }

  /** Reversal flips the winding of a polygon with non-zero area. */
  lemma ReversalFlipsWinding(v: Polygon)
    requires |v| >= 3 && SignedArea(v) != 0.0
    ensures IsCounterClockWise(v) <==> !IsCounterClockWise(Reverse(v))
  {
    SignedAreaReverse(v);
  }

  /** The winding normalisation at the top of `ConvexPartition`. */
  function Normalise(v: Polygon): (w: Polygon)
    ensures |w| == |v|
    ensures |v| >= 3 ==> SignedArea(w) >= 0.0
    ensures IsCounterClockWise(v) ==> w == v
    ensures !IsCounterClockWise(v) ==> w == Reverse(v)
  {
    if IsCounterClockWise(v) then v
    else
      SignedAreaReverse(v);
      Reverse(v)
  }

  // ---------------------------------------------------------------------------
  // Collinear simplification

  predicate IsCollinear(a: Point, b: Point, c: Point, tolerance: real) {
    -tolerance <= Area(a, b, c) <= tolerance
  }

  function PrevIndex(i: int, n: int): int { if i == 0 then n - 1 else i - 1 }
  function NextIndex(i: int, n: int): int { if i + 1 >= n then 0 else i + 1 }

  /** Vertex `i` survives simplification: its turn with its cyclic
      neighbours lies outside [-tolerance, tolerance]. */
  predicate Kept(v: Polygon, tolerance: real, i: int)
    requires 0 <= i < |v|
  {
    !IsCollinear(v[PrevIndex(i, |v|)], v[i], v[NextIndex(i, |v|)], tolerance)
  }

  /** The indices, from `from` on, of the vertices that survive, in order. */
  function KeptIndices(v: Polygon, tolerance: real, from: nat): (r: seq<nat>)
    requires from <= |v|
    ensures forall k :: 0 <= k < |r| ==> from <= r[k] < |v| && Kept(v, tolerance, r[k])
    ensures forall k, l :: 0 <= k < l < |r| ==> r[k] < r[l]
    ensures forall i :: from <= i < |v| && Kept(v, tolerance, i) ==> i in r
    decreases |v| - from
  {
    if from == |v| then []
    else if Kept(v, tolerance, from) then [from] + KeptIndices(v, tolerance, from + 1)
    else KeptIndices(v, tolerance, from + 1)
  }

  /** Polygons under three points are returned unchanged; otherwise exactly
      the surviving vertices (those listed by `KeptIndices`), in order. */
  function CollinearSimplify(v: Polygon, tolerance: real): (r: Polygon)
    ensures |r| <= |v|
    ensures |v| < 3 ==> r == v
    ensures |v| >= 3 ==> |r| == |KeptIndices(v, tolerance, 0)|
    ensures |v| >= 3 ==> forall k :: 0 <= k < |r| ==> r[k] == v[KeptIndices(v, tolerance, 0)[k]]
  {
    if |v| < 3 then v
    else
      var idx := KeptIndices(v, tolerance, 0);
      IncreasingBounded(idx, |v|);
      seq(|idx|, k requires 0 <= k < |idx| => v[idx[k]])
  }

  /** A strictly increasing sequence of indices below `n` has at most `n` items. */
  lemma {:induction false} IncreasingBounded(idx: seq<nat>, n: nat)
    requires forall k :: 0 <= k < |idx| ==> idx[k] < n
    requires forall k, l :: 0 <= k < l < |idx| ==> idx[k] < idx[l]
    ensures |idx| <= n
    decreases n
  {
    if |idx| > 0 {
      var last := idx[|idx| - 1];
      IncreasingBounded(idx[..|idx| - 1], last);
    }
  }

  /** With every vertex kept simplification is the identity; with none kept
      (and three or more vertices) it is empty. */
  lemma CollinearSimplifyExtremes(v: Polygon, tolerance: real)
    ensures (forall i :: 0 <= i < |v| ==> Kept(v, tolerance, i)) ==> CollinearSimplify(v, tolerance) == v
    ensures |v| >= 3 && (forall i :: 0 <= i < |v| ==> !Kept(v, tolerance, i)) ==> CollinearSimplify(v, tolerance) == []
  {
    if |v| >= 3 {
      if forall i :: 0 <= i < |v| ==> Kept(v, tolerance, i) {
        AllKeptSimplify(v, tolerance);
      }
      NoneKeptSimplify(v, tolerance);
    }
  }

  lemma AllKeptSimplify(v: Polygon, tolerance: real)
    requires |v| >= 3 && forall i :: 0 <= i < |v| ==> Kept(v, tolerance, i)
    ensures CollinearSimplify(v, tolerance) == v
  {
    var idx := KeptIndices(v, tolerance, 0);
    AllKeptIsIdentity(v, tolerance, 0);
    var r := CollinearSimplify(v, tolerance);
    assert |r| == |v|;
    forall k | 0 <= k < |v| ensures r[k] == v[k] {
      assert idx[k] == k;
    }
  }

  lemma NoneKeptSimplify(v: Polygon, tolerance: real)
    requires |v| >= 3
    ensures (forall i :: 0 <= i < |v| ==> !Kept(v, tolerance, i)) ==> CollinearSimplify(v, tolerance) == []
  {
    var idx := KeptIndices(v, tolerance, 0);
    assert |idx| == 0 || Kept(v, tolerance, idx[0]);
  }

  lemma {:induction false} AllKeptIsIdentity(v: Polygon, tolerance: real, from: nat)
    requires from <= |v|
    requires forall i :: 0 <= i < |v| ==> Kept(v, tolerance, i)
    ensures |KeptIndices(v, tolerance, from)| == |v| - from
    ensures forall k :: 0 <= k < |v| - from ==> KeptIndices(v, tolerance, from)[k] == from + k
    decreases |v| - from
  {
    if from < |v| {
      AllKeptIsIdentity(v, tolerance, from + 1);
      KeptIndicesStep(v, tolerance, from);
    }
  }

  /** A kept vertex heads the list of kept indices from its own position. */
  lemma KeptIndicesStep(v: Polygon, tolerance: real, from: nat)
    requires from < |v| && Kept(v, tolerance, from)
    requires var rest := KeptIndices(v, tolerance, from + 1);
             |rest| == |v| - from - 1 && forall k :: 0 <= k < |rest| ==> rest[k] == from + 1 + k
    ensures var all := KeptIndices(v, tolerance, from);
            |all| == |v| - from && forall k :: 0 <= k < |all| ==> all[k] == from + k
  {
    var rest := KeptIndices(v, tolerance, from + 1);
    var all := KeptIndices(v, tolerance, from);
    assert all == [from] + rest;
  }

}
