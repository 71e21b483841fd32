/** Bayazit's convex decomposition. A polygon is first made counter-clockwise;
    at its first reflex vertex it is cut in two (towards the best visible
    vertex between the two nearest edge hits, or towards the midpoint of
    those hits when no vertex lies between them) and each half is decomposed
    again; a polygon without reflex vertices is bisected while it has more
    vertices than the limit, and what is left is cleaned of collinear points.

    The source recursion has no termination argument, so the model takes a
    `fuel` bound and answers `None` when it runs out. */
module Bayazit {
  import opened Wrappers
  import opened Geometry
  import opened Visibility

  /** The decomposer's default vertex limit, the Box2D polygon limit. */
  const DefaultMaxVertices: nat := 8

  /** `std::numeric_limits<float>::max()`, the starting distance of both scans. */
  const FloatMax: real := 340282346638528859811704183484516925440.0

  // ---------------------------------------------------------------------------
  // Finding the first reflex vertex

  /** The first reflex vertex at index `from` or later, or `|v|` when there is none. */
  function FirstReflex(v: Polygon, from: nat): (r: nat)
    requires |v| >= 2 && from <= |v|
    ensures from <= r <= |v|
    ensures r < |v| ==> Reflex(r, v)
    ensures forall k :: from <= k < r ==> !Reflex(k, v)
    decreases |v| - from
  {
    if from == |v| then |v|
    else if Reflex(from, v) then from
    else FirstReflex(v, from + 1)
  }

  // ---------------------------------------------------------------------------
  // The two nearest-hit scans at a reflex vertex

  /** The lower scan extends the incoming edge (i-1, i) forwards; the upper
      scan extends the outgoing edge (i+1, i) backwards. */
  datatype Side = Lower | Upper

  /** Edge (j-1, j) for the lower scan and (j, j+1) for the upper one is
      straddled by the extended edge at `i` on the correct side. */
  predicate Straddles(side: Side, v: Polygon, i: nat, j: nat)
    requires |v| >= 2
  {
    match side
    case Lower => Left(At(i - 1, v), At(i, v), At(j, v)) && RightOn(At(i - 1, v), At(i, v), At(j - 1, v))
    case Upper => Left(At(i + 1, v), At(i, v), At(j + 1, v)) && RightOn(At(i + 1, v), At(i, v), At(j, v))
  }

  /** The point where the extended edge at `i` meets the line of that edge. */
  function HitPoint(side: Side, v: Polygon, i: nat, j: nat): Point
    requires |v| >= 2
  {
    match side
    case Lower => LineIntersect(At(i - 1, v), At(i, v), At(j, v), At(j - 1, v))
    case Upper => LineIntersect(At(i + 1, v), At(i, v), At(j, v), At(j + 1, v))
  }

  /** Edge `j` is a candidate for the scan: it is straddled and the hit point
      lies on the inner side of the other edge at `i`. */
  predicate IsCandidate(side: Side, v: Polygon, i: nat, j: nat)
    requires |v| >= 2
  {
    Straddles(side, v, i, j)
    && match side
       case Lower => Right(At(i + 1, v), At(i, v), HitPoint(side, v, i, j))
       case Upper => Left(At(i - 1, v), At(i, v), HitPoint(side, v, i, j))
  }

  /** The running state of a scan: the closest squared distance so far, the
      index of that edge and its hit point. */
  datatype Nearest = Nearest(dist: real, index: nat, point: Point)

  /** Before any candidate: distance `FloatMax`, index 0, the origin. */
  const NoneFound: Nearest := Nearest(FloatMax, 0, Origin)

  /** The scan over `j = from, ..., |v|-1`: a candidate replaces the running
      best only when strictly closer, so among equally close candidates the
      first one wins. */
  function ScanNearest(side: Side, v: Polygon, i: nat, from: nat, best: Nearest): (r: Nearest)
    requires |v| >= 2 && from <= |v|
    ensures r.dist <= best.dist
    ensures r == best || (from <= r.index < |v| && IsCandidate(side, v, i, r.index)
                          && r.dist < best.dist
                          && r.point == HitPoint(side, v, i, r.index)
                          && r.dist == SquareDist(At(i, v), r.point))
    ensures forall j :: from <= j < |v| && IsCandidate(side, v, i, j) ==>
              r.dist <= SquareDist(At(i, v), HitPoint(side, v, i, j))
    ensures r != best ==> forall j :: from <= j < r.index && IsCandidate(side, v, i, j) ==>
              r.dist < SquareDist(At(i, v), HitPoint(side, v, i, j))
    decreases |v| - from
  {
    if from == |v| then best
    else
      var p := HitPoint(side, v, i, from);
      var d := SquareDist(At(i, v), p);
      var next := if IsCandidate(side, v, i, from) && d < best.dist then Nearest(d, from, p) else best;
      ScanNearest(side, v, i, from + 1, next)
  }

  // ---------------------------------------------------------------------------
  // Choosing the vertex to connect to

  /** The bonus class of vertex `j` seen from `i`: 3 for a reflex vertex
      whose own cone contains `i` (on or right of its incoming edge, on or
      left of its outgoing one), 2 for another reflex vertex and 1 for a
      convex one. */
  function Tier(v: Polygon, i: nat, j: nat): nat
    requires |v| >= 2
  {
    if Reflex(j, v) then
      (if RightOn(At(j - 1, v), At(j, v), At(i, v)) && LeftOn(At(j + 1, v), At(j, v), At(i, v)) then 3 else 2)
    else 1
  }

  /** The source's score of vertex `j` seen from `i`: closeness, a value in
      (0, 1], plus the bonus of its class. */
  function Score(v: Polygon, i: nat, j: nat): (s: real)
    requires |v| >= 2
    ensures 1.0 < s <= 4.0
    ensures Tier(v, i, j) as real < s <= Tier(v, i, j) as real + 1.0
  {
    var closeness := 1.0 / (SquareDist(At(i, v), At(j, v)) + 1.0);
    ClosenessRange(SquareDist(At(i, v), At(j, v)));
    closeness + Tier(v, i, j) as real
  }

  /** The class decides first: a vertex of a higher class (a reflex vertex
      over a convex one, a reflex vertex whose cone holds `i` over any
      other) scores higher whatever the distances; within a class the
      closer vertex scores higher. */
  lemma ScoreRanking(v: Polygon, i: nat, j1: nat, j2: nat)
    requires |v| >= 2
    ensures Tier(v, i, j1) > Tier(v, i, j2) ==> Score(v, i, j1) > Score(v, i, j2)
    ensures Tier(v, i, j1) == Tier(v, i, j2) ==>
              (Score(v, i, j1) > Score(v, i, j2) <==> SquareDist(At(i, v), At(j1, v)) < SquareDist(At(i, v), At(j2, v)))
  {
    var d1, d2 := SquareDist(At(i, v), At(j1, v)), SquareDist(At(i, v), At(j2, v));
    if d1 < d2 {
      ClosenessDecreasing(d1, d2);
    } else if d2 < d1 {
      ClosenessDecreasing(d2, d1);
    }
  }

  lemma ClosenessDecreasing(d1: real, d2: real)
    requires 0.0 <= d1 < d2
    ensures 1.0 / (d1 + 1.0) > 1.0 / (d2 + 1.0)
  {
    var a, b := d1 + 1.0, d2 + 1.0;
    var x, y := 1.0 / a, 1.0 / b;
    assert x * a == 1.0 && y * b == 1.0;
    assert y > 0.0;
    assert x * a == y * b;
    assert y * b > y * a;
  }

  lemma ClosenessRange(d: real)
    requires d >= 0.0
    ensures 0.0 < 1.0 / (d + 1.0) <= 1.0
  {
    assert (1.0 / (d + 1.0)) * (d + 1.0) == 1.0;
  }

  /** The running state of the best-vertex scan. */
  datatype Choice = Choice(index: nat, score: real)

  /** The scan over `j = from, ..., upTo`: among the vertices `i` can see, the
      first one with the strictly highest score. */
  function BestVisible(v: Polygon, i: nat, from: nat, upTo: int, best: Choice): (r: Choice)
    requires |v| >= 2
    ensures r.score >= best.score
    ensures r == best || (from <= r.index <= upTo && CanSee(i, r.index, v)
                          && r.score == Score(v, i, r.index) && r.score > best.score)
    ensures forall j: nat :: from <= j <= upTo && CanSee(i, j, v) ==> Score(v, i, j) <= r.score
    ensures r != best ==> forall j: nat :: from <= j < r.index && CanSee(i, j, v) ==> Score(v, i, j) < r.score
    decreases upTo - from + 1
  {
    if from > upTo then best
    else
      var next := if CanSee(i, from, v) && Score(v, i, from) > best.score then Choice(from, Score(v, i, from)) else best;
      BestVisible(v, i, from + 1, upTo, next)
  }

  // ---------------------------------------------------------------------------
  // Cutting at a reflex vertex

  /** The nearest hit of each scan at vertex `i`. */
  function LowerHit(v: Polygon, i: nat): Nearest
    requires |v| >= 2
  {
    ScanNearest(Lower, v, i, 0, NoneFound)
  }

  function UpperHit(v: Polygon, i: nat): Nearest
    requires |v| >= 2
  {
    ScanNearest(Upper, v, i, 0, NoneFound)
  }

  /** The lower hit's edge directly follows the upper hit's edge, so there is
      no vertex between them to connect to. */
  predicate NoVertexBetween(v: Polygon, i: nat)
    requires |v| >= 2
  {
    LowerHit(v, i).index == (UpperHit(v, i).index + 1) % |v|
  }

  /** The vertex the cut goes to otherwise: the best visible one from the
      lower hit's index up to the upper hit's index (lifted by multiples of
      `|v|` until it is not below the lower one); the lower hit's index when
      none is visible. */
  function ChosenVertex(v: Polygon, i: nat): (b: nat)
    requires |v| >= 2
    ensures var lo := LowerHit(v, i).index;
            var hi := CopyEnd(lo, UpperHit(v, i).index, |v|);
            (b == lo || (lo <= b <= hi && CanSee(i, b, v)))
            && (forall j: nat :: lo <= j <= hi && CanSee(i, j, v) ==> CanSee(i, b, v) && Score(v, i, j) <= Score(v, i, b))
            && (forall j: nat :: lo <= j < b && CanSee(i, j, v) ==> Score(v, i, j) < Score(v, i, b))
  {
    var lo := LowerHit(v, i).index;
    BestVisible(v, i, lo, CopyEnd(lo, UpperHit(v, i).index, |v|), Choice(lo, 0.0)).index
  }

  /** The two pieces the polygon is cut into at reflex vertex `i`, in the
      source's order (lower, upper). */
  function SplitAtReflex(v: Polygon, i: nat): (r: (Polygon, Polygon))
    requires |v| >= 3 && i < |v|
    ensures |r.0| >= 1 && |r.1| >= 1 && r.0[0] == v[i] && v[i] in r.1
  {
    if NoVertexBetween(v, i) then
      var p := Midpoint(LowerHit(v, i).point, UpperHit(v, i).point);
      CopyDiagonal(v, i, UpperHit(v, i).index);
      CopyDiagonal(v, i, LowerHit(v, i).index);
      var upper := Copy(LowerHit(v, i).index, i, v);
      assert (upper + [p])[|upper| - 1] == v[i];
      (Copy(i, UpperHit(v, i).index, v) + [p], upper + [p])
    else
      var b := ChosenVertex(v, i);
      CopyDiagonal(v, i, b);
      (Copy(i, b, v), Copy(b, i, v))
  }

  /** Each piece of a cut starts at the cut's end points. When there is a
      vertex between the two nearest hits, the lower piece runs from `i` to
      the chosen vertex and the upper piece runs back from it to `i`. */
  lemma SplitAtReflexDiagonal(v: Polygon, i: nat)
    requires |v| >= 3 && i < |v| && !NoVertexBetween(v, i)
    ensures var lower, upper := SplitAtReflex(v, i).0, SplitAtReflex(v, i).1;
            |lower| >= 1 && |upper| >= 1 && lower[0] == v[i]
            && upper[|upper| - 1] == v[i] && lower[|lower| - 1] == upper[0]
  {
    var b := ChosenVertex(v, i);
    assert SplitAtReflex(v, i) == (Copy(i, b, v), Copy(b, i, v));
    CopyDiagonal(v, i, b);
  }

  /** The two copies along a diagonal from `i` to `b`: they share their end
      points, `v[i]` and `v[b % |v|]`. */
  lemma CopyDiagonal(v: Polygon, i: nat, b: nat)
    requires 0 <= i < |v|
    ensures |Copy(i, b, v)| >= 1 && |Copy(b, i, v)| >= 1
    ensures Copy(i, b, v)[0] == v[i] && Copy(b, i, v)[|Copy(b, i, v)| - 1] == v[i]
    ensures Copy(i, b, v)[|Copy(i, b, v)| - 1] == Copy(b, i, v)[0]
  {
    var n := |v|;
    ModUnique(i, n, 0, i);
    var lower := Copy(i, b, v);
    var upper := Copy(b, i, v);
    var e1 := CopyEnd(i, b, n);
    var e2 := CopyEnd(b, i, n);
    assert lower[|lower| - 1] == v[e1 % n];
    assert upper[|upper| - 1] == v[e2 % n];
    CopyEndCongruent(i, b, n);
    CopyEndCongruent(b, i, n);
  }

  /** When no vertex lies between the two nearest hits, both pieces are
      closed by the midpoint of the hits (a Steiner point): the lower piece
      runs from `i` to the upper hit's edge, the upper one from the lower
      hit's edge back to `i`. */
  lemma SplitAtReflexMidpoint(v: Polygon, i: nat)
    requires |v| >= 3 && i < |v|
    requires NoVertexBetween(v, i)
    ensures var lower, upper := SplitAtReflex(v, i).0, SplitAtReflex(v, i).1;
            var ln, un := LowerHit(v, i), UpperHit(v, i);
            |lower| >= 2 && |upper| >= 2 && lower[0] == v[i] && upper[|upper| - 2] == v[i]
            && lower[|lower| - 1] == upper[|upper| - 1] == Midpoint(ln.point, un.point)
            && lower[|lower| - 2] == v[un.index] && upper[0] == v[ln.index]
  {
    var ln, un := LowerHit(v, i), UpperHit(v, i);
    CopyInRange(i, un.index, v);
    CopyInRange(ln.index, i, v);
  }

  /** `CopyEnd(i, j, n)` is congruent to `j`. */
  lemma CopyEndCongruent(i: int, j: int, n: int)
    requires n > 0
    ensures CopyEnd(i, j, n) % n == j % n
  {
    var e := CopyEnd(i, j, n);
    var q := (e - j) / n;
    assert e - j == q * n;
    ModUnique(e, n, q + j / n, j % n);
  }

  // ---------------------------------------------------------------------------
  // The decomposition

  /** Collinear simplification (tolerance 0) of every piece. */
  function SimplifyEach(list: seq<Polygon>): (r: seq<Polygon>)
    ensures |r| == |list|
    ensures forall k :: 0 <= k < |r| ==> r[k] == CollinearSimplify(list[k], 0.0) && |r[k]| <= |list[k]|
  {
    seq(|list|, k requires 0 <= k < |list| => CollinearSimplify(list[k], 0.0))
  }

  /** Both lists in order, or `None` when either decomposition ran out of fuel. */
  function Join(first: Option<seq<Polygon>>, second: Option<seq<Polygon>>): (r: Option<seq<Polygon>>)
    ensures r.Some? <==> first.Some? && second.Some?
    ensures r.Some? ==> r.value == first.value + second.value
  {
    if first.Some? && second.Some? then Some(first.value + second.value) else None
  }

  /** What `ConvexPartition` does with a counter-clockwise polygon of three
      or more vertices: cut it at its first reflex vertex (the smaller piece
      listed first, the upper one on equal sizes), bisect it when it has no
      reflex vertex but too many vertices, or keep it. */
  datatype Step = Cut(first: Polygon, second: Polygon) | Bisect(lower: Polygon, upper: Polygon) | Keep(piece: Polygon)

  /** The cut into the lower and upper pieces, the smaller one first and
      the upper one first on equal sizes. */
  function SmallerFirst(lower: Polygon, upper: Polygon): (s: Step)
    ensures s.Cut? && |s.first| <= |s.second|
    ensures (s.first, s.second) == (lower, upper) || (s.first, s.second) == (upper, lower)
    ensures |lower| == |upper| ==> s.first == upper
  {
    if |lower| < |upper| then Cut(lower, upper) else Cut(upper, lower)
  }

  function NextStep(w: Polygon, maxVertices: nat): (s: Step)
    requires |w| >= 3
    ensures s.Cut? <==> exists k :: 0 <= k < |w| && Reflex(k, w)
    ensures s.Bisect? ==> |w| > maxVertices
    ensures s.Keep? ==> s.piece == w && |w| <= maxVertices
    ensures !s.Cut? ==> forall k :: 0 <= k < |w| ==> !Reflex(k, w)
  {
    var i := FirstReflex(w, 0);
    if i < |w| then
      var halves := SplitAtReflex(w, i);
      SmallerFirst(halves.0, halves.1)
    else if |w| > maxVertices then
      Bisect(Copy(0, |w| / 2, w), Copy(|w| / 2, 0, w))
    else
      Keep(w)
  }

  /** The step `ConvexPartition` takes on a polygon of three or more
      vertices, after making it counter-clockwise. */
  function PlanStep(maxVertices: nat): Polygon -> Step {
    v => if |v| >= 3 then NextStep(Normalise(v), maxVertices) else Keep(v)
  }

  /** The recursion of `ConvexPartition` for a given way of taking one step:
      below three vertices there are no pieces; a cut lists the pieces of
      both parts as they come back; a bisection's pieces and a kept polygon
      are cleaned of collinear vertices. */
  function Partition(step: Polygon -> Step, vertices: Polygon, fuel: nat): Option<seq<Polygon>>
    decreases fuel
  {
    if |vertices| < 3 then Some([])
    else if fuel == 0 then None
    else
      match step(vertices)
      case Cut(first, second) =>
        Join(Partition(step, first, fuel - 1), Partition(step, second, fuel - 1))
      case Bisect(lower, upper) =>
        var both := Join(Partition(step, lower, fuel - 1), Partition(step, upper, fuel - 1));
        if both.Some? then Some(SimplifyEach(both.value)) else None
      case Keep(w) =>
        Some([CollinearSimplify(w, 0.0)])
  }

  /** `ConvexPartition(vertices)` with vertex limit `maxVertices`, as written:
      the source's final loop meant to drop empty pieces erases the empty
      range `[pt, pt)`, so it removes nothing and is not modelled. */
  function ConvexPartition(vertices: Polygon, maxVertices: nat, fuel: nat): (r: Option<seq<Polygon>>)
    ensures |vertices| < 3 ==> r == Some([])
    ensures r.Some? ==> AllWithin(r.value, maxVertices) && AllConvex(r.value, maxVertices)
  {
    PlanStepKeepsConvex(maxVertices);
    PartitionWithin(PlanStep(maxVertices), maxVertices, vertices, fuel);
    PartitionConvex(PlanStep(maxVertices), maxVertices, vertices, fuel);
    Partition(PlanStep(maxVertices), vertices, fuel)
  }

  /** A polygon kept by the planned step has three to `maxVertices`
      vertices and no reflex vertex. */
  lemma PlanStepKeepsConvex(maxVertices: nat)
    ensures KeepsConvex(PlanStep(maxVertices), maxVertices)
  {
    var step := PlanStep(maxVertices);
    forall v: Polygon | |v| >= 3 && step(v).Keep?
      ensures ConvexKept(step(v).piece, maxVertices)
    {
      assert step(v) == NextStep(Normalise(v), maxVertices);
    }
  }

  /** A polygon of three to `maxVertices` vertices without a reflex vertex. */
  ghost predicate ConvexKept(p: Polygon, maxVertices: nat) {
    3 <= |p| <= maxVertices && forall k :: 0 <= k < |p| ==> !Reflex(k, p)
  }

  /** Every polygon the step keeps is convex and within the limit. */
  ghost predicate KeepsConvex(step: Polygon -> Step, maxVertices: nat) {
    forall v: Polygon :: |v| >= 3 && step(v).Keep? ==> ConvexKept(step(v).piece, maxVertices)
  }

  /** Collinear simplification (tolerance 0) applied `times` times. */
  function SimplifiedTimes(p: Polygon, times: nat): Polygon {
    if times == 0 then p else CollinearSimplify(SimplifiedTimes(p, times - 1), 0.0)
  }

  /** A piece the decomposition may list: a polygon with three to
      `maxVertices` vertices and no reflex vertex, cleaned of collinear
      vertices once or more (a bisection cleans pieces that were already
      cleaned). */
  ghost predicate ConvexPiece(piece: Polygon, maxVertices: nat) {
    exists p: Polygon, times: nat :: 1 <= times && ConvexKept(p, maxVertices) && piece == SimplifiedTimes(p, times)
  }

  ghost predicate AllConvex(pieces: seq<Polygon>, maxVertices: nat) {
    forall k :: 0 <= k < |pieces| ==> ConvexPiece(pieces[k], maxVertices)
  }

  /** Every piece of a decomposition is a convex piece: only kept polygons
      become pieces, and cuts and bisections only gather and clean them. */
  lemma {:induction false} PartitionConvex(step: Polygon -> Step, maxVertices: nat, vertices: Polygon, fuel: nat)
    requires KeepsConvex(step, maxVertices)
    ensures var r := Partition(step, vertices, fuel);
            r.Some? ==> AllConvex(r.value, maxVertices)
    decreases fuel
  {
    if |vertices| >= 3 && fuel > 0 {
      match step(vertices)
      case Cut(first, second) =>
        PartitionConvex(step, maxVertices, first, fuel - 1);
        PartitionConvex(step, maxVertices, second, fuel - 1);
        JoinConvex(Partition(step, first, fuel - 1), Partition(step, second, fuel - 1), maxVertices);
      case Bisect(lower, upper) =>
        PartitionConvex(step, maxVertices, lower, fuel - 1);
        PartitionConvex(step, maxVertices, upper, fuel - 1);
        var both := Join(Partition(step, lower, fuel - 1), Partition(step, upper, fuel - 1));
        JoinConvex(Partition(step, lower, fuel - 1), Partition(step, upper, fuel - 1), maxVertices);
        if both.Some? {
          SimplifyEachConvex(both.value, maxVertices);
        }
      case Keep(w) =>
        assert ConvexKept(w, maxVertices);
        assert SimplifiedTimes(w, 1) == CollinearSimplify(w, 0.0);
        assert ConvexPiece(CollinearSimplify(w, 0.0), maxVertices);
        assert [CollinearSimplify(w, 0.0)][0] == CollinearSimplify(w, 0.0);
    }
  }

  lemma JoinConvex(first: Option<seq<Polygon>>, second: Option<seq<Polygon>>, maxVertices: nat)
    requires first.Some? ==> AllConvex(first.value, maxVertices)
    requires second.Some? ==> AllConvex(second.value, maxVertices)
    ensures Join(first, second).Some? ==> AllConvex(Join(first, second).value, maxVertices)
  {
    if first.Some? && second.Some? {
      var all := first.value + second.value;
      forall k | 0 <= k < |all| ensures ConvexPiece(all[k], maxVertices) {
        if k < |first.value| {
          assert all[k] == first.value[k];
        } else {
          assert all[k] == second.value[k - |first.value|];
        }
      }
    }
  }

  /** Cleaning a convex piece once more leaves a convex piece. */
  lemma SimplifyEachConvex(pieces: seq<Polygon>, maxVertices: nat)
    requires AllConvex(pieces, maxVertices)
    ensures AllConvex(SimplifyEach(pieces), maxVertices)
  {
    var r := SimplifyEach(pieces);
    forall k | 0 <= k < |r| ensures ConvexPiece(r[k], maxVertices) {
      assert ConvexPiece(pieces[k], maxVertices);
      var p: Polygon, times: nat :| 1 <= times && ConvexKept(p, maxVertices) && pieces[k] == SimplifiedTimes(p, times);
      assert r[k] == SimplifiedTimes(p, times + 1);
    }
  }

  /** Every piece has at most `maxVertices` vertices. */
  predicate AllWithin(pieces: seq<Polygon>, maxVertices: nat) {
    forall k :: 0 <= k < |pieces| ==> |pieces[k]| <= maxVertices
  }

  /** No piece of a decomposition has more vertices than the limit: the
      limit is checked before a convex polygon is kept, simplification only
      removes vertices, and a cut only gathers the pieces of its parts. */
  lemma {:induction false} PartitionWithin(step: Polygon -> Step, maxVertices: nat, vertices: Polygon, fuel: nat)
    requires KeepsConvex(step, maxVertices)
    ensures var r := Partition(step, vertices, fuel);
            r.Some? ==> AllWithin(r.value, maxVertices)
    decreases fuel
  {
    if |vertices| >= 3 && fuel > 0 {
      match step(vertices)
      case Cut(first, second) =>
        PartitionWithin(step, maxVertices, first, fuel - 1);
        PartitionWithin(step, maxVertices, second, fuel - 1);
        JoinWithin(Partition(step, first, fuel - 1), Partition(step, second, fuel - 1), maxVertices);
      case Bisect(lower, upper) =>
        PartitionWithin(step, maxVertices, lower, fuel - 1);
        PartitionWithin(step, maxVertices, upper, fuel - 1);
        JoinWithin(Partition(step, lower, fuel - 1), Partition(step, upper, fuel - 1), maxVertices);
      case Keep(w) =>
        assert ConvexKept(w, maxVertices);
    }
  }

  lemma JoinWithin(first: Option<seq<Polygon>>, second: Option<seq<Polygon>>, maxVertices: nat)
    requires first.Some? ==> AllWithin(first.value, maxVertices)
    requires second.Some? ==> AllWithin(second.value, maxVertices)
    ensures Join(first, second).Some? ==> AllWithin(Join(first, second).value, maxVertices)
    ensures Join(first, second).Some? ==> AllWithin(SimplifyEach(Join(first, second).value), maxVertices)
  {
    if first.Some? && second.Some? {
      var all := first.value + second.value;
      forall k | 0 <= k < |all| ensures |all[k]| <= maxVertices {
        if k < |first.value| {
          assert all[k] == first.value[k];
        } else {
          assert all[k] == second.value[k - |first.value|];
        }
      }
    }
  }

  /** More fuel never changes a decomposition that already completed. */
  lemma FuelMonotone(vertices: Polygon, maxVertices: nat, fuel: nat, more: nat)
    requires fuel <= more && ConvexPartition(vertices, maxVertices, fuel).Some?
    ensures ConvexPartition(vertices, maxVertices, more) == ConvexPartition(vertices, maxVertices, fuel)
  {
    PartitionFuelMonotone(PlanStep(maxVertices), vertices, fuel, more);
  }

  lemma {:induction false} PartitionFuelMonotone(step: Polygon -> Step, vertices: Polygon, fuel: nat, more: nat)
    requires fuel <= more && Partition(step, vertices, fuel).Some?
    ensures Partition(step, vertices, more) == Partition(step, vertices, fuel)
    decreases fuel
  {
    if |vertices| >= 3 {
      match step(vertices)
      case Cut(first, second) =>
        PartitionFuelMonotone(step, first, fuel - 1, more - 1);
        PartitionFuelMonotone(step, second, fuel - 1, more - 1);
      case Bisect(lower, upper) =>
        PartitionFuelMonotone(step, lower, fuel - 1, more - 1);
        PartitionFuelMonotone(step, upper, fuel - 1, more - 1);
      case Keep(w) =>
    }
  }

  /** Fewer than three vertices decompose into no pieces at all. */
  lemma TooFewVertices(vertices: Polygon, maxVertices: nat, fuel: nat)
    requires |vertices| < 3
    ensures ConvexPartition(vertices, maxVertices, fuel) == Some([])
  {
  }

  /** A polygon with no reflex vertex (after making it counter-clockwise)
      and within the limit is returned as a single piece, cleaned of
      collinear vertices. */
  lemma ConvexWithinLimit(vertices: Polygon, maxVertices: nat, fuel: nat)
    requires |vertices| >= 3 && fuel >= 1 && |vertices| <= maxVertices
    requires forall k :: 0 <= k < |vertices| ==> !Reflex(k, Normalise(vertices))
    ensures ConvexPartition(vertices, maxVertices, fuel) == Some([CollinearSimplify(Normalise(vertices), 0.0)])
  {
    var w := Normalise(vertices);
    NoReflexKeeps(w, maxVertices);
    assert PlanStep(maxVertices)(vertices) == Keep(w);
    PartitionKeeps(PlanStep(maxVertices), vertices, fuel, w);
  }

  /** A polygon with no reflex vertex and within the limit is kept whole. */
  lemma NoReflexKeeps(w: Polygon, maxVertices: nat)
    requires 3 <= |w| <= maxVertices
    requires forall k :: 0 <= k < |w| ==> !Reflex(k, w)
    ensures NextStep(w, maxVertices) == Keep(w)
  {
    assert FirstReflex(w, 0) == |w|;
  }

  /** A kept polygon is the one piece, cleaned of collinear vertices. */
  lemma PartitionKeeps(step: Polygon -> Step, vertices: Polygon, fuel: nat, w: Polygon)
    requires |vertices| >= 3 && fuel >= 1 && step(vertices) == Keep(w)
    ensures Partition(step, vertices, fuel) == Some([CollinearSimplify(w, 0.0)])
  {
  }

  /** A polygon with no reflex vertex but over the limit is bisected at
      vertex `n / 2`: the halves share their two end vertices, have
      `n / 2 + 1` and `n - n / 2 + 1` vertices, and with a limit of at least
      three both are smaller than the polygon. */
  lemma ConvexBisection(w: Polygon, maxVertices: nat)
    requires 3 <= maxVertices < |w|
    requires forall k :: 0 <= k < |w| ==> !Reflex(k, w)
    ensures NextStep(w, maxVertices).Bisect?
    ensures var n, s := |w|, NextStep(w, maxVertices);
            |s.lower| == n / 2 + 1 && |s.upper| == n - n / 2 + 1
            && 3 <= |s.lower| < n && 3 <= |s.upper| < n
            && s.lower[0] == s.upper[|s.upper| - 1] == w[0]
            && s.lower[|s.lower| - 1] == s.upper[0] == w[n / 2]
    ensures var n, s := |w|, NextStep(w, maxVertices);
            s.lower == Copy(0, n / 2, w) && s.upper == Copy(n / 2, 0, w)
  {
    assert FirstReflex(w, 0) == |w|;
    CopyInRange(0, |w| / 2, w);
    CopyInRange(|w| / 2, 0, w);
  }

  /** Over the limit and without a reflex vertex, the decomposition is the
      lower half's pieces followed by the upper half's, each one level
      deeper, with every piece cleaned of collinear vertices once more. */
  lemma ConvexOverLimitRecurses(vertices: Polygon, maxVertices: nat, fuel: nat)
    requires 3 <= maxVertices < |vertices|
    requires forall k :: 0 <= k < |Normalise(vertices)| ==> !Reflex(k, Normalise(vertices))
    ensures var w := Normalise(vertices);
            var n := |w|;
            var lower := ConvexPartition(Copy(0, n / 2, w), maxVertices, fuel);
            var upper := ConvexPartition(Copy(n / 2, 0, w), maxVertices, fuel);
            ConvexPartition(vertices, maxVertices, fuel + 1)
            == if lower.Some? && upper.Some? then Some(SimplifyEach(lower.value + upper.value)) else None
  {
    var w := Normalise(vertices);
    assert FirstReflex(w, 0) == |w|;
    assert PlanStep(maxVertices)(vertices) == NextStep(w, maxVertices);
  }

  /** At the first reflex vertex the polygon is cut in two and the smaller
      piece is decomposed (and listed) first; on equal sizes the upper piece
      goes first. */
  lemma ReflexPiecesOrder(w: Polygon, maxVertices: nat, i: nat)
    requires |w| >= 3 && i < |w| && Reflex(i, w)
    requires forall k :: 0 <= k < i ==> !Reflex(k, w)
    ensures var s, halves := NextStep(w, maxVertices), SplitAtReflex(w, i);
            s.Cut? && |s.first| <= |s.second|
            && ((s.first, s.second) == halves || (s.first, s.second) == (halves.1, halves.0))
            && (|halves.0| == |halves.1| ==> s.first == halves.1)
  {
    assert FirstReflex(w, 0) == i;
    var halves := SplitAtReflex(w, i);
    assert NextStep(w, maxVertices) == SmallerFirst(halves.0, halves.1);
  }

  /** At a reflex vertex the decomposition is the decomposition of the
      first piece of the cut followed by that of the second, each one
      level deeper. */
  lemma ReflexCutRecurses(vertices: Polygon, maxVertices: nat, fuel: nat)
    requires |vertices| >= 3
    requires exists k :: 0 <= k < |vertices| && Reflex(k, Normalise(vertices))
    ensures var s := NextStep(Normalise(vertices), maxVertices);
            s.Cut?
            && ConvexPartition(vertices, maxVertices, fuel + 1)
               == Join(ConvexPartition(s.first, maxVertices, fuel), ConvexPartition(s.second, maxVertices, fuel))
  {
    assert PlanStep(maxVertices)(vertices) == NextStep(Normalise(vertices), maxVertices);
  }

  // ---------------------------------------------------------------------------
  // Empty pieces

  /** Three evenly spaced points on the x axis, such as (0,0), (1,0),
      (2,0), have zero area, so they are reversed, found convex and kept,
      and collinear simplification then removes every vertex: the
      decomposition as written lists one empty piece. */
  lemma CollinearTriangleLeavesEmptyPiece(t: real)
    ensures ConvexPartition([Point(0.0, 0.0), Point(t, 0.0), Point(2.0 * t, 0.0)], DefaultMaxVertices, 1) == Some([[]])
  {
    var v := [Point(0.0, 0.0), Point(t, 0.0), Point(2.0 * t, 0.0)];
    assert Area(v[0], v[1], v[2]) == 0.0;
    DegenerateTriangleLeavesEmptyPiece(v, DefaultMaxVertices, 1);
  }

  /** The same for any three collinear points. */
  lemma DegenerateTriangleLeavesEmptyPiece(v: Polygon, maxVertices: nat, fuel: nat)
    requires |v| == 3 && Area(v[0], v[1], v[2]) == 0.0 && maxVertices >= 3 && fuel >= 1
    ensures ConvexPartition(v, maxVertices, fuel) == Some([[]])
  {
    var a, b, c := v[0], v[1], v[2];
    assert v == [a, b, c];
    var w := [c, b, a];
    DegenerateTriangleReversed(a, b, c);
    AreaProperties(a, b, c);
    AreaProperties(c, b, a);
    assert Area(c, b, a) == 0.0 && Area(b, a, c) == 0.0 && Area(a, c, b) == 0.0;
    forall k | 0 <= k < |w| ensures !Reflex(k, w) && !Kept(w, 0.0, k) {
      assert At(k - 1, w) == w[PrevIndex(k, 3)] && At(k, w) == w[k] && At(k + 1, w) == w[NextIndex(k, 3)];
    }
    DegenerateKeptPieceIsEmpty(v, w, maxVertices, fuel);
  }

  /** Every point lies on the x axis. */
  ghost predicate OnXAxis(v: Polygon) {
    forall k :: 0 <= k < |v| ==> v[k].y == 0.0
  }

  /** A polygon of three to `maxVertices` points, all on the x axis, has
      zero area, so it is reversed, found convex and kept, and collinear
      simplification then removes every vertex: one empty piece. */
  lemma FlatOutlineLeavesEmptyPiece(v: Polygon, maxVertices: nat, fuel: nat)
    requires 3 <= |v| <= maxVertices && fuel >= 1 && OnXAxis(v)
    ensures ConvexPartition(v, maxVertices, fuel) == Some([[]])
  {
    ChainSumOnXAxis(v);
    assert !IsCounterClockWise(v);
    var w := Reverse(v);
    ReverseIndex(v);
    assert OnXAxis(w);
    forall k | 0 <= k < |w| ensures !Reflex(k, w) && !Kept(w, 0.0, k) {
      FlatAt(k - 1, w);
      FlatAt(k, w);
      FlatAt(k + 1, w);
    }
    DegenerateKeptPieceIsEmpty(v, w, maxVertices, fuel);
  }

  lemma FlatAt(i: int, w: Polygon)
    requires Indexable(i, |w|) && OnXAxis(w)
    ensures At(i, w).y == 0.0
  {
    assert At(i, w) == w[AtIndex(i, |w|)];
  }

  lemma {:induction false} ChainSumOnXAxis(v: Polygon)
    requires OnXAxis(v)
    ensures ChainSum(v) == 0.0
    decreases |v|
  {
    if |v| >= 2 {
      assert OnXAxis(v[1..]) by {
        forall k | 0 <= k < |v| - 1 ensures v[1..][k].y == 0.0 {
          assert v[1..][k] == v[k + 1];
        }
      }
      ChainSumOnXAxis(v[1..]);
    }
  }

  /** A polygon within the limit whose normalised outline has no reflex
      vertex and no vertex that survives collinear simplification
      decomposes into one empty piece. */
  lemma DegenerateKeptPieceIsEmpty(v: Polygon, w: Polygon, maxVertices: nat, fuel: nat)
    requires 3 <= |v| <= maxVertices && fuel >= 1 && Normalise(v) == w
    requires forall k :: 0 <= k < |w| ==> !Reflex(k, w)
    requires forall k :: 0 <= k < |w| ==> !Kept(w, 0.0, k)
    ensures ConvexPartition(v, maxVertices, fuel) == Some([[]])
  {
    ConvexWithinLimit(v, maxVertices, fuel);
    NoneKeptSimplify(w, 0.0);
  }

  /** Three collinear points have zero area, so they are not
      counter-clockwise and are reversed. */
  lemma DegenerateTriangleReversed(a: Point, b: Point, c: Point)
    requires Area(a, b, c) == 0.0
    ensures Normalise([a, b, c]) == [c, b, a]
  {
    var v := [a, b, c];
    assert v[0] == a && v[1] == b && v[2] == c;
    assert !IsCounterClockWise(v);
    ReverseTriangle(a, b, c);
  }

  lemma ReverseTriangle(a: Point, b: Point, c: Point)
    ensures Reverse([a, b, c]) == [c, b, a]
  {
    assert [c][1..] == [];
    assert Reverse([c]) == [c];
    assert [b, c][1..] == [c];
    assert Reverse([b, c]) == [c] + [b];
    assert [a, b, c][1..] == [b, c];
    assert Reverse([a, b, c]) == [c, b] + [a];
  }

  /** The pieces that have at least one vertex, in their original order. */
  function NonEmpty(pieces: seq<Polygon>): (r: seq<Polygon>)
    ensures |r| <= |pieces|
    ensures forall p :: p in r <==> p in pieces && |p| > 0
    ensures (forall k :: 0 <= k < |pieces| ==> |pieces[k]| > 0) ==> r == pieces
    ensures |pieces| == 1 ==> r == if |pieces[0]| > 0 then pieces else []
  {
    if |pieces| == 0 then []
    else
      assert pieces == [pieces[0]] + pieces[1..];
      (if |pieces[0]| > 0 then [pieces[0]] else []) + NonEmpty(pieces[1..])
  }

  /** The filter keeps the order: filtering a concatenation filters each
      part. */
  lemma {:induction false} NonEmptyAppend(a: seq<Polygon>, b: seq<Polygon>)
    ensures NonEmpty(a + b) == NonEmpty(a) + NonEmpty(b)
    decreases |a|
  {
    if |a| > 0 {
      assert (a + b)[1..] == a[1..] + b;
      NonEmptyAppend(a[1..], b);
    } else {
      assert a + b == b;
    }
  }

  /** The decomposition with the empty pieces removed, as the source's final
      loop intends. This is the corrected variant: the source's own
      `Decompose` returns `ConvexPartition` unchanged, empty pieces included. */
  function Decompose(vertices: Polygon, maxVertices: nat, fuel: nat): (r: Option<seq<Polygon>>)
    ensures r.Some? <==> ConvexPartition(vertices, maxVertices, fuel).Some?
    ensures r.Some? ==> r.value == NonEmpty(ConvexPartition(vertices, maxVertices, fuel).value)
    ensures r.Some? ==> forall k :: 0 <= k < |r.value| ==> 0 < |r.value[k]| <= maxVertices
  {
    var partition := ConvexPartition(vertices, maxVertices, fuel);
    if partition.None? then None else Some(WithinAndNonEmpty(partition.value, maxVertices))
  }

  /** `NonEmpty` of pieces within the limit: each remaining piece has one to
      `maxVertices` vertices. */
  function WithinAndNonEmpty(pieces: seq<Polygon>, maxVertices: nat): (r: seq<Polygon>)
    requires AllWithin(pieces, maxVertices)
    ensures r == NonEmpty(pieces)
    ensures forall k :: 0 <= k < |r| ==> 0 < |r[k]| <= maxVertices
  {
    var r := NonEmpty(pieces);
    assert forall k :: 0 <= k < |r| ==> r[k] in pieces;
    r
  }

  /** A decomposition into one non-empty piece keeps that piece. */
  lemma SinglePieceKept(vertices: Polygon, maxVertices: nat, fuel: nat, piece: Polygon)
    requires ConvexPartition(vertices, maxVertices, fuel) == Some([piece]) && |piece| > 0
    ensures Decompose(vertices, maxVertices, fuel) == Some([piece])
  {
  }

  /** With empty pieces removed, the collinear triangle has no pieces. */
  lemma CollinearTriangleHasNoPieces(t: real)
    ensures Decompose([Point(0.0, 0.0), Point(t, 0.0), Point(2.0 * t, 0.0)], DefaultMaxVertices, 1) == Some([])
  {
    CollinearTriangleLeavesEmptyPiece(t);
  }
}
