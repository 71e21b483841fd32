/** The pure sequence work of the tile-map builder: turning polylines into
    degenerate triangle strips, packing vertices for a procedural model,
    cleaning and re-emitting the triangulator's input and output, and
    splitting collision polygons into convex pieces. Vertex lists are flat
    `seq<real>`s of x, y pairs, as in the source. */
module TileMapMesh {
  import opened Wrappers
  import opened Geometry
  import opened TileMapDefs
  import Bayazit

  // ---------------------------------------------------------------------------
  // Edges to triangles

  /** `EdgesToTriangles`: after every fourth value (two x, y points, one
      edge) the last two values are repeated, which closes a triangle with
      no surface. Value `i` moves to `i + 2 * (i / 4)`, and block `q`'s
      repeated values follow it at `6q + 4` and `6q + 5`. */
  method EdgesToTriangles(points: seq<real>) returns (r: seq<real>)
    ensures |r| == |points| + 2 * (|points| / 4)
    ensures forall i :: 0 <= i < |points| ==> r[i + 2 * (i / 4)] == points[i]
    ensures forall q :: 0 <= q < |points| / 4 ==> r[6 * q + 4] == points[4 * q + 2] && r[6 * q + 5] == points[4 * q + 3]
  {
    r := [];
    var i := 0;
    while i < |points|
      invariant 0 <= i <= |points|
      invariant |r| == i + 2 * (i / 4)
      invariant forall k :: 0 <= k < i ==> r[k + 2 * (k / 4)] == points[k]
      invariant forall q :: 0 <= q < i / 4 ==> r[6 * q + 4] == points[4 * q + 2] && r[6 * q + 5] == points[4 * q + 3]
    {
      r := r + [points[i]];
      if (i + 1) % 4 == 0 {
        r := r + [points[i - 1], points[i]];
      }
      i := i + 1;
    }
  }

  /** The values of an edge list, two points per edge, are all kept and the
      inserted ones repeat its second point: dropping positions `6q + 4` and
      `6q + 5` gives the input back. */
  lemma {:induction false} EdgesToTrianglesBlocks(points: seq<real>, r: seq<real>, q: int)
    requires |r| == |points| + 2 * (|points| / 4)
    requires forall i :: 0 <= i < |points| ==> r[i + 2 * (i / 4)] == points[i]
    requires forall q :: 0 <= q < |points| / 4 ==> r[6 * q + 4] == points[4 * q + 2] && r[6 * q + 5] == points[4 * q + 3]
    requires 0 <= q < |points| / 4
    ensures r[6 * q..6 * q + 6] == points[4 * q..4 * q + 4] + points[4 * q + 2..4 * q + 4]
  {
    var b := 4 * q;
    assert r[6 * q] == points[b] by { assert b + 2 * (b / 4) == 6 * q; }
    assert r[6 * q + 1] == points[b + 1] by { assert (b + 1) + 2 * ((b + 1) / 4) == 6 * q + 1; }
    assert r[6 * q + 2] == points[b + 2] by { assert (b + 2) + 2 * ((b + 2) / 4) == 6 * q + 2; }
    assert r[6 * q + 3] == points[b + 3] by { assert (b + 3) + 2 * ((b + 3) / 4) == 6 * q + 3; }
    assert r[6 * q + 4] == points[b + 2] && r[6 * q + 5] == points[b + 3];
    var block := [points[b], points[b + 1], points[b + 2], points[b + 3], points[b + 2], points[b + 3]];
    assert r[6 * q..6 * q + 6] == block;
    assert points[b..b + 4] + points[b + 2..b + 4] == block;
  }

  // ---------------------------------------------------------------------------
  // Procedural model packing

  /** The x values of the (x, z) pairs of a flat list; a trailing odd value
      is no pair. */
  function PairXs(p: seq<real>): (xs: seq<real>)
    ensures |xs| == |p| / 2 && forall k :: 0 <= k < |xs| ==> xs[k] == p[2 * k]
  {
    seq(|p| / 2, k requires 0 <= k < |p| / 2 => p[2 * k])
  }

  function PairZs(p: seq<real>): (zs: seq<real>)
    ensures |zs| == |p| / 2 && forall k :: 0 <= k < |zs| ==> zs[k] == p[2 * k + 1]
  {
    seq(|p| / 2, k requires 0 <= k < |p| / 2 => p[2 * k + 1])
  }

  /** The bounding-box loop: a running minimum and maximum started at the
      first value. A value below the minimum cannot also be above the
      maximum, so the `else` between the two updates loses nothing. */
  method Extent(xs: seq<real>) returns (lo: real, hi: real)
    requires |xs| > 0
    ensures lo in xs && hi in xs
    ensures forall k :: 0 <= k < |xs| ==> lo <= xs[k] <= hi
  {
    lo, hi := xs[0], xs[0];
    var i := 0;
    while i < |xs|
      invariant 0 <= i <= |xs|
      invariant lo in xs && hi in xs && lo <= hi
      invariant forall k :: 0 <= k < i ==> lo <= xs[k] <= hi
    {
      if xs[i] < lo {
        lo := xs[i];
      } else if xs[i] > hi {
        hi := xs[i];
      }
      i := i + 1;
    }
  }

  /** The packed model: the vertex count, six values (position and normal)
      per vertex, the indices, the bounding box and the node position. */
  datatype StoredMesh = StoredMesh(
    numVertices: nat,
    vertexData: seq<real>,
    indexData: seq<nat>,
    boxMin: Vector3,
    boxMax: Vector3,
    center: Vector3)

  /** The six values of a vertex at (x, y, z) with a zero normal. */
  function VertexValues(x: real, y: real, z: real): seq<real> {
    [x, y, z, 0.0, 0.0, 0.0]
  }

  /** The vertex loop of `StoreVertices`: vertex `k` at
      (xs[k] - cx, y, zs[k] - cz). */
  method PackVertices(xs: seq<real>, zs: seq<real>, cx: real, y: real, cz: real) returns (data: seq<real>)
    requires |xs| == |zs|
    ensures |data| == 6 * |xs|
    ensures forall k :: 0 <= k < |xs| ==> data[6 * k..6 * k + 6] == VertexValues(xs[k] - cx, y, zs[k] - cz)
  {
    data := [];
    var i := 0;
    while i < |xs|
      invariant 0 <= i <= |xs|
      invariant |data| == 6 * i
      invariant forall k :: 0 <= k < i ==> data[6 * k..6 * k + 6] == VertexValues(xs[k] - cx, y, zs[k] - cz)
    {
      ghost var before := data;
      data := data + VertexValues(xs[i] - cx, y, zs[i] - cz);
      assert forall k :: 0 <= k < i ==> data[6 * k..6 * k + 6] == before[6 * k..6 * k + 6];
      assert data[6 * i..6 * i + 6] == VertexValues(xs[i] - cx, y, zs[i] - cz);
      i := i + 1;
    }
  }

  /** The index loop of `StoreVertices`: indices 0 to n - 1 in order. */
  method IndexData(n: nat) returns (indices: seq<nat>)
    ensures |indices| == n && forall k :: 0 <= k < n ==> indices[k] == k
  {
    indices := [];
    var j := 0;
    while j < n
      invariant 0 <= j <= n
      invariant |indices| == j && forall k :: 0 <= k < j ==> indices[k] == k
    {
      indices := indices + [j];
      j := j + 1;
    }
  }

  /** Largest index a 16-bit loop counter reaches. */
  const MaxIndexCount: nat := 0x1_0000

  /** The index loop as written, from counter value `i`: the counter is a
      16-bit integer, so `i + 1` wraps to 0 after 65535. The loop is run for
      at most `fuel` more iterations; `None` when it has not ended by then.
      Every index it pushes fits in 16 bits. */
  function IndexLoopAsWritten(n: nat, i: nat, fuel: nat): (r: Option<seq<nat>>)
    requires i < MaxIndexCount
    ensures r.Some? ==> forall k :: 0 <= k < |r.value| ==> r.value[k] < MaxIndexCount
    decreases fuel
  {
    if i >= n then Some([])
    else if fuel == 0 then None
    else
      match IndexLoopAsWritten(n, (i + 1) % MaxIndexCount, fuel - 1)
      case None => None
      case Some(rest) => Some([i] + rest)
  }

  /** Below 2^16 vertices the loop as written ends and pushes `i` to
      `n - 1`, as the corrected loop `IndexData` does. */
  lemma {:induction false} IndexLoopEndsBelowWidth(n: nat, i: nat, fuel: nat)
    requires i <= n < MaxIndexCount && fuel >= n - i
    ensures var r := IndexLoopAsWritten(n, i, fuel);
            r.Some? && |r.value| == n - i && forall k :: 0 <= k < n - i ==> r.value[k] == i + k
    decreases n - i
  {
    if i < n {
      assert (i + 1) % MaxIndexCount == i + 1;
      IndexLoopEndsBelowWidth(n, i + 1, fuel - 1);
      var rest := IndexLoopAsWritten(n, i + 1, fuel - 1).value;
      var r := IndexLoopAsWritten(n, i, fuel).value;
      assert r == [i] + rest;
      forall k | 0 <= k < n - i ensures r[k] == i + k {
        if k > 0 { assert r[k] == rest[k - 1]; }
      }
    }
  }

  /** With 2^16 vertices or more the 16-bit counter never reaches the
      vertex count, so the loop as written never ends, however long it
      runs. */
  lemma {:induction false} IndexLoopNeverEndsAtWidth(n: nat, i: nat, fuel: nat)
    requires MaxIndexCount <= n && i < MaxIndexCount
    ensures IndexLoopAsWritten(n, i, fuel).None?
    decreases fuel
  {
    if fuel > 0 {
      IndexLoopNeverEndsAtWidth(n, (i + 1) % MaxIndexCount, fuel - 1);
    }
  }

  /** What `StoreVertices` packs: one vertex per (x, z) pair, moved so that
      the bounding box is centred on the origin and raised to y = 1 for a
      dummy model, which also gets a grounded face of three vertices, the
      last at y = -1; indices 0 to n - 1; a box that holds every vertex and
      is tight, its sides passing through the extreme x and z values. */
  predicate PackedMesh(polypoints: seq<real>, dummy: bool, m: StoredMesh)
    requires |polypoints| >= 2
  {
    var n, xs, zs := |polypoints| / 2, PairXs(polypoints), PairZs(polypoints);
    m.numVertices == n + (if dummy then 3 else 0)
    && |m.vertexData| == 6 * m.numVertices
    && |m.indexData| == m.numVertices
    && (forall k :: 0 <= k < m.numVertices ==> m.indexData[k] == k)
    && (forall k :: 0 <= k < n ==>
          m.vertexData[6 * k..6 * k + 6] == VertexValues(xs[k] - m.center.x, if dummy then 1.0 else 0.0, zs[k] - m.center.z))
    && (dummy ==> m.vertexData[6 * n..] == VertexValues(0.0, 0.0, 0.0) + VertexValues(0.0, 0.0, 0.0) + VertexValues(0.0, -1.0, 0.0))
    && m.boxMin.x == -m.boxMax.x && m.boxMin.z == -m.boxMax.z && m.boxMin.y == 0.0
    && m.boxMax.y == (if dummy then 10.0 else 0.0)
    && (forall k :: 0 <= k < n ==>
          m.boxMin.x <= xs[k] - m.center.x <= m.boxMax.x && m.boxMin.z <= zs[k] - m.center.z <= m.boxMax.z)
    && m.center.x + m.boxMin.x in xs && m.center.x + m.boxMax.x in xs
    && m.center.z + m.boxMin.z in zs && m.center.z + m.boxMax.z in zs
  }

  /** `StoreVertices`: the packed mesh of the (x, z) pairs. The index loop
      counts in 16 bits, so the vertex count must stay below 2^16. */
  method StoreVertices(polypoints: seq<real>, dummy: bool) returns (m: StoredMesh)
    requires |polypoints| >= 2
    requires |polypoints| / 2 + (if dummy then 3 else 0) < MaxIndexCount
    ensures PackedMesh(polypoints, dummy, m)
  {
    var xs, zs := PairXs(polypoints), PairZs(polypoints);
    var minX, maxX := Extent(xs);
    var minZ, maxZ := Extent(zs);
    var size := Vector3(maxX - minX, 0.0, maxZ - minZ);
    var boxMin := Vector3(-size.x * 0.5, 0.0, -size.z * 0.5);
    var boxMax := Vector3(size.x * 0.5, if dummy then 10.0 else 0.0, size.z * 0.5);
    var center := Vector3(maxX - size.x * 0.5, 0.0, maxZ - size.z * 0.5);
    var y := if dummy then 1.0 else 0.0;
    var data := PackVertices(xs, zs, center.x, y, center.z);
    if dummy {
      var stored := data;
      data := data + VertexValues(0.0, 0.0, 0.0) + VertexValues(0.0, 0.0, 0.0) + VertexValues(0.0, -1.0, 0.0);
      assert forall k :: 0 <= k < |xs| ==> data[6 * k..6 * k + 6] == stored[6 * k..6 * k + 6];
    }
    var numVertices := |data| / 6;
    var indices := IndexData(numVertices);
    m := StoredMesh(numVertices, data, indices, boxMin, boxMax, center);
  }

  /** `CreateProceduralModel`, for its data: no model for fewer than two
      values, otherwise the mesh `StoreVertices` packs. */
  method CreateProceduralModel(polypoints: seq<real>, dummy: bool) returns (m: Option<StoredMesh>)
    requires |polypoints| / 2 + (if dummy then 3 else 0) < MaxIndexCount
    ensures m.None? <==> |polypoints| < 2
    ensures m.Some? ==> m.value.numVertices == |polypoints| / 2 + (if dummy then 3 else 0)
    ensures m.Some? ==> PackedMesh(polypoints, dummy, m.value)
  {
    if |polypoints| < 2 {
      return None;
    }
    var stored := StoreVertices(polypoints, dummy);
    return Some(stored);
  }

  // ---------------------------------------------------------------------------
  // Triangulation

  /** A triangle of the triangulation library. */
  datatype Triangle = Triangle(a: Point, b: Point, c: Point)

  /** The triangulation library, which is not part of this model: it maps
      the cleaned outline to triangles. */
  type Triangulator = seq<Point> -> seq<Triangle>

  /** The position of the first occurrence of `p`. */
  function FirstIndex(points: seq<Point>, p: Point): (k: nat)
    requires p in points
    ensures k < |points| && points[k] == p && forall j :: 0 <= j < k ==> points[j] != p
  {
    if points[0] == p then 0 else 1 + FirstIndex(points[1..], p)
  }

  /** Every point once, in the order of first occurrence: the reference
      for the duplicate-removal loop. */
  function UniqueInOrder(points: seq<Point>): (r: seq<Point>)
    ensures forall p :: p in r <==> p in points
    ensures forall a, b :: 0 <= a < b < |r| ==> r[a] != r[b]
  {
    if |points| == 0 then []
    else
      var rest := UniqueInOrder(points[..|points| - 1]);
      var last := points[|points| - 1];
      assert points == points[..|points| - 1] + [last];
      if last in rest then rest else rest + [last]
  }

  /** The duplicate-removal loop of `Triangulate`: a point is kept unless an
      equal one was kept before. The result holds every point once, in the
      order of their first occurrences. */
  method RemoveDuplicates(points: seq<Point>) returns (clean: seq<Point>)
    ensures clean == UniqueInOrder(points)
    ensures forall a, b :: 0 <= a < b < |clean| ==> clean[a] != clean[b]
    ensures forall p :: p in clean <==> p in points
    ensures forall a, b :: 0 <= a < b < |clean| ==> FirstIndex(points, clean[a]) < FirstIndex(points, clean[b])
  {
    clean := [];
    var i := 0;
    while i < |points|
      invariant 0 <= i <= |points|
      invariant clean == UniqueInOrder(points[..i])
      invariant forall p :: p in clean ==> p in points
      invariant forall a :: 0 <= a < |clean| ==> FirstIndex(points, clean[a]) < i
      invariant forall a, b :: 0 <= a < b < |clean| ==> FirstIndex(points, clean[a]) < FirstIndex(points, clean[b])
    {
      UniqueStep(points, i);
      if points[i] !in clean {
        FirstOccurrence(points, i);
        FirstIndicesStayOrdered(points, clean, i);
        clean := clean + [points[i]];
      }
      i := i + 1;
    }
    assert points[..i] == points;
  }

  /** One more point extends the duplicate-free list by that point unless
      it is already there. */
  lemma UniqueStep(points: seq<Point>, i: nat)
    requires i < |points|
    ensures var before := UniqueInOrder(points[..i]);
            UniqueInOrder(points[..i + 1]) == if points[i] in before then before else before + [points[i]]
  {
    assert points[..i + 1][..i] == points[..i];
  }

  /** Appending the point first seen at `i` keeps the list in order of
      first occurrence. */
  lemma FirstIndicesStayOrdered(points: seq<Point>, clean: seq<Point>, i: nat)
    requires i < |points| && FirstIndex(points, points[i]) == i
    requires forall p :: p in clean ==> p in points
    requires forall a :: 0 <= a < |clean| ==> FirstIndex(points, clean[a]) < i
    requires forall a, b :: 0 <= a < b < |clean| ==> FirstIndex(points, clean[a]) < FirstIndex(points, clean[b])
    ensures var next := clean + [points[i]];
            (forall a :: 0 <= a < |next| ==> FirstIndex(points, next[a]) < i + 1)
            && forall a, b :: 0 <= a < b < |next| ==> FirstIndex(points, next[a]) < FirstIndex(points, next[b])
  {
    var next := clean + [points[i]];
    assert forall a :: 0 <= a < |clean| ==> next[a] == clean[a];
  }

  /** A point absent from the prefix before `i` occurs first at `i`. */
  lemma FirstOccurrence(points: seq<Point>, i: nat)
    requires i < |points| && points[i] !in points[..i]
    ensures FirstIndex(points, points[i]) == i
  {
  }

  /** A triangle's corners in the order 0, 2, 1, as x, y values. */
  function TriangleValues(t: Triangle): seq<real> {
    [t.a.x, t.a.y, t.c.x, t.c.y, t.b.x, t.b.y]
  }

  /** The values stored for a list of triangles, six per triangle. */
  function TrianglesValues(ts: seq<Triangle>): (r: seq<real>)
    ensures |r| == 6 * |ts|
    ensures forall t :: 0 <= t < |ts| ==> r[6 * t..6 * t + 6] == TriangleValues(ts[t])
  {
    if |ts| == 0 then []
    else
      var rest := TrianglesValues(ts[..|ts| - 1]);
      var r := rest + TriangleValues(ts[|ts| - 1]);
      assert forall t :: 0 <= t < |ts| - 1 ==> r[6 * t..6 * t + 6] == rest[6 * t..6 * t + 6];
      r
  }

  /** The values `Triangulate` appends: nothing below four points, else
      the triangles of the duplicate-free outline. */
  function TriangulatedValues(points: seq<Point>, triangulate: Triangulator): (r: seq<real>)
    ensures |r| % 6 == 0
  {
    if |points| < 4 then [] else TrianglesValues(triangulate(UniqueInOrder(points)))
  }

  /** `Triangulate`: fewer than four points leave the vertices alone and
      report success; otherwise the duplicate-free outline is triangulated,
      each triangle is appended with its last two corners swapped, and the
      result tells whether the vertex list now holds more than three
      values. */
  method Triangulate(vertices: seq<real>, points: seq<Point>, triangulate: Triangulator)
    returns (out: seq<real>, ok: bool)
    ensures out == vertices + TriangulatedValues(points, triangulate)
    ensures ok <==> |points| < 4 || |out| > 3
  {
    if |points| < 4 {
      return vertices, true;
    }
    var clean := RemoveDuplicates(points);
    out := vertices + TrianglesValues(triangulate(clean));
    ok := |out| > 3;
  }

  // ---------------------------------------------------------------------------
  // Polylines as navigation geometry

  /** The values of an open polyline before `EdgesToTriangles`: its edges,
      each as the x, y values of its two ends. A lone point is written
      once. */
  function OpenPolylineValues(points: seq<Point>): (r: seq<real>)
    ensures |points| > 1 ==> |r| == 4 * (|points| - 1)
    ensures forall e :: 0 <= e < |points| - 1 ==>
              r[4 * e..4 * e + 4] == [points[e].x, points[e].y, points[e + 1].x, points[e + 1].y]
  {
    EdgeValuesPositions(points);
    EdgeValues(points)
  }

  /** The edge list built one point at a time: the last edge follows the
      edges of the points before it. */
  function EdgeValues(points: seq<Point>): seq<real> {
    if |points| <= 1 then
      if |points| == 1 then [points[0].x, points[0].y] else []
    else if |points| == 2 then
      [points[0].x, points[0].y, points[1].x, points[1].y]
    else
      var prev, last := points[|points| - 2], points[|points| - 1];
      EdgeValues(points[..|points| - 1]) + [prev.x, prev.y, last.x, last.y]
  }

  lemma {:induction false} EdgeValuesPositions(points: seq<Point>)
    ensures |points| > 1 ==> |EdgeValues(points)| == 4 * (|points| - 1)
    ensures forall e :: 0 <= e < |points| - 1 ==>
              EdgeValues(points)[4 * e..4 * e + 4] == [points[e].x, points[e].y, points[e + 1].x, points[e + 1].y]
  {
    if |points| > 2 {
      var front := points[..|points| - 1];
      EdgeValuesPositions(front);
      var rest, r := EdgeValues(front), EdgeValues(points);
      assert forall e :: 0 <= e < |points| - 2 ==> r[4 * e..4 * e + 4] == rest[4 * e..4 * e + 4];
    }
  }

  /** The loop of `ModelFromPolyline` that writes the values: every point,
      and every interior point twice. */
  method PolylineLoop(points: seq<Point>) returns (values: seq<real>)
    ensures values == OpenPolylineValues(points)
  {
    values := [];
    var i := 0;
    while i < |points|
      invariant 0 <= i <= |points|
      invariant values == EdgeValues(points[..i]) + (if 1 < i < |points| then [points[i - 1].x, points[i - 1].y] else [])
    {
      PolylinePrefixStep(points, i);
      values := values + [points[i].x, points[i].y];
      if i > 0 && i < |points| - 1 {
        values := values + [points[i].x, points[i].y];
      }
      i := i + 1;
    }
    assert points[..|points|] == points;
  }

  /** One more point adds its edge to the edge list of a prefix. */
  lemma PolylinePrefixStep(points: seq<Point>, i: nat)
    requires i < |points|
    ensures i == 0 ==> EdgeValues(points[..i + 1]) == [points[0].x, points[0].y]
    ensures i >= 1 ==> EdgeValues(points[..i + 1])
                       == (if i == 1 then [] else EdgeValues(points[..i]))
                          + [points[i - 1].x, points[i - 1].y, points[i].x, points[i].y]
  {
    var q := points[..i + 1];
    if i >= 2 {
      assert q[..i] == points[..i];
    }
  }

  /** A closed outline: more than three points with the last repeating the
      first. */
  predicate IsClosed(points: seq<Point>) {
    |points| > 3 && points[0] == points[|points| - 1]
  }

  /** `ModelFromPolyline`, for the vertex list it hands to the model: none
      for no points or no navigation mesh; a closed outline loses its
      closing point and is triangulated; an open one becomes degenerate
      triangles along its edges. */
  method ModelFromPolyline(points: seq<Point>, hasNavMesh: bool, triangulate: Triangulator)
    returns (vertices: Option<seq<real>>)
    ensures vertices.None? <==> |points| == 0 || !hasNavMesh
    ensures vertices.Some? && IsClosed(points) ==>
              vertices.value == TriangulatedValues(points[..|points| - 1], triangulate)
    ensures vertices.Some? && !IsClosed(points) ==>
              var values := OpenPolylineValues(points);
              |vertices.value| == |values| + 2 * (|values| / 4)
              && forall i :: 0 <= i < |values| ==> vertices.value[i + 2 * (i / 4)] == values[i]
    ensures vertices.Some? && !IsClosed(points) ==>
              var values := OpenPolylineValues(points);
              forall q :: 0 <= q < |values| / 4 ==>
                vertices.value[6 * q + 4] == values[4 * q + 2] && vertices.value[6 * q + 5] == values[4 * q + 3]
  {
    if |points| == 0 || !hasNavMesh {
      return None;
    }
    if IsClosed(points) {
      var out, _ := Triangulate([], points[..|points| - 1], triangulate);
      return Some(out);
    }
    var values := PolylineLoop(points);
    var edges := EdgesToTriangles(values);
    return Some(edges);
  }

  // ---------------------------------------------------------------------------
  // Convex collision polygons

  /** `DecomposePolygon`: the convex pieces of `points`, as the decomposer
      returns them (empty pieces included), appended to `polygons`; the flag
      tells whether the list is now non-empty. `None` when the decomposition
      would not finish within `fuel` levels. */
  function DecomposePolygon(polygons: seq<Polygon>, points: Polygon, fuel: nat): (r: Option<(seq<Polygon>, bool)>)
    ensures r.Some? <==> Bayazit.ConvexPartition(points, Bayazit.DefaultMaxVertices, fuel).Some?
    ensures r.Some? ==>
              var pieces := Bayazit.ConvexPartition(points, Bayazit.DefaultMaxVertices, fuel).value;
              r.value.0 == polygons + pieces && (r.value.1 <==> |polygons| + |pieces| > 0)
  {
    match Bayazit.ConvexPartition(points, Bayazit.DefaultMaxVertices, fuel)
    case None => None
    case Some(pieces) => Some((polygons + pieces, |polygons + pieces| > 0))
  }

  /** The collision polygons of `CreatePolygonShape`: an object with more
      than three points is decomposed, and when that gives nothing the
      outline itself is the one polygon. A piece the decomposer left empty
      is kept and becomes a shape with no vertices. */
  function CollisionPolygons(numPoints: nat, outline: Polygon, fuel: nat): (r: Option<seq<Polygon>>)
    ensures numPoints <= 3 ==> r == Some([outline])
    ensures numPoints > 3 ==> (r.Some? <==> Bayazit.ConvexPartition(outline, Bayazit.DefaultMaxVertices, fuel).Some?)
    ensures numPoints > 3 && r.Some? ==>
              var pieces := Bayazit.ConvexPartition(outline, Bayazit.DefaultMaxVertices, fuel).value;
              r.value == if |pieces| == 0 then [outline] else pieces
    ensures r.Some? ==> |r.value| >= 1
    ensures r.Some? ==> forall k :: 0 <= k < |r.value| ==> r.value[k] == outline || |r.value[k]| <= Bayazit.DefaultMaxVertices
  {
    var decomposed := if numPoints > 3 then DecomposePolygon([], outline, fuel) else Some(([], false));
    match decomposed
    case None => None
    case Some((polygons, _)) => if |polygons| == 0 then Some([outline]) else Some(polygons)
  }

  /** A polygon object of four points on the x axis gets, as written, one
      collision shape with no vertices: the decomposer lists one empty
      piece, so the fall-back to the outline is not taken. */
  lemma FlatOutlineMakesEmptyShape(t: real)
    ensures CollisionPolygons(4, [Point(0.0, 0.0), Point(t, 0.0), Point(2.0 * t, 0.0), Point(3.0 * t, 0.0)], 1) == Some([[]])
  {
    var outline := [Point(0.0, 0.0), Point(t, 0.0), Point(2.0 * t, 0.0), Point(3.0 * t, 0.0)];
    assert Bayazit.OnXAxis(outline);
    Bayazit.FlatOutlineLeavesEmptyPiece(outline, Bayazit.DefaultMaxVertices, 1);
  }

  /** The collision polygons with the decomposer's empty pieces dropped:
      every shape has at least one vertex whenever the outline has, and the
      outline is the fall-back when no piece has a vertex. */
  function FilteredCollisionPolygons(numPoints: nat, outline: Polygon, fuel: nat): (r: Option<seq<Polygon>>)
    ensures numPoints <= 3 ==> r == Some([outline])
    ensures numPoints > 3 ==> (r.Some? <==> Bayazit.ConvexPartition(outline, Bayazit.DefaultMaxVertices, fuel).Some?)
    ensures numPoints > 3 && r.Some? ==>
              var pieces := Bayazit.NonEmpty(Bayazit.ConvexPartition(outline, Bayazit.DefaultMaxVertices, fuel).value);
              r.value == if |pieces| == 0 then [outline] else pieces
  {
    if numPoints <= 3 then Some([outline])
    else
      match Bayazit.Decompose(outline, Bayazit.DefaultMaxVertices, fuel)
      case None => None
      case Some(pieces) => Some(FallBack(outline, pieces))
  }

  /** The pieces, or the outline alone when there are none. */
  function FallBack(outline: Polygon, pieces: seq<Polygon>): seq<Polygon> {
    if |pieces| == 0 then [outline] else pieces
  }

  lemma FallBackShapes(outline: Polygon, pieces: seq<Polygon>, maxVertices: nat)
    requires forall k :: 0 <= k < |pieces| ==> 0 < |pieces[k]| <= maxVertices
    ensures var r := FallBack(outline, pieces);
            |r| >= 1 && forall k :: 0 <= k < |r| ==> r[k] == outline || 0 < |r[k]| <= maxVertices
  {
  }

  /** Every filtered shape is the outline or a piece of one to eight
      vertices. */
  lemma FilteredShapesHaveVertices(numPoints: nat, outline: Polygon, fuel: nat)
    ensures var r := FilteredCollisionPolygons(numPoints, outline, fuel);
            r.Some? ==> |r.value| >= 1
                        && forall k :: 0 <= k < |r.value| ==> r.value[k] == outline || 0 < |r.value[k]| <= Bayazit.DefaultMaxVertices
  {
    if numPoints > 3 {
      var d := Bayazit.Decompose(outline, Bayazit.DefaultMaxVertices, fuel);
      if d.Some? {
        FallBackShapes(outline, d.value, Bayazit.DefaultMaxVertices);
      }
    }
  }

  /** With empty pieces dropped, the flat outline falls back to itself. */
  lemma FilteredFlatOutlineIsItself(t: real)
    ensures var outline := [Point(0.0, 0.0), Point(t, 0.0), Point(2.0 * t, 0.0), Point(3.0 * t, 0.0)];
            FilteredCollisionPolygons(4, outline, 1) == Some([outline])
  {
    var outline := [Point(0.0, 0.0), Point(t, 0.0), Point(2.0 * t, 0.0), Point(3.0 * t, 0.0)];
    assert Bayazit.OnXAxis(outline);
    Bayazit.FlatOutlineLeavesEmptyPiece(outline, Bayazit.DefaultMaxVertices, 1);
  }

  /** Dropping empty pieces changes nothing when the decomposer leaves none. */
  lemma FilteringKeepsNonEmptyPieces(numPoints: nat, outline: Polygon, fuel: nat)
    requires var r := Bayazit.ConvexPartition(outline, Bayazit.DefaultMaxVertices, fuel);
             r.Some? ==> forall k :: 0 <= k < |r.value| ==> |r.value[k]| > 0
    ensures FilteredCollisionPolygons(numPoints, outline, fuel) == CollisionPolygons(numPoints, outline, fuel)
  {
  }

  /** The outline of a polygon or polyline object: its points, and for a
      polyline without the closing point. */
  function ShapeOutline(obj: TileMapObject): (r: Polygon)
    requires obj.objectType == PolylineObject ==> |obj.points| > 0
    ensures obj.objectType == PolylineObject ==> r == obj.points[..|obj.points| - 1]
    ensures obj.objectType != PolylineObject ==> r == obj.points
  {
    var points := seq(|obj.points|, i requires 0 <= i < |obj.points| => GetPoint(obj, i));
    assert points == obj.points;
    if obj.objectType == PolylineObject then points[..|points| - 1] else points
  }

  /** An outline of four to eight points with no reflex vertex comes back
      as the one piece it is, simplified. */
  lemma ConvexOutlineIsOnePiece(outline: Polygon, fuel: nat)
    requires 3 < |outline| <= Bayazit.DefaultMaxVertices && fuel >= 1
    requires forall k :: 0 <= k < |outline| ==> !Reflex(k, Normalise(outline))
    ensures CollisionPolygons(|outline|, outline, fuel) == Some([CollinearSimplify(Normalise(outline), 0.0)])
  {
    Bayazit.ConvexWithinLimit(outline, Bayazit.DefaultMaxVertices, fuel);
  }
}
