# Urho3D tile maps and Bayazit convex decomposition, in Dafny

This project models two parts of the Urho3D 2D tile-map code:

- The Bayazit convex decomposer bundled with polypartition. It splits a simple polygon into convex pieces, each with at most `maxPolygonVertices_` vertices (8 by default). It is built from these parts:
  - circular indexing;
  - the turn predicates;
  - range copy;
  - line and segment intersection;
  - the visibility test;
  - the shoelace area and winding normalisation;
  - collinear simplification;
  - the recursive partition.
- The pure parts of the tile-map code built on top of it:
  - map size and the conversions between tile indices and positions;
  - property sets, object points and the layer accessors;
  - the tile render order and the early-return setters;
  - gid flag stripping, base64 little-endian gid assembly and layer-data placement;
  - object classification and layer insertion;
  - tile-animation key timing;
  - the vertex lists the map builder produces for navigation geometry, and its collision-polygon fallback.

Coordinates are exact `real`s, with `Epsilon = 0.0001` for the near-zero tests. Integers are unbounded. The C `int` of the base64 gid is modelled as two's complement, and the flag word as `bv32`. Every operation is a pure function or a method over sequences. The engine's node pointers are modelled as `Option<NodeId>`, its objects as datatypes, and null results as `None`.

Modules, one per file:

- `Wrappers` (wrappers.dfy): `Option` and `Result`.
- `Geometry` (geometry.dfy): points, `At`, the turn predicates, `Copy`, both `LineIntersect` forms, signed area, normalisation and `CollinearSimplify`.
- `Visibility` (visibility.dfy): `CanSee`.
- `Bayazit` (decomposer.dfy): the choice of split and the fuel-bounded `ConvexPartition`.
- `TileMapDefs` (tilemap_defs.dfy): `TileMapInfo2D`, `PropertySet2D` and `TileMapObject2D`.
- `TileMapLayer` (tilemap_layer.dfy): `TileMapLayer2D`.
- `TmxFile` (tmx_file.dfy): `TmxFile2D` and its layers.
- `TileMapMesh` (tilemap_mesh.dfy): the sequence helpers of `TileMap2D`.

## Model

| member | source | states |
|---|---|---|
| Geometry.Midpoint | Source/ThirdParty/polypartition/bayazit.h:350 | the split point doubled equals the sum of the two intersection points |
| Geometry.RawIndexInRange | Source/ThirdParty/polypartition/bayazit.h:57-61 | the index `At` computes lies in `[0, s]`; it is below `s` exactly when `i >= 0` or `-i` is not a multiple of `s`, so `At(-s)` reads one past the end |
| Geometry.AtIndex | Source/ThirdParty/polypartition/bayazit.h:57-61 | when it is in range, the index of `At` is a valid position |
| Geometry.AtIsModular | Source/ThirdParty/polypartition/bayazit.h:57-61 | `At(i)` is `v[i % s]` for `i >= 0` and `v[s + i]` for `-s < i < 0`; index `-s` gives position `s` |
| Geometry.AreaProperties | Source/ThirdParty/polypartition/bayazit.h:82 | the area formula equals the cross-product form in the trailing comment; it negates when two points swap, is invariant under rotation, and is 0 when two points coincide |
| Geometry.TurnPredicateDuality | Source/ThirdParty/polypartition/bayazit.h:64-79 | `Right` is `!LeftOn` and `Left` is `!RightOn`; both non-strict tests hold exactly for collinear points; `Left(a,b,c)` is `Right(a,c,b)` |
| Geometry.ReflexTurnsClockwise | Source/ThirdParty/polypartition/bayazit.h:64-73 | a vertex is reflex exactly when the triangle of its two neighbours and itself has negative signed area, and then that triangle is not counter-clockwise |
| Geometry.NeighboursIndexableFrom | Source/ThirdParty/polypartition/bayazit.h:73 | `Reflex(i)` reads `At(i-1)`, `At(i)` and `At(i+1)` in range for every `i >= 0` of a polygon with two or more vertices |
| Geometry.SquareDist | Source/ThirdParty/polypartition/bayazit.h:85-90 | the squared distance is never negative |
| Geometry.CopyEnd | Source/ThirdParty/polypartition/bayazit.h:144-153 | the end index is `j` plus the fewest multiples of `n` that reach `i` |
| Geometry.Copy | Source/ThirdParty/polypartition/bayazit.h:144-153 | the copy holds `At(i), ..., At(j')` and has length `j' - i + 1` |
| Geometry.CopyInRange | Source/ThirdParty/polypartition/bayazit.h:144-153 | for in-range `i` and `j`, the copy has `j - i + 1` vertices, or `j + n - i + 1` when it wraps; it starts at `v[i]` and ends at `v[j]` |
| Geometry.LineIntersect | Source/ThirdParty/polypartition/bayazit.h:156-175 | a near-zero determinant gives the origin; otherwise the result lies on both lines |
| Geometry.CramerSolves | Source/ThirdParty/polypartition/bayazit.h:156-175 | the Cramer's-rule point satisfies both line equations |
| Geometry.SegmentIntersect | Source/ThirdParty/polypartition/bayazit.h:177-226 | a miss gives the origin; a near-zero denominator is a miss; otherwise it is a hit iff the parameters pass the segment bounds and are not both 0; a hit lies at parameter `ua` on the first line and `ub` on the second |
| Geometry.SegmentPointOnBoth | Source/ThirdParty/polypartition/bayazit.h:177-226 | the point at `ua` on the first line is the point at `ub` on the second |
| Geometry.ComputeSignedArea | Source/ThirdParty/polypartition/bayazit.h:235-248 | the shoelace loop computes the signed area: 0 below three points, else half the closed sum |
| Geometry.SignedArea | Source/ThirdParty/polypartition/bayazit.h:235-248 | a triangle's signed area is half its `Area` |
| Geometry.IsCounterClockWise | Source/ThirdParty/polypartition/bayazit.h:232 | a triangle is counter-clockwise exactly when it turns left |
| Geometry.ReverseIndex | Source/ThirdParty/polypartition/bayazit.h:294-295 | reversal puts `v[n-1-k]` at position `k` |
| Geometry.SignedAreaReverse | Source/ThirdParty/polypartition/bayazit.h:294-295 | reversing a polygon negates its signed area |
| Geometry.ReversalFlipsWinding | Source/ThirdParty/polypartition/bayazit.h:232 | for a polygon with non-zero area, exactly one of it and its reversal is counter-clockwise |
| Geometry.Normalise | Source/ThirdParty/polypartition/bayazit.h:294-295 | winding normalisation keeps the length, leaves counter-clockwise input unchanged, reverses any other input, and leaves a polygon of three or more vertices with signed area at least 0 |
| Geometry.KeptIndices | Source/ThirdParty/polypartition/bayazit.h:263-280 | the surviving indices are increasing, each survives the collinearity test, and every survivor is listed |
| Geometry.CollinearSimplify | Source/ThirdParty/polypartition/bayazit.h:257-282 | below three vertices the input is returned; otherwise exactly the non-collinear vertices are returned, in order, never more than the input |
| Geometry.CollinearSimplifyExtremes | Source/ThirdParty/polypartition/bayazit.h:257-282 | with no collinear vertex the polygon is unchanged; with three or more vertices all collinear it becomes empty |
| Geometry.AllKeptIsIdentity | Source/ThirdParty/polypartition/bayazit.h:263-280 | when every vertex survives, the surviving indices from `from` on are `from, from + 1, ..., n - 1` |
| Visibility.OutsideCone | Source/ThirdParty/polypartition/bayazit.h:93-115 | a vertex at the same point as `i`, or at the position of either of its neighbours, lies outside `i`'s cone |
| Visibility.NoObstructionFrom | Source/ThirdParty/polypartition/bayazit.h:117-140 | the edge loop finds no obstruction iff no edge from `k` on obstructs |
| Visibility.CanSee | Source/ThirdParty/polypartition/bayazit.h:93-141 | `i` sees `j` iff neither end lies outside the other's cone and no edge obstructs |
| Visibility.CannotSeeSamePoint | Source/ThirdParty/polypartition/bayazit.h:93-115 | a vertex does not see a vertex at the same point |
| Visibility.CannotSeeNeighbour | Source/ThirdParty/polypartition/bayazit.h:93-115 | a vertex does not see a vertex at its neighbour's position |
| Visibility.EdgeObstructs | Source/ThirdParty/polypartition/bayazit.h:117-140 | an edge obstructs iff it shares no endpoint with the segment and the segments cross at a point other than the origin (a crossing exactly at the origin counts as none) |
| Visibility.CanSeeSymmetric | Source/ThirdParty/polypartition/bayazit.h:93-141 | visibility is symmetric in `i` and `j` |
| Visibility.SegmentIntersectReversed | Source/ThirdParty/polypartition/bayazit.h:177-226 | swapping the ends of the first segment does not change the segment test |
| Bayazit.FirstReflex | Source/ThirdParty/polypartition/bayazit.h:300-302 | the scan stops at the first reflex vertex, or at `n` when there is none |
| Bayazit.ScanNearest | Source/ThirdParty/polypartition/bayazit.h:306-345 | the lower or upper scan keeps the candidate hit point nearest to vertex `i`, the earliest on ties, and its squared distance |
| Bayazit.Score | Source/ThirdParty/polypartition/bayazit.h:367-371 | a visible vertex scores in `(tier, tier + 1]`, where the tier is 3 for a reflex vertex that has `i` in its own cone, 2 for another reflex vertex and 1 for a convex one |
| Bayazit.ScoreRanking | Source/ThirdParty/polypartition/bayazit.h:367-371 | a higher tier always scores higher; within one tier a vertex scores higher than another exactly when it is nearer to `i` |
| Bayazit.BestVisible | Source/ThirdParty/polypartition/bayazit.h:359-379 | the chosen vertex is visible and has the highest score in `[lowerIndex, upperIndex]`, the earliest on ties |
| Bayazit.ChosenVertex | Source/ThirdParty/polypartition/bayazit.h:359-381 | the split vertex is the lower hit's index when no vertex in `[lowerIndex, upperIndex]` is visible; otherwise it is visible, scores at least as high as every visible vertex in the range, and strictly higher than every visible vertex before it |
| Bayazit.SplitAtReflex | Source/ThirdParty/polypartition/bayazit.h:348-382 | both parts of a cut are non-empty, the lower part starts at vertex `i` and the upper part contains it |
| Bayazit.SplitAtReflexDiagonal | Source/ThirdParty/polypartition/bayazit.h:380-381 | splitting along a diagonal gives two parts that share the diagonal's ends |
| Bayazit.SplitAtReflexMidpoint | Source/ThirdParty/polypartition/bayazit.h:348-356 | with no vertex between the hits, both parts end at the midpoint of the two intersection points |
| Bayazit.CopyEndCongruent | Source/ThirdParty/polypartition/bayazit.h:144-153 | the end of a copy is congruent to `j` modulo `n` |
| Bayazit.SimplifyEach | Source/ThirdParty/polypartition/bayazit.h:425-427 | every piece is replaced by its collinear simplification, which is no longer |
| Bayazit.Join | Source/ThirdParty/polypartition/bayazit.h:386-403 | two recursive results are listed one after the other |
| Bayazit.SmallerFirst | Source/ThirdParty/polypartition/bayazit.h:384-403 | the two parts are ordered by size, the smaller first, and the upper part first when the sizes are equal |
| Bayazit.NextStep | Source/ThirdParty/polypartition/bayazit.h:300-423 | a polygon is cut exactly when it has a reflex vertex; it is bisected only when it is over the vertex limit; it is kept whole, as it is, only when it is within the limit; a polygon that is bisected or kept has no reflex vertex |
| Bayazit.ConvexPartition | Source/ThirdParty/polypartition/bayazit.h:285-440 | fewer than three vertices give no pieces; every piece has at most `max` vertices and is a polygon of three to `max` vertices with no reflex vertex, cleaned of collinear vertices once or more |
| Bayazit.PartitionConvex | Source/ThirdParty/polypartition/bayazit.h:384-429 | only kept polygons become pieces: cuts and bisections gather the pieces of their parts, and simplification keeps a piece convex |
| Bayazit.PartitionWithin | Source/ThirdParty/polypartition/bayazit.h:384-429 | no piece of a decomposition has more vertices than the limit |
| Bayazit.FuelMonotone | Source/ThirdParty/polypartition/bayazit.h:285-440 | once the decomposition finishes within some recursion depth, any larger depth gives the same pieces |
| Bayazit.TooFewVertices | Source/ThirdParty/polypartition/bayazit.h:289-291 | fewer than three vertices give no pieces |
| Bayazit.ConvexWithinLimit | Source/ThirdParty/polypartition/bayazit.h:410-429 | a polygon with no reflex vertex and within the limit gives exactly the one piece `CollinearSimplify(normalised input)` |
| Bayazit.NoReflexKeeps | Source/ThirdParty/polypartition/bayazit.h:410-429 | a polygon with no reflex vertex within the limit is kept whole |
| Bayazit.ConvexBisection | Source/ThirdParty/polypartition/bayazit.h:410-414 | a convex polygon over a limit of at least 3 is bisected at `n / 2` into the copies from vertex 0 to `n / 2` and from `n / 2` back to 0; the halves have `n/2 + 1` and `n - n/2 + 1` vertices, are both smaller than `n`, and share their end vertices |
| Bayazit.ConvexOverLimitRecurses | Source/ThirdParty/polypartition/bayazit.h:410-429 | a convex polygon over the limit decomposes into the lower half's pieces followed by the upper half's, each one level deeper, every piece cleaned of collinear vertices again; if either half does not finish, neither does the whole |
| Bayazit.ReflexPiecesOrder | Source/ThirdParty/polypartition/bayazit.h:384-403 | at the first reflex vertex the polygon is cut into the two parts of `SplitAtReflex`; the smaller one comes first, and the upper one on equal sizes |
| Bayazit.ReflexCutRecurses | Source/ThirdParty/polypartition/bayazit.h:384-405 | for a polygon with a reflex vertex, the decomposition is that of the first part followed by that of the second, each one level deeper |
| Bayazit.CollinearTriangleLeavesEmptyPiece | Source/ThirdParty/polypartition/bayazit.h:432-437 | three evenly spaced points on the x axis, such as (0,0), (1,0), (2,0), decompose, as written, into one empty piece |
| Bayazit.DegenerateTriangleLeavesEmptyPiece | Source/ThirdParty/polypartition/bayazit.h:285-437 | any three collinear points decompose, as written, into one empty piece |
| Bayazit.FlatOutlineLeavesEmptyPiece | Source/ThirdParty/polypartition/bayazit.h:285-437 | three to `max` points all on the x axis decompose, as written, into one empty piece |
| Bayazit.DegenerateTriangleReversed | Source/ThirdParty/polypartition/bayazit.h:294-295 | three collinear points are not counter-clockwise, so normalisation reverses them |
| Bayazit.NonEmpty | Source/ThirdParty/polypartition/bayazit.h:432-437 | removing empty pieces keeps exactly the non-empty ones, leaves a list without empty pieces unchanged, and turns a single empty piece into no pieces |
| Bayazit.NonEmptyAppend | Source/ThirdParty/polypartition/bayazit.h:432-437 | filtering a concatenation filters each part in place, so the kept pieces stay in their order |
| Bayazit.Decompose | Source/ThirdParty/polypartition/bayazit.h:432-437 | the decomposition with empty pieces removed: it finishes exactly when the as-written one does, its pieces are the as-written pieces filtered in order, and each has 1 to `max` vertices |
| Bayazit.WithinAndNonEmpty | Source/ThirdParty/polypartition/bayazit.h:432-437 | with empty pieces removed, as the final loop intends, pieces within the limit leave pieces of 1 to `max` vertices, the non-empty ones in order |
| Bayazit.SinglePieceKept | Source/ThirdParty/polypartition/bayazit.h:432-437 | with empty pieces removed, as the final loop intends, a decomposition into one non-empty piece keeps that piece |
| Bayazit.CollinearTriangleHasNoPieces | Source/ThirdParty/polypartition/bayazit.h:432-437 | with empty pieces removed, three evenly spaced points on the x axis give no pieces |
| TileMapDefs.PlainMapSize | Source/Urho3D/Urho2D/TileMapDefs2D.cpp:37-86 | orthogonal and isometric maps measure `width * tileWidth` by `height * tileHeight` |
| TileMapDefs.StaggeredMapSize | Source/Urho3D/Urho2D/TileMapDefs2D.cpp:37-86 | a staggered map adds half a tile across the stagger axis; along it, the plain size plus a tile is halved |
| TileMapDefs.HexagonalMatchesStaggered | Source/Urho3D/Urho2D/TileMapDefs2D.cpp:48-83 | a hexagonal map measures like a staggered one along the axis without side length, and fully so when the side length is 0 |
| TileMapDefs.StaggeredColumnsAndRows | Source/Urho3D/Urho2D/TileMapDefs2D.cpp:119-134 | in staggered and hexagonal maps staggered along X, neighbouring columns step by half a tile (plus side length) and alternate half a tile up and down; staggered along Y, neighbouring tiles in a row step a whole tile |
| TileMapDefs.StaggeredRows | Source/Urho3D/Urho2D/TileMapDefs2D.cpp:119-134 | in staggered and hexagonal maps staggered along Y, the next row is half a tile (plus side length) lower and alternates half a tile left and right; staggered along X, it is a whole tile straight below |
| TileMapDefs.Trunc | Source/Urho3D/Urho2D/TileMapDefs2D.cpp:300-301 | the C conversion to `int` truncates toward zero |
| TileMapDefs.OrthogonalPositionToTileIndex | Source/Urho3D/Urho2D/TileMapDefs2D.cpp:298-305 | the index is reported inside iff it lies within the map |
| TileMapDefs.OrthogonalRoundTrip | Source/Urho3D/Urho2D/TileMapDefs2D.cpp:136-138 | the position of an in-range tile maps back to that tile, reported inside |
| TileMapDefs.OrthogonalCell | Source/Urho3D/Urho2D/TileMapDefs2D.cpp:298-305 | every point of an in-range tile's cell maps back to that tile |
| TileMapDefs.TruncationAcceptsLeftOfMap | Source/Urho3D/Urho2D/TileMapDefs2D.cpp:300-305 | a point half a tile left of a one-tile map is reported inside, at tile (0, 0) |
| TileMapDefs.FlooredPositionToTileIndex | Source/Urho3D/Urho2D/TileMapDefs2D.cpp:298-305 | with flooring, the index is reported inside iff it lies within the map |
| TileMapDefs.FlooredInsideIffInRectangle | Source/Urho3D/Urho2D/TileMapDefs2D.cpp:298-305 | with flooring, a position is inside iff it lies in the map's pixel rectangle |
| TileMapDefs.FlooredAgreesInside | Source/Urho3D/Urho2D/TileMapDefs2D.cpp:298-305 | for non-negative positions, flooring and truncation agree |
| TileMapDefs.ConvertTileCorner | Source/Urho3D/Urho2D/TileMapDefs2D.cpp:102-106 | on an orthogonal map, the lower-left Tiled corner of tile (x, y) converts to that tile's position |
| TileMapDefs.IsometricTileCorner | Source/Urho3D/Urho2D/TileMapDefs2D.cpp:92-100 | on an isometric map, an object position at a whole tile step converts to half a tile right of that tile's position |
| TileMapDefs.LoadProperties | Source/Urho3D/Urho2D/TileMapDefs2D.cpp:316-321 | a name is a key iff some element names it, and its value is the last such element's |
| TileMapDefs.LoadedLookup | Source/Urho3D/Urho2D/TileMapDefs2D.cpp:316-321 | the element-by-element store has the keys and the last-wins values |
| TileMapDefs.GetProperty | Source/Urho3D/Urho2D/TileMapDefs2D.cpp:323-335 | a stored name gives its value, and any other name gives the empty string |
| TileMapDefs.LoadAppend | Source/Urho3D/Urho2D/TileMapDefs2D.cpp:316-321 | loading two lists one after the other is the first map overridden by the second |
| TileMapDefs.NumPropertiesOf | Source/Urho3D/Urho2D/TileMapDefs2D.cpp:342-347 | without a property set there are no properties |
| TileMapDefs.HasPropertyOf | Source/Urho3D/Urho2D/TileMapDefs2D.cpp:349-354 | a property exists iff there is a set and the name is in it |
| TileMapDefs.GetPropertyOf | Source/Urho3D/Urho2D/TileMapDefs2D.cpp:356-362 | a missing set or name gives the empty string, otherwise the stored value |
| TileMapDefs.GetPoint | Source/Urho3D/Urho2D/TileMapDefs2D.cpp:368-374 | an index past the end gives the origin, any other the stored point |
| TileMapDefs.GetPointReadsAll | Source/Urho3D/Urho2D/TileMapDefs2D.cpp:368-374 | reading every index in range gives back the stored points |
| TileMapLayer.RenderOrderRange | Source/Urho3D/Urho2D/TileMapLayer2D.cpp:520-543 | in-range tiles get orders within the `width * height` values that start at the order's first value |
| TileMapLayer.RenderOrderDirection | Source/Urho3D/Urho2D/TileMapLayer2D.cpp:526-541 | the down orders increase with the row and the up orders decrease; the right orders increase along a row and the left orders decrease |
| TileMapLayer.RenderOrderInjective | Source/Urho3D/Urho2D/TileMapLayer2D.cpp:526-541 | two in-range tiles never share an order |
| TileMapLayer.Width | Source/Urho3D/Urho2D/TileMapLayer2D.cpp:284-287 | without a layer the width is 0, and with one it is the layer's width |
| TileMapLayer.Height | Source/Urho3D/Urho2D/TileMapLayer2D.cpp:289-292 | without a layer the height is 0, and with one it is the layer's height |
| TileMapLayer.GetTileNode | Source/Urho3D/Urho2D/TileMapLayer2D.cpp:302-311 | there is no node without a tile layer or outside the bounds |
| TileMapLayer.EverySlotHasOneCell | Source/Urho3D/Urho2D/TileMapLayer2D.cpp:302-311 | every node slot `k` is the node of cell `(k % width, k / width)` |
| TileMapLayer.NumObjects | Source/Urho3D/Urho2D/TileMapLayer2D.cpp:313-319 | only an object group has objects, and it has all of its list |
| TileMapLayer.GetObjectAt | Source/Urho3D/Urho2D/TileMapLayer2D.cpp:321-327 | an index past the count gives nothing, any other the stored object |
| TileMapLayer.GetObjectNamed | Source/Urho3D/Urho2D/TileMapLayer2D.cpp:329-342 | a found object belongs to the object group and has that name |
| TileMapLayer.FirstNamedIsFirst | Source/Urho3D/Urho2D/TileMapLayer2D.cpp:334-341 | the scan finds nothing iff no object has the name, and otherwise the first that has it |
| TileMapLayer.GetObjectNamedIsFirst | Source/Urho3D/Urho2D/TileMapLayer2D.cpp:329-342 | the object found by name is the first in index order with that name |
| TileMapLayer.GetObjectNode | Source/Urho3D/Urho2D/TileMapLayer2D.cpp:344-350 | there is no node without an object group or past the node list, else the stored one |
| TileMapLayer.SetDrawOrder | Source/Urho3D/Urho2D/TileMapLayer2D.cpp:210-228 | the draw order is set, nothing else changes, and the sprites are updated only on a change |
| TileMapLayer.SetVisible | Source/Urho3D/Urho2D/TileMapLayer2D.cpp:230-242 | visibility is set, nothing else changes, and the nodes are updated only on a change |
| TileMapLayer.SetOpacity | Source/Urho3D/Urho2D/TileMapLayer2D.cpp:244-262 | the opacity is set, nothing else changes, and the sprites are updated only on a change |
| TileMapLayer.SettersIdempotent | Source/Urho3D/Urho2D/TileMapLayer2D.cpp:210-262 | setting the same value a second time changes nothing and updates nothing |
| TmxFile.GetActualGid | Source/Urho3D/Urho2D/TmxFile2D.cpp:896-915 | the flags are cleared from the gid; each flip component becomes 1 when its flag (bit 31, 30, 29) is set and keeps its value otherwise |
| TmxFile.ClearFlags | Source/Urho3D/Urho2D/TmxFile2D.cpp:914 | no flag bit is left, and putting the flags back restores the gid, so bits 0-28 are kept |
| TmxFile.GetActualGidIdempotent | Source/Urho3D/Urho2D/TmxFile2D.cpp:896-915 | a second call finds no flag: the gid and the flip vector stay as they are |
| TmxFile.FlipAxisFromZero | Source/Urho3D/Urho2D/TmxFile2D.cpp:904-911 | from a zero vector, each component is 1 exactly when its bit is set |
| TmxFile.FlagsRoundTrip | Source/Urho3D/Urho2D/TmxFile2D.cpp:914 | a gid below 2^29 with any flags added comes back unchanged |
| TmxFile.Signed32 | Source/Urho3D/Urho2D/TmxFile2D.cpp:202-203 | the unsigned word read as a C `int` lies in the 32-bit range and is congruent modulo 2^32 |
| TmxFile.LittleEndian | Source/Urho3D/Urho2D/TmxFile2D.cpp:201-203 | four bytes make a 32-bit unsigned word |
| TmxFile.LittleEndianGid | Source/Urho3D/Urho2D/TmxFile2D.cpp:201-203 | the assembled gid is a 32-bit signed value, negative exactly when the top byte is 0x80 or more |
| TmxFile.LittleEndianRoundTrip | Source/Urho3D/Urho2D/TmxFile2D.cpp:201-203 | assembling the little-endian bytes of a word gives that word as a C `int` |
| TmxFile.MakeCell | Source/Urho3D/Urho2D/TmxFile2D.cpp:152-158 | a cell gets a tile iff its gid is positive, with that gid and its tile set's properties |
| TmxFile.ClassifyEncoding | Source/Urho3D/Urho2D/TmxFile2D.cpp:114-137 | compression fails; no encoding means XML; "xml", "csv" and "base64" name their encodings; any other name fails |
| TmxFile.EncodingNameRoundTrip | Source/Urho3D/Urho2D/TmxFile2D.cpp:121-135 | the name of an encoding is classified as that encoding |
| TmxFile.SkipToPayload | Source/Urho3D/Urho2D/TmxFile2D.cpp:190-194 | the payload starts at the first letter, digit, `+` or `/` of the text |
| TmxFile.CellGids | Source/Urho3D/Urho2D/TmxFile2D.cpp:140-215 | cell `k` is read from tile element `k`, CSV value `k`, or bytes `4k` to `4k + 3` |
| TmxFile.FlippedBase64CellIsEmpty | Source/Urho3D/Urho2D/TmxFile2D.cpp:202-210 | a base64 cell with the horizontal-flip bit has a negative gid and stays empty |
| TmxFile.PlaceTiles | Source/Urho3D/Urho2D/TmxFile2D.cpp:139-215 | the grid has `width * height` cells, and cell `y * width + x` is made from the gid read for it |
| TmxFile.LoadTileLayer | Source/Urho3D/Urho2D/TmxFile2D.cpp:103-221 | a missing data element, compression or an unknown encoding fails with that error; otherwise every cell holds the tile for its gid |
| TmxFile.GetTile | Source/Urho3D/Urho2D/TmxFile2D.cpp:223-229 | there is no tile outside the bounds |
| TmxFile.GetTileAfterLoad | Source/Urho3D/Urho2D/TmxFile2D.cpp:223-229 | after loading, the tile at an in-range (x, y) is the one made from that cell's gid |
| TmxFile.ClassifyObject | Source/Urho3D/Urho2D/TmxFile2D.cpp:249-258 | the type chosen is marked on the element, and no type earlier in the priority gid > polygon > polyline > ellipse > rectangle is |
| TmxFile.LoadObject | Source/Urho3D/Urho2D/TmxFile2D.cpp:240-319 | an object is skipped iff it is a polygon or polyline with at most one point; otherwise it gets its classified type, name, type name and properties; a rectangle or ellipse is placed at its converted lower-left corner with its size scaled by the pixel size; a tile is placed at its converted position with its gid, and sized from its width or height attributes, else from its sprite, else zero; a polygon or polyline keeps its points offset by its position and converted |
| TmxFile.ConvertPoints | Source/Urho3D/Urho2D/TmxFile2D.cpp:299-306 | each point is offset by the object's position and converted |
| TmxFile.LoadObjects | Source/Urho3D/Urho2D/TmxFile2D.cpp:240-320 | the group holds one object per element that is not skipped |
| TmxFile.LoadObjectsInOrder | Source/Urho3D/Urho2D/TmxFile2D.cpp:240-320 | with nothing skipped, object `i` is the one loaded from element `i` |
| TmxFile.LoadObjectsAreLoadedInOrder | Source/Urho3D/Urho2D/TmxFile2D.cpp:240-320 | the group's objects are exactly the objects of the elements loaded one at a time, the skipped ones dropped, in element order |
| TmxFile.Somes | Source/Urho3D/Urho2D/TmxFile2D.cpp:240-320 | the present values are never more than the options, and a value is present iff some option holds it |
| TmxFile.SomesOfPresent | Source/Urho3D/Urho2D/TmxFile2D.cpp:240-320 | with no option missing, value `i` is option `i` unwrapped |
| TmxFile.AddLayer | Source/Urho3D/Urho2D/TmxFile2D.cpp:542-548 | an index past the end appends, any other inserts there; the list grows by one and the other layers keep their order |
| TmxFile.AddThenRemove | Source/Urho3D/Urho2D/TmxFile2D.cpp:542-548 | removing the inserted layer gives back the original list |
| TmxFile.GetLayer | Source/Urho3D/Urho2D/TmxFile2D.cpp:599-605 | an index past the end gives nothing, any other the stored layer |
| TmxFile.CreateProceduralAnimation | Source/Urho3D/Urho2D/TmxFile2D.cpp:917-1031 | there is no animation without frames; key `i` has id `i` and refers to timeline key `i`; its time is the sum of the earlier durations in seconds, and the length is the total; sprite `i` is frame `i`'s gid |
| TmxFile.AnimationLength | Source/Urho3D/Urho2D/TmxFile2D.cpp:938-941 | the animation length is the elapsed time after every frame |
| TmxFile.MainlineKeys | Source/Urho3D/Urho2D/TmxFile2D.cpp:947-968 | one key per frame; key `k` has id `k`, starts when the frames before it have elapsed and refers to timeline key `k` |
| TmxFile.FileIds | Source/Urho3D/Urho2D/TmxFile2D.cpp:983-991 | timeline key `k` uses file `k` |
| TmxFile.SpriteGids | Source/Urho3D/Urho2D/TmxFile2D.cpp:1012-1023 | the sprite map has exactly the keys of the frames, and key `k` holds frame `k`'s gid |
| TmxFile.KeyTiming | Source/Urho3D/Urho2D/TmxFile2D.cpp:938-954 | with non-negative durations, key times never decrease, and the last key plus its duration is the length |
| TileMapMesh.EdgesToTriangles | Source/Urho3D/Urho2D/TileMap2D.cpp:332-347 | value `i` lands at `i + 2(i/4)`; after each group of four the last two values are repeated; the length is `n + 2(n/4)` |
| TileMapMesh.EdgesToTrianglesBlocks | Source/Urho3D/Urho2D/TileMap2D.cpp:332-347 | each output block of six is the input block of four followed by its second point |
| TileMapMesh.Extent | Source/Urho3D/Urho2D/TileMap2D.cpp:358-368 | the bounding-box loop finds the least and the greatest value, both taken from the input |
| TileMapMesh.PackVertices | Source/Urho3D/Urho2D/TileMap2D.cpp:376-390 | vertex `k` is stored as six values: the centred position, then a zero normal |
| TileMapMesh.IndexData | Source/Urho3D/Urho2D/TileMap2D.cpp:404-406 | the indices are `0, ..., n - 1` |
| TileMapMesh.IndexLoopAsWritten | Source/Urho3D/Urho2D/TileMap2D.cpp:405-406 | every index the 16-bit loop pushes fits in 16 bits |
| TileMapMesh.IndexLoopEndsBelowWidth | Source/Urho3D/Urho2D/TileMap2D.cpp:405-406 | below 2^16 vertices the 16-bit loop ends and pushes `i, ..., n - 1`, as `IndexData` does |
| TileMapMesh.IndexLoopNeverEndsAtWidth | Source/Urho3D/Urho2D/TileMap2D.cpp:405-406 | with 2^16 vertices or more the 16-bit counter wraps before reaching the count, so the loop never ends |
| TileMapMesh.StoreVertices | Source/Urho3D/Urho2D/TileMap2D.cpp:349-409 | one vertex per (x, z) pair, plus three for a dummy face whose last vertex is at y = -1; six values per vertex; indices `0..n-1`; the box is centred on the origin, contains every stored vertex, and its sides pass through the least and greatest x and z |
| TileMapMesh.CreateProceduralModel | Source/Urho3D/Urho2D/TileMap2D.cpp:412-420 | there is no model for fewer than two values; otherwise it holds the mesh `StoreVertices` packs, with every property above |
| TileMapMesh.UniqueInOrder | Source/Urho3D/Urho2D/TileMap2D.cpp:1187-1195 | every point appears once and every input point appears |
| TileMapMesh.RemoveDuplicates | Source/Urho3D/Urho2D/TileMap2D.cpp:1187-1195 | the cleaned list has no duplicates, holds exactly the input points, and keeps first occurrences in input order |
| TileMapMesh.FirstIndicesStayOrdered | Source/Urho3D/Urho2D/TileMap2D.cpp:1187-1195 | appending the point first seen at `i` keeps the cleaned list in order of first occurrence |
| TileMapMesh.TrianglesValues | Source/Urho3D/Urho2D/TileMap2D.cpp:1227-1238 | triangle `t` is stored as six values, its corners in the order 0, 2, 1 |
| TileMapMesh.Triangulate | Source/Urho3D/Urho2D/TileMap2D.cpp:1181-1244 | below four points, the vertices are unchanged and the result is true; otherwise the triangles of the cleaned outline are appended and the result says whether more than three values are stored |
| TileMapMesh.OpenPolylineValues | Source/Urho3D/Urho2D/TileMap2D.cpp:1119-1131 | edge `e` is written as the four values of points `e` and `e + 1` |
| TileMapMesh.EdgeValuesPositions | Source/Urho3D/Urho2D/TileMap2D.cpp:1119-1131 | the edge list built point by point has four values per edge, and edge `e` holds points `e` and `e + 1` |
| TileMapMesh.PolylinePrefixStep | Source/Urho3D/Urho2D/TileMap2D.cpp:1119-1131 | one more point adds exactly the edge from the point before it |
| TileMapMesh.PolylineLoop | Source/Urho3D/Urho2D/TileMap2D.cpp:1119-1131 | writing each point, and each interior point twice, gives the edge list |
| TileMapMesh.ModelFromPolyline | Source/Urho3D/Urho2D/TileMap2D.cpp:1103-1135 | nothing for no points or no navigation mesh; a closed outline without its closing point is triangulated; an open one becomes its edge list spread into degenerate triangles |
| TileMapMesh.DecomposePolygon | Source/Urho3D/Urho2D/TileMap2D.cpp:1157-1179 | the decomposer's pieces, empty ones included, are appended in order, and the result says whether the list is non-empty |
| TileMapMesh.CollisionPolygons | Source/Urho3D/Urho2D/TileMap2D.cpp:1037-1047 | at most three points are not decomposed; an empty decomposition falls back to the outline; otherwise the decomposer's pieces are the polygons, empty ones included; the result is never empty |
| TileMapMesh.ShapeOutline | Source/Urho3D/Urho2D/TileMap2D.cpp:1017-1023 | a polyline's outline drops its closing point, and any other object's outline is its points |
| TileMapMesh.ConvexOutlineIsOnePiece | Source/Urho3D/Urho2D/TileMap2D.cpp:1037-1047 | an outline of four to eight points with no reflex vertex gives one collision polygon, its simplification |
| TileMapMesh.FlatOutlineMakesEmptyShape | Source/Urho3D/Urho2D/TileMap2D.cpp:1037-1047 | four evenly spaced points on the x axis give, as written, one collision polygon with no vertices |
| TileMapMesh.FilteredCollisionPolygons | Source/Urho3D/Urho2D/TileMap2D.cpp:1037-1047 | with empty pieces dropped, the polygons are the non-empty pieces in order, or the outline when there are none |
| TileMapMesh.FilteredShapesHaveVertices | Source/Urho3D/Urho2D/TileMap2D.cpp:1037-1047 | with empty pieces dropped, every polygon is the outline or has one to eight vertices, and there is at least one |
| TileMapMesh.FilteredFlatOutlineIsItself | Source/Urho3D/Urho2D/TileMap2D.cpp:1037-1047 | with empty pieces dropped, four evenly spaced points on the x axis fall back to the outline itself |
| TileMapMesh.FilteringKeepsNonEmptyPieces | Source/Urho3D/Urho2D/TileMap2D.cpp:1037-1047 | when the decomposer leaves no empty piece, dropping empty pieces changes nothing |

## Left out

- Recursion depth: `ConvexPartition` takes a `fuel` depth and returns `None` when the depth runs out. The reflex split can produce a part with `n + 1` vertices, so no decreasing measure exists. `Bayazit.FuelMonotone` shows the answer does not depend on the depth once it is reached. A polygon that would recurse forever in the source has no answer in the model.
- Bayazit.ConvexBisection: requires a vertex limit of at least 3. With a smaller limit the source bisects a triangle into triangles forever.
- Floating point: every coordinate is an exact real, so IEEE rounding, NaN and the `float` round trip of the `double` score are not modelled.
- The debug `printf` in `CanSee` is not modelled, and neither is `DrawDebugGeometry`.
- Scene graph, components, physics bodies, joints, navigation-mesh nodes and model buffers are not modelled. This covers the rest of `TileMap2D.cpp`, `Initialize`, `SetTileLayer`, `SetObjectGroup`, `SetImageLayer` and `FlipSprite`.
- TileMapMesh.ModelFromPolyline: produces the vertex list and not the node. Whether a navigation-mesh node exists is a parameter.
- TileMapMesh.CollisionPolygons: does not promise that every polygon has a vertex, because the decomposer as written can return an empty piece (see Findings). `TileMapMesh.FilteredShapesHaveVertices` promises it for the version without empty pieces.
- TileMapMesh.CollisionPolygons: the navigation-mesh branch of `CreatePolygonShape` is not modelled. Neither are the rectangle outline, built with `RotatedPosition`, nor the shape creation. A rectangle has no points, so it is never decomposed.
- TileMapMesh.ShapeOutline: requires a polyline to have a point to drop. Loaded polylines always have at least two.
- TileMapMesh.Triangulate: the triangulation library is a function parameter from the cleaned outline to triangles. Its memory handling and its 3000-point cap are not modelled.
- TileMapMesh.StoreVertices: requires at least two values, as `CreateProceduralModel` ensures. It also requires fewer than 2^16 vertices. The index buffer holds 16-bit indices, and at 2^16 vertices or more the loop as written never ends (see Findings).
- Trigonometry is not modelled: `RotatedPosition`, `ConvertEllipseToPoints`, and object rotation.
- PositionToTileIndex is modelled for orthogonal maps only. The isometric, staggered and hexagonal branches are not modelled.
- `PIXEL_SIZE` is defined outside the files modelled here and is a parameter `pixelSize`.
- XML, TMX/TSX, JSON and PList loading is not modelled: `BeginLoad`, `EndLoad`, `LoadInfo`, `LoadTSXFile`, image layers, `PhysicsLoader2D.cpp` and `AnimationSet2D.cpp`. `LoadTileSet` is not part of this model because its text contains unresolved merge-conflict markers.
- Parsing is not modelled: `DecodeBase64`, `ToInt`, `ToVector2` and `GetFloat`. Decoded bytes, gids and numbers are inputs of the model.
- TmxFile.LoadTileLayer: requires enough CSV values or base64 bytes for every cell, because the source reads past the end otherwise. A missing XML tile element is the `MissingTile` failure.
- TmxFile.SkipToPayload: requires a payload character in the text, because the source's scan reads past the end otherwise.
- TmxFile.LoadObject: tile-set sprite sizes are a parameter, given as a point where the source reads the integer size of the sprite's rectangle. The gid of an object that is not a tile is left 0, where the source leaves it unset.
- Tile sprites, animations, collision shapes and tile-set property sets keyed by gid are parameters of the operations that read them.
- TmxFile.CreateProceduralAnimation: models the keys, times, file ids and sprite gids. It does not model the Spriter objects, the resource cache or the sprite hot spots. The source sets the hot spot of `GetTileSprite(gid)` without a null check, so a frame gid with no sprite crashes; the model does not look sprites up and records that gid like any other.
- TileMapLayer.GetObjectNamed: its contract states that the found object has the name. That it is the first such object is the separate lemma `TileMapLayer.GetObjectNamedIsFirst`.
- NavMesh2D and IKConstraint are not modelled.

## Findings

| source | as written | input that shows it | evidently intended | confidence | as-written member | corrected member |
|---|---|---|---|---|---|---|
| Source/ThirdParty/polypartition/bayazit.h:432-437 | the "remove empty vertice collections" loop calls `erase(pt, pt)`, which erases an empty range, so empty pieces stay in the list | the collinear triangle (0,0), (1,0), (2,0) decomposes into one empty piece; so does any set of three to eight points on the x axis | empty pieces are removed | high, not executed | Bayazit.CollinearTriangleLeavesEmptyPiece | Bayazit.CollinearTriangleHasNoPieces |
| Source/Urho3D/Urho2D/TileMapDefs2D.cpp:300-305 | the tile index is the position over the tile size converted to `int`, which truncates toward zero, so positions less than a tile left of or below the map land on column 0 or on the bottom row | on a 1 x 1 map of 1-pixel tiles, position (-0.5, 0.5) is reported inside, at tile (0, 0) | flooring, so that a position is inside exactly when it lies in the map's rectangle | medium, not executed | TileMapDefs.TruncationAcceptsLeftOfMap | TileMapDefs.FlooredInsideIffInRectangle |
| Source/Urho3D/Urho2D/TileMap2D.cpp:1037-1047 | the fall-back to the outline is taken only when the decomposition returns no pieces, so an empty piece from the decomposer becomes a collision polygon with no vertices | a polygon object with the points (0,0), (1,0), (2,0), (3,0) gets one collision polygon with no vertices | every collision polygon has vertices, and the outline is used when the decomposition gives no usable piece | medium, not executed | TileMapMesh.FlatOutlineMakesEmptyShape | TileMapMesh.FilteredCollisionPolygons |
| Source/Urho3D/Urho2D/TileMap2D.cpp:405-406 | the index loop counts in a `uint16`, which wraps to 0 after 65535, so with 65536 vertices or more `i < numVertices` always holds | 65536 (x, z) pairs, without a dummy face | the loop pushes `0, ..., n - 1` and ends | high, not executed | TileMapMesh.IndexLoopNeverEndsAtWidth | TileMapMesh.IndexData |
