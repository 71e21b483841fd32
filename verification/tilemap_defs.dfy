/** Tile-map definitions: the map description with its size and coordinate
    conversions, property sets, and the map-object record. Tile-map vectors
    are `Geometry.Point`s with exact real coordinates. */
module TileMapDefs {
  import opened Wrappers
  import opened Geometry

  datatype Vector3 = Vector3(x: real, y: real, z: real)

  datatype Orientation = Orthogonal | Isometric | Staggered | Hexagonal

  /** The order tiles are drawn in within a layer. */
  datatype RenderOrder = RightDown | LeftDown | LeftUp | RightUp

  /** The map description: orientation, render order, size in tiles, tile
      size, and for staggered and hexagonal maps the stagger axis (`X` when
      `staggerX`), the stagger index (`even` when `staggerEven`) and the
      hexagon side length. */
  datatype TileMapInfo = TileMapInfo(
    orientation: Orientation,
    renderOrder: RenderOrder,
    width: int,
    height: int,
    tileWidth: real,
    tileHeight: real,
    staggerX: bool,
    staggerEven: bool,
    hexSideLength: real)

  // ---------------------------------------------------------------------------
  // Map size

  /** `GetMapWidth`: the map's width in pixels. */
  function MapWidth(info: TileMapInfo): real {
    var w := info.width as real;
    var tw := info.tileWidth;
    match info.orientation
    case Staggered =>
      if info.staggerX then (w * tw + tw) * 0.5 else w * tw + tw * 0.5
    case Hexagonal =>
      var sideLength := if info.staggerX then info.hexSideLength else 0.0;
      var sideOffset := (tw - sideLength) * 0.5;
      var columnWidth := sideOffset + sideLength;
      if info.staggerX then w * columnWidth + sideOffset else w * (tw + sideLength) + columnWidth
    case _ => w * tw
  }

  /** `GetMapHeight`: the map's height in pixels. */
  function MapHeight(info: TileMapInfo): real {
    var h := info.height as real;
    var th := info.tileHeight;
    match info.orientation
    case Staggered =>
      if info.staggerX then h * th + th * 0.5 else (h * th + th) * 0.5
    case Hexagonal =>
      var sideLength := if info.staggerX then 0.0 else info.hexSideLength;
      var sideOffset := (th - sideLength) * 0.5;
      var rowHeight := sideOffset + sideLength;
      if info.staggerX then h * (th + sideLength) + rowHeight else h * rowHeight + sideOffset
    case _ => h * th
  }

  /** Orthogonal and isometric maps measure `width` by `height` whole tiles. */
  lemma PlainMapSize(info: TileMapInfo)
    requires info.orientation == Orthogonal || info.orientation == Isometric
    ensures MapWidth(info) == info.width as real * info.tileWidth
    ensures MapHeight(info) == info.height as real * info.tileHeight
  {
  }

  /** A staggered map is the orthogonal one plus half a tile across the
      stagger axis, and half its size (plus half a tile) along it. */
  lemma StaggeredMapSize(info: TileMapInfo)
    requires info.orientation == Staggered
    ensures var plain := info.(orientation := Orthogonal);
            if info.staggerX then
              MapWidth(info) == (MapWidth(plain) + info.tileWidth) * 0.5
              && MapHeight(info) == MapHeight(plain) + info.tileHeight * 0.5
            else
              MapWidth(info) == MapWidth(plain) + info.tileWidth * 0.5
              && MapHeight(info) == (MapHeight(plain) + info.tileHeight) * 0.5
  {
  }

  /** The hexagon side length only matters along the stagger axis: across it
      a hexagonal map is as large as the staggered one, and with side length
      zero the two agree in both directions. */
  lemma HexagonalMatchesStaggered(info: TileMapInfo)
    requires info.orientation == Hexagonal
    ensures var staggered := info.(orientation := Staggered);
            (info.staggerX ==> MapHeight(info) == MapHeight(staggered))
            && (!info.staggerX ==> MapWidth(info) == MapWidth(staggered))
            && (info.hexSideLength == 0.0 ==> MapWidth(info) == MapWidth(staggered) && MapHeight(info) == MapHeight(staggered))
  {
  }

  // ---------------------------------------------------------------------------
  // Tile index and position

  /** `TileIndexToPosition`: the position of tile (x, y), with y counted
      downwards from the top row and positions upwards from the bottom. */
  function TileIndexToPosition(info: TileMapInfo, x: int, y: int): Point {
    var w, h := info.width as real, info.height as real;
    var tw, th := info.tileWidth, info.tileHeight;
    var fromTop := (info.height - 1 - y) as real;
    match info.orientation
    case Isometric =>
      Point((w + x as real - y as real - 1.0) * tw * 0.5, (h * 2.0 - x as real - y as real - 2.0) * th * 0.5)
    case Staggered | Hexagonal =>
      // `x % 2 == 0` and `y % 2 == 0` decide parity alike under C++'s
      // truncating remainder and Dafny's Euclidean one.
      if info.staggerX then
        var shift := if (x % 2 == 0) == info.staggerEven then 0.0 else th * 0.5;
        Point(x as real * (tw + info.hexSideLength) * 0.5, fromTop * th + shift)
      else
        var shift := if (y % 2 == 0) == info.staggerEven then tw * 0.5 else 0.0;
        Point(x as real * tw + shift, fromTop * (th + info.hexSideLength) * 0.5)
    case Orthogonal =>
      Point(x as real * tw, fromTop * th)
  }

  /** In a staggered map staggered along X, every other column (the odd ones
      for `even`, the even ones for `odd`) is raised by half a tile; along Y,
      the tiles of a row are a whole tile apart. */
  lemma StaggeredColumnsAndRows(info: TileMapInfo, x: int, y: int)
    requires info.orientation == Staggered || info.orientation == Hexagonal
    ensures var p, q := TileIndexToPosition(info, x, y), TileIndexToPosition(info, x + 1, y);
            var th, tw := info.tileHeight, info.tileWidth;
            if info.staggerX then
              q.x - p.x == (tw + info.hexSideLength) * 0.5
              && q.y - p.y == (if (x % 2 == 0) == info.staggerEven then th * 0.5 else -th * 0.5)
            else
              q.x - p.x == tw && q.y == p.y
  {
    assert (x + 1) % 2 == 0 <==> x % 2 != 0;
  }

  /** Rows are counted downwards, so the next row lies lower. Staggered
      along Y, every other row (the even ones for `even`, the odd ones for
      `odd`) is shifted right by half a tile; staggered along X, the next
      row is straight below. */
  lemma StaggeredRows(info: TileMapInfo, x: int, y: int)
    requires info.orientation == Staggered || info.orientation == Hexagonal
    ensures var p, q := TileIndexToPosition(info, x, y), TileIndexToPosition(info, x, y + 1);
            var th, tw := info.tileHeight, info.tileWidth;
            if info.staggerX then
              q.x == p.x && q.y - p.y == -th
            else
              q.x - p.x == (if (y % 2 == 0) == info.staggerEven then -tw * 0.5 else tw * 0.5)
              && q.y - p.y == -(th + info.hexSideLength) * 0.5
  {
    assert (y + 1) % 2 == 0 <==> y % 2 != 0;
  }

  /** C++'s `(int)` conversion of a float: truncation towards zero. */
  function Trunc(r: real): (t: int)
    ensures r >= 0.0 ==> t == r.Floor
    ensures r < 0.0 ==> t == -((-r).Floor)
  {
    if r >= 0.0 then r.Floor else -((-r).Floor)
  }

  /** The tile index a position falls in, and whether it is in the map. */
  datatype TileIndex = TileIndex(x: int, y: int, inside: bool)

  /** The orthogonal branch of `PositionToTileIndex`, as written. */
  function OrthogonalPositionToTileIndex(info: TileMapInfo, position: Point): (r: TileIndex)
    requires info.tileWidth != 0.0 && info.tileHeight != 0.0
    ensures r.inside <==> 0 <= r.x < info.width && 0 <= r.y < info.height
  {
    var x := Trunc(position.x / info.tileWidth);
    var y := info.height - 1 - Trunc(position.y / info.tileHeight);
    TileIndex(x, y, 0 <= x < info.width && 0 <= y < info.height)
  }

  /** Truncation is the identity on whole numbers. */
  lemma TruncWhole(n: int)
    ensures Trunc(n as real) == n
  {
  }

  /** Tile positions map back to their own tile, which is inside the map. */
  lemma OrthogonalRoundTrip(info: TileMapInfo, x: int, y: int)
    requires info.orientation == Orthogonal && info.tileWidth > 0.0 && info.tileHeight > 0.0
    requires 0 <= x < info.width && 0 <= y < info.height
    ensures OrthogonalPositionToTileIndex(info, TileIndexToPosition(info, x, y)) == TileIndex(x, y, true)
  {
    var p := TileIndexToPosition(info, x, y);
    assert p.x / info.tileWidth == x as real;
    assert p.y / info.tileHeight == (info.height - 1 - y) as real;
    TruncWhole(x);
    TruncWhole(info.height - 1 - y);
  }

  /** Every point of a tile's cell (its position plus less than one tile up
      and right) falls in that tile. */
  lemma OrthogonalCell(info: TileMapInfo, x: int, y: int, dx: real, dy: real)
    requires info.orientation == Orthogonal && info.tileWidth > 0.0 && info.tileHeight > 0.0
    requires 0 <= x < info.width && 0 <= y < info.height
    requires 0.0 <= dx < 1.0 && 0.0 <= dy < 1.0
    ensures var p := TileIndexToPosition(info, x, y);
            OrthogonalPositionToTileIndex(info, Point(p.x + dx * info.tileWidth, p.y + dy * info.tileHeight))
              == TileIndex(x, y, true)
  {
    var p := TileIndexToPosition(info, x, y);
    var q := Point(p.x + dx * info.tileWidth, p.y + dy * info.tileHeight);
    TruncCell(x, dx, info.tileWidth, q.x);
    TruncCell(info.height - 1 - y, dy, info.tileHeight, q.y);
  }

  /** A point less than one tile past tile `n`'s start truncates to `n`. */
  lemma TruncCell(n: int, d: real, t: real, r: real)
    requires n >= 0 && t > 0.0 && 0.0 <= d < 1.0
    requires r == n as real * t + d * t
    ensures Trunc(r / t) == n
  {
    assert r / t == n as real + d by {
      assert (n as real + d) * t == r;
    }
    FloorOfFraction(n, d);
  }

  lemma FloorOfFraction(n: int, d: real)
    requires 0.0 <= d < 1.0
    ensures (n as real + d).Floor == n
  {
  }

  /** Just left of the map (less than a tile) truncation lands in column 0,
      so the position is reported inside the map. */
  lemma TruncationAcceptsLeftOfMap(info: TileMapInfo)
    requires info.orientation == Orthogonal && info.tileWidth == 1.0 && info.tileHeight == 1.0
    requires info.width == 1 && info.height == 1
    ensures OrthogonalPositionToTileIndex(info, Point(-0.5, 0.5)) == TileIndex(0, 0, true)
  {
  }

  /** The orthogonal index with flooring division: a position is inside the
      map exactly when it lies in the map's rectangle. */
  function FlooredPositionToTileIndex(info: TileMapInfo, position: Point): (r: TileIndex)
    requires info.tileWidth != 0.0 && info.tileHeight != 0.0
    ensures r.inside <==> 0 <= r.x < info.width && 0 <= r.y < info.height
  {
    var x := (position.x / info.tileWidth).Floor;
    var y := info.height - 1 - (position.y / info.tileHeight).Floor;
    TileIndex(x, y, 0 <= x < info.width && 0 <= y < info.height)
  }

  lemma FlooredInsideIffInRectangle(info: TileMapInfo, position: Point)
    requires info.tileWidth > 0.0 && info.tileHeight > 0.0
    ensures FlooredPositionToTileIndex(info, position).inside <==>
              0.0 <= position.x < info.width as real * info.tileWidth
              && 0.0 <= position.y < info.height as real * info.tileHeight
  {
    FloorBounds(position.x, info.tileWidth, info.width);
    FloorBounds(position.y, info.tileHeight, info.height);
  }

  /** `floor(p / t)` lies in `[0, n)` exactly when `p` lies in `[0, n * t)`. */
  lemma FloorBounds(p: real, t: real, n: int)
    requires t > 0.0
    ensures 0 <= (p / t).Floor < n <==> 0.0 <= p < n as real * t
  {
    var q := p / t;
    assert q * t == p;
    if 0.0 <= p {
      assert 0.0 <= q;
    } else {
      assert q < 0.0;
    }
    if p < n as real * t {
      assert q < n as real;
    } else {
      assert q >= n as real;
    }
  }

  /** Flooring and truncation agree on the map itself. */
  lemma FlooredAgreesInside(info: TileMapInfo, position: Point)
    requires info.tileWidth > 0.0 && info.tileHeight > 0.0
    requires position.x >= 0.0 && position.y >= 0.0
    ensures FlooredPositionToTileIndex(info, position) == OrthogonalPositionToTileIndex(info, position)
  {
  }

  // ---------------------------------------------------------------------------
  // Converting Tiled positions

  /** `ConvertPosition`: a Tiled pixel position to a world position, with
      `PIXEL_SIZE` (defined outside the tile-map code) as a parameter.
      Isometric map objects are turned into diamonds, everything else keeps
      its axes and flips y against the map height. */
  function ConvertPosition(info: TileMapInfo, position: Point, isTile: bool, pixelSize: real): Point
    requires info.orientation == Isometric && !isTile ==> info.tileHeight != 0.0
  {
    if info.orientation == Isometric && !isTile then
      var ix := position.x * pixelSize / info.tileHeight;
      var iy := position.y * pixelSize / info.tileHeight;
      Point((info.width as real + ix - iy) * info.tileWidth * 0.5,
            (info.height as real * 2.0 - ix - iy) * info.tileHeight * 0.5)
    else
      Point(position.x * pixelSize, MapHeight(info) - position.y * pixelSize)
  }

  /** On an orthogonal map whose tiles are `tw` by `th` Tiled pixels, the
      Tiled position of a tile's bottom-left corner converts to the position of
      that tile. */
  lemma ConvertTileCorner(info: TileMapInfo, x: int, y: int, tw: real, th: real, pixelSize: real)
    requires info.orientation == Orthogonal && pixelSize != 0.0
    requires info.tileWidth == tw * pixelSize && info.tileHeight == th * pixelSize
    ensures ConvertPosition(info, Point(x as real * tw, (y + 1) as real * th), false, pixelSize)
              == TileIndexToPosition(info, x, y)
  {
    var p := ConvertPosition(info, Point(x as real * tw, (y + 1) as real * th), false, pixelSize);
    assert p.y == info.height as real * (th * pixelSize) - (y + 1) as real * th * pixelSize;
  }

  /** For isometric map objects, Tiled's position of a tile's bottom corner
      (one tile height along each axis past its index) converts to the
      middle of the tile's bounding box, half a tile right of its position. */
  lemma IsometricTileCorner(info: TileMapInfo, x: int, y: int, pixelSize: real)
    requires info.orientation == Isometric && info.tileHeight != 0.0 && pixelSize != 0.0
    ensures var step := info.tileHeight / pixelSize;
            var tile := TileIndexToPosition(info, x, y);
            ConvertPosition(info, Point((x + 1) as real * step, (y + 1) as real * step), false, pixelSize)
              == Point(tile.x + info.tileWidth * 0.5, tile.y)
  {
    var step := info.tileHeight / pixelSize;
    assert (x + 1) as real * step * pixelSize / info.tileHeight == (x + 1) as real;
    assert (y + 1) as real * step * pixelSize / info.tileHeight == (y + 1) as real;
  }

  // ---------------------------------------------------------------------------
  // Property sets

  /** A property set maps a property name to its value. */
  type PropertySet = map<string, string>

  /** A `<property name=... value=...>` element. */
  datatype Property = Property(name: string, value: string)

  /** `PropertySet2D::Load`: the properties are stored in document order, so
      a later property of the same name overwrites an earlier one. */
  function LoadProperties(elements: seq<Property>): (set_: PropertySet)
    ensures forall name :: name in set_ <==> exists k :: 0 <= k < |elements| && elements[k].name == name
    ensures forall k :: 0 <= k < |elements| && IsLastOfName(elements, k) ==> set_[elements[k].name] == elements[k].value
  {
    LoadedLookup(elements);
    Store(elements)
  }

  /** The stores of the load loop, one property after another. */
  function Store(elements: seq<Property>): PropertySet
    decreases |elements|
  {
    if |elements| == 0 then map[]
    else Store(elements[..|elements| - 1])[elements[|elements| - 1].name := elements[|elements| - 1].value]
  }

  lemma {:induction false} LoadedLookup(elements: seq<Property>)
    ensures forall name :: name in Store(elements) <==> exists k :: 0 <= k < |elements| && elements[k].name == name
    ensures forall k :: 0 <= k < |elements| && IsLastOfName(elements, k) ==> Store(elements)[elements[k].name] == elements[k].value
    decreases |elements|
  {
    if |elements| > 0 {
      var prefix := elements[..|elements| - 1];
      LoadedLookup(prefix);
      assert forall k :: 0 <= k < |prefix| ==> prefix[k] == elements[k];
      assert forall k :: 0 <= k < |elements| - 1 && IsLastOfName(elements, k) ==> IsLastOfName(prefix, k);
    }
  }

  /** No later element has the same name as element `k`. */
  predicate IsLastOfName(elements: seq<Property>, k: int)
    requires 0 <= k < |elements|
  {
    forall j :: k < j < |elements| ==> elements[j].name != elements[k].name
  }

  function HasProperty(properties: PropertySet, name: string): bool {
    name in properties
  }

  /** The value of a property, or the empty string when there is none. */
  function GetProperty(properties: PropertySet, name: string): (value: string)
    ensures !HasProperty(properties, name) ==> value == ""
    ensures HasProperty(properties, name) ==> value == properties[name]
  {
    if name in properties then properties[name] else ""
  }

  /** Loading two runs of properties in turn is loading the first and then
      letting the second override it. */
  lemma LoadAppend(first: seq<Property>, second: seq<Property>)
    ensures LoadProperties(first + second) == LoadProperties(first) + LoadProperties(second)
  {
    StoreAppend(first, second);
  }

  lemma {:induction false} StoreAppend(first: seq<Property>, second: seq<Property>)
    ensures Store(first + second) == Store(first) + Store(second)
    decreases |second|
  {
    if |second| == 0 {
      assert first + second == first;
    } else {
      var rest, last := second[..|second| - 1], second[|second| - 1];
      var whole := first + second;
      assert whole[..|whole| - 1] == first + rest;
      assert whole[|whole| - 1] == last;
      StoreAppend(first, rest);
      UpdateUnion(Store(first), Store(rest), last.name, last.value);
    }
  }

  lemma UpdateUnion(a: PropertySet, b: PropertySet, name: string, value: string)
    ensures (a + b)[name := value] == a + b[name := value]
  {
  }

  /** Tiles and objects hold an optional property set; without one they
      have no properties. */
  function NumPropertiesOf(properties: Option<PropertySet>): (n: nat)
    ensures properties.None? ==> n == 0
    ensures properties.Some? ==> n == |properties.value|
  {
    if properties.None? then 0 else |properties.value|
  }

  function HasPropertyOf(properties: Option<PropertySet>, name: string): (has: bool)
    ensures has <==> properties.Some? && name in properties.value
  {
    properties.Some? && HasProperty(properties.value, name)
  }

  function GetPropertyOf(properties: Option<PropertySet>, name: string): (value: string)
    ensures !HasPropertyOf(properties, name) ==> value == ""
    ensures HasPropertyOf(properties, name) ==> value == properties.value[name]
  {
    if properties.None? then "" else GetProperty(properties.value, name)
  }

  // ---------------------------------------------------------------------------
  // Map objects

  datatype ObjectType = RectangleObject | EllipseObject | PolygonObject | PolylineObject | TileObject

  /** A map object: its kind, name, user type, position, size (tiles,
      rectangles and ellipses), points (polygons and polylines), tile gid
      and properties. */
  datatype TileMapObject = TileMapObject(
    objectType: ObjectType,
    name: string,
    typeName: string,
    position: Point,
    size: Point,
    points: seq<Point>,
    gid: int,
    properties: Option<PropertySet>)

  /** `GetPoint`: the point at `index`, or the origin past the end. */
  function GetPoint(obj: TileMapObject, index: nat): (p: Point)
    ensures index < |obj.points| ==> p == obj.points[index]
    ensures index >= |obj.points| ==> p == Origin
  {
    if index >= |obj.points| then Origin else obj.points[index]
  }

  /** Reading every point in turn gives back the object's points. */
  lemma GetPointReadsAll(obj: TileMapObject)
    ensures seq(|obj.points|, i requires 0 <= i < |obj.points| => GetPoint(obj, i)) == obj.points
  {
  }
}
