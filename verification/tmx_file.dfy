/** The TMX loader's arithmetic: gid flag stripping, the decoding and
    placement of tile-layer cells, object classification, the layer list,
    and the timing of procedural tile animations. XML traversal is replaced
    by datatypes holding what the loader reads from each element. */
module TmxFile {
  import opened Wrappers
  import opened Geometry
  import opened TileMapDefs
  import TileMapLayer

  // ---------------------------------------------------------------------------
  // Gid flags

  /** The three top bits of a 32-bit gid carry the flip flags. */
  const FlippedHorizontallyFlag: bv32 := 0x8000_0000
  const FlippedVerticallyFlag: bv32 := 0x4000_0000
  const FlippedDiagonallyFlag: bv32 := 0x2000_0000
  /** The three flags together. */
  const FlagMask: bv32 := 0xE000_0000

  /** The gid with its flags cleared, and the flip axis with the flagged
      components set. */
  datatype ActualGid = ActualGid(gid: bv32, flipAxis: Vector3)

  predicate HasFlag(gid: bv32, flag: bv32) {
    gid & flag != 0
  }

  /** `GetActualGid`: read the flip flags into `flipAxis` (setting a
      component to 1 for each flag present, leaving it alone otherwise) and
      clear them from the gid. */
  function GetActualGid(gid: bv32, flipAxis: Vector3): (r: ActualGid)
    ensures r.gid == ClearFlags(gid)
    ensures r.flipAxis.x == if HasFlag(gid, FlippedHorizontallyFlag) then 1.0 else flipAxis.x
    ensures r.flipAxis.y == if HasFlag(gid, FlippedVerticallyFlag) then 1.0 else flipAxis.y
    ensures r.flipAxis.z == if HasFlag(gid, FlippedDiagonallyFlag) then 1.0 else flipAxis.z
  {
    ActualGid(ClearFlags(gid), Vector3(
      FlipComponent(HasFlag(gid, FlippedHorizontallyFlag), flipAxis.x),
      FlipComponent(HasFlag(gid, FlippedVerticallyFlag), flipAxis.y),
      FlipComponent(HasFlag(gid, FlippedDiagonallyFlag), flipAxis.z)))
  }

  function FlipComponent(flagged: bool, prior: real): real {
    if flagged then 1.0 else prior
  }

  /** The gid without its flags: no flag bit is left, and putting the
      flags back restores the gid, so every other bit is kept. */
  function ClearFlags(gid: bv32): (r: bv32)
    ensures r & FlagMask == 0 && r | (gid & FlagMask) == gid
  {
    gid & !FlagMask
  }

  /** Stripping is idempotent: a stripped gid has no flags left, so a second
      pass changes neither the gid nor any flip axis. */
  lemma GetActualGidIdempotent(gid: bv32, flipAxis: Vector3, other: Vector3)
    ensures var r := GetActualGid(gid, flipAxis);
            GetActualGid(r.gid, other) == ActualGid(r.gid, other)
  {
    var r := GetActualGid(gid, flipAxis);
    assert r.gid & FlippedHorizontallyFlag == 0 && r.gid & FlippedVerticallyFlag == 0 && r.gid & FlippedDiagonallyFlag == 0;
  }

  /** Starting from a zero axis, each axis component reads back its flag. */
  lemma FlipAxisFromZero(gid: bv32)
    ensures var a := GetActualGid(gid, Vector3(0.0, 0.0, 0.0)).flipAxis;
            (a.x == 1.0 <==> gid >= 0x8000_0000)
            && (a.y == 1.0 <==> gid & 0x4000_0000 != 0)
            && (a.z == 1.0 <==> gid & 0x2000_0000 != 0)
  {
  }

  /** Flag bits put onto a plain gid are exactly what stripping removes. */
  lemma FlagsRoundTrip(plain: bv32, flags: bv32)
    requires plain < 0x2000_0000 && flags & !FlagMask == 0
    ensures GetActualGid(plain | flags, Vector3(0.0, 0.0, 0.0)).gid == plain
  {
  }

  // ---------------------------------------------------------------------------
  // Little-endian gids of base64 layers

  /** An `unsigned char` of the decoded buffer. */
  newtype Byte = b: int | 0 <= b < 0x100

  const TwoTo31: int := 0x8000_0000
  const TwoTo32: int := 0x1_0000_0000

  /** The 32-bit pattern read as a C `int`: two's complement. */
  function Signed32(u: int): (s: int)
    requires 0 <= u < TwoTo32
    ensures -TwoTo31 <= s < TwoTo31
    ensures (s - u) % TwoTo32 == 0
  {
    if u >= TwoTo31 then u - TwoTo32 else u
  }

  /** The unsigned value of four little-endian bytes. */
  function LittleEndian(b0: Byte, b1: Byte, b2: Byte, b3: Byte): (u: int)
    ensures 0 <= u < TwoTo32
  {
    b0 as int + b1 as int * 0x100 + b2 as int * 0x1_0000 + b3 as int * 0x100_0000
  }

  /** A base64 layer cell's gid: the bytes shifted into place and or-ed
      together in a C `int` (the shifted bytes do not overlap, so the or is
      a sum), so a set top bit makes it negative. */
  function LittleEndianGid(b0: Byte, b1: Byte, b2: Byte, b3: Byte): (gid: int)
    ensures -TwoTo31 <= gid < TwoTo31
    ensures gid < 0 <==> b3 >= 0x80
  {
    Signed32(LittleEndian(b0, b1, b2, b3))
  }

  /** The bytes of a 32-bit value, least significant first. */
  function GidBytes(u: int): (b: seq<Byte>)
    requires 0 <= u < TwoTo32
    ensures |b| == 4
  {
    var r1 := u / 0x100;
    var r2 := r1 / 0x100;
    DivBound(u, r1, r2);
    [(u % 0x100) as Byte, (r1 % 0x100) as Byte, (r2 % 0x100) as Byte, (r2 / 0x100) as Byte]
  }

  lemma DivBound(u: int, r1: int, r2: int)
    requires 0 <= u < TwoTo32 && r1 == u / 0x100 && r2 == r1 / 0x100
    ensures 0 <= r2 / 0x100 < 0x100
  {
  }

  /** Writing a gid's bytes and reading them back gives the gid as a C
      `int`: the identity below 2^31, a negative number above. */
  lemma LittleEndianRoundTrip(u: int)
    requires 0 <= u < TwoTo32
    ensures var b := GidBytes(u); LittleEndianGid(b[0], b[1], b[2], b[3]) == Signed32(u)
  {
    var b := GidBytes(u);
    var r1 := u / 0x100;
    var r2 := r1 / 0x100;
    assert u == u % 0x100 + 0x100 * r1;
    assert r1 == r1 % 0x100 + 0x100 * r2;
    assert r2 == r2 % 0x100 + 0x100 * (r2 / 0x100);
    assert LittleEndian(b[0], b[1], b[2], b[3]) == u;
  }

  // ---------------------------------------------------------------------------
  // Tile layers

  /** A tile of a layer: its gid and the property set of that gid. */
  datatype LayerTile = LayerTile(gid: int, properties: Option<PropertySet>)

  /** A cell holds a tile exactly when its gid is positive. */
  function MakeCell(gid: int, propertiesOf: int -> Option<PropertySet>): (c: Option<LayerTile>)
    ensures c.Some? <==> gid > 0
    ensures c.Some? ==> c.value.gid == gid && c.value.properties == propertiesOf(gid)
  {
    if gid > 0 then Some(LayerTile(gid, propertiesOf(gid))) else None
  }

  datatype Encoding = Xml | Csv | Base64

  datatype LoadError = NoData | CompressionNotSupported | InvalidEncoding(attribute: string) | MissingTile

  /** The `<data>` element of a tile layer: whether it has a `compression`
      attribute, its `encoding` attribute, and the cell gids each encoding
      would yield: the `gid` attributes of its `<tile>` children, the parsed
      comma-separated values, and the bytes of the decoded base64 text. */
  datatype DataElement = DataElement(
    compressed: bool,
    encoding: Option<string>,
    tileGids: seq<int>,
    csvGids: seq<int>,
    payload: seq<Byte>)

  function EncodingName(e: Encoding): string {
    match e
    case Xml => "xml"
    case Csv => "csv"
    case Base64 => "base64"
  }

  /** Compression is refused; a missing encoding means XML; any name other
      than the three known ones is refused. */
  function ClassifyEncoding(data: DataElement): (r: Result<Encoding, LoadError>)
    ensures r.Success? <==> !data.compressed && (data.encoding.None? || data.encoding.value in {"xml", "csv", "base64"})
    ensures r.Success? && data.encoding.Some? ==> EncodingName(r.value) == data.encoding.value
    ensures r.Success? && data.encoding.None? ==> r.value == Xml
    ensures data.compressed ==> r == Failure(CompressionNotSupported)
  {
    if data.compressed then Failure(CompressionNotSupported)
    else if data.encoding.None? then Success(Xml)
    else if data.encoding.value == "xml" then Success(Xml)
    else if data.encoding.value == "csv" then Success(Csv)
    else if data.encoding.value == "base64" then Success(Base64)
    else Failure(InvalidEncoding(data.encoding.value))
  }

  /** Naming an encoding selects it. */
  lemma EncodingNameRoundTrip(e: Encoding, data: DataElement)
    requires !data.compressed && data.encoding == Some(EncodingName(e))
    ensures ClassifyEncoding(data) == Success(e)
  {
  }

  /** The characters the base64 payload may start with. */
  predicate IsPayloadStart(c: char) {
    'a' <= c <= 'z' || 'A' <= c <= 'Z' || '0' <= c <= '9' || c == '+' || c == '/'
  }

  /** The text handed to the base64 decoder: everything from the first
      letter, digit, `+` or `/` on. The scan reads past the text when there
      is none, so such a text is excluded. */
  function SkipToPayload(text: string): (r: string)
    requires exists k :: 0 <= k < |text| && IsPayloadStart(text[k])
    ensures |r| > 0 && IsPayloadStart(r[0])
    ensures exists k :: 0 <= k < |text| && r == text[k..] && forall j :: 0 <= j < k ==> !IsPayloadStart(text[j])
  {
    var k := PayloadStart(text, 0);
    text[k..]
  }

  /** The scan of `SkipToPayload` from position `from` on. */
  function PayloadStart(text: string, from: nat): (k: nat)
    requires exists j :: from <= j < |text| && IsPayloadStart(text[j])
    ensures from <= k < |text| && IsPayloadStart(text[k])
    ensures forall j :: from <= j < k ==> !IsPayloadStart(text[j])
    decreases |text| - from
  {
    if IsPayloadStart(text[from]) then from
    else
      assert exists j :: from + 1 <= j < |text| && IsPayloadStart(text[j]);
      PayloadStart(text, from + 1)
  }

  /** There is data for every cell: the XML case checks this itself, the
      CSV and base64 cases read the cells without checking. */
  predicate EnoughData(e: Encoding, data: DataElement, cells: nat) {
    match e
    case Xml => |data.tileGids| >= cells
    case Csv => |data.csvGids| >= cells
    case Base64 => |data.payload| >= 4 * cells
  }

  /** The gid of cell `k`, read in the layer's encoding. */
  function CellGid(e: Encoding, data: DataElement, cells: nat, k: nat): int
    requires EnoughData(e, data, cells) && k < cells
  {
    match e
    case Xml => data.tileGids[k]
    case Csv => data.csvGids[k]
    case Base64 => LittleEndianGid(data.payload[4 * k], data.payload[4 * k + 1], data.payload[4 * k + 2], data.payload[4 * k + 3])
  }

  function CellGids(e: Encoding, data: DataElement, cells: nat): (g: seq<int>)
    requires EnoughData(e, data, cells)
    ensures |g| == cells && forall k :: 0 <= k < cells ==> g[k] == CellGid(e, data, cells, k)
  {
    seq(cells, k requires 0 <= k < cells => CellGid(e, data, cells, k))
  }

  /** A horizontally flipped tile of a base64 layer has a negative gid and
      so never gets a tile. */
  lemma FlippedBase64CellIsEmpty(b0: Byte, b1: Byte, b2: Byte, b3: Byte, propertiesOf: int -> Option<PropertySet>)
    requires b3 >= 0x80
    ensures MakeCell(LittleEndianGid(b0, b1, b2, b3), propertiesOf) == None
  {
  }

  /** The placement loops: row by row, cell (x, y) takes the gid read for
      position `y * width + x` and holds a tile when that gid is positive. */
  method PlaceTiles(width: nat, height: nat, gids: seq<int>, propertiesOf: int -> Option<PropertySet>)
    returns (tiles: seq<Option<LayerTile>>)
    requires |gids| >= width * height
    ensures |tiles| == width * height
    ensures forall k :: 0 <= k < |tiles| ==> tiles[k] == MakeCell(gids[k], propertiesOf)
  {
    tiles := seq(width * height, _ => None);
    var y := 0;
    while y < height
      invariant 0 <= y <= height
      invariant |tiles| == width * height
      invariant y * width <= width * height
      invariant forall k :: 0 <= k < y * width ==> tiles[k] == MakeCell(gids[k], propertiesOf)
      invariant forall k :: y * width <= k < |tiles| ==> tiles[k] == None
    {
      var x := 0;
      TileMapLayer.MultiplyMonotone(y + 1, height, width);
      while x < width
        invariant 0 <= x <= width
        invariant |tiles| == width * height
        invariant forall k :: 0 <= k < y * width + x ==> tiles[k] == MakeCell(gids[k], propertiesOf)
        invariant forall k :: y * width + x <= k < |tiles| ==> tiles[k] == None
      {
        TileMapLayer.CellIndexInRange(width, height, x, y);
        var gid := gids[y * width + x];
        if gid > 0 {
          tiles := tiles[y * width + x := Some(LayerTile(gid, propertiesOf(gid)))];
        }
        x := x + 1;
      }
      y := y + 1;
    }
  }

  /** The reads the CSV and base64 branches make without checking are in
      range. */
  predicate CanReadCells(data: Option<DataElement>, cells: nat) {
    data.Some? ==>
      match ClassifyEncoding(data.value)
      case Success(e) => e == Xml || EnoughData(e, data.value, cells)
      case Failure(_) => true
  }

  /** `TmxTileLayer2D::Load`, for the tiles: the data element must exist and
      be uncompressed in a known encoding, and in XML there must be a tile
      element for every cell. */
  method LoadTileLayer(width: nat, height: nat, data: Option<DataElement>, propertiesOf: int -> Option<PropertySet>)
    returns (r: Result<seq<Option<LayerTile>>, LoadError>)
    requires CanReadCells(data, width * height)
    ensures data.None? ==> r == Failure(NoData)
    ensures data.Some? && ClassifyEncoding(data.value).Failure? ==> r == Failure(ClassifyEncoding(data.value).error)
    ensures r.Success? <==> data.Some? && ClassifyEncoding(data.value).Success?
                            && EnoughData(ClassifyEncoding(data.value).value, data.value, width * height)
    ensures r.Success? ==>
              var e := ClassifyEncoding(data.value).value;
              |r.value| == width * height
              && forall k :: 0 <= k < width * height ==> r.value[k] == MakeCell(CellGid(e, data.value, width * height, k), propertiesOf)
  {
    if data.None? {
      return Failure(NoData);
    }
    var classified := ClassifyEncoding(data.value);
    if classified.Failure? {
      return Failure(classified.error);
    }
    var e := classified.value;
    if !EnoughData(e, data.value, width * height) {
      return Failure(MissingTile);
    }
    var tiles := PlaceTiles(width, height, CellGids(e, data.value, width * height), propertiesOf);
    return Success(tiles);
  }

  /** `TmxTileLayer2D::GetTile`: the cell at (x, y), nothing outside. */
  function GetTile(tiles: seq<Option<LayerTile>>, width: int, height: int, x: int, y: int): (r: Option<LayerTile>)
    requires width >= 0 && height >= 0 && |tiles| == width * height
    ensures !(0 <= x < width && 0 <= y < height) ==> r == None
  {
    if x < 0 || x >= width || y < 0 || y >= height then None
    else
      TileMapLayer.CellIndexInRange(width, height, x, y);
      tiles[y * width + x]
  }

  /** After loading, the tile at (x, y) is the one of the gid read for
      position `y * width + x`. */
  lemma GetTileAfterLoad(width: nat, height: nat, gids: seq<int>, propertiesOf: int -> Option<PropertySet>,
                         tiles: seq<Option<LayerTile>>, x: int, y: int)
    requires |gids| >= width * height && |tiles| == width * height
    requires forall k :: 0 <= k < |tiles| ==> tiles[k] == MakeCell(gids[k], propertiesOf)
    requires 0 <= x < width && 0 <= y < height
    ensures 0 <= y * width + x < width * height
    ensures GetTile(tiles, width, height, x, y) == MakeCell(gids[y * width + x], propertiesOf)
  {
    TileMapLayer.CellIndexInRange(width, height, x, y);
  }

  // ---------------------------------------------------------------------------
  // Objects

  /** What the loader reads from an `<object>` element: optional name and
      type, the `gid` attribute, the points of a `<polygon>` or `<polyline>`
      child, whether it has an `<ellipse>` child, its x, y, and the optional
      width and height, and its `<properties>`. */
  datatype ObjectElement = ObjectElement(
    name: Option<string>,
    typeName: Option<string>,
    gid: Option<int>,
    polygon: Option<seq<Point>>,
    polyline: Option<seq<Point>>,
    hasEllipse: bool,
    x: real,
    y: real,
    width: Option<real>,
    height: Option<real>,
    properties: Option<seq<Property>>)

  /** The kinds an element can mark itself as, strongest first. */
  const Priority: seq<ObjectType> := [TileObject, PolygonObject, PolylineObject, EllipseObject]

  predicate Marks(e: ObjectElement, t: ObjectType) {
    match t
    case TileObject => e.gid.Some?
    case PolygonObject => e.polygon.Some?
    case PolylineObject => e.polyline.Some?
    case EllipseObject => e.hasEllipse
    case RectangleObject => true
  }

  /** Where a kind stands in `Priority`; rectangles come after all. */
  function Rank(t: ObjectType): (n: nat)
    ensures n <= |Priority| && (n < |Priority| ==> Priority[n] == t)
    ensures t != RectangleObject ==> n < |Priority|
  {
    match t
    case TileObject => 0
    case PolygonObject => 1
    case PolylineObject => 2
    case EllipseObject => 3
    case RectangleObject => 4
  }

  /** The object type is the first kind in priority order that the element
      marks, or a rectangle when it marks none. */
  function ClassifyObject(e: ObjectElement): (t: ObjectType)
    ensures Marks(e, t)
    ensures forall i :: 0 <= i < Rank(t) ==> !Marks(e, Priority[i])
  {
    if e.gid.Some? then TileObject
    else if e.polygon.Some? then PolygonObject
    else if e.polyline.Some? then PolylineObject
    else if e.hasEllipse then EllipseObject
    else RectangleObject
  }

  /** A polygon or polyline with at most one point is dropped. */
  predicate Skipped(e: ObjectElement) {
    var t := ClassifyObject(e);
    (t == PolygonObject && |e.polygon.value| <= 1) || (t == PolylineObject && |e.polyline.value| <= 1)
  }

  function OrZero(r: Option<real>): real {
    if r.Some? then r.value else 0.0
  }

  /** The object loaded from one element, or nothing when it is skipped.
      Sprite sizes come from the tile sets and are a parameter. */
  function LoadObject(e: ObjectElement, info: TileMapInfo, pixelSize: real, spriteSize: int -> Option<Point>)
    : (r: Option<TileMapObject>)
    requires info.orientation == Isometric ==> info.tileHeight != 0.0
    ensures r.None? <==> Skipped(e)
    ensures r.Some? ==> r.value.objectType == ClassifyObject(e)
    ensures r.Some? ==> r.value.name == (if e.name.Some? then e.name.value else "")
    ensures r.Some? && r.value.objectType in {PolygonObject, PolylineObject} ==> |r.value.points| >= 2
    ensures r.Some? && r.value.objectType !in {PolygonObject, PolylineObject} ==> r.value.points == []
    ensures r.Some? ==> r.value.typeName == (if e.typeName.Some? then e.typeName.value else "")
    ensures r.Some? ==> r.value.properties == (if e.properties.Some? then Some(LoadProperties(e.properties.value)) else None)
    ensures r.Some? && r.value.objectType in {RectangleObject, EllipseObject} ==>
              r.value.position == ConvertPosition(info, Point(e.x, e.y + OrZero(e.height)), false, pixelSize)
              && r.value.size == Point(OrZero(e.width) * pixelSize, OrZero(e.height) * pixelSize)
              && r.value.gid == 0
    ensures r.Some? && r.value.objectType == TileObject ==>
              r.value.position == ConvertPosition(info, Point(e.x, e.y), false, pixelSize)
              && r.value.gid == e.gid.value
              && r.value.size == (if e.width.Some? || e.height.Some? then Point(OrZero(e.width) * pixelSize, OrZero(e.height) * pixelSize)
                                  else if spriteSize(e.gid.value).Some? then spriteSize(e.gid.value).value
                                  else Origin)
    ensures r.Some? && r.value.objectType == PolygonObject ==>
              r.value.points == ConvertPoints(info, Point(e.x, e.y), e.polygon.value, pixelSize)
    ensures r.Some? && r.value.objectType == PolylineObject ==>
              r.value.points == ConvertPoints(info, Point(e.x, e.y), e.polyline.value, pixelSize)
    ensures r.Some? && r.value.objectType in {PolygonObject, PolylineObject} ==>
              r.value.position == Origin && r.value.size == Origin && r.value.gid == 0
  {
    var t := ClassifyObject(e);
    var size := Point(OrZero(e.width), OrZero(e.height));
    var scaled := Point(size.x * pixelSize, size.y * pixelSize);
    var base := TileMapObject(t, if e.name.Some? then e.name.value else "",
                              if e.typeName.Some? then e.typeName.value else "",
                              Origin, Origin, [], 0,
                              if e.properties.Some? then Some(LoadProperties(e.properties.value)) else None);
    match t
    case RectangleObject =>
      Some(base.(position := ConvertPosition(info, Point(e.x, e.y + size.y), false, pixelSize), size := scaled))
    case EllipseObject =>
      Some(base.(position := ConvertPosition(info, Point(e.x, e.y + size.y), false, pixelSize), size := scaled))
    case TileObject =>
      var gid := e.gid.value;
      var tileSize := if e.width.Some? || e.height.Some? then scaled
                      else if spriteSize(gid).Some? then spriteSize(gid).value
                      else Origin;
      Some(base.(position := ConvertPosition(info, Point(e.x, e.y), false, pixelSize), gid := gid, size := tileSize))
    case PolygonObject =>
      var points := e.polygon.value;
      if |points| <= 1 then None
      else Some(base.(points := ConvertPoints(info, Point(e.x, e.y), points, pixelSize)))
    case PolylineObject =>
      var points := e.polyline.value;
      if |points| <= 1 then None
      else Some(base.(points := ConvertPoints(info, Point(e.x, e.y), points, pixelSize)))
  }

  /** Each point is offset by the object's position and converted. */
  function ConvertPoints(info: TileMapInfo, position: Point, points: seq<Point>, pixelSize: real): (r: seq<Point>)
    requires info.orientation == Isometric ==> info.tileHeight != 0.0
    ensures |r| == |points|
    ensures forall i :: 0 <= i < |points| ==> r[i] == ConvertPosition(info, Add(position, points[i]), false, pixelSize)
  {
    seq(|points|, i requires 0 <= i < |points| => ConvertPosition(info, Add(position, points[i]), false, pixelSize))
  }

  /** `TmxObjectGroup2D::Load`, for the objects: each element in order,
      skipped ones left out. */
  function LoadObjects(elements: seq<ObjectElement>, info: TileMapInfo, pixelSize: real, spriteSize: int -> Option<Point>)
    : (r: seq<TileMapObject>)
    requires info.orientation == Isometric ==> info.tileHeight != 0.0
    ensures |r| == |elements| - SkippedCount(elements)
    ensures forall i :: 0 <= i < |r| ==> r[i].objectType in {PolygonObject, PolylineObject} ==> |r[i].points| >= 2
  {
    if |elements| == 0 then []
    else
      var rest := LoadObjects(elements[1..], info, pixelSize, spriteSize);
      match LoadObject(elements[0], info, pixelSize, spriteSize)
      case Some(o) => [o] + rest
      case None => rest
  }

  /** Each element loaded on its own, in order. */
  function LoadEach(elements: seq<ObjectElement>, info: TileMapInfo, pixelSize: real, spriteSize: int -> Option<Point>)
    : (r: seq<Option<TileMapObject>>)
    requires info.orientation == Isometric ==> info.tileHeight != 0.0
    ensures |r| == |elements|
    ensures forall i :: 0 <= i < |r| ==> r[i] == LoadObject(elements[i], info, pixelSize, spriteSize)
  {
    seq(|elements|, i requires 0 <= i < |elements| => LoadObject(elements[i], info, pixelSize, spriteSize))
  }

  /** The present values of a list of options, in order. */
  function Somes<T(!new)>(xs: seq<Option<T>>): (r: seq<T>)
    ensures |r| <= |xs|
    ensures forall x :: x in r <==> Some(x) in xs
  {
    if |xs| == 0 then []
    else
      assert forall x :: Some(x) in xs <==> Some(x) == xs[0] || Some(x) in xs[1..];
      (if xs[0].Some? then [xs[0].value] else []) + Somes(xs[1..])
  }

  /** With nothing missing, the values are the options unwrapped. */
  lemma {:induction false} SomesOfPresent<T(!new)>(xs: seq<Option<T>>)
    requires forall i :: 0 <= i < |xs| ==> xs[i].Some?
    ensures |Somes(xs)| == |xs| && forall i :: 0 <= i < |xs| ==> Some(Somes(xs)[i]) == xs[i]
  {
    if |xs| > 0 {
      SomesOfPresent(xs[1..]);
      var r := Somes(xs);
      assert r == [xs[0].value] + Somes(xs[1..]);
      forall i | 0 <= i < |xs| ensures Some(r[i]) == xs[i] {
        if i > 0 { assert r[i] == Somes(xs[1..])[i - 1]; }
      }
    }
  }

  /** The loaded objects are exactly the elements that load, in element
      order: the objects of the elements taken one at a time, skipped ones
      dropped. */
  lemma {:induction false} LoadObjectsAreLoadedInOrder(elements: seq<ObjectElement>, info: TileMapInfo, pixelSize: real,
                                                       spriteSize: int -> Option<Point>)
    requires info.orientation == Isometric ==> info.tileHeight != 0.0
    ensures LoadObjects(elements, info, pixelSize, spriteSize) == Somes(LoadEach(elements, info, pixelSize, spriteSize))
  {
    if |elements| > 0 {
      LoadObjectsAreLoadedInOrder(elements[1..], info, pixelSize, spriteSize);
      var each := LoadEach(elements, info, pixelSize, spriteSize);
      assert each[1..] == LoadEach(elements[1..], info, pixelSize, spriteSize);
    }
  }

  function SkippedCount(elements: seq<ObjectElement>): (n: nat)
    ensures n <= |elements|
  {
    if |elements| == 0 then 0 else (if Skipped(elements[0]) then 1 else 0) + SkippedCount(elements[1..])
  }

  /** When nothing is skipped, object `i` is loaded from element `i`. */
  lemma {:induction false} LoadObjectsInOrder(elements: seq<ObjectElement>, info: TileMapInfo, pixelSize: real,
                                              spriteSize: int -> Option<Point>)
    requires info.orientation == Isometric ==> info.tileHeight != 0.0
    requires forall i :: 0 <= i < |elements| ==> !Skipped(elements[i])
    ensures var r := LoadObjects(elements, info, pixelSize, spriteSize);
            |r| == |elements|
            && forall i :: 0 <= i < |r| ==> Some(r[i]) == LoadObject(elements[i], info, pixelSize, spriteSize)
  {
    if |elements| > 0 {
      LoadObjectsInOrder(elements[1..], info, pixelSize, spriteSize);
    }
  }

  // ---------------------------------------------------------------------------
  // The layer list

  /** `AddLayer(index, layer)`: past the end it appends, otherwise it
      inserts before position `index`. */
  function AddLayer<T>(layers: seq<T>, index: nat, layer: T): (r: seq<T>)
    ensures |r| == |layers| + 1
    ensures var at := if index > |layers| then |layers| else index;
            r[at] == layer && r[..at] == layers[..at] && r[at + 1..] == layers[at..]
  {
    if index > |layers| then layers + [layer] else layers[..index] + [layer] + layers[index..]
  }

  function RemoveAt<T>(layers: seq<T>, index: nat): (r: seq<T>)
    requires index < |layers|
    ensures |r| == |layers| - 1
    ensures forall i :: 0 <= i < |r| ==> r[i] == if i < index then layers[i] else layers[i + 1]
  {
    layers[..index] + layers[index + 1..]
  }

  /** Removing the added layer gives the old list back. */
  lemma AddThenRemove<T>(layers: seq<T>, index: nat, layer: T)
    ensures var at := if index > |layers| then |layers| else index;
            RemoveAt(AddLayer(layers, index, layer), at) == layers
  {
    var at := if index > |layers| then |layers| else index;
    var r := AddLayer(layers, index, layer);
    assert RemoveAt(r, at) == r[..at] + r[at + 1..];
    assert layers == layers[..at] + layers[at..];
  }

  /** `GetLayer`: the layer at `index`, nothing past the end. */
  function GetLayer<T>(layers: seq<T>, index: nat): (r: Option<T>)
    ensures r.Some? <==> index < |layers|
    ensures r.Some? ==> r.value == layers[index]
  {
    if index >= |layers| then None else Some(layers[index])
  }

  // ---------------------------------------------------------------------------
  // Procedural tile animations

  /** A tile animation frame: the gid it shows and its duration in ms. */
  datatype Frame = Frame(gid: int, durationMs: int)

  /** A mainline key: its id, start time in seconds, and the timeline key
      its single object reference points to. */
  datatype MainlineKey = MainlineKey(id: nat, time: real, timelineKey: nat)

  /** The generated animation: its length in seconds, whether it loops, its
      mainline keys, the file of each timeline key, and the gid of the
      sprite behind each sprite key. */
  datatype ProceduralAnimation = ProceduralAnimation(
    name: string,
    length: real,
    looping: bool,
    keys: seq<MainlineKey>,
    fileIds: seq<nat>,
    spriteGids: map<int, int>)

  function Seconds(ms: int): real {
    ms as real / 1000.0
  }

  /** The time taken by the first `n` frames. */
  function Elapsed(frames: seq<Frame>, n: nat): real
    requires n <= |frames|
  {
    if n == 0 then 0.0 else Elapsed(frames, n - 1) + Seconds(frames[n - 1].durationMs)
  }

  /** `CreateProceduralAnimation`: nothing for no frames; otherwise one
      mainline key per frame starting when the earlier frames have played,
      an animation as long as all frames together, and sprite key `i`
      showing frame `i`'s gid. */
  method CreateProceduralAnimation(animName: string, frames: seq<Frame>) returns (r: Option<ProceduralAnimation>)
    ensures r.None? <==> |frames| == 0
    ensures r.Some? ==>
              var a := r.value;
              a.name == animName && a.looping
              && a.length == Elapsed(frames, |frames|)
              && |a.keys| == |frames| && |a.fileIds| == |frames|
              && (forall i :: 0 <= i < |frames| ==> a.keys[i] == MainlineKey(i, Elapsed(frames, i), i) && a.fileIds[i] == i)
              && (forall i :: i in a.spriteGids <==> 0 <= i < |frames|)
              && forall i :: 0 <= i < |frames| ==> a.spriteGids[i] == frames[i].gid
  {
    if |frames| == 0 {
      return None;
    }
    var length := AnimationLength(frames);
    var keys := MainlineKeys(frames);
    var fileIds := FileIds(|frames|);
    var sprites := SpriteGids(frames);
    return Some(ProceduralAnimation(animName, length, true, keys, fileIds, sprites));
  }

  /** The length loop: the durations summed, in seconds. */
  method AnimationLength(frames: seq<Frame>) returns (length: real)
    ensures length == Elapsed(frames, |frames|)
  {
    length := 0.0;
    var i := 0;
    while i < |frames|
      invariant 0 <= i <= |frames|
      invariant length == Elapsed(frames, i)
    {
      length := length + Seconds(frames[i].durationMs);
      i := i + 1;
    }
  }

  /** The mainline loop: key `i` starts when the earlier frames have played. */
  method MainlineKeys(frames: seq<Frame>) returns (keys: seq<MainlineKey>)
    ensures |keys| == |frames|
    ensures forall k :: 0 <= k < |frames| ==> keys[k] == MainlineKey(k, Elapsed(frames, k), k)
  {
    keys := [];
    var time := 0.0;
    var i := 0;
    while i < |frames|
      invariant 0 <= i <= |frames|
      invariant time == Elapsed(frames, i)
      invariant |keys| == i
      invariant forall k :: 0 <= k < i ==> keys[k] == MainlineKey(k, Elapsed(frames, k), k)
    {
      keys := keys + [MainlineKey(i, time, i)];
      time := time + Seconds(frames[i].durationMs);
      i := i + 1;
    }
  }

  /** The timeline loop: sprite key `i` uses file `i`. */
  method FileIds(n: nat) returns (fileIds: seq<nat>)
    ensures |fileIds| == n && forall k :: 0 <= k < n ==> fileIds[k] == k
  {
    fileIds := [];
    var i := 0;
    while i < n
      invariant 0 <= i <= n
      invariant |fileIds| == i
      invariant forall k :: 0 <= k < i ==> fileIds[k] == k
    {
      fileIds := fileIds + [i];
      i := i + 1;
    }
  }

  /** The sprite loop: file `i` shows frame `i`'s tile. */
  method SpriteGids(frames: seq<Frame>) returns (sprites: map<int, int>)
    ensures forall k :: k in sprites <==> 0 <= k < |frames|
    ensures forall k :: 0 <= k < |frames| ==> sprites[k] == frames[k].gid
  {
    sprites := map[];
    var i := 0;
    while i < |frames|
      invariant 0 <= i <= |frames|
      invariant forall k :: k in sprites <==> 0 <= k < i
      invariant forall k :: 0 <= k < i ==> sprites[k] == frames[k].gid
    {
      sprites := sprites[i := frames[i].gid];
      i := i + 1;
    }
  }

  /** The last frame ends exactly when the animation does, and with
      non-negative durations the keys never go back in time. */
  lemma {:induction false} KeyTiming(frames: seq<Frame>, i: nat, j: nat)
    requires |frames| > 0
    requires i <= j <= |frames|
    requires forall k :: 0 <= k < |frames| ==> frames[k].durationMs >= 0
    ensures Elapsed(frames, |frames| - 1) + Seconds(frames[|frames| - 1].durationMs) == Elapsed(frames, |frames|)
    ensures Elapsed(frames, i) <= Elapsed(frames, j)
    decreases j - i
  {
    if i < j {
      KeyTiming(frames, i, j - 1);
    }
  }
}
