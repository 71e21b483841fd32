/** A tile-map layer as the scene sees it: the layer it was built from, the
    scene node of every cell (or object), and the draw order, visibility and
    opacity it forwards to those nodes. */
module TileMapLayer {
  import opened Wrappers
  import opened TileMapDefs

  /** Scene nodes are only compared and handed out, so an identifier
      stands for each. */
  type NodeId = nat

  /** Which kind of layer the scene layer was built from; `NoLayer` when it
      was built from none. */
  datatype LayerKind = TileLayer | ObjectGroup | ImageLayer | NoLayer

  datatype TileMapLayer = TileMapLayer(
    kind: LayerKind,
    width: int,
    height: int,
    nodes: seq<Option<NodeId>>,
    objects: seq<Option<TileMapObject>>,
    drawOrder: int,
    visible: bool,
    opacity: real)

  /** A tile layer holds one node slot per cell, row by row. */
  predicate WellFormedTileLayer(layer: TileMapLayer) {
    layer.kind == TileLayer && layer.width >= 0 && layer.height >= 0
    && |layer.nodes| == layer.width * layer.height
  }

  // ---------------------------------------------------------------------------
  // Render order

  /** `TileRenderOrder`: the sprite draw order of tile (x, y). */
  function TileRenderOrder(order: RenderOrder, width: int, height: int, x: int, y: int): int {
    match order
    case RightDown => x + y * width
    case LeftDown => (width - x) + y * width
    case LeftUp => (width - x) + (height - y) * width
    case RightUp => x + (height - y) * width
  }

  /** The smallest order a tile of the map gets. */
  function FirstOrder(order: RenderOrder, width: int): int {
    match order
    case RightDown => 0
    case LeftDown => 1
    case LeftUp => width + 1
    case RightUp => width
  }

  /** Orders of in-range tiles fill a window of `width * height` consecutive
      values starting at `FirstOrder`. */
  lemma {:induction false} RenderOrderRange(order: RenderOrder, width: int, height: int, x: int, y: int)
    requires 0 <= x < width && 0 <= y < height
    ensures FirstOrder(order, width) <= TileRenderOrder(order, width, height, x, y) < FirstOrder(order, width) + width * height
  {
    RowBounds(width, height, y);
    RowBounds(width, height, height - 1 - y);
  }

  lemma RowBounds(width: int, height: int, row: int)
    requires width > 0 && 0 <= row < height
    ensures 0 <= row * width && row * width + width <= width * height
  {
    assert (row + 1) * width <= height * width by {
      MultiplyMonotone(row + 1, height, width);
    }
  }

  lemma MultiplyMonotone(a: int, b: int, c: int)
    requires a <= b && c >= 0
    ensures a * c <= b * c
  {
  }

  /** Rows are drawn as wholes: every tile of a row lower on the screen
      (greater y) is drawn after (`Down` orders) or before (`Up` orders)
      every tile of a higher row. Within a row tiles are drawn rightwards
      for `Right` orders and leftwards for `Left` orders. */
  lemma {:induction false} RenderOrderDirection(order: RenderOrder, width: int, height: int, x1: int, y1: int, x2: int, y2: int)
    requires 0 <= x1 < width && 0 <= y1 < height && 0 <= x2 < width && 0 <= y2 < height
    ensures var o1, o2 := TileRenderOrder(order, width, height, x1, y1), TileRenderOrder(order, width, height, x2, y2);
            (y1 < y2 ==> if order == RightDown || order == LeftDown then o1 < o2 else o1 > o2)
            && (y1 == y2 && x1 < x2 ==> if order == RightDown || order == RightUp then o1 < o2 else o1 > o2)
  {
    if y1 < y2 {
      assert y1 * width + width <= y2 * width by {
        MultiplyMonotone(y1 + 1, y2, width);
      }
      assert (height - y2) * width + width <= (height - y1) * width by {
        MultiplyMonotone(height - y2 + 1, height - y1, width);
      }
    }
  }

  /** Distinct in-range tiles never share an order. */
  lemma RenderOrderInjective(order: RenderOrder, width: int, height: int, x1: int, y1: int, x2: int, y2: int)
    requires 0 <= x1 < width && 0 <= y1 < height && 0 <= x2 < width && 0 <= y2 < height
    requires TileRenderOrder(order, width, height, x1, y1) == TileRenderOrder(order, width, height, x2, y2)
    ensures x1 == x2 && y1 == y2
  {
    if y1 < y2 || (y1 == y2 && x1 < x2) {
      RenderOrderDirection(order, width, height, x1, y1, x2, y2);
    } else if y2 < y1 || x2 < x1 {
      RenderOrderDirection(order, width, height, x2, y2, x1, y1);
    }
  }

  // ---------------------------------------------------------------------------
  // Accessors

  /** `GetWidth` / `GetHeight`: zero when there is no layer. */
  function Width(layer: TileMapLayer): (w: int)
    ensures layer.kind == NoLayer ==> w == 0
    ensures layer.kind != NoLayer ==> w == layer.width
  {
    if layer.kind == NoLayer then 0 else layer.width
  }

  function Height(layer: TileMapLayer): (h: int)
    ensures layer.kind == NoLayer ==> h == 0
    ensures layer.kind != NoLayer ==> h == layer.height
  {
    if layer.kind == NoLayer then 0 else layer.height
  }

  /** `GetTileNode`: the node of cell (x, y), or nothing for a layer that is
      not a tile layer or a cell outside the map. */
  function GetTileNode(layer: TileMapLayer, x: int, y: int): (r: Option<NodeId>)
    requires layer.kind == TileLayer ==> WellFormedTileLayer(layer)
    ensures layer.kind != TileLayer ==> r == None
    ensures !(0 <= x < layer.width && 0 <= y < layer.height) ==> r == None
  {
    if layer.kind != TileLayer then None
    else if x < 0 || x >= layer.width || y < 0 || y >= layer.height then None
    else
      CellIndexInRange(layer.width, layer.height, x, y);
      layer.nodes[y * layer.width + x]
  }

  /** Cell (x, y) of a `width` by `height` map is stored at `y * width + x`. */
  lemma CellIndexInRange(width: int, height: int, x: int, y: int)
    requires 0 <= x < width && 0 <= y < height
    ensures 0 <= y * width + x < width * height
  {
    RowBounds(width, height, y);
  }

  /** Each node slot of a tile layer belongs to exactly one cell:
      `GetTileNode` reads slot `k` at cell (k % width, k / width). */
  lemma {:induction false} EverySlotHasOneCell(layer: TileMapLayer, k: int)
    requires WellFormedTileLayer(layer) && 0 <= k < |layer.nodes|
    ensures layer.width > 0
    ensures 0 <= k / layer.width < layer.height
    ensures GetTileNode(layer, k % layer.width, k / layer.width) == layer.nodes[k]
  {
    var w := layer.width;
    if w == 0 {
      MultiplyMonotone(0, 0, layer.height);
      assert false;
    }
    var x, y := k % w, k / w;
    assert k == y * w + x;
    if y >= layer.height {
      MultiplyMonotone(layer.height, y, w);
      assert false;
    }
  }

  /** `GetNumObjects`: zero for a layer that is not an object group. */
  function NumObjects(layer: TileMapLayer): (n: nat)
    ensures layer.kind != ObjectGroup ==> n == 0
    ensures layer.kind == ObjectGroup ==> n == |layer.objects|
  {
    if layer.kind != ObjectGroup then 0 else |layer.objects|
  }

  /** `GetObject(index)`: the object at `index` of an object group, or
      nothing past the end. */
  function GetObjectAt(layer: TileMapLayer, index: nat): (r: Option<TileMapObject>)
    ensures index >= NumObjects(layer) ==> r == None
    ensures index < NumObjects(layer) ==> r == layer.objects[index]
  {
    if layer.kind != ObjectGroup || index >= |layer.objects| then None else layer.objects[index]
  }

  /** `GetObject(name)`: the first object in index order whose name matches. */
  function GetObjectNamed(layer: TileMapLayer, name: string): (r: Option<TileMapObject>)
    ensures r.Some? ==> layer.kind == ObjectGroup && exists i :: 0 <= i < |layer.objects| && layer.objects[i] == r && r.value.name == name
  {
    if layer.kind != ObjectGroup then None else FirstNamed(layer.objects, name, 0)
  }

  /** The search loop of `GetObject(name)` from position `i` on. */
  function FirstNamed(objects: seq<Option<TileMapObject>>, name: string, i: nat): (r: Option<TileMapObject>)
    requires i <= |objects|
    ensures r.Some? ==> exists k :: i <= k < |objects| && objects[k] == r && r.value.name == name
    decreases |objects| - i
  {
    if i == |objects| then None
    else if objects[i].Some? && objects[i].value.name == name then objects[i]
    else FirstNamed(objects, name, i + 1)
  }

  /** The object with that name and no earlier one of the same name is the
      one found; with no such object, nothing is found. */
  lemma {:induction false} FirstNamedIsFirst(objects: seq<Option<TileMapObject>>, name: string, i: nat)
    requires i <= |objects|
    ensures FirstNamed(objects, name, i).None? <==>
              forall k :: i <= k < |objects| ==> !(objects[k].Some? && objects[k].value.name == name)
    ensures forall k :: i <= k < |objects| && objects[k].Some? && objects[k].value.name == name
              && (forall j :: i <= j < k ==> !(objects[j].Some? && objects[j].value.name == name))
              ==> FirstNamed(objects, name, i) == objects[k]
    decreases |objects| - i
  {
    if i < |objects| {
      FirstNamedIsFirst(objects, name, i + 1);
    }
  }

  lemma GetObjectNamedIsFirst(layer: TileMapLayer, name: string, k: nat)
    requires layer.kind == ObjectGroup && k < |layer.objects|
    requires layer.objects[k].Some? && layer.objects[k].value.name == name
    requires forall j :: 0 <= j < k ==> !(layer.objects[j].Some? && layer.objects[j].value.name == name)
    ensures GetObjectNamed(layer, name) == layer.objects[k]
  {
    FirstNamedIsFirst(layer.objects, name, 0);
  }

  /** `GetObjectNode`: the node of object `index`, or nothing when the layer
      is not an object group or the index is past the nodes. */
  function GetObjectNode(layer: TileMapLayer, index: nat): (r: Option<NodeId>)
    ensures layer.kind != ObjectGroup || index >= |layer.nodes| ==> r == None
    ensures layer.kind == ObjectGroup && index < |layer.nodes| ==> r == layer.nodes[index]
  {
    if layer.kind != ObjectGroup || index >= |layer.nodes| then None else layer.nodes[index]
  }

  // ---------------------------------------------------------------------------
  // Setters

  /** A setter's outcome: the new layer, and whether the value changed and
      so was forwarded to the layer's nodes. */
  datatype Update = Update(layer: TileMapLayer, forwarded: bool)

  function SetDrawOrder(layer: TileMapLayer, drawOrder: int): (r: Update)
    ensures r.layer.drawOrder == drawOrder
    ensures r.layer.(drawOrder := layer.drawOrder) == layer
    ensures r.forwarded <==> drawOrder != layer.drawOrder
  {
    if drawOrder == layer.drawOrder then Update(layer, false) else Update(layer.(drawOrder := drawOrder), true)
  }

  function SetVisible(layer: TileMapLayer, visible: bool): (r: Update)
    ensures r.layer.visible == visible
    ensures r.layer.(visible := layer.visible) == layer
    ensures r.forwarded <==> visible != layer.visible
  {
    if visible == layer.visible then Update(layer, false) else Update(layer.(visible := visible), true)
  }

  function SetOpacity(layer: TileMapLayer, opacity: real): (r: Update)
    ensures r.layer.opacity == opacity
    ensures r.layer.(opacity := layer.opacity) == layer
    ensures r.forwarded <==> opacity != layer.opacity
  {
    if opacity == layer.opacity then Update(layer, false) else Update(layer.(opacity := opacity), true)
  }

  /** Setting a value a second time changes nothing and forwards nothing. */
  lemma SettersIdempotent(layer: TileMapLayer, drawOrder: int, visible: bool, opacity: real)
    ensures var u := SetDrawOrder(layer, drawOrder).layer; SetDrawOrder(u, drawOrder) == Update(u, false)
    ensures var u := SetVisible(layer, visible).layer; SetVisible(u, visible) == Update(u, false)
    ensures var u := SetOpacity(layer, opacity).layer; SetOpacity(u, opacity) == Update(u, false)
  {
  }
}
