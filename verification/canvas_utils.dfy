/** `InfiniteCanvas/utils`: screen-to-world conversion, shape hit-testing and
    the cursor each tool shows. */
module CanvasUtils {
  import opened Types

  function Abs(v: real): real {
    if v < 0.0 then -v else v
  }

  /** `getCanvasCoordinates`: the world point under a client-space pointer,
      given the canvas rectangle's top-left corner `(left, top)`. */
  function CanvasCoordinates(clientX: real, clientY: real, left: real, top: real, t: Transform)
    : (p: Point)
    requires t.scale != 0.0
    ensures p.x * t.scale + t.x + left == clientX
    ensures p.y * t.scale + t.y + top == clientY
  {
    Point((clientX - left - t.x) / t.scale, (clientY - top - t.y) / t.scale)
  }

  /** The client-space position at which world point `p` is shown. */
  function ClientPosition(p: Point, left: real, top: real, t: Transform): Point {
    Point(p.x * t.scale + t.x + left, p.y * t.scale + t.y + top)
  }

  /** Converting a world point to the screen and back yields the same point. */
  lemma WorldScreenRoundTrip(p: Point, left: real, top: real, t: Transform)
    requires t.scale != 0.0
    ensures var c := ClientPosition(p, left, top, t);
            CanvasCoordinates(c.x, c.y, left, top, t) == p
  {
    var c := ClientPosition(p, left, top, t);
    var q := CanvasCoordinates(c.x, c.y, left, top, t);
    assert q.x * t.scale == p.x * t.scale;
    assert q.y * t.scale == p.y * t.scale;
  }

  /** Axis-aligned box test of a square, edges and corners included. */
  predicate InBox(p: Point, n: NodeData) {
    var halfWidth := n.width / 2.0;
    var halfHeight := n.height / 2.0;
    var left := n.position.x - halfWidth;
    var right := n.position.x + halfWidth;
    var top := n.position.y - halfHeight;
    var bottom := n.position.y + halfHeight;
    p.x >= left && p.x <= right && p.y >= top && p.y <= bottom
  }

  /** Normalised-ellipse test. A zero radius divides by zero in the source,
      which yields NaN or an infinity, and every comparison with those is
      false, so no point is inside such an ellipse. */
  predicate InEllipse(p: Point, n: NodeData) {
    if n.width == 0.0 || n.height == 0.0 then false
    else
      var radiusX := n.width / 2.0;
      var radiusY := n.height / 2.0;
      var dx := (p.x - n.position.x) / radiusX;
      var dy := (p.y - n.position.y) / radiusY;
      dx * dx + dy * dy <= 1.0
  }

  /** `isPointInNode`: squares use the box, every other node the ellipse. */
  predicate IsPointInNode(p: Point, n: NodeData) {
    if n.nodeType == Some(Square) then InBox(p, n) else InEllipse(p, n)
  }

  /** Square containment is |x - cx| <= w/2 and |y - cy| <= h/2. */
  lemma SquareContainment(p: Point, n: NodeData)
    requires n.nodeType == Some(Square)
    ensures IsPointInNode(p, n) <==>
      Abs(p.x - n.position.x) <= n.width / 2.0 && Abs(p.y - n.position.y) <= n.height / 2.0
  {
  }

  /** The four corners of a square are inside it; a point one unit beyond
      the right edge is not. */
  lemma SquareCornersAndBeyond(n: NodeData)
    requires n.nodeType == Some(Square) && n.width >= 0.0 && n.height >= 0.0
    ensures IsPointInNode(Point(n.position.x - n.width / 2.0, n.position.y - n.height / 2.0), n)
    ensures IsPointInNode(Point(n.position.x - n.width / 2.0, n.position.y + n.height / 2.0), n)
    ensures IsPointInNode(Point(n.position.x + n.width / 2.0, n.position.y - n.height / 2.0), n)
    ensures IsPointInNode(Point(n.position.x + n.width / 2.0, n.position.y + n.height / 2.0), n)
    ensures !IsPointInNode(Point(n.position.x + n.width / 2.0 + 1.0, n.position.y), n)
    ensures IsPointInNode(n.position, n)
  {
  }

  function Sq(r: real): real {
    r * r
  }

  /** Dividing by half a size is doubling and dividing by the size. */
  lemma HalfQuotient(a: real, w: real)
    requires w != 0.0
    ensures a / (w / 2.0) == 2.0 * a / w
  {
    var x := a / (w / 2.0);
    assert x * (w / 2.0) == a;
    assert x * w == 2.0 * a;
  }

  /** Ellipse containment in normalised coordinates: with both sizes
      non-zero, a point is inside exactly when its offset from the centre,
      doubled and divided by the size on each axis, has squared length at
      most 1; a zero size contains nothing. */
  lemma EllipseContainment(p: Point, n: NodeData)
    requires n.nodeType != Some(Square)
    ensures IsPointInNode(p, n) <==>
      && n.width != 0.0 && n.height != 0.0
      && Sq(2.0 * (p.x - n.position.x) / n.width) + Sq(2.0 * (p.y - n.position.y) / n.height) <= 1.0
  {
    if n.width != 0.0 && n.height != 0.0 {
      HalfQuotient(p.x - n.position.x, n.width);
      HalfQuotient(p.y - n.position.y, n.height);
    }
  }

  /** The point opposite `p` across the centre `c`. */
  function Reflect(p: Point, c: Point): Point {
    Point(2.0 * c.x - p.x, 2.0 * c.y - p.y)
  }

  /** An ellipse is symmetric about its centre: a point is inside exactly
      when its reflection through the centre is. */
  lemma EllipseSymmetric(p: Point, n: NodeData)
    requires n.nodeType != Some(Square)
    ensures IsPointInNode(Reflect(p, n.position), n) <==> IsPointInNode(p, n)
  {
    if n.width != 0.0 && n.height != 0.0 {
      var q := Reflect(p, n.position);
      var dx := (p.x - n.position.x) / (n.width / 2.0);
      var dy := (p.y - n.position.y) / (n.height / 2.0);
      assert (q.x - n.position.x) / (n.width / 2.0) == -dx;
      assert (q.y - n.position.y) / (n.height / 2.0) == -dy;
      assert (-dx) * (-dx) == dx * dx;
      assert (-dy) * (-dy) == dy * dy;
    }
  }

  /** The rightmost point of the ellipse, `(cx + w/2, cy)`, is on its boundary
      and so inside under `<=`. */
  lemma EllipseRightmostPointInside(n: NodeData)
    requires n.nodeType != Some(Square) && n.width != 0.0 && n.height != 0.0
    ensures IsPointInNode(Point(n.position.x + n.width / 2.0, n.position.y), n)
  {
  }

  /** The centre of a non-degenerate ellipse is inside it. */
  lemma EllipseContainsCentre(n: NodeData)
    requires n.nodeType != Some(Square) && n.width != 0.0 && n.height != 0.0
    ensures IsPointInNode(n.position, n)
  {
  }

  /** A zero-width or zero-height circle (the fresh draft of a drag-to-size
      gesture) cannot be hit. */
  lemma DegenerateEllipseMissed(p: Point, n: NodeData)
    requires n.nodeType != Some(Square) && (n.width == 0.0 || n.height == 0.0)
    ensures !IsPointInNode(p, n)
  {
  }

  /** `nodes.find(node => isPointInNode(p, node))`: the first node, in store
      order, that contains `p`. */
  function NodeAt(nodes: seq<NodeData>, p: Point): (r: Option<nat>)
    ensures r.Some? ==> r.value < |nodes| && IsPointInNode(p, nodes[r.value])
    ensures r.Some? ==> forall j :: 0 <= j < r.value ==> !IsPointInNode(p, nodes[j])
    ensures r.None? ==> forall j :: 0 <= j < |nodes| ==> !IsPointInNode(p, nodes[j])
    decreases |nodes|
  {
    if |nodes| == 0 then None
    else if IsPointInNode(p, nodes[0]) then Some(0)
    else match NodeAt(nodes[1..], p)
      case None => None
      case Some(k) => Some(k + 1)
  }

  datatype Cursor = Crosshair | ZoomIn | Grab | NotAllowed | DefaultCursor

  /** `getCursorStyle`: a pending shape or the pencil shows a crosshair, which
      wins over the zoom, pan and eraser cursors, in that order. */
  function CursorStyle(nodeTypeToAdd: Option<NodeType>, activeTool: Option<ToolType>): (c: Cursor)
    ensures c == Crosshair <==> nodeTypeToAdd.Some? || activeTool == Some(Pencil)
    ensures c == ZoomIn <==> nodeTypeToAdd.None? && activeTool == Some(Zoom)
    ensures c == Grab <==> nodeTypeToAdd.None? && activeTool == Some(Pan)
    ensures c == NotAllowed <==> nodeTypeToAdd.None? && activeTool == Some(Eraser)
    ensures c == DefaultCursor <==>
      nodeTypeToAdd.None? && (activeTool.None? || activeTool == Some(Select))
  {
    // A pending type is 'square' or 'circle', the only two node types.
    if nodeTypeToAdd.Some? || activeTool == Some(Pencil) then
      Crosshair
    else if activeTool == Some(Zoom) then ZoomIn
    else if activeTool == Some(Pan) then Grab
    else if activeTool == Some(Eraser) then NotAllowed
    else
      assert activeTool.Some? ==> activeTool.value == Select;
      DefaultCursor
  }
}
