/** The older `components/InfiniteCanvas.tsx`. It receives the shapes, the
    strokes (bare point lists) and the history as props, records history
    entries itself, and reports deletions, placements, moves and finished
    drags to its parent through callbacks, modelled here as a `Request`. */
module LegacyCanvas {
  import opened Types
  import opened CanvasUtils
  import Viewport
  import SmoothBrush
  import NodeStore
  import History
  import Canvas

  /** The history entries this variant records. */
  datatype Entry = DrawEntry(points: seq<Point>) | AddEntry(node: NodeData)

  /** The props the variant reads, and writes through its setters. */
  datatype Props = Props(
    nodes: seq<NodeData>,
    nodeTypeToAdd: Option<NodeType>,
    activeTool: Option<ToolType>,
    lines: seq<seq<Point>>,
    history: History.Log<Entry>)

  datatype State = State(props: Props, canvas: Canvas.CanvasState)

  /** A callback into the parent. */
  datatype Request =
    | DeleteNodeRequest(id: string)
    | PlaceNodeRequest(position: Point)
    | UpdateNodeRequest(id: string, position: Point)
    | DragDoneRequest(id: string, previousPosition: Point)

  predicate Convertible(st: State) {
    st.canvas.transform.scale != 0.0
  }

  function Coords(st: State, env: Canvas.Env, e: Canvas.MouseEvent): Point
    requires Convertible(st)
  {
    CanvasCoordinates(e.clientX, e.clientY, env.left, env.top, st.canvas.transform)
  }

  /** The variant's own `isPointInNode`, as written inline. A zero radius
      yields NaN or an infinity, which compares false. */
  predicate LegacyIsPointInNode(point: Point, node: NodeData) {
    if node.nodeType == Some(Square) then
      var left := node.position.x - node.width / 2.0;
      var right := node.position.x + node.width / 2.0;
      var top := node.position.y - node.height / 2.0;
      var bottom := node.position.y + node.height / 2.0;
      left <= point.x <= right && top <= point.y <= bottom
    else if node.width == 0.0 || node.height == 0.0 then false
    else
      var dx := (point.x - node.position.x) / (node.width / 2.0);
      var dy := (point.y - node.position.y) / (node.height / 2.0);
      dx * dx + dy * dy <= 1.0
  }

  /** The two hit tests agree on every point and node, so both variants pick
      the same node under the pointer. */
  lemma HitTestsAgree(point: Point, node: NodeData)
    ensures LegacyIsPointInNode(point, node) <==> IsPointInNode(point, node)
  {
  }

  /** The inline cursor expression is `getCursorStyle`, without the `grab`
      override during a pan. */
  function LegacyCursor(nodeTypeToAdd: Option<NodeType>, activeTool: Option<ToolType>): (c: Cursor)
    ensures c == CursorStyle(nodeTypeToAdd, activeTool)
  {
    // the source tests for 'square' or 'circle', which are all the node types
    match nodeTypeToAdd
    case Some(_) => Crosshair
    case None =>
      if activeTool == Some(Pencil) then Crosshair
      else if activeTool == Some(Zoom) then ZoomIn
      else if activeTool == Some(Pan) then Grab
      else if activeTool == Some(Eraser) then NotAllowed
      else DefaultCursor
  }

  function StartPan(c: Canvas.CanvasState, e: Canvas.MouseEvent): Canvas.CanvasState {
    c.(isDragging := true, lastPosition := Some(Canvas.ClientPoint(e)))
  }

  /** `handleMouseDown`: the pencil, then a pending shape, then a shape under
      the pointer (erased with the eraser, dragged otherwise), then zoom,
      pan, placement or pan. The mouse button is not consulted. */
  function MouseDown(st: State, env: Canvas.Env, e: Canvas.MouseEvent): (r: (State, Option<Request>))
    requires Convertible(st)
    // 1. pencil: a new one-point stroke
    ensures st.props.activeTool == Some(Pencil) ==>
      var p := Coords(st, env, e);
      && r.1.None?
      && r.0.props == st.props.(lines := st.props.lines + [[p]])
      && r.0.canvas == st.canvas.(drawing := true,
                                  brush := st.canvas.brush.(pointer := p, brush := p, hasMoved := true))
    // 2. pending shape: a zero-sized draft at the pointer
    ensures st.props.activeTool != Some(Pencil) && st.props.nodeTypeToAdd.Some? ==>
      var d := Canvas.Draft(st.props.nodeTypeToAdd.value, Coords(st, env, e), env.now);
      r == (st.(canvas := st.canvas.(newNode := Some(d), initialPosition := Some(d.position),
                                     resizingNode := Some(d.id))), None)
    // 3. a shape under the pointer: the eraser asks for its deletion; only shapes are erased
    ensures && st.props.activeTool != Some(Pencil) && st.props.nodeTypeToAdd.None?
            && NodeAt(st.props.nodes, Coords(st, env, e)).Some? ==>
      var n := st.props.nodes[NodeAt(st.props.nodes, Coords(st, env, e)).value];
      if st.props.activeTool == Some(Eraser) then r == (st, Some(DeleteNodeRequest(n.id)))
      else r == (st.(canvas := st.canvas.(selectedNode := Some(n.id), isDraggingNode := true,
                   lastPosition := Some(Canvas.ClientPoint(e)), initialPosition := Some(n.position))), None)
    // 4. empty canvas: zoom, or pan
    ensures && st.props.activeTool != Some(Pencil) && st.props.nodeTypeToAdd.None?
            && NodeAt(st.props.nodes, Coords(st, env, e)).None? ==>
      && r.1.None? && r.0.props == st.props
      && (st.props.activeTool == Some(Zoom) ==>
            r.0.canvas == st.canvas.(transform := Viewport.ClickZoom(st.canvas.transform, Coords(st, env, e), e.shiftKey)))
      && (st.props.activeTool != Some(Zoom) ==> r.0.canvas == StartPan(st.canvas, e))
    // the stroke store is written only by the pencil, and the history never here
    ensures r.0.props.history == st.props.history && r.0.props.nodes == st.props.nodes
  {
    var p := Coords(st, env, e);
    if st.props.activeTool == Some(Pencil) then
      var brush := SmoothBrush.Update(st.canvas.brush, env.geometry, p, SmoothBrush.UpdateOptions(true, None)).0;
      (State(st.props.(lines := st.props.lines + [[p]]), st.canvas.(drawing := true, brush := brush)), None)
    else if st.props.nodeTypeToAdd.Some? then
      var d := Canvas.Draft(st.props.nodeTypeToAdd.value, p, env.now);
      (st.(canvas := st.canvas.(newNode := Some(d), initialPosition := Some(p), resizingNode := Some(d.id))), None)
    else
      // `nodes.find` with the inline hit test, which agrees with `NodeAt`'s
      match NodeAt(st.props.nodes, p)
      case Some(k) =>
        var n := st.props.nodes[k];
        if st.props.activeTool == Some(Eraser) then (st, Some(DeleteNodeRequest(n.id)))
        else
          (st.(canvas := st.canvas.(selectedNode := Some(n.id), isDraggingNode := true,
                                    lastPosition := Some(Canvas.ClientPoint(e)), initialPosition := Some(n.position))), None)
      case None =>
        if st.props.activeTool == Some(Zoom) then
          (st.(canvas := st.canvas.(transform := Viewport.ClickZoom(st.canvas.transform, p, e.shiftKey))), None)
        else if st.props.activeTool == Some(Pan) then (st.(canvas := StartPan(st.canvas, e)), None)
        else if st.props.nodeTypeToAdd.Some? then (st, Some(PlaceNodeRequest(p)))
        else (st.(canvas := StartPan(st.canvas, e)), None)
  }

  /** `push` onto the last stroke. */
  function ExtendLast(lines: seq<seq<Point>>, p: Point): (r: seq<seq<Point>>)
    ensures |r| == |lines|
    ensures |lines| > 0 ==>
      && r[..|lines| - 1] == lines[..|lines| - 1]
      && r[|lines| - 1] == lines[|lines| - 1] + [p]
    ensures |lines| == 0 ==> r == lines
  {
    if |lines| == 0 then lines
    else lines[|lines| - 1 := lines[|lines| - 1] + [p]]
  }

  /** Nothing is under way: no pan or drag position, no stroke, no draft. */
  predicate Idle(c: Canvas.CanvasState) {
    c.lastPosition.None? && !c.drawing && !Canvas.HasText(c.resizingNode) && c.newNode.None?
  }

  /** `handleMouseMove`: ignored when idle; otherwise a stroke, a draft
      resize, a node drag (reported to the parent) or a pan. */
  function MouseMove(st: State, env: Canvas.Env, e: Canvas.MouseEvent): (r: (State, Option<Request>))
    requires Convertible(st)
    ensures Idle(st.canvas) ==> r == (st, None)
    ensures st.canvas.drawing ==>
      var b := SmoothBrush.Update(st.canvas.brush, env.geometry, Coords(st, env, e),
                                  SmoothBrush.UpdateOptions(false, Some(Canvas.PencilFriction))).0;
      r == (State(st.props.(lines := ExtendLast(st.props.lines, b.brush)), st.canvas.(brush := b)), None)
    ensures !st.canvas.drawing && Canvas.Resizing(st.canvas) ==>
      r == (st.(canvas := st.canvas.(newNode := Some(Canvas.Resize(st.canvas.newNode.value,
                                       st.canvas.initialPosition.value, Coords(st, env, e))))), None)
    ensures !st.canvas.drawing && !Canvas.Resizing(st.canvas) && Canvas.DraggingNode(st.canvas) ==>
      var id := st.canvas.selectedNode.value;
      var last := st.canvas.lastPosition.value;
      && r.0 == st.(canvas := st.canvas.(lastPosition := Some(Canvas.ClientPoint(e))))
      && (NodeStore.HasId(st.props.nodes, id) <==> r.1.Some?)
      && (r.1.Some? ==> (
            && r.1.value.UpdateNodeRequest? && r.1.value.id == id
            && (r.1.value.position.x - NodeStore.FindById(st.props.nodes, id).value.position.x)
                 * st.canvas.transform.scale == e.clientX - last.x
            && (r.1.value.position.y - NodeStore.FindById(st.props.nodes, id).value.position.y)
                 * st.canvas.transform.scale == e.clientY - last.y))
    ensures (!st.canvas.drawing && !Canvas.Resizing(st.canvas) && !Canvas.DraggingNode(st.canvas)
             && st.canvas.isDragging && st.canvas.lastPosition.Some?) ==>
      var last := st.canvas.lastPosition.value;
      r == (st.(canvas := st.canvas.(transform := Viewport.PanBy(st.canvas.transform, e.clientX - last.x, e.clientY - last.y),
                                     lastPosition := Some(Canvas.ClientPoint(e)))), None)
    ensures (!st.canvas.drawing && !Canvas.Resizing(st.canvas) && !Canvas.DraggingNode(st.canvas)
             && !(st.canvas.isDragging && st.canvas.lastPosition.Some?)) ==>
      r == (st, None)
    ensures r.0.props.history == st.props.history && r.0.props.nodes == st.props.nodes
  {
    if Idle(st.canvas) then (st, None)
    else if st.canvas.drawing then
      var b := SmoothBrush.Update(st.canvas.brush, env.geometry, Coords(st, env, e),
                                  SmoothBrush.UpdateOptions(false, Some(Canvas.PencilFriction))).0;
      (State(st.props.(lines := ExtendLast(st.props.lines, b.brush)), st.canvas.(brush := b)), None)
    else if Canvas.Resizing(st.canvas) then
      var d := Canvas.Resize(st.canvas.newNode.value, st.canvas.initialPosition.value, Coords(st, env, e));
      (st.(canvas := st.canvas.(newNode := Some(d))), None)
    else if Canvas.DraggingNode(st.canvas) then
      var id := st.canvas.selectedNode.value;
      var last := st.canvas.lastPosition.value;
      var dx := (e.clientX - last.x) / st.canvas.transform.scale;
      var dy := (e.clientY - last.y) / st.canvas.transform.scale;
      var request := match NodeStore.FindById(st.props.nodes, id)
        case Some(n) => Some(UpdateNodeRequest(id, Point(n.position.x + dx, n.position.y + dy)))
        case None => None;
      (st.(canvas := st.canvas.(lastPosition := Some(Canvas.ClientPoint(e)))), request)
    else if st.canvas.isDragging && st.canvas.lastPosition.Some? then
      var last := st.canvas.lastPosition.value;
      (st.(canvas := st.canvas.(transform := Viewport.PanBy(st.canvas.transform, e.clientX - last.x, e.clientY - last.y),
                                lastPosition := Some(Canvas.ClientPoint(e)))), None)
    else (st, None)
  }

  /** While the canvas is being panned, the world point that was under the
      pointer's previous position is under the pointer after the move. */
  lemma PanKeepsGrabbedPoint(st: State, env: Canvas.Env, e: Canvas.MouseEvent)
    requires Convertible(st)
    requires !st.canvas.drawing && !Canvas.Resizing(st.canvas) && !Canvas.DraggingNode(st.canvas)
    requires st.canvas.isDragging && st.canvas.lastPosition.Some?
    ensures var last := st.canvas.lastPosition.value;
            var r := MouseMove(st, env, e).0;
            && Convertible(r)
            && Coords(r, env, e) == CanvasCoordinates(last.x, last.y, env.left, env.top, st.canvas.transform)
  {
    var last := st.canvas.lastPosition.value;
    Viewport.PanFollowsPointer(st.canvas.transform, last.x, last.y, env.left, env.top,
                               e.clientX - last.x, e.clientY - last.y);
    assert last.x + (e.clientX - last.x) == e.clientX;
    assert last.y + (e.clientY - last.y) == e.clientY;
  }

  /** `handleMouseUp`: a stroke is recorded as a draw entry, a draft is
      appended and recorded as an add entry (both by the same truncate-then-
      append as `addAction`), or a finished node drag is reported; the drag
      state is then cleared in every case. */
  function MouseUp(st: State): (r: (State, Option<Request>))
    ensures r.0.canvas.(drawing := st.canvas.drawing, selectedNode := st.canvas.selectedNode,
                        resizingNode := st.canvas.resizingNode, newNode := st.canvas.newNode)
         == Canvas.ResetDragging(st.canvas)
    ensures st.canvas.drawing ==>
      && r.1.None?
      && r.0.canvas == Canvas.ResetDragging(st.canvas.(drawing := false))
      && r.0.props.(history := st.props.history) == st.props
      && (|st.props.lines| > 0 ==>
            r.0.props.history == History.AddAction(st.props.history, DrawEntry(st.props.lines[|st.props.lines| - 1])))
      && (|st.props.lines| == 0 ==> r.0.props.history == st.props.history)
    ensures !st.canvas.drawing && Canvas.HasText(st.canvas.resizingNode) && st.canvas.newNode.Some? ==>
      var n := st.canvas.newNode.value;
      && r.1.None?
      && r.0.props == st.props.(nodes := st.props.nodes + [n],
                                history := History.AddAction(st.props.history, AddEntry(n)))
      && r.0.canvas == Canvas.ResetDragging(st.canvas.(selectedNode := Some(n.id), resizingNode := None, newNode := None))
    ensures !st.canvas.drawing && !(Canvas.HasText(st.canvas.resizingNode) && st.canvas.newNode.Some?) ==>
      && r.0 == st.(canvas := Canvas.ResetDragging(st.canvas))
      && (st.canvas.isDraggingNode && Canvas.HasText(st.canvas.selectedNode) && st.canvas.initialPosition.Some? <==>
            r.1.Some?)
      && (r.1.Some? ==> r.1.value == DragDoneRequest(st.canvas.selectedNode.value, st.canvas.initialPosition.value))
  {
    var (st1, request) :=
      if st.canvas.drawing then
        var lines := st.props.lines;
        var history := if |lines| > 0 then History.AddAction(st.props.history, DrawEntry(lines[|lines| - 1]))
                       else st.props.history;
        (State(st.props.(history := history), st.canvas.(drawing := false)), None)
      else if Canvas.HasText(st.canvas.resizingNode) && st.canvas.newNode.Some? then
        var n := st.canvas.newNode.value;
        (State(
          st.props.(nodes := st.props.nodes + [n], history := History.AddAction(st.props.history, AddEntry(n))),
          st.canvas.(selectedNode := Some(n.id), resizingNode := None, newNode := None)), None)
      else if st.canvas.isDraggingNode && Canvas.HasText(st.canvas.selectedNode) && st.canvas.initialPosition.Some? then
        (st, Some(DragDoneRequest(st.canvas.selectedNode.value, st.canvas.initialPosition.value)))
      else (st, None);
    (st1.(canvas := Canvas.ResetDragging(st1.canvas)), request)
  }

  /** Both variants finish a draft identically: the shape list gains the
      draft and the log gains its `add`, under the same cursor rule. */
  lemma DraftCommitMatchesCurrentCanvas(st: State, ss: Canvas.Session)
    requires !st.canvas.drawing && Canvas.HasText(st.canvas.resizingNode) && st.canvas.newNode.Some?
    requires ss.canvas == st.canvas && ss.app.nodes == st.props.nodes
    requires History.Valid(ss.app.history) && History.Valid(st.props.history)
    requires ss.app.history.index == st.props.history.index
    ensures var r := MouseUp(st).0;
            var q := Canvas.MouseUp(ss, Canvas.MouseEvent(0.0, 0.0, 0, false));
            && r.props.nodes == q.app.nodes
            && r.props.history.index == q.app.history.index
            && |r.props.history.entries| == |q.app.history.entries|
  {
  }

  /** In this variant the eraser never touches the strokes: it only asks the
      parent to delete the first shape under the pointer. */
  lemma EraserOnlyDeletesShapes(st: State, env: Canvas.Env, e: Canvas.MouseEvent)
    requires Convertible(st) && st.props.activeTool == Some(Eraser)
    ensures MouseDown(st, env, e).0.props.lines == st.props.lines
    ensures MouseDown(st, env, e).1.Some? ==>
      && st.props.nodeTypeToAdd.None?
      && exists k :: 0 <= k < |st.props.nodes|
           && MouseDown(st, env, e).1 == Some(DeleteNodeRequest(st.props.nodes[k].id))
           && LegacyIsPointInNode(Coords(st, env, e), st.props.nodes[k])
  {
    var p := Coords(st, env, e);
    var k := NodeAt(st.props.nodes, p);
    if st.props.nodeTypeToAdd.None? && k.Some? {
      HitTestsAgree(p, st.props.nodes[k.value]);
    }
  }
}
