/** `InfiniteCanvas`: the pointer gesture engine of the current canvas. A
    `Session` pairs the shared application state with the canvas' own
    gesture state; each handler maps a session and an event to the next
    session. */
module Canvas {
  import opened Types
  import opened CanvasUtils
  import Viewport
  import SmoothBrush
  import NodeStore
  import History
  import App

  datatype CanvasState = CanvasState(
    transform: Transform,
    isDragging: bool,
    lastPosition: Option<Point>,
    selectedNode: Option<string>,
    isDraggingNode: bool,
    initialPosition: Option<Point>,
    drawing: bool,
    resizingNode: Option<string>,
    newNode: Option<NodeData>,
    brush: SmoothBrush.Brush)

  datatype Session = Session(app: App.AppState, canvas: CanvasState)

  /** What the handlers read from outside the model: the canvas rectangle's
      top-left corner, the clock reading used in ids, the stroke width from
      the tools context, the stroke hit test, and the brush geometry. */
  datatype Env = Env(
    left: real,
    top: real,
    now: string,
    lineWidth: real,
    onLine: (Point, seq<Point>) -> bool,
    geometry: SmoothBrush.Geometry)

  datatype MouseEvent = MouseEvent(clientX: real, clientY: real, button: int, shiftKey: bool)

  const MiddleButton: int := 1
  const BrushRadius: real := 3.0
  const PencilFriction: real := 0.30

  function ClientPoint(e: MouseEvent): Point {
    Point(e.clientX, e.clientY)
  }

  /** JavaScript truthiness of an optional id: absent or empty is false. */
  predicate HasText(o: Option<string>) {
    o.Some? && |o.value| > 0
  }

  function InitCanvas(): (c: CanvasState)
    ensures Viewport.ScaleInRange(c.transform.scale)
    ensures !c.isDragging && !c.isDraggingNode && !c.drawing
    ensures c.lastPosition.None? && c.selectedNode.None? && c.initialPosition.None?
    ensures c.resizingNode.None? && c.newNode.None?
    ensures c.brush.radius == BrushRadius && c.brush.isEnabled
  {
    CanvasState(Viewport.InitialTransform(), false, None, None, false, None, false, None, None,
      SmoothBrush.New(SmoothBrush.Options(Some(BrushRadius), None, None)))
  }

  /** The session invariant: the viewport scale is in range and the history
      cursor is valid. */
  predicate Inv(ss: Session) {
    && Viewport.ScaleInRange(ss.canvas.transform.scale)
    && App.Inv(ss.app)
  }

  function Init(): (ss: Session)
    ensures Inv(ss)
  {
    Session(App.Init(), InitCanvas())
  }

  /** What the handlers that convert coordinates need: a non-zero scale. */
  predicate Convertible(ss: Session) {
    ss.canvas.transform.scale != 0.0
  }

  function Coords(ss: Session, env: Env, e: MouseEvent): Point
    requires Convertible(ss)
  {
    CanvasCoordinates(e.clientX, e.clientY, env.left, env.top, ss.canvas.transform)
  }

  // ---------------------------------------------------------------------
  // Palette remapping for the theme

  /** The light palette colours and their dark counterparts. */
  const LightToDark: map<string, string> := map[
    "#000000" := "#FFFFFF", "#FF4D4D" := "#FF6666", "#4DFF4D" := "#66FF66", "#4D4DFF" := "#6666FF",
    "#FFB84D" := "#FFB366", "#A64DA6" := "#CC99CC", "#FFFF66" := "#FFFF99", "#FF66FF" := "#FF99FF"]

  /** The same pairs read the other way (`Object.fromEntries` over the
      swapped entries); the two lemmas below show it is the inverse table. */
  const DarkToLight: map<string, string> := map[
    "#FFFFFF" := "#000000", "#FF6666" := "#FF4D4D", "#66FF66" := "#4DFF4D", "#6666FF" := "#4D4DFF",
    "#FFB366" := "#FFB84D", "#CC99CC" := "#A64DA6", "#FFFF99" := "#FFFF66", "#FF99FF" := "#FF66FF"]

  /** `transformColorForTheme`: a palette colour is swapped for its
      counterpart in the target theme; any other colour is kept. */
  function ThemeColor(color: string, darkMode: bool): (r: string)
    ensures darkMode && color in LightToDark ==> r == LightToDark[color]
    ensures !darkMode && color in DarkToLight ==> r == DarkToLight[color]
    ensures (darkMode && color !in LightToDark) || (!darkMode && color !in DarkToLight) ==> r == color
  {
    var mapping := if darkMode then LightToDark else DarkToLight;
    if color in mapping && mapping[color] != "" then mapping[color] else color
  }

  /** Every light colour's dark counterpart maps back to it. */
  lemma LightToDarkInverted()
    ensures forall c :: c in LightToDark ==> LightToDark[c] in DarkToLight && DarkToLight[LightToDark[c]] == c
  {
  }

  /** Every dark colour's light counterpart maps back to it. */
  lemma DarkToLightInverted()
    ensures forall c :: c in DarkToLight ==> DarkToLight[c] in LightToDark && LightToDark[DarkToLight[c]] == c
  {
  }

  /** No colour is in both palettes. */
  lemma PalettesDisjoint()
    ensures forall c :: c in LightToDark ==> c !in DarkToLight
  {
  }

  /** Switching to dark and back to light restores every colour except the
      dark palette colours, which the light theme swaps. */
  lemma DarkThenLight(c: string)
    ensures ThemeColor(ThemeColor(c, true), false) == c <==> c !in DarkToLight
  {
    LightToDarkInverted();
    PalettesDisjoint();
  }

  /** Switching to light and back to dark restores every colour except the
      light palette colours, which the dark theme swaps. */
  lemma LightThenDark(c: string)
    ensures ThemeColor(ThemeColor(c, false), true) == c <==> c !in LightToDark
  {
    DarkToLightInverted();
    PalettesDisjoint();
  }

  /** The theme effect: every stroke takes the theme's colour; nothing else
      about the strokes changes. */
  function ApplyTheme(lines: seq<Line>, darkMode: bool): (r: seq<Line>)
    ensures |r| == |lines|
    ensures forall i :: 0 <= i < |lines| ==>
      r[i].points == lines[i].points && r[i].width == lines[i].width
      && r[i].color == ThemeColor(lines[i].color, darkMode)
  {
    seq(|lines|, i requires 0 <= i < |lines| => lines[i].(color := ThemeColor(lines[i].color, darkMode)))
  }

  /** Toggling the theme to light and back to dark leaves strokes drawn in
      dark-palette or off-palette colours as they were. */
  lemma ThemeRoundTrip(lines: seq<Line>)
    requires forall i :: 0 <= i < |lines| ==> lines[i].color !in LightToDark
    ensures ApplyTheme(ApplyTheme(lines, false), true) == lines
  {
    var r := ApplyTheme(ApplyTheme(lines, false), true);
    forall i | 0 <= i < |lines| ensures r[i] == lines[i] {
      LightThenDark(lines[i].color);
    }
  }

  // ---------------------------------------------------------------------
  // Mouse down

  function StartCanvasDragging(c: CanvasState, e: MouseEvent): CanvasState {
    c.(isDragging := true, lastPosition := Some(ClientPoint(e)))
  }

  /** `lines.findIndex(l => isPointOnLine(p, l.points))`. */
  function LineAt(lines: seq<Line>, p: Point, onLine: (Point, seq<Point>) -> bool): (r: Option<nat>)
    ensures r.Some? ==> r.value < |lines| && onLine(p, lines[r.value].points)
    ensures r.Some? ==> forall j :: 0 <= j < r.value ==> !onLine(p, lines[j].points)
    ensures r.None? ==> forall j :: 0 <= j < |lines| ==> !onLine(p, lines[j].points)
    decreases |lines|
  {
    if |lines| == 0 then None
    else if onLine(p, lines[0].points) then Some(0)
    else match LineAt(lines[1..], p, onLine)
      case None => None
      case Some(k) => Some(k + 1)
  }

  /** `lines.filter((_, index) => index !== i)`: the stroke at `i` goes, the
      others keep their order. */
  function RemoveLineAt(lines: seq<Line>, i: nat): (r: seq<Line>)
    requires i < |lines|
    ensures |r| == |lines| - 1
    ensures forall j :: 0 <= j < i ==> r[j] == lines[j]
    ensures forall j :: i <= j < |r| ==> r[j] == lines[j + 1]
  {
    lines[..i] + lines[i + 1..]
  }

  /** `handleEraserAction`: the first stroke under the pointer is removed and
      recorded; only when no stroke is hit, the first shape under the pointer
      is deleted through the app. */
  function EraserAction(ss: Session, env: Env, p: Point): (r: Session)
    ensures r.canvas == ss.canvas
    ensures LineAt(ss.app.lines, p, env.onLine).Some? ==>
      var i := LineAt(ss.app.lines, p, env.onLine).value;
      && r.app.lines == RemoveLineAt(ss.app.lines, i)
      && r.app.(lines := ss.app.lines, history := ss.app.history) == ss.app
      && r.app.history == History.AddAction(ss.app.history, DeleteLineAction(ss.app.lines[i]))
    ensures LineAt(ss.app.lines, p, env.onLine).None? && NodeAt(ss.app.nodes, p).Some? ==>
      r.app == App.HandleDeleteNode(ss.app, ss.app.nodes[NodeAt(ss.app.nodes, p).value].id)
    ensures LineAt(ss.app.lines, p, env.onLine).None? && NodeAt(ss.app.nodes, p).None? ==> r == ss
  {
    match LineAt(ss.app.lines, p, env.onLine)
    case Some(i) =>
      var removed := ss.app.lines[i];
      ss.(app := App.Record(ss.app.(lines := RemoveLineAt(ss.app.lines, i)), DeleteLineAction(removed)))
    case None =>
      match NodeAt(ss.app.nodes, p)
      case Some(k) => ss.(app := App.HandleDeleteNode(ss.app, ss.app.nodes[k].id))
      case None => ss
  }

  /** The eraser removes at most one object when shape ids are unique. */
  lemma EraserRemovesAtMostOne(ss: Session, env: Env, p: Point)
    requires NodeStore.UniqueIds(ss.app.nodes)
    ensures var r := EraserAction(ss, env, p);
            |r.app.lines| + |r.app.nodes| >= |ss.app.lines| + |ss.app.nodes| - 1
            && |r.app.lines| <= |ss.app.lines| && |r.app.nodes| <= |ss.app.nodes|
  {
    if LineAt(ss.app.lines, p, env.onLine).None? {
      var k := NodeAt(ss.app.nodes, p);
      if k.Some? {
        var id := ss.app.nodes[k.value].id;
        assert NodeStore.HasId(ss.app.nodes, id);
        NodeStore.DeleteUniqueRemovesOne(ss.app.nodes, id);
      }
    }
  }

  /** The stroke a pencil press starts: one point, the current colour and
      width. */
  function NewStroke(p: Point, color: string, width: real): Line {
    Line([p], color, width)
  }

  /** The draft shape a press with a pending shape creates: zero-sized at the
      pointer, named like a placed node. */
  function Draft(t: NodeType, p: Point, now: string): (n: NodeData)
    ensures n.nodeType == Some(t) && n.position == p
    ensures n.width == 0.0 && n.height == 0.0 && n.scale == 1.0
    ensures n.id == NodeStore.NodeId(t, now)
  {
    NodeData(NodeStore.NodeId(t, now), Some(t), p, 1.0, 0.0, 0.0)
  }

  /** The zoom, pan and default tool actions of a press on empty canvas. */
  function ToolAction(ss: Session, env: Env, e: MouseEvent, p: Point): (r: Session)
    ensures ss.app.activeTool == Some(Zoom) ==>
      r == ss.(canvas := ss.canvas.(transform := Viewport.ClickZoom(ss.canvas.transform, p, e.shiftKey)))
    ensures ss.app.activeTool != Some(Zoom) && (ss.app.activeTool == Some(Pan) || ss.app.nodeTypeToAdd.None?) ==>
      r == ss.(canvas := StartCanvasDragging(ss.canvas, e))
    ensures ss.app.activeTool != Some(Zoom) && ss.app.activeTool != Some(Pan) && ss.app.nodeTypeToAdd.Some? ==>
      r == ss.(app := App.HandlePlaceNode(ss.app, p, env.now))
  {
    match ss.app.activeTool
    case Some(Zoom) =>
      ss.(canvas := ss.canvas.(transform := Viewport.ClickZoom(ss.canvas.transform, p, e.shiftKey)))
    case Some(Pan) => ss.(canvas := StartCanvasDragging(ss.canvas, e))
    case _ =>
      if ss.app.nodeTypeToAdd.Some? then ss.(app := App.HandlePlaceNode(ss.app, p, env.now))
      else ss.(canvas := StartCanvasDragging(ss.canvas, e))
  }

  /** `handleMouseDown`: the middle button pans; then the eraser, the pencil,
      a pending shape, a shape under the pointer, and finally the tool's own
      action, in that order of priority. */
  function MouseDown(ss: Session, env: Env, e: MouseEvent): (r: Session)
    requires Convertible(ss)
    // 1. middle button: start panning
    ensures e.button == MiddleButton ==>
      r == ss.(canvas := ss.canvas.(isDragging := true, lastPosition := Some(ClientPoint(e))))
    // 2. eraser
    ensures e.button != MiddleButton && ss.app.activeTool == Some(Eraser) ==>
      r == EraserAction(ss, env, Coords(ss, env, e))
    // 3. pencil: a one-point stroke is appended and the brush snaps to it
    ensures e.button != MiddleButton && ss.app.activeTool == Some(Pencil) ==>
      var p := Coords(ss, env, e);
      && r.app == ss.app.(lines := ss.app.lines + [NewStroke(p, ss.app.lineColor, env.lineWidth)])
      && r.canvas == ss.canvas.(drawing := true,
                                brush := ss.canvas.brush.(pointer := p, brush := p, hasMoved := true))
    // 4. pending shape: a zero-sized draft anchored at the pointer
    ensures && e.button != MiddleButton
            && ss.app.activeTool != Some(Eraser) && ss.app.activeTool != Some(Pencil)
            && ss.app.nodeTypeToAdd.Some? ==>
      var d := Draft(ss.app.nodeTypeToAdd.value, Coords(ss, env, e), env.now);
      r == ss.(canvas := ss.canvas.(newNode := Some(d), initialPosition := Some(d.position),
                                    resizingNode := Some(d.id)))
    // 5. a shape under the pointer: start dragging the first one hit
    ensures && e.button != MiddleButton
            && ss.app.activeTool != Some(Eraser) && ss.app.activeTool != Some(Pencil)
            && ss.app.nodeTypeToAdd.None? && NodeAt(ss.app.nodes, Coords(ss, env, e)).Some? ==>
      var n := ss.app.nodes[NodeAt(ss.app.nodes, Coords(ss, env, e)).value];
      && IsPointInNode(Coords(ss, env, e), n)
      && r == ss.(canvas := ss.canvas.(selectedNode := Some(n.id), isDraggingNode := true,
                                       lastPosition := Some(ClientPoint(e)), initialPosition := Some(n.position)))
    // 6. otherwise the tool's action
    ensures && e.button != MiddleButton
            && ss.app.activeTool != Some(Eraser) && ss.app.activeTool != Some(Pencil)
            && ss.app.nodeTypeToAdd.None? && NodeAt(ss.app.nodes, Coords(ss, env, e)).None? ==>
      r == ToolAction(ss, env, e, Coords(ss, env, e))
  {
    var p := Coords(ss, env, e);
    if e.button == MiddleButton then
      ss.(canvas := StartCanvasDragging(ss.canvas, e))
    else if ss.app.activeTool == Some(Eraser) then
      EraserAction(ss, env, p)
    else if ss.app.activeTool == Some(Pencil) then
      var brush := SmoothBrush.Update(ss.canvas.brush, env.geometry, p, SmoothBrush.UpdateOptions(true, None)).0;
      Session(
        ss.app.(lines := ss.app.lines + [NewStroke(p, ss.app.lineColor, env.lineWidth)]),
        ss.canvas.(drawing := true, brush := brush))
    else if ss.app.nodeTypeToAdd.Some? then
      var d := Draft(ss.app.nodeTypeToAdd.value, p, env.now);
      ss.(canvas := ss.canvas.(newNode := Some(d), initialPosition := Some(p), resizingNode := Some(d.id)))
    else
      match NodeAt(ss.app.nodes, p)
      case Some(k) =>
        var n := ss.app.nodes[k];
        ss.(canvas := ss.canvas.(selectedNode := Some(n.id), isDraggingNode := true,
                                 lastPosition := Some(ClientPoint(e)), initialPosition := Some(n.position)))
      case None => ToolAction(ss, env, e, p)
  }

  /** The placement branch of the tool action is never reached from a press:
      a pending shape has already started a draft. */
  lemma PressNeverPlacesDirectly(ss: Session, env: Env, e: MouseEvent)
    requires Convertible(ss)
    ensures |MouseDown(ss, env, e).app.nodes| == |ss.app.nodes| || ss.app.activeTool == Some(Eraser)
  {
  }

  // ---------------------------------------------------------------------
  // Mouse move

  /** The pencil appends the brush position to the last stroke, if any. */
  function ExtendLastLine(lines: seq<Line>, p: Point): (r: seq<Line>)
    ensures |r| == |lines|
    ensures |lines| > 0 ==>
      && r[..|lines| - 1] == lines[..|lines| - 1]
      && r[|lines| - 1] == lines[|lines| - 1].(points := lines[|lines| - 1].points + [p])
    ensures |lines| == 0 ==> r == []
  {
    if |lines| == 0 then lines
    else
      var last := lines[|lines| - 1];
      lines[|lines| - 1 := last.(points := last.points + [p])]
  }

  /** `handleNodeResizing`: the draft spans the box between the anchor and the
      pointer. Its size is the absolute offset, and its centre sits half the
      size from the anchor toward the pointer. */
  function Resize(draft: NodeData, anchor: Point, cursor: Point): (r: NodeData)
    ensures r == draft.(width := r.width, height := r.height, position := r.position)
    ensures r.width == Abs(cursor.x - anchor.x) && r.height == Abs(cursor.y - anchor.y)
    ensures r.width >= 0.0 && r.height >= 0.0
    // the anchor and the pointer lie on opposite edges
    ensures (r.position.x - r.width / 2.0 == anchor.x && r.position.x + r.width / 2.0 == cursor.x)
         || (r.position.x - r.width / 2.0 == cursor.x && r.position.x + r.width / 2.0 == anchor.x)
    ensures (r.position.y - r.height / 2.0 == anchor.y && r.position.y + r.height / 2.0 == cursor.y)
         || (r.position.y - r.height / 2.0 == cursor.y && r.position.y + r.height / 2.0 == anchor.y)
  {
    var w := Abs(cursor.x - anchor.x);
    var h := Abs(cursor.y - anchor.y);
    var x := if cursor.x < anchor.x then anchor.x - w / 2.0 else anchor.x + w / 2.0;
    var y := if cursor.y < anchor.y then anchor.y - h / 2.0 else anchor.y + h / 2.0;
    draft.(width := w, height := h, position := Point(x, y))
  }

  /** Hence both the anchor and the pointer are inside the resized square. */
  lemma ResizedSquareSpansGesture(draft: NodeData, anchor: Point, cursor: Point)
    requires draft.nodeType == Some(Square)
    ensures IsPointInNode(anchor, Resize(draft, anchor, cursor))
    ensures IsPointInNode(cursor, Resize(draft, anchor, cursor))
  {
  }

  /** Where a dragged node goes: its position plus the pointer's screen
      delta divided by the scale. */
  function DragTarget(from: Point, e: MouseEvent, last: Point, scale: real): Point
    requires scale != 0.0
  {
    Point(from.x + (e.clientX - last.x) / scale, from.y + (e.clientY - last.y) / scale)
  }

  /** `handleNodeDragging`: the nodes carrying the selected id move to the
      drag target of the first of them; nothing else changes and the pointer
      position is remembered. */
  function DragNode(ss: Session, e: MouseEvent, id: string, last: Point): (r: Session)
    requires Convertible(ss)
    ensures r.canvas == ss.canvas.(lastPosition := Some(ClientPoint(e)))
    ensures r.app.(nodes := ss.app.nodes) == ss.app
    ensures !NodeStore.HasId(ss.app.nodes, id) ==> r.app == ss.app
    ensures NodeStore.HasId(ss.app.nodes, id) ==>
      r.app.nodes == NodeStore.UpdateNode(ss.app.nodes, id,
        DragTarget(NodeStore.FindById(ss.app.nodes, id).value.position, e, last, ss.canvas.transform.scale))
  {
    var c := ss.canvas.(lastPosition := Some(ClientPoint(e)));
    match NodeStore.FindById(ss.app.nodes, id)
    case None => ss.(canvas := c)
    case Some(n) =>
      Session(App.HandleUpdateNode(ss.app, id, DragTarget(n.position, e, last, ss.canvas.transform.scale)), c)
  }

  /** The drag target is displaced from the start by exactly the pointer's
      screen delta, scaled back. */
  lemma DragTargetFollowsPointer(from: Point, e: MouseEvent, last: Point, scale: real)
    requires scale != 0.0
    ensures (DragTarget(from, e, last, scale).x - from.x) * scale == e.clientX - last.x
    ensures (DragTarget(from, e, last, scale).y - from.y) * scale == e.clientY - last.y
  {
    var dx := (e.clientX - last.x) / scale;
    var dy := (e.clientY - last.y) / scale;
    assert DragTarget(from, e, last, scale).x - from.x == dx;
    assert DragTarget(from, e, last, scale).y - from.y == dy;
  }

  predicate Resizing(c: CanvasState) {
    HasText(c.resizingNode) && c.initialPosition.Some? && c.newNode.Some?
  }

  predicate DraggingNode(c: CanvasState) {
    c.isDraggingNode && HasText(c.selectedNode) && c.lastPosition.Some?
  }

  /** `handleMouseMove`: a stroke, a draft resize, a node drag or a pan, in
      that order of priority. */
  function MouseMove(ss: Session, env: Env, e: MouseEvent): (r: Session)
    requires Convertible(ss)
    // a stroke in progress grows by the brush position
    ensures ss.canvas.drawing ==>
      var b := SmoothBrush.Update(ss.canvas.brush, env.geometry, Coords(ss, env, e),
                                  SmoothBrush.UpdateOptions(false, Some(PencilFriction))).0;
      && r.canvas == ss.canvas.(brush := b)
      && r.app == ss.app.(lines := ExtendLastLine(ss.app.lines, b.brush))
    // a draft follows the pointer from its anchor
    ensures !ss.canvas.drawing && Resizing(ss.canvas) ==>
      r == ss.(canvas := ss.canvas.(newNode := Some(Resize(ss.canvas.newNode.value,
                                       ss.canvas.initialPosition.value, Coords(ss, env, e)))))
    // a node drag moves only the nodes carrying the selected id
    ensures !ss.canvas.drawing && !Resizing(ss.canvas) && DraggingNode(ss.canvas) ==>
      r == DragNode(ss, e, ss.canvas.selectedNode.value, ss.canvas.lastPosition.value)
    // a canvas drag pans by the raw screen delta
    ensures !ss.canvas.drawing && !Resizing(ss.canvas) && !DraggingNode(ss.canvas)
            && ss.canvas.isDragging && ss.canvas.lastPosition.Some? ==>
      var last := ss.canvas.lastPosition.value;
      r == ss.(canvas := ss.canvas.(transform := Viewport.PanBy(ss.canvas.transform, e.clientX - last.x, e.clientY - last.y),
                                    lastPosition := Some(ClientPoint(e))))
    // otherwise nothing happens
    ensures (&& !ss.canvas.drawing && !Resizing(ss.canvas) && !DraggingNode(ss.canvas)
             && !(ss.canvas.isDragging && ss.canvas.lastPosition.Some?)) ==> r == ss
  {
    var p := Coords(ss, env, e);
    if ss.canvas.drawing then
      var b := SmoothBrush.Update(ss.canvas.brush, env.geometry, p,
                                  SmoothBrush.UpdateOptions(false, Some(PencilFriction))).0;
      Session(ss.app.(lines := ExtendLastLine(ss.app.lines, b.brush)), ss.canvas.(brush := b))
    else if Resizing(ss.canvas) then
      ss.(canvas := ss.canvas.(newNode := Some(Resize(ss.canvas.newNode.value, ss.canvas.initialPosition.value, p))))
    else if DraggingNode(ss.canvas) then
      DragNode(ss, e, ss.canvas.selectedNode.value, ss.canvas.lastPosition.value)
    else if ss.canvas.isDragging && ss.canvas.lastPosition.Some? then
      var last := ss.canvas.lastPosition.value;
      ss.(canvas := ss.canvas.(transform := Viewport.PanBy(ss.canvas.transform, e.clientX - last.x, e.clientY - last.y),
                               lastPosition := Some(ClientPoint(e))))
    else ss
  }

  // ---------------------------------------------------------------------
  // Mouse up

  function ResetDragging(c: CanvasState): CanvasState {
    c.(isDragging := false, isDraggingNode := false, lastPosition := None, initialPosition := None)
  }

  /** `handleMouseUp`: the middle button ends a pan; otherwise a stroke is
      recorded as `draw`, or a draft is committed and recorded as `add`, or a
      node drag is recorded as `update`; the drag flags are then cleared. */
  function MouseUp(ss: Session, e: MouseEvent): (r: Session)
    ensures e.button == MiddleButton ==>
      r == ss.(canvas := ss.canvas.(isDragging := false, lastPosition := None))
    // finishing a stroke records the last stroke
    ensures e.button != MiddleButton && ss.canvas.drawing ==>
      && r.canvas == ss.canvas.(drawing := false)
      && (|ss.app.lines| > 0 ==>
            r.app == App.Record(ss.app, DrawAction(ss.app.lines[|ss.app.lines| - 1])))
      && (|ss.app.lines| == 0 ==> r.app == ss.app)
    // committing a draft appends it and records it; the pending type stays
    ensures e.button != MiddleButton && !ss.canvas.drawing
            && HasText(ss.canvas.resizingNode) && ss.canvas.newNode.Some? ==>
      var n := ss.canvas.newNode.value;
      && r.app.nodes == ss.app.nodes + [n]
      && r.app.history == History.AddAction(ss.app.history, AddAction(n))
      && r.app.(nodes := ss.app.nodes, history := ss.app.history) == ss.app
      && r.canvas == ss.canvas.(selectedNode := Some(n.id), resizingNode := None,
                                initialPosition := None, newNode := None)
    // otherwise a node drag is recorded, and the drag flags are cleared
    ensures e.button != MiddleButton && !ss.canvas.drawing
            && !(HasText(ss.canvas.resizingNode) && ss.canvas.newNode.Some?) ==>
      && r.canvas == ResetDragging(ss.canvas)
      && (ss.canvas.isDraggingNode && HasText(ss.canvas.selectedNode) && ss.canvas.initialPosition.Some? ==>
            r.app == App.HandleMouseUp(ss.app, ss.canvas.selectedNode.value, ss.canvas.initialPosition.value))
      && (!(ss.canvas.isDraggingNode && HasText(ss.canvas.selectedNode) && ss.canvas.initialPosition.Some?) ==>
            r.app == ss.app)
  {
    if e.button == MiddleButton then
      ss.(canvas := ss.canvas.(isDragging := false, lastPosition := None))
    else if ss.canvas.drawing then
      var lines := ss.app.lines;
      var app := if |lines| > 0 then App.Record(ss.app, DrawAction(lines[|lines| - 1])) else ss.app;
      Session(app, ss.canvas.(drawing := false))
    else if HasText(ss.canvas.resizingNode) && ss.canvas.newNode.Some? then
      var n := ss.canvas.newNode.value;
      Session(
        App.Record(ss.app.(nodes := ss.app.nodes + [n]), AddAction(n)),
        ss.canvas.(selectedNode := Some(n.id), resizingNode := None, initialPosition := None, newNode := None))
    else
      var app :=
        if ss.canvas.isDraggingNode && HasText(ss.canvas.selectedNode) && ss.canvas.initialPosition.Some? then
          App.HandleMouseUp(ss.app, ss.canvas.selectedNode.value, ss.canvas.initialPosition.value)
        else ss.app;
      Session(app, ResetDragging(ss.canvas))
  }

  // ---------------------------------------------------------------------
  // Wheel, cursor and theme

  /** The wheel listener: an anchored zoom of the viewport. */
  function Wheel(ss: Session, env: Env, clientX: real, clientY: real, deltaY: real): (r: Session)
    ensures r.app == ss.app
    ensures r.canvas == ss.canvas.(transform := r.canvas.transform)
    ensures r.canvas.transform == ss.canvas.transform || Viewport.ScaleInRange(r.canvas.transform.scale)
  {
    ss.(canvas := ss.canvas.(transform :=
      Viewport.WheelZoom(ss.canvas.transform, clientX, clientY, env.left, env.top, deltaY)))
  }

  /** The canvas cursor: `grab` during a pan, else the tool's cursor. */
  function CanvasCursor(ss: Session): (c: Cursor)
    ensures ss.canvas.isDragging ==> c == Grab
    ensures !ss.canvas.isDragging ==> c == CursorStyle(ss.app.nodeTypeToAdd, ss.app.activeTool)
  {
    if ss.canvas.isDragging then Grab else CursorStyle(ss.app.nodeTypeToAdd, ss.app.activeTool)
  }

  /** The theme effect recolours every stroke. */
  function ThemeChanged(ss: Session, darkMode: bool): (r: Session)
    ensures r.canvas == ss.canvas && r.app == ss.app.(lines := ApplyTheme(ss.app.lines, darkMode))
  {
    ss.(app := ss.app.(lines := ApplyTheme(ss.app.lines, darkMode)))
  }

  // ---------------------------------------------------------------------
  // Invariant

  lemma InvConvertible(ss: Session)
    requires Inv(ss)
    ensures Convertible(ss)
  {
  }

  /** Every pointer, wheel and theme event keeps the gesture invariant. */
  lemma EventsKeepInv(ss: Session, env: Env, e: MouseEvent, clientX: real, clientY: real, deltaY: real, darkMode: bool)
    requires Inv(ss)
    ensures Inv(MouseDown(ss, env, e))
    ensures Inv(MouseMove(ss, env, e))
    ensures Inv(MouseUp(ss, e))
    ensures Inv(Wheel(ss, env, clientX, clientY, deltaY))
    ensures Inv(ThemeChanged(ss, darkMode))
  {
    var p := Coords(ss, env, e);
    if e.button != MiddleButton && ss.app.activeTool != Some(Eraser) && ss.app.activeTool != Some(Pencil)
       && ss.app.nodeTypeToAdd.None? && NodeAt(ss.app.nodes, p).None? {
      assert Inv(ToolAction(ss, env, e, p));
    }
  }

  // ---------------------------------------------------------------------
  // Whole gestures

  /** A run of pointer moves. */
  function Moves(ss: Session, env: Env, es: seq<MouseEvent>): (r: Session)
    requires Inv(ss)
    ensures Inv(r)
    decreases |es|
  {
    if |es| == 0 then ss
    else
      EventsKeepInv(ss, env, es[0], 0.0, 0.0, 0.0, false);
      Moves(MouseMove(ss, env, es[0]), env, es[1..])
  }

  /** `r` continues the stroke in progress in `s`: still drawing, the same
      strokes except that the last one has grown at its end, and nothing
      else in the app changed. */
  predicate Continues(r: Session, s: Session) {
    var n := |s.app.lines|;
    && r.canvas.drawing
    && n > 0 && |r.app.lines| == n
    && r.app.(lines := s.app.lines) == s.app
    && r.app.lines[..n - 1] == s.app.lines[..n - 1]
    && r.app.lines[n - 1].color == s.app.lines[n - 1].color
    && r.app.lines[n - 1].width == s.app.lines[n - 1].width
    && |s.app.lines[n - 1].points| <= |r.app.lines[n - 1].points|
    && r.app.lines[n - 1].points[..|s.app.lines[n - 1].points|] == s.app.lines[n - 1].points
  }

  lemma {:induction false} MovesContinueStroke(ss: Session, env: Env, es: seq<MouseEvent>)
    requires Inv(ss) && ss.canvas.drawing && |ss.app.lines| > 0
    ensures Continues(Moves(ss, env, es), ss)
    decreases |es|
  {
    if |es| > 0 {
      var s1 := MouseMove(ss, env, es[0]);
      var n := |ss.app.lines|;
      var last := ss.app.lines[n - 1];
      assert s1.app.lines[n - 1].points[..|last.points|] == last.points;
      assert Continues(s1, ss);
      EventsKeepInv(ss, env, es[0], 0.0, 0.0, 0.0, false);
      MovesContinueStroke(s1, env, es[1..]);
      var r := Moves(s1, env, es[1..]);
      var p1 := s1.app.lines[n - 1].points;
      var pr := r.app.lines[n - 1].points;
      assert pr[..|last.points|] == p1[..|last.points|] == last.points;
      assert r.app.lines[..n - 1] == s1.app.lines[..n - 1];
    }
  }

  /** Press and moves with the pencil: still drawing, one stroke more than
      before, the earlier strokes untouched, and the new stroke starts at the
      pressed point in the current colour and width. */
  lemma PencilPressAndMoves(ss: Session, env: Env, down: MouseEvent, moves: seq<MouseEvent>)
    requires Inv(ss) && ss.app.activeTool == Some(Pencil) && down.button != MiddleButton
    ensures var s2 := Moves(MouseDown(ss, env, down), env, moves);
            var n := |ss.app.lines|;
            && s2.canvas.drawing
            && |s2.app.lines| == n + 1 && s2.app.lines[..n] == ss.app.lines
            && |s2.app.lines[n].points| > 0 && s2.app.lines[n].points[0] == Coords(ss, env, down)
            && s2.app.lines[n].color == ss.app.lineColor && s2.app.lines[n].width == env.lineWidth
            && s2.app.(lines := ss.app.lines) == ss.app
  {
    var n := |ss.app.lines|;
    var stroke := NewStroke(Coords(ss, env, down), ss.app.lineColor, env.lineWidth);
    var s1 := MouseDown(ss, env, down);
    assert s1.app == ss.app.(lines := ss.app.lines + [stroke]);
    EventsKeepInv(ss, env, down, 0.0, 0.0, 0.0, false);
    MovesContinueStroke(s1, env, moves);
    var s2 := Moves(s1, env, moves);
    assert Continues(s2, s1);
    assert s2.app.lines[..n] == s1.app.lines[..n] == ss.app.lines;
    assert s2.app.lines[n].points[..1] == s1.app.lines[n].points == [stroke.points[0]];
  }

  /** A pencil stroke - press, any number of moves, release - adds exactly one
      stroke after the existing ones, starting at the pressed point in the
      current colour, and records that stroke as `draw`. */
  lemma PencilStrokeRecordsDraw(ss: Session, env: Env, down: MouseEvent, moves: seq<MouseEvent>, up: MouseEvent)
    requires Inv(ss) && ss.app.activeTool == Some(Pencil)
    requires down.button != MiddleButton && up.button != MiddleButton
    ensures var r := MouseUp(Moves(MouseDown(ss, env, down), env, moves), up);
            var n := |ss.app.lines|;
            && |r.app.lines| == n + 1 && r.app.lines[..n] == ss.app.lines
            && |r.app.lines[n].points| > 0 && r.app.lines[n].points[0] == Coords(ss, env, down)
            && r.app.lines[n].color == ss.app.lineColor && r.app.lines[n].width == env.lineWidth
            && r.app.history == History.AddAction(ss.app.history, DrawAction(r.app.lines[n]))
            && r.app.nodes == ss.app.nodes
            && !r.canvas.drawing
  {
    PencilPressAndMoves(ss, env, down, moves);
    var s2 := Moves(MouseDown(ss, env, down), env, moves);
    var n := |ss.app.lines|;
    assert s2.app.history == ss.app.history && s2.app.nodes == ss.app.nodes;
    var r := MouseUp(s2, up);
    assert r.app == App.Record(s2.app, DrawAction(s2.app.lines[n]));
  }

  /** Placing a square by dragging from (100, 100) to (150, 150) on a fresh
      canvas: the square is centred at (125, 125), 50 by 50, and the log holds
      exactly its `add`. The square stays armed for the next drag. */
  lemma DragToSizeSquare(env: Env)
    requires env.left == 0.0 && env.top == 0.0
    ensures var s0 := Session(App.HandleAddNode(App.Init(), Square), InitCanvas());
            var s1 := MouseDown(s0, env, MouseEvent(100.0, 100.0, 0, false));
            var s2 := MouseMove(s1, env, MouseEvent(150.0, 150.0, 0, false));
            var s3 := MouseUp(s2, MouseEvent(150.0, 150.0, 0, false));
            && |s3.app.nodes| == 1
            && s3.app.nodes[0] == NodeData(NodeStore.NodeId(Square, env.now), Some(Square), Point(125.0, 125.0), 1.0, 50.0, 50.0)
            && s3.app.history == History.Log([AddAction(s3.app.nodes[0])], 0)
            && s3.app.nodeTypeToAdd == Some(Square)
            && s3.canvas.selectedNode == Some(s3.app.nodes[0].id)
  {
    var s0 := Session(App.HandleAddNode(App.Init(), Square), InitCanvas());
    var s1 := MouseDown(s0, env, MouseEvent(100.0, 100.0, 0, false));
    assert Coords(s0, env, MouseEvent(100.0, 100.0, 0, false)) == Point(100.0, 100.0);
    assert s1.canvas.transform == s0.canvas.transform;
    assert Coords(s1, env, MouseEvent(150.0, 150.0, 0, false)) == Point(150.0, 150.0);
  }
}
