/** The plain records the canvas engine works on: points, shapes ("nodes"),
    freehand strokes ("lines"), the viewport transform, tools and the
    history actions. Numbers are exact reals instead of IEEE doubles. */
module Types {

  datatype Option<T> = None | Some(value: T)

  datatype Point = Point(x: real, y: real)

  datatype NodeType = Square | Circle

  datatype ToolType = Zoom | Pan | Eraser | Pencil | Select

  datatype ActionType = Add | Delete | Update | Draw

  /** A freehand stroke: its points in drawing order plus its style. */
  datatype Line = Line(points: seq<Point>, color: string, width: real)

  /** Viewport: screen = world * scale + (x, y). */
  datatype Transform = Transform(x: real, y: real, scale: real)

  /** A placed shape; `position` is its centre and `nodeType` may be absent. */
  datatype NodeData = NodeData(
    id: string,
    nodeType: Option<NodeType>,
    position: Point,
    scale: real,
    width: real,
    height: real)

  /** One undoable mutation, carrying the snapshot its undo and redo need. */
  datatype Action =
    | AddAction(node: NodeData)
    | DeleteNodeAction(node: NodeData)
    | DeleteLineAction(line: Line)
    | UpdateNodeAction(node: NodeData, previousPosition: Point)
    | UpdateLineAction(line: Line, previousLine: Line, lineIndex: int)
    | DrawAction(line: Line)
  {
    /** The `type` tag the action carries. */
    function Kind(): ActionType {
      match this
      case AddAction(_) => Add
      case DeleteNodeAction(_) => Delete
      case DeleteLineAction(_) => Delete
      case UpdateNodeAction(_, _) => Update
      case UpdateLineAction(_, _, _) => Update
      case DrawAction(_) => Draw
    }
  }

  /** The lower-case string form of each enumeration, as the source spells it. */
  function NodeTypeName(t: NodeType): string {
    match t
    case Square => "square"
    case Circle => "circle"
  }

  function ToolName(t: ToolType): string {
    match t
    case Zoom => "zoom"
    case Pan => "pan"
    case Eraser => "eraser"
    case Pencil => "pencil"
    case Select => "select"
  }
}
