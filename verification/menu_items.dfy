/** `MenuItems`: the floating menu's buttons, what a click asks for, and
    which button is highlighted. The callbacks a click invokes are returned
    as a `Command` for the host to run. */
module MenuItems {
  import opened Types

  datatype Item =
    | PencilItem | SquareItem | CircleItem | EraserItem
    | ZoomItem | PanItem
    | UndoItem | RedoItem | SettingsItem

  /** The buttons in display order: the draw, view and actions groups. */
  const Items: seq<Item> := [
    PencilItem, SquareItem, CircleItem, EraserItem,
    ZoomItem, PanItem,
    UndoItem, RedoItem, SettingsItem]

  function Label(i: Item): string {
    match i
    case PencilItem => "Pencil"
    case SquareItem => "Square"
    case CircleItem => "Circle"
    case EraserItem => "Eraser"
    case ZoomItem => "Zoom"
    case PanItem => "Pan"
    case UndoItem => "Undo"
    case RedoItem => "Redo"
    case SettingsItem => "Settings"
  }

  function LowerChar(c: char): char {
    if 'A' <= c <= 'Z' then (c as int - 'A' as int + 'a' as int) as char else c
  }

  /** `toLowerCase` restricted to ASCII letters, which is all the labels use. */
  function ToLower(s: string): (r: string)
    ensures |r| == |s|
    ensures forall i :: 0 <= i < |s| ==> r[i] == LowerChar(s[i])
  {
    seq(|s|, i requires 0 <= i < |s| => LowerChar(s[i]))
  }

  /** What a click asks the host to do. */
  datatype Command =
    | SetActiveTool(tool: Option<ToolType>)
    | AddNode(nodeType: NodeType)
    | Undo
    | Redo
    | NoCommand

  /** The tool a button toggles, if it is a tool button. */
  function ItemTool(i: Item): Option<ToolType> {
    match i
    case PencilItem => Some(Pencil)
    case EraserItem => Some(Eraser)
    case ZoomItem => Some(Zoom)
    case PanItem => Some(Pan)
    case _ => None
  }

  /** The shape a button places, if it is a shape button. */
  function ItemNodeType(i: Item): Option<NodeType> {
    match i
    case SquareItem => Some(Square)
    case CircleItem => Some(Circle)
    case _ => None
  }

  /** The `onClick` of each button. */
  function OnClick(i: Item, activeTool: Option<ToolType>): (c: Command)
    // tool buttons toggle: re-clicking the active tool switches it off
    ensures ItemTool(i).Some? ==>
      c == SetActiveTool(if activeTool == ItemTool(i) then None else ItemTool(i))
    // shape buttons always ask to place that shape, whatever the tool
    ensures ItemNodeType(i).Some? ==> c == AddNode(ItemNodeType(i).value)
    ensures i == UndoItem <==> c == Undo
    ensures i == RedoItem <==> c == Redo
    ensures i == SettingsItem <==> c == NoCommand
  {
    match i
    case PencilItem => SetActiveTool(if activeTool == Some(Pencil) then None else Some(Pencil))
    case SquareItem => AddNode(Square)
    case CircleItem => AddNode(Circle)
    case EraserItem => SetActiveTool(if activeTool == Some(Eraser) then None else Some(Eraser))
    case ZoomItem => SetActiveTool(if activeTool == Some(Zoom) then None else Some(Zoom))
    case PanItem => SetActiveTool(if activeTool == Some(Pan) then None else Some(Pan))
    case UndoItem => Undo
    case RedoItem => Redo
    case SettingsItem => NoCommand
  }

  /** `isActive`: the active tool's or the pending shape's name equals the
      button's label in lower case. */
  predicate IsActive(i: Item, activeTool: Option<ToolType>, nodeTypeToAdd: Option<NodeType>) {
    var name := ToLower(Label(i));
    (activeTool.Some? && ToolName(activeTool.value) == name)
    || (nodeTypeToAdd.Some? && NodeTypeName(nodeTypeToAdd.value) == name)
  }

  /** The lower-cased label of a tool or shape button is that tool's or
      shape's name. */
  lemma LowerLabelNames(i: Item)
    ensures ItemTool(i).Some? ==> ToLower(Label(i)) == ToolName(ItemTool(i).value)
    ensures ItemNodeType(i).Some? ==> ToLower(Label(i)) == NodeTypeName(ItemNodeType(i).value)
  {
    var name := ToLower(Label(i));
    match i
    case PencilItem => assert name == "pencil";
    case SquareItem => assert name == "square";
    case CircleItem => assert name == "circle";
    case EraserItem => assert name == "eraser";
    case ZoomItem => assert name == "zoom";
    case PanItem => assert name == "pan";
    case _ =>
  }

  /** The lower-cased labels of the action buttons name no tool and no shape. */
  lemma ActionLabelsNameNothing(i: Item)
    requires ItemTool(i).None? && ItemNodeType(i).None?
    ensures forall t :: ToLower(Label(i)) != ToolName(t)
    ensures forall n :: ToLower(Label(i)) != NodeTypeName(n)
  {
    var name := ToLower(Label(i));
    match i
    case UndoItem => assert name == "undo";
    case RedoItem => assert name == "redo";
    case SettingsItem => assert name == "settings";
    case _ =>
  }

  /** Tool and shape names are pairwise distinct. */
  lemma NamesDistinct(t: ToolType, u: ToolType, n: NodeType, m: NodeType)
    ensures ToolName(t) == ToolName(u) <==> t == u
    ensures NodeTypeName(n) == NodeTypeName(m) <==> n == m
    ensures ToolName(t) != NodeTypeName(n)
  {
  }

  /** The string comparison highlights exactly the button of the active tool
      and the button of the pending shape, and never an action button. */
  lemma IsActiveMeansSelected(i: Item, activeTool: Option<ToolType>, nodeTypeToAdd: Option<NodeType>)
    ensures IsActive(i, activeTool, nodeTypeToAdd) <==>
      (activeTool.Some? && ItemTool(i) == activeTool)
      || (nodeTypeToAdd.Some? && ItemNodeType(i) == nodeTypeToAdd)
  {
    LowerLabelNames(i);
    var t := match activeTool case Some(t) => t case None => Select;
    var n := match nodeTypeToAdd case Some(n) => n case None => Square;
    match ItemTool(i)
    case Some(u) => NamesDistinct(t, u, n, n);
    case None =>
      match ItemNodeType(i)
      case Some(m) => NamesDistinct(t, t, n, m);
      case None => ActionLabelsNameNothing(i);
  }

  /** The tool a `SetActiveTool` command selects after a click. */
  function ToolAfterClick(i: Item, activeTool: Option<ToolType>): Option<ToolType>
    requires ItemTool(i).Some?
  {
    OnClick(i, activeTool).tool
  }

  /** Clicking a tool button twice restores the tool when it started either
      off or on that button's tool; from another tool it ends switched off. */
  lemma ToggleTwice(i: Item, activeTool: Option<ToolType>)
    requires ItemTool(i).Some?
    ensures activeTool == None || activeTool == ItemTool(i) ==>
      ToolAfterClick(i, ToolAfterClick(i, activeTool)) == activeTool
    ensures activeTool != None && activeTool != ItemTool(i) ==>
      ToolAfterClick(i, ToolAfterClick(i, activeTool)) == None
  {
  }
}
