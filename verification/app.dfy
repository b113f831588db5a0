/** `App`: the shared document state (shapes, strokes, pending shape, active
    tool, history) and the handlers that mutate it, including undo and redo.
    State updates are applied one after another, in the order the handler
    issues them. */
module App {
  import opened Types
  import NodeStore
  import History
  import MenuItems

  datatype AppState = AppState(
    nodes: seq<NodeData>,
    nodeTypeToAdd: Option<NodeType>,
    activeTool: Option<ToolType>,
    lines: seq<Line>,
    lineColor: string,
    history: History.Log<Action>)

  /** What every reachable state satisfies: the history cursor is in range. */
  predicate Inv(s: AppState) {
    History.Valid(s.history)
  }

  function Init(): (s: AppState)
    ensures Inv(s)
    ensures |s.nodes| == 0 && |s.lines| == 0
    ensures s.nodeTypeToAdd.None? && s.activeTool.None?
    ensures s.lineColor == "#000000"
    ensures !History.CanUndo(s.history) && !History.CanRedo(s.history)
  {
    AppState([], None, None, [], "#000000", History.Init())
  }

  /** Record an action in the history (`addAction`). */
  function Record(s: AppState, a: Action): (r: AppState)
    ensures Inv(r) && !History.CanRedo(r.history)
    ensures r.history == History.AddAction(s.history, a)
    ensures r.(history := s.history) == s
  {
    s.(history := History.AddAction(s.history, a))
  }

  /** `handleAddNode`: arm the shape and drop the tool. */
  function HandleAddNode(s: AppState, t: NodeType): (r: AppState)
    ensures r.nodeTypeToAdd == Some(t) && r.activeTool.None?
    ensures r.(nodeTypeToAdd := s.nodeTypeToAdd, activeTool := s.activeTool) == s
  {
    s.(nodeTypeToAdd := Some(t), activeTool := None)
  }

  /** `handleSetActiveTool`: select the tool and drop any pending shape. */
  function HandleSetActiveTool(s: AppState, tool: Option<ToolType>): (r: AppState)
    ensures r.activeTool == tool && r.nodeTypeToAdd.None?
    ensures r.(nodeTypeToAdd := s.nodeTypeToAdd, activeTool := s.activeTool) == s
  {
    s.(activeTool := tool, nodeTypeToAdd := None)
  }

  /** The shape and the tool are never armed together by these two handlers. */
  lemma ShapeAndToolExclusive(s: AppState, t: NodeType, tool: Option<ToolType>)
    ensures HandleAddNode(s, t).activeTool.None?
    ensures HandleSetActiveTool(s, tool).nodeTypeToAdd.None?
    ensures HandleAddNode(HandleSetActiveTool(s, tool), t) == HandleAddNode(s, t)
    ensures HandleSetActiveTool(HandleAddNode(s, t), tool) == HandleSetActiveTool(s, tool)
  {
  }

  /** `handlePlaceNode`: with a shape armed, append it at `position`, record
      `add` and disarm; otherwise nothing happens. `now` is the clock reading
      that names the node. */
  function HandlePlaceNode(s: AppState, position: Point, now: string): (r: AppState)
    ensures s.nodeTypeToAdd.None? ==> r == s
    ensures s.nodeTypeToAdd.Some? ==>
      && |r.nodes| == |s.nodes| + 1 && r.nodes[..|s.nodes|] == s.nodes
      && var n := r.nodes[|s.nodes|];
         n.nodeType == s.nodeTypeToAdd && n.position == position
         && n.width == 50.0 && n.height == 50.0
         && n == NodeData(NodeStore.NodeId(s.nodeTypeToAdd.value, now), s.nodeTypeToAdd, position, 1.0, 50.0, 50.0)
         && r.history == History.AddAction(s.history, AddAction(n))
         && r.nodeTypeToAdd.None?
    ensures r.(nodes := s.nodes, history := s.history, nodeTypeToAdd := s.nodeTypeToAdd) == s
  {
    match s.nodeTypeToAdd
    case None => s
    case Some(t) =>
      var (nodes, node) := NodeStore.AddNode(s.nodes, position, t, now);
      Record(s.(nodes := nodes), AddAction(node)).(nodeTypeToAdd := None)
  }

  /** `handleUpdateNode`: move the nodes carrying `id`; nothing is recorded. */
  function HandleUpdateNode(s: AppState, id: string, p: Point): (r: AppState)
    ensures r.nodes == NodeStore.UpdateNode(s.nodes, id, p)
    ensures r.(nodes := s.nodes) == s
  {
    s.(nodes := NodeStore.UpdateNode(s.nodes, id, p))
  }

  /** `handleDeleteNode`: if some node carries `id`, delete every node with
      that id and record `delete` with the first of them. */
  function HandleDeleteNode(s: AppState, id: string): (r: AppState)
    ensures !NodeStore.HasId(s.nodes, id) ==> r == s
    ensures NodeStore.HasId(s.nodes, id) ==>
      && r.nodes == NodeStore.DeleteNode(s.nodes, id)
      && !NodeStore.HasId(r.nodes, id)
      && NodeStore.FirstWithId(s.nodes, id, NodeStore.FindById(s.nodes, id).value)
      && r.history == History.AddAction(s.history, DeleteNodeAction(NodeStore.FindById(s.nodes, id).value))
    ensures r.(nodes := s.nodes, history := s.history) == s
  {
    match NodeStore.FindById(s.nodes, id)
    case None => s
    case Some(n) => Record(s.(nodes := NodeStore.DeleteNode(s.nodes, id)), DeleteNodeAction(n))
  }

  /** `handleMouseUp`: at the end of a node drag, record `update` with the
      node as it is now and the position it had when the drag started. */
  function HandleMouseUp(s: AppState, id: string, previousPosition: Point): (r: AppState)
    ensures !NodeStore.HasId(s.nodes, id) ==> r == s
    ensures NodeStore.HasId(s.nodes, id) ==>
      && NodeStore.FirstWithId(s.nodes, id, NodeStore.FindById(s.nodes, id).value)
      && r.history == History.AddAction(s.history, UpdateNodeAction(NodeStore.FindById(s.nodes, id).value, previousPosition))
    ensures r.(history := s.history) == s
  {
    match NodeStore.FindById(s.nodes, id)
    case None => s
    case Some(n) => Record(s, UpdateNodeAction(n, previousPosition))
  }

  /** Assigning `newLines[i] = line` on a copy of the array: an index inside
      the array replaces that element, the index one past the end appends,
      and any other index leaves the elements alone. */
  function SetLine(lines: seq<Line>, i: int, line: Line): (r: seq<Line>)
    ensures 0 <= i < |lines| ==> (
      && |r| == |lines| && r[i] == line
      && forall j :: 0 <= j < |lines| && j != i ==> r[j] == lines[j])
    ensures i == |lines| ==> r == lines + [line]
    ensures (i < 0 || i > |lines|) ==> r == lines
  {
    if 0 <= i < |lines| then lines[i := line]
    else if i == |lines| then lines + [line]
    else lines
  }

  /** `lines.filter(l => l !== line)`, with value equality standing in for
      reference equality. */
  function RemoveLine(lines: seq<Line>, line: Line): (r: seq<Line>)
    ensures |r| <= |lines|
    ensures forall l :: l in r <==> l in lines && l != line
    decreases |lines|
  {
    if |lines| == 0 then []
    else if lines[0] == line then RemoveLine(lines[1..], line)
    else [lines[0]] + RemoveLine(lines[1..], line)
  }

  /** Removing a stroke that is not there changes nothing. */
  lemma {:induction false} RemoveAbsentLine(lines: seq<Line>, line: Line)
    requires line !in lines
    ensures RemoveLine(lines, line) == lines
    decreases |lines|
  {
    if |lines| > 0 {
      assert line !in lines[1..];
      RemoveAbsentLine(lines[1..], line);
    }
  }

  /** Removing the stroke just appended, when no earlier copy exists. */
  lemma {:induction false} RemoveAppendedLine(lines: seq<Line>, line: Line)
    requires line !in lines
    ensures RemoveLine(lines + [line], line) == lines
    decreases |lines|
  {
    if |lines| == 0 {
      assert lines + [line] == [line];
    } else {
      assert (lines + [line])[1..] == lines[1..] + [line];
      assert line !in lines[1..];
      RemoveAppendedLine(lines[1..], line);
    }
  }

  /** Removal works piecewise, so the surviving strokes keep their order and
      their multiplicity. */
  lemma {:induction false} RemoveLineDistributes(xs: seq<Line>, ys: seq<Line>, line: Line)
    ensures RemoveLine(xs + ys, line) == RemoveLine(xs, line) + RemoveLine(ys, line)
    decreases |xs|
  {
    if |xs| == 0 {
      assert xs + ys == ys;
    } else {
      assert (xs + ys)[1..] == xs[1..] + ys;
      RemoveLineDistributes(xs[1..], ys, line);
    }
  }

  /** A single stroke survives exactly when it differs from the removed one. */
  lemma RemoveLineSingle(l: Line, line: Line)
    ensures RemoveLine([l], line) == if l == line then [] else [l]
  {
    assert [l][1..] == [];
  }

  /** The document part that undo and redo act on. */
  datatype Doc = Doc(nodes: seq<NodeData>, lines: seq<Line>)

  /** The inverse effect of each action kind (`handleUndo`'s switch). */
  function UndoEffect(a: Action, d: Doc): (r: Doc)
    ensures a.AddAction? ==> (
      && r.lines == d.lines
      && forall n :: n in r.nodes <==> n in d.nodes && n.id != a.node.id)
    ensures a.AddAction? ==> r == Doc(NodeStore.DeleteNode(d.nodes, a.node.id), d.lines)
    ensures a.DeleteNodeAction? ==> r == Doc(d.nodes + [a.node], d.lines)
    ensures a.DeleteLineAction? ==> r == Doc(d.nodes, d.lines + [a.line])
    ensures a.UpdateNodeAction? ==> (
      && r.lines == d.lines && |r.nodes| == |d.nodes|
      && (forall i :: 0 <= i < |d.nodes| && d.nodes[i].id == a.node.id ==>
            r.nodes[i] == d.nodes[i].(position := a.previousPosition))
      && (forall i :: 0 <= i < |d.nodes| && d.nodes[i].id != a.node.id ==> r.nodes[i] == d.nodes[i]))
    ensures a.UpdateLineAction? ==> r == Doc(d.nodes, SetLine(d.lines, a.lineIndex, a.previousLine))
    ensures a.DrawAction? ==> (
      && r.nodes == d.nodes
      && (|d.lines| > 0 ==> r.lines == d.lines[..|d.lines| - 1])
      && (|d.lines| == 0 ==> r.lines == []))
  {
    match a
    case AddAction(n) => Doc(NodeStore.DeleteNode(d.nodes, n.id), d.lines)
    case UpdateNodeAction(n, previous) => Doc(NodeStore.UpdateNode(d.nodes, n.id, previous), d.lines)
    case UpdateLineAction(_, previousLine, i) => Doc(d.nodes, SetLine(d.lines, i, previousLine))
    case DeleteNodeAction(n) => Doc(d.nodes + [n], d.lines)
    case DeleteLineAction(l) => Doc(d.nodes, d.lines + [l])
    case DrawAction(_) => Doc(d.nodes, History.SliceTo(d.lines, -1))
  }

  /** The forward effect of each action kind (`handleRedo`'s switch). */
  function RedoEffect(a: Action, d: Doc): (r: Doc)
    ensures a.AddAction? ==> r == Doc(d.nodes + [a.node], d.lines)
    ensures a.DeleteNodeAction? ==> (
      && r.lines == d.lines
      && forall n :: n in r.nodes <==> n in d.nodes && n.id != a.node.id)
    ensures a.DeleteLineAction? ==> (
      && r.nodes == d.nodes
      && forall l :: l in r.lines <==> l in d.lines && l != a.line)
    ensures a.DeleteNodeAction? ==> r == Doc(NodeStore.DeleteNode(d.nodes, a.node.id), d.lines)
    ensures a.DeleteLineAction? ==> r == Doc(d.nodes, RemoveLine(d.lines, a.line))
    ensures a.UpdateNodeAction? ==> (
      && r.lines == d.lines && |r.nodes| == |d.nodes|
      && (forall i :: 0 <= i < |d.nodes| && d.nodes[i].id == a.node.id ==>
            r.nodes[i] == d.nodes[i].(position := a.node.position))
      && (forall i :: 0 <= i < |d.nodes| && d.nodes[i].id != a.node.id ==> r.nodes[i] == d.nodes[i]))
    ensures a.UpdateLineAction? ==> r == Doc(d.nodes, SetLine(d.lines, a.lineIndex, a.line))
    ensures a.DrawAction? ==> r == Doc(d.nodes, d.lines + [a.line])
  {
    match a
    case AddAction(n) => Doc(d.nodes + [n], d.lines)
    case UpdateNodeAction(n, _) => Doc(NodeStore.UpdateNode(d.nodes, n.id, n.position), d.lines)
    case UpdateLineAction(line, _, i) => Doc(d.nodes, SetLine(d.lines, i, line))
    case DeleteNodeAction(n) => Doc(NodeStore.DeleteNode(d.nodes, n.id), d.lines)
    case DeleteLineAction(l) => Doc(d.nodes, RemoveLine(d.lines, l))
    case DrawAction(l) => Doc(d.nodes, d.lines + [l])
  }

  function DocOf(s: AppState): Doc {
    Doc(s.nodes, s.lines)
  }

  /** `handleUndo`: before the first entry nothing happens; otherwise the
      entry under the cursor is inverted and the cursor steps back. */
  function Undo(s: AppState): (r: AppState)
    requires Inv(s)
    ensures Inv(r)
    ensures !History.CanUndo(s.history) ==> r == s
    ensures History.CanUndo(s.history) ==>
      && r.history == s.history.(index := s.history.index - 1)
      && DocOf(r) == UndoEffect(s.history.entries[s.history.index], DocOf(s))
    ensures r.history.entries == s.history.entries
    ensures r.nodeTypeToAdd == s.nodeTypeToAdd && r.activeTool == s.activeTool
    ensures r.lineColor == s.lineColor
  {
    if s.history.index < 0 then s
    else
      var d := UndoEffect(s.history.entries[s.history.index], DocOf(s));
      s.(nodes := d.nodes, lines := d.lines, history := s.history.(index := s.history.index - 1))
  }

  /** `handleRedo`: at the last entry nothing happens; otherwise the entry
      after the cursor is reapplied and the cursor steps forward. */
  function Redo(s: AppState): (r: AppState)
    requires Inv(s)
    ensures Inv(r)
    ensures !History.CanRedo(s.history) ==> r == s
    ensures History.CanRedo(s.history) ==>
      && r.history == s.history.(index := s.history.index + 1)
      && DocOf(r) == RedoEffect(s.history.entries[s.history.index + 1], DocOf(s))
    ensures r.history.entries == s.history.entries
    ensures r.nodeTypeToAdd == s.nodeTypeToAdd && r.activeTool == s.activeTool
    ensures r.lineColor == s.lineColor
  {
    if s.history.index >= |s.history.entries| - 1 then s
    else
      var d := RedoEffect(s.history.entries[s.history.index + 1], DocOf(s));
      s.(nodes := d.nodes, lines := d.lines, history := s.history.(index := s.history.index + 1))
  }

  /** When undoing `a` and then redoing it gives back the document: the
      condition each kind of action needs. An `add` must be the last node and
      its id unique; a `draw` must be the last stroke; a deleted stroke must
      not still be present; a moved node's copies must sit at the recorded
      position; a line update must be in range and in place. */
  predicate Undoable(a: Action, d: Doc) {
    match a
    case AddAction(n) =>
      |d.nodes| > 0 && d.nodes[|d.nodes| - 1] == n && !NodeStore.HasId(d.nodes[..|d.nodes| - 1], n.id)
    case DeleteNodeAction(n) => !NodeStore.HasId(d.nodes, n.id)
    case DeleteLineAction(l) => l !in d.lines
    case UpdateNodeAction(n, _) =>
      forall i :: 0 <= i < |d.nodes| && d.nodes[i].id == n.id ==> d.nodes[i].position == n.position
    case UpdateLineAction(line, _, i) => 0 <= i < |d.lines| && d.lines[i] == line
    case DrawAction(l) => |d.lines| > 0 && d.lines[|d.lines| - 1] == l
  }

  /** The mirror condition for redoing `a` and then undoing it. */
  predicate Redoable(a: Action, d: Doc) {
    match a
    case AddAction(n) => !NodeStore.HasId(d.nodes, n.id)
    case DeleteNodeAction(n) =>
      |d.nodes| > 0 && d.nodes[|d.nodes| - 1] == n && !NodeStore.HasId(d.nodes[..|d.nodes| - 1], n.id)
    case DeleteLineAction(l) =>
      |d.lines| > 0 && d.lines[|d.lines| - 1] == l && l !in d.lines[..|d.lines| - 1]
    case UpdateNodeAction(n, previous) =>
      forall i :: 0 <= i < |d.nodes| && d.nodes[i].id == n.id ==> d.nodes[i].position == previous
    case UpdateLineAction(_, previousLine, i) => 0 <= i < |d.lines| && d.lines[i] == previousLine
    case DrawAction(_) => true
  }

  /** A node list whose ids matching `id` all sit at `p` is unchanged by
      moving them to `p`. */
  lemma UpdateInPlace(nodes: seq<NodeData>, id: string, p: Point)
    requires forall i :: 0 <= i < |nodes| && nodes[i].id == id ==> nodes[i].position == p
    ensures NodeStore.UpdateNode(nodes, id, p) == nodes
  {
    var r := NodeStore.UpdateNode(nodes, id, p);
    assert forall i :: 0 <= i < |nodes| ==> r[i] == nodes[i];
  }

  /** Redo reverses undo on every document where the undone action still
      holds. */
  lemma RedoUndoesUndo(a: Action, d: Doc)
    requires Undoable(a, d)
    ensures RedoEffect(a, UndoEffect(a, d)) == d
  {
    match a
    case AddAction(n) =>
      var before := d.nodes[..|d.nodes| - 1];
      assert d.nodes == before + [n];
      NodeStore.DeleteAfterAppend(before, n);
    case DeleteNodeAction(n) =>
      NodeStore.DeleteAfterAppend(d.nodes, n);
    case DeleteLineAction(l) =>
      RemoveAppendedLine(d.lines, l);
    case UpdateNodeAction(n, previous) =>
      var moved := NodeStore.UpdateNode(d.nodes, n.id, previous);
      var back := NodeStore.UpdateNode(moved, n.id, n.position);
      assert forall i :: 0 <= i < |d.nodes| ==> back[i] == d.nodes[i];
    case UpdateLineAction(line, previousLine, i) =>
      assert d.lines[i := previousLine][i := line] == d.lines;
    case DrawAction(l) =>
      assert d.lines[..|d.lines| - 1] + [l] == d.lines;
  }

  /** Undo reverses redo on every document where the action's snapshot still
      matches. */
  lemma UndoUndoesRedo(a: Action, d: Doc)
    requires Redoable(a, d)
    ensures UndoEffect(a, RedoEffect(a, d)) == d
  {
    match a
    case AddAction(n) =>
      NodeStore.DeleteAfterAppend(d.nodes, n);
    case DeleteNodeAction(n) =>
      var before := d.nodes[..|d.nodes| - 1];
      assert d.nodes == before + [n];
      NodeStore.DeleteAfterAppend(before, n);
    case DeleteLineAction(l) =>
      var before := d.lines[..|d.lines| - 1];
      assert d.lines == before + [l];
      RemoveAppendedLine(before, l);
    case UpdateNodeAction(n, previous) =>
      var moved := NodeStore.UpdateNode(d.nodes, n.id, n.position);
      var back := NodeStore.UpdateNode(moved, n.id, previous);
      assert forall i :: 0 <= i < |d.nodes| ==> back[i] == d.nodes[i];
    case UpdateLineAction(line, previousLine, i) =>
      assert d.lines[i := line][i := previousLine] == d.lines;
    case DrawAction(l) =>
      assert (d.lines + [l])[..|d.lines|] == d.lines;
  }

  /** Undo then redo restores the whole application state. */
  lemma RedoAfterUndo(s: AppState)
    requires Inv(s) && History.CanUndo(s.history)
    requires Undoable(s.history.entries[s.history.index], DocOf(s))
    ensures Redo(Undo(s)) == s
  {
    RedoUndoesUndo(s.history.entries[s.history.index], DocOf(s));
  }

  /** Redo then undo restores the whole application state. */
  lemma UndoAfterRedo(s: AppState)
    requires Inv(s) && History.CanRedo(s.history)
    requires Redoable(s.history.entries[s.history.index + 1], DocOf(s))
    ensures Undo(Redo(s)) == s
  {
    UndoUndoesRedo(s.history.entries[s.history.index + 1], DocOf(s));
  }

  /** A drawing is undone by dropping the last stroke, whatever it is. */
  lemma UndoDrawDropsLastLine(s: AppState)
    requires Inv(s) && History.CanUndo(s.history)
    requires s.history.entries[s.history.index].DrawAction?
    requires |s.lines| > 0
    ensures Undo(s).lines == s.lines[..|s.lines| - 1] && Undo(s).nodes == s.nodes
  {
  }

  /** Recording after an undo discards what was undone: the log becomes the
      still-applied entries followed by the new one. */
  lemma RecordAfterUndoDropsRedoTail(s: AppState, a: Action)
    requires Inv(s) && History.CanUndo(s.history)
    ensures Record(Undo(s), a).history.entries == s.history.entries[..s.history.index] + [a]
    ensures |Record(Undo(s), a).history.entries| == s.history.index + 1
  {
  }

  /** Every handler keeps the history cursor in range. */
  lemma HandlersKeepInv(s: AppState, t: NodeType, tool: Option<ToolType>, p: Point, now: string, id: string)
    requires Inv(s)
    ensures Inv(HandleAddNode(s, t)) && Inv(HandleSetActiveTool(s, tool))
    ensures Inv(HandlePlaceNode(s, p, now)) && Inv(HandleUpdateNode(s, id, p))
    ensures Inv(HandleDeleteNode(s, id)) && Inv(HandleMouseUp(s, id, p))
    ensures Inv(Undo(s)) && Inv(Redo(s))
  {
  }

  /** The keyboard shortcuts: Ctrl+Z undoes and Ctrl+Y redoes. */
  function HandleKeyDown(s: AppState, ctrlKey: bool, key: string): (r: AppState)
    requires Inv(s)
    ensures Inv(r)
    ensures ctrlKey && key == "z" ==> r == Undo(s)
    ensures ctrlKey && key == "y" ==> r == Redo(s)
    ensures !ctrlKey || (key != "z" && key != "y") ==> r == s
  {
    if ctrlKey && key == "z" then Undo(s)
    else if ctrlKey && key == "y" then Redo(s)
    else s
  }

  /** Ctrl+Z followed by Ctrl+Y restores the whole application state when the
      undone action's effect can be replayed. */
  lemma KeyUndoThenRedo(s: AppState)
    requires Inv(s) && History.CanUndo(s.history)
    requires Undoable(s.history.entries[s.history.index], DocOf(s))
    ensures HandleKeyDown(HandleKeyDown(s, true, "z"), true, "y") == s
  {
    RedoAfterUndo(s);
  }

  /** Run what a menu button asks for. */
  function RunCommand(s: AppState, c: MenuItems.Command): (r: AppState)
    requires Inv(s)
    ensures Inv(r)
    ensures c.SetActiveTool? ==> r.activeTool == c.tool && r.nodeTypeToAdd.None?
    ensures c.AddNode? ==> r.nodeTypeToAdd == Some(c.nodeType) && r.activeTool.None?
    ensures c.SetActiveTool? ==> r == HandleSetActiveTool(s, c.tool)
    ensures c.AddNode? ==> r == HandleAddNode(s, c.nodeType)
    ensures c.Undo? ==> r == Undo(s)
    ensures c.Redo? ==> r == Redo(s)
    ensures c.NoCommand? ==> r == s
  {
    match c
    case SetActiveTool(tool) => HandleSetActiveTool(s, tool)
    case AddNode(t) => HandleAddNode(s, t)
    case Undo => Undo(s)
    case Redo => Redo(s)
    case NoCommand => s
  }

  /** Clicking a tool button twice restores the tool it started with, when
      that was no tool or the button's own, and leaves no shape armed. */
  lemma MenuToolToggleTwice(s: AppState, i: MenuItems.Item)
    requires Inv(s) && MenuItems.ItemTool(i).Some?
    requires s.activeTool.None? || s.activeTool == MenuItems.ItemTool(i)
    ensures var s1 := RunCommand(s, MenuItems.OnClick(i, s.activeTool));
            var s2 := RunCommand(s1, MenuItems.OnClick(i, s1.activeTool));
            s2 == s.(nodeTypeToAdd := None)
  {
  }

  /** After clicking a shape button only that shape's button is highlighted. */
  lemma ShapeButtonHighlightsItself(s: AppState, i: MenuItems.Item, j: MenuItems.Item)
    requires Inv(s) && MenuItems.ItemNodeType(i).Some?
    ensures var r := RunCommand(s, MenuItems.OnClick(i, s.activeTool));
            MenuItems.IsActive(j, r.activeTool, r.nodeTypeToAdd) <==> j == i
  {
    var r := RunCommand(s, MenuItems.OnClick(i, s.activeTool));
    MenuItems.IsActiveMeansSelected(j, r.activeTool, r.nodeTypeToAdd);
  }
}
