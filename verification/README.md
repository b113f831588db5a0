# Infinite canvas interaction engine, in Dafny

This project models the interaction core of `simple-react-canvas`, a React
infinite whiteboard. The core covers:

- the viewport transform: pan, wheel zoom and the zoom tool's click zoom;
- screen-to-world conversion and shape hit tests;
- the pointer gesture state machine of the canvas: pencil strokes, the eraser, drag-to-size shape creation, node dragging and panning;
- the smoothing brush that lags the pencil behind the pointer;
- the document store of shapes and strokes;
- the undo/redo command log and the handlers that write to it;
- the floating menu's buttons;
- the older `components/InfiniteCanvas.tsx` variant of the canvas.

Every React state update is modelled as a pure function from one state to
the next. A handler that issues several `set…` calls applies them in order.
A gesture (press, moves, release) is the composition of the handlers.

Modules, one per source unit:

| module | file | source |
|---|---|---|
| `Types` | `types.dfy` | `src/types/index.ts` |
| `History` | `history.dfy` | `src/hooks/useHistory.ts` |
| `NodeStore` | `node_store.dfy` | `src/hooks/useNodes.ts` |
| `CanvasUtils` | `canvas_utils.dfy` | `src/components/InfiniteCanvas/utils/index.ts` |
| `Viewport` | `viewport.dfy` | the transform arithmetic of `src/components/InfiniteCanvas/index.tsx` |
| `SmoothBrush` | `smooth_brush.dfy` | `src/utils/SmoothBrush.ts` |
| `MenuItems` | `menu_items.dfy` | `src/components/FloatingMenu/components/MenuItems.tsx` |
| `App` | `app.dfy` | `src/App.tsx`, with the state of `useCanvasTools` |
| `Canvas` | `canvas.dfy` | `src/components/InfiniteCanvas/index.tsx` |
| `LegacyCanvas` | `legacy_canvas.dfy` | `src/components/InfiniteCanvas.tsx` |

Some inputs come from outside the model, so every handler takes them as an `Env` parameter:

- the canvas rectangle's top-left corner;
- the clock reading used in shape ids;
- the stroke width;
- the stroke hit test `isPointOnLine`;
- the brush geometry: distance, angle and the eased step.

How the code is read where it is loose:

- **Action records.** In the source an `Action` is a record of optional fields. Here it is a tagged union with one constructor per payload that the code actually creates.
- **Reference equality.** Value equality stands in for it.
- **JavaScript semantics.** These are written out explicitly: `slice` with a negative end, `||` defaults, truthiness of ids and of numbers, `Math.round`, and `NaN` comparisons for a zero-radius ellipse.

Behaviour of the code a reader might not expect, which the model follows:

- **Wheel zoom-out factor.** It is 0.9, so a wheel-in then wheel-out step does not restore the scale.
- **Zoom tool anchor.** The click zoom anchors on the world point under the pointer. It uses `transform - coords * scaleDiff`, not the screen-space formula of the wheel. `Viewport.ClickZoomKeepsPointerAnchored` proves this still keeps the point under the pointer.
- **Hit test order.** The hit test takes the first shape in store order, which is the one drawn first.
- **Pencil moves.** Each pencil move appends the brush position, even when the brush did not move.
- **Draft commit.** Committing a drag-to-size draft does not clear the pending shape type, so the shape stays armed for the next drag.
- **A dead branch.** The default branch of `handleToolSpecificActions` can never place a node, because a pending shape already started a draft earlier in `handleMouseDown`.

Wiring: `App` renders `InfiniteCanvas` without passing `nodes`, `nodeTypeToAdd` or
`setNodes`. The model wires the canvas to the application's shape store and
pending type, which is what the handlers it passes (`onPlaceNode`,
`onDeleteNode`, `onUpdateNode`, `onMouseUp`, `addAction`) operate on.
The menu `App` imports resolves to `FloatingMenu.tsx`, whose only click handlers
place a rectangle or a circle, and `FloatingMenu/index.tsx` passes `onSetActiveTool`
where `MenuItems` reads `setActiveTool`; `App.RunCommand` models the intended
wiring of `MenuItems` to the handlers, not this wiring as written.
By the same resolution rule `./components/InfiniteCanvas` names the older
`InfiniteCanvas.tsx`, which `LegacyCanvas` models; `Canvas` models
`InfiniteCanvas/index.tsx`.
That older component is not passed `lines`, `setLines`, `activeTool`, `history`,
`setHistory`, `historyIndex` or `setHistoryIndex` either, so `LegacyCanvas.Props`
models the intended wiring, not the render as written.
Likewise `lineWidth` is read from the tools context, but `useCanvasTools` does not
provide it, so it is a parameter.

## Model

| member | source | states |
|---|---|---|
| History.Init | src/hooks/useHistory.ts:5-6 | the log starts empty with the cursor before the first entry, so there is nothing to undo or redo |
| History.SliceTo | src/hooks/useHistory.ts:9 | `slice(0, end)` returns a prefix: of length `end` in range, the whole list past the end, counted from the back for a negative end |
| History.AddAction | src/hooks/useHistory.ts:8-12 | recording keeps the entries up to the cursor, drops the redo tail, appends the action last and puts the cursor on it; afterwards nothing can be redone |
| History.AddActionKeepsApplied | src/hooks/useHistory.ts:9-10 | recording never rewrites an entry at or before the cursor |
| History.AddActionFromInit | src/hooks/useHistory.ts:5-12 | recording into a fresh log gives exactly that one entry with the cursor on it |
| NodeStore.Init | src/hooks/useNodes.ts:8-9 | the store starts with no shapes and no pending shape type |
| NodeStore.NodeId | src/hooks/useNodes.ts:13 | a new id starts with the type name followed by a dash |
| NodeStore.AddNode | src/hooks/useNodes.ts:11-22 | the store grows by one shape at the end, of the given type, at the given position, 50 by 50 at scale 1, with id `<type>-<now>`; the earlier shapes are untouched |
| NodeStore.UpdateNode | src/hooks/useNodes.ts:24-30 | exactly the shapes carrying the id move to the new position; nothing else about any shape changes |
| NodeStore.DeleteNode | src/hooks/useNodes.ts:32-34 | a shape survives if and only if it does not carry the id; no survivor carries it |
| NodeStore.FindIndexById | src/App.tsx:33 | the index of the first shape carrying the id, and none exactly when no shape carries it |
| NodeStore.FindById | src/App.tsx:123 | `find` returns the first stored shape carrying the id, and nothing exactly when none does |
| NodeStore.UpdateUnknownIsIdentity | src/hooks/useNodes.ts:24-30 | moving an id nobody carries changes nothing |
| NodeStore.DeleteUnknownIsIdentity | src/hooks/useNodes.ts:32-34 | deleting an id nobody carries changes nothing |
| NodeStore.DeleteIdempotent | src/hooks/useNodes.ts:32-34 | deleting twice is deleting once |
| NodeStore.DeleteDistributes | src/hooks/useNodes.ts:33 | filtering a concatenation filters each part, so survivors keep their order |
| NodeStore.DeleteAfterAppend | src/hooks/useNodes.ts:33 | deleting the id of a shape just appended under a fresh id restores the store |
| NodeStore.DeleteUniqueRemovesOne | src/hooks/useNodes.ts:33 | with unique ids, deleting a present id removes exactly one shape |
| CanvasUtils.CanvasCoordinates | src/components/InfiniteCanvas/utils/index.ts:3-15 | the world point returned is the one the view shows at the pointer's client position |
| CanvasUtils.WorldScreenRoundTrip | src/components/InfiniteCanvas/utils/index.ts:11-14 | converting a world point to the screen and back gives the same point |
| CanvasUtils.SquareContainment | src/components/InfiniteCanvas/utils/index.ts:18-31 | a point is in a square exactly when it is within half the width and half the height of the centre, edges included |
| CanvasUtils.SquareCornersAndBeyond | src/components/InfiniteCanvas/utils/index.ts:18-31 | the centre and four corners of a square are hits; a point one unit past the right edge is not |
| CanvasUtils.EllipseRightmostPointInside | src/components/InfiniteCanvas/utils/index.ts:32-38 | the boundary point at the end of the horizontal radius is a hit under the inclusive test |
| CanvasUtils.EllipseContainsCentre | src/components/InfiniteCanvas/utils/index.ts:32-38 | the centre of a non-degenerate circle is a hit |
| CanvasUtils.DegenerateEllipseMissed | src/components/InfiniteCanvas/utils/index.ts:33-37 | a zero-width or zero-height circle is never hit, since the division yields NaN or an infinity |
| CanvasUtils.HalfQuotient | src/components/InfiniteCanvas/utils/index.ts:33-37 | dividing the offset by half the size equals doubling it and dividing by the size |
| CanvasUtils.EllipseContainment | src/components/InfiniteCanvas/utils/index.ts:33-37 | for every point, containment in an ellipse is non-zero sizes and a squared normalised offset of at most 1 |
| CanvasUtils.EllipseSymmetric | src/components/InfiniteCanvas/utils/index.ts:33-37 | a point is in an ellipse exactly when its reflection through the centre is |
| CanvasUtils.NodeAt | src/components/InfiniteCanvas/index.tsx:345 | `nodes.find` with the hit test: the first shape in store order containing the point, and none exactly when no shape contains it |
| CanvasUtils.CursorStyle | src/components/InfiniteCanvas/utils/index.ts:41-58 | crosshair if and only if a shape is pending or the pencil is active; zoom-in, grab and not-allowed if and only if no shape is pending and the tool is zoom, pan or eraser; default otherwise |
| Viewport.InitialTransform | src/components/InfiniteCanvas/index.tsx:25 | the initial scale is in the allowed range |
| Viewport.InitialViewIsIdentity | src/components/InfiniteCanvas/index.tsx:25 | initially world coordinates are the canvas-relative client coordinates |
| Viewport.WheelZoom | src/components/InfiniteCanvas/index.tsx:182-203 | the wheel multiplies the scale by 1.1 (scroll up) or 0.9 when the result stays in [0.1, 3], and otherwise leaves the transform unchanged |
| Viewport.ClickZoom | src/components/InfiniteCanvas/index.tsx:425-440 | a zoom-tool click multiplies the scale by 0.9 with shift and 1.1 without, refused outside [0.1, 3] |
| Viewport.PanBy | src/components/InfiniteCanvas/index.tsx:309-320 | a canvas drag moves the pan by the screen delta and keeps the scale |
| Viewport.AnchoredPanAxis | src/components/InfiniteCanvas/index.tsx:194-196 | on each axis the pointer is as far from the new pan at the new scale as it was from the old pan at the old scale |
| Viewport.AnchoredWorldPoint | src/components/InfiniteCanvas/index.tsx:194-196 | the pan the zoom computes keeps the world coordinate of the pointer on one axis unchanged |
| Viewport.WheelZoomKeepsPointerAnchored | src/components/InfiniteCanvas/index.tsx:185-202 | after a wheel zoom the same world point is under the pointer |
| Viewport.ClickZoomKeepsPointAnchored | src/components/InfiniteCanvas/index.tsx:431-433 | the clicked world point is shown at the same client position after a click zoom |
| Viewport.ClickZoomKeepsPointerAnchored | src/components/InfiniteCanvas/index.tsx:425-440 | after a click zoom the world point that was under the pointer is still under it |
| Viewport.PanFollowsPointer | src/components/InfiniteCanvas/index.tsx:309-320 | after panning by the pointer's movement, the world point that was under the pointer is under it again |
| Viewport.PanInverse | src/components/InfiniteCanvas/index.tsx:313-317 | panning back by the opposite delta restores the transform |
| Viewport.ScaleStaysInRange | src/components/InfiniteCanvas/index.tsx:189-192 | any sequence of wheel zooms, click zooms and drags keeps a scale in [0.1, 3] in range |
| Viewport.ReachableScalesInRange | src/components/InfiniteCanvas/index.tsx:425-429 | every scale reachable from the initial view lies in [0.1, 3] |
| SmoothBrush.EqualsToIsEquality | src/utils/SmoothBrush.ts:36-38 | `equalsTo` holds exactly for equal points |
| SmoothBrush.New | src/utils/SmoothBrush.ts:71-82 | the radius is the given one if non-zero and 30 otherwise; the brush is enabled unless `enabled` is false; pointer and brush start together at the initial point or the origin, not moved |
| SmoothBrush.IsOutsideThreshold | src/utils/SmoothBrush.ts:106 | the rounded outside test holds exactly when the pointer is at least 0.05 beyond the radius |
| SmoothBrush.EffectiveFriction | src/utils/SmoothBrush.ts:107-110 | a friction is honoured exactly when it lies strictly between 0 and 1, and is then passed on unchanged |
| SmoothBrush.Update | src/utils/SmoothBrush.ts:84-128 | a repeated sample without `both` or friction is skipped, and only such a sample is; otherwise the pointer follows the sample, `both` snaps the brush to it and changes nothing else, a disabled brush copies it, and an enabled brush moves exactly when the pointer is outside the radius; radius and enabled never change |
| SmoothBrush.MoveUsesEffectiveFriction | src/utils/SmoothBrush.ts:112-119 | when the brush moves it steps along the angle by distance minus radius, with the effective friction |
| SmoothBrush.InsideRadiusBrushStays | src/utils/SmoothBrush.ts:102-119 | a sample less than 0.05 beyond the radius leaves an enabled brush in place and not moved |
| SmoothBrush.FrictionNeverSkips | src/utils/SmoothBrush.ts:86-92 | with a non-zero friction every sample is processed, even a repeated one |
| MenuItems.ToLower | src/components/FloatingMenu/components/MenuItems.tsx:73 | lower-casing keeps the length and lower-cases each character |
| MenuItems.OnClick | src/components/FloatingMenu/components/MenuItems.tsx:24-63 | a tool button toggles its tool (re-clicking the active tool switches it off); a shape button arms its shape; Undo, Redo and Settings ask for undo, redo and nothing, and only they do |
| MenuItems.LowerLabelNames | src/components/FloatingMenu/components/MenuItems.tsx:72-73 | the lower-cased label of each tool or shape button is the name of its tool or shape |
| MenuItems.ActionLabelsNameNothing | src/components/FloatingMenu/components/MenuItems.tsx:60-62 | the lower-cased labels of Undo, Redo and Settings equal no tool name and no shape name |
| MenuItems.NamesDistinct | src/types/index.ts:1-12 | distinct tools have distinct names, distinct shapes have distinct names, and no tool shares a name with a shape |
| MenuItems.IsActiveMeansSelected | src/components/FloatingMenu/components/MenuItems.tsx:72-73 | the lower-cased label comparison highlights a button exactly when it is the active tool's or the pending shape's button |
| MenuItems.ToggleTwice | src/components/FloatingMenu/components/MenuItems.tsx:29 | two clicks on a tool button restore the tool when it was off or that tool, and switch it off when another tool was active |
| App.Init | src/hooks/useCanvasTools.ts:5-7 | the application starts with no shapes, no strokes, no tool, no pending shape, black ink and an empty log |
| App.Record | src/hooks/useHistory.ts:8-12 | recording changes only the log, keeps it valid and leaves nothing to redo |
| App.HandleAddNode | src/App.tsx:15-18 | arming a shape drops the active tool and changes nothing else |
| App.HandleSetActiveTool | src/App.tsx:41-44 | selecting a tool drops the pending shape and changes nothing else |
| App.ShapeAndToolExclusive | src/App.tsx:15-44 | after either handler the shape and the tool are not both armed; each handler overrides the other |
| App.HandlePlaceNode | src/App.tsx:20-26 | with a shape pending, one 50 by 50 shape of that type, at scale 1 and with id `<type>-<now>`, is appended at the position, its `add` is recorded and the shape is disarmed, and nothing else changes; without one nothing happens |
| App.HandleUpdateNode | src/App.tsx:28-30 | a move changes only the shapes and records nothing |
| App.HandleDeleteNode | src/App.tsx:32-39 | an unknown id changes nothing; otherwise every shape with the id is removed, `delete` is recorded with the first stored shape carrying it, and nothing else changes |
| App.HandleMouseUp | src/App.tsx:122-128 | the end of a drag records `update` with the first stored shape carrying the id and its position before the drag, and changes nothing but the log; an unknown id changes nothing |
| App.SetLine | src/App.tsx:61-66 | assigning into a copy replaces the stroke at an index in range, appends at the length, and otherwise changes nothing |
| App.RemoveLine | src/App.tsx:111 | a stroke survives if and only if it differs from the removed one |
| App.RemoveAbsentLine | src/App.tsx:111 | removing a stroke that is absent changes nothing |
| App.RemoveAppendedLine | src/App.tsx:107-112 | removing a stroke just appended, with no earlier copy, restores the list |
| App.RemoveLineDistributes | src/App.tsx:111 | removal works piecewise over a concatenation, so the surviving strokes keep their order and multiplicity |
| App.RemoveLineSingle | src/App.tsx:111 | a single stroke survives exactly when it differs from the removed one |
| App.UndoEffect | src/App.tsx:50-79 | the inverse of each action: `add` is exactly the store's delete of the shape's id, `update` puts the shapes back at the previous position, `delete` re-appends the shape or stroke, `draw` drops the last stroke |
| App.RedoEffect | src/App.tsx:88-117 | the forward effect of each action: `add` re-appends, `update` moves to the recorded position, `delete` is exactly the store's delete of the shape's id or the value filter that drops the stroke, `draw` re-appends the stroke |
| App.Undo | src/App.tsx:46-82 | before the first entry nothing happens; otherwise the entry under the cursor is inverted and the cursor steps back; entries, tool and pending shape are untouched |
| App.Redo | src/App.tsx:84-120 | at the last entry nothing happens; otherwise the next entry is reapplied and the cursor steps forward |
| App.UpdateInPlace | src/App.tsx:54-60 | moving shapes to where they already are changes nothing |
| App.RedoUndoesUndo | src/App.tsx:46-120 | redo reverses undo for every action kind whenever the undone action still holds of the document |
| App.UndoUndoesRedo | src/App.tsx:46-120 | undo reverses redo for every action kind whenever the action's snapshot still matches the document |
| App.RedoAfterUndo | src/App.tsx:46-120 | undo followed by redo restores the whole application state |
| App.UndoAfterRedo | src/App.tsx:46-120 | redo followed by undo restores the whole application state |
| App.UndoDrawDropsLastLine | src/App.tsx:76-77 | undoing a `draw` drops the last stroke, whichever it is, and leaves the shapes alone |
| App.RecordAfterUndoDropsRedoTail | src/hooks/useHistory.ts:8-12 | recording after an undo discards the undone entry: the log is the applied entries then the new one |
| App.HandlersKeepInv | src/App.tsx:15-128 | every handler keeps the history cursor in range |
| App.HandleKeyDown | src/App.tsx:130-137 | Ctrl+Z undoes, Ctrl+Y redoes, and every other key changes nothing |
| App.KeyUndoThenRedo | src/App.tsx:130-137 | Ctrl+Z followed by Ctrl+Y restores the whole application state when the undone action can be replayed |
| App.RunCommand | src/App.tsx:148-153 | a menu command is exactly the tool handler, the shape handler, undo, redo or nothing, as asked |
| App.MenuToolToggleTwice | src/components/FloatingMenu/components/MenuItems.tsx:29 | two clicks on a tool button restore the state, apart from disarming any pending shape |
| App.ShapeButtonHighlightsItself | src/components/FloatingMenu/components/MenuItems.tsx:72-73 | after a shape button is clicked, exactly that button is highlighted |
| Canvas.InitCanvas | src/components/InfiniteCanvas/index.tsx:25-34 | the canvas starts idle at an in-range scale with a brush of radius 3, enabled |
| Canvas.Init | src/components/InfiniteCanvas/index.tsx:25-34 | the initial session satisfies the gesture invariant |
| Canvas.ThemeColor | src/components/InfiniteCanvas/index.tsx:42-60 | a palette colour becomes its counterpart in the target theme; any other colour is kept |
| Canvas.LightToDarkInverted | src/components/InfiniteCanvas/index.tsx:43-56 | every light colour's dark counterpart is a key of the derived dark-to-light table and maps back to that light colour |
| Canvas.DarkToLightInverted | src/components/InfiniteCanvas/index.tsx:54-56 | every dark colour's light counterpart maps back to that dark colour through the light-to-dark table |
| Canvas.PalettesDisjoint | src/components/InfiniteCanvas/index.tsx:43-52 | no colour belongs to both the light and the dark palette |
| Canvas.DarkThenLight | src/components/InfiniteCanvas/index.tsx:42-60 | switching to dark and back restores a colour if and only if it is not a dark-palette colour |
| Canvas.LightThenDark | src/components/InfiniteCanvas/index.tsx:42-60 | switching to light and back restores a colour if and only if it is not a light-palette colour |
| Canvas.ApplyTheme | src/components/InfiniteCanvas/index.tsx:62-69 | every stroke takes its theme colour; points and width are kept |
| Canvas.ThemeRoundTrip | src/components/InfiniteCanvas/index.tsx:62-69 | toggling light then dark leaves strokes drawn off the light palette as they were |
| Canvas.LineAt | src/components/InfiniteCanvas/index.tsx:360 | `findIndex`: the first stroke the point is on, and none exactly when it is on no stroke |
| Canvas.RemoveLineAt | src/components/InfiniteCanvas/index.tsx:363 | the stroke at the index goes and the others keep their order |
| Canvas.EraserAction | src/components/InfiniteCanvas/index.tsx:359-374 | a stroke under the pointer is removed and recorded as `delete`, and nothing else in the app or the canvas changes; only when no stroke is hit is the first shape hit deleted through the app; otherwise nothing happens |
| Canvas.EraserRemovesAtMostOne | src/components/InfiniteCanvas/index.tsx:359-374 | with unique ids one eraser press removes at most one stroke or shape |
| Canvas.Draft | src/components/InfiniteCanvas/index.tsx:387-399 | the draft is a zero-sized shape of the pending type at the pointer, named like a placed shape |
| Canvas.ToolAction | src/components/InfiniteCanvas/index.tsx:408-423 | on empty canvas the zoom tool zooms, the pan tool pans, and otherwise a pending shape is placed or the canvas pans |
| Canvas.MouseDown | src/components/InfiniteCanvas/index.tsx:322-352 | a press is handled by exactly one case, in priority order: middle button pans, eraser, pencil starts a one-point stroke and snaps the brush to it with every other canvas field unchanged, pending shape starts a draft, a hit shape starts a drag, otherwise the tool's action |
| Canvas.PressNeverPlacesDirectly | src/components/InfiniteCanvas/index.tsx:416-421 | a press never adds a shape directly; only the eraser changes the shape count |
| Canvas.ExtendLastLine | src/components/InfiniteCanvas/index.tsx:256-266 | the last stroke gains the point at its end; the other strokes and an empty list are unchanged |
| Canvas.Resize | src/components/InfiniteCanvas/index.tsx:271-292 | the draft's size is the absolute offset from the anchor, and the anchor and the pointer lie on opposite edges; nothing else changes |
| Canvas.ResizedSquareSpansGesture | src/components/InfiniteCanvas/index.tsx:271-282 | both the anchor and the pointer are inside the resized square |
| Canvas.MouseMove | src/components/InfiniteCanvas/index.tsx:227-320 | in priority order a move grows the stroke by the brush position, resizes the draft, moves the dragged shapes by the screen delta over the scale, or pans by the screen delta; otherwise nothing changes |
| Canvas.DragNode | src/components/InfiniteCanvas/index.tsx:294-307 | a node drag moves only the dragged shape, if it exists, to the drag target, and records the pointer as the last position; nothing else in the app changes |
| Canvas.DragTargetFollowsPointer | src/components/InfiniteCanvas/index.tsx:295-303 | the dragged shape moves by the pointer's screen movement divided by the scale, so in screen units it follows the pointer exactly |
| Canvas.MouseUp | src/components/InfiniteCanvas/index.tsx:442-505 | the middle button ends a pan; a stroke is recorded as `draw`; a draft is appended and recorded as `add`, keeping the pending type; otherwise a node drag is reported to the app and the drag state is cleared |
| Canvas.Wheel | src/components/InfiniteCanvas/index.tsx:182-203 | the wheel changes only the transform, into range or not at all |
| Canvas.CanvasCursor | src/components/InfiniteCanvas/index.tsx:513 | the cursor is `grab` during a pan and the tool's cursor otherwise |
| Canvas.ThemeChanged | src/components/InfiniteCanvas/index.tsx:62-69 | a theme change recolours the strokes and nothing else |
| Canvas.EventsKeepInv | src/components/InfiniteCanvas/index.tsx:182-505 | every pointer, wheel and theme event keeps the scale in range and the history cursor valid |
| Canvas.MovesContinueStroke | src/components/InfiniteCanvas/index.tsx:252-266 | during a stroke any run of moves only extends the last stroke at its end |
| Canvas.PencilPressAndMoves | src/components/InfiniteCanvas/index.tsx:252-266 | a pencil press and any moves after it add one stroke after the existing ones, starting at the pressed point in the current colour and width, and change nothing else in the app |
| Canvas.PencilStrokeRecordsDraw | src/components/InfiniteCanvas/index.tsx:376-385 | press, moves and release with the pencil add exactly one stroke after the existing ones, starting at the pressed point in the current colour and width, and record it as `draw` |
| Canvas.DragToSizeSquare | src/components/InfiniteCanvas/index.tsx:480-494 | dragging from (100, 100) to (150, 150) with the square armed commits a 50 by 50 square centred at (125, 125) with its `add` as the only entry, and the square stays armed |
| LegacyCanvas.HitTestsAgree | src/components/InfiniteCanvas.tsx:241-263 | the variant's inline hit test agrees with `isPointInNode` on every point and shape |
| LegacyCanvas.LegacyCursor | src/components/InfiniteCanvas.tsx:414 | the inline cursor expression is `getCursorStyle` |
| LegacyCanvas.MouseDown | src/components/InfiniteCanvas.tsx:265-321 | in priority order, ignoring the button: pencil starts a stroke and snaps the brush with every other canvas field unchanged, a pending shape starts a draft, a hit shape is erased by request or dragged, then zoom or pan; the log and the shapes are never written here |
| LegacyCanvas.ExtendLast | src/components/InfiniteCanvas.tsx:330-334 | `push` appends the point to the last stroke and changes no other stroke |
| LegacyCanvas.MouseMove | src/components/InfiniteCanvas.tsx:323-378 | an idle move is ignored; otherwise the stroke grows, the draft alone is resized, a node drag asks to move the shape by the screen delta over the scale, if and only if it exists, a pan with a last position shifts the transform by the screen delta and records the pointer, and any other move changes nothing |
| LegacyCanvas.PanKeepsGrabbedPoint | src/components/InfiniteCanvas.tsx:366-377 | during a pan, the world point under the previous pointer position is under the pointer after the move |
| LegacyCanvas.MouseUp | src/components/InfiniteCanvas.tsx:380-406 | a stroke is recorded as a draw entry (nothing is recorded for an empty stroke list) and a draft as an add entry, both by truncate-then-append; a finished drag is reported if and only if one was under way; the drag state is cleared in every case and nothing else changes |
| LegacyCanvas.DraftCommitMatchesCurrentCanvas | src/components/InfiniteCanvas.tsx:388-398 | committing a draft gives the same shapes, cursor and log length as in the current canvas |
| LegacyCanvas.EraserOnlyDeletesShapes | src/components/InfiniteCanvas.tsx:284-287 | the variant's eraser never touches strokes and asks only to delete a shape that is under the pointer |

## Left out

- Rendering is not modelled. This covers `draw`, `drawNode`, `drawNodePrevOutline`, the grid, the axes, the device-pixel ratio and the resize observer. They produce pixels, not state.
- `isPointOnLine` is imported by the canvas but is not part of this model. It is an `Env` parameter.
- Square roots and trigonometry are not modelled, because they are floating point. The brush's distance, angle and eased step along the angle are a `Geometry` parameter.
- Numbers are mathematical reals. IEEE rounding, `NaN` and the infinities are not modelled, except the `NaN` a zero-radius ellipse produces.
- `getCanvasCoordinates` has a fallback for a missing canvas element, which returns (0, 0). It is left out: the element always exists once mounted.
- React scheduling is not modelled. Stale closures, batched `set…` calls and effects re-registering listeners all fall under this. Each handler sees the state left by the previous event.
- Shape ids use `Date.now()`, which is a clock. The clock reading is a parameter. Unique ids are assumed where a lemma needs them (`NodeStore.UniqueIds`).
- `SmoothPoint.update` and `toObject` only copy coordinates, so they have no separate member.
- The legacy wheel listener (`src/components/InfiniteCanvas.tsx:186-207`) is the same as the current one, and is `Viewport.WheelZoom`.
- The settings panels, the theme provider and the contexts hold no interaction logic and are not modelled.
- Canvas.MouseUp: when a stroke finishes with an empty stroke list, the source records `draw` with an undefined line. The model records nothing, since it has no undefined value. This can only happen if an undo removed the stroke mid-gesture.
- LegacyCanvas.MouseMove: during a stroke with an empty stroke list, the source's `push` on `undefined` throws. The model leaves the list unchanged.
- LegacyCanvas.MouseUp: the same empty-list case as `Canvas.MouseUp`.
- App.SetLine: an index more than one past the end would make a sparse array in the source. The model leaves the list unchanged. No recorded action carries such an index.
- App.RemoveLine: filters by value equality instead of reference equality. It removes every stroke equal to the given one, where the source removes only the same object.
- App.UndoEffect: an `update` action for a stroke runs only when the source's truthiness tests on `line` and `previousLine` pass. The model's `UpdateLineAction` always carries both. No handler in the source creates this action.
- SmoothBrush.Update: states the distance and the step through the `Geometry` parameter rather than through Euclidean distance.
- CanvasUtils.InEllipse: the comparison is exact real arithmetic, not IEEE.
