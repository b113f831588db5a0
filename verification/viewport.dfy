/** The viewport transform of the canvas: wheel zoom, the zoom tool's click
    zoom, and panning. Both zooms are anchored and refuse a scale outside
    [0.1, 3]. */
module Viewport {
  import opened Types
  import opened CanvasUtils

  const MinScale: real := 0.1
  const MaxScale: real := 3.0
  const ZoomInFactor: real := 1.1
  const ZoomOutFactor: real := 0.9

  predicate ScaleInRange(s: real) {
    MinScale <= s <= MaxScale
  }

  /** The transform a canvas starts with. */
  function InitialTransform(): (t: Transform)
    ensures ScaleInRange(t.scale)
  {
    Transform(0.0, 0.0, 1.0)
  }

  /** Initially world and canvas-relative screen coordinates coincide. */
  lemma InitialViewIsIdentity(clientX: real, clientY: real, left: real, top: real)
    ensures CanvasCoordinates(clientX, clientY, left, top, InitialTransform())
         == Point(clientX - left, clientY - top)
  {
  }

  /** Scrolling up (negative delta) zooms in; anything else zooms out. */
  function WheelFactor(deltaY: real): real {
    if deltaY < 0.0 then ZoomInFactor else ZoomOutFactor
  }

  /** The zoom tool zooms out with shift held and in otherwise. */
  function ClickFactor(shiftKey: bool): real {
    if shiftKey then ZoomOutFactor else ZoomInFactor
  }

  /** The wheel handler: the pointer's offset inside the canvas stays over
      the same world point, and an out-of-range scale is ignored. */
  function WheelZoom(t: Transform, clientX: real, clientY: real, left: real, top: real, deltaY: real)
    : (r: Transform)
    ensures !ScaleInRange(t.scale * WheelFactor(deltaY)) ==> r == t
    ensures ScaleInRange(t.scale * WheelFactor(deltaY)) ==> r.scale == t.scale * WheelFactor(deltaY)
    ensures r == t || ScaleInRange(r.scale)
  {
    var mouseX := clientX - left;
    var mouseY := clientY - top;
    var newScale := t.scale * WheelFactor(deltaY);
    if newScale < MinScale || newScale > MaxScale then t
    else
      Transform(
        AnchoredPan(t.x, mouseX, t.scale, newScale),
        AnchoredPan(t.y, mouseY, t.scale, newScale),
        newScale)
  }

  /** The wheel zoom's new pan on one axis: `pan - (mouse - pan) * (newScale
      - scale) / scale`. */
  function AnchoredPan(pan: real, mouse: real, scale: real, newScale: real): real
    requires scale != 0.0
  {
    pan - (mouse - pan) * (newScale - scale) / scale
  }

  /** `performZoom`: the zoom tool's click, anchored at the clicked world
      point `coords`. */
  function ClickZoom(t: Transform, coords: Point, shiftKey: bool): (r: Transform)
    ensures !ScaleInRange(t.scale * ClickFactor(shiftKey)) ==> r == t
    ensures ScaleInRange(t.scale * ClickFactor(shiftKey)) ==> r.scale == t.scale * ClickFactor(shiftKey)
    ensures r == t || ScaleInRange(r.scale)
  {
    var newScale := t.scale * ClickFactor(shiftKey);
    if newScale < MinScale || newScale > MaxScale then t
    else
      var scaleDiff := newScale - t.scale;
      Transform(t.x - coords.x * scaleDiff, t.y - coords.y * scaleDiff, newScale)
  }

  /** Canvas dragging: the pan moves by the raw screen delta. */
  function PanBy(t: Transform, deltaX: real, deltaY: real): (r: Transform)
    ensures r.scale == t.scale
    ensures r.x - t.x == deltaX && r.y - t.y == deltaY
  {
    t.(x := t.x + deltaX, y := t.y + deltaY)
  }

  lemma ZeroProduct(a: real, b: real)
    requires a * b == 0.0 && b != 0.0
    ensures a == 0.0
  {
  }

  /** One axis of the wheel zoom's anchoring, free of division: the
      pointer offset `mouse` is as far from the new pan at the new scale as
      it was from the old pan at the old scale. */
  lemma AnchoredPanAxis(pan: real, mouse: real, scale: real, newScale: real)
    requires scale != 0.0
    ensures (mouse - AnchoredPan(pan, mouse, scale, newScale)) * scale == (mouse - pan) * newScale
  {
    var d := mouse - pan;
    var b := d * (newScale - scale) / scale;
    assert b * scale == d * (newScale - scale);
    assert mouse - AnchoredPan(pan, mouse, scale, newScale) == d + b;
  }

  /** Two points shown at the same offset by two views, related as the
      anchoring lemma relates them, are the same. */
  lemma SameWorldCoordinate(m: real, pan: real, newPan: real, s: real, ns: real, p: real, q: real)
    requires s != 0.0 && ns != 0.0
    requires p * s + pan == m && q * ns + newPan == m
    requires (m - newPan) * s == (m - pan) * ns
    ensures p == q
  {
    assert (q * ns) * s == (p * s) * ns;
    assert (q - p) * (ns * s) == 0.0;
    ZeroProduct(q - p, ns * s);
  }

  /** One axis of the wheel zoom: the world coordinate at pointer offset
      `mouse` is the same under the old and the new pan and scale. */
  lemma AnchoredWorldPoint(mouse: real, pan: real, scale: real, newScale: real)
    requires scale != 0.0 && newScale != 0.0
    ensures (mouse - AnchoredPan(pan, mouse, scale, newScale)) / newScale == (mouse - pan) / scale
  {
    var newPan := AnchoredPan(pan, mouse, scale, newScale);
    AnchoredPanAxis(pan, mouse, scale, newScale);
    var p := (mouse - pan) / scale;
    var q := (mouse - newPan) / newScale;
    assert p * scale == mouse - pan;
    assert q * newScale == mouse - newPan;
    SameWorldCoordinate(mouse, pan, newPan, scale, newScale, p, q);
  }

  /** Wheel zoom keeps the world point under the pointer where it was. */
  lemma WheelZoomKeepsPointerAnchored(
    t: Transform, clientX: real, clientY: real, left: real, top: real, deltaY: real)
    requires t.scale != 0.0
    ensures WheelZoom(t, clientX, clientY, left, top, deltaY).scale != 0.0
    ensures CanvasCoordinates(clientX, clientY, left, top, WheelZoom(t, clientX, clientY, left, top, deltaY))
         == CanvasCoordinates(clientX, clientY, left, top, t)
  {
    var r := WheelZoom(t, clientX, clientY, left, top, deltaY);
    if r != t {
      AnchoredWorldPoint(clientX - left, t.x, t.scale, r.scale);
      AnchoredWorldPoint(clientY - top, t.y, t.scale, r.scale);
    }
  }

  /** The world point `coords` is shown at the same client position before
      and after a click zoom. */
  lemma ClickZoomKeepsPointAnchored(t: Transform, coords: Point, shiftKey: bool, left: real, top: real)
    ensures ClientPosition(coords, left, top, ClickZoom(t, coords, shiftKey))
         == ClientPosition(coords, left, top, t)
  {
    var r := ClickZoom(t, coords, shiftKey);
    if r != t {
      var d := r.scale - t.scale;
      assert r.x == t.x - coords.x * d && r.y == t.y - coords.y * d;
      assert coords.x * r.scale - coords.x * d == coords.x * t.scale;
      assert coords.y * r.scale - coords.y * d == coords.y * t.scale;
    }
  }

  /** Hence a click zoom at the world point under the pointer keeps that
      point under the pointer. */
  lemma ClickZoomKeepsPointerAnchored(
    t: Transform, clientX: real, clientY: real, left: real, top: real, shiftKey: bool)
    requires t.scale != 0.0
    ensures var coords := CanvasCoordinates(clientX, clientY, left, top, t);
            var r := ClickZoom(t, coords, shiftKey);
            r.scale != 0.0 && CanvasCoordinates(clientX, clientY, left, top, r) == coords
  {
    var coords := CanvasCoordinates(clientX, clientY, left, top, t);
    var r := ClickZoom(t, coords, shiftKey);
    ClickZoomKeepsPointAnchored(t, coords, shiftKey, left, top);
    if r != t {
      var q := CanvasCoordinates(clientX, clientY, left, top, r);
      assert (q.x - coords.x) * r.scale == 0.0;
      assert (q.y - coords.y) * r.scale == 0.0;
      ZeroProduct(q.x - coords.x, r.scale);
      ZeroProduct(q.y - coords.y, r.scale);
    }
  }

  /** After a pan by the pointer's movement, the world point that was under
      the pointer is under it again. */
  lemma PanFollowsPointer(
    t: Transform, clientX: real, clientY: real, left: real, top: real, deltaX: real, deltaY: real)
    requires t.scale != 0.0
    ensures CanvasCoordinates(clientX + deltaX, clientY + deltaY, left, top, PanBy(t, deltaX, deltaY))
         == CanvasCoordinates(clientX, clientY, left, top, t)
  {
  }

  /** Panning back by the opposite delta restores the transform. */
  lemma PanInverse(t: Transform, deltaX: real, deltaY: real)
    ensures PanBy(PanBy(t, deltaX, deltaY), -deltaX, -deltaY) == t
  {
  }

  /** Every way the viewport can change. */
  datatype ViewChange =
    | Wheel(clientX: real, clientY: real, left: real, top: real, deltaY: real)
    | Click(coords: Point, shiftKey: bool)
    | Drag(deltaX: real, deltaY: real)

  function ApplyChange(t: Transform, c: ViewChange): Transform {
    match c
    case Wheel(cx, cy, l, tp, dy) => WheelZoom(t, cx, cy, l, tp, dy)
    case Click(p, shift) => ClickZoom(t, p, shift)
    case Drag(dx, dy) => PanBy(t, dx, dy)
  }

  function ApplyChanges(t: Transform, cs: seq<ViewChange>): Transform
    decreases |cs|
  {
    if |cs| == 0 then t else ApplyChanges(ApplyChange(t, cs[0]), cs[1..])
  }

  /** Whatever the user does, a viewport that starts at scale 1 keeps its
      scale in [0.1, 3]. */
  lemma {:induction false} ScaleStaysInRange(t: Transform, cs: seq<ViewChange>)
    requires ScaleInRange(t.scale)
    ensures ScaleInRange(ApplyChanges(t, cs).scale)
    decreases |cs|
  {
    if |cs| > 0 {
      ScaleStaysInRange(ApplyChange(t, cs[0]), cs[1..]);
    }
  }

  lemma ReachableScalesInRange(cs: seq<ViewChange>)
    ensures ScaleInRange(ApplyChanges(InitialTransform(), cs).scale)
  {
    ScaleStaysInRange(InitialTransform(), cs);
  }
}
