/** `SmoothBrush`: a lag filter with a raw `pointer` and a lagging `brush`.
    The geometry it uses (distance, angle and the eased step along the
    angle) needs square roots and trigonometry, so it is a parameter; the
    control flow around it, and the rounded "outside the radius" test, are
    modelled exactly. */
module SmoothBrush {
  import opened Types

  const DefaultRadius: real := 30.0

  /** The geometric primitives the brush calls. `moveByAngle` receives the
      brush, the angle, the step length and the friction (absent when the
      unfrictioned step is used). */
  datatype Geometry = Geometry(
    distance: (Point, Point) -> real,
    angle: (Point, Point) -> real,
    moveByAngle: (Point, real, real, Option<real>) -> Point)

  datatype Brush = Brush(
    isEnabled: bool,
    hasMoved: bool,
    radius: real,
    pointer: Point,
    brush: Point,
    angle: real,
    distance: real)

  /** Constructor options; an absent field is `undefined` in the source. */
  datatype Options = Options(radius: Option<real>, enabled: Option<bool>, initialPoint: Option<Point>)

  /** Per-call options: `both` snaps the brush to the pointer. */
  datatype UpdateOptions = UpdateOptions(both: bool, friction: Option<real>)

  /** JavaScript truthiness of an optional number (NaN is not modelled). */
  predicate Truthy(v: Option<real>) {
    v.Some? && v.value != 0.0
  }

  /** `SmoothPoint.equalsTo`: both coordinates equal. */
  predicate EqualsTo(a: Point, b: Point) {
    a.x == b.x && a.y == b.y
  }

  lemma EqualsToIsEquality(a: Point, b: Point)
    ensures EqualsTo(a, b) <==> a == b
  {
  }

  /** The constructor: radius 30 unless a non-zero radius is given, enabled
      unless `enabled` is explicitly false, pointer and brush both at the
      initial point or the origin. */
  function New(options: Options): (b: Brush)
    ensures b.radius == (if Truthy(options.radius) then options.radius.value else 30.0)
    ensures b.isEnabled <==> options.enabled != Some(false)
    ensures b.pointer == b.brush
    ensures options.initialPoint.Some? ==> b.pointer == options.initialPoint.value
    ensures options.initialPoint.None? ==> b.pointer == Point(0.0, 0.0)
    ensures !b.hasMoved && b.angle == 0.0 && b.distance == 0.0
  {
    var initialPoint := match options.initialPoint
      case Some(p) => p
      case None => Point(0.0, 0.0);
    var radius := if Truthy(options.radius) then options.radius.value else DefaultRadius;
    var isEnabled := if options.enabled == Some(false) then false else true;
    Brush(isEnabled, false, radius, initialPoint, initialPoint, 0.0, 0.0)
  }

  /** JavaScript's `Math.round`: the nearest integer, halves rounded up. */
  function Round(v: real): int {
    (v + 0.5).Floor
  }

  /** `Math.round((distance - radius) * 10) / 10 > 0`. */
  predicate IsOutside(distance: real, radius: real) {
    (Round((distance - radius) * 10.0) as real) / 10.0 > 0.0
  }

  /** The rounded test is a plain threshold: the brush is outside exactly when
      the pointer is at least 0.05 beyond the radius. */
  lemma IsOutsideThreshold(distance: real, radius: real)
    ensures IsOutside(distance, radius) <==> distance - radius >= 0.05
  {
    var v := (distance - radius) * 10.0 + 0.5;
    if distance - radius >= 0.05 {
      assert v >= 1.0;
      assert v.Floor >= 1;
    } else {
      assert v < 1.0;
      assert v.Floor <= 0;
    }
  }

  /** The friction actually applied: honoured only strictly between 0 and 1. */
  function EffectiveFriction(friction: Option<real>): (f: Option<real>)
    ensures f.Some? <==> friction.Some? && 0.0 < friction.value < 1.0
    ensures f.Some? ==> f == friction
  {
    if Truthy(friction) && friction.value < 1.0 && friction.value > 0.0 then friction else None
  }

  /** `update`: the new brush state and whether the caller should consider
      the sample processed. */
  function Update(b: Brush, g: Geometry, newPoint: Point, options: UpdateOptions): (r: (Brush, bool))
    // an unchanged pointer with neither `both` nor friction is skipped
    ensures (EqualsTo(b.pointer, newPoint) && !options.both && !Truthy(options.friction))
            <==> !r.1
    ensures !r.1 ==> r.0 == b.(hasMoved := false)
    // past that exit the pointer always follows the sample
    ensures r.1 ==> r.0.pointer == newPoint
    // `both` snaps the brush onto the sample
    ensures r.1 && options.both ==> r.0.brush == newPoint && r.0.hasMoved
    ensures r.1 && options.both ==> r.0 == b.(pointer := newPoint, brush := newPoint, hasMoved := true)
    // a disabled brush copies the sample
    ensures r.1 && !options.both && !b.isEnabled ==> r.0.brush == newPoint && r.0.hasMoved
    // an enabled brush moves exactly when the pointer is outside the radius
    ensures r.1 && !options.both && b.isEnabled ==>
      (r.0.hasMoved <==> IsOutside(g.distance(newPoint, b.brush), b.radius))
    ensures r.1 && !options.both && b.isEnabled && !r.0.hasMoved ==> r.0.brush == b.brush
    // the settings never change
    ensures r.0.isEnabled == b.isEnabled && r.0.radius == b.radius
  {
    if EqualsTo(b.pointer, newPoint) && !options.both && !Truthy(options.friction) then
      (b.(hasMoved := false), false)
    else
      var b1 := b.(hasMoved := false, pointer := newPoint);
      if options.both then
        (b1.(hasMoved := true, brush := newPoint), true)
      else if b1.isEnabled then
        var distance := g.distance(b1.pointer, b1.brush);
        var angle := g.angle(b1.pointer, b1.brush);
        var b2 := b1.(distance := distance, angle := angle);
        var friction := EffectiveFriction(options.friction);
        if IsOutside(distance, b2.radius) then
          (b2.(brush := g.moveByAngle(b2.brush, angle, distance - b2.radius, friction), hasMoved := true), true)
        else
          (b2, true)
      else
        (b1.(distance := 0.0, angle := 0.0, brush := newPoint, hasMoved := true), true)
  }

  /** When the brush moves along the angle, the step is `distance - radius`
      and the friction passed on is the effective one. */
  lemma MoveUsesEffectiveFriction(b: Brush, g: Geometry, newPoint: Point, options: UpdateOptions)
    requires !options.both && b.isEnabled
    requires !(EqualsTo(b.pointer, newPoint) && !Truthy(options.friction))
    requires IsOutside(g.distance(newPoint, b.brush), b.radius)
    ensures var d := g.distance(newPoint, b.brush);
            Update(b, g, newPoint, options).0.brush
              == g.moveByAngle(b.brush, g.angle(newPoint, b.brush), d - b.radius, EffectiveFriction(options.friction))
  {
  }

  /** A sample within 0.05 of the radius leaves an enabled brush in place. */
  lemma InsideRadiusBrushStays(b: Brush, g: Geometry, newPoint: Point, friction: Option<real>)
    requires b.isEnabled
    requires g.distance(newPoint, b.brush) - b.radius < 0.05
    ensures Update(b, g, newPoint, UpdateOptions(false, friction)).0.brush == b.brush
    ensures !Update(b, g, newPoint, UpdateOptions(false, friction)).0.hasMoved
  {
    IsOutsideThreshold(g.distance(newPoint, b.brush), b.radius);
  }

  /** With a non-zero friction every sample is processed, even a repeated one. */
  lemma FrictionNeverSkips(b: Brush, g: Geometry, newPoint: Point, f: real)
    requires f != 0.0
    ensures Update(b, g, newPoint, UpdateOptions(false, Some(f))).1
  {
  }
}
