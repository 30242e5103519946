/** Interpolation helpers: linear interpolation over reals, integers (rounded),
    points and relative positions; inverse interpolation over scalars and along
    a 2-D segment; range mapping; and point clamping. */
module Interpolation {
  import opened Geometry

  /** std::clamp(t, 0, 1). */
  function Clamp01(t: real): (r: real)
    ensures 0.0 <= r <= 1.0
    ensures 0.0 <= t <= 1.0 ==> r == t
  {
    if t < 0.0 then 0.0 else if 1.0 < t then 1.0 else t
  }

  // ---------------------------------------------------------------------------
  // Lerp over reals

  function Lerp(t: real, min: real, max: real): real
  {
    min + (max - min) * t
  }

  function LerpClamped(t: real, min: real, max: real): real
  {
    min + (max - min) * Clamp01(t)
  }

  /** The two ends of the real interpolation. */
  lemma LerpEndpoints(min: real, max: real)
    ensures Lerp(0.0, min, max) == min
    ensures Lerp(1.0, min, max) == max
  {
  }

  lemma MulNonneg(a: real, b: real)
    requires 0.0 <= a && 0.0 <= b
    ensures 0.0 <= a * b
  {
  }

  lemma MulAtMost(a: real, t: real)
    requires 0.0 <= a && t <= 1.0
    ensures a * t <= a
  {
    assert a - a * t == a * (1.0 - t);
    MulNonneg(a, 1.0 - t);
  }

  lemma LerpBetweenRising(t: real, min: real, max: real)
    requires 0.0 <= t <= 1.0 && min <= max
    ensures min <= Lerp(t, min, max) <= max
  {
    var p := (max - min) * t;
    MulNonneg(max - min, t);
    MulAtMost(max - min, t);
    assert Lerp(t, min, max) == min + p;
  }

  lemma LerpBetweenFalling(t: real, min: real, max: real)
    requires 0.0 <= t <= 1.0 && max <= min
    ensures max <= Lerp(t, min, max) <= min
  {
    var e := min - max;
    var p := e * t;
    MulNonneg(e, t);
    MulAtMost(e, t);
    assert (max - min) * t == -p;
    assert Lerp(t, min, max) == min - p;
  }

  /** For t in [0,1] the interpolated value lies between the two ends. */
  lemma LerpBetween(t: real, min: real, max: real)
    requires 0.0 <= t <= 1.0
    ensures min <= max ==> min <= Lerp(t, min, max) <= max
    ensures max <= min ==> max <= Lerp(t, min, max) <= min
  {
    if min <= max { LerpBetweenRising(t, min, max); }
    if max <= min { LerpBetweenFalling(t, min, max); }
  }

  /** The clamped form is the plain form at the clamped parameter, and in
      particular it saturates at the ends. */
  lemma LerpClampedSaturates(t: real, min: real, max: real)
    ensures LerpClamped(t, min, max) == Lerp(Clamp01(t), min, max)
    ensures t <= 0.0 ==> LerpClamped(t, min, max) == min
    ensures 1.0 <= t ==> LerpClamped(t, min, max) == max
    ensures min <= max ==> min <= LerpClamped(t, min, max) <= max
  {
    LerpBetween(Clamp01(t), min, max);
  }

  // ---------------------------------------------------------------------------
  // Lerp over integers: std::round of the real interpolation

  /** std::round: to the nearest integer, halves away from zero. */
  function Round(x: real): int
  {
    if x >= 0.0 then (x + 0.5).Floor else -((-x + 0.5).Floor)
  }

  lemma RoundIsNearest(x: real)
    ensures x - 0.5 <= Round(x) as real <= x + 0.5
    ensures x >= 0.0 ==> Round(x) as real > x - 0.5
    ensures x < 0.0 ==> Round(x) as real < x + 0.5
  {
  }

  lemma RoundOfInteger(n: int)
    ensures Round(n as real) == n
  {
  }

  lemma RoundMonotone(x: real, y: real)
    requires x <= y
    ensures Round(x) <= Round(y)
  {
    if x >= 0.0 {
      assert (x + 0.5).Floor <= (y + 0.5).Floor;
    } else if y < 0.0 {
      assert (-y + 0.5).Floor <= (-x + 0.5).Floor;
    } else {
      assert Round(x) <= 0;
    }
  }

  /** The integer branch: the real interpolation of the ends, rounded. Over the
      reals `(double)(max - min)` is `max - min`, so this is Lerp of the ends. */
  function LerpInt(t: real, min: int, max: int): int
  {
    Round(Lerp(t, min as real, max as real))
  }

  function LerpClampedInt(t: real, min: int, max: int): int
  {
    Round(LerpClamped(t, min as real, max as real))
  }

  /** Integer interpolation stays in range for a parameter in [0,1]. */
  lemma LerpIntWithin(t: real, min: int, max: int)
    requires 0.0 <= t <= 1.0
    requires min <= max
    ensures min <= LerpInt(t, min, max) <= max
  {
    var x := Lerp(t, min as real, max as real);
    LerpBetween(t, min as real, max as real);
    RoundMonotone(min as real, x);
    RoundMonotone(x, max as real);
    RoundOfInteger(min);
    RoundOfInteger(max);
  }

  /** Integer interpolation reproduces its ends exactly. */
  lemma LerpIntEndpoints(min: int, max: int)
    ensures LerpInt(0.0, min, max) == min
    ensures LerpInt(1.0, min, max) == max
    ensures LerpClampedInt(0.0, min, max) == min
    ensures LerpClampedInt(1.0, min, max) == max
  {
    RoundOfInteger(min);
    RoundOfInteger(max);
  }

  /** The clamped integer form saturates outside [0,1] and stays in range. */
  lemma LerpClampedIntSaturates(t: real, min: int, max: int)
    ensures LerpClampedInt(t, min, max) == LerpInt(Clamp01(t), min, max)
    ensures t <= 0.0 ==> LerpClampedInt(t, min, max) == min
    ensures 1.0 <= t ==> LerpClampedInt(t, min, max) == max
    ensures min <= max ==> min <= LerpClampedInt(t, min, max) <= max
  {
    LerpClampedSaturates(t, min as real, max as real);
    RoundOfInteger(min);
    RoundOfInteger(max);
    if min <= max {
      LerpIntWithin(Clamp01(t), min, max);
    }
  }

  // ---------------------------------------------------------------------------
  // Lerp over points and relative positions

  function PointLerp(t: real, min: Point, max: Point): Point
  {
    Add(min, Scale(Sub(max, min), t))
  }

  function PointLerpClamped(t: real, min: Point, max: Point): Point
  {
    Add(min, Scale(Sub(max, min), Clamp01(t)))
  }

  function PositionLerp(t: real, min: GUIPosition, max: GUIPosition): GUIPosition
  {
    PositionAdd(min, PositionScale(PositionSub(max, min), t))
  }

  function PositionLerpClamped(t: real, min: GUIPosition, max: GUIPosition): GUIPosition
  {
    PositionAdd(min, PositionScale(PositionSub(max, min), Clamp01(t)))
  }

  /** The ends of a position interpolation are the two positions. */
  lemma PositionLerpEndpoints(min: GUIPosition, max: GUIPosition)
    ensures PositionLerp(0.0, min, max) == min
    ensures PositionLerp(1.0, min, max) == max
  {
  }

  /** Evaluating an interpolated relative position against a parent is the
      interpolation of the evaluated ends: Get commutes with Lerp. */
  lemma PositionGetLerp(t: real, min: GUIPosition, max: GUIPosition, parent: Rect)
    ensures PositionGet(PositionLerp(t, min, max), parent)
         == PointLerp(t, PositionGet(min, parent), PositionGet(max, parent))
    ensures PositionGet(PositionLerpClamped(t, min, max), parent)
         == PointLerpClamped(t, PositionGet(min, parent), PositionGet(max, parent))
  {
    PositionGetAffine(min, max, t, parent);
    PositionGetAffine(min, max, Clamp01(t), parent);
  }

  // ---------------------------------------------------------------------------
  // Inverse interpolation

  function InverseLerp(value: real, min: real, max: real): real
    requires min != max
  {
    (value - min) / (max - min)
  }

  function InverseLerpClamped(value: real, min: real, max: real): (r: real)
    requires min != max
    ensures 0.0 <= r <= 1.0
  {
    Clamp01((value - min) / (max - min))
  }

  /** Inverse interpolation undoes interpolation and vice versa. */
  lemma InverseLerpRoundTrip(t: real, value: real, min: real, max: real)
    requires min != max
    ensures InverseLerp(Lerp(t, min, max), min, max) == t
    ensures Lerp(InverseLerp(value, min, max), min, max) == value
  {
    assert (Lerp(t, min, max) - min) == t * (max - min);
    assert InverseLerp(value, min, max) * (max - min) == value - min;
  }

  /** The clamped inverse of an interpolation inside [0,1] is the parameter. */
  lemma InverseLerpClampedOfLerp(t: real, min: real, max: real)
    requires min != max
    requires 0.0 <= t <= 1.0
    ensures InverseLerpClamped(Lerp(t, min, max), min, max) == t
  {
    InverseLerpRoundTrip(t, 0.0, min, max);
  }

  function Square(x: real): real { x * x }

  lemma MulPositive(a: real, b: real)
    requires 0.0 < a && 0.0 < b
    ensures 0.0 < a * b
  {
  }

  lemma SquarePositive(x: real)
    requires x != 0.0
    ensures Square(x) > 0.0
  {
    if x > 0.0 {
      calc { Square(x); == x * x; > { MulPositive(x, x); } 0.0; }
    } else {
      calc { Square(x); == (-x) * (-x); > { MulPositive(-x, -x); } 0.0; }
    }
  }

  lemma SquareNonnegative(x: real)
    ensures Square(x) >= 0.0
  {
    if x != 0.0 { SquarePositive(x); }
  }

  /** A non-zero vector has a positive squared length, so the projection below
      never divides by zero. */
  lemma DotSelfPositive(d: Point)
    requires d != Origin
    ensures Dot(d, d) > 0.0
  {
    assert Dot(d, d) == Square(d.x) + Square(d.y);
    SquareNonnegative(d.x);
    SquareNonnegative(d.y);
    if d.x != 0.0 { SquarePositive(d.x); } else { SquarePositive(d.y); }
  }

  /** The projection parameter of `value` on the segment from min to max:
      dot(value - min, d) / |d|^2 with d = max - min. */
  function InverseLerp2D(value: Point, min: Point, max: Point): real
    requires min != max
  {
    var d := Sub(max, min);
    assert d != Origin;
    DotSelfPositive(d);
    Dot(Sub(value, min), d) / Dot(d, d)
  }

  function InverseLerpClamped2D(value: Point, min: Point, max: Point): (r: real)
    requires min != max
    ensures 0.0 <= r <= 1.0
  {
    Clamp01(InverseLerp2D(value, min, max))
  }

  /** Projection is 0 at the start, 1 at the end, and recovers the parameter of
      any point of the segment's line. */
  lemma InverseLerp2DOnSegment(t: real, min: Point, max: Point)
    requires min != max
    ensures InverseLerp2D(min, min, max) == 0.0
    ensures InverseLerp2D(max, min, max) == 1.0
    ensures InverseLerp2D(PointLerp(t, min, max), min, max) == t
    ensures 0.0 <= t <= 1.0 ==> InverseLerpClamped2D(PointLerp(t, min, max), min, max) == t
  {
    var d := Sub(max, min);
    DotSelfPositive(d);
    assert Sub(min, min) == Origin;
    assert Sub(max, min) == d;
    assert Sub(PointLerp(t, min, max), min) == Scale(d, t);
    assert Dot(Scale(d, t), d) == t * Dot(d, d);
  }

  // ---------------------------------------------------------------------------
  // Range mapping

  function MapRange(value: real, minIn: real, maxIn: real, minOut: real, maxOut: real): real
    requires minIn != maxIn
  {
    Lerp(InverseLerp(value, minIn, maxIn), minOut, maxOut)
  }

  function MapRangeClamped(value: real, minIn: real, maxIn: real, minOut: real, maxOut: real): real
    requires minIn != maxIn
  {
    Lerp(InverseLerpClamped(value, minIn, maxIn), minOut, maxOut)
  }

  /** The ends of the input range map to the ends of the output range, and the
      clamped form never leaves the output range. */
  lemma MapRangeEnds(value: real, minIn: real, maxIn: real, minOut: real, maxOut: real)
    requires minIn != maxIn
    ensures MapRange(minIn, minIn, maxIn, minOut, maxOut) == minOut
    ensures MapRange(maxIn, minIn, maxIn, minOut, maxOut) == maxOut
    ensures minOut <= maxOut ==> minOut <= MapRangeClamped(value, minIn, maxIn, minOut, maxOut) <= maxOut
    ensures maxOut <= minOut ==> maxOut <= MapRangeClamped(value, minIn, maxIn, minOut, maxOut) <= minOut
  {
    assert InverseLerp(minIn, minIn, maxIn) == 0.0;
    assert InverseLerp(maxIn, minIn, maxIn) == (maxIn - minIn) / (maxIn - minIn) == 1.0;
    LerpBetween(InverseLerpClamped(value, minIn, maxIn), minOut, maxOut);
  }

  /** MapRange from a number onto a relative position (how a slider places its
      handle for a value). */
  function MapRangeToPosition(value: real, minIn: real, maxIn: real, minOut: GUIPosition, maxOut: GUIPosition): GUIPosition
    requires minIn != maxIn
  {
    PositionLerp(InverseLerp(value, minIn, maxIn), minOut, maxOut)
  }

  lemma MapRangeToPositionEnds(minIn: real, maxIn: real, minOut: GUIPosition, maxOut: GUIPosition)
    requires minIn != maxIn
    ensures MapRangeToPosition(minIn, minIn, maxIn, minOut, maxOut) == minOut
    ensures MapRangeToPosition(maxIn, minIn, maxIn, minOut, maxOut) == maxOut
  {
    assert InverseLerp(minIn, minIn, maxIn) == 0.0;
    assert InverseLerp(maxIn, minIn, maxIn) == (maxIn - minIn) / (maxIn - minIn) == 1.0;
    PositionLerpEndpoints(minOut, maxOut);
  }

  // ---------------------------------------------------------------------------
  // Clamp, as written: the y component is chosen by testing value.x < min.y

  datatype IntPoint = IntPoint(x: int, y: int)

  function ClampInt(value: IntPoint, min: IntPoint, max: IntPoint): (r: IntPoint)
    requires min.x <= max.x && min.y <= max.y
    ensures min.x <= r.x <= max.x
    ensures r.y <= max.y
  {
    IntPoint(
      if value.x < min.x then min.x else if value.x > max.x then max.x else value.x,
      if value.x < min.y then min.y else if value.y > max.y then max.y else value.y)
  }

  function ClampPoint(value: Point, min: Point, max: Point): (r: Point)
    requires min.x <= max.x && min.y <= max.y
    ensures min.x <= r.x <= max.x
    ensures r.y <= max.y
  {
    Point(
      if value.x < min.x then min.x else if value.x > max.x then max.x else value.x,
      if value.x < min.y then min.y else if value.y > max.y then max.y else value.y)
  }

  /** The y component is not bounded below (the test reads value.x), and a y
      already in range can be replaced by min.y. */
  lemma ClampYEscapes()
    ensures ClampPoint(Point(5.0, -3.0), Origin, Point(10.0, 10.0)).y == -3.0
    ensures ClampPoint(Point(0.0, 5.0), Point(0.0, 1.0), Point(10.0, 10.0)).y == 1.0
    ensures ClampInt(IntPoint(5, -3), IntPoint(0, 0), IntPoint(10, 10)).y == -3
  {
  }

  /** Clamp with the y test reading value.y, as evidently intended. */
  function ClampPointFixed(value: Point, min: Point, max: Point): (r: Point)
    requires min.x <= max.x && min.y <= max.y
    ensures min.x <= r.x <= max.x && min.y <= r.y <= max.y
    ensures min.x <= value.x <= max.x && min.y <= value.y <= max.y ==> r == value
  {
    Point(
      if value.x < min.x then min.x else if value.x > max.x then max.x else value.x,
      if value.y < min.y then min.y else if value.y > max.y then max.y else value.y)
  }

  function ClampIntFixed(value: IntPoint, min: IntPoint, max: IntPoint): (r: IntPoint)
    requires min.x <= max.x && min.y <= max.y
    ensures min.x <= r.x <= max.x && min.y <= r.y <= max.y
    ensures min.x <= value.x <= max.x && min.y <= value.y <= max.y ==> r == value
  {
    IntPoint(
      if value.x < min.x then min.x else if value.x > max.x then max.x else value.x,
      if value.y < min.y then min.y else if value.y > max.y then max.y else value.y)
  }

  /** Where the two disagree only y differs, and the fixed form is idempotent. */
  lemma ClampFixedAgreesOnX(value: Point, min: Point, max: Point)
    requires min.x <= max.x && min.y <= max.y
    ensures ClampPointFixed(value, min, max).x == ClampPoint(value, min, max).x
    ensures ClampPointFixed(ClampPointFixed(value, min, max), min, max) == ClampPointFixed(value, min, max)
  {
  }
}
