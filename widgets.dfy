/** The interactive widgets: a two-state Toggle whose handle slides between an
    off and an on position over a fixed time, a FloatSlider and an IntSlider
    whose handle follows the pointer along a segment, and the ContainerLimiter
    that enforces a minimum width. Each widget keeps its relative
    configuration and the absolute values it derived from the last parent
    rectangle it was given; every method that moves the handle returns the
    rectangle the widget hands to its handle container. */
module Widgets {
  import opened Wrappers
  import opened Geometry
  import opened Interpolation
  import Containers

  // ---------------------------------------------------------------------------
  // Toggle timing

  /** One Toggle::Update step of the elapsed-time counter, for a non-zero
      scroll time: it moves towards scrollTime while on and towards zero while
      off, by dT, stopping at the end. */
  function ToggleStep(state: bool, t: nat, scrollTime: nat, dT: nat): (r: nat)
    requires t <= scrollTime
    ensures r <= scrollTime
    ensures state ==> t <= r && (r == scrollTime <==> scrollTime <= t + dT) && (r < scrollTime ==> r == t + dT)
    ensures !state ==> r <= t && (r == 0 <==> t <= dT) && (0 < r ==> r + dT == t)
  {
    if state then (if scrollTime - t > dT then t + dT else scrollTime)
    else (if t > dT then t - dT else 0)
  }

  /** The interpolation parameter of the handle: elapsed time over scroll time. */
  function Fraction(t: nat, scrollTime: nat): (r: real)
    requires t <= scrollTime && scrollTime > 0
    ensures 0.0 <= r <= 1.0
    ensures r == 0.0 <==> t == 0
    ensures r == 1.0 <==> t == scrollTime
  {
    t as real / scrollTime as real
  }

  /** Two updates in the same state are one update by the summed time. */
  lemma ToggleStepCompose(state: bool, t: nat, scrollTime: nat, a: nat, b: nat)
    requires t <= scrollTime
    ensures ToggleStep(state, ToggleStep(state, t, scrollTime, a), scrollTime, b)
         == ToggleStep(state, t, scrollTime, a + b)
  {
  }

  function Sum(dts: seq<nat>): nat
  {
    if dts == [] then 0 else dts[0] + Sum(dts[1..])
  }

  /** A run of updates with the given frame times, without a state change. */
  function ToggleRun(state: bool, t: nat, scrollTime: nat, dts: seq<nat>): (r: nat)
    requires t <= scrollTime
    ensures r <= scrollTime
    decreases |dts|
  {
    if dts == [] then t else ToggleRun(state, ToggleStep(state, t, scrollTime, dts[0]), scrollTime, dts[1..])
  }

  /** However the time is cut into frames, a run of updates ends where one
      update by the total time would. */
  lemma {:induction false} ToggleRunIsOneStep(state: bool, t: nat, scrollTime: nat, dts: seq<nat>)
    requires t <= scrollTime
    ensures ToggleRun(state, t, scrollTime, dts) == ToggleStep(state, t, scrollTime, Sum(dts))
    decreases |dts|
  {
    if dts != [] {
      ToggleRunIsOneStep(state, ToggleStep(state, t, scrollTime, dts[0]), scrollTime, dts[1..]);
      ToggleStepCompose(state, t, scrollTime, dts[0], Sum(dts[1..]));
    }
  }

  /** Once switched on, the handle arrives at the on position after updates
      totalling at least the remaining time, and stays there; symmetrically
      for off. */
  lemma ToggleArrives(t: nat, scrollTime: nat, dts: seq<nat>, off: GUIPosition, on: GUIPosition)
    requires t <= scrollTime && scrollTime > 0
    ensures scrollTime - t <= Sum(dts) ==> ToggleRun(true, t, scrollTime, dts) == scrollTime
    ensures scrollTime - t <= Sum(dts) ==>
      PositionLerpClamped(Fraction(ToggleRun(true, t, scrollTime, dts), scrollTime), off, on) == on
    ensures t <= Sum(dts) ==> ToggleRun(false, t, scrollTime, dts) == 0
    ensures t <= Sum(dts) ==>
      PositionLerpClamped(Fraction(ToggleRun(false, t, scrollTime, dts), scrollTime), off, on) == off
  {
    ToggleRunIsOneStep(true, t, scrollTime, dts);
    ToggleRunIsOneStep(false, t, scrollTime, dts);
    PositionLerpEndpoints(off, on);
  }

  /** A scroll time of 500 switched on from rest: after 250 the handle is half
      way, after 500 in all it is at the end, and further updates keep it there. */
  lemma ToggleHalfWay()
    ensures ToggleStep(true, 0, 500, 250) == 250 && Fraction(250, 500) == 0.5
    ensures ToggleStep(true, 250, 500, 250) == 500 && Fraction(500, 500) == 1.0
    ensures forall dT: nat :: ToggleStep(true, 500, 500, dT) == 500
  {
  }

  // ---------------------------------------------------------------------------
  // Toggle

  class Toggle {
    var shape: GUIRect
    var offPosition: GUIPosition
    var onPosition: GUIPosition
    var curPosition: GUIPosition
    var clickArea: GUIRect
    var scrollTime: nat
    var state: bool
    var button: nat
    /** Elapsed animation time. */
    var t: nat
    /** Absolute values derived from the last parent rectangle. */
    var ownShape: Rect
    var offAbs: Point
    var onAbs: Point
    var curAbs: Point
    var clickAbs: Rect

    /** The counter stays within the scroll time and the handle stays on its
        track: at the point the counter gives, or, with no animation, at one of
        the two ends. */
    ghost predicate Valid()
      reads this
    {
      t <= scrollTime
      && (scrollTime > 0 ==> curPosition == PositionLerpClamped(Fraction(t, scrollTime), offPosition, onPosition))
      && (scrollTime == 0 ==> t == 0 && (curPosition == offPosition || curPosition == onPosition))
    }

    /** The absolute values agree with the relative ones in ownShape. */
    ghost predicate Placed()
      reads this`offAbs, this`onAbs, this`curAbs, this`clickAbs, this`offPosition, this`onPosition, this`curPosition, this`clickArea, this`ownShape
    {
      offAbs == PositionGet(offPosition, ownShape) && onAbs == PositionGet(onPosition, ownShape)
      && curAbs == PositionGet(curPosition, ownShape) && clickAbs == RectGet(clickArea, ownShape)
    }

    /** The rectangle the toggle hands its handle: its own size, at the handle's
        current absolute position. */
    function HandleFrame(): (r: Rect)
      reads this`curAbs, this`ownShape
      ensures r.pos == curAbs && r.size == ownShape.size
    {
      Rect(curAbs, ownShape.size)
    }

    constructor (shape: GUIRect, offPos: GUIPosition, onPos: GUIPosition, clickArea: GUIRect,
                 state: bool, scrollTime: nat, button: nat)
      ensures Valid()
      ensures this.shape == shape && offPosition == offPos && onPosition == onPos && this.clickArea == clickArea
      ensures this.state == state && this.scrollTime == scrollTime && this.button == button
      ensures curPosition == (if state then onPos else offPos)
      ensures t == (if state then scrollTime else 0)
    {
      this.shape := shape;
      offPosition, onPosition := offPos, onPos;
      curPosition := if state then onPos else offPos;
      this.clickArea := clickArea;
      this.state := state;
      this.scrollTime := scrollTime;
      this.button := button;
      t := if state then scrollTime else 0;
      ownShape, offAbs, onAbs, curAbs, clickAbs := Rect(Origin, Origin), Origin, Origin, Origin, Rect(Origin, Origin);
      PositionLerpEndpoints(offPos, onPos);
    }

    /** Toggle::SetParentShape: derive every absolute value from the parent. */
    method SetParentShape(parent: Rect) returns (frame: Rect)
      modifies this`ownShape, this`offAbs, this`onAbs, this`curAbs, this`clickAbs
      ensures ownShape == RectGet(shape, parent) && Placed()
      ensures frame == HandleFrame()
    {
      ownShape := RectGet(shape, parent);
      offAbs := PositionGet(offPosition, ownShape);
      onAbs := PositionGet(onPosition, ownShape);
      curAbs := PositionGet(curPosition, ownShape);
      clickAbs := RectGet(clickArea, ownShape);
      frame := Rect(curAbs, ownShape.size);
    }

    /** Toggle::Update: advance the animation by dT and move the handle. */
    method Update(dT: nat) returns (frame: Rect)
      requires Valid()
      modifies this`t, this`curPosition, this`curAbs
      ensures Valid()
      ensures scrollTime == 0 ==> t == 0 && curPosition == (if state then onPosition else offPosition)
      ensures scrollTime > 0 ==> t == ToggleStep(state, old(t), scrollTime, dT)
      ensures old(Placed()) ==> Placed()
      ensures frame == HandleFrame()
    {
      if scrollTime == 0 {
        t := 0;
        if state {
          curPosition := onPosition;
          curAbs := onAbs;
        } else {
          curPosition := offPosition;
          curAbs := offAbs;
        }
      } else {
        if state {
          t := if scrollTime - t > dT then t + dT else scrollTime;
        } else {
          t := if t > dT then t - dT else 0;
        }
        var f := Fraction(t, scrollTime);
        curPosition := PositionLerpClamped(f, offPosition, onPosition);
        curAbs := PointLerpClamped(f, offAbs, onAbs);
        PositionGetLerp(f, offPosition, onPosition, ownShape);
      }
      frame := Rect(curAbs, ownShape.size);
    }

    /** Toggle::Clicker::Notify for a button-up event: a release of the
        toggle's button inside the click area flips the state. `inClickArea`
        is the hit test of the event point against clickAbs. */
    method Notify(eventButton: nat, inClickArea: bool)
      requires Valid()
      modifies this`state
      ensures Valid()
      ensures state == (if eventButton == button && inClickArea then !old(state) else old(state))
    {
      if eventButton != button {
        return;
      }
      if !inClickArea {
        return;
      }
      state := !state;
    }
  }

  /** The toggle hands its handle the same rectangle as a slotted node with the
      toggle's cursor in the container arena. */
  lemma ToggleFrameIsSlotFrame(tg: Toggle, parent: Rect, handle: Option<Containers.Id>, up: Option<Containers.Id>)
    requires tg.Placed() && tg.ownShape == RectGet(tg.shape, parent)
    ensures tg.HandleFrame()
         == Containers.Frame(Containers.Node(up, Containers.Slot(handle, tg.curPosition), tg.shape, parent))
  {
  }

  /** The same for a FloatSlider: the rectangle it hands its handle is the one
      the arena computes for a slot whose cursor is the slider's cur_position. */
  lemma FloatSliderFrameIsSlotFrame(sl: FloatSlider, parent: Rect, handle: Option<Containers.Id>, up: Option<Containers.Id>)
    requires sl.Placed() && sl.ownShape == RectGet(sl.shape, parent)
    ensures sl.HandleFrame()
         == Containers.Frame(Containers.Node(up, Containers.Slot(handle, sl.curPosition), sl.shape, parent))
  {
  }

  /** ...and for an IntSlider. */
  lemma IntSliderFrameIsSlotFrame(sl: IntSlider, parent: Rect, handle: Option<Containers.Id>, up: Option<Containers.Id>)
    requires sl.Placed() && sl.ownShape == RectGet(sl.shape, parent)
    ensures sl.HandleFrame()
         == Containers.Frame(Containers.Node(up, Containers.Slot(handle, sl.curPosition), sl.shape, parent))
  {
  }

  // ---------------------------------------------------------------------------
  // The slider area shared by both sliders

  /** The rectangle in which a click warps the handle: the handle's rectangle
      stretched along the track from the minimum to the maximum position. */
  function SliderArea(handleAbs: Rect, minAbs: Point, maxAbs: Point): (r: Rect)
    ensures r.pos == Add(handleAbs.pos, minAbs)
    ensures Add(r.pos, r.size) == Add(Add(handleAbs.pos, handleAbs.size), maxAbs)
  {
    Rect(Add(handleAbs.pos, minAbs), Add(handleAbs.size, Sub(maxAbs, minAbs)))
  }

  // ---------------------------------------------------------------------------
  // FloatSlider

  class FloatSlider {
    var shape: GUIRect
    var minPosition: GUIPosition
    var maxPosition: GUIPosition
    var curPosition: GUIPosition
    var handleShape: GUIRect
    var minValue: real
    var maxValue: real
    var curValue: real
    var clickWarp: bool
    var button: nat
    /** Absolute values derived from the last parent rectangle. */
    var ownShape: Rect
    var minAbs: Point
    var maxAbs: Point
    var curAbs: Point
    var handleAbs: Rect
    var sliderArea: Rect
    /** The pointer is held down on the slider (Clicker::is_clicked). */
    var isClicked: bool
    /** The Dragger is registered for pointer motion. */
    var dragging: bool

    /** The handle sits on the track where the value says. */
    ghost predicate Valid()
      reads this
    {
      minValue != maxValue && curPosition == PositionLerp(GetValueNorm(), minPosition, maxPosition)
    }

    ghost predicate Placed()
      reads this`minAbs, this`maxAbs, this`curAbs, this`handleAbs, this`sliderArea, this`minPosition, this`maxPosition, this`curPosition, this`handleShape, this`ownShape
    {
      minAbs == PositionGet(minPosition, ownShape) && maxAbs == PositionGet(maxPosition, ownShape)
      && curAbs == PositionGet(curPosition, ownShape)
      && handleAbs == RectGet(handleShape, Rect(Origin, ownShape.size))
      && sliderArea == SliderArea(handleAbs, minAbs, maxAbs)
    }

    /** FloatSlider::GetValueNorm: where the value lies between the ends, as a
        fraction. */
    function GetValueNorm(): (r: real)
      reads this
      requires minValue != maxValue
      ensures Lerp(r, minValue, maxValue) == curValue
    {
      InverseLerpRoundTrip(0.0, curValue, minValue, maxValue);
      InverseLerp(curValue, minValue, maxValue)
    }

    function HandleFrame(): (r: Rect)
      reads this`curAbs, this`ownShape
      ensures r.pos == curAbs && r.size == ownShape.size
    {
      Rect(curAbs, ownShape.size)
    }

    constructor (shape: GUIRect, minPos: GUIPosition, maxPos: GUIPosition, handleShape: GUIRect,
                 minVal: real, maxVal: real, initVal: real, button: nat, clickWarp: bool)
      requires minVal != maxVal
      ensures Valid() && !isClicked && !dragging
      ensures this.shape == shape && minPosition == minPos && maxPosition == maxPos && this.handleShape == handleShape
      ensures minValue == minVal && maxValue == maxVal && curValue == initVal
      ensures curPosition == MapRangeToPosition(initVal, minVal, maxVal, minPos, maxPos)
      ensures this.button == button && this.clickWarp == clickWarp
    {
      this.shape := shape;
      minPosition, maxPosition := minPos, maxPos;
      curPosition := MapRangeToPosition(initVal, minVal, maxVal, minPos, maxPos);
      this.handleShape := handleShape;
      minValue, maxValue, curValue := minVal, maxVal, initVal;
      this.clickWarp := clickWarp;
      this.button := button;
      ownShape, minAbs, maxAbs, curAbs := Rect(Origin, Origin), Origin, Origin, Origin;
      handleAbs, sliderArea := Rect(Origin, Origin), Rect(Origin, Origin);
      isClicked, dragging := false, false;
    }

    /** FloatSlider::SetParentShape. */
    method SetParentShape(parent: Rect) returns (frame: Rect)
      modifies this`ownShape, this`minAbs, this`maxAbs, this`curAbs, this`handleAbs, this`sliderArea
      ensures ownShape == RectGet(shape, parent) && Placed()
      ensures frame == HandleFrame()
    {
      ownShape := RectGet(shape, parent);
      minAbs := PositionGet(minPosition, ownShape);
      maxAbs := PositionGet(maxPosition, ownShape);
      curAbs := PositionGet(curPosition, ownShape);
      handleAbs := RectGet(handleShape, Rect(Origin, ownShape.size));
      sliderArea := Rect(Add(handleAbs.pos, minAbs), Add(handleAbs.size, Sub(maxAbs, minAbs)));
      frame := Rect(curAbs, ownShape.size);
    }

    /** FloatSlider::SetFromNorm: put value and handle at parameter t. */
    method SetFromNorm(t: real) returns (frame: Rect)
      requires Valid()
      modifies this`curPosition, this`curValue, this`curAbs, this`handleAbs
      ensures Valid()
      ensures curValue == Lerp(t, minValue, maxValue) && GetValueNorm() == t
      ensures curPosition == PositionLerp(t, minPosition, maxPosition)
      ensures old(Placed()) ==> Placed()
      ensures frame == HandleFrame()
    {
      curPosition := PositionLerp(t, minPosition, maxPosition);
      curValue := Lerp(t, minValue, maxValue);
      curAbs := PositionGet(curPosition, ownShape);
      handleAbs := RectGet(handleShape, Rect(Origin, ownShape.size));
      InverseLerpRoundTrip(t, 0.0, minValue, maxValue);
      frame := Rect(curAbs, ownShape.size);
    }

    /** FloatSlider::SetFromPosition: move the handle to the projection of the
        pointer onto the track, clamped to the ends. `grab` is the offset within
        the handle at which it was grabbed. */
    method SetFromPosition(point: Point, grab: Point) returns (frame: Rect)
      requires Valid() && minAbs != maxAbs
      modifies this`curPosition, this`curValue, this`curAbs, this`handleAbs
      ensures Valid()
      ensures GetValueNorm() == InverseLerpClamped2D(Sub(point, grab), minAbs, maxAbs)
      ensures 0.0 <= GetValueNorm() <= 1.0
      ensures minValue <= maxValue ==> minValue <= curValue <= maxValue
      ensures maxValue <= minValue ==> maxValue <= curValue <= minValue
      ensures old(Placed()) ==> Placed()
      ensures frame == HandleFrame()
    {
      var t := InverseLerpClamped2D(Sub(point, grab), minAbs, maxAbs);
      frame := SetFromNorm(t);
      LerpBetween(t, minValue, maxValue);
    }

    /** FloatSlider::Clicker::Notify for a button event. `onHandle` and
        `inArea` are the hit tests of the event point against the handle and
        against sliderArea. Pressing on the handle grabs it; pressing elsewhere
        in the area with click warp on moves the handle to the point first;
        releasing lets go. Returns the handle's new rectangle when it moved. */
    method Notify(eventButton: nat, released: bool, onHandle: bool, inArea: bool, click: Point)
      returns (moved: Option<Rect>)
      requires Valid()
      requires !released && !onHandle && clickWarp && inArea ==> minAbs != maxAbs
      modifies this`curPosition, this`curValue, this`curAbs, this`handleAbs, this`isClicked, this`dragging
      ensures Valid()
      ensures eventButton != button ==>
                moved.None? && isClicked == old(isClicked) && dragging == old(dragging)
                && curValue == old(curValue)
      ensures eventButton == button && released ==>
                moved.None? && !isClicked && dragging == (old(dragging) && !old(isClicked)) && curValue == old(curValue)
      ensures eventButton == button && !released ==>
                isClicked == (onHandle || (clickWarp && inArea))
                && dragging == (old(dragging) || isClicked)
                && (moved.Some? <==> !onHandle && clickWarp && inArea)
      ensures moved.Some? ==> GetValueNorm() == InverseLerpClamped2D(click, old(minAbs), old(maxAbs))
                              && moved.value == HandleFrame()
      ensures moved.None? ==> curValue == old(curValue) && curPosition == old(curPosition)
      ensures old(Placed()) ==> Placed()
    {
      moved := None;
      if eventButton != button {
        return;
      }
      if released {
        if isClicked {
          isClicked := false;
          dragging := false;
        }
      } else {
        isClicked := onHandle;
        if isClicked {
          dragging := true;
        } else if clickWarp {
          isClicked := inArea;
          if !isClicked {
            return;
          }
          var t := InverseLerpClamped2D(click, minAbs, maxAbs);
          var frame := SetFromNorm(t);
          moved := Some(frame);
          dragging := true;
        }
      }
    }

    /** FloatSlider::Dragger::Notify: while grabbed, pointer motion drags the
        handle. */
    method MouseMotion(point: Point, grab: Point) returns (moved: Option<Rect>)
      requires Valid() && (dragging ==> minAbs != maxAbs)
      modifies this`curPosition, this`curValue, this`curAbs, this`handleAbs
      ensures Valid()
      ensures moved.Some? <==> dragging
      ensures dragging ==> GetValueNorm() == InverseLerpClamped2D(Sub(point, grab), minAbs, maxAbs)
                           && moved.value == HandleFrame()
      ensures !dragging ==> curValue == old(curValue) && curPosition == old(curPosition)
      ensures old(Placed()) ==> Placed()
    {
      moved := None;
      if dragging {
        var frame := SetFromPosition(point, grab);
        moved := Some(frame);
      }
    }
  }

  // ---------------------------------------------------------------------------
  // IntSlider

  lemma DivFacts(a: int, b: int)
    requires 0 <= a && 0 < b
    ensures a < b ==> a / b == 0
    ensures a == b ==> a / b == 1
  {
    if a < b {
      assert a / b == 0;
    } else if a == b {
      assert a / b == 1;
    }
  }

  /** C++ integer division, which truncates towards zero. */
  function TruncDiv(a: int, b: int): (q: int)
    requires b != 0
    ensures 0 <= a && 0 < b ==> q == a / b
    ensures a < 0 && 0 < b ==> q == -((-a) / b)
    ensures 0 <= a < b ==> q == 0
    ensures 0 < a == b ==> q == 1
  {
    if 0 < b then (if 0 <= a then DivFacts(a, b); a / b else -((-a) / b))
    else (if 0 <= a then -(a / (-b)) else (-a) / (-b))
  }

  /** IntSlider::GetValueNorm as written: the difference of two ints divided by
      a difference of two ints is an integer division, converted afterwards. */
  function IntValueNormAsWritten(cur: int, min: int, max: int): real
    requires min != max
  {
    TruncDiv(cur - min, max - min) as real
  }

  /** As written, a value strictly inside the range reports 0 and only the
      maximum reports 1: for 5 in 0..10 it reports 0 where 0.5 is meant. */
  lemma IntValueNormCollapses(cur: int, min: int, max: int)
    requires min < max
    ensures min <= cur < max ==> IntValueNormAsWritten(cur, min, max) == 0.0
    ensures IntValueNormAsWritten(max, min, max) == 1.0
    ensures IntValueNormAsWritten(5, 0, 10) == 0.0 && IntValueNorm(5, 0, 10) == 0.5
  {
  }

  /** IntSlider::GetValueNorm, with the division done in floating point. */
  function IntValueNorm(cur: int, min: int, max: int): (r: real)
    requires min != max
    ensures Lerp(r, min as real, max as real) == cur as real
    ensures min <= cur <= max ==> 0.0 <= r <= 1.0
  {
    InverseLerpRoundTrip(0.0, cur as real, min as real, max as real);
    assert min <= cur <= max ==> 0.0 <= (cur - min) as real / (max - min) as real <= 1.0;
    InverseLerp(cur as real, min as real, max as real)
  }

  /** norm is within half a step of t, a step being 1 / |max - min|. */
  ghost predicate WithinHalfStep(norm: real, t: real, min: int, max: int)
  {
    -0.5 <= (norm - t) * (max - min) as real <= 0.5
  }

  /** Rounding an interpolated integer moves its fraction by at most half a step:
      the norm of the rounded value is within 1 / (2 |max - min|) of t. */
  lemma IntNormNear(t: real, min: int, max: int)
    requires min != max
    ensures WithinHalfStep(IntValueNorm(LerpInt(t, min, max), min, max), t, min, max)
  {
    var x := Lerp(t, min as real, max as real);
    var d := (max - min) as real;
    RoundIsNearest(x);
    var v := LerpInt(t, min, max);
    assert IntValueNorm(v, min, max) == (v - min) as real / d;
    calc {
      (IntValueNorm(v, min, max) - t) * d;
      == (v - min) as real / d * d - t * d;
      == (v - min) as real - t * d;
      == v as real - x;
    }
  }

  class IntSlider {
    var shape: GUIRect
    var minPosition: GUIPosition
    var maxPosition: GUIPosition
    var curPosition: GUIPosition
    var handleShape: GUIRect
    var minValue: int
    var maxValue: int
    var curValue: int
    var clickWarp: bool
    var button: nat
    var ownShape: Rect
    var minAbs: Point
    var maxAbs: Point
    var curAbs: Point
    var handleAbs: Rect
    var sliderArea: Rect
    var isClicked: bool
    var dragging: bool
    /** The parameter the handle was last dragged to. */
    ghost var norm: real

    /** At rest the handle sits exactly where the value maps; while dragged it
        sits at the parameter it was dragged to, and the value is that
        parameter's rounded interpolation. */
    ghost predicate Valid()
      reads this`minValue, this`maxValue, this`dragging, this`curPosition, this`curValue, this`norm, this`minPosition, this`maxPosition
    {
      minValue != maxValue
      && (!dragging ==> curPosition == Snapped())
      && (dragging ==> curPosition == PositionLerp(norm, minPosition, maxPosition)
                       && curValue == LerpInt(norm, minValue, maxValue))
    }

    ghost predicate Placed()
      reads this`minAbs, this`maxAbs, this`curAbs, this`handleAbs, this`sliderArea, this`minPosition, this`maxPosition, this`curPosition, this`handleShape, this`ownShape
    {
      minAbs == PositionGet(minPosition, ownShape) && maxAbs == PositionGet(maxPosition, ownShape)
      && curAbs == PositionGet(curPosition, ownShape)
      && handleAbs == RectGet(handleShape, Rect(Origin, ownShape.size))
      && sliderArea == SliderArea(handleAbs, minAbs, maxAbs)
    }

    /** The handle position the current value maps to. */
    function Snapped(): (p: GUIPosition)
      reads this`curValue, this`minValue, this`maxValue, this`minPosition, this`maxPosition
      requires minValue != maxValue
      ensures p == PositionLerp(IntValueNorm(curValue, minValue, maxValue), minPosition, maxPosition)
      ensures curValue == minValue ==> p == minPosition
      ensures curValue == maxValue ==> p == maxPosition
    {
      MapRangeToPositionEnds(minValue as real, maxValue as real, minPosition, maxPosition);
      MapRangeToPosition(curValue as real, minValue as real, maxValue as real, minPosition, maxPosition)
    }

    function GetValueNorm(): (r: real)
      reads this`curValue, this`minValue, this`maxValue
      requires minValue != maxValue
      ensures Lerp(r, minValue as real, maxValue as real) == curValue as real
    {
      IntValueNorm(curValue, minValue, maxValue)
    }

    function HandleFrame(): (r: Rect)
      reads this`curAbs, this`ownShape
      ensures r.pos == curAbs && r.size == ownShape.size
    {
      Rect(curAbs, ownShape.size)
    }

    constructor (shape: GUIRect, minPos: GUIPosition, maxPos: GUIPosition, handleShape: GUIRect,
                 minVal: int, maxVal: int, initVal: int, button: nat, clickWarp: bool)
      requires minVal != maxVal
      ensures Valid() && !isClicked && !dragging
      ensures this.shape == shape && minPosition == minPos && maxPosition == maxPos && this.handleShape == handleShape
      ensures minValue == minVal && maxValue == maxVal && curValue == initVal
      ensures curPosition == MapRangeToPosition(initVal as real, minVal as real, maxVal as real, minPos, maxPos)
      ensures this.button == button && this.clickWarp == clickWarp
    {
      this.shape := shape;
      minPosition, maxPosition := minPos, maxPos;
      curPosition := MapRangeToPosition(initVal as real, minVal as real, maxVal as real, minPos, maxPos);
      this.handleShape := handleShape;
      minValue, maxValue, curValue := minVal, maxVal, initVal;
      this.clickWarp := clickWarp;
      this.button := button;
      ownShape, minAbs, maxAbs, curAbs := Rect(Origin, Origin), Origin, Origin, Origin;
      handleAbs, sliderArea := Rect(Origin, Origin), Rect(Origin, Origin);
      isClicked, dragging := false, false;
      norm := 0.0;
    }

    /** IntSlider::SetParentShape. */
    method SetParentShape(parent: Rect) returns (frame: Rect)
      modifies this`ownShape, this`minAbs, this`maxAbs, this`curAbs, this`handleAbs, this`sliderArea
      ensures ownShape == RectGet(shape, parent) && Placed()
      ensures frame == HandleFrame()
    {
      ownShape := RectGet(shape, parent);
      minAbs := PositionGet(minPosition, ownShape);
      maxAbs := PositionGet(maxPosition, ownShape);
      curAbs := PositionGet(curPosition, ownShape);
      handleAbs := RectGet(handleShape, Rect(Origin, ownShape.size));
      sliderArea := Rect(Add(handleAbs.pos, minAbs), Add(handleAbs.size, Sub(maxAbs, minAbs)));
      frame := Rect(curAbs, ownShape.size);
    }

    /** IntSlider::SetFromNorm: the handle goes to parameter t exactly and the
        value to the nearest integer; this happens only while the pointer is
        held. */
    method SetFromNorm(t: real) returns (frame: Rect)
      requires Valid() && dragging
      modifies this`curPosition, this`curValue, this`curAbs, this`handleAbs, this`norm
      ensures Valid()
      ensures curValue == LerpInt(t, minValue, maxValue)
      ensures curPosition == PositionLerp(t, minPosition, maxPosition)
      ensures WithinHalfStep(GetValueNorm(), t, minValue, maxValue)
      ensures 0.0 <= t <= 1.0 && minValue <= maxValue ==> minValue <= curValue <= maxValue
      ensures old(Placed()) ==> Placed()
      ensures frame == HandleFrame()
    {
      curPosition := PositionLerp(t, minPosition, maxPosition);
      curValue := LerpInt(t, minValue, maxValue);
      norm := t;
      curAbs := PositionGet(curPosition, ownShape);
      handleAbs := RectGet(handleShape, Rect(Origin, ownShape.size));
      IntNormNear(t, minValue, maxValue);
      assert GetValueNorm() == IntValueNorm(LerpInt(t, minValue, maxValue), minValue, maxValue);
      if 0.0 <= t <= 1.0 && minValue <= maxValue {
        LerpIntWithin(t, minValue, maxValue);
      }
      frame := Rect(curAbs, ownShape.size);
    }

    /** IntSlider::SetFromPosition. */
    method SetFromPosition(point: Point, grab: Point) returns (frame: Rect)
      requires Valid() && dragging && minAbs != maxAbs
      modifies this`curPosition, this`curValue, this`curAbs, this`handleAbs, this`norm
      ensures Valid()
      ensures curValue == LerpInt(InverseLerpClamped2D(Sub(point, grab), minAbs, maxAbs), minValue, maxValue)
      ensures minValue <= maxValue ==> minValue <= curValue <= maxValue
      ensures old(Placed()) ==> Placed()
      ensures frame == HandleFrame()
    {
      var t := InverseLerpClamped2D(Sub(point, grab), minAbs, maxAbs);
      frame := SetFromNorm(t);
    }

    /** IntSlider::Dragger::OnRelease: stop following the pointer and snap the
        handle to the position of the integer value. */
    method OnRelease() returns (frame: Rect)
      requires Valid()
      modifies this`dragging, this`curPosition, this`curAbs
      ensures Valid() && !dragging && curPosition == Snapped()
      ensures old(Placed()) ==> Placed()
      ensures frame == HandleFrame()
    {
      dragging := false;
      curPosition := MapRangeToPosition(curValue as real, minValue as real, maxValue as real, minPosition, maxPosition);
      curAbs := PositionGet(curPosition, ownShape);
      frame := Rect(curAbs, ownShape.size);
    }

    /** Grabbing the handle where it rests: its parameter is the value's norm. */
    method Grab()
      requires Valid()
      modifies this`dragging, this`norm
      ensures Valid() && dragging
      ensures old(dragging) ==> norm == old(norm)
    {
      if !dragging {
        norm := GetValueNorm();
        RoundOfInteger(curValue);
        assert LerpInt(norm, minValue, maxValue) == Round(curValue as real);
      }
      dragging := true;
    }

    /** IntSlider::Clicker::Notify, as for the FloatSlider, except that letting
        go after a grab snaps the handle to the value. */
    method Notify(eventButton: nat, released: bool, onHandle: bool, inArea: bool, click: Point)
      returns (moved: Option<Rect>)
      requires Valid()
      requires !released && !onHandle && clickWarp && inArea ==> minAbs != maxAbs
      modifies this`curPosition, this`curValue, this`curAbs, this`handleAbs, this`isClicked, this`dragging, this`norm
      ensures Valid()
      ensures eventButton != button ==>
                moved.None? && isClicked == old(isClicked) && dragging == old(dragging)
                && curValue == old(curValue) && curPosition == old(curPosition)
      ensures eventButton == button && released ==>
                !isClicked && curValue == old(curValue) && dragging == (old(dragging) && !old(isClicked))
                && (moved.Some? <==> old(isClicked))
                && (old(isClicked) ==> curPosition == Snapped())
      ensures eventButton == button && !released ==>
                isClicked == (onHandle || (clickWarp && inArea))
                && dragging == (old(dragging) || isClicked)
                && (moved.Some? <==> !onHandle && clickWarp && inArea)
      ensures eventButton == button && !released && moved.Some? ==>
                curValue == LerpInt(InverseLerpClamped2D(click, old(minAbs), old(maxAbs)), minValue, maxValue)
      ensures moved.Some? ==> moved.value == HandleFrame()
      ensures old(Placed()) ==> Placed()
    {
      if eventButton != button {
        return None;
      }
      if released {
        moved := Release();
      } else {
        moved := Press(onHandle, inArea, click);
      }
    }

    /** The release half of Clicker::Notify. */
    method Release() returns (moved: Option<Rect>)
      requires Valid()
      modifies this`curPosition, this`curAbs, this`isClicked, this`dragging
      ensures Valid() && !isClicked && curValue == old(curValue)
      ensures dragging == (old(dragging) && !old(isClicked))
      ensures moved.Some? <==> old(isClicked)
      ensures old(isClicked) ==> curPosition == Snapped()
      ensures !old(isClicked) ==> curPosition == old(curPosition)
      ensures moved.Some? ==> moved.value == HandleFrame()
      ensures old(Placed()) ==> Placed()
    {
      moved := None;
      if isClicked {
        isClicked := false;
        var frame := OnRelease();
        moved := Some(frame);
      }
    }

    /** The press half of Clicker::Notify. */
    method Press(onHandle: bool, inArea: bool, click: Point) returns (moved: Option<Rect>)
      requires Valid()
      requires !onHandle && clickWarp && inArea ==> minAbs != maxAbs
      modifies this`curPosition, this`curValue, this`curAbs, this`handleAbs, this`isClicked, this`dragging, this`norm
      ensures Valid()
      ensures isClicked == (onHandle || (clickWarp && inArea))
      ensures dragging == (old(dragging) || isClicked)
      ensures moved.Some? <==> !onHandle && clickWarp && inArea
      ensures moved.Some? ==>
                curValue == LerpInt(InverseLerpClamped2D(click, minAbs, maxAbs), minValue, maxValue)
                && moved.value == HandleFrame()
      ensures old(Placed()) ==> Placed()
    {
      moved := None;
      isClicked := onHandle;
      if isClicked {
        Grab();
      } else if clickWarp {
        isClicked := inArea;
        if !isClicked {
          return;
        }
        var t := InverseLerpClamped2D(click, minAbs, maxAbs);
        Grab();
        var frame := SetFromNorm(t);
        moved := Some(frame);
      }
    }

    /** IntSlider::Dragger::Notify. */
    method MouseMotion(point: Point, grab: Point) returns (moved: Option<Rect>)
      requires Valid() && (dragging ==> minAbs != maxAbs)
      modifies this`curPosition, this`curValue, this`curAbs, this`handleAbs, this`norm
      ensures Valid()
      ensures moved.Some? <==> dragging
      ensures dragging ==> curValue == LerpInt(InverseLerpClamped2D(Sub(point, grab), minAbs, maxAbs), minValue, maxValue)
                           && moved.value == HandleFrame()
      ensures !dragging ==> curValue == old(curValue) && curPosition == old(curPosition)
      ensures old(Placed()) ==> Placed()
    {
      moved := None;
      if dragging {
        var frame := SetFromPosition(point, grab);
        moved := Some(frame);
      }
    }
  }

  // ---------------------------------------------------------------------------
  // ContainerLimiter

  /** ContainerLimiter::SetParentShape as written: the test compares the
      PARENT's width with the minimum, while the correction uses the
      container's own width. */
  function LimitShapeAsWritten(shape: GUIRect, minSize: Point, growDirection: Point, parent: Rect): Rect
  {
    var own := RectGet(shape, parent);
    if parent.size.x < minSize.x then
      var diff := minSize.x - own.size.x;
      Rect(Point(own.pos.x + (growDirection.x - 1.0) * 0.5 * diff, own.pos.y), Point(minSize.x, own.size.y))
    else own
  }

  /** Half the parent's width against a minimum of 150 in a parent 200 wide:
      the container stays 100 wide. With an offset making it wider than the
      parent, a narrow parent makes the limiter shrink it to the minimum. */
  lemma LimitShapeAsWrittenMisses()
    ensures LimitShapeAsWritten(GUIRect(GUIPosition(Origin, Origin), GUISize(Point(0.5, 1.0), Origin)),
                                Point(150.0, 0.0), Origin, Rect(Origin, Point(200.0, 100.0))).size.x == 100.0
    ensures LimitShapeAsWritten(GUIRect(GUIPosition(Origin, Origin), GUISize(Unit, Point(100.0, 0.0))),
                                Point(150.0, 0.0), Origin, Rect(Origin, Point(100.0, 100.0))).size.x == 150.0
  {
  }

  /** The limiter applied to the container's own width: a container narrower
      than the minimum is widened to it, moving its left edge by
      (growDirection.x - 1) / 2 of the added width; any other is left alone. */
  function LimitShape(shape: GUIRect, minSize: Point, growDirection: Point, parent: Rect): (r: Rect)
    ensures minSize.x <= r.size.x
    ensures r.pos.y == RectGet(shape, parent).pos.y && r.size.y == RectGet(shape, parent).size.y
    ensures minSize.x <= RectGet(shape, parent).size.x ==> r == RectGet(shape, parent)
    ensures RectGet(shape, parent).size.x < minSize.x ==> r.size.x == minSize.x
  {
    var own := RectGet(shape, parent);
    if own.size.x < minSize.x then
      var diff := minSize.x - own.size.x;
      Rect(Point(own.pos.x + (growDirection.x - 1.0) * 0.5 * diff, own.pos.y), Point(minSize.x, own.size.y))
    else own
  }

  /** Grow direction 1 keeps the left edge, -1 the right edge, 0 the centre. */
  lemma LimitShapeGrowDirection(shape: GUIRect, minSize: Point, growDirection: Point, parent: Rect)
    ensures var own := RectGet(shape, parent); var r := LimitShape(shape, minSize, growDirection, parent);
      && (growDirection.x == 1.0 ==> r.pos.x == own.pos.x)
      && (growDirection.x == -1.0 ==> r.pos.x + r.size.x == own.pos.x + own.size.x)
      && (growDirection.x == 0.0 ==> 2.0 * r.pos.x + r.size.x == 2.0 * own.pos.x + own.size.x)
  {
  }

  /** Where the container is the parent's full width the two tests agree. */
  lemma LimitShapeAgreesAtFullWidth(pos: GUIPosition, height: Point, minSize: Point, growDirection: Point, parent: Rect)
    ensures LimitShape(GUIRect(pos, GUISize(Point(1.0, height.x), Point(0.0, height.y))), minSize, growDirection, parent)
         == LimitShapeAsWritten(GUIRect(pos, GUISize(Point(1.0, height.x), Point(0.0, height.y))), minSize, growDirection, parent)
  {
  }
}
