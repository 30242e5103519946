/** Parent-relative geometry: a position, a size and a rectangle expressed as an
    anchor (a fraction of the parent's size) plus a constant offset, evaluated
    against the parent's absolute rectangle. Coordinates are reals. */
module Geometry {

  /** A 2-D point or vector (SDL's FPoint). */
  datatype Point = Point(x: real, y: real)

  /** An axis-aligned rectangle: upper-left corner and size (SDL's FRect). */
  datatype Rect = Rect(pos: Point, size: Point)

  const Origin := Point(0.0, 0.0)
  const Unit := Point(1.0, 1.0)

  function Add(a: Point, b: Point): Point { Point(a.x + b.x, a.y + b.y) }
  function Sub(a: Point, b: Point): Point { Point(a.x - b.x, a.y - b.y) }
  /** Component-wise product, as `parent.size * anchor` uses it. */
  function Mul(a: Point, b: Point): Point { Point(a.x * b.x, a.y * b.y) }
  function Scale(a: Point, k: real): Point { Point(a.x * k, a.y * k) }
  function Div(a: Point, k: real): Point requires k != 0.0 { Point(a.x / k, a.y / k) }
  function Dot(a: Point, b: Point): real { a.x * b.x + a.y * b.y }

  // ---------------------------------------------------------------------------
  // GUIPosition: absolute = parent.pos + parent.size * anchor + offset

  datatype GUIPosition = GUIPosition(anchor: Point, offset: Point)

  function PositionGet(p: GUIPosition, parent: Rect): Point
  {
    Add(Add(parent.pos, Mul(parent.size, p.anchor)), p.offset)
  }

  function PositionAdd(p: GUIPosition, q: GUIPosition): GUIPosition
  {
    GUIPosition(Add(p.anchor, q.anchor), Add(p.offset, q.offset))
  }

  function PositionSub(p: GUIPosition, q: GUIPosition): GUIPosition
  {
    GUIPosition(Sub(p.anchor, q.anchor), Sub(p.offset, q.offset))
  }

  function PositionScale(p: GUIPosition, factor: real): GUIPosition
  {
    GUIPosition(Scale(p.anchor, factor), Scale(p.offset, factor))
  }

  function PositionDiv(p: GUIPosition, factor: real): GUIPosition
    requires factor != 0.0
  {
    GUIPosition(Div(p.anchor, factor), Div(p.offset, factor))
  }

  /* The compound operators update anchor and then offset of the left operand
     in place; the operand is a value, so the update is the returned value. */

  method PositionAddAssign(p: GUIPosition, other: GUIPosition) returns (r: GUIPosition)
    ensures r == PositionAdd(p, other)
  {
    r := p;
    r := r.(anchor := Add(r.anchor, other.anchor));
    r := r.(offset := Add(r.offset, other.offset));
  }

  method PositionSubAssign(p: GUIPosition, other: GUIPosition) returns (r: GUIPosition)
    ensures r == PositionSub(p, other)
  {
    r := p;
    r := r.(anchor := Sub(r.anchor, other.anchor));
    r := r.(offset := Sub(r.offset, other.offset));
  }

  method PositionScaleAssign(p: GUIPosition, factor: real) returns (r: GUIPosition)
    ensures r == PositionScale(p, factor)
  {
    r := p;
    r := r.(anchor := Scale(r.anchor, factor));
    r := r.(offset := Scale(r.offset, factor));
  }

  method PositionDivAssign(p: GUIPosition, factor: real) returns (r: GUIPosition)
    requires factor != 0.0
    ensures r == PositionDiv(p, factor)
  {
    r := p;
    r := r.(anchor := Div(r.anchor, factor));
    r := r.(offset := Div(r.offset, factor));
  }

  // ---------------------------------------------------------------------------
  // GUISize: absolute = parent.size * anchor + offset

  datatype GUISize = GUISize(anchor: Point, offset: Point)

  function SizeGet(s: GUISize, parent: Rect): Point
  {
    Add(Mul(parent.size, s.anchor), s.offset)
  }

  function SizeAdd(s: GUISize, q: GUISize): GUISize
  {
    GUISize(Add(s.anchor, q.anchor), Add(s.offset, q.offset))
  }

  function SizeSub(s: GUISize, q: GUISize): GUISize
  {
    GUISize(Sub(s.anchor, q.anchor), Sub(s.offset, q.offset))
  }

  function SizeScale(s: GUISize, factor: real): GUISize
  {
    GUISize(Scale(s.anchor, factor), Scale(s.offset, factor))
  }

  function SizeDiv(s: GUISize, factor: real): GUISize
    requires factor != 0.0
  {
    GUISize(Div(s.anchor, factor), Div(s.offset, factor))
  }

  method SizeAddAssign(s: GUISize, other: GUISize) returns (r: GUISize)
    ensures r == SizeAdd(s, other)
  {
    r := s;
    r := r.(anchor := Add(r.anchor, other.anchor));
    r := r.(offset := Add(r.offset, other.offset));
  }

  method SizeSubAssign(s: GUISize, other: GUISize) returns (r: GUISize)
    ensures r == SizeSub(s, other)
  {
    r := s;
    r := r.(anchor := Sub(r.anchor, other.anchor));
    r := r.(offset := Sub(r.offset, other.offset));
  }

  method SizeScaleAssign(s: GUISize, factor: real) returns (r: GUISize)
    ensures r == SizeScale(s, factor)
  {
    r := s;
    r := r.(anchor := Scale(r.anchor, factor));
    r := r.(offset := Scale(r.offset, factor));
  }

  method SizeDivAssign(s: GUISize, factor: real) returns (r: GUISize)
    requires factor != 0.0
    ensures r == SizeDiv(s, factor)
  {
    r := s;
    r := r.(anchor := Div(r.anchor, factor));
    r := r.(offset := Div(r.offset, factor));
  }

  // ---------------------------------------------------------------------------
  // GUIRect: a relative position and a relative size

  datatype GUIRect = GUIRect(position: GUIPosition, size: GUISize)

  function RectGet(r: GUIRect, parent: Rect): Rect
  {
    Rect(PositionGet(r.position, parent), SizeGet(r.size, parent))
  }

  function RectAddPosition(r: GUIRect, p: GUIPosition): GUIRect { GUIRect(PositionAdd(r.position, p), r.size) }
  function RectSubPosition(r: GUIRect, p: GUIPosition): GUIRect { GUIRect(PositionSub(r.position, p), r.size) }
  function RectAddSize(r: GUIRect, s: GUISize): GUIRect { GUIRect(r.position, SizeAdd(r.size, s)) }
  function RectSubSize(r: GUIRect, s: GUISize): GUIRect { GUIRect(r.position, SizeSub(r.size, s)) }

  method RectAddPositionAssign(r: GUIRect, p: GUIPosition) returns (q: GUIRect)
    ensures q == RectAddPosition(r, p)
  {
    q := r;
    var moved := PositionAddAssign(q.position, p);
    q := q.(position := moved);
  }

  method RectSubPositionAssign(r: GUIRect, p: GUIPosition) returns (q: GUIRect)
    ensures q == RectSubPosition(r, p)
  {
    q := r;
    var moved := PositionSubAssign(q.position, p);
    q := q.(position := moved);
  }

  method RectAddSizeAssign(r: GUIRect, s: GUISize) returns (q: GUIRect)
    ensures q == RectAddSize(r, s)
  {
    q := r;
    var grown := SizeAddAssign(q.size, s);
    q := q.(size := grown);
  }

  method RectSubSizeAssign(r: GUIRect, s: GUISize) returns (q: GUIRect)
    ensures q == RectSubSize(r, s)
  {
    q := r;
    var shrunk := SizeSubAssign(q.size, s);
    q := q.(size := shrunk);
  }

  // ---------------------------------------------------------------------------
  // Laws of evaluation

  /** Anchor (0,0) with no offset is the parent's corner; anchor (1,1) with no
      offset is the opposite corner. */
  lemma PositionGetCorners(parent: Rect)
    ensures PositionGet(GUIPosition(Origin, Origin), parent) == parent.pos
    ensures PositionGet(GUIPosition(Unit, Origin), parent) == Add(parent.pos, parent.size)
  {
  }

  /** A relative size does not depend on where the parent is. */
  lemma SizeGetIgnoresParentPos(s: GUISize, parent: Rect, elsewhere: Point)
    ensures SizeGet(s, Rect(elsewhere, parent.size)) == SizeGet(s, parent)
  {
  }

  /** Anchor (1,1) with no offset is the parent's full size. */
  lemma SizeGetFull(parent: Rect)
    ensures SizeGet(GUISize(Unit, Origin), parent) == parent.size
  {
  }

  /** Evaluating a GUIRect evaluates its two halves independently; the operators
      with a position move the rectangle without resizing it, and the operators
      with a size resize it without moving it. */
  lemma RectOperatorsAct(r: GUIRect, p: GUIPosition, s: GUISize, parent: Rect)
    ensures RectGet(RectAddPosition(r, p), parent).size == RectGet(r, parent).size
    ensures RectGet(RectAddPosition(r, p), parent).pos == Sub(Add(RectGet(r, parent).pos, PositionGet(p, parent)), parent.pos)
    ensures RectGet(RectAddSize(r, s), parent).pos == RectGet(r, parent).pos
    ensures RectGet(RectAddSize(r, s), parent).size == Add(RectGet(r, parent).size, SizeGet(s, parent))
  {
  }

  lemma ScalarAffine(base: real, scale: real, a0: real, b0: real, a1: real, b1: real, t: real)
    ensures base + scale * (a0 + (b0 - a0) * t) + (a1 + (b1 - a1) * t)
         == (base + scale * a0 + a1) + ((base + scale * b0 + b1) - (base + scale * a0 + a1)) * t
  {
    calc {
      base + scale * (a0 + (b0 - a0) * t) + (a1 + (b1 - a1) * t);
      base + scale * a0 + scale * ((b0 - a0) * t) + a1 + (b1 - a1) * t;
      { assert scale * ((b0 - a0) * t) == (scale * b0 - scale * a0) * t; }
      base + scale * a0 + a1 + ((scale * b0 + b1) - (scale * a0 + a1)) * t;
    }
  }

  /** Evaluation is affine in the (anchor, offset) pair: evaluating the blend
      a + (b - a) * t gives the same blend of the evaluated points. This is what
      lets a widget interpolate its relative and its absolute position in
      parallel. */
  lemma PositionGetAffine(a: GUIPosition, b: GUIPosition, t: real, parent: Rect)
    ensures PositionGet(PositionAdd(a, PositionScale(PositionSub(b, a), t)), parent)
         == Add(PositionGet(a, parent), Scale(Sub(PositionGet(b, parent), PositionGet(a, parent)), t))
  {
    ScalarAffine(parent.pos.x, parent.size.x, a.anchor.x, b.anchor.x, a.offset.x, b.offset.x, t);
    ScalarAffine(parent.pos.y, parent.size.y, a.anchor.y, b.anchor.y, a.offset.y, b.offset.y, t);
  }

  /** The same law for sizes. */
  lemma SizeGetAffine(a: GUISize, b: GUISize, t: real, parent: Rect)
    ensures SizeGet(SizeAdd(a, SizeScale(SizeSub(b, a), t)), parent)
         == Add(SizeGet(a, parent), Scale(Sub(SizeGet(b, parent), SizeGet(a, parent)), t))
  {
    ScalarAffine(0.0, parent.size.x, a.anchor.x, b.anchor.x, a.offset.x, b.offset.x, t);
    ScalarAffine(0.0, parent.size.y, a.anchor.y, b.anchor.y, a.offset.y, b.offset.y, t);
  }
}
