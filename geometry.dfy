/** Box, ellipse and tail arithmetic of a speech bubble, over exact reals. A bubble's box is its
    top-left corner and its size; a tail is either anchored on the box edge with an offset to the
    tip (most kinds), or, for the `speech-pro-5deg` kind, an apex and an aim point given
    relative to the box. */
module Geometry {
  import opened Options

  /** Margin between a bubble and its selection overlay (`CONTROL_PADDING`). */
  const ControlPadding: real := 28.0
  /** Smallest width or height a resize leaves (`MIN_BODY_SIZE`). */
  const MinBodySize: real := 80.0

  /** The bubble kinds the code tests for by name. */
  const SpeechPro5deg: string := "speech-pro-5deg"
  const SpeechLeft: string := "speech-left"
  const SpeechRight: string := "speech-right"
  const Thought: string := "thought"
  const ThoughtLeft: string := "thought-left"
  const ThoughtRight: string := "thought-right"
  const ThoughtCircle: string := "thought-circle"
  const ComboCircle: string := "combo-circle"
  const ShoutBurst: string := "shout-burst"
  const Rectangle: string := "rectangle"

  datatype Box = Box(x: real, y: real, width: real, height: real)
  datatype Point = Point(x: real, y: real)
  /** A point relative to a box: (0, 0) is its top-left corner and (1, 1) its bottom-right. */
  datatype NormPoint = NormPoint(nx: real, ny: real)
  datatype Ellipse = Ellipse(cx: real, cy: real, rx: real, ry: real)

  /** `Math.max` and `Math.min` of two numbers. */
  function Max(a: real, b: real): real { if a >= b then a else b }
  function Min(a: real, b: real): real { if a <= b then a else b }

  /** `clamp(value, min, max)`: the value pulled into [lo, hi] (lo when the interval is empty). */
  function Clamp(v: real, lo: real, hi: real): (r: real)
    ensures lo <= hi ==> lo <= r <= hi
    ensures lo <= v <= hi ==> r == v
    ensures v < lo ==> r == lo
    ensures lo <= hi < v ==> r == hi
  {
    Max(lo, Min(hi, v))
  }

  /** `normToAbs`: the absolute position of a box-relative point. */
  function NormToAbs(b: Box, p: NormPoint): Point
  {
    Point(b.x + b.width * p.nx, b.y + b.height * p.ny)
  }

  /** `absToNorm`: the box-relative position of an absolute point. */
  function AbsToNorm(b: Box, q: Point): NormPoint
    requires b.width != 0.0 && b.height != 0.0
  {
    NormPoint((q.x - b.x) / b.width, (q.y - b.y) / b.height)
  }

  /** The two conversions are inverse to each other on a box of non-zero size. */
  lemma NormAbsRoundTrip(b: Box, p: NormPoint)
    requires b.width != 0.0 && b.height != 0.0
    ensures AbsToNorm(b, NormToAbs(b, p)) == p
  {
    assert (b.width * p.nx) / b.width == p.nx;
    assert (b.height * p.ny) / b.height == p.ny;
  }

  lemma AbsNormRoundTrip(b: Box, q: Point)
    requires b.width != 0.0 && b.height != 0.0
    ensures NormToAbs(b, AbsToNorm(b, q)) == q
  {
    var p := AbsToNorm(b, q);
    assert b.width * p.nx == q.x - b.x;
    assert b.height * p.ny == q.y - b.y;
    assert NormToAbs(b, p).x == q.x && NormToAbs(b, p).y == q.y;
  }

  /** A relative point in the unit square lands inside the box. */
  lemma NormToAbsInside(b: Box, p: NormPoint)
    requires b.width >= 0.0 && b.height >= 0.0
    requires 0.0 <= p.nx <= 1.0 && 0.0 <= p.ny <= 1.0
    ensures var q := NormToAbs(b, p);
      b.x <= q.x <= b.x + b.width && b.y <= q.y <= b.y + b.height
  {
    ScaleWithin(p.nx, b.width);
    ScaleWithin(p.ny, b.height);
    var dx, dy := b.width * p.nx, b.height * p.ny;
    assert 0.0 <= dx <= b.width && 0.0 <= dy <= b.height;
    assert NormToAbs(b, p) == Point(b.x + dx, b.y + dy);
  }

  lemma ScaleWithin(f: real, size: real)
    requires 0.0 <= f <= 1.0 && size >= 0.0
    ensures 0.0 <= size * f <= size
  {
    var rest := size * (1.0 - f);
    assert size * f + rest == size;
    assert rest >= 0.0 && size * f >= 0.0;
  }

  /** `ellipseFromBubble`: the ellipse of an oval bubble, inset by half the stroke (at least 1)
      and never with a radius below 8. */
  function EllipseFromBubble(b: Box, strokeWidth: real): (e: Ellipse)
    ensures e.rx >= 8.0 && e.ry >= 8.0
    ensures e.cx == b.x + b.width / 2.0 && e.cy == b.y + b.height / 2.0
    ensures var inset := Max(1.0, strokeWidth * 0.5);
      (b.width / 2.0 - inset >= 8.0 ==> e.cx - e.rx == b.x + inset && e.cx + e.rx == b.x + b.width - inset) &&
      (b.height / 2.0 - inset >= 8.0 ==> e.cy - e.ry == b.y + inset && e.cy + e.ry == b.y + b.height - inset)
  {
    var inset := Max(1.0, strokeWidth * 0.5);
    Ellipse(b.x + b.width / 2.0, b.y + b.height / 2.0,
            Max(8.0, b.width / 2.0 - inset), Max(8.0, b.height / 2.0 - inset))
  }

  /** `pro5_ellipseFromBubble`: the ellipse inscribed in the box, radii at least 1. */
  function InscribedEllipse(b: Box): (e: Ellipse)
    ensures e.rx >= 1.0 && e.ry >= 1.0
    ensures e.cx == b.x + b.width / 2.0 && e.cy == b.y + b.height / 2.0
    ensures b.width >= 2.0 ==> e.cx - e.rx == b.x && e.cx + e.rx == b.x + b.width
    ensures b.height >= 2.0 ==> e.cy - e.ry == b.y && e.cy + e.ry == b.y + b.height
  {
    Ellipse(b.x + b.width / 2.0, b.y + b.height / 2.0, Max(1.0, b.width / 2.0), Max(1.0, b.height / 2.0))
  }

  /** `pro5_ellipseF`: the implicit function of an ellipse, negative inside, zero on the curve,
      positive outside. */
  function EllipseF(e: Ellipse, x: real, y: real): real
    requires e.rx > 0.0 && e.ry > 0.0
  {
    var dx := (x - e.cx) / e.rx;
    var dy := (y - e.cy) / e.ry;
    dx * dx + dy * dy - 1.0
  }

  /** The centre gives -1, which is the least value; the four axis ends lie on the curve. */
  lemma EllipseFShape(e: Ellipse, x: real, y: real)
    requires e.rx > 0.0 && e.ry > 0.0
    ensures EllipseF(e, e.cx, e.cy) == -1.0
    ensures EllipseF(e, x, y) >= -1.0
    ensures EllipseF(e, e.cx + e.rx, e.cy) == 0.0 && EllipseF(e, e.cx - e.rx, e.cy) == 0.0
    ensures EllipseF(e, e.cx, e.cy + e.ry) == 0.0 && EllipseF(e, e.cx, e.cy - e.ry) == 0.0
  {
    var dx := (x - e.cx) / e.rx;
    var dy := (y - e.cy) / e.ry;
    assert dx * dx >= 0.0 && dy * dy >= 0.0;
    assert (e.cx + e.rx - e.cx) / e.rx == 1.0;
    assert (e.cx - e.rx - e.cx) / e.rx == -1.0;
    assert (e.cy + e.ry - e.cy) / e.ry == 1.0;
    assert (e.cy - e.ry - e.cy) / e.ry == -1.0;
  }

  /** Point reflection through the centre does not change the value. */
  lemma EllipseFSymmetric(e: Ellipse, x: real, y: real)
    requires e.rx > 0.0 && e.ry > 0.0
    ensures EllipseF(e, 2.0 * e.cx - x, 2.0 * e.cy - y) == EllipseF(e, x, y)
  {
    assert (2.0 * e.cx - x - e.cx) / e.rx == -((x - e.cx) / e.rx);
    assert (2.0 * e.cy - y - e.cy) / e.ry == -((y - e.cy) / e.ry);
  }

  lemma MulMono(a: real, c: real, k: real)
    requires a <= c && k >= 0.0
    ensures a * k <= c * k
  {
  }

  /** The tail of a bubble. `AnchorTail` is fixed to the box edge at `anchor` (relative to the
      box) with the tip `offset` away (in box widths and heights); `AngleTail` is the fixed-angle
      tail of `speech-pro-5deg`, whose tip `apex` and aim point `aim` are relative to the box. */
  datatype Tail =
    | AnchorTail(anchor: NormPoint, offset: NormPoint)
    | AngleTail(angleDeg: real, apex: NormPoint, aim: NormPoint)

  /** Which tails a bubble of each kind carries: an angle tail exactly on `speech-pro-5deg`. */
  predicate TailFits(kind: string, tail: Option<Tail>)
  {
    tail.Some? ==> (tail.value.AngleTail? <==> kind == SpeechPro5deg)
  }

  /** An anchor on the border of the unit square. */
  predicate OnEdge(p: NormPoint)
  {
    0.0 <= p.nx <= 1.0 && 0.0 <= p.ny <= 1.0 &&
    (p.nx == 0.0 || p.nx == 1.0 || p.ny == 0.0 || p.ny == 1.0)
  }

  /** `createDefaultTail` (with `createDefaultTailPro5` and the thought-circle default): no tail
      for combo and shout bubbles or kinds outside the speech and thought families; otherwise a
      kind-specific tail anchored on the box edge, or the fixed-angle tail. */
  function DefaultTail(kind: string): (r: Option<Tail>)
    ensures TailFits(kind, r)
    ensures r.Some? <==> "speech" <= kind || "thought" <= kind
    ensures r.Some? && r.value.AnchorTail? ==> OnEdge(r.value.anchor)
    ensures kind == SpeechPro5deg ==> r == Some(AngleTail(15.0, NormPoint(0.37, 1.35), NormPoint(0.33, 0.95)))
  {
    if kind == ComboCircle then
      assert !("speech" <= kind) by { assert kind[0] != "speech"[0]; }
      assert !("thought" <= kind) by { assert kind[0] != "thought"[0]; }
      None
    else if kind == ShoutBurst then
      assert !("speech" <= kind) by { assert kind[1] != "speech"[1]; }
      assert !("thought" <= kind) by { assert kind[0] != "thought"[0]; }
      None
    else if kind == SpeechPro5deg then Some(AngleTail(15.0, NormPoint(0.37, 1.35), NormPoint(0.33, 0.95)))
    else if kind == SpeechLeft then Some(AnchorTail(NormPoint(0.0, 0.15), NormPoint(-0.45, 0.2)))
    else if kind == SpeechRight then Some(AnchorTail(NormPoint(1.0, 0.15), NormPoint(0.45, 0.2)))
    else if kind == Thought then Some(AnchorTail(NormPoint(0.5, 1.0), NormPoint(0.0, 0.55)))
    else if kind == ThoughtLeft then Some(AnchorTail(NormPoint(0.15, 1.0), NormPoint(-0.55, 0.35)))
    else if kind == ThoughtRight then Some(AnchorTail(NormPoint(0.85, 1.0), NormPoint(0.55, 0.35)))
    else if kind == ThoughtCircle then Some(AnchorTail(NormPoint(0.62, 1.0), NormPoint(0.12, 0.35)))
    else if "speech" <= kind || "thought" <= kind then Some(AnchorTail(NormPoint(0.5, 1.0), NormPoint(0.0, 0.45)))
    else None
  }

  /** `getTailBase`: where the tail leaves the body. */
  function TailBase(kind: string, b: Box, tail: Option<Tail>): (r: Option<Point>)
    requires TailFits(kind, tail)
    ensures r.Some? <==> tail.Some?
    ensures tail.Some? && tail.value.AnchorTail? && OnEdge(tail.value.anchor) && b.width >= 0.0 && b.height >= 0.0 ==>
      b.x <= r.value.x <= b.x + b.width && b.y <= r.value.y <= b.y + b.height
  {
    match tail
    case None => None
    case Some(t) =>
      if kind == SpeechPro5deg && t.AngleTail? then Some(NormToAbs(b, t.aim))
      else
        var p := Point(b.x + b.width * t.anchor.nx, b.y + b.height * t.anchor.ny);
        assert t.AnchorTail? && OnEdge(t.anchor) && b.width >= 0.0 && b.height >= 0.0 ==>
          b.x <= p.x <= b.x + b.width && b.y <= p.y <= b.y + b.height by {
          if t.AnchorTail? && OnEdge(t.anchor) && b.width >= 0.0 && b.height >= 0.0 {
            NormToAbsInside(b, t.anchor);
          }
        }
        Some(p)
  }

  /** `getTailTip`: the tip of the tail. */
  function TailTip(kind: string, b: Box, tail: Option<Tail>): (r: Option<Point>)
    requires TailFits(kind, tail)
    ensures r.Some? <==> tail.Some?
  {
    match tail
    case None => None
    case Some(t) =>
      if kind == SpeechPro5deg && t.AngleTail? then Some(NormToAbs(b, t.apex))
      else
        var base := TailBase(kind, b, tail).value;
        Some(Point(base.x + b.width * t.offset.nx, base.y + b.height * t.offset.ny))
  }

  /** `setTailTip`: the tail after its tip is dragged to (x, y). A fixed-angle tail moves its
      apex. Any other tail moves its anchor to the box side facing the point (SnapAnchor) and
      then points its offset at (x, y) (AimedTail). */
  function RetargetTail(kind: string, b: Box, tail: Option<Tail>, x: real, y: real): (r: Option<Tail>)
    requires TailFits(kind, tail)
    requires b.width != 0.0 && b.height != 0.0
    ensures TailFits(kind, r)
    ensures r.Some? <==> tail.Some?
  {
    match tail
    case None => None
    case Some(t) =>
      if kind == SpeechPro5deg then
        Some(t.(apex := AbsToNorm(b, Point(x, y))))
      else
        Some(AimedTail(b, SnapAnchor(b, x, y), x, y))
  }

  /** The anchor `setTailTip` picks for the point (x, y): left or right side when the point is
      further off horizontally than vertically, else top or bottom, at the point's relative
      position along that side kept within [0.15, 0.85]. */
  function SnapAnchor(b: Box, x: real, y: real): NormPoint
    requires b.width != 0.0 && b.height != 0.0
  {
    var dx := x - (b.x + b.width / 2.0);
    var dy := y - (b.y + b.height / 2.0);
    if Abs(dx) > Abs(dy) then
      NormPoint(if dx < 0.0 then 0.0 else 1.0, Clamp((y - b.y) / b.height, 0.15, 0.85))
    else
      NormPoint(Clamp((x - b.x) / b.width, 0.15, 0.85), if dy < 0.0 then 0.0 else 1.0)
  }

  /** The anchored tail whose offset points from the anchor's base on the box to (x, y). */
  function AimedTail(b: Box, anchor: NormPoint, x: real, y: real): Tail
    requires b.width != 0.0 && b.height != 0.0
  {
    var base := Point(b.x + b.width * anchor.nx, b.y + b.height * anchor.ny);
    AnchorTail(anchor, NormPoint((x - base.x) / b.width, (y - base.y) / b.height))
  }

  function Abs(v: real): real { if v < 0.0 then -v else v }

  /** Dragging the tip to a point puts the tip exactly there. */
  lemma RetargetTailTip(kind: string, b: Box, tail: Option<Tail>, x: real, y: real)
    requires TailFits(kind, tail) && tail.Some?
    requires b.width != 0.0 && b.height != 0.0
    ensures TailTip(kind, b, RetargetTail(kind, b, tail, x, y)) == Some(Point(x, y))
  {
    var r := RetargetTail(kind, b, tail, x, y);
    if kind == SpeechPro5deg {
      var apex := AbsToNorm(b, Point(x, y));
      assert r == Some(tail.value.(apex := apex));
      AbsNormRoundTrip(b, Point(x, y));
      assert TailTip(kind, b, r) == Some(NormToAbs(b, apex));
    } else {
      var anchor := SnapAnchor(b, x, y);
      assert r == Some(AimedTail(b, anchor, x, y));
      AnchoredTip(kind, b, anchor, x, y);
    }
  }

  /** An anchored tail whose offset points from its base at (x, y) has its tip at (x, y). */
  lemma AnchoredTip(kind: string, b: Box, anchor: NormPoint, x: real, y: real)
    requires kind != SpeechPro5deg && b.width != 0.0 && b.height != 0.0
    ensures TailTip(kind, b, Some(AimedTail(b, anchor, x, y))) == Some(Point(x, y))
  {
    var base := Point(b.x + b.width * anchor.nx, b.y + b.height * anchor.ny);
    var t := AnchorTail(anchor, NormPoint((x - base.x) / b.width, (y - base.y) / b.height));
    assert t == AimedTail(b, anchor, x, y);
    assert TailFits(kind, Some(t));
    var tb := TailBase(kind, b, Some(t));
    assert tb.value == base;
    assert b.width * t.offset.nx == x - base.x;
    assert b.height * t.offset.ny == y - base.y;
    var tip := TailTip(kind, b, Some(t)).value;
    assert tip.x == base.x + b.width * t.offset.nx;
    assert tip.y == base.y + b.height * t.offset.ny;
  }

  /** Dragging an anchored tail snaps the anchor to the side facing the point, kept away from
      the corners; a fixed-angle tail keeps its angle and aim. */
  lemma RetargetTailAnchor(kind: string, b: Box, tail: Option<Tail>, x: real, y: real)
    requires TailFits(kind, tail) && tail.Some?
    requires b.width != 0.0 && b.height != 0.0
    ensures var t := RetargetTail(kind, b, tail, x, y).value;
      var dx := x - (b.x + b.width / 2.0);
      var dy := y - (b.y + b.height / 2.0);
      if kind == SpeechPro5deg then
        t.angleDeg == tail.value.angleDeg && t.aim == tail.value.aim
      else if Abs(dx) > Abs(dy) then
        t.anchor.nx == (if dx < 0.0 then 0.0 else 1.0) && 0.15 <= t.anchor.ny <= 0.85
      else
        t.anchor.ny == (if dy < 0.0 then 0.0 else 1.0) && 0.15 <= t.anchor.nx <= 0.85
  {
  }

  /** A resize handle: one of the four sides or four corners of the selection overlay. */
  datatype Direction = N | S | E | W | NE | NW | SE | SW

  /** `direction.includes('n')` and so on. */
  predicate HasN(d: Direction) { d == N || d == NE || d == NW }
  predicate HasS(d: Direction) { d == S || d == SE || d == SW }
  predicate HasE(d: Direction) { d == E || d == NE || d == SE }
  predicate HasW(d: Direction) { d == W || d == NW || d == SW }

  /** `applyResize` on the box: the box at the start of the drag, resized by the drag delta
      (dx, dy) through the given handle; a moved side never brings the size below
      `MIN_BODY_SIZE` (`clamp(v, MIN_BODY_SIZE, Infinity)`, which is `Max`). Only the sides of
      the handle move: the opposite side stays put, the moved side follows the drag until the
      size would drop below the minimum, and an axis the handle does not touch keeps the start
      box's position and size. */
  function ResizedBox(start: Box, d: Direction, dx: real, dy: real): (r: Box)
    ensures HasN(d) ==> r.y + r.height == start.y + start.height && r.height == Max(MinBodySize, start.height - dy)
    ensures HasS(d) ==> r.y == start.y && r.height == Max(MinBodySize, start.height + dy)
    ensures !HasN(d) && !HasS(d) ==> r.y == start.y && r.height == start.height
    ensures HasW(d) ==> r.x + r.width == start.x + start.width && r.width == Max(MinBodySize, start.width - dx)
    ensures HasE(d) ==> r.x == start.x && r.width == Max(MinBodySize, start.width + dx)
    ensures !HasW(d) && !HasE(d) ==> r.x == start.x && r.width == start.width
  {
    var b1 := if HasN(d) then
        var h := Max(MinBodySize, start.height - dy);
        start.(y := start.y - (h - start.height), height := h)
      else start;
    var b2 := if HasS(d) then b1.(height := Max(MinBodySize, b1.height + dy)) else b1;
    var b3 := if HasW(d) then
        var w := Max(MinBodySize, b2.width - dx);
        b2.(x := b2.x - (w - b2.width), width := w)
      else b2;
    if HasE(d) then b3.(width := Max(MinBodySize, b3.width + dx)) else b3
  }

  /** A resize from a box at least `MIN_BODY_SIZE` in each direction keeps it so. */
  lemma ResizeKeepsMinimum(start: Box, d: Direction, dx: real, dy: real)
    requires start.width >= MinBodySize && start.height >= MinBodySize
    ensures var r := ResizedBox(start, d, dx, dy);
      r.width >= MinBodySize && r.height >= MinBodySize
  {
  }

  /** `computeHandlePosition`: where a handle sits on the box grown by `CONTROL_PADDING`. */
  function HandlePosition(b: Box, d: Direction): (p: Point)
    ensures p.x == (if HasW(d) then b.x - ControlPadding
                    else if HasE(d) then b.x + b.width + ControlPadding
                    else b.x + b.width / 2.0)
    ensures p.y == (if HasN(d) then b.y - ControlPadding
                    else if HasS(d) then b.y + b.height + ControlPadding
                    else b.y + b.height / 2.0)
  {
    var left := b.x - ControlPadding;
    var right := b.x + b.width + ControlPadding;
    var top := b.y - ControlPadding;
    var bottom := b.y + b.height + ControlPadding;
    var centerX := b.x + b.width / 2.0;
    var centerY := b.y + b.height / 2.0;
    var p0 := Point(centerX, centerY);
    var p1 := if HasN(d) then p0.(y := top) else p0;
    var p2 := if HasS(d) then p1.(y := bottom) else p1;
    var p3 := if HasW(d) then p2.(x := left) else p2;
    var p4 := if HasE(d) then p3.(x := right) else p3;
    var p5 := if d == N || d == S then p4.(x := centerX) else p4;
    var p6 := if d == E || d == W then p5.(y := centerY) else p5;
    var p7 := if d == NW then Point(left, top) else p6;
    var p8 := if d == NE then Point(right, top) else p7;
    var p9 := if d == SE then Point(right, bottom) else p8;
    if d == SW then Point(left, bottom) else p9
  }

  /** `getOverlayRect`: the smallest box holding the body and the tail tip, grown by
      `CONTROL_PADDING` on every side. */
  function OverlayRect(kind: string, b: Box, tail: Option<Tail>): (r: Box)
    requires TailFits(kind, tail)
    requires b.width >= 0.0 && b.height >= 0.0
    ensures r.x <= b.x - ControlPadding && r.y <= b.y - ControlPadding
    ensures r.x + r.width >= b.x + b.width + ControlPadding && r.y + r.height >= b.y + b.height + ControlPadding
    ensures var tip := TailTip(kind, b, tail);
      tip.Some? ==> r.x <= tip.value.x - ControlPadding && tip.value.x + ControlPadding <= r.x + r.width &&
                    r.y <= tip.value.y - ControlPadding && tip.value.y + ControlPadding <= r.y + r.height
    ensures var tip := TailTip(kind, b, tail);
      (r.x == b.x - ControlPadding || (tip.Some? && r.x == tip.value.x - ControlPadding)) &&
      (r.y == b.y - ControlPadding || (tip.Some? && r.y == tip.value.y - ControlPadding)) &&
      (r.x + r.width == b.x + b.width + ControlPadding || (tip.Some? && r.x + r.width == tip.value.x + ControlPadding)) &&
      (r.y + r.height == b.y + b.height + ControlPadding || (tip.Some? && r.y + r.height == tip.value.y + ControlPadding))
  {
    var tip := TailTip(kind, b, tail);
    var minX := if tip.Some? then Min(b.x, tip.value.x) else b.x;
    var maxX := if tip.Some? then Max(b.x + b.width, tip.value.x) else b.x + b.width;
    var minY := if tip.Some? then Min(b.y, tip.value.y) else b.y;
    var maxY := if tip.Some? then Max(b.y + b.height, tip.value.y) else b.y + b.height;
    Box(minX - ControlPadding, minY - ControlPadding,
        maxX - minX + ControlPadding * 2.0, maxY - minY + ControlPadding * 2.0)
  }

  /** `createRoundedRectPath`: the corner radius actually drawn, never more than asked for nor
      more than half the width or height, so the straight edges never have negative length. */
  function CornerRadius(width: real, height: real, radius: real): (r: real)
    ensures r <= radius && 2.0 * r <= width && 2.0 * r <= height
    ensures r == radius || 2.0 * r == width || 2.0 * r == height
  {
    Min(radius, Min(width / 2.0, height / 2.0))
  }

  /** The 43 outline points of the shout burst, in the drawing's own coordinates. */
  const ShoutPoints: seq<Point> := [
    Point(300.00, 70.00), Point(314.88, 136.98), Point(351.25, 58.75), Point(341.33, 150.22), Point(385.50, 101.91),
    Point(370.96, 165.43), Point(444.78, 128.51), Point(391.45, 197.20), Point(494.52, 179.20), Point(408.95, 225.85),
    Point(461.38, 235.88), Point(407.90, 254.71), Point(491.45, 283.76), Point(398.71, 283.99), Point(490.72, 351.41),
    Point(387.78, 314.95), Point(420.92, 370.92), Point(363.53, 335.85), Point(392.96, 424.82), Point(334.38, 349.85),
    Point(331.26, 427.27), Point(304.82, 360.29), Point(281.96, 456.21), Point(277.40, 351.93), Point(243.36, 405.61),
    Point(247.64, 344.46), Point(175.88, 408.86), Point(225.14, 321.04), Point(145.18, 358.41), Point(203.14, 300.42),
    Point(139.31, 308.49), Point(195.16, 270.38), Point(87.73, 257.41), Point(195.08, 238.05), Point(126.13, 203.41),
    Point(198.76, 205.98), Point(135.14, 146.98), Point(221.21, 181.51), Point(192.40, 121.76), Point(244.38, 157.43),
    Point(224.48, 63.08), Point(279.62, 145.16), Point(300.00, 70.00)
  ]

  /** The bounding box of a list of points, as its extreme coordinates. */
  datatype Bounds = Bounds(minX: real, minY: real, maxX: real, maxY: real)

  predicate IsBounds(pts: seq<Point>, bd: Bounds)
  {
    (forall i :: 0 <= i < |pts| ==> bd.minX <= pts[i].x <= bd.maxX && bd.minY <= pts[i].y <= bd.maxY) &&
    (exists i :: 0 <= i < |pts| && pts[i].x == bd.minX) && (exists i :: 0 <= i < |pts| && pts[i].x == bd.maxX) &&
    (exists i :: 0 <= i < |pts| && pts[i].y == bd.minY) && (exists i :: 0 <= i < |pts| && pts[i].y == bd.maxY)
  }

  /** The min/max scan of `pro5_createShoutPath`. The source starts from +/-Infinity; starting
      from the first point gives the same result on a non-empty list. */
  method ScanBounds(pts: seq<Point>) returns (bd: Bounds)
    requires |pts| > 0
    ensures IsBounds(pts, bd)
  {
    var minX, minY, maxX, maxY := pts[0].x, pts[0].y, pts[0].x, pts[0].y;
    ghost var iMinX, iMinY, iMaxX, iMaxY := 0, 0, 0, 0;
    for i := 0 to |pts|
      invariant 0 <= iMinX < |pts| && pts[iMinX].x == minX
      invariant 0 <= iMinY < |pts| && pts[iMinY].y == minY
      invariant 0 <= iMaxX < |pts| && pts[iMaxX].x == maxX
      invariant 0 <= iMaxY < |pts| && pts[iMaxY].y == maxY
      invariant forall k :: 0 <= k < i ==> minX <= pts[k].x <= maxX && minY <= pts[k].y <= maxY
      invariant minX <= pts[0].x <= maxX && minY <= pts[0].y <= maxY
    {
      var p := pts[i];
      if p.x < minX { minX := p.x; iMinX := i; }
      if p.y < minY { minY := p.y; iMinY := i; }
      if p.x > maxX { maxX := p.x; iMaxX := i; }
      if p.y > maxY { maxY := p.y; iMaxY := i; }
    }
    bd := Bounds(minX, minY, maxX, maxY);
  }

  /** One coordinate of the fit: `o + v * s` with `s = size / (hi - lo || 1)` and
      `o = start - lo * s`. */
  function FitCoord(v: real, lo: real, hi: real, start: real, size: real): real
  {
    var extent := if hi - lo == 0.0 then 1.0 else hi - lo;
    var scale := size / extent;
    (start - lo * scale) + v * scale
  }

  /** The fit maps [lo, hi] onto [start, start + size], keeping the order of the points. */
  lemma FitCoordWithin(v: real, w: real, lo: real, hi: real, start: real, size: real)
    requires lo < hi && lo <= v <= hi && lo <= w <= hi && size >= 0.0
    ensures start <= FitCoord(v, lo, hi, start, size) <= start + size
    ensures FitCoord(lo, lo, hi, start, size) == start && FitCoord(hi, lo, hi, start, size) == start + size
    ensures v <= w ==> FitCoord(v, lo, hi, start, size) <= FitCoord(w, lo, hi, start, size)
  {
    var scale := size / (hi - lo);
    assert scale >= 0.0;
    assert FitCoord(v, lo, hi, start, size) == start + (v - lo) * scale;
    assert FitCoord(w, lo, hi, start, size) == start + (w - lo) * scale;
    assert (hi - lo) * scale == size;
    MulMono(v - lo, hi - lo, scale);
    MulMono(0.0, v - lo, scale);
    if v <= w {
      MulMono(v - lo, w - lo, scale);
    }
  }

  /** Fitting a single coordinate value to a box side of size `size`: with no extent the
      source divides by 1 instead, which puts every point on the starting side. */
  lemma FitCoordFlat(v: real, start: real, size: real)
    ensures FitCoord(v, v, v, start, size) == start
  {
  }

  /** The affine relation behind the fit, stated without the division: on an axis with extent
      the distance from the start side is the distance from `lo` scaled by size / (hi - lo); on
      a flat axis every point lands on the start side. */
  predicate AxisFit(v: real, lo: real, hi: real, start: real, size: real, r: real)
  {
    if lo < hi then (r - start) * (hi - lo) == (v - lo) * size else r == start
  }

  /** Every outline point is its source point under the affine map that sends the bounds of
      the source points onto the box. */
  predicate AffineFit(pts: seq<Point>, bd: Bounds, b: Box, outline: seq<Point>)
  {
    |outline| == |pts| &&
    forall i :: 0 <= i < |pts| ==>
      AxisFit(pts[i].x, bd.minX, bd.maxX, b.x, b.width, outline[i].x) &&
      AxisFit(pts[i].y, bd.minY, bd.maxY, b.y, b.height, outline[i].y)
  }

  /** `FitCoord` is that affine map, for any value between the bounds. */
  lemma FitCoordAffine(v: real, lo: real, hi: real, start: real, size: real)
    requires lo <= v <= hi
    ensures AxisFit(v, lo, hi, start, size, FitCoord(v, lo, hi, start, size))
  {
    if lo < hi {
      var scale := size / (hi - lo);
      assert FitCoord(v, lo, hi, start, size) - start == (v - lo) * scale;
      assert (hi - lo) * scale == size;
      assert (v - lo) * scale * (hi - lo) == (v - lo) * ((hi - lo) * scale);
    } else {
      FitCoordFlat(v, start, size);
    }
  }

  /** The affine relation fixes an outline point once the bounds are fixed. */
  lemma AxisFitUnique(v: real, lo: real, hi: real, start: real, size: real, r: real, r': real)
    requires AxisFit(v, lo, hi, start, size, r) && AxisFit(v, lo, hi, start, size, r')
    ensures r == r'
  {
    if lo < hi {
      assert (r - r') * (hi - lo) == 0.0;
    }
  }

  /** The bounds of a point list are unique, so together with `AffineFit` they fix the whole
      outline: two outlines fitted from the same points to the same box are equal. */
  lemma FitDetermined(pts: seq<Point>, bd: Bounds, bd': Bounds, b: Box, outline: seq<Point>, outline': seq<Point>)
    requires IsBounds(pts, bd) && AffineFit(pts, bd, b, outline)
    requires IsBounds(pts, bd') && AffineFit(pts, bd', b, outline')
    ensures bd == bd' && outline == outline'
  {
    var i1 :| 0 <= i1 < |pts| && pts[i1].x == bd.minX;
    var i2 :| 0 <= i2 < |pts| && pts[i2].x == bd'.minX;
    var i3 :| 0 <= i3 < |pts| && pts[i3].y == bd.minY;
    var i4 :| 0 <= i4 < |pts| && pts[i4].y == bd'.minY;
    var i5 :| 0 <= i5 < |pts| && pts[i5].x == bd.maxX;
    var i6 :| 0 <= i6 < |pts| && pts[i6].x == bd'.maxX;
    var i7 :| 0 <= i7 < |pts| && pts[i7].y == bd.maxY;
    var i8 :| 0 <= i8 < |pts| && pts[i8].y == bd'.maxY;
    assert bd == bd';
    forall i | 0 <= i < |pts|
      ensures outline[i] == outline'[i]
    {
      AxisFitUnique(pts[i].x, bd.minX, bd.maxX, b.x, b.width, outline[i].x, outline'[i].x);
      AxisFitUnique(pts[i].y, bd.minY, bd.maxY, b.y, b.height, outline[i].y, outline'[i].y);
    }
  }

  /** The fitting loops of `pro5_createShoutPath`, for any non-empty point list: each outline
      point is its source point under the affine map that sends the bounds of the points onto
      the box (which fixes the outline, by `FitDetermined`); so the outline stays inside the box,
      keeps the left-to-right and top-to-bottom order of the points, and touches both sides of
      the box in each direction where the points have any extent. */
  method FitOutline(pts: seq<Point>, b: Box) returns (outline: seq<Point>)
    requires |pts| > 0 && b.width >= 0.0 && b.height >= 0.0
    ensures |outline| == |pts|
    ensures exists bd :: IsBounds(pts, bd) && AffineFit(pts, bd, b, outline)
    ensures forall i :: 0 <= i < |outline| ==>
      b.x <= outline[i].x <= b.x + b.width && b.y <= outline[i].y <= b.y + b.height
    ensures forall i, j :: 0 <= i < |outline| && 0 <= j < |outline| ==>
      (pts[i].x <= pts[j].x ==> outline[i].x <= outline[j].x) &&
      (pts[i].y <= pts[j].y ==> outline[i].y <= outline[j].y)
    ensures (exists i, j :: 0 <= i < |pts| && 0 <= j < |pts| && pts[i].x != pts[j].x) ==>
      (exists i :: 0 <= i < |outline| && outline[i].x == b.x) &&
      (exists i :: 0 <= i < |outline| && outline[i].x == b.x + b.width)
    ensures (exists i, j :: 0 <= i < |pts| && 0 <= j < |pts| && pts[i].y != pts[j].y) ==>
      (exists i :: 0 <= i < |outline| && outline[i].y == b.y) &&
      (exists i :: 0 <= i < |outline| && outline[i].y == b.y + b.height)
  {
    var bd := ScanBounds(pts);
    outline := [];
    for i := 0 to |pts|
      invariant |outline| == i
      invariant forall k :: 0 <= k < i ==>
        outline[k] == Point(FitCoord(pts[k].x, bd.minX, bd.maxX, b.x, b.width),
                            FitCoord(pts[k].y, bd.minY, bd.maxY, b.y, b.height))
    {
      var p := pts[i];
      outline := outline + [Point(FitCoord(p.x, bd.minX, bd.maxX, b.x, b.width),
                                  FitCoord(p.y, bd.minY, bd.maxY, b.y, b.height))];
    }
    FitAxes(pts, bd, b, outline);
    assert IsBounds(pts, bd) && AffineFit(pts, bd, b, outline);
  }

  predicate Fitted(pts: seq<Point>, bd: Bounds, b: Box, outline: seq<Point>)
  {
    |outline| == |pts| &&
    forall k :: 0 <= k < |pts| ==>
      outline[k] == Point(FitCoord(pts[k].x, bd.minX, bd.maxX, b.x, b.width),
                          FitCoord(pts[k].y, bd.minY, bd.maxY, b.y, b.height))
  }

  lemma FitAxes(pts: seq<Point>, bd: Bounds, b: Box, outline: seq<Point>)
    requires IsBounds(pts, bd) && b.width >= 0.0 && b.height >= 0.0
    requires Fitted(pts, bd, b, outline)
    ensures AffineFit(pts, bd, b, outline)
    ensures forall i :: 0 <= i < |outline| ==>
      b.x <= outline[i].x <= b.x + b.width && b.y <= outline[i].y <= b.y + b.height
    ensures forall i, j :: 0 <= i < |outline| && 0 <= j < |outline| ==>
      (pts[i].x <= pts[j].x ==> outline[i].x <= outline[j].x) &&
      (pts[i].y <= pts[j].y ==> outline[i].y <= outline[j].y)
    ensures (exists i, j :: 0 <= i < |pts| && 0 <= j < |pts| && pts[i].x != pts[j].x) ==>
      (exists i :: 0 <= i < |outline| && outline[i].x == b.x) &&
      (exists i :: 0 <= i < |outline| && outline[i].x == b.x + b.width)
    ensures (exists i, j :: 0 <= i < |pts| && 0 <= j < |pts| && pts[i].y != pts[j].y) ==>
      (exists i :: 0 <= i < |outline| && outline[i].y == b.y) &&
      (exists i :: 0 <= i < |outline| && outline[i].y == b.y + b.height)
  {
    forall i, j | 0 <= i < |outline| && 0 <= j < |outline|
      ensures b.x <= outline[i].x <= b.x + b.width && b.y <= outline[i].y <= b.y + b.height
      ensures pts[i].x <= pts[j].x ==> outline[i].x <= outline[j].x
      ensures pts[i].y <= pts[j].y ==> outline[i].y <= outline[j].y
    {
      FitOne(pts[i].x, pts[j].x, bd.minX, bd.maxX, b.x, b.width);
      FitOne(pts[i].y, pts[j].y, bd.minY, bd.maxY, b.y, b.height);
    }
    forall i | 0 <= i < |pts|
      ensures AxisFit(pts[i].x, bd.minX, bd.maxX, b.x, b.width, outline[i].x)
      ensures AxisFit(pts[i].y, bd.minY, bd.maxY, b.y, b.height, outline[i].y)
    {
      FitCoordAffine(pts[i].x, bd.minX, bd.maxX, b.x, b.width);
      FitCoordAffine(pts[i].y, bd.minY, bd.maxY, b.y, b.height);
    }
    FitTouchesX(pts, bd, b, outline);
    FitTouchesY(pts, bd, b, outline);
  }

  lemma FitTouchesX(pts: seq<Point>, bd: Bounds, b: Box, outline: seq<Point>)
    requires IsBounds(pts, bd) && b.width >= 0.0
    requires Fitted(pts, bd, b, outline)
    ensures (exists i, j :: 0 <= i < |pts| && 0 <= j < |pts| && pts[i].x != pts[j].x) ==>
      (exists i :: 0 <= i < |outline| && outline[i].x == b.x) &&
      (exists i :: 0 <= i < |outline| && outline[i].x == b.x + b.width)
  {
    if bd.minX < bd.maxX {
      var iMin :| 0 <= iMin < |pts| && pts[iMin].x == bd.minX;
      var iMax :| 0 <= iMax < |pts| && pts[iMax].x == bd.maxX;
      FitCoordWithin(bd.minX, bd.minX, bd.minX, bd.maxX, b.x, b.width);
      assert outline[iMin].x == b.x && outline[iMax].x == b.x + b.width;
    }
  }

  lemma FitTouchesY(pts: seq<Point>, bd: Bounds, b: Box, outline: seq<Point>)
    requires IsBounds(pts, bd) && b.height >= 0.0
    requires Fitted(pts, bd, b, outline)
    ensures (exists i, j :: 0 <= i < |pts| && 0 <= j < |pts| && pts[i].y != pts[j].y) ==>
      (exists i :: 0 <= i < |outline| && outline[i].y == b.y) &&
      (exists i :: 0 <= i < |outline| && outline[i].y == b.y + b.height)
  {
    if bd.minY < bd.maxY {
      var iMin :| 0 <= iMin < |pts| && pts[iMin].y == bd.minY;
      var iMax :| 0 <= iMax < |pts| && pts[iMax].y == bd.maxY;
      FitCoordWithin(bd.minY, bd.minY, bd.minY, bd.maxY, b.y, b.height);
      assert outline[iMin].y == b.y && outline[iMax].y == b.y + b.height;
    }
  }

  /** One coordinate of two points, in either the spread or the flat case. */
  lemma FitOne(v: real, w: real, lo: real, hi: real, start: real, size: real)
    requires lo <= v <= hi && lo <= w <= hi && size >= 0.0
    ensures start <= FitCoord(v, lo, hi, start, size) <= start + size
    ensures v <= w ==> FitCoord(v, lo, hi, start, size) <= FitCoord(w, lo, hi, start, size)
  {
    if lo < hi {
      FitCoordWithin(v, w, lo, hi, start, size);
    } else {
      FitCoordFlat(v, start, size);
      FitCoordFlat(w, start, size);
    }
  }

  /** `pro5_createShoutPath`: the burst points of `ShoutPoints`, scaled and moved by the affine
      map that sends their bounds onto the bubble's box; the outline touches all four sides. */
  method ShoutOutline(b: Box) returns (outline: seq<Point>)
    requires b.width >= 0.0 && b.height >= 0.0
    ensures |outline| == |ShoutPoints|
    ensures exists bd :: IsBounds(ShoutPoints, bd) && AffineFit(ShoutPoints, bd, b, outline)
    ensures forall i :: 0 <= i < |outline| ==>
      b.x <= outline[i].x <= b.x + b.width && b.y <= outline[i].y <= b.y + b.height
    ensures exists i :: 0 <= i < |outline| && outline[i].x == b.x
    ensures exists i :: 0 <= i < |outline| && outline[i].x == b.x + b.width
    ensures exists i :: 0 <= i < |outline| && outline[i].y == b.y
    ensures exists i :: 0 <= i < |outline| && outline[i].y == b.y + b.height
  {
    var pts := ShoutPoints;
    assert pts[0] == Point(300.00, 70.00) && pts[1] == Point(314.88, 136.98);
    outline := FitOutline(pts, b);
  }
}
