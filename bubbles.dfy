/** A speech bubble on the page. Its kind and id never change after it is inserted; its box,
    tail, text and style are updated in place by dragging, resizing and editing. */
module Bubbles {
  import opened Options
  import opened Geometry
  import opened Text

  class Bubble {
    /** `bubble-<n>`, with `serial` the counter value `n` it was created with. */
    const id: string
    ghost const serial: nat
    /** The bubble type, such as "speech-left" or "combo-circle". */
    const kind: string
    var x: real
    var y: real
    var width: real
    var height: real
    var padding: real
    var strokeWidth: real
    var fontFamily: string
    var fontSize: real
    var bold: bool
    var text: string
    var tail: Option<Tail>

    /** What every bubble on the page satisfies: its box is at least `MIN_BODY_SIZE` each way
        and its tail is of the shape its kind uses. */
    ghost predicate Valid()
      reads this
    {
      width >= MinBodySize && height >= MinBodySize && TailFits(kind, tail)
    }

    function Frame(): Box
      reads this
    {
      Box(x, y, width, height)
    }

    constructor(id: string, ghost serial: nat, kind: string, frame: Box, padding: real, strokeWidth: real,
                fontFamily: string, fontSize: real, bold: bool, text: string, tail: Option<Tail>)
      ensures this.id == id && this.serial == serial && this.kind == kind
      ensures x == frame.x && y == frame.y && width == frame.width && height == frame.height
      ensures this.padding == padding && this.strokeWidth == strokeWidth
      ensures this.fontFamily == fontFamily && this.fontSize == fontSize && this.bold == bold
      ensures this.text == text && this.tail == tail
    {
      this.id := id;
      this.serial := serial;
      this.kind := kind;
      this.x := frame.x;
      this.y := frame.y;
      this.width := frame.width;
      this.height := frame.height;
      this.padding := padding;
      this.strokeWidth := strokeWidth;
      this.fontFamily := fontFamily;
      this.fontSize := fontSize;
      this.bold := bold;
      this.text := text;
      this.tail := tail;
    }

    /** Everything but the tail is as before. */
    twostate predicate OnlyTailChanged()
      reads this
    {
      Frame() == old(Frame()) && padding == old(padding) && strokeWidth == old(strokeWidth) &&
      fontFamily == old(fontFamily) && fontSize == old(fontSize) && bold == old(bold) && text == old(text)
    }

    /** `setTailTip`: drags the tail tip to (px, py); afterwards the tip is exactly there. */
    method SetTailTip(px: real, py: real)
      requires Valid()
      modifies this
      ensures Valid() && OnlyTailChanged()
      ensures tail == RetargetTail(kind, Frame(), old(tail), px, py)
      ensures old(tail).Some? ==> TailTip(kind, Frame(), tail) == Some(Point(px, py))
      ensures old(tail).None? ==> tail.None?
    {
      if tail.None? {
        return;
      }
      var f := Frame();
      var next: Tail;
      if kind == SpeechPro5deg {
        next := tail.value.(apex := AbsToNorm(f, Point(px, py)));
      } else {
        var anchor := AnchorFor(f, px, py);
        var base := Point(f.x + f.width * anchor.nx, f.y + f.height * anchor.ny);
        next := AnchorTail(anchor, NormPoint((px - base.x) / f.width, (py - base.y) / f.height));
        assert next == AimedTail(f, anchor, px, py);
      }
      assert Some(next) == RetargetTail(kind, f, tail, px, py);
      RetargetTailTip(kind, f, tail, px, py);
      tail := Some(next);
    }

    /** The anchor-snapping branch of `setTailTip`, step by step. */
    static method AnchorFor(f: Box, px: real, py: real) returns (anchor: NormPoint)
      requires f.width != 0.0 && f.height != 0.0
      ensures anchor == SnapAnchor(f, px, py)
    {
      var dx := px - (f.x + f.width / 2.0);
      var dy := py - (f.y + f.height / 2.0);
      if Abs(dx) > Abs(dy) {
        anchor := NormPoint(if dx < 0.0 then 0.0 else 1.0, Clamp((py - f.y) / f.height, 0.15, 0.85));
      } else {
        anchor := NormPoint(Clamp((px - f.x) / f.width, 0.15, 0.85), if dy < 0.0 then 0.0 else 1.0);
      }
    }

    /** `applyResize`: the box becomes the start box of the drag resized through handle `d` by
        the drag delta (dx, dy); a tail snapshot taken at the start of the drag, if any, is
        put back. */
    method ApplyResize(start: Box, d: Direction, dx: real, dy: real, tailSnapshot: Option<Tail>)
      requires Valid()
      requires start.width >= MinBodySize && start.height >= MinBodySize
      requires TailFits(kind, tailSnapshot)
      modifies this
      ensures Valid()
      ensures Frame() == ResizedBox(start, d, dx, dy)
      ensures tail == (if tailSnapshot.Some? then tailSnapshot else old(tail))
      ensures padding == old(padding) && strokeWidth == old(strokeWidth) && text == old(text)
      ensures fontFamily == old(fontFamily) && fontSize == old(fontSize) && bold == old(bold)
    {
      var left, top, w, h := start.x, start.y, start.width, start.height;
      if HasN(d) {
        var newHeight := Max(MinBodySize, h - dy);
        var diff := newHeight - h;
        top := top - diff;
        h := newHeight;
      }
      if HasS(d) {
        h := Max(MinBodySize, h + dy);
      }
      if HasW(d) {
        var newWidth := Max(MinBodySize, w - dx);
        var diff := newWidth - w;
        left := left - diff;
        w := newWidth;
      }
      if HasE(d) {
        w := Max(MinBodySize, w + dx);
      }
      x, y, width, height := left, top, w, h;
      if tailSnapshot.Some? {
        tail := tailSnapshot;
      }
      ResizeKeepsMinimum(start, d, dx, dy);
    }

    /** The rectangle the text is laid out in, under the given padding preset. */
    function TextArea(preset: int): Box
      reads this
    {
      TextRect(kind, Frame(), padding, fontSize, preset)
    }

    /** `autoFitBubbleToText`, with `textHeight` the height the browser measured for the
        displayed text at the text rectangle's width: grows the bubble downwards so that the
        text and the top padding, repeated below it, fit; never shrinks it and never moves it
        sideways. For every kind but the shout burst the text then fits its rectangle. */
    method AutoFitToText(textHeight: nat, preset: int)
      requires Valid()
      modifies this
      ensures Valid()
      ensures x == old(x) && y == old(y) && width == old(width) && tail == old(tail)
      ensures padding == old(padding) && fontSize == old(fontSize) && text == old(text)
      ensures strokeWidth == old(strokeWidth) && fontFamily == old(fontFamily) && bold == old(bold)
      ensures height == FitToTextHeight(old(height), old(TextArea(preset)).y - y, textHeight as real)
      ensures height >= old(height)
      ensures kind != ShoutBurst ==> TextArea(preset).height >= textHeight as real
    {
      var rect := TextArea(preset);
      var padY := rect.y - y;
      var needHeight := Ceil(textHeight as real + padY * 2.0);
      if needHeight as real > height {
        height := needHeight as real;
      }
      if kind != ShoutBurst {
        AutoFitMakesRoom(kind, old(Frame()), padding, fontSize, preset, textHeight as real);
      }
    }

    /** `pro5_autoFitHeightOnText`, with `needH` the height the browser measured for the text at
        the text rectangle's width: when the text is higher than its rectangle, grows the bubble
        to hold the text plus the top padding twice; never shrinks it and never changes its
        width or position. */
    method AutoFitHeightOnText(needH: nat, preset: int)
      requires Valid()
      modifies this
      ensures Valid()
      ensures x == old(x) && y == old(y) && width == old(width) && tail == old(tail)
      ensures padding == old(padding) && fontSize == old(fontSize) && text == old(text)
      ensures strokeWidth == old(strokeWidth) && fontFamily == old(fontFamily) && bold == old(bold)
      ensures height == GrowHeightOnText(old(height), old(TextArea(preset)).height,
                                         old(TextArea(preset)).y - y, needH as real)
      ensures height >= old(height)
      ensures height != old(height) ==> needH as real > old(TextArea(preset)).height
    {
      var rect := TextArea(preset);
      if needH as real > rect.height {
        var padY := rect.y - y;
        var newHeight := Ceil(needH as real + padY * 2.0);
        height := Max(height, newHeight as real);
      }
    }
  }
}
