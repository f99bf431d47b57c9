/** The editor's document state: the bubble list, the id counter, the selection and the undo
    history. Snapshots of the document are opaque values here; how they are serialised and how
    a restored snapshot rebuilds the bubbles is not part of this model. */
module Editor {
  import opened Options
  import opened Geometry
  import opened Bubbles

  /** The undo history: snapshots in order and the index of the current one, -1 when empty. */
  datatype Timeline<S> = Timeline(entries: seq<S>, index: int)
  {
    ghost predicate Valid()
    {
      if entries == [] then index == -1 else 0 <= index < |entries|
    }

    /** `pushHistory`: drops every snapshot after the current one and appends `s` as the new
        current snapshot. */
    function Push(s: S): (r: Timeline<S>)
      requires Valid()
      ensures r.Valid() && r.index == index + 1 && r.entries[r.index] == s
      ensures r.entries == entries[..index + 1] + [s]
    {
      var kept := entries[..index + 1];
      Timeline(kept + [s], |kept|)
    }

    /** `undo`: at index 0 or below nothing happens; otherwise the index steps back and the
        snapshot there is the one to restore. */
    function Undo(): (r: (Timeline<S>, Option<S>))
      requires Valid()
      ensures r.0.Valid() && r.0.entries == entries
      ensures index <= 0 ==> r == (this, None)
      ensures index > 0 ==> r.0.index == index - 1 && r.1 == Some(entries[index - 1])
    {
      if index <= 0 then (this, None)
      else (this.(index := index - 1), Some(entries[index - 1]))
    }
  }


  /** Undoing right after a push gives back the snapshot that was current before it, and the
      pushed snapshot stays available as the only redo entry. */
  lemma UndoAfterPush<S>(t: Timeline<S>, s: S)
    requires t.Valid() && t.index >= 0
    ensures var (u, restored) := t.Push(s).Undo();
      restored == Some(t.entries[t.index]) && u.index == t.index &&
      u.entries[..u.index + 1] == t.entries[..t.index + 1] && u.entries[u.index + 1..] == [s]
  {
    var p := t.Push(s);
    assert p.entries[..t.index + 1] == t.entries[..t.index + 1];
  }

  /** A push after an undo discards the snapshot that was undone: it cannot be redone. */
  lemma PushAfterUndoDropsRedo<S>(t: Timeline<S>, s: S)
    requires t.Valid() && t.index > 0
    ensures t.Undo().0.Push(s).entries == t.entries[..t.index] + [s]
  {
  }

  /** Undo never moves below the first snapshot: the first snapshot pushed onto an empty history
      cannot be undone. */
  lemma UndoStopsAtFirst<S>(s: S)
    ensures var empty: Timeline<S> := Timeline([], -1);
      empty.Valid() && empty.Push(s).Undo() == (empty.Push(s), None) && empty.Push(s).entries == [s]
  {
  }

  /** The decimal digits of `n`, most significant first, as `${n}` prints a non-negative
      integer. */
  function Decimal(n: nat): (s: string)
    ensures |s| >= 1 && forall i :: 0 <= i < |s| ==> '0' <= s[i] <= '9'
    decreases n
  {
    if n < 10 then [Digit(n)] else Decimal(n / 10) + [Digit(n % 10)]
  }

  function Digit(d: nat): (c: char)
    requires d < 10
    ensures '0' <= c <= '9'
  {
    (48 + d) as char
  }

  /** Reads a string of decimal digits back as a number. */
  function ParseDecimal(s: string): nat
    decreases |s|
  {
    if s == [] then 0
    else
      var c := s[|s| - 1];
      ParseDecimal(s[..|s| - 1]) * 10 + (if '0' <= c <= '9' then c as int - 48 else 0)
  }

  /** Reading the digits back gives the number: `Decimal` loses nothing. */
  lemma {:induction false} ParseDecimalInverse(n: nat)
    ensures ParseDecimal(Decimal(n)) == n
    decreases n
  {
    if n >= 10 {
      ParseDecimalInverse(n / 10);
      var s := Decimal(n);
      assert s[..|s| - 1] == Decimal(n / 10);
    }
  }

  /** The id `insertBubble` gives the bubble made from counter value `n`. */
  function BubbleId(n: nat): string
  {
    "bubble-" + Decimal(n)
  }

  /** Different counter values give different ids. */
  lemma BubbleIdInjective(m: nat, n: nat)
    requires BubbleId(m) == BubbleId(n)
    ensures m == n
  {
    assert BubbleId(m)[7..] == Decimal(m);
    assert BubbleId(n)[7..] == Decimal(n);
    ParseDecimalInverse(m);
    ParseDecimalInverse(n);
  }

  /** The bubbles without the one of id `id` (`filter((item) => item.id !== id)`), in order. */
  function Without(bubbles: seq<Bubble>, id: string): (r: seq<Bubble>)
    ensures |r| <= |bubbles|
    ensures forall i :: 0 <= i < |r| ==> r[i] in bubbles && r[i].id != id
    ensures forall i :: 0 <= i < |bubbles| && bubbles[i].id != id ==> bubbles[i] in r
    decreases |bubbles|
  {
    if bubbles == [] then []
    else
      var rest := Without(bubbles[1..], id);
      assert forall i :: 1 <= i < |bubbles| ==> bubbles[i] == bubbles[1..][i - 1];
      if bubbles[0].id != id then [bubbles[0]] + rest else rest
  }

  /** `Without` is the filter itself: it distributes over concatenation, so the kept bubbles
      stay in page order, and a single bubble is kept, once, exactly when its id differs. */
  lemma {:induction false} WithoutIsFilter(a: seq<Bubble>, b: seq<Bubble>, x: Bubble, id: string)
    ensures Without(a + b, id) == Without(a, id) + Without(b, id)
    ensures Without([x], id) == if x.id != id then [x] else []
    decreases |a|
  {
    if a == [] {
      assert a + b == b;
    } else {
      assert (a + b)[1..] == a[1..] + b;
      WithoutIsFilter(a[1..], b, x, id);
    }
  }

  /** With distinct ids, removing a present id removes exactly one bubble. */
  lemma {:induction false} WithoutRemovesOne(bubbles: seq<Bubble>, k: nat)
    requires k < |bubbles|
    requires forall i, j :: 0 <= i < j < |bubbles| ==> bubbles[i].id != bubbles[j].id
    ensures |Without(bubbles, bubbles[k].id)| == |bubbles| - 1
    decreases |bubbles|
  {
    var id := bubbles[k].id;
    if k > 0 {
      WithoutRemovesOne(bubbles[1..], k - 1);
    } else {
      WithoutAbsent(bubbles[1..], id);
    }
  }

  /** Every bubble of the list is valid and was made from a counter value below `next`, no two
      from the same value. */
  ghost predicate ListValid(bubbles: seq<Bubble>, next: nat)
    reads bubbles
  {
    (forall i :: 0 <= i < |bubbles| ==> bubbles[i].Valid()) &&
    (forall i :: 0 <= i < |bubbles| ==>
      bubbles[i].serial < next && bubbles[i].id == BubbleId(bubbles[i].serial)) &&
    (forall i, j :: 0 <= i < j < |bubbles| ==> bubbles[i].serial != bubbles[j].serial)
  }

  /** Bubbles made from distinct counter values have distinct ids. */
  lemma ListIdsDistinct(bubbles: seq<Bubble>, next: nat)
    requires ListValid(bubbles, next)
    ensures forall i, j :: 0 <= i < j < |bubbles| ==> bubbles[i].id != bubbles[j].id
  {
    forall i, j | 0 <= i < j < |bubbles|
      ensures bubbles[i].id != bubbles[j].id
    {
      if bubbles[i].id == bubbles[j].id {
        BubbleIdInjective(bubbles[i].serial, bubbles[j].serial);
      }
    }
  }

  /** Removing the id of one bubble of a valid list removes exactly that bubble and keeps the
      list valid. */
  lemma RemoveOne(bubbles: seq<Bubble>, next: nat, k: nat)
    requires ListValid(bubbles, next) && k < |bubbles|
    ensures ListValid(Without(bubbles, bubbles[k].id), next)
    ensures |Without(bubbles, bubbles[k].id)| == |bubbles| - 1
  {
    ListIdsDistinct(bubbles, next);
    WithoutRemovesOne(bubbles, k);
    WithoutKeepsListValid(bubbles, next, bubbles[k].id);
  }

  /** Appending a valid bubble made from the counter value `next` to a valid list gives a valid
      list under the next counter value. */
  lemma AppendKeepsListValid(bubbles: seq<Bubble>, next: nat, b: Bubble)
    requires ListValid(bubbles, next) && b.Valid() && b.serial == next && b.id == BubbleId(next)
    ensures ListValid(bubbles + [b], next + 1)
  {
    var r := bubbles + [b];
    forall i, j | 0 <= i < j < |r|
      ensures r[i].serial != r[j].serial
    {
      assert r[i] == bubbles[i];
      if j < |bubbles| {
        assert r[j] == bubbles[j];
      }
    }
  }

  /** Removing bubbles keeps the list valid. */
  lemma WithoutKeepsListValid(bubbles: seq<Bubble>, next: nat, id: string)
    requires ListValid(bubbles, next)
    ensures ListValid(Without(bubbles, id), next)
  {
    var r := Without(bubbles, id);
    WithoutKeepsSerialsDistinct(bubbles, id);
    forall i | 0 <= i < |r|
      ensures r[i].Valid() && r[i].serial < next && r[i].id == BubbleId(r[i].serial)
    {
      var j :| 0 <= j < |bubbles| && bubbles[j] == r[i];
    }
  }

  /** Filtering keeps the counter values of the remaining bubbles pairwise distinct. */
  lemma {:induction false} WithoutKeepsSerialsDistinct(bubbles: seq<Bubble>, id: string)
    requires forall i, j :: 0 <= i < j < |bubbles| ==> bubbles[i].serial != bubbles[j].serial
    ensures forall i, j :: 0 <= i < j < |Without(bubbles, id)| ==>
      Without(bubbles, id)[i].serial != Without(bubbles, id)[j].serial
    decreases |bubbles|
  {
    if bubbles != [] {
      var tail := bubbles[1..];
      WithoutKeepsSerialsDistinct(tail, id);
      var rest := Without(tail, id);
      if bubbles[0].id != id {
        var r := Without(bubbles, id);
        assert r == [bubbles[0]] + rest;
        forall k | 0 <= k < |rest|
          ensures rest[k].serial != bubbles[0].serial
        {
          var j :| 0 <= j < |tail| && tail[j] == rest[k];
          assert bubbles[j + 1] == rest[k];
        }
        forall i, j | 0 <= i < j < |r|
          ensures r[i].serial != r[j].serial
        {
          assert r[j] == rest[j - 1];
          if i > 0 {
            assert r[i] == rest[i - 1];
          } else {
            assert rest[j - 1].serial != bubbles[0].serial;
          }
        }
      } else {
        assert Without(bubbles, id) == rest;
      }
    }
  }

  /** Removing an id no bubble has changes nothing. */
  lemma {:induction false} WithoutAbsent(bubbles: seq<Bubble>, id: string)
    requires forall i :: 0 <= i < |bubbles| ==> bubbles[i].id != id
    ensures Without(bubbles, id) == bubbles
    decreases |bubbles|
  {
    if bubbles != [] {
      WithoutAbsent(bubbles[1..], id);
    }
  }

  /** Bubble `i` is the first of id `id`. */
  predicate FirstWithId(bubbles: seq<Bubble>, i: int, id: string)
  {
    0 <= i < |bubbles| && bubbles[i].id == id && forall j :: 0 <= j < i ==> bubbles[j].id != id
  }

  /** `state.bubbles.find((bubble) => bubble.id === id)`: the first bubble of that id. */
  function Find(bubbles: seq<Bubble>, id: string): (r: Option<Bubble>)
    ensures r.Some? <==> exists i :: 0 <= i < |bubbles| && bubbles[i].id == id
    ensures r.Some? ==> exists i :: FirstWithId(bubbles, i, id) && bubbles[i] == r.value
    decreases |bubbles|
  {
    if bubbles == [] then None
    else if bubbles[0].id == id then Some(bubbles[0])
    else
      var r := Find(bubbles[1..], id);
      assert forall i :: 1 <= i < |bubbles| ==> bubbles[i] == bubbles[1..][i - 1];
      if r.Some? then
        assert exists i :: FirstWithId(bubbles, i, id) && bubbles[i] == r.value by {
          var i :| FirstWithId(bubbles[1..], i, id) && bubbles[1..][i] == r.value;
          assert FirstWithId(bubbles, i + 1, id);
        }
        r
      else r
  }

  /** The size `insertBubble` gives a new bubble on a canvas of the given size: 30% of the
      canvas width and 20% of its height, at least 320 by 220; a thought circle is square, at
      least 260 wide. */
  function InsertSize(kind: string, canvasWidth: real, canvasHeight: real): (r: (real, real))
    ensures r.0 >= 320.0 && r.0 >= canvasWidth * 0.3
    ensures kind == ThoughtCircle ==> r.1 == r.0
    ensures kind != ThoughtCircle ==> r.1 >= 220.0 && r.1 >= canvasHeight * 0.2
  {
    var baseW := Max(320.0, canvasWidth * 0.3);
    var baseH := Max(220.0, canvasHeight * 0.2);
    var width := if kind == ThoughtCircle then Max(260.0, baseW) else baseW;
    var height := if kind == ThoughtCircle then width else baseH;
    (width, height)
  }

  class Document<Snapshot> {
    var canvasWidth: real
    var canvasHeight: real
    var bubbles: seq<Bubble>
    var nextBubbleId: nat
    var selectedBubbleId: Option<string>
    var defaultStrokeWidth: real
    var fontFamily: string
    var fontSize: real
    var bold: bool
    var history: seq<Snapshot>
    var historyIndex: int

    /** Every bubble is valid and was made from a counter value below the counter, no two from
        the same value; the history index points into the history. */
    ghost predicate Valid()
      reads this, bubbles
    {
      nextBubbleId >= 1 && ListValid(bubbles, nextBubbleId) && Timeline(history, historyIndex).Valid()
    }

    /** The initial state: an empty 1200 by 1600 canvas, counter 1, stroke 2, font size 24,
        not bold, nothing selected and an empty history. */
    constructor(fontFamily: string)
      ensures Valid()
      ensures canvasWidth == 1200.0 && canvasHeight == 1600.0 && bubbles == [] && nextBubbleId == 1
      ensures selectedBubbleId == None && defaultStrokeWidth == 2.0 && this.fontFamily == fontFamily
      ensures fontSize == 24.0 && !bold && history == [] && historyIndex == -1
    {
      canvasWidth, canvasHeight := 1200.0, 1600.0;
      bubbles := [];
      nextBubbleId := 1;
      selectedBubbleId := None;
      defaultStrokeWidth := 2.0;
      this.fontFamily := fontFamily;
      fontSize := 24.0;
      bold := false;
      history := [];
      historyIndex := -1;
    }

    /** Everything but the history is as before. */
    twostate predicate OnlyHistoryChanged()
      reads this
    {
      canvasWidth == old(canvasWidth) && canvasHeight == old(canvasHeight) && bubbles == old(bubbles) &&
      nextBubbleId == old(nextBubbleId) && selectedBubbleId == old(selectedBubbleId) &&
      defaultStrokeWidth == old(defaultStrokeWidth) && fontFamily == old(fontFamily) &&
      fontSize == old(fontSize) && bold == old(bold)
    }

    /** The canvas size and the document's stroke and font settings are as before. */
    twostate predicate SettingsUnchanged()
      reads this
    {
      canvasWidth == old(canvasWidth) && canvasHeight == old(canvasHeight) &&
      defaultStrokeWidth == old(defaultStrokeWidth) && fontFamily == old(fontFamily) &&
      fontSize == old(fontSize) && bold == old(bold)
    }

    /** `pushHistory`, with `snapshot` the serialised current state. */
    method PushHistory(snapshot: Snapshot)
      requires Valid()
      modifies this
      ensures Valid() && OnlyHistoryChanged()
      ensures Timeline(history, historyIndex) == old(Timeline(history, historyIndex)).Push(snapshot)
    {
      history := history[..historyIndex + 1];
      history := history + [snapshot];
      historyIndex := |history| - 1;
    }

    /** `undo`: steps the history back and returns the snapshot to restore, or does nothing and
        returns None when the current snapshot is the first one. */
    method Undo() returns (restore: Option<Snapshot>)
      requires Valid()
      modifies this
      ensures Valid()
      ensures (Timeline(history, historyIndex), restore) == old(Timeline(history, historyIndex)).Undo()
      ensures OnlyHistoryChanged() && history == old(history)
    {
      if historyIndex <= 0 {
        return None;
      }
      historyIndex := historyIndex - 1;
      restore := Some(history[historyIndex]);
    }

    /** `insertBubble`: a new bubble of the given kind, centred on the canvas, with the next
        counter id, the document's font settings, the stroke width from the control (the
        default when it reads 0), empty text and the kind's default tail; it is appended,
        selected, and the new state is pushed onto the history. */
    method Insert(kind: string, strokeInput: real, snapshot: Snapshot) returns (b: Bubble)
      requires Valid()
      modifies this
      ensures Valid()
      ensures fresh(b) && bubbles == old(bubbles) + [b]
      ensures b.id == BubbleId(old(nextBubbleId)) && nextBubbleId == old(nextBubbleId) + 1
      ensures b.kind == kind && (b.width, b.height) == InsertSize(kind, old(canvasWidth), old(canvasHeight))
      ensures b.x + b.width / 2.0 == old(canvasWidth) / 2.0 && b.y + b.height / 2.0 == old(canvasHeight) / 2.0
      ensures b.padding == Max(28.0, Min(b.width, b.height) * 0.12)
      ensures b.strokeWidth == (if strokeInput != 0.0 then strokeInput else old(defaultStrokeWidth))
      ensures b.fontFamily == old(fontFamily) && b.fontSize == old(fontSize) && b.bold == old(bold)
      ensures b.text == "" && b.tail == DefaultTail(kind)
      ensures selectedBubbleId == Some(b.id)
      ensures Timeline(history, historyIndex) == old(Timeline(history, historyIndex)).Push(snapshot)
      ensures SettingsUnchanged()
    {
      b := NewBubble(kind, strokeInput);
      AppendKeepsListValid(bubbles, nextBubbleId, b);
      nextBubbleId := nextBubbleId + 1;
      bubbles := bubbles + [b];
      selectedBubbleId := Some(b.id);
      PushHistory(snapshot);
    }

    /** The bubble `insertBubble` creates, before it is added to the document. */
    method NewBubble(kind: string, strokeInput: real) returns (b: Bubble)
      ensures fresh(b) && b.Valid()
      ensures b.id == BubbleId(nextBubbleId) && b.serial == nextBubbleId
      ensures b.kind == kind && (b.width, b.height) == InsertSize(kind, canvasWidth, canvasHeight)
      ensures b.x + b.width / 2.0 == canvasWidth / 2.0 && b.y + b.height / 2.0 == canvasHeight / 2.0
      ensures b.padding == Max(28.0, Min(b.width, b.height) * 0.12)
      ensures b.strokeWidth == (if strokeInput != 0.0 then strokeInput else defaultStrokeWidth)
      ensures b.fontFamily == fontFamily && b.fontSize == fontSize && b.bold == bold
      ensures b.text == "" && b.tail == DefaultTail(kind)
    {
      var size := InsertSize(kind, canvasWidth, canvasHeight);
      var width, height := size.0, size.1;
      var x := (canvasWidth - width) / 2.0;
      var y := (canvasHeight - height) / 2.0;
      var stroke := if strokeInput != 0.0 then strokeInput else defaultStrokeWidth;
      b := new Bubble(BubbleId(nextBubbleId), nextBubbleId, kind, Box(x, y, width, height),
                      Max(28.0, Min(width, height) * 0.12), stroke, fontFamily, fontSize, bold, "",
                      DefaultTail(kind));
    }

    /** `removeSelectedBubble`: when a bubble is selected, removes it, clears the selection and
        pushes the new state onto the history; otherwise changes nothing. */
    method RemoveSelected(snapshot: Snapshot)
      requires Valid()
      modifies this
      ensures Valid()
      ensures var target := if old(selectedBubbleId).Some? then Find(old(bubbles), old(selectedBubbleId).value) else None;
        if target.None? then
          bubbles == old(bubbles) && selectedBubbleId == old(selectedBubbleId) &&
          history == old(history) && historyIndex == old(historyIndex)
        else
          bubbles == Without(old(bubbles), target.value.id) && |bubbles| == |old(bubbles)| - 1 &&
          selectedBubbleId == None &&
          Timeline(history, historyIndex) == old(Timeline(history, historyIndex)).Push(snapshot)
      ensures nextBubbleId == old(nextBubbleId) && SettingsUnchanged()
    {
      if selectedBubbleId.None? {
        return;
      }
      var found := Find(bubbles, selectedBubbleId.value);
      if found.None? {
        return;
      }
      var bubble := found.value;
      var k :| 0 <= k < |bubbles| && bubbles[k] == bubble;
      RemoveAt(k, snapshot);
    }

    /** The removing branch of `removeSelectedBubble`: drops the bubbles of bubble k's id, clears
        the selection and pushes the new state onto the history. */
    method RemoveAt(k: nat, snapshot: Snapshot)
      requires Valid() && k < |bubbles|
      modifies this
      ensures Valid()
      ensures bubbles == Without(old(bubbles), old(bubbles)[k].id) && |bubbles| == |old(bubbles)| - 1
      ensures selectedBubbleId == None && nextBubbleId == old(nextBubbleId) && SettingsUnchanged()
      ensures Timeline(history, historyIndex) == old(Timeline(history, historyIndex)).Push(snapshot)
    {
      RemoveOne(bubbles, nextBubbleId, k);
      bubbles := Without(bubbles, bubbles[k].id);
      selectedBubbleId := None;
      PushHistory(snapshot);
    }
  }
}
