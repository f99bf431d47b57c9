/** Seam covering where bubble outlines cross. Straight rectangles paint every other
    rectangle's outline white inside themselves; a combo circle paints white arcs over the parts
    of its own ellipse that lie inside an overlapping oval bubble. The arcs come from sampling
    the combo ellipse at 541 evenly spaced angles t = i * 2pi / 540, i = 0..540, and collecting
    the runs of samples that fall inside the other ellipse; ranges here are pairs of sample
    indices, and the cosine and sine of the sample angles are given as tables. */
module Seams {
  import opened Options
  import opened Geometry
  import opened Bubbles

  /** The number of sampling steps around the ellipse (`N`); there are `N + 1` samples. */
  const SampleSteps: nat := 540

  /** A run of samples from index `start` to index `end`, both included. */
  datatype Range = Range(start: nat, end: nat)

  /** The state of the collecting loop: the runs closed so far and the start of an open run. */
  datatype Scan = Scan(ranges: seq<Range>, open: Option<nat>)

  /** The index before `i`, taken cyclically. */
  function Prev(i: nat, n: nat): (p: nat)
    requires i < n
    ensures p == (if i == 0 then n - 1 else i - 1)
  {
    PrevMod(i, n);
    (i - 1 + n) % n
  }

  lemma PrevMod(i: nat, n: nat)
    requires i < n
    ensures (i - 1 + n) % n == (if i == 0 then n - 1 else i - 1)
  {
    var r := if i == 0 then n - 1 else i - 1;
    assert i - 1 + n == (if i == 0 then 0 else 1) * n + r;
    ModSmallQuotient(i - 1 + n, n, if i == 0 then 0 else 1, r);
  }

  /** The remainder of q * n + r for a quotient of 0 or 1. */
  lemma ModSmallQuotient(a: int, n: int, q: int, r: int)
    requires n > 0 && 0 <= q <= 1 && a == q * n + r && 0 <= r < n
    ensures a % n == r
  {
    if q == 0 {
      assert a == r;
    } else {
      assert a == n + r;
    }
  }

  /** One turn of the collecting loop at sample `i`: a run opens where an inside sample follows
      an outside one, and the open run closes where an outside sample follows an inside one. */
  function ScanStep(flags: seq<bool>, i: nat, sc: Scan): Scan
    requires i < |flags|
  {
    var n := |flags|;
    var cur := flags[i];
    var prev := flags[Prev(i, n)];
    var open := if cur && !prev then Some(i) else sc.open;
    if !cur && prev && open.Some? then Scan(sc.ranges + [Range(open.value, Prev(i, n))], None)
    else Scan(sc.ranges, open)
  }

  /** The loop state after samples `0..i-1`. */
  function ScanTo(flags: seq<bool>, i: nat): Scan
    requires i <= |flags|
    decreases i
  {
    if i == 0 then Scan([], None) else ScanStep(flags, i - 1, ScanTo(flags, i - 1))
  }

  /** The runs after the loop, with a run still open at the end closed at the last sample. */
  function CollectedRanges(flags: seq<bool>): seq<Range>
  {
    var sc := ScanTo(flags, |flags|);
    if sc.open.Some? && |flags| > 0 then sc.ranges + [Range(sc.open.value, |flags| - 1)] else sc.ranges
  }

  /** The final normalisation: a run whose end is before its start is moved one turn on. */
  function Normalize(r: Range): Range
  {
    if r.start <= r.end then r else Range(r.start, r.end + SampleSteps)
  }

  /** `pro5_sampleOverlapRanges` on the inside/outside flags of the samples. */
  function OverlapRanges(flags: seq<bool>): seq<Range>
  {
    var c := CollectedRanges(flags);
    seq(|c|, k requires 0 <= k < |c| => Normalize(c[k]))
  }

  /** Samples `lo..hi-1` are all inside. */
  predicate AllInside(flags: seq<bool>, lo: nat, hi: nat)
    requires hi <= |flags|
  {
    forall k :: lo <= k < hi ==> flags[k]
  }

  /** A maximal run: inside from start to end, the sample before the start (cyclically) outside,
      and the sample after the end outside unless the end is the last sample. */
  predicate GoodRange(flags: seq<bool>, r: Range)
  {
    r.start <= r.end < |flags| && AllInside(flags, r.start, r.end + 1) &&
    !flags[Prev(r.start, |flags|)] && (r.end == |flags| - 1 || !flags[r.end + 1])
  }

  /** Runs in increasing order, with an outside sample between neighbours. */
  predicate Ordered(rs: seq<Range>)
  {
    forall k :: 0 <= k < |rs| - 1 ==> rs[k].end + 1 < rs[k + 1].start
  }

  predicate Covered(rs: seq<Range>, k: nat)
  {
    exists j :: 0 <= j < |rs| && rs[j].start <= k <= rs[j].end
  }

  /** A sample is covered by one more run when it was covered or lies in that run. */
  lemma CoveredSnoc(rs: seq<Range>, r: Range, k: nat)
    ensures Covered(rs + [r], k) <==> Covered(rs, k) || r.start <= k <= r.end
  {
    var all := rs + [r];
    if Covered(all, k) && !Covered(rs, k) {
      var j :| 0 <= j < |all| && all[j].start <= k <= all[j].end;
      assert j == |rs|;
    }
    if r.start <= k <= r.end {
      assert all[|rs|] == r;
    }
    if Covered(rs, k) {
      var j :| 0 <= j < |rs| && rs[j].start <= k <= rs[j].end;
      assert all[j] == rs[j];
    }
  }

  /** The samples the collected runs hold: the inside samples, except those of a run that
      starts at sample 0 when the last sample is inside as well. */
  predicate Reached(flags: seq<bool>, k: nat)
    requires k < |flags|
  {
    flags[k] && !(AllInside(flags, 0, k + 1) && flags[|flags| - 1])
  }

  /** What the loop state after samples `0..i-1` satisfies. */
  predicate ScanInv(flags: seq<bool>, i: nat, sc: Scan)
    requires i <= |flags|
  {
    (forall j :: 0 <= j < |sc.ranges| ==> GoodRange(flags, sc.ranges[j]) && sc.ranges[j].end + 1 < i) &&
    Ordered(sc.ranges) &&
    (sc.open.Some? ==>
      var s := sc.open.value;
      s < i && AllInside(flags, s, i) && !flags[Prev(s, |flags|)] &&
      (sc.ranges != [] ==> sc.ranges[|sc.ranges| - 1].end + 1 < s)) &&
    (sc.open.None? && i > 0 ==> !flags[i - 1] || (AllInside(flags, 0, i) && flags[|flags| - 1])) &&
    (forall k :: 0 <= k < i ==>
      ((Covered(sc.ranges, k) || (sc.open.Some? && sc.open.value <= k)) <==> Reached(flags, k)))
  }

  lemma {:induction false} ScanToInv(flags: seq<bool>, i: nat)
    requires i <= |flags|
    ensures ScanInv(flags, i, ScanTo(flags, i))
    decreases i
  {
    if i > 0 {
      ScanToInv(flags, i - 1);
      ScanStepInv(flags, i - 1, ScanTo(flags, i - 1));
    }
  }

  lemma ScanStepInv(flags: seq<bool>, i: nat, sc: Scan)
    requires i < |flags| && ScanInv(flags, i, sc)
    ensures ScanInv(flags, i + 1, ScanStep(flags, i, sc))
  {
    var n := |flags|;
    var cur := flags[i];
    var prev := flags[Prev(i, n)];
    if cur && !prev {
      StepOpens(flags, i, sc);
    } else if !cur && prev && sc.open.Some? {
      StepCloses(flags, i, sc);
    } else if cur {
      StepExtends(flags, i, sc);
    } else {
      StepStaysOutside(flags, i, sc);
    }
  }

  /** An inside sample after an outside one opens a run. */
  lemma StepOpens(flags: seq<bool>, i: nat, sc: Scan)
    requires i < |flags| && ScanInv(flags, i, sc)
    requires flags[i] && !flags[Prev(i, |flags|)]
    ensures ScanInv(flags, i + 1, ScanStep(flags, i, sc))
  {
    var n := |flags|;
    assert sc.open.None?;
    var next := ScanStep(flags, i, sc);
    assert next == Scan(sc.ranges, Some(i));
    forall k | 0 <= k < i + 1
      ensures (Covered(next.ranges, k) || next.open.value <= k) <==> Reached(flags, k)
    {
      if k == i {
        assert !AllInside(flags, 0, k + 1) || !flags[n - 1] by {
          if i > 0 {
            assert !flags[i - 1];
          }
        }
      }
    }
  }

  /** An outside sample after an inside one closes the open run. */
  lemma StepCloses(flags: seq<bool>, i: nat, sc: Scan)
    requires i < |flags| && ScanInv(flags, i, sc)
    requires !flags[i] && flags[Prev(i, |flags|)] && sc.open.Some?
    ensures ScanInv(flags, i + 1, ScanStep(flags, i, sc))
  {
    var s := sc.open.value;
    var r := Range(s, i - 1);
    var next := ScanStep(flags, i, sc);
    assert next == Scan(sc.ranges + [r], None);
    assert GoodRange(flags, r);
    forall k | 0 <= k < i + 1
      ensures Covered(next.ranges, k) <==> Reached(flags, k)
    {
      CoveredSnoc(sc.ranges, r, k);
    }
  }

  /** An inside sample after an inside one extends the open run, if any. */
  lemma StepExtends(flags: seq<bool>, i: nat, sc: Scan)
    requires i < |flags| && ScanInv(flags, i, sc)
    requires flags[i] && flags[Prev(i, |flags|)]
    ensures ScanInv(flags, i + 1, ScanStep(flags, i, sc))
  {
    var n := |flags|;
    var next := ScanStep(flags, i, sc);
    assert next == sc;
    if sc.open.Some? {
      var s := sc.open.value;
      assert !AllInside(flags, 0, i + 1) || !flags[n - 1] by {
        if s > 0 {
          assert !flags[s - 1];
        }
      }
    } else {
      assert AllInside(flags, 0, i + 1) && flags[n - 1] by {
        if i > 0 {
          assert flags[i - 1];
        }
      }
    }
    assert !Covered(sc.ranges, i);
  }

  /** An outside sample with no open run changes nothing. */
  lemma StepStaysOutside(flags: seq<bool>, i: nat, sc: Scan)
    requires i < |flags| && ScanInv(flags, i, sc)
    requires !flags[i] && !(flags[Prev(i, |flags|)] && sc.open.Some?)
    ensures ScanInv(flags, i + 1, ScanStep(flags, i, sc))
  {
    var next := ScanStep(flags, i, sc);
    assert sc.open.None?;
    assert next == sc;
    assert !Covered(sc.ranges, i);
  }

  /** The collected runs are maximal runs of inside samples, in increasing order, and they hold
      exactly the `Reached` samples. */
  lemma CollectedRangesShape(flags: seq<bool>)
    ensures var rs := CollectedRanges(flags);
      (forall j :: 0 <= j < |rs| ==> GoodRange(flags, rs[j])) && Ordered(rs) &&
      forall k :: 0 <= k < |flags| ==> (Covered(rs, k) <==> Reached(flags, k))
  {
    var n := |flags|;
    ScanToInv(flags, n);
    var sc := ScanTo(flags, n);
    var rs := CollectedRanges(flags);
    if sc.open.Some? && n > 0 {
      var r := Range(sc.open.value, n - 1);
      assert rs == sc.ranges + [r];
      forall k | 0 <= k < n
        ensures Covered(rs, k) <==> Reached(flags, k)
      {
        CoveredSnoc(sc.ranges, r, k);
      }
    }
  }

  /** The normalisation never changes a run: every run starts no later than it ends. */
  lemma NormalizeIsIdentity(flags: seq<bool>)
    ensures OverlapRanges(flags) == CollectedRanges(flags)
  {
    CollectedRangesShape(flags);
  }

  /** `pro5_sampleOverlapRanges` returns the maximal runs of inside samples, in increasing
      order and separated by outside samples; each run's first sample follows an outside sample
      (cyclically). A sample lies in a returned run exactly when it is inside, unless it belongs
      to a run that starts at sample 0 while the last sample is inside too: that run is dropped,
      not joined to the run at the end. */
  lemma OverlapRangesSpec(flags: seq<bool>)
    ensures var rs := OverlapRanges(flags);
      (forall j :: 0 <= j < |rs| ==> GoodRange(flags, rs[j])) && Ordered(rs) &&
      forall k :: 0 <= k < |flags| ==>
        (Covered(rs, k) <==> flags[k] && !(AllInside(flags, 0, k + 1) && flags[|flags| - 1]))
  {
    NormalizeIsIdentity(flags);
    CollectedRangesShape(flags);
  }

  /** The first range starts at an inside sample that follows an outside one. */
  lemma FirstRange(flags: seq<bool>)
    requires OverlapRanges(flags) != []
    ensures var r := OverlapRanges(flags)[0];
      r.start < |flags| && flags[r.start] && !flags[Prev(r.start, |flags|)]
  {
    OverlapRangesSpec(flags);
    assert GoodRange(flags, OverlapRanges(flags)[0]);
  }

  /** No range when no sample is inside. */
  lemma OverlapRangesNoneInside(flags: seq<bool>)
    requires forall k :: 0 <= k < |flags| ==> !flags[k]
    ensures OverlapRanges(flags) == []
  {
    if OverlapRanges(flags) != [] {
      FirstRange(flags);
      assert false;
    }
  }

  /** No range either when every sample is inside: the ellipse lies wholly inside the other. */
  lemma OverlapRangesAllInside(flags: seq<bool>)
    requires forall k :: 0 <= k < |flags| ==> flags[k]
    ensures OverlapRanges(flags) == []
  {
    if OverlapRanges(flags) != [] {
      FirstRange(flags);
      assert false;
    }
  }

  /** The collecting loop of `pro5_sampleOverlapRanges`, with `s` the start of the open run,
      followed by the normalisation. */
  method CollectOverlapRanges(flags: seq<bool>) returns (ranges: seq<Range>)
    ensures ranges == OverlapRanges(flags)
  {
    var n := |flags|;
    ranges := [];
    var s: Option<nat> := None;
    for i := 0 to n
      invariant Scan(ranges, s) == ScanTo(flags, i)
    {
      var cur := flags[i];
      var prev := flags[(i - 1 + n) % n];
      if cur && !prev {
        s := Some(i);
      }
      if !cur && prev && s.Some? {
        ranges := ranges + [Range(s.value, (i - 1 + n) % n)];
        s := None;
      }
    }
    if s.Some? && n > 0 {
      ranges := ranges + [Range(s.value, n - 1)];
    }
    ranges := seq(|ranges|, k requires 0 <= k < |ranges| => Normalize(ranges[k]));
  }

  /** The inside/outside flags of the samples: sample `i` is the point of ellipse `a` at the angle
      whose cosine and sine are `cosT[i]` and `sinT[i]`, inside when `pro5_ellipseF` of `b` is at
      most 0 there. */
  function InsideFlags(a: Ellipse, b: Ellipse, cosT: seq<real>, sinT: seq<real>): (flags: seq<bool>)
    requires b.rx > 0.0 && b.ry > 0.0 && |cosT| == |sinT|
    ensures |flags| == |cosT|
  {
    seq(|cosT|, i requires 0 <= i < |cosT| => InsideAt(a, b, cosT[i], sinT[i]))
  }

  /** The point of ellipse `a` at the angle of cosine `c` and sine `s` lies inside or on `b`. */
  predicate InsideAt(a: Ellipse, b: Ellipse, c: real, s: real)
    requires b.rx > 0.0 && b.ry > 0.0
  {
    EllipseF(b, a.cx + a.rx * c, a.cy + a.ry * s) <= 0.0
  }

  /** `pro5_sampleOverlapRanges(A, B)`: samples ellipse `a` at the 541 angles and collects the
      runs inside ellipse `b`. */
  method SampleOverlapRanges(a: Ellipse, b: Ellipse, cosT: seq<real>, sinT: seq<real>) returns (ranges: seq<Range>)
    requires b.rx > 0.0 && b.ry > 0.0
    requires |cosT| == |sinT| == SampleSteps + 1
    ensures ranges == OverlapRanges(InsideFlags(a, b, cosT, sinT))
  {
    var pts: seq<bool> := [];
    for i := 0 to SampleSteps + 1
      invariant pts == InsideFlags(a, b, cosT, sinT)[..i]
    {
      var x := a.cx + a.rx * cosT[i];
      var y := a.cy + a.ry * sinT[i];
      var inside := EllipseF(b, x, y) <= 0.0;
      assert inside == InsideAt(a, b, cosT[i], sinT[i]);
      pts := pts + [inside];
    }
    assert pts == InsideFlags(a, b, cosT, sinT);
    ranges := CollectOverlapRanges(pts);
  }

  /** The bubbles of the given kinds, in page order. */
  function OfKind(bubbles: seq<Bubble>, kinds: set<string>): (r: seq<Bubble>)
    ensures forall i :: 0 <= i < |r| ==> r[i] in bubbles && r[i].kind in kinds
    ensures forall i :: 0 <= i < |bubbles| && bubbles[i].kind in kinds ==> bubbles[i] in r
    decreases |bubbles|
  {
    if bubbles == [] then []
    else
      var rest := OfKind(bubbles[1..], kinds);
      assert forall i :: 1 <= i < |bubbles| ==> bubbles[i] == bubbles[1..][i - 1];
      if bubbles[0].kind in kinds then [bubbles[0]] + rest else rest
  }

  /** `OfKind` is the filter itself: it distributes over concatenation, so the kept bubbles
      stay in page order, and a single bubble is kept, once, exactly when its kind is listed. */
  lemma {:induction false} OfKindIsFilter(a: seq<Bubble>, b: seq<Bubble>, x: Bubble, kinds: set<string>)
    ensures OfKind(a + b, kinds) == OfKind(a, kinds) + OfKind(b, kinds)
    ensures OfKind([x], kinds) == if x.kind in kinds then [x] else []
    decreases |a|
  {
    if a == [] {
      assert a + b == b;
    } else {
      assert (a + b)[1..] == a[1..] + b;
      OfKindIsFilter(a[1..], b, x, kinds);
    }
  }

  /** Where seam (A, B) of rows i and j lands in the list of seams: row after row, skipping the
      diagonal. */
  function PairIndex(i: nat, j: nat, n: nat): nat
    requires i < n && j < n && i != j
  {
    i * (n - 1) + (if j < i then j else j - 1)
  }

  lemma PairIndexBounds(i: nat, j: nat, n: nat)
    requires i < n && j < n && i != j
    ensures i * (n - 1) <= PairIndex(i, j, n) < (i + 1) * (n - 1) <= n * (n - 1)
  {
    assert (i + 1) * (n - 1) == i * (n - 1) + (n - 1);
    assert (i + 1) * (n - 1) <= n * (n - 1) by {
      assert n * (n - 1) - (i + 1) * (n - 1) == (n - i - 1) * (n - 1);
    }
  }

  /** `pro5_drawRectSeams`: for every ordered pair (A, B) of distinct rectangle bubbles, one seam
      drawing A's outline clipped to B, row after row; n rectangles give n * (n - 1) seams, with
      no test of whether the two overlap. */
  method RectSeams(bubbles: seq<Bubble>) returns (seams: seq<(Bubble, Bubble)>)
    ensures AllOrderedPairs(OfKind(bubbles, {Rectangle}), seams)
  {
    var rects := OfKind(bubbles, {Rectangle});
    seams := OrderedPairs(rects);
  }

  /** `seams` holds every ordered pair of distinct entries of `rects`, n * (n - 1) of them, row
      after row. */
  ghost predicate AllOrderedPairs<T>(rects: seq<T>, seams: seq<(T, T)>)
  {
    var n := |rects|;
    |seams| == n * (n - 1) &&
    forall i, j :: 0 <= i < n && 0 <= j < n && i != j ==>
      PairIndex(i, j, n) < |seams| && seams[PairIndex(i, j, n)] == (rects[i], rects[j])
  }

  /** The two loops of `pro5_drawRectSeams` over the rectangles: nothing when there are fewer
      than two, else row i holds (rects[i], rects[j]) for every j != i. */
  method OrderedPairs<T>(rects: seq<T>) returns (seams: seq<(T, T)>)
    ensures AllOrderedPairs(rects, seams)
  {
    var n := |rects|;
    seams := [];
    if n < 2 {
      assert n == 0 || n == 1;
      return;
    }
    for i := 0 to n
      invariant |seams| == i * (n - 1)
      invariant forall i', j :: 0 <= i' < i && 0 <= j < n && i' != j ==>
        PairIndex(i', j, n) < |seams| && seams[PairIndex(i', j, n)] == (rects[i'], rects[j])
    {
      ghost var before := seams;
      seams := AppendRow(rects, i, seams);
      RowAppended(rects, before, seams, i);
    }
  }

  /** The inner loop of `pro5_drawRectSeams`: appends (rects[i], rects[j]) for every j != i, in
      j order. */
  method AppendRow<T>(rects: seq<T>, i: nat, seams: seq<(T, T)>) returns (out: seq<(T, T)>)
    requires i < |rects|
    ensures |out| == |seams| + |rects| - 1 && out[..|seams|] == seams
    ensures forall j :: 0 <= j < |rects| && j != i ==>
      out[|seams| + (if j < i then j else j - 1)] == (rects[i], rects[j])
  {
    var a := rects[i];
    out := seams;
    for j := 0 to |rects|
      invariant |out| == |seams| + (if j <= i then j else j - 1)
      invariant out[..|seams|] == seams
      invariant forall j' :: 0 <= j' < j && j' != i ==>
        out[|seams| + (if j' < i then j' else j' - 1)] == (a, rects[j'])
    {
      if i == j {
        continue;
      }
      out := out + [(a, rects[j])];
    }
  }

  /** Appending row `i` (every pair (rects[i], rects[j]) with j != i, in j order) to the seams of
      rows `0..i-1` gives the seams of rows `0..i`. */
  lemma RowAppended<T>(rects: seq<T>, before: seq<(T, T)>, seams: seq<(T, T)>, i: nat)
    requires var n := |rects|; i < n && n >= 2 && |before| == i * (n - 1)
    requires var n := |rects|; forall i', j :: 0 <= i' < i && 0 <= j < n && i' != j ==>
      PairIndex(i', j, n) < |before| && before[PairIndex(i', j, n)] == (rects[i'], rects[j])
    requires |seams| == |before| + |rects| - 1 && seams[..|before|] == before
    requires forall j' :: 0 <= j' < |rects| && j' != i ==>
      seams[|before| + (if j' < i then j' else j' - 1)] == (rects[i], rects[j'])
    ensures var n := |rects|; |seams| == (i + 1) * (n - 1)
    ensures var n := |rects|; forall i', j :: 0 <= i' < i + 1 && 0 <= j < n && i' != j ==>
      PairIndex(i', j, n) < |seams| && seams[PairIndex(i', j, n)] == (rects[i'], rects[j])
  {
    var n := |rects|;
    assert (i + 1) * (n - 1) == i * (n - 1) + (n - 1);
    forall i', j | 0 <= i' < i + 1 && 0 <= j < n && i' != j
      ensures PairIndex(i', j, n) < |seams| && seams[PairIndex(i', j, n)] == (rects[i'], rects[j])
    {
      PairIndexBounds(i', j, n);
      if i' < i {
        assert seams[PairIndex(i', j, n)] == before[PairIndex(i', j, n)];
      }
    }
  }

  /** Candidates for combo seams: the fixed-angle speech ovals and the thought circles. */
  const SeamCandidateKinds: set<string> := {SpeechPro5deg, ThoughtCircle}

  /** A white arc over the part `range` of combo `combo`'s ellipse inside `other`'s ellipse. */
  datatype SeamArc = SeamArc(combo: Bubble, other: Bubble, range: Range)

  /** The ellipse `pro5_drawComboSeams` uses for a bubble (`ellipseFromBubble`). */
  function BubbleEllipse(b: Bubble): Ellipse
    reads b
  {
    EllipseFromBubble(b.Frame(), b.strokeWidth)
  }

  /** The sample flags of combo `c`'s ellipse against `o`'s ellipse. */
  function PairFlags(c: Bubble, o: Bubble, cosT: seq<real>, sinT: seq<real>): seq<bool>
    requires |cosT| == |sinT|
    reads c, o
  {
    InsideFlags(BubbleEllipse(c), BubbleEllipse(o), cosT, sinT)
  }

  /** The arcs of one combo and one candidate, one per overlap range, in order. */
  method PairArcs(combo: Bubble, other: Bubble, cosT: seq<real>, sinT: seq<real>) returns (arcs: seq<SeamArc>)
    requires |cosT| == |sinT| == SampleSteps + 1
    ensures var rs := OverlapRanges(PairFlags(combo, other, cosT, sinT));
      |arcs| == |rs| && forall k :: 0 <= k < |rs| ==> arcs[k] == SeamArc(combo, other, rs[k])
    ensures arcs == PairArcSeq(combo, other, cosT, sinT)
  {
    var ea := BubbleEllipse(combo);
    var eb := BubbleEllipse(other);
    var ranges := SampleOverlapRanges(ea, eb, cosT, sinT);
    arcs := [];
    for k := 0 to |ranges|
      invariant |arcs| == k && forall k' :: 0 <= k' < k ==> arcs[k'] == SeamArc(combo, other, ranges[k'])
    {
      arcs := arcs + [SeamArc(combo, other, ranges[k])];
    }
  }

  /** The arcs of a combo bubble against a candidate over the ranges `rs`, one per range, in
      order. */
  function ArcsOver(combo: Bubble, other: Bubble, rs: seq<Range>): (arcs: seq<SeamArc>)
    ensures |arcs| == |rs| && forall k :: 0 <= k < |rs| ==> arcs[k] == SeamArc(combo, other, rs[k])
  {
    if rs == [] then [] else [SeamArc(combo, other, rs[0])] + ArcsOver(combo, other, rs[1..])
  }

  /** The arcs of one combo bubble against one candidate, one per overlap range, in order. */
  function PairArcSeq(combo: Bubble, other: Bubble, cosT: seq<real>, sinT: seq<real>): seq<SeamArc>
    requires |cosT| == |sinT|
    reads combo, other
  {
    ArcsOver(combo, other, OverlapRanges(PairFlags(combo, other, cosT, sinT)))
  }

  /** The arcs of one combo bubble against the candidates in their order, skipping the combo
      itself. */
  function ArcsAgainst(combo: Bubble, candidates: seq<Bubble>, cosT: seq<real>, sinT: seq<real>): seq<SeamArc>
    requires |cosT| == |sinT|
    reads combo, set o | o in candidates
  {
    if candidates == [] then []
    else
      var other := candidates[|candidates| - 1];
      ArcsAgainst(combo, candidates[..|candidates| - 1], cosT, sinT) +
      (if other.id == combo.id then [] else PairArcSeq(combo, other, cosT, sinT))
  }

  /** The arcs of the combo bubbles in their order, each against the candidates. */
  function AllComboArcs(combos: seq<Bubble>, candidates: seq<Bubble>, cosT: seq<real>, sinT: seq<real>): seq<SeamArc>
    requires |cosT| == |sinT|
    reads set c | c in combos, set o | o in candidates
  {
    if combos == [] then []
    else
      AllComboArcs(combos[..|combos| - 1], candidates, cosT, sinT) +
      ArcsAgainst(combos[|combos| - 1], candidates, cosT, sinT)
  }

  /** One more combo appends its arcs. */
  lemma AllComboArcsSnoc(combos: seq<Bubble>, k: nat, candidates: seq<Bubble>, cosT: seq<real>, sinT: seq<real>)
    requires |cosT| == |sinT| && k < |combos|
    ensures AllComboArcs(combos[..k + 1], candidates, cosT, sinT) ==
      AllComboArcs(combos[..k], candidates, cosT, sinT) + ArcsAgainst(combos[k], candidates, cosT, sinT)
  {
    assert combos[..k + 1][..k] == combos[..k];
  }

  /** One more candidate appends its arcs, unless it is the combo itself. */
  lemma ArcsAgainstSnoc(combo: Bubble, candidates: seq<Bubble>, k: nat, cosT: seq<real>, sinT: seq<real>)
    requires |cosT| == |sinT| && k < |candidates|
    ensures ArcsAgainst(combo, candidates[..k + 1], cosT, sinT) ==
      ArcsAgainst(combo, candidates[..k], cosT, sinT) +
      (if candidates[k].id == combo.id then [] else PairArcSeq(combo, candidates[k], cosT, sinT))
  {
    assert candidates[..k + 1][..k] == candidates[..k];
  }

  /** With no candidate there is no arc, which is the source's early return. */
  lemma {:induction false} NoCandidatesNoArcs(combos: seq<Bubble>, cosT: seq<real>, sinT: seq<real>)
    requires |cosT| == |sinT|
    ensures AllComboArcs(combos, [], cosT, sinT) == []
    decreases |combos|
  {
    if combos != [] {
      NoCandidatesNoArcs(combos[..|combos| - 1], cosT, sinT);
    }
  }

  /** A combo seam `pro5_drawComboSeams` draws: a combo bubble, a candidate of another id, and
      one of the ranges of the combo's ellipse inside the candidate's. */
  predicate IsComboArc(bubbles: seq<Bubble>, a: SeamArc, cosT: seq<real>, sinT: seq<real>)
    requires |cosT| == |sinT|
    reads a.combo, a.other
  {
    a.combo in bubbles && a.combo.kind == ComboCircle &&
    a.other in bubbles && a.other.kind in SeamCandidateKinds && a.other.id != a.combo.id &&
    a.range in OverlapRanges(PairFlags(a.combo, a.other, cosT, sinT))
  }

  /** The arcs of one pair are exactly its overlap ranges, tagged with the pair. */
  lemma PairArcSeqMembers(combo: Bubble, other: Bubble, cosT: seq<real>, sinT: seq<real>)
    requires |cosT| == |sinT|
    ensures forall a :: a in PairArcSeq(combo, other, cosT, sinT) ==>
      a.combo == combo && a.other == other && a.range in OverlapRanges(PairFlags(combo, other, cosT, sinT))
    ensures forall r :: r in OverlapRanges(PairFlags(combo, other, cosT, sinT)) ==>
      SeamArc(combo, other, r) in PairArcSeq(combo, other, cosT, sinT)
  {
    var rs := OverlapRanges(PairFlags(combo, other, cosT, sinT));
    var arcs := PairArcSeq(combo, other, cosT, sinT);
    forall a | a in arcs
      ensures a.combo == combo && a.other == other && a.range in rs
    {
      var k :| 0 <= k < |arcs| && arcs[k] == a;
    }
    forall r | r in rs
      ensures SeamArc(combo, other, r) in arcs
    {
      var k :| 0 <= k < |rs| && rs[k] == r;
      assert arcs[k] == SeamArc(combo, other, r);
    }
  }

  /** Every arc of one combo against the candidates is a combo seam, and every combo seam of
      that combo with one of the candidates is among them. */
  lemma {:induction false} ArcsAgainstMembers(bubbles: seq<Bubble>, combo: Bubble, candidates: seq<Bubble>,
                                               cosT: seq<real>, sinT: seq<real>)
    requires |cosT| == |sinT|
    requires combo in bubbles && combo.kind == ComboCircle
    requires forall i :: 0 <= i < |candidates| ==> candidates[i] in bubbles && candidates[i].kind in SeamCandidateKinds
    ensures forall a :: a in ArcsAgainst(combo, candidates, cosT, sinT) ==>
      a.combo == combo && IsComboArc(bubbles, a, cosT, sinT)
    ensures forall o, r :: o in candidates && IsComboArc(bubbles, SeamArc(combo, o, r), cosT, sinT) ==>
      SeamArc(combo, o, r) in ArcsAgainst(combo, candidates, cosT, sinT)
    decreases |candidates|
  {
    if candidates != [] {
      var init, other := candidates[..|candidates| - 1], candidates[|candidates| - 1];
      assert candidates == init + [other];
      ArcsAgainstMembers(bubbles, combo, init, cosT, sinT);
      PairArcSeqMembers(combo, other, cosT, sinT);
    }
  }

  /** Every arc of the combos is a combo seam, and every combo seam of one of the combos with
      one of the candidates is among them. */
  lemma {:induction false} AllComboArcsMembers(bubbles: seq<Bubble>, combos: seq<Bubble>, candidates: seq<Bubble>,
                                               cosT: seq<real>, sinT: seq<real>)
    requires |cosT| == |sinT|
    requires forall i :: 0 <= i < |combos| ==> combos[i] in bubbles && combos[i].kind == ComboCircle
    requires forall i :: 0 <= i < |candidates| ==> candidates[i] in bubbles && candidates[i].kind in SeamCandidateKinds
    ensures forall a :: a in AllComboArcs(combos, candidates, cosT, sinT) ==> IsComboArc(bubbles, a, cosT, sinT)
    ensures forall c, o, r :: c in combos && o in candidates && IsComboArc(bubbles, SeamArc(c, o, r), cosT, sinT) ==>
      SeamArc(c, o, r) in AllComboArcs(combos, candidates, cosT, sinT)
    decreases |combos|
  {
    if combos != [] {
      var init, combo := combos[..|combos| - 1], combos[|combos| - 1];
      assert combos == init + [combo];
      AllComboArcsMembers(bubbles, init, candidates, cosT, sinT);
      ArcsAgainstMembers(bubbles, combo, candidates, cosT, sinT);
    }
  }

  /** `pro5_drawComboSeams`: for every combo bubble and every candidate with a different id, the
      arcs over the sampled overlap ranges, combo by combo, then candidate by candidate, then
      range by range. Every arc drawn is such an arc, and every such arc is drawn. */
  method ComboSeams(bubbles: seq<Bubble>, cosT: seq<real>, sinT: seq<real>) returns (arcs: seq<SeamArc>)
    requires |cosT| == |sinT| == SampleSteps + 1
    ensures arcs == AllComboArcs(OfKind(bubbles, {ComboCircle}), OfKind(bubbles, SeamCandidateKinds), cosT, sinT)
    ensures forall a :: a in arcs ==> IsComboArc(bubbles, a, cosT, sinT)
    ensures forall c, o, r :: c in bubbles && o in bubbles && IsComboArc(bubbles, SeamArc(c, o, r), cosT, sinT) ==>
      SeamArc(c, o, r) in arcs
  {
    var combos := OfKind(bubbles, {ComboCircle});
    var candidates := OfKind(bubbles, SeamCandidateKinds);
    OfKindLists(bubbles);
    if |combos| == 0 {
      arcs := [];
    } else if |candidates| == 0 {
      NoCandidatesNoArcs(combos, cosT, sinT);
      arcs := [];
    } else {
      arcs := ArcsOfCombos(bubbles, combos, candidates, cosT, sinT);
    }
    ComboArcsExact(bubbles, combos, candidates, cosT, sinT);
  }

  /** The outer loop of `pro5_drawComboSeams`: the arcs of each combo bubble in turn. */
  method ArcsOfCombos(bubbles: seq<Bubble>, combos: seq<Bubble>, candidates: seq<Bubble>, cosT: seq<real>, sinT: seq<real>)
    returns (arcs: seq<SeamArc>)
    requires |cosT| == |sinT| == SampleSteps + 1
    requires IsComboList(bubbles, combos) && IsCandidateList(bubbles, candidates)
    ensures arcs == AllComboArcs(combos, candidates, cosT, sinT)
  {
    arcs := [];
    for ci := 0 to |combos|
      invariant arcs == AllComboArcs(combos[..ci], candidates, cosT, sinT)
    {
      var combo := combos[ci];
      var more := ComboArcs(bubbles, combo, candidates, cosT, sinT);
      AllComboArcsSnoc(combos, ci, candidates, cosT, sinT);
      arcs := arcs + more;
    }
    assert combos[..|combos|] == combos;
  }

  /** `combos` holds combo bubbles of the page, and every one of them. */
  predicate IsComboList(bubbles: seq<Bubble>, combos: seq<Bubble>)
  {
    (forall i :: 0 <= i < |combos| ==> combos[i] in bubbles && combos[i].kind == ComboCircle) &&
    (forall i :: 0 <= i < |bubbles| && bubbles[i].kind == ComboCircle ==> bubbles[i] in combos)
  }

  /** `candidates` holds seam candidates of the page, and every one of them. */
  predicate IsCandidateList(bubbles: seq<Bubble>, candidates: seq<Bubble>)
  {
    (forall i :: 0 <= i < |candidates| ==> candidates[i] in bubbles && candidates[i].kind in SeamCandidateKinds) &&
    (forall i :: 0 <= i < |bubbles| && bubbles[i].kind in SeamCandidateKinds ==> bubbles[i] in candidates)
  }

  /** The two filters of `pro5_drawComboSeams` give such lists. */
  lemma OfKindLists(bubbles: seq<Bubble>)
    ensures IsComboList(bubbles, OfKind(bubbles, {ComboCircle}))
    ensures IsCandidateList(bubbles, OfKind(bubbles, SeamCandidateKinds))
  {
  }

  /** The arcs of all combos against all candidates are exactly the combo seams of the page. */
  lemma ComboArcsExact(bubbles: seq<Bubble>, combos: seq<Bubble>, candidates: seq<Bubble>, cosT: seq<real>, sinT: seq<real>)
    requires |cosT| == |sinT|
    requires IsComboList(bubbles, combos) && IsCandidateList(bubbles, candidates)
    ensures forall a :: a in AllComboArcs(combos, candidates, cosT, sinT) ==> IsComboArc(bubbles, a, cosT, sinT)
    ensures forall c, o, r :: c in bubbles && o in bubbles && IsComboArc(bubbles, SeamArc(c, o, r), cosT, sinT) ==>
      SeamArc(c, o, r) in AllComboArcs(combos, candidates, cosT, sinT)
  {
    AllComboArcsMembers(bubbles, combos, candidates, cosT, sinT);
    forall c, o, r | c in bubbles && o in bubbles && IsComboArc(bubbles, SeamArc(c, o, r), cosT, sinT)
      ensures c in combos && o in candidates
    {
      var i :| 0 <= i < |bubbles| && bubbles[i] == c;
      var j :| 0 <= j < |bubbles| && bubbles[j] == o;
    }
  }

  /** The arcs of one combo bubble against every candidate, in candidate order. */
  method ComboArcs(bubbles: seq<Bubble>, combo: Bubble, candidates: seq<Bubble>, cosT: seq<real>, sinT: seq<real>)
    returns (arcs: seq<SeamArc>)
    requires |cosT| == |sinT| == SampleSteps + 1
    requires combo in bubbles && combo.kind == ComboCircle
    requires IsCandidateList(bubbles, candidates)
    ensures arcs == ArcsAgainst(combo, candidates, cosT, sinT)
    ensures forall a :: a in arcs ==> IsComboArc(bubbles, a, cosT, sinT)
    ensures forall o, r :: o in bubbles && IsComboArc(bubbles, SeamArc(combo, o, r), cosT, sinT) ==>
      SeamArc(combo, o, r) in arcs
  {
    arcs := [];
    for oi := 0 to |candidates|
      invariant arcs == ArcsAgainst(combo, candidates[..oi], cosT, sinT)
    {
      var other := candidates[oi];
      ArcsAgainstSnoc(combo, candidates, oi, cosT, sinT);
      if other.id == combo.id {
        continue;
      }
      var more := PairArcs(combo, other, cosT, sinT);
      arcs := arcs + more;
    }
    assert candidates[..|candidates|] == candidates;
    ArcsAgainstMembers(bubbles, combo, candidates, cosT, sinT);
  }
}
