/** The text pipeline of a bubble: cleaning the typed text, wrapping it into lines, the padding
    presets and the rectangle the text is laid out in, and the height a bubble grows to so that
    its text fits. Measurements the browser makes (rendered text widths and heights) are
    parameters. */
module Text {
  import opened Seqs
  import opened Options
  import opened Geometry

  // ---------------------------------------------------------------------------------------
  // pro5_sanitizeText
  // ---------------------------------------------------------------------------------------

  /** The zero-width characters U+200B..U+200D and U+FEFF. */
  predicate IsZeroWidth(c: char)
  {
    '\U{200B}' <= c <= '\U{200D}' || c == '\U{FEFF}'
  }

  /** The horizontal blanks the cleaner collapses: space, tab and the ideographic space U+3000. */
  predicate IsBlank(c: char)
  {
    c == ' ' || c == '\t' || c == '\U{3000}'
  }

  predicate IsCarriageReturn(c: char)
  {
    c == '\r'
  }

  /** The blanks other than the space. */
  predicate IsWideBlank(c: char)
  {
    c == '\t' || c == '\U{3000}'
  }

  /** The characters of the regular-expression class `\s`. */
  predicate IsSpace(c: char)
  {
    c == '\t' || c == '\n' || c == '\U{000B}' || c == '\U{000C}' || c == '\r' || c == ' ' ||
    c == '\U{00A0}' || c == '\U{1680}' || '\U{2000}' <= c <= '\U{200A}' || c == '\U{2028}' ||
    c == '\U{2029}' || c == '\U{202F}' || c == '\U{205F}' || c == '\U{3000}' || c == '\U{FEFF}'
  }

  /** No character of `s` has property `p`. */
  predicate Avoids(s: string, p: char -> bool)
  {
    forall k :: 0 <= k < |s| ==> !p(s[k])
  }

  /** No two spaces in a row. */
  predicate NoDoubleSpace(s: string)
  {
    forall k :: 0 <= k < |s| - 1 ==> !(s[k] == ' ' && s[k + 1] == ' ')
  }

  /** Line breaks, in either convention. */
  predicate IsLineBreak(c: char)
  {
    c == '\r' || c == '\n'
  }

  /** `s` with every character that has property `p` deleted: the others stay, each as often as
      in `s` and, by `StripAppend`, in their order. */
  function Strip(s: string, p: char -> bool): (r: string)
    ensures Avoids(r, p) && |r| <= |s|
    decreases |s|
  {
    if s == [] then []
    else if p(s[0]) then Strip(s[1..], p)
    else [s[0]] + Strip(s[1..], p)
  }

  /** Every character without property `p` is kept as often as it occurs. */
  lemma {:induction false} StripCounts(s: string, p: char -> bool)
    ensures forall c :: !p(c) ==> multiset(Strip(s, p))[c] == multiset(s)[c]
    decreases |s|
  {
    if s != [] {
      StripCounts(s[1..], p);
      assert s == [s[0]] + s[1..];
      assert multiset(s) == multiset([s[0]]) + multiset(s[1..]);
    }
  }

  /** Stripping works piece by piece, so it keeps the order of what it keeps. */
  lemma {:induction false} StripAppend(a: string, b: string, p: char -> bool)
    ensures Strip(a + b, p) == Strip(a, p) + Strip(b, p)
    decreases |a|
  {
    if a == [] {
      assert a + b == b;
    } else {
      assert (a + b)[0] == a[0] && (a + b)[1..] == a[1..] + b;
      StripAppend(a[1..], b, p);
    }
  }

  /** Stripping a text whose last character has property `p` is stripping the rest. */
  lemma StripLast(s: string, p: char -> bool)
    requires s != [] && p(s[|s| - 1])
    ensures Strip(s, p) == Strip(s[..|s| - 1], p)
  {
    var last := s[|s| - 1];
    assert s == s[..|s| - 1] + [last];
    StripAppend(s[..|s| - 1], [last], p);
    assert [last][1..] == [];
  }

  /** Stripping a wider class after a narrower one is stripping the wider one. */
  lemma {:induction false} StripStrip(s: string, q: char -> bool, p: char -> bool)
    requires forall c :: q(c) ==> p(c)
    ensures Strip(Strip(s, q), p) == Strip(s, p)
    decreases |s|
  {
    if s != [] {
      StripStrip(s[1..], q, p);
      if !q(s[0]) {
        var t := Strip(s[1..], q);
        assert ([s[0]] + t)[0] == s[0] && ([s[0]] + t)[1..] == t;
      }
    }
  }

  /** Stripping a text made only of characters with property `p` leaves nothing. */
  lemma {:induction false} StripAll(s: string, p: char -> bool)
    requires forall k :: 0 <= k < |s| ==> p(s[k])
    ensures Strip(s, p) == []
    decreases |s|
  {
    if s != [] {
      StripAll(s[1..], p);
    }
  }

  /** Step 1: delete the zero-width characters; every other character stays, as often as it
      occurs, in order (`StripAppend`). */
  function RemoveZeroWidth(s: string): (r: string)
    ensures Avoids(r, IsZeroWidth) && |r| <= |s|
    ensures forall c :: !IsZeroWidth(c) ==> multiset(r)[c] == multiset(s)[c]
  {
    StripCounts(s, IsZeroWidth);
    Strip(s, IsZeroWidth)
  }

  /** The number of "\r\n" pairs in `s`. */
  function CrLfs(s: string): nat
    decreases |s|
  {
    if |s| < 2 then 0
    else (if s[0] == '\r' && s[1] == '\n' then 1 else 0) + CrLfs(s[1..])
  }

  /** Step 2: every "\r\n" and every lone "\r" becomes "\n". */
  function NormalizeBreaks(s: string): (r: string)
    ensures Avoids(r, IsCarriageReturn)
    decreases |s|
  {
    if s == [] then []
    else if s[0] == '\r' then
      ['\n'] + NormalizeBreaks(if |s| > 1 && s[1] == '\n' then s[2..] else s[1..])
    else [s[0]] + NormalizeBreaks(s[1..])
  }

  /** Normalising the line breaks keeps everything but line breaks, in order, and turns each
      "\r\n" pair into one character. */
  lemma {:induction false} NormalizeBreaksKeepsText(s: string)
    ensures Strip(NormalizeBreaks(s), IsLineBreak) == Strip(s, IsLineBreak)
    ensures |NormalizeBreaks(s)| == |s| - CrLfs(s)
    decreases |s|
  {
    if s != [] {
      if s[0] == '\r' {
        var t := if |s| > 1 && s[1] == '\n' then s[2..] else s[1..];
        NormalizeBreaksKeepsText(t);
        assert |s| > 1 && s[1] == '\n' ==> s[1..][1..] == s[2..];
        assert Strip(s, IsLineBreak) == Strip(t, IsLineBreak);
        assert (['\n'] + NormalizeBreaks(t))[1..] == NormalizeBreaks(t);
      } else {
        NormalizeBreaksKeepsText(s[1..]);
        assert ([s[0]] + NormalizeBreaks(s[1..]))[1..] == NormalizeBreaks(s[1..]);
      }
    }
  }

  /** The input with its leading blanks removed. */
  function DropBlanks(s: string): (r: string)
    ensures |r| <= |s| && r == s[|s| - |r|..]
    ensures r == [] || !IsBlank(r[0])
    decreases |s|
  {
    if s != [] && IsBlank(s[0]) then DropBlanks(s[1..]) else s
  }

  /** The number of runs of blanks in `s`, counted at the last blank of each run. */
  function BlankRuns(s: string): nat
    decreases |s|
  {
    if s == [] then 0
    else (if IsBlank(s[0]) && (|s| == 1 || !IsBlank(s[1])) then 1 else 0) + BlankRuns(s[1..])
  }

  /** A text starting with a blank holds one run of blanks more than what follows the run. */
  lemma {:induction false} DropBlanksRun(s: string)
    requires s != [] && IsBlank(s[0])
    ensures BlankRuns(s) == 1 + BlankRuns(DropBlanks(s[1..]))
    ensures Strip(s, IsBlank) == Strip(DropBlanks(s[1..]), IsBlank)
    decreases |s|
  {
    if |s| > 1 && IsBlank(s[1]) {
      DropBlanksRun(s[1..]);
      assert s[1..][1..] == s[2..];
    }
  }

  /** Step 3: every run of blanks becomes one space. */
  function CollapseBlanks(s: string): (r: string)
    decreases |s|
  {
    if s == [] then []
    else if IsBlank(s[0]) then [' '] + CollapseBlanks(DropBlanks(s[1..]))
    else [s[0]] + CollapseBlanks(s[1..])
  }

  /** Collapsing keeps every character but the blanks, in order, and one character stands for
      each run of blanks. */
  lemma {:induction false} CollapseBlanksKeepsText(s: string)
    ensures Strip(CollapseBlanks(s), IsBlank) == Strip(s, IsBlank)
    ensures |CollapseBlanks(s)| == |Strip(s, IsBlank)| + BlankRuns(s)
    decreases |s|
  {
    if s != [] {
      if IsBlank(s[0]) {
        DropBlanksRun(s);
        var t := CollapseBlanks(DropBlanks(s[1..]));
        CollapseBlanksKeepsText(DropBlanks(s[1..]));
        assert ([' '] + t)[1..] == t;
      } else {
        var t := CollapseBlanks(s[1..]);
        CollapseBlanksKeepsText(s[1..]);
        assert ([s[0]] + t)[1..] == t;
      }
    }
  }

  /** Step 4, first half: remove leading whitespace, and only that. */
  function TrimStart(s: string): (r: string)
    ensures |r| <= |s| && r == s[|s| - |r|..]
    ensures forall k :: 0 <= k < |s| - |r| ==> IsSpace(s[k])
    ensures r == [] || !IsSpace(r[0])
    decreases |s|
  {
    if s != [] && IsSpace(s[0]) then TrimStart(s[1..]) else s
  }

  /** Step 4, second half: remove trailing whitespace, and only that. */
  function TrimEnd(s: string): (r: string)
    ensures |r| <= |s| && r == s[..|r|]
    ensures forall k :: |r| <= k < |s| ==> IsSpace(s[k])
    ensures r == [] || !IsSpace(r[|r| - 1])
    decreases |s|
  {
    if s != [] && IsSpace(s[|s| - 1]) then TrimEnd(s[..|s| - 1]) else s
  }

  /** `pro5_sanitizeText`. */
  function Sanitize(s: string): (r: string)
    ensures Clean(r)
  {
    var c := CollapseBlanks(NormalizeBreaks(RemoveZeroWidth(s)));
    CollapsedShape(s);
    TrimKeepsClean(c);
    TrimEnd(TrimStart(c))
  }

  /** What a cleaned text looks like: no zero-width characters, no carriage returns, no tabs or
      ideographic spaces, no two spaces in a row, and no whitespace at either end. */
  predicate Clean(s: string)
  {
    CleanInside(s) && TrimmedEnds(s)
  }

  /** Clean but for the ends. */
  predicate CleanInside(s: string)
  {
    Avoids(s, IsZeroWidth) && Avoids(s, IsCarriageReturn) && Avoids(s, IsWideBlank) && NoDoubleSpace(s)
  }

  /** No whitespace at either end. */
  predicate TrimmedEnds(s: string)
  {
    s == [] || (!IsSpace(s[0]) && !IsSpace(s[|s| - 1]))
  }

  lemma {:induction false} NormalizeBreaksKeeps(s: string, p: char -> bool)
    requires Avoids(s, p) && !p('\n')
    ensures Avoids(NormalizeBreaks(s), p)
    decreases |s|
  {
    if s != [] {
      if s[0] == '\r' {
        NormalizeBreaksKeeps(if |s| > 1 && s[1] == '\n' then s[2..] else s[1..], p);
      } else {
        NormalizeBreaksKeeps(s[1..], p);
      }
    }
  }

  lemma {:induction false} CollapseBlanksKeeps(s: string, p: char -> bool)
    requires Avoids(s, p) && !p(' ')
    ensures Avoids(CollapseBlanks(s), p)
    decreases |s|
  {
    if s != [] {
      if IsBlank(s[0]) {
        CollapseBlanksKeeps(DropBlanks(s[1..]), p);
      } else {
        CollapseBlanksKeeps(s[1..], p);
      }
    }
  }

  /** Collapsing leaves no tab, no ideographic space and no double space; its result starts
      with a space only where its input starts with a blank. */
  lemma {:induction false} CollapseBlanksShape(s: string)
    ensures var r := CollapseBlanks(s);
      Avoids(r, IsWideBlank) && NoDoubleSpace(r) &&
      (r != [] && r[0] == ' ' ==> s != [] && IsBlank(s[0]))
    decreases |s|
  {
    if s != [] {
      var t := if IsBlank(s[0]) then DropBlanks(s[1..]) else s[1..];
      var head := if IsBlank(s[0]) then ' ' else s[0];
      CollapseBlanksShape(t);
      var u := CollapseBlanks(t);
      assert CollapseBlanks(s) == [head] + u;
      assert IsBlank(s[0]) ==> u == [] || u[0] != ' ';
      forall k | 0 <= k < |u| + 1
        ensures !IsWideBlank(([head] + u)[k])
      {
        if k > 0 {
          assert ([head] + u)[k] == u[k - 1];
        }
      }
      forall k | 0 <= k < |u|
        ensures !(([head] + u)[k] == ' ' && ([head] + u)[k + 1] == ' ')
      {
        if k > 0 {
          assert ([head] + u)[k] == u[k - 1];
        }
      }
    }
  }

  /** Cleaning changes only whitespace: apart from the zero-width characters it deletes, the
      visible characters of the text stay, each one, in their order. */
  lemma SanitizeKeepsText(s: string)
    ensures Strip(Sanitize(s), IsSpace) == Strip(RemoveZeroWidth(s), IsSpace)
  {
    var a := RemoveZeroWidth(s);
    var b := NormalizeBreaks(a);
    var c := CollapseBlanks(b);
    TrimKeepsText(c);
    CollapseBlanksKeepsText(b);
    NormalizeBreaksKeepsText(a);
    StripStrip(c, IsBlank, IsSpace);
    StripStrip(b, IsBlank, IsSpace);
    StripStrip(b, IsLineBreak, IsSpace);
    StripStrip(a, IsLineBreak, IsSpace);
  }

  /** Trimming deletes whitespace only. */
  lemma TrimKeepsText(c: string)
    ensures Strip(TrimEnd(TrimStart(c)), IsSpace) == Strip(c, IsSpace)
  {
    TrimStartKeepsText(c);
    TrimEndKeepsText(TrimStart(c));
  }

  lemma {:induction false} TrimStartKeepsText(c: string)
    ensures Strip(TrimStart(c), IsSpace) == Strip(c, IsSpace)
    decreases |c|
  {
    if c != [] && IsSpace(c[0]) {
      TrimStartKeepsText(c[1..]);
    }
  }

  lemma {:induction false} TrimEndKeepsText(c: string)
    ensures Strip(TrimEnd(c), IsSpace) == Strip(c, IsSpace)
    decreases |c|
  {
    if c != [] && IsSpace(c[|c| - 1]) {
      var init := c[..|c| - 1];
      assert TrimEnd(c) == TrimEnd(init);
      TrimEndKeepsText(init);
      StripLast(c, IsSpace);
    }
  }

  /** After the first three steps only the ends can still be dirty. */
  lemma CollapsedShape(s: string)
    ensures CleanInside(CollapseBlanks(NormalizeBreaks(RemoveZeroWidth(s))))
  {
    var a := RemoveZeroWidth(s);
    var b := NormalizeBreaks(a);
    NormalizeBreaksKeeps(a, IsZeroWidth);
    CollapseBlanksKeeps(b, IsZeroWidth);
    CollapseBlanksKeeps(b, IsCarriageReturn);
    CollapseBlanksShape(b);
  }

  /** Trimming a text that is clean but for its ends makes it clean. */
  lemma TrimKeepsClean(c: string)
    requires CleanInside(c)
    ensures Clean(TrimEnd(TrimStart(c)))
  {
    var d := TrimStart(c);
    var e := TrimEnd(d);
    assert d == c[|c| - |d|..|c|];
    SliceKeepsClean(c, |c| - |d|, |c|);
    assert e == d[0..|e|];
    SliceKeepsClean(d, 0, |e|);
    TrimBothEnds(c);
  }

  /** A slice of a text clean inside is clean inside. */
  lemma SliceKeepsClean(s: string, i: nat, j: nat)
    requires i <= j <= |s| && CleanInside(s)
    ensures CleanInside(s[i..j])
  {
    SliceAvoids(s, i, j, IsZeroWidth);
    SliceAvoids(s, i, j, IsCarriageReturn);
    SliceAvoids(s, i, j, IsWideBlank);
    SliceNoDoubleSpace(s, i, j);
  }

  /** Trimming leaves no whitespace at either end. */
  lemma TrimBothEnds(s: string)
    ensures TrimmedEnds(TrimEnd(TrimStart(s)))
  {
    var d := TrimStart(s);
    var e := TrimEnd(d);
    if e != [] {
      assert e[0] == d[0];
    }
  }

  /** A slice avoids what the whole avoids. */
  lemma SliceAvoids(s: string, i: nat, j: nat, p: char -> bool)
    requires i <= j <= |s| && Avoids(s, p)
    ensures Avoids(s[i..j], p)
  {
    forall k | 0 <= k < j - i
      ensures !p(s[i..j][k])
    {
      assert s[i..j][k] == s[i + k];
    }
  }

  /** A slice has no double space where the whole has none. */
  lemma SliceNoDoubleSpace(s: string, i: nat, j: nat)
    requires i <= j <= |s| && NoDoubleSpace(s)
    ensures NoDoubleSpace(s[i..j])
  {
    forall k | 0 <= k < j - i - 1
      ensures !(s[i..j][k] == ' ' && s[i..j][k + 1] == ' ')
    {
      assert s[i..j][k] == s[i + k] && s[i..j][k + 1] == s[i + k + 1];
    }
  }

  lemma {:induction false} RemoveZeroWidthNoop(s: string)
    requires Avoids(s, IsZeroWidth)
    ensures RemoveZeroWidth(s) == s
    decreases |s|
  {
    if s != [] {
      RemoveZeroWidthNoop(s[1..]);
    }
  }

  lemma {:induction false} NormalizeBreaksNoop(s: string)
    requires Avoids(s, IsCarriageReturn)
    ensures NormalizeBreaks(s) == s
    decreases |s|
  {
    if s != [] {
      NormalizeBreaksNoop(s[1..]);
    }
  }

  lemma {:induction false} CollapseBlanksNoop(s: string)
    requires Avoids(s, IsWideBlank) && NoDoubleSpace(s)
    ensures CollapseBlanks(s) == s
    decreases |s|
  {
    if s != [] {
      var t := s[1..];
      assert t == s[1..|s|];
      SliceAvoids(s, 1, |s|, IsWideBlank);
      SliceNoDoubleSpace(s, 1, |s|);
      CollapseBlanksNoop(t);
      if IsBlank(s[0]) {
        assert s[0] == ' ';
        if t != [] {
          assert t[0] == s[1] && !IsWideBlank(s[1]);
        }
        assert DropBlanks(t) == t;
        assert CollapseBlanks(s) == [' '] + CollapseBlanks(t);
      } else {
        assert CollapseBlanks(s) == [s[0]] + CollapseBlanks(t);
      }
      assert s == [s[0]] + t;
    }
  }

  /** Cleaning a cleaned text changes nothing. */
  lemma SanitizeIdempotent(s: string)
    ensures Sanitize(Sanitize(s)) == Sanitize(s)
  {
    var c := Sanitize(s);
    RemoveZeroWidthNoop(c);
    NormalizeBreaksNoop(c);
    CollapseBlanksNoop(c);
  }

  // ---------------------------------------------------------------------------------------
  // pro5_wrapTextChinese
  // ---------------------------------------------------------------------------------------

  /** The punctuation that always closes a line: ，。,．.、！？!?；; */
  predicate IsPunct(c: char)
  {
    c == '，' || c == '。' || c == ',' || c == '．' || c == '.' || c == '、' ||
    c == '！' || c == '？' || c == '!' || c == '?' || c == '；' || c == ';'
  }

  /** The two's-complement 32-bit integer a number becomes under `| 0`. */
  function ToInt32(v: int): (r: int)
    ensures -0x8000_0000 <= r < 0x8000_0000
    ensures -0x8000_0000 <= v < 0x8000_0000 ==> r == v
  {
    (v + 0x8000_0000) % 0x1_0000_0000 - 0x8000_0000
  }

  /** The characters-per-line budget: `charsPerLine | 0` kept within [4, 10]. */
  function Budget(charsPerLine: int): (cpl: int)
    ensures 4 <= cpl <= 10
    ensures 4 <= charsPerLine <= 10 ==> cpl == charsPerLine
  {
    var v := ToInt32(charsPerLine);
    if v < 4 then 4 else if v > 10 then 10 else v
  }

  /** A line holding no punctuation. */
  predicate NoPunct(s: string)
  {
    forall k :: 0 <= k < |s| ==> !IsPunct(s[k])
  }

  /** The lines the wrapper emits: a punctuation mark closing at most `cpl - 1` other characters,
      or exactly `cpl` characters without punctuation. */
  predicate ClosedLine(line: string, cpl: int)
  {
    (0 < |line| <= cpl && IsPunct(line[|line| - 1]) && NoPunct(line[..|line| - 1])) ||
    (|line| == cpl && NoPunct(line))
  }

  /** The leftover last line: fewer than `cpl` characters, no punctuation. */
  predicate OpenLine(line: string, cpl: int)
  {
    0 < |line| < cpl && NoPunct(line)
  }

  /** `pro5_wrapTextChinese`: breaks the text after each punctuation mark and after every `cpl`
      other characters. The lines put together give back the text; every line is non-empty, a
      punctuation mark only ever ends a line, and no line holds more than `cpl` characters other
      than its closing mark. */
  method WrapChinese(text: string, charsPerLine: int) returns (lines: seq<string>)
    ensures Flatten(lines) == text
    ensures forall i :: 0 <= i < |lines| ==>
      ClosedLine(lines[i], Budget(charsPerLine)) || (i == |lines| - 1 && OpenLine(lines[i], Budget(charsPerLine)))
  {
    var cpl := Budget(charsPerLine);
    lines := [];
    var buf: string := [];
    var cnt := 0;
    for i := 0 to |text|
      invariant Flatten(lines) + buf == text[..i]
      invariant cnt == |buf| < cpl && NoPunct(buf)
      invariant forall k :: 0 <= k < |lines| ==> ClosedLine(lines[k], cpl)
    {
      assert text[..i + 1] == text[..i] + [text[i]];
      lines, buf, cnt := ChineseStep(lines, buf, cnt, text[i], cpl);
    }
    assert text[..|text|] == text;
    if buf != [] {
      FlattenPush(lines, buf);
      lines := lines + [buf];
    }
  }

  /** One step of `pro5_wrapTextChinese`: a punctuation mark closes the current line; any other
      character joins it, and the line is closed once it holds `cpl` characters. */
  method ChineseStep(lines: seq<string>, buf: string, cnt: int, ch: char, cpl: int)
    returns (lines': seq<string>, buf': string, cnt': int)
    requires cnt == |buf| < cpl && NoPunct(buf)
    requires forall k :: 0 <= k < |lines| ==> ClosedLine(lines[k], cpl)
    ensures Flatten(lines') + buf' == Flatten(lines) + buf + [ch]
    ensures cnt' == |buf'| < cpl && NoPunct(buf')
    ensures forall k :: 0 <= k < |lines'| ==> ClosedLine(lines'[k], cpl)
  {
    if IsPunct(ch) {
      var line := buf + [ch];
      assert line[..|line| - 1] == buf;
      assert ClosedLine(line, cpl);
      FlattenPush(lines, line);
      lines', buf', cnt' := lines + [line], [], 0;
    } else {
      buf' := buf + [ch];
      cnt' := cnt + 1;
      assert NoPunct(buf');
      lines' := lines;
      if cnt' >= cpl {
        FlattenPush(lines, buf');
        lines' := lines + [buf'];
        buf' := [];
        cnt' := 0;
      }
    }
  }

  // ---------------------------------------------------------------------------------------
  // pro5_wrapByWidth
  // ---------------------------------------------------------------------------------------

  /** `s.split('\n')`: the pieces between line breaks, always at least one. */
  function SplitLines(s: string): (r: seq<string>)
    ensures |r| >= 1
    ensures forall i :: 0 <= i < |r| ==> '\n' !in r[i]
    decreases |s|
  {
    if s == [] then [[]]
    else
      var rest := SplitLines(s[1..]);
      if s[0] == '\n' then [[]] + rest
      else [[s[0]] + rest[0]] + rest[1..]
  }

  /** `lines.join('\n')`. */
  function JoinLines(lines: seq<string>): string
    decreases |lines|
  {
    if lines == [] then []
    else if |lines| == 1 then lines[0]
    else lines[0] + ['\n'] + JoinLines(lines[1..])
  }

  /** Splitting at the line breaks and joining with line breaks gives the text back. */
  lemma {:induction false} SplitJoin(s: string)
    ensures JoinLines(SplitLines(s)) == s
    decreases |s|
  {
    if s != [] {
      var rest := SplitLines(s[1..]);
      SplitJoin(s[1..]);
      if s[0] == '\n' {
        assert ([[]] + rest)[1..] == rest;
      } else {
        var r := [[s[0]] + rest[0]] + rest[1..];
        if |rest| > 1 {
          assert r[1..] == rest[1..];
          assert JoinLines(rest) == rest[0] + ['\n'] + JoinLines(rest[1..]);
        }
      }
    }
  }

  /** A line break at the end opens a new, empty piece. */
  lemma {:induction false} SplitLinesBreak(s: string)
    ensures SplitLines(s + ['\n']) == SplitLines(s) + [[]]
    decreases |s|
  {
    if s == [] {
      assert s + ['\n'] == ['\n'] && ['\n'][1..] == [];
    } else {
      var t := s[1..];
      assert (s + ['\n'])[0] == s[0] && (s + ['\n'])[1..] == t + ['\n'];
      SplitLinesBreak(t);
      var rest := SplitLines(t);
      if s[0] != '\n' {
        assert (rest + [[]])[1..] == rest[1..] + [[]];
      }
    }
  }

  /** Any other character at the end extends the last piece. */
  lemma {:induction false} SplitLinesExtend(s: string, c: char)
    requires c != '\n'
    ensures var r := SplitLines(s); SplitLines(s + [c]) == r[..|r| - 1] + [r[|r| - 1] + [c]]
    decreases |s|
  {
    if s == [] {
      assert s + [c] == [c] && [c][1..] == [];
      assert SplitLines([]) == [[]];
      assert SplitLines([c]) == [[c] + []] + [[]][1..];
      var empty: string := [];
      assert [c] + empty == [c] && [empty][1..] == [];
      assert SplitLines(s)[..0] + [SplitLines(s)[0] + [c]] == [[c]];
    } else {
      var t := s[1..];
      assert (s + [c])[0] == s[0] && (s + [c])[1..] == t + [c];
      SplitLinesExtend(t, c);
      var rest := SplitLines(t);
      if s[0] == '\n' {
        assert SplitLines(s) == [[]] + rest;
        assert SplitLines(s + [c]) == [[]] + SplitLines(t + [c]);
        ExtendAfterFirst([], rest, c);
      } else {
        assert SplitLines(s) == [[s[0]] + rest[0]] + rest[1..];
        assert SplitLines(s + [c]) == [[s[0]] + SplitLines(t + [c])[0]] + SplitLines(t + [c])[1..];
        ExtendInFirst([s[0]], rest, c);
      }
    }
  }

  /** Extending the last piece after a piece put in front. */
  lemma ExtendAfterFirst(first: string, rest: seq<string>, c: char)
    requires |rest| >= 1
    ensures var r := [first] + rest;
      [first] + (rest[..|rest| - 1] + [rest[|rest| - 1] + [c]]) == r[..|r| - 1] + [r[|r| - 1] + [c]]
  {
    var r := [first] + rest;
    assert r[..|r| - 1] == [first] + rest[..|rest| - 1];
  }

  /** Extending the last piece after characters put in front of the first piece. */
  lemma ExtendInFirst(x: string, rest: seq<string>, c: char)
    requires |rest| >= 1
    ensures var r := [x + rest[0]] + rest[1..];
      var rest' := rest[..|rest| - 1] + [rest[|rest| - 1] + [c]];
      [x + rest'[0]] + rest'[1..] == r[..|r| - 1] + [r[|r| - 1] + [c]]
  {
    var m := |rest|;
    var r := [x + rest[0]] + rest[1..];
    var rest' := rest[..m - 1] + [rest[m - 1] + [c]];
    if m == 1 {
      assert rest' == [rest[0] + [c]];
      assert x + (rest[0] + [c]) == (x + rest[0]) + [c];
    } else {
      assert rest'[0] == rest[0] && rest'[1..] == rest[1..m - 1] + [rest[m - 1] + [c]];
      assert r[..|r| - 1] == [x + rest[0]] + rest[1..m - 1];
    }
  }

  /** The text without its line breaks. */
  function WithoutBreaks(s: string): (r: string)
    ensures '\n' !in r
    decreases |s|
  {
    if s == [] then []
    else if s[0] == '\n' then WithoutBreaks(s[1..])
    else [s[0]] + WithoutBreaks(s[1..])
  }

  lemma WithoutBreaksSnoc(s: string, c: char)
    ensures WithoutBreaks(s + [c]) == WithoutBreaks(s) + (if c == '\n' then [] else [c])
    decreases |s|
  {
    if s != [] {
      assert (s + [c])[1..] == s[1..] + [c];
      WithoutBreaksSnoc(s[1..], c);
    } else {
      assert WithoutBreaks([c]) == (if c == '\n' then [] else [c]) + WithoutBreaks([]);
    }
  }

  /** Line properties of the automatic width wrap: no line holds a line break, and every line of
      two or more characters fits the width (a single character wider than the width is cut on
      its own). */
  predicate FitsWidth(line: string, measure: string -> real, maxWidth: real)
  {
    '\n' !in line && (|line| >= 2 ==> measure(line) <= maxWidth)
  }

  /** `groups` cuts `lines` into consecutive runs, one per piece of the text between its line
      breaks: the lines of run `k` put together give piece `k` back, and every piece but the
      last yields at least one line (a possibly empty one). */
  ghost predicate LinesOfPieces(lines: seq<string>, pieces: seq<string>, groups: seq<seq<string>>)
  {
    |groups| == |pieces| && Flatten(groups) == lines &&
    (forall k :: 0 <= k < |groups| ==> Flatten(groups[k]) == pieces[k]) &&
    (forall k :: 0 <= k < |groups| - 1 ==> groups[k] != [])
  }

  /** `pro5_wrapByWidth`: with wrapping off, the cleaned text split at its line breaks; with
      wrapping on, a greedy fill of each line up to `maxWidth` as `measure` reports it, with
      every line break of the cleaned text ending a line. Either way no character other than a
      line break is lost or moved. */
  method WrapByWidth(text: string, measure: string -> real, maxWidth: real, autoWrap: bool)
    returns (lines: seq<string>)
    ensures var raw := Sanitize(text);
      !autoWrap ==> |lines| >= 1 && JoinLines(lines) == raw &&
                    forall i :: 0 <= i < |lines| ==> '\n' !in lines[i]
    ensures var raw := Sanitize(text);
      autoWrap ==> (Flatten(lines) == WithoutBreaks(raw) &&
                    (exists groups :: LinesOfPieces(lines, SplitLines(raw), groups)) &&
                    forall i :: 0 <= i < |lines| ==> FitsWidth(lines[i], measure, maxWidth))
  {
    var raw := Sanitize(text);
    if !autoWrap {
      lines := SplitLines(raw);
      SplitJoin(raw);
      return;
    }
    ghost var groups;
    lines, groups := GreedyWrap(raw, measure, maxWidth);
  }

  /** The automatic-wrap loop of `pro5_wrapByWidth` over the cleaned text; `groups` tells which
      lines came from which piece between line breaks. */
  method GreedyWrap(raw: string, measure: string -> real, maxWidth: real)
    returns (lines: seq<string>, ghost groups: seq<seq<string>>)
    ensures Flatten(lines) == WithoutBreaks(raw)
    ensures LinesOfPieces(lines, SplitLines(raw), groups)
    ensures forall i :: 0 <= i < |lines| ==> FitsWidth(lines[i], measure, maxWidth)
  {
    lines := [];
    var buf: string := [];
    ghost var closed: seq<seq<string>> := [];
    ghost var cur: seq<string> := [];
    for i := 0 to |raw|
      invariant Flatten(lines) + buf == WithoutBreaks(raw[..i])
      invariant forall k :: 0 <= k < |lines| ==> FitsWidth(lines[k], measure, maxWidth)
      invariant FitsWidth(buf, measure, maxWidth)
      invariant PiecesSoFar(lines, buf, closed, cur, SplitLines(raw[..i]))
    {
      assert raw[..i + 1] == raw[..i] + [raw[i]];
      WithoutBreaksSnoc(raw[..i], raw[i]);
      var lines', buf' := WrapChar(lines, buf, raw[i], measure, maxWidth);
      closed, cur := AdvancePieces(lines, buf, closed, cur, raw[..i], raw[i], lines', buf');
      lines, buf := lines', buf';
    }
    assert raw[..|raw|] == raw;
    PiecesSoFarDone(lines, buf, closed, cur, SplitLines(raw));
    if buf != [] {
      FlattenPush(lines, buf);
      forall k | 0 <= k < |lines| + 1
        ensures FitsWidth((lines + [buf])[k], measure, maxWidth)
      {
        if k < |lines| {
          assert (lines + [buf])[k] == lines[k];
        }
      }
      lines, cur := lines + [buf], cur + [buf];
    }
    groups := closed + [cur];
  }

  /** The runs after one more character of the text, given what the wrap step did with it. */
  ghost method AdvancePieces(lines: seq<string>, buf: string, closed: seq<seq<string>>, cur: seq<string>,
                             prefix: string, c: char, lines': seq<string>, buf': string)
    returns (closed': seq<seq<string>>, cur': seq<string>)
    requires PiecesSoFar(lines, buf, closed, cur, SplitLines(prefix))
    requires c == '\n' ==> lines' == lines + [buf] && buf' == []
    requires c != '\n' ==> |lines| <= |lines'| && lines'[..|lines|] == lines &&
                           Flatten(lines'[|lines|..]) + buf' == buf + [c]
    ensures PiecesSoFar(lines', buf', closed', cur', SplitLines(prefix + [c]))
  {
    if c == '\n' {
      SplitLinesBreak(prefix);
      PiecesSoFarBreak(lines, buf, closed, cur, SplitLines(prefix));
      closed', cur' := closed + [cur + [buf]], [];
    } else {
      SplitLinesExtend(prefix, c);
      var extra := lines'[|lines|..];
      assert lines' == lines + extra;
      PiecesSoFarExtend(lines, buf, closed, cur, SplitLines(prefix), extra, buf', c);
      closed', cur' := closed, cur + extra;
    }
  }

  /** The loop state of the automatic wrap after a prefix split into `pieces`: the lines out so
      far are the runs `closed` of the finished pieces followed by the lines `cur` of the last
      piece, whose rest is still in `buf`. */
  ghost predicate PiecesSoFar(lines: seq<string>, buf: string, closed: seq<seq<string>>, cur: seq<string>,
                              pieces: seq<string>)
  {
    |pieces| >= 1 && lines == Flatten(closed) + cur && RunsMatch(closed, pieces[..|pieces| - 1]) &&
    Flatten(cur) + buf == pieces[|pieces| - 1]
  }

  /** Each run is non-empty and holds the lines of its piece. */
  ghost predicate RunsMatch(runs: seq<seq<string>>, pieces: seq<string>)
  {
    |runs| == |pieces| && forall k :: 0 <= k < |runs| ==> Flatten(runs[k]) == pieces[k] && runs[k] != []
  }

  lemma RunsMatchPush(runs: seq<seq<string>>, pieces: seq<string>, run: seq<string>, piece: string)
    requires RunsMatch(runs, pieces) && Flatten(run) == piece && run != []
    ensures RunsMatch(runs + [run], pieces + [piece])
  {
    forall k | 0 <= k < |runs| + 1
      ensures Flatten((runs + [run])[k]) == (pieces + [piece])[k] && (runs + [run])[k] != []
    {
      if k < |runs| {
        assert (runs + [run])[k] == runs[k] && (pieces + [piece])[k] == pieces[k];
      }
    }
  }

  /** A line break closes the current line and with it the current piece. */
  lemma PiecesSoFarBreak(lines: seq<string>, buf: string, closed: seq<seq<string>>, cur: seq<string>,
                         pieces: seq<string>)
    requires PiecesSoFar(lines, buf, closed, cur, pieces)
    ensures PiecesSoFar(lines + [buf], [], closed + [cur + [buf]], [], pieces + [[]])
  {
    FlattenPush(closed, cur + [buf]);
    FlattenPush(cur, buf);
    var n := |pieces|;
    RunsMatchPush(closed, pieces[..n - 1], cur + [buf], pieces[n - 1]);
    assert (pieces + [[]])[..n] == pieces[..n - 1] + [pieces[n - 1]];
  }

  /** Any other character adds lines to the current piece only. */
  lemma PiecesSoFarExtend(lines: seq<string>, buf: string, closed: seq<seq<string>>, cur: seq<string>,
                          pieces: seq<string>, extra: seq<string>, buf': string, c: char)
    requires PiecesSoFar(lines, buf, closed, cur, pieces)
    requires Flatten(extra) + buf' == buf + [c]
    ensures PiecesSoFar(lines + extra, buf', closed, cur + extra,
                        pieces[..|pieces| - 1] + [pieces[|pieces| - 1] + [c]])
  {
    ExtendCurrent(cur, buf, extra, buf', c);
    assert lines + extra == Flatten(closed) + (cur + extra);
    var n := |pieces|;
    var pieces' := pieces[..n - 1] + [pieces[n - 1] + [c]];
    assert pieces'[..n - 1] == pieces[..n - 1];
  }

  /** At the end of the text the last line, if any, goes out, and the runs are complete. */
  lemma PiecesSoFarDone(lines: seq<string>, buf: string, closed: seq<seq<string>>, cur: seq<string>,
                        pieces: seq<string>)
    requires PiecesSoFar(lines, buf, closed, cur, pieces)
    ensures buf == [] ==> LinesOfPieces(lines, pieces, closed + [cur])
    ensures buf != [] ==> LinesOfPieces(lines + [buf], pieces, closed + [cur + [buf]])
  {
    var last := if buf == [] then cur else cur + [buf];
    FlattenPush(closed, last);
    FlattenPush(cur, buf);
    var n := |pieces|;
    assert Flatten(closed + [last]) == (if buf == [] then lines else lines + [buf]);
    forall k | 0 <= k < |closed| + 1
      ensures Flatten((closed + [last])[k]) == pieces[k]
    {
      if k < |closed| {
        assert (closed + [last])[k] == closed[k] && pieces[..n - 1][k] == pieces[k];
      }
    }
    forall k | 0 <= k < |closed|
      ensures (closed + [last])[k] != []
    {
      assert (closed + [last])[k] == closed[k];
    }
  }

  /** The lines a step adds to the current piece, with what stays buffered, carry the piece on
      by the character read. */
  lemma ExtendCurrent(cur: seq<string>, buf: string, extra: seq<string>, buf': string, c: char)
    requires Flatten(extra) + buf' == buf + [c]
    ensures Flatten(cur + extra) + buf' == (Flatten(cur) + buf) + [c]
  {
    FlattenAppend(cur, extra);
    calc {
      Flatten(cur + extra) + buf';
      (Flatten(cur) + Flatten(extra)) + buf';
      Flatten(cur) + (Flatten(extra) + buf');
      Flatten(cur) + (buf + [c]);
    }
  }

  /** One step of the automatic-wrap loop: a line break closes the current line; any other
      character joins it if the result still fits, else starts the next line (or, on an empty
      line, goes out as a line of its own). Lines already out are never changed. */
  method WrapChar(lines: seq<string>, buf: string, ch: char, measure: string -> real, maxWidth: real)
    returns (lines': seq<string>, buf': string)
    requires forall k :: 0 <= k < |lines| ==> FitsWidth(lines[k], measure, maxWidth)
    requires FitsWidth(buf, measure, maxWidth)
    ensures Flatten(lines') + buf' == Flatten(lines) + buf + (if ch == '\n' then [] else [ch])
    ensures ch == '\n' ==> lines' == lines + [buf] && buf' == []
    ensures ch != '\n' ==> |lines| <= |lines'| && lines'[..|lines|] == lines &&
                           Flatten(lines'[|lines|..]) + buf' == buf + [ch]
    ensures forall k :: 0 <= k < |lines'| ==> FitsWidth(lines'[k], measure, maxWidth)
    ensures FitsWidth(buf', measure, maxWidth)
  {
    if ch == '\n' {
      FlattenPush(lines, buf);
      lines', buf' := lines + [buf], [];
    } else {
      var test := buf + [ch];
      assert '\n' !in test;
      if measure(test) <= maxWidth {
        lines', buf' := lines, test;
        assert lines'[|lines|..] == [];
      } else if buf == [] {
        FlattenPush(lines, [ch]);
        lines', buf' := lines + [[ch]], [];
        assert lines'[|lines|..] == [[ch]];
        FlattenPush([], [ch]);
      } else {
        FlattenPush(lines, buf);
        lines', buf' := lines + [buf], [ch];
        assert lines'[|lines|..] == [buf];
        FlattenPush([], buf);
      }
    }
  }

  // ---------------------------------------------------------------------------------------
  // Padding, text rectangle and auto-fit
  // ---------------------------------------------------------------------------------------

  /** `Math.round`: the nearest integer, halves rounded up. */
  function Round(v: real): (r: int)
    ensures r as real - 0.5 <= v < r as real + 0.5
  {
    (v + 0.5).Floor
  }

  /** `Math.ceil`. */
  function Ceil(v: real): (r: int)
    ensures v <= r as real < v + 1.0
  {
    -((-v).Floor)
  }

  lemma RoundMono(a: real, b: real)
    requires a <= b
    ensures Round(a) <= Round(b)
  {
  }

  datatype Padding = Padding(padX: int, padY: int)

  /** The padding scale of a preset: 0.7 for compact (1), 1.4 for loose (5), 1.0 otherwise. */
  function PresetScale(preset: int): real
  {
    if preset == 1 then 0.7 else if preset == 5 then 1.4 else 1.0
  }

  /** `pro5_computeTextPaddingFromPreset`, for a bubble of the given font size (`None` for no
      bubble): the preset `| 0` kept within [1, 5] scales 0.6 and 0.5 of the font size (taken as
      20 when zero, and at least 10). The horizontal padding is never below the vertical one,
      which is at least 4. */
  function PresetPadding(fontSize: Option<real>, preset: int): (r: Padding)
    ensures fontSize.Some? ==> 4 <= r.padY <= r.padX
  {
    match fontSize
    case None => Padding(12, 10)
    case Some(f) =>
      var size := Max(10.0, if f == 0.0 then 20.0 else f);
      var p := ToInt32(preset);
      var level := if p < 1 then 1 else if p > 5 then 5 else p;
      var scale := PresetScale(level);
      assert 0.7 <= scale;
      MulMono(0.7, scale, size * 0.5);
      MulMono(size * 0.5, size * 0.6, scale);
      RoundMono(3.5, size * 0.5 * scale);
      RoundMono(size * 0.5 * scale, size * 0.6 * scale);
      Padding(Round(size * 0.6 * scale), Round(size * 0.5 * scale))
  }

  /** Among the three named presets, a looser one never gives a smaller padding. */
  lemma PresetPaddingMonotone(f: real, preset: int, preset': int)
    requires preset in {1, 3, 5} && preset' in {1, 3, 5} && preset <= preset'
    ensures var pad := PresetPadding(Some(f), preset);
      var pad' := PresetPadding(Some(f), preset');
      pad.padX <= pad'.padX && pad.padY <= pad'.padY
  {
    var size := Max(10.0, if f == 0.0 then 20.0 else f);
    PresetPaddingInRange(f, preset);
    PresetPaddingInRange(f, preset');
    ScaledRoundMono(size * 0.6, PresetScale(preset), PresetScale(preset'));
    ScaledRoundMono(size * 0.5, PresetScale(preset), PresetScale(preset'));
  }

  /** An unfolding step for `PresetPaddingMonotone`: a preset already within [1, 5] is used as
      it is. */
  lemma PresetPaddingInRange(f: real, preset: int)
    requires 1 <= preset <= 5
    ensures var size := Max(10.0, if f == 0.0 then 20.0 else f);
      PresetPadding(Some(f), preset) ==
        Padding(Round(size * 0.6 * PresetScale(preset)), Round(size * 0.5 * PresetScale(preset)))
  {
    assert ToInt32(preset) == preset;
  }

  lemma ScaledRoundMono(a: real, s: real, s': real)
    requires a >= 0.0 && s <= s'
    ensures Round(a * s) <= Round(a * s')
  {
    assert a * s <= a * s';
    RoundMono(a * s, a * s');
  }

  /** The text-area insets of a shout burst: 28% of the width and 32% of the height per side. */
  const ShoutShrinkX: real := 0.28
  const ShoutShrinkY: real := 0.32

  /** `getTextRect`: the rectangle the text is laid out in. For a shout burst it is the inner
      44% by 36% of the box; otherwise the box less the bubble padding (at least 20) and the
      preset padding on each side. Width and height are never below 20. */
  function TextRect(kind: string, b: Box, padding: real, fontSize: real, preset: int): (r: Box)
    ensures r.width >= 20.0 && r.height >= 20.0
    ensures r.width > 20.0 ==> r.x - b.x == (b.x + b.width) - (r.x + r.width)
    ensures r.height > 20.0 ==> r.y - b.y == (b.y + b.height) - (r.y + r.height)
    ensures kind != ShoutBurst ==> r.x - b.x >= 24.0 && r.y - b.y >= 24.0
  {
    if kind == ShoutBurst then
      var shrinkX := b.width * ShoutShrinkX;
      var shrinkY := b.height * ShoutShrinkY;
      Box(b.x + shrinkX, b.y + shrinkY, Max(20.0, b.width - shrinkX * 2.0), Max(20.0, b.height - shrinkY * 2.0))
    else
      var pad := Max(20.0, padding);
      var extra := PresetPadding(Some(fontSize), preset);
      Box(b.x + pad + extra.padX as real, b.y + pad + extra.padY as real,
          Max(20.0, b.width - pad * 2.0 - extra.padX as real * 2.0),
          Max(20.0, b.height - pad * 2.0 - extra.padY as real * 2.0))
  }

  /** The height `autoFitBubbleToText` gives a bubble whose text measures `textHeight` laid out
      in a rectangle `padY` below the top: the text plus that padding above and below, rounded
      up, if that exceeds the current height; the current height otherwise. */
  function FitToTextHeight(height: real, padY: real, textHeight: real): (h: real)
    ensures h >= height && h >= textHeight + padY * 2.0
    ensures h != height <==> Ceil(textHeight + padY * 2.0) as real > height
    ensures h != height ==> h == Ceil(textHeight + padY * 2.0) as real
  {
    var need := Ceil(textHeight + padY * 2.0) as real;
    if need > height then need else height
  }

  /** The height `pro5_autoFitHeightOnText` gives a bubble whose text rectangle is `rectHeight`
      high and `padY` below the top when the text measures `needH`: it grows only when the text
      is higher than the rectangle and the bubble is lower than the text plus the padding twice,
      and then to exactly that height, rounded up. */
  function GrowHeightOnText(height: real, rectHeight: real, padY: real, needH: real): (h: real)
    ensures h >= height
    ensures needH > rectHeight ==> h >= needH + padY * 2.0
    ensures h != height <==> needH > rectHeight && Ceil(needH + padY * 2.0) as real > height
    ensures h != height ==> h == Ceil(needH + padY * 2.0) as real
  {
    if needH > rectHeight then Max(height, Ceil(needH + padY * 2.0) as real) else height
  }

  /** For every kind but the shout burst, the text rectangle of the grown box is high enough
      for the measured text. */
  lemma AutoFitMakesRoom(kind: string, b: Box, padding: real, fontSize: real, preset: int, textHeight: real)
    requires kind != ShoutBurst
    ensures var rect := TextRect(kind, b, padding, fontSize, preset);
      var grown := b.(height := FitToTextHeight(b.height, rect.y - b.y, textHeight));
      TextRect(kind, grown, padding, fontSize, preset).height >= textHeight
  {
  }

  /** For a shout burst the text rectangle keeps shrinking with the box, so a grown box can still
      be too low for its text: a 100-high burst with 100 of text grows to 164, whose text
      rectangle is only 59.04 high, and fitting again grows it once more. */
  lemma ShoutFitFallsShort()
    ensures var b := Box(0.0, 0.0, 200.0, 100.0);
      var rect := TextRect(ShoutBurst, b, 28.0, 24.0, 3);
      var grown := b.(height := FitToTextHeight(b.height, rect.y - b.y, 100.0));
      var rect' := TextRect(ShoutBurst, grown, 28.0, 24.0, 3);
      grown.height == 164.0 && rect'.height < 100.0 &&
      FitToTextHeight(grown.height, rect'.y - grown.y, 100.0) > grown.height
  {
    var b := Box(0.0, 0.0, 200.0, 100.0);
    var rect := TextRect(ShoutBurst, b, 28.0, 24.0, 3);
    assert rect.y - b.y == 32.0;
    assert Ceil(164.0) == 164;
    var grown := b.(height := 164.0);
    var rect' := TextRect(ShoutBurst, grown, 28.0, 24.0, 3);
    assert rect'.y - grown.y == 52.48;
    assert Ceil(100.0 + 52.48 * 2.0) == 205;
  }
}
