/** The greedy line wrapper and aligner of Main.kt: `splitTextByLines` cuts a text
    into lines of at most `lineWidth` characters, keeping words whole where it can;
    `alignLeft`, `alignRight` and `alignCenter` pad or trim every line;
    `convertToString` joins the lines with newlines; `alignText` checks the width
    and chains the three steps. */
module TextAlign {
  import opened KotlinText
  import opened TextSpec

  datatype Alignment = Left | Right | Center

  /** The exceptions the code can raise. */
  datatype Error =
    | NonPositiveWidth   // thrown by alignText for a width below 1
    | IndexOutOfBounds   // `substring(0, -1)` in splitTextByLines
    | NegativePadLength  // `padStart` asked for a negative length

  datatype Result<T> = Ok(value: T) | Err(error: Error)

  /** The global list of word separators; only its first element is ever used. */
  const WordSeparators: seq<char> := [' ']

  const DefaultLineWidth: Int32 := 33

  // ---------------------------------------------------------------- helpers

  function IsWordSeparator(symbol: char): (r: bool)
    ensures r <==> symbol == ' '
  {
    symbol in WordSeparators
  }

  /** True when `line`, laid over the start of `text`, ends at a word boundary of
      `text`: where the text ends or where a separator follows. */
  function FullAccommodationPossible(text: string, line: string): (r: bool)
    requires |line| <= |text|
    ensures r <==> (|line| == |text| || text[|line|] == ' ')
  {
    |text| == |line| || IsWordSeparator(text[|line|])
  }

  /** `substring(start, end)` with `end` clamped to the length of `s`. */
  function ProtectSubstring(s: string, start: int, end: int): (r: string)
    requires 0 <= start <= Min(end, |s|)
    ensures |r| == Min(end, |s|) - start
    ensures forall i :: 0 <= i < |r| ==> r[i] == s[start + i]
  {
    if |s| < end then s[start..|s|] else s[start..end]
  }

  /** The position of the first separator in `s`, which is the length of its first
      word, or -1 when `s` has no separator. */
  function GetLengthFirstWord(s: string): (r: int)
    ensures -1 <= r < |s|
    ensures r == -1 <==> ' ' !in s
    ensures r >= 0 ==> s[r] == ' ' && forall i :: 0 <= i < r ==> s[i] != ' '
  {
    IndexOf(s, WordSeparators[0])
  }

  // ---------------------------------------------------------------- splitting

  /** The line that one pass of the loop of splitTextByLines takes from the front of
      the remaining text `t`, or the exception that pass raises. */
  function NextLine(t: string, w: int): (r: Result<string>)
    requires w >= 1 && t != []
    ensures r.Ok? ==> |r.value| <= Min(w, |t|)
    ensures r.Ok? && r.value == [] ==> IsWhitespace(t[0])
    ensures r.Err? ==> r.error == IndexOutOfBounds
  {
    var line := Trim(ProtectSubstring(t, 0, w));
    var first := GetLengthFirstWord(t);
    if first > -1 && first <= w then
      if FullAccommodationPossible(t, line) then Ok(line)
      else
        var cut := LastIndexOf(line, WordSeparators[0]);
        if cut < 0 then Err(IndexOutOfBounds) else Ok(line[..cut])
    else Ok(line)
  }

  /** The text left once `line` has been taken from the front of `t`. */
  function RemainingText(t: string, line: string): (r: string)
    requires |line| <= |t|
    ensures |r| <= |t| - |line|
    ensures |line| < |t| && IsWhitespace(t[|line|]) ==> |r| < |t| - |line|
  {
    Trim(ProtectSubstring(t, |line|, |t|))
  }

  /** What splitTextByLines returns for `t`: no lines for the empty text, otherwise the
      next line followed by the lines of what remains. */
  function SplitLines(t: string, w: int): (r: Result<seq<string>>)
    requires w >= 1
    ensures r.Err? ==> r.error == IndexOutOfBounds
    decreases |t|
  {
    if t == [] then Ok([])
    else
      match NextLine(t, w)
      case Err(e) => Err(e)
      case Ok(line) =>
        var remaining := RemainingText(t, line);
        assert |remaining| < |t|;
        match SplitLines(remaining, w)
        case Err(e) => Err(e)
        case Ok(rest) => Ok([line] + rest)
  }

  /** `lines` put in front of a successful result. */
  function Prefixed(lines: seq<string>, r: Result<seq<string>>): Result<seq<string>>
  {
    match r
    case Err(e) => Err(e)
    case Ok(rest) => Ok(lines + rest)
  }

  lemma {:induction false} PrefixedAppend(a: seq<string>, b: seq<string>, r: Result<seq<string>>)
    ensures Prefixed(a, Prefixed(b, r)) == Prefixed(a + b, r)
  {
    if r.Ok? {
      assert a + (b + r.value) == (a + b) + r.value;
    }
  }

  /** SplitLines unfolded once on a text from which a line can be taken. */
  lemma {:induction false} SplitLinesStep(t: string, w: int)
    requires w >= 1 && t != [] && NextLine(t, w).Ok?
    ensures SplitLines(t, w)
      == Prefixed([NextLine(t, w).value], SplitLines(RemainingText(t, NextLine(t, w).value), w))
  {
  }

  /** Every line splitTextByLines emits fits in the width, and it emits no line
      exactly when the text is empty. */
  lemma {:induction false} SplitLinesWidth(t: string, w: int)
    requires w >= 1 && SplitLines(t, w).Ok?
    ensures forall i :: 0 <= i < |SplitLines(t, w).value| ==> |SplitLines(t, w).value[i]| <= w
    ensures SplitLines(t, w).value == [] <==> t == []
    decreases |t|
  {
    if t != [] {
      var line := NextLine(t, w).value;
      var rest := RemainingText(t, line);
      SplitLinesStep(t, w);
      SplitLinesWidth(rest, w);
      ConsWithin([line], SplitLines(rest, w).value, w);
    }
  }

  lemma {:induction false} ConsWithin(a: seq<string>, b: seq<string>, w: int)
    requires forall i :: 0 <= i < |a| ==> |a[i]| <= w
    requires forall i :: 0 <= i < |b| ==> |b[i]| <= w
    ensures forall i :: 0 <= i < |a + b| ==> |(a + b)[i]| <= w
  {
  }

  method SplitTextByLines(text: string, lineWidth: int) returns (r: Result<seq<string>>)
    requires lineWidth >= 1
    ensures r == SplitLines(text, lineWidth)
  {
    var currentText := text;
    var lines: seq<string> := [];
    assert Prefixed(lines, SplitLines(currentText, lineWidth)) == SplitLines(text, lineWidth) by {
      var all := SplitLines(text, lineWidth);
      if all.Ok? {
        assert lines + all.value == all.value;
      }
    }
    while currentText != []
      invariant SplitLines(text, lineWidth) == Prefixed(lines, SplitLines(currentText, lineWidth))
      decreases |currentText|
    {
      var line := Trim(ProtectSubstring(currentText, 0, lineWidth));
      if GetLengthFirstWord(currentText) > -1 && GetLengthFirstWord(currentText) <= lineWidth {
        if FullAccommodationPossible(currentText, line) {
          lines := lines + [line];
        } else {
          var cut := LastIndexOf(line, WordSeparators[0]);
          if cut < 0 {
            assert NextLine(currentText, lineWidth) == Err(IndexOutOfBounds);
            return Err(IndexOutOfBounds);
          }
          line := line[..cut];
          lines := lines + [line];
        }
      } else {
        lines := lines + [line];
      }
      assert NextLine(currentText, lineWidth) == Ok(line);
      ghost var previous := currentText;
      currentText := Trim(ProtectSubstring(currentText, |line|, |currentText|));
      assert currentText == RemainingText(previous, line);
      SplitLinesStep(previous, lineWidth);
      PrefixedAppend(lines[..|lines| - 1], [line], SplitLines(currentText, lineWidth));
      assert lines == lines[..|lines| - 1] + [line];
    }
    assert lines + [] == lines;
    return Ok(lines);
  }

  // ---------------------------------------------------------------- aligning

  /** `alignLeft`: every line trimmed, in the same order. */
  function AlignLeft(lines: seq<string>): (r: seq<string>)
    ensures |r| == |lines|
    ensures forall i :: 0 <= i < |lines| ==> r[i] == Trim(lines[i]) && IsTrimmed(r[i])
  {
    seq(|lines|, i requires 0 <= i < |lines| => Trim(lines[i]))
  }

  /** `alignRight`: every line padded with spaces in front to `lineWidth` characters. */
  function AlignRight(lines: seq<string>, lineWidth: int): (r: seq<string>)
    requires lineWidth >= 0
    ensures |r| == |lines|
    ensures forall i :: 0 <= i < |lines| ==> LeftPadded(lines[i], r[i], lineWidth)
    ensures forall i :: 0 <= i < |lines| && |lines[i]| <= lineWidth ==> |r[i]| == lineWidth
  {
    seq(|lines|, i requires 0 <= i < |lines| => PadStart(lines[i], lineWidth))
  }

  /** `alignCenter`: every line padded with spaces in front to `(length + lineWidth) / 2`
      characters, so that a line no longer than `lineWidth` has as much room on its
      right as on its left, or one character more. The sum is taken without the
      32-bit wrap-around of Main.kt:46 (see AlignCenterAsWritten). */
  function AlignCenter(lines: seq<string>, lineWidth: int): (r: seq<string>)
    requires lineWidth >= 0
    ensures |r| == |lines|
    ensures forall i :: 0 <= i < |lines| ==> LeftPadded(lines[i], r[i], (|lines[i]| + lineWidth) / 2)
    ensures forall i :: 0 <= i < |lines| && |lines[i]| <= lineWidth ==>
      |r[i]| - |lines[i]| <= lineWidth - |r[i]| <= |r[i]| - |lines[i]| + 1
  {
    seq(|lines|, i requires 0 <= i < |lines| => PadStart(lines[i], (|lines[i]| + lineWidth) / 2))
  }

  /** `(line.length + lineWidth) / 2` as Main.kt:46 evaluates it, in 32-bit `Int`. */
  function CenterTargetAsWritten(length: nat, lineWidth: Int32): int
    requires length < 0x8000_0000
  {
    Halve(Wrap32(length + lineWidth))
  }

  /** `alignCenter` as written: the padding length can wrap around to a negative `Int`,
      on which `padStart` throws. */
  function AlignCenterAsWritten(lines: seq<string>, lineWidth: Int32): (r: Result<seq<string>>)
    requires forall i :: 0 <= i < |lines| ==> |lines[i]| < 0x8000_0000
    ensures r.Err? <==> exists i :: 0 <= i < |lines| && CenterTargetAsWritten(|lines[i]|, lineWidth) < 0
    ensures r.Err? ==> r.error == NegativePadLength
    ensures r.Ok? ==> |r.value| == |lines| && forall i :: 0 <= i < |lines| ==>
      LeftPadded(lines[i], r.value[i], CenterTargetAsWritten(|lines[i]|, lineWidth))
  {
    if forall i :: 0 <= i < |lines| ==> CenterTargetAsWritten(|lines[i]|, lineWidth) >= 0 then
      Ok(seq(|lines|, i requires 0 <= i < |lines| =>
        PadStart(lines[i], CenterTargetAsWritten(|lines[i]|, lineWidth))))
    else Err(NegativePadLength)
  }

  /** The aligner chosen by `alignment`. */
  function Align(alignment: Alignment, lines: seq<string>, lineWidth: int): (r: seq<string>)
    requires lineWidth >= 0
    ensures |r| == |lines|
  {
    match alignment
    case Left => AlignLeft(lines)
    case Right => AlignRight(lines, lineWidth)
    case Center => AlignCenter(lines, lineWidth)
  }

  // ---------------------------------------------------------------- joining

  /** The lines with one newline between each two of them and none at the end. */
  function JoinLines(lines: seq<string>): (r: string)
  {
    if |lines| == 0 then []
    else if |lines| == 1 then lines[0]
    else lines[0] + "\n" + JoinLines(lines[1..])
  }

  lemma {:induction false} JoinLinesSnoc(lines: seq<string>, last: string)
    requires lines != []
    ensures JoinLines(lines + [last]) == JoinLines(lines) + "\n" + last
    decreases |lines|
  {
    if |lines| == 1 {
      assert (lines + [last])[1..] == [last];
    } else {
      assert (lines + [last])[1..] == lines[1..] + [last];
      JoinLinesSnoc(lines[1..], last);
    }
  }

  method ConvertToString(lines: seq<string>) returns (result: string)
    ensures result == JoinLines(lines)
  {
    result := [];
    var i := 0;
    while i <= |lines| - 2
      invariant 0 <= i <= Max(|lines| - 1, 0)
      invariant result == if i == 0 then [] else JoinLines(lines[..i]) + "\n"
    {
      if i > 0 {
        JoinLinesSnoc(lines[..i], lines[i]);
        assert lines[..i] + [lines[i]] == lines[..i + 1];
      }
      result := result + (lines[i] + "\n");
      i := i + 1;
    }
    if |lines| > 0 {
      if |lines| > 1 {
        JoinLinesSnoc(lines[..|lines| - 1], lines[|lines| - 1]);
        assert lines[..|lines| - 1] + [lines[|lines| - 1]] == lines;
      }
      result := result + lines[|lines| - 1];
    }
  }

  // ---------------------------------------------------------------- entry point

  /** What alignText returns for a width of at least 1, with the corrected centre
      aligner `AlignCenter` in place of the 32-bit one of Main.kt:46; the two agree for
      every width below 2^30 (CenterAsWrittenAgreesBelow). */
  function AlignedText(text: string, alignment: Alignment, lineWidth: int): (r: Result<string>)
    requires lineWidth >= 1
  {
    match SplitLines(text, lineWidth)
    case Err(e) => Err(e)
    case Ok(lines) => Ok(JoinLines(Align(alignment, lines, lineWidth)))
  }

  method AlignText(text: string, alignment: Alignment := Left, lineWidth: Int32 := DefaultLineWidth)
    returns (r: Result<string>)
    ensures r == Err(NonPositiveWidth) <==> lineWidth < 1
    ensures lineWidth >= 1 ==> r == AlignedText(text, alignment, lineWidth)
    ensures PlainText(text) ==> (r.Err? <==> lineWidth < 1)
  {
    if lineWidth < 1 {
      return Err(NonPositiveWidth);
    }
    var split := SplitTextByLines(text, lineWidth);
    if PlainText(text) {
      SplitLinesPlain(text, lineWidth);
    }
    if split.Err? {
      return Err(split.error);
    }
    var lines := split.value;
    if alignment == Left {
      lines := AlignLeft(lines);
    }
    if alignment == Right {
      lines := AlignRight(lines, lineWidth);
    }
    if alignment == Center {
      lines := AlignCenter(lines, lineWidth);
    }
    var s := ConvertToString(lines);
    return Ok(s);
  }

  // ---------------------------------------------------------------- properties

  /** One pass of the loop over a plain remaining text raises nothing and takes a
      non-empty prefix of it. When the first word ends within `w` characters, the line
      ends where the text ends or just before a space; otherwise the line is the
      first `w` characters (the whole text if shorter), a word cut hard. */
  lemma {:induction false} NextLinePlain(t: string, w: int)
    requires w >= 1 && t != [] && PlainText(t)
    ensures NextLine(t, w).Ok?
    ensures var line := NextLine(t, w).value;
      line != [] && line == t[..|line|]
    ensures var line := NextLine(t, w).value; var first := IndexOf(t, ' ');
      0 <= first <= w ==> line == t || t[|line|] == ' '
    ensures var line := NextLine(t, w).value; var first := IndexOf(t, ' ');
      !(0 <= first <= w) ==> line == t[..Min(w, |t|)]
  {
    var k := Min(w, |t|);
    var p := ProtectSubstring(t, 0, w);
    assert p == t[..k];
    TrimPrefix(t, k);
    var line0 := Trim(p);
    var first := GetLengthFirstWord(t);
    if 0 <= first <= w {
      if !FullAccommodationPossible(t, line0) {
        CutBack(t, w, line0);
      }
    } else {
      assert forall i :: 0 <= i < k ==> t[i] != ' ';
      assert |line0| == k;
    }
  }

  /** Trimming the first `k` characters of a text that starts with a character other
      than whitespace drops only trailing whitespace. */
  lemma {:induction false} TrimPrefix(t: string, k: int)
    requires 0 < k <= |t| && !IsWhitespace(t[0])
    ensures var line := Trim(t[..k]);
      line != [] && |line| <= k && line == t[..|line|]
      && forall i :: |line| <= i < k ==> IsWhitespace(t[i])
  {
    var p := t[..k];
    assert SkipWhitespace(p, 0) == 0;
    var line := Trim(p);
    assert line == p[..|line|];
    forall i | |line| <= i < k ensures IsWhitespace(t[i]) {
      assert p[i] == t[i];
    }
  }

  /** The branch of line 61 on a plain text: a line of `w` characters that ends inside a
      word is cut back to its last space, which lies after its first character. */
  lemma {:induction false} CutBack(t: string, w: int, line: string)
    requires w >= 1 && PlainText(t)
    requires 0 <= IndexOf(t, ' ') <= w
    requires line != [] && |line| == Min(w, |t|) && line == t[..|line|]
    requires !IsWhitespace(line[0])
    requires |line| < |t| && t[|line|] != ' '
    ensures 0 < LastIndexOf(line, ' ')
    ensures line[..LastIndexOf(line, ' ')] == t[..LastIndexOf(line, ' ')]
    ensures t[LastIndexOf(line, ' ')] == ' '
  {
    var first := IndexOf(t, ' ');
    assert line[first] == ' ';
    var cut := LastIndexOf(line, ' ');
    assert cut >= first;
  }

  /** What remains after a line has been taken from a plain text is plain text. */
  lemma {:induction false} RemainingPlain(t: string, line: string)
    requires OnlySpaces(t) && |line| <= |t|
    ensures PlainText(RemainingText(t, line))
    ensures NonSpaces(RemainingText(t, line)) == NonSpaces(t[|line|..])
    ensures Words(RemainingText(t, line)) == Words(t[|line|..])
  {
    OnlySpacesSlice(t, |line|, |t|);
    assert ProtectSubstring(t, |line|, |t|) == t[|line|..|t|] == t[|line|..];
    TrimPlain(t[|line|..]);
    NonSpacesTrim(t[|line|..]);
    WordsTrim(t[|line|..]);
  }

  /** A line as splitTextByLines emits it from plain text: non-empty, starting with a
      character that is not whitespace, and holding no whitespace but spaces. */
  predicate PlainLine(l: string)
  {
    l != [] && !IsWhitespace(l[0]) && OnlySpaces(l)
  }

  lemma {:induction false} ConsPlainLines(a: seq<string>, b: seq<string>)
    requires forall i :: 0 <= i < |a| ==> PlainLine(a[i])
    requires forall i :: 0 <= i < |b| ==> PlainLine(b[i])
    ensures forall i :: 0 <= i < |a + b| ==> PlainLine((a + b)[i])
  {
  }

  /** On a plain text splitTextByLines raises nothing and every line it emits is a
      plain line. */
  lemma {:induction false} SplitLinesPlain(t: string, w: int)
    requires w >= 1 && PlainText(t)
    ensures SplitLines(t, w).Ok?
    ensures forall i :: 0 <= i < |SplitLines(t, w).value| ==> PlainLine(SplitLines(t, w).value[i])
    decreases |t|
  {
    if t != [] {
      NextLinePlain(t, w);
      var line := NextLine(t, w).value;
      var rest := RemainingText(t, line);
      RemainingPlain(t, line);
      SplitLinesPlain(rest, w);
      SplitLinesStep(t, w);
      OnlySpacesSlice(t, 0, |line|);
      assert t[0..|line|] == line;
      assert PlainLine(line);
      ConsPlainLines([line], SplitLines(rest, w).value);
    }
  }

  /** The non-space characters of all lines splitTextByLines emits from a plain text,
      read in order, are those of the text. */
  lemma {:induction false} SplitLinesNonSpaces(t: string, w: int)
    requires w >= 1 && PlainText(t)
    ensures SplitLines(t, w).Ok?
    ensures NonSpaces(Concat(SplitLines(t, w).value)) == NonSpaces(t)
    decreases |t|
  {
    SplitLinesPlain(t, w);
    if t != [] {
      NextLinePlain(t, w);
      var line := NextLine(t, w).value;
      var rest := RemainingText(t, line);
      RemainingPlain(t, line);
      SplitLinesNonSpaces(rest, w);
      SplitLinesStep(t, w);
      var more := SplitLines(rest, w).value;
      ConcatCons(line, more);
      NonSpacesAppend(line, Concat(more));
      PrefixSplit(t, line);
      NonSpacesAppend(line, t[|line|..]);
    }
  }

  /** The words of the lines, read one line after another. */
  function LineWords(lines: seq<string>): seq<string>
  {
    if lines == [] then [] else Words(lines[0]) + LineWords(lines[1..])
  }

  /** When the first word of a plain text fits in `w`, the line taken from it ends at
      a word boundary, so the words of the text are those of the line followed by
      those of the remaining text. */
  lemma {:induction false} NextLineKeepsWords(t: string, w: int)
    requires w >= 1 && t != [] && PlainText(t)
    requires forall word :: word in Words(t) ==> |word| <= w
    ensures NextLine(t, w).Ok?
    ensures var line := NextLine(t, w).value;
      Words(t) == Words(line) + Words(RemainingText(t, line))
  {
    NextLinePlain(t, w);
    var line := NextLine(t, w).value;
    var first := IndexOf(t, ' ');
    WordEndIsIndexOf(t);
    assert Words(t)[0] == t[..WordEnd(t)];
    assert WordEnd(t) <= w;
    assert line == t || t[|line|] == ' ' by {
      if !(0 <= first <= w) {
        assert first == -1;
        assert line == t[..|t|];
      }
    }
    PrefixSplit(t, line);
    WordsAppend(line, t[|line|..]);
    RemainingPlain(t, line);
  }

  /** When no word of a plain text is longer than `w`, splitTextByLines breaks no word:
      the words of its lines, read in order, are exactly the words of the text. */
  lemma {:induction false} SplitLinesKeepsWords(t: string, w: int)
    requires w >= 1 && PlainText(t)
    requires forall word :: word in Words(t) ==> |word| <= w
    ensures SplitLines(t, w).Ok?
    ensures LineWords(SplitLines(t, w).value) == Words(t)
    decreases |t|
  {
    SplitLinesPlain(t, w);
    if t != [] {
      NextLineKeepsWords(t, w);
      var line := NextLine(t, w).value;
      var rest := RemainingText(t, line);
      RemainingPlain(t, line);
      assert forall word :: word in Words(rest) ==> |word| <= w by {
        forall word | word in Words(rest) ensures |word| <= w {
          assert word in Words(t);
        }
      }
      SplitLinesKeepsWords(rest, w);
      SplitLinesStep(t, w);
      var more := SplitLines(rest, w).value;
      assert SplitLines(t, w).value == [line] + more;
      assert ([line] + more)[1..] == more;
    }
  }

  /** Splitting the output of convertToString at its newlines gives back the lines,
      provided there is at least one line and no line holds a newline. */
  lemma {:induction false} SplitJoin(lines: seq<string>)
    requires lines != []
    requires forall i :: 0 <= i < |lines| ==> '\n' !in lines[i]
    ensures SplitOnNewline(JoinLines(lines)) == lines
    decreases |lines|
  {
    var head := lines[0];
    if |lines| == 1 {
      assert IndexOf(head, '\n') == -1;
    } else {
      var tail := JoinLines(lines[1..]);
      var s := JoinLines(lines);
      assert s == head + "\n" + tail;
      var k := IndexOf(s, '\n');
      assert s[|head|] == '\n';
      assert k == |head|;
      assert s[..k] == head;
      assert s[k + 1..] == tail;
      SplitJoin(lines[1..]);
      assert [head] + lines[1..] == lines;
    }
  }

  /** A line that holds no whitespace but spaces keeps that property and its non-space
      characters under every aligner. */
  lemma {:induction false} AlignKeepsPlain(alignment: Alignment, lines: seq<string>, lineWidth: int)
    requires lineWidth >= 0
    requires forall i :: 0 <= i < |lines| ==> OnlySpaces(lines[i])
    ensures var out := Align(alignment, lines, lineWidth);
      forall i :: 0 <= i < |lines| ==> OnlySpaces(out[i]) && NonSpaces(out[i]) == NonSpaces(lines[i])
  {
    var out := Align(alignment, lines, lineWidth);
    forall i | 0 <= i < |lines|
      ensures OnlySpaces(out[i]) && NonSpaces(out[i]) == NonSpaces(lines[i])
    {
      var l := lines[i];
      if alignment == Left {
        TrimPlain(l);
        NonSpacesTrim(l);
      } else {
        var n := if alignment == Right then lineWidth else (|l| + lineWidth) / 2;
        PaddedPlain(l, out[i], n);
      }
    }
  }

  /** Spaces put in front of a line that holds no whitespace but spaces keep that
      property and add no non-space character. */
  lemma {:induction false} PaddedPlain(l: string, r: string, n: int)
    requires LeftPadded(l, r, n) && OnlySpaces(l)
    ensures OnlySpaces(r) && NonSpaces(r) == NonSpaces(l)
  {
    var pad := |r| - |l|;
    PaddedParts(l, r, n);
    NonSpacesOfSpaces(r[..pad]);
    NonSpacesAppend(r[..pad], l);
    forall j | 0 <= j < |r| && IsWhitespace(r[j]) ensures r[j] == ' ' {
      if j >= pad {
        assert r[j] == l[j - pad];
      }
    }
  }

  lemma {:induction false} PlainLinesOnlySpaces(lines: seq<string>)
    requires forall i :: 0 <= i < |lines| ==> PlainLine(lines[i])
    ensures forall i :: 0 <= i < |lines| ==> OnlySpaces(lines[i])
  {
    forall i | 0 <= i < |lines| ensures OnlySpaces(lines[i]) {
      assert PlainLine(lines[i]);
    }
  }

  /** alignText on a non-empty plain text with a width of at least 1 returns the
      lines of splitTextByLines, each aligned as asked, separated by newlines. */
  lemma {:induction false} AlignedTextSplit(text: string, alignment: Alignment, lineWidth: int)
    requires lineWidth >= 1 && PlainText(text) && text != []
    ensures AlignedText(text, alignment, lineWidth).Ok?
    ensures SplitOnNewline(AlignedText(text, alignment, lineWidth).value)
      == Align(alignment, SplitLines(text, lineWidth).value, lineWidth)
  {
    SplitLinesPlain(text, lineWidth);
    SplitLinesWidth(text, lineWidth);
    var lines := SplitLines(text, lineWidth).value;
    var out := Align(alignment, lines, lineWidth);
    PlainLinesOnlySpaces(lines);
    AlignKeepsPlain(alignment, lines, lineWidth);
    forall i | 0 <= i < |out| ensures '\n' !in out[i] {
      if '\n' in out[i] {
        var j :| 0 <= j < |out[i]| && out[i][j] == '\n';
        assert IsWhitespace(out[i][j]);
      }
    }
    SplitJoin(out);
  }

  /** Every line alignText outputs for a plain text is no longer than the width, and
      exactly as long as the width when right-aligned. */
  lemma {:induction false} AlignedTextWidth(text: string, alignment: Alignment, lineWidth: int)
    requires lineWidth >= 1 && PlainText(text) && text != []
    ensures AlignedText(text, alignment, lineWidth).Ok?
    ensures var out := SplitOnNewline(AlignedText(text, alignment, lineWidth).value);
      (forall i :: 0 <= i < |out| ==> |out[i]| <= lineWidth)
      && (alignment == Right ==> forall i :: 0 <= i < |out| ==> |out[i]| == lineWidth)
  {
    AlignedTextSplit(text, alignment, lineWidth);
    SplitLinesWidth(text, lineWidth);
    AlignWithin(alignment, SplitLines(text, lineWidth).value, lineWidth);
  }

  /** Every aligner keeps a line that fits within the width, and the right aligner
      makes it exactly the width. */
  lemma {:induction false} AlignWithin(alignment: Alignment, lines: seq<string>, lineWidth: int)
    requires lineWidth >= 0
    requires forall i :: 0 <= i < |lines| ==> |lines[i]| <= lineWidth
    ensures var out := Align(alignment, lines, lineWidth);
      (forall i :: 0 <= i < |out| ==> |out[i]| <= lineWidth)
      && (alignment == Right ==> forall i :: 0 <= i < |out| ==> |out[i]| == lineWidth)
  {
  }

  /** alignText loses or reorders none of the non-space characters of a plain text. */
  lemma {:induction false} AlignedTextNonSpaces(text: string, alignment: Alignment, lineWidth: int)
    requires lineWidth >= 1 && PlainText(text) && text != []
    ensures AlignedText(text, alignment, lineWidth).Ok?
    ensures NonSpaces(Concat(SplitOnNewline(AlignedText(text, alignment, lineWidth).value)))
      == NonSpaces(text)
  {
    AlignedTextSplit(text, alignment, lineWidth);
    SplitLinesPlain(text, lineWidth);
    SplitLinesNonSpaces(text, lineWidth);
    var lines := SplitLines(text, lineWidth).value;
    PlainLinesOnlySpaces(lines);
    AlignKeepsPlain(alignment, lines, lineWidth);
    ConcatNonSpaces(Align(alignment, lines, lineWidth), lines);
  }

  // ---------------------------------------------------------------- examples

  /** The empty text gives no lines, and so the empty string, whatever the alignment. */
  lemma {:induction false} EmptyText(alignment: Alignment, lineWidth: int)
    requires lineWidth >= 1
    ensures SplitLines([], lineWidth) == Ok([])
    ensures AlignedText([], alignment, lineWidth) == Ok([])
  {
    assert Align(alignment, [], lineWidth) == [];
  }

  lemma {:induction false} NextLineOneWord(t: string, w: int)
    requires 1 <= |t| <= w && forall i :: 0 <= i < |t| ==> !IsWhitespace(t[i])
    ensures NextLine(t, w) == Ok(t)
  {
    assert ' ' !in t by {
      forall i | 0 <= i < |t| ensures t[i] != ' ' {
        assert !IsWhitespace(t[i]);
      }
    }
    assert ProtectSubstring(t, 0, w) == t;
    TrimIs(t, 0, |t|);
  }

  /** A text of one short word is one line. */
  lemma {:induction false} SplitOneWord(t: string, w: int)
    requires 1 <= |t| <= w && forall i :: 0 <= i < |t| ==> !IsWhitespace(t[i])
    ensures SplitLines(t, w) == Ok([t])
  {
    NextLineOneWord(t, w);
    assert RemainingText(t, t) == [];
    SplitLinesStep(t, w);
    assert [t] + [] == [t];
  }

  lemma {:induction false} NextLineKeepsSpace(a: char, b: char, c: char)
    requires !IsWhitespace(a) && !IsWhitespace(b) && !IsWhitespace(c)
    ensures NextLine([a, ' ', ' ', b, c], 4) == Ok([a, ' '])
  {
    var t := [a, ' ', ' ', b, c];
    assert IndexFrom(t, ' ', 1) == 1;
    var p := [a, ' ', ' ', b];
    assert ProtectSubstring(t, 0, 4) == p;
    TrimIs(p, 0, 4);
    assert p[0..4] == p;
    assert IndexOf(t, ' ') == 1;
    assert !FullAccommodationPossible(t, p);
    assert IndexBefore(p, ' ', 3) == 2;
    assert p[..2] == [a, ' '];
  }

  lemma {:induction false} RemainderAfterSpace(a: char, b: char, c: char)
    requires !IsWhitespace(a) && !IsWhitespace(b) && !IsWhitespace(c)
    ensures RemainingText([a, ' ', ' ', b, c], [a, ' ']) == [b, c]
  {
    assert ProtectSubstring([a, ' ', ' ', b, c], 2, 5) == [' ', b, c];
    TrimIs([' ', b, c], 1, 3);
    assert [' ', b, c][1..3] == [b, c];
  }

  /** A line cut back to its last space keeps that space: "a  bc" at width 4 gives
      the lines "a " and "bc". */
  lemma {:induction false} TrailingSpaceKept(a: char, b: char, c: char)
    requires !IsWhitespace(a) && !IsWhitespace(b) && !IsWhitespace(c)
    ensures SplitLines([a, ' ', ' ', b, c], 4) == Ok([[a, ' '], [b, c]])
  {
    NextLineKeepsSpace(a, b, c);
    RemainderAfterSpace(a, b, c);
    SplitOneWord([b, c], 4);
    SplitTwoLines([a, ' ', ' ', b, c], 4, [a, ' '], [b, c]);
  }

  /** A text from which one line is taken, leaving a text that gives one more line,
      gives those two lines. */
  lemma {:induction false} SplitTwoLines(t: string, w: int, first: string, second: string)
    requires w >= 1 && t != [] && NextLine(t, w) == Ok(first)
    requires SplitLines(RemainingText(t, first), w) == Ok([second])
    ensures SplitLines(t, w) == Ok([first, second])
  {
    SplitLinesStep(t, w);
    PrefixedOne(first, second);
  }

  lemma {:induction false} PrefixedOne(first: string, second: string)
    ensures Prefixed([first], Ok([second])) == Ok([first, second])
  {
    assert [first] + [second] == [first, second];
  }

  /** A text that starts with a space can make line 61 call `substring(0, -1)`:
      " ab cd" at width 3. */
  lemma {:induction false} LeadingSpaceCrashes(a: char, b: char, c: char, d: char)
    requires !IsWhitespace(a) && !IsWhitespace(b) && !IsWhitespace(c) && !IsWhitespace(d)
    ensures SplitLines([' ', a, b, ' ', c, d], 3) == Err(IndexOutOfBounds)
  {
    var t := [' ', a, b, ' ', c, d];
    assert IndexOf(t, ' ') == 0;
    var p := [' ', a, b];
    assert ProtectSubstring(t, 0, 3) == p;
    TrimIs(p, 1, 3);
    assert p[1..3] == [a, b];
    assert LastIndexOf([a, b], ' ') == -1;
    assert NextLine(t, 3) == Err(IndexOutOfBounds);
  }

  /** A text that starts with whitespace repeats characters: line 66 resumes at index
      `line.length` of the untrimmed text, so "\tab" at width 5 gives "ab" and then "b". */
  lemma {:induction false} LeadingWhitespaceRepeats(a: char, b: char)
    requires !IsWhitespace(a) && !IsWhitespace(b)
    ensures SplitLines(['\t', a, b], 5) == Ok([[a, b], [b]])
  {
    var t := ['\t', a, b];
    assert ProtectSubstring(t, 0, 5) == t;
    TrimIs(t, 1, 3);
    assert t[1..3] == [a, b];
    assert IndexOf(t, ' ') == -1;
    assert NextLine(t, 5) == Ok([a, b]);
    assert ProtectSubstring(t, 2, 3) == [b];
    TrimIs([b], 0, 1);
    assert [b][0..1] == [b];
    assert RemainingText(t, [a, b]) == [b];
    SplitOneWord([b], 5);
    SplitTwoLines(t, 5, [a, b], [b]);
  }

  /** So can whitespace other than a space just before a space: "ab\t cd" at width 4. */
  lemma {:induction false} OtherWhitespaceCrashes(a: char, b: char, x: char, c: char, d: char)
    requires !IsWhitespace(a) && !IsWhitespace(b) && !IsWhitespace(c) && !IsWhitespace(d)
    requires IsWhitespace(x) && x != ' '
    ensures SplitLines([a, b, x, ' ', c, d], 4) == Err(IndexOutOfBounds)
  {
    var t := [a, b, x, ' ', c, d];
    assert t[..3] == [a, b, x];
    assert IndexOf(t, ' ') == 3;
    var p := [a, b, x, ' '];
    assert ProtectSubstring(t, 0, 4) == p;
    TrimIs(p, 0, 2);
    assert p[0..2] == [a, b];
    assert LastIndexOf([a, b], ' ') == -1;
    assert NextLine(t, 4) == Err(IndexOutOfBounds);
  }

  // ---------------------------------------------------------------- the overflow at Main.kt:46

  /** As written, alignText("a", CENTER, Int.MAX_VALUE) throws: the line is "a", its
      padding length `(1 + 2147483647) / 2` wraps to -1073741824 and padStart rejects
      it, where the corrected aligner pads "a" to 1073741824 characters. */
  lemma {:induction false} CenterOverflowCrashes(a: char)
    requires !IsWhitespace(a)
    ensures SplitLines([a], 0x7fff_ffff) == Ok([[a]])
    ensures AlignCenterAsWritten([[a]], 0x7fff_ffff) == Err(NegativePadLength)
  {
    SplitOneWord([a], 0x7fff_ffff);
    CenterTargetOverflows();
    var lines: seq<string> := [[a]];
    assert |lines[0]| == 1;
    assert CenterTargetAsWritten(|lines[0]|, 0x7fff_ffff) < 0;
  }

  /** Every width below 2^30 keeps `len + lineWidth` within `Int` for every line
      splitTextByLines emits, so there the code as written centres as the corrected
      aligner does. */
  lemma {:induction false} CenterAsWrittenAgreesBelow(text: string, lineWidth: Int32)
    requires 1 <= lineWidth < 0x4000_0000 && SplitLines(text, lineWidth).Ok?
    ensures var lines := SplitLines(text, lineWidth).value;
      (forall i :: 0 <= i < |lines| ==> |lines[i]| <= lineWidth)
      && AlignCenterAsWritten(lines, lineWidth) == Ok(AlignCenter(lines, lineWidth))
  {
    var lines := SplitLines(text, lineWidth).value;
    SplitLinesWidth(text, lineWidth);
    ShortLinesAgree(lines, lineWidth);
  }

  lemma {:induction false} ShortLinesAgree(lines: seq<string>, lineWidth: Int32)
    requires 0 <= lineWidth < 0x4000_0000
    requires forall i :: 0 <= i < |lines| ==> |lines[i]| <= lineWidth
    ensures AlignCenterAsWritten(lines, lineWidth) == Ok(AlignCenter(lines, lineWidth))
  {
    AlignCenterAsWrittenAgrees(lines, lineWidth);
  }

  /** For a line of one character at width Int.MAX_VALUE, `1 + 2147483647` wraps to
      -2147483648 and the padding length comes out as -1073741824. */
  lemma {:induction false} CenterTargetOverflows()
    ensures CenterTargetAsWritten(1, 0x7fff_ffff) == -0x4000_0000
  {
    assert Wrap32(1 + 0x7fff_ffff) == -0x8000_0000;
  }

  /** The corrected aligner pads the same one-character line to 1073741824 characters. */
  lemma {:induction false} CenterCorrectedPads(a: char)
    ensures |AlignCenter([[a]], 0x7fff_ffff)[0]| == 0x4000_0000
  {
    var lines: seq<string> := [[a]];
    assert |lines[0]| == 1;
  }

  /** Where the 32-bit sum does not wrap, the code as written and the corrected aligner
      agree; every line splitTextByLines emits at width `w <= 2^30` is short enough. */
  lemma {:induction false} AlignCenterAsWrittenAgrees(lines: seq<string>, lineWidth: Int32)
    requires lineWidth >= 0
    requires forall i :: 0 <= i < |lines| ==> |lines[i]| + lineWidth < 0x8000_0000
    ensures AlignCenterAsWritten(lines, lineWidth) == Ok(AlignCenter(lines, lineWidth))
  {
    forall i | 0 <= i < |lines|
      ensures CenterTargetAsWritten(|lines[i]|, lineWidth) == (|lines[i]| + lineWidth) / 2
    {
      assert Wrap32(|lines[i]| + lineWidth) == |lines[i]| + lineWidth;
    }
    var r := AlignCenterAsWritten(lines, lineWidth);
    var c := AlignCenter(lines, lineWidth);
    assert r.Ok?;
    assert |r.value| == |c|;
    forall i | 0 <= i < |lines| ensures r.value[i] == c[i] {
      LeftPaddedUnique(lines[i], r.value[i], c[i], (|lines[i]| + lineWidth) / 2);
    }
    assert r.value == c;
  }
}
