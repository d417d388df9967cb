/** Reference notions in which the properties of the aligner are stated: which
    characters a text may hold, its non-space characters, its words, and the
    splitting of a string at newlines. */
module TextSpec {
  import opened KotlinText

  /** The only whitespace character in `s`, if any, is the space. */
  predicate OnlySpaces(s: string)
  {
    forall i :: 0 <= i < |s| ==> IsWhitespace(s[i]) ==> s[i] == ' '
  }

  /** A text the aligner wraps without tripping over itself: spaces are its only
      whitespace and it does not begin with one. */
  predicate PlainText(s: string)
  {
    OnlySpaces(s) && (s == [] || s[0] != ' ')
  }

  /** Every character of `s` is a space. */
  predicate AllSpaces(s: string)
  {
    forall i :: 0 <= i < |s| ==> s[i] == ' '
  }

  /** A padded line is its padding, all spaces, followed by the line. */
  lemma {:induction false} PaddedParts(s: string, r: string, n: int)
    requires LeftPadded(s, r, n)
    ensures r == r[..|r| - |s|] + s && AllSpaces(r[..|r| - |s|])
  {
    var k := |r| - |s|;
    forall i | 0 <= i < |r| ensures r[i] == (r[..k] + s)[i] {
      if i >= k {
        assert r[k + (i - k)] == s[i - k];
      }
    }
  }

  /** The characters of `s` other than the space, in order. */
  function NonSpaces(s: string): (r: string)
    ensures |r| <= |s|
  {
    if s == [] then []
    else (if s[0] == ' ' then [] else [s[0]]) + NonSpaces(s[1..])
  }

  lemma {:induction false} NonSpacesAppend(a: string, b: string)
    ensures NonSpaces(a + b) == NonSpaces(a) + NonSpaces(b)
  {
    if a == [] {
      assert a + b == b;
    } else {
      var h := if a[0] == ' ' then [] else [a[0]];
      assert (a + b)[0] == a[0];
      assert (a + b)[1..] == a[1..] + b;
      assert NonSpaces(a + b) == h + NonSpaces(a[1..] + b);
      NonSpacesAppend(a[1..], b);
      assert h + (NonSpaces(a[1..]) + NonSpaces(b)) == (h + NonSpaces(a[1..])) + NonSpaces(b);
    }
  }

  lemma {:induction false} NonSpacesOfSpaces(s: string)
    requires AllSpaces(s)
    ensures NonSpaces(s) == []
  {
    if s != [] {
      NonSpacesOfSpaces(s[1..]);
    }
  }

  /** A run of whitespace in a text whose only whitespace is the space is a run of spaces. */
  lemma {:induction false} WhitespaceRun(s: string, lo: int, hi: int)
    requires OnlySpaces(s) && 0 <= lo <= hi <= |s|
    requires forall i :: lo <= i < hi ==> IsWhitespace(s[i])
    ensures AllSpaces(s[lo..hi])
  {
    forall i | 0 <= i < hi - lo ensures s[lo..hi][i] == ' ' {
      assert s[lo..hi][i] == s[lo + i];
    }
  }

  /** A text whose only whitespace is the space is its leading spaces, its trimmed
      form and its trailing spaces, one after another. */
  lemma {:induction false} TrimParts(s: string)
    requires OnlySpaces(s)
    ensures var a := SkipWhitespace(s, 0); var b := a + |Trim(s)|;
      s == s[..a] + Trim(s) + s[b..] && AllSpaces(s[..a]) && AllSpaces(s[b..])
  {
    var a := SkipWhitespace(s, 0);
    var b := a + |Trim(s)|;
    WhitespaceRun(s, 0, a);
    WhitespaceRun(s, b, |s|);
    assert s[0..a] == s[..a] && s[b..|s|] == s[b..];
    assert s == s[..a] + s[a..b] + s[b..];
  }

  /** Trimming a text whose only whitespace is the space keeps its non-space characters. */
  lemma {:induction false} NonSpacesTrim(s: string)
    requires OnlySpaces(s)
    ensures NonSpaces(Trim(s)) == NonSpaces(s)
  {
    var a := SkipWhitespace(s, 0);
    var b := a + |Trim(s)|;
    TrimParts(s);
    NonSpacesOfSpaces(s[..a]);
    NonSpacesOfSpaces(s[b..]);
    NonSpacesAppend(s[..a], Trim(s));
    NonSpacesAppend(s[..a] + Trim(s), s[b..]);
  }

  lemma {:induction false} OnlySpacesSlice(s: string, lo: int, hi: int)
    requires OnlySpaces(s) && 0 <= lo <= hi <= |s|
    ensures OnlySpaces(s[lo..hi])
  {
    forall i | 0 <= i < hi - lo ensures IsWhitespace(s[lo..hi][i]) ==> s[lo..hi][i] == ' ' {
      assert s[lo..hi][i] == s[lo + i];
    }
  }

  /** The strings of `lines`, one after another. */
  function Concat(lines: seq<string>): (r: string)
  {
    if lines == [] then [] else lines[0] + Concat(lines[1..])
  }

  lemma {:induction false} ConcatCons(line: string, more: seq<string>)
    ensures Concat([line] + more) == line + Concat(more)
  {
    assert ([line] + more)[1..] == more;
  }

  /** The length of the word `s` begins with: the characters before its first space. */
  function WordEnd(s: string): (n: nat)
    ensures n <= |s| && forall i :: 0 <= i < n ==> s[i] != ' '
    ensures n < |s| ==> s[n] == ' '
  {
    if s == [] || s[0] == ' ' then 0 else WordEnd(s[1..]) + 1
  }

  /** The words of `s`: its maximal runs of characters other than the space. */
  function Words(s: string): (ws: seq<string>)
    decreases |s|
  {
    if s == [] then []
    else if s[0] == ' ' then Words(s[1..])
    else
      var n := WordEnd(s);
      [s[..n]] + Words(s[n..])
  }

  lemma {:induction false} WordEndAppend(a: string, b: string)
    requires b == [] || b[0] == ' ' || ' ' in a
    ensures WordEnd(a + b) == WordEnd(a)
  {
    if a != [] && a[0] != ' ' {
      assert (a + b)[1..] == a[1..] + b;
      assert ' ' in a ==> ' ' in a[1..] by {
        if ' ' in a {
          var i :| 0 <= i < |a| && a[i] == ' ';
          assert a[1..][i - 1] == ' ';
        }
      }
      WordEndAppend(a[1..], b);
    }
  }

  lemma {:induction false} WordsOfSpaces(s: string)
    requires AllSpaces(s)
    ensures Words(s) == []
  {
    if s != [] {
      WordsOfSpaces(s[1..]);
    }
  }

  /** Two strings that meet at a space, or of which one is empty, have between them
      exactly the words of each. */
  lemma {:induction false} WordsAppend(a: string, b: string)
    requires a == [] || b == [] || a[|a| - 1] == ' ' || b[0] == ' '
    ensures Words(a + b) == Words(a) + Words(b)
    decreases |a|
  {
    if a == [] {
      assert a + b == b;
    } else if a[0] == ' ' {
      var c := a[1..];
      assert (a + b)[1..] == c + b;
      assert Words(a + b) == Words(c + b);
      assert Words(a) == Words(c);
      WordsAppend(c, b);
    } else {
      var n := WordEnd(a);
      if n < |a| {
        assert a[n..][0] == ' ';
      }
      WordsAppend(a[n..], b);
      WordsAppendWord(a, b);
    }
  }

  /** The step of WordsAppend where `a` begins with a word: that word is the first
      word of `a + b` too. */
  lemma {:induction false} WordsAppendWord(a: string, b: string)
    requires a != [] && a[0] != ' '
    requires b == [] || a[|a| - 1] == ' ' || b[0] == ' '
    requires Words(a[WordEnd(a)..] + b) == Words(a[WordEnd(a)..]) + Words(b)
    ensures Words(a + b) == Words(a) + Words(b)
  {
    var n := WordEnd(a);
    assert a[|a| - 1] == ' ' ==> ' ' in a;
    WordEndAppend(a, b);
    WordsUnfold(a + b);
    WordsUnfold(a);
    assert (a + b)[..n] == a[..n];
    assert (a + b)[n..] == a[n..] + b;
    assert [a[..n]] + (Words(a[n..]) + Words(b)) == ([a[..n]] + Words(a[n..])) + Words(b);
  }

  /** A text that begins with a word has that word first among its words. */
  lemma {:induction false} WordsUnfold(s: string)
    requires s != [] && s[0] != ' '
    ensures Words(s) == [s[..WordEnd(s)]] + Words(s[WordEnd(s)..])
  {
  }

  /** `s` cut at every newline; the pieces hold no newline. */
  function SplitOnNewline(s: string): (pieces: seq<string>)
    ensures |pieces| >= 1
    ensures forall i :: 0 <= i < |pieces| ==> '\n' !in pieces[i]
    decreases |s|
  {
    var k := IndexOf(s, '\n');
    if k < 0 then [s] else [s[..k]] + SplitOnNewline(s[k + 1..])
  }

  /** Trimming a text whose only whitespace is the space gives plain text. */
  lemma {:induction false} TrimPlain(s: string)
    requires OnlySpaces(s)
    ensures OnlySpaces(Trim(s)) && PlainText(Trim(s))
  {
    var a := SkipWhitespace(s, 0);
    OnlySpacesSlice(s, a, a + |Trim(s)|);
  }

  /** Trimming a text whose only whitespace is the space keeps its words. */
  lemma {:induction false} WordsTrim(s: string)
    requires OnlySpaces(s)
    ensures Words(Trim(s)) == Words(s)
  {
    var a := SkipWhitespace(s, 0);
    var b := a + |Trim(s)|;
    TrimParts(s);
    WordsOfSpaces(s[..a]);
    WordsOfSpaces(s[b..]);
    WordsAppend(Trim(s), s[b..]);
    WordsAppend(s[..a], Trim(s) + s[b..]);
    assert s[..a] + Trim(s) + s[b..] == s[..a] + (Trim(s) + s[b..]);
  }

  /** The first word ends at the first space, or at the end of a text without one. */
  lemma {:induction false} WordEndIsIndexOf(s: string)
    ensures WordEnd(s) == if IndexOf(s, ' ') < 0 then |s| else IndexOf(s, ' ')
  {
    var n := WordEnd(s);
    var r := IndexOf(s, ' ');
    if r >= 0 {
      assert s[..r + 1][r] == ' ';
      assert n <= r;
    }
  }

  /** Lists of strings that agree line by line in their non-space characters agree in
      the non-space characters of their concatenations. */
  lemma {:induction false} ConcatNonSpaces(a: seq<string>, b: seq<string>)
    requires |a| == |b|
    requires forall i :: 0 <= i < |a| ==> NonSpaces(a[i]) == NonSpaces(b[i])
    ensures NonSpaces(Concat(a)) == NonSpaces(Concat(b))
    decreases |a|
  {
    if a != [] {
      ConcatNonSpaces(a[1..], b[1..]);
      NonSpacesAppend(a[0], Concat(a[1..]));
      NonSpacesAppend(b[0], Concat(b[1..]));
    }
  }

  lemma {:induction false} PrefixSplit(t: string, line: string)
    requires |line| <= |t| && line == t[..|line|]
    ensures t == line + t[|line|..]
  {
  }
}
