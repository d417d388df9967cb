/** The parts of the Kotlin standard library that the text aligner relies on:
    32-bit `Int` arithmetic, `Char.isWhitespace`, `String.trim`, `indexOf`,
    `lastIndexOf` and `padStart`, each scanning the string the way the library does.
    A Kotlin `String` is a sequence of UTF-16 code units, while a Dafny `char` is a
    Unicode scalar value; the model covers the strings without surrogate code units,
    in which the two agree one for one. */
module KotlinText {

  /** Kotlin's `Int`: a 32-bit two's-complement integer. */
  type Int32 = x: int | -0x8000_0000 <= x < 0x8000_0000

  function Min(a: int, b: int): int { if a <= b then a else b }

  function Max(a: int, b: int): int { if a <= b then b else a }

  /** The `Int` that Kotlin's wrapping arithmetic yields for the exact value `x`. */
  function Wrap32(x: int): (r: Int32)
    ensures (x - r) % 0x1_0000_0000 == 0
    ensures -0x8000_0000 <= x < 0x8000_0000 ==> r == x
  {
    var m := x % 0x1_0000_0000;
    if m < 0x8000_0000 then m else m - 0x1_0000_0000
  }

  /** Kotlin's `a / 2` on `Int`, which rounds toward zero (Dafny's `/` rounds down). */
  function Halve(a: int): (r: int)
    ensures a >= 0 ==> 0 <= a - 2 * r <= 1
    ensures a < 0 ==> -1 <= a - 2 * r <= 0
  {
    if a >= 0 then a / 2 else -((-a) / 2)
  }

  /** `Char.isWhitespace()` on the JVM: `Character.isWhitespace` or `Character.isSpaceChar`,
      that is the controls U+0009..U+000D and U+001C..U+001F and the Unicode space,
      line and paragraph separators. The set is the one of Java 9 and later (Unicode 6.3
      onward); Java 8 follows Unicode 6.2, where U+180E MONGOLIAN VOWEL SEPARATOR is a
      space separator and so counts as whitespace too. Among ASCII characters these are
      the space, the controls TAB..CR and the four information separators; no letter
      or digit is whitespace. */
  predicate IsWhitespace(c: char): (r: bool)
    ensures c as int < 0x80 ==>
      (r <==> c == ' ' || '\t' <= c <= '\r' || '\U{1C}' <= c <= '\U{1F}')
    ensures ('0' <= c <= '9' || 'A' <= c <= 'Z' || 'a' <= c <= 'z') ==> !r
  {
    var n := c as int;
    n == 0x20 || 0x09 <= n <= 0x0D || 0x1C <= n <= 0x1F || n == 0xA0 || n == 0x1680
    || 0x2000 <= n <= 0x200A || n == 0x2028 || n == 0x2029 || n == 0x202F
    || n == 0x205F || n == 0x3000
  }

  /** True when `s` has no leading or trailing whitespace. */
  predicate IsTrimmed(s: string)
  {
    s == [] || (!IsWhitespace(s[0]) && !IsWhitespace(s[|s| - 1]))
  }

  /** The first position at or after `i` that does not hold whitespace, or `|s|`. */
  function SkipWhitespace(s: string, i: nat): (n: nat)
    requires i <= |s|
    ensures i <= n <= |s|
    ensures forall j :: i <= j < n ==> IsWhitespace(s[j])
    ensures n < |s| ==> !IsWhitespace(s[n])
    decreases |s| - i
  {
    if i < |s| && IsWhitespace(s[i]) then SkipWhitespace(s, i + 1) else i
  }

  /** The end of `s[lo..n]` once its trailing whitespace is dropped. */
  function SkipWhitespaceBack(s: string, lo: nat, n: nat): (m: nat)
    requires lo <= n <= |s|
    ensures lo <= m <= n
    ensures forall j :: m <= j < n ==> IsWhitespace(s[j])
    ensures m > lo ==> !IsWhitespace(s[m - 1])
    decreases n
  {
    if n > lo && IsWhitespace(s[n - 1]) then SkipWhitespaceBack(s, lo, n - 1) else n
  }

  /** `String.trim()`: the start index moves past leading whitespace, then the end
      index moves back over trailing whitespace but not past the start. The result is
      the slice of `s` between them, and everything outside it is whitespace. */
  function Trim(s: string): (r: string)
    ensures |r| <= |s| && IsTrimmed(r)
    ensures var a := SkipWhitespace(s, 0);
      a + |r| <= |s| && r == s[a..a + |r|]
      && forall i :: 0 <= i < |s| && !(a <= i < a + |r|) ==> IsWhitespace(s[i])
  {
    var a := SkipWhitespace(s, 0);
    s[a..SkipWhitespaceBack(s, a, |s|)]
  }

  /** `trim` returns `s[a..b]` when `a` and `b` bound the part of `s` that begins and
      ends with a character other than whitespace and everything outside is whitespace. */
  lemma {:induction false} TrimIs(s: string, a: int, b: int)
    requires 0 <= a <= b <= |s|
    requires forall i :: 0 <= i < a ==> IsWhitespace(s[i])
    requires forall i :: b <= i < |s| ==> IsWhitespace(s[i])
    requires a < b ==> !IsWhitespace(s[a]) && !IsWhitespace(s[b - 1])
    ensures Trim(s) == s[a..b]
  {
    var n := SkipWhitespace(s, 0);
    if a < b {
      assert n == a;
      var m := SkipWhitespaceBack(s, a, |s|);
      assert m == b;
    } else {
      assert n == |s|;
    }
  }

  /** Trimming twice is trimming once. */
  lemma {:induction false} TrimIdempotent(s: string)
    ensures Trim(Trim(s)) == Trim(s)
  {
    var r := Trim(s);
    TrimIs(r, 0, |r|);
    assert r[0..|r|] == r;
  }

  /** The first position at or after `i` that holds `c`, or -1. */
  function IndexFrom(s: string, c: char, i: nat): (r: int)
    requires i <= |s|
    ensures r == -1 || i <= r < |s|
    ensures r == -1 <==> forall j :: i <= j < |s| ==> s[j] != c
    ensures r >= 0 ==> s[r] == c && forall j :: i <= j < r ==> s[j] != c
    decreases |s| - i
  {
    if i == |s| then -1 else if s[i] == c then i else IndexFrom(s, c, i + 1)
  }

  /** `String.indexOf(c)`: the first position of `c` in `s`, or -1 when there is none. */
  function IndexOf(s: string, c: char): (r: int)
    ensures -1 <= r < |s|
    ensures r == -1 <==> c !in s
    ensures r >= 0 ==> s[r] == c && forall i :: 0 <= i < r ==> s[i] != c
  {
    IndexFrom(s, c, 0)
  }

  /** The last position before `n` that holds `c`, or -1. */
  function IndexBefore(s: string, c: char, n: nat): (r: int)
    requires n <= |s|
    ensures -1 <= r < n
    ensures r == -1 <==> forall j :: 0 <= j < n ==> s[j] != c
    ensures r >= 0 ==> s[r] == c && forall j :: r < j < n ==> s[j] != c
    decreases n
  {
    if n == 0 then -1 else if s[n - 1] == c then n - 1 else IndexBefore(s, c, n - 1)
  }

  /** `String.lastIndexOf(c)`: the last position of `c` in `s`, or -1 when there is none. */
  function LastIndexOf(s: string, c: char): (r: int)
    ensures -1 <= r < |s|
    ensures r == -1 <==> c !in s
    ensures r >= 0 ==> s[r] == c && forall i :: r < i < |s| ==> s[i] != c
  {
    IndexBefore(s, c, |s|)
  }

  /** `n` space characters. */
  function Spaces(n: nat): (r: string)
    ensures |r| == n && forall i :: 0 <= i < n ==> r[i] == ' '
  {
    seq(n, _ => ' ')
  }

  /** `r` is `s` with spaces put in front of it until it is `n` characters long
      (nothing is added when `s` already has `n` or more). */
  predicate LeftPadded(s: string, r: string, n: int)
  {
    |r| == Max(|s|, n) && (forall i :: 0 <= i < |s| ==> r[|r| - |s| + i] == s[i])
    && forall i :: 0 <= i < |r| - |s| ==> r[i] == ' '
  }

  /** Padding to a given length has one outcome. */
  lemma {:induction false} LeftPaddedUnique(s: string, r1: string, r2: string, n: int)
    requires LeftPadded(s, r1, n) && LeftPadded(s, r2, n)
    ensures r1 == r2
  {
    var k := |r1| - |s|;
    forall i | 0 <= i < |r1| ensures r1[i] == r2[i] {
      if i >= k {
        assert r1[k + (i - k)] == s[i - k] == r2[k + (i - k)];
      }
    }
  }

  /** `String.padStart(n)`; Kotlin throws on a negative `n`. */
  function PadStart(s: string, n: int): (r: string)
    requires n >= 0
    ensures LeftPadded(s, r, n)
  {
    if n <= |s| then s else Spaces(n - |s|) + s
  }
}
