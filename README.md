# Greedy line wrapping and alignment (Main.kt)

The source file `src/main/kotlin/Main.kt` holds a small
text aligner. `alignText(text, alignment, lineWidth)` rejects a width below 1.
Otherwise it cuts the text into lines with `splitTextByLines`, aligns every line
left, right or centre, and joins the lines with newlines in `convertToString`.

`splitTextByLines` is greedy. On each pass it takes the first `lineWidth`
characters of the remaining text and trims them. When the first word of the
remaining text fits in the width and the cut falls inside a word, the line is
shortened to its last space. When the first word does not fit, the word is cut
hard. The next remaining text is the remaining text from index `line.length` on,
trimmed. On a text that starts with whitespace that index lies inside the line
taken, because the line itself was trimmed, and characters are emitted twice.

The project has three modules:

- `KotlinText` (`KotlinText.dfy`) models the parts of the Kotlin library the file
  relies on. These are 32-bit `Int` wrap-around and division, `Char.isWhitespace`,
  `trim`, `indexOf`, `lastIndexOf` and `padStart`. Each scan is written the way the
  library performs it.
- `TextSpec` (`TextSpec.dfy`) holds the reference notions the properties are
  stated in. These are the non-space characters of a text, its words, the
  concatenation of lines, and splitting a string at newlines.
- `TextAlign` (`TextAlign.dfy`) models `Main.kt` itself.

The model has a function and a method for each loop:

- `SplitLines` is a recursive function that states what `splitTextByLines`
  returns. `SplitTextByLines` is the method with the source's `while` loop, and
  it is proved to return `SplitLines`.
- `JoinLines` is the function for `convertToString`. `ConvertToString` is the
  method with the source's loop, proved to return `JoinLines`.
- `AlignedText` is the function for `alignText`. `AlignText` is the method that
  reassigns its list of lines as the source does. Both use the corrected centre
  aligner of "## Findings" (see "## Left out").

The Kotlin code throws exceptions. The model returns them as values of
`Result`:

- `NonPositiveWidth`: `alignText` was given a width below 1.
- `IndexOutOfBounds`: `substring(0, -1)` on line 61.
- `NegativePadLength`: `padStart` was given a negative length.

Most properties are proved for *plain* text (`TextSpec.PlainText`): its only
whitespace is the space, and it does not begin with a space. Both conditions are
needed. Without them, line 61 can cut at index -1, as the lemmas
`LeadingSpaceCrashes` and `OtherWhitespaceCrashes` show. A text that begins with
whitespace also has characters repeated by line 66 (`LeadingWhitespaceRepeats`).

## Model

| member | source | states |
|---|---|---|
| KotlinText.IsWhitespace | src/main/kotlin/Main.kt:56 | `Char.isWhitespace` as `trim` uses it, the JVM set of Java 9 and later; among ASCII characters exactly the space, TAB..CR and U+001C..U+001F, and never a letter or digit |
| KotlinText.Wrap32 | src/main/kotlin/Main.kt:46 | the 32-bit `Int` that `+` yields differs from the exact sum by a multiple of 2^32, and equals the sum when the sum fits |
| KotlinText.Halve | src/main/kotlin/Main.kt:46 | `/ 2` on `Int` rounds toward zero for negative and for non-negative operands |
| KotlinText.Trim | src/main/kotlin/Main.kt:56 | `trim` returns a slice of its input with no whitespace at either end, and everything outside the slice is whitespace |
| KotlinText.TrimIs | src/main/kotlin/Main.kt:56 | any slice with whitespace-free ends and only whitespace outside it is what `trim` returns |
| KotlinText.TrimIdempotent | src/main/kotlin/Main.kt:34-35 | trimming a trimmed line changes nothing |
| KotlinText.IndexOf | src/main/kotlin/Main.kt:87 | `indexOf` gives -1 exactly when the character is absent, and otherwise its first position |
| KotlinText.LastIndexOf | src/main/kotlin/Main.kt:61 | `lastIndexOf` gives -1 exactly when the character is absent, and otherwise its last position |
| KotlinText.PadStart | src/main/kotlin/Main.kt:37-41 | `padStart(n)` puts spaces in front of the string until it is `max(len, n)` characters long, keeping the string as its suffix |
| KotlinText.LeftPaddedUnique | src/main/kotlin/Main.kt:37-41 | padding a string to a given length has exactly one outcome |
| TextAlign.IsWordSeparator | src/main/kotlin/Main.kt:29 | a character is a separator exactly when it is the space, the only element of `wordSeparators` |
| TextAlign.FullAccommodationPossible | src/main/kotlin/Main.kt:31-32 | true exactly when the line ends where the text ends or just before a space |
| TextAlign.ProtectSubstring | src/main/kotlin/Main.kt:80-85 | the result is `s[start .. min(end, len))`: it has that length and matches `s` from `start` on |
| TextAlign.GetLengthFirstWord | src/main/kotlin/Main.kt:87 | the first space's position, or -1 when the text has none |
| TextAlign.NextLine | src/main/kotlin/Main.kt:56-63 | one pass's line is no longer than the width or the text; it is empty only when the text starts with whitespace; the only failure is the `substring(0, -1)` of line 61 |
| TextAlign.RemainingText | src/main/kotlin/Main.kt:66 | the remaining text is no longer than what follows the line, and strictly shorter when whitespace follows the line, so the loop makes progress |
| TextAlign.SplitLines | src/main/kotlin/Main.kt:50-69 | splitting terminates on every text, and its only failure is the one of line 61 |
| TextAlign.SplitLinesStep | src/main/kotlin/Main.kt:55-67 | each successful pass emits its line in front of the lines of the remaining text |
| TextAlign.SplitLinesWidth | src/main/kotlin/Main.kt:50-69 | every emitted line is at most `lineWidth` long, and no line is emitted exactly when the text is empty |
| TextAlign.SplitTextByLines | src/main/kotlin/Main.kt:50-69 | the loop that appends to `lines` and reassigns `currentText` returns exactly `SplitLines` |
| TextAlign.AlignLeft | src/main/kotlin/Main.kt:34-35 | the same number of lines, each the trim of its original |
| TextAlign.AlignRight | src/main/kotlin/Main.kt:37-41 | the same number of lines, each left-padded to `lineWidth`; a line no longer than the width becomes exactly the width |
| TextAlign.AlignCenter | src/main/kotlin/Main.kt:44-48 | the same number of lines, each left-padded to `(len + lineWidth) / 2`; the free space on the right of a line that fits equals that on its left or exceeds it by one |
| TextAlign.AlignCenterAsWritten | src/main/kotlin/Main.kt:44-48 | with 32-bit arithmetic, `alignCenter` throws exactly when some line's padding length wraps below zero; otherwise it pads each line to that length |
| TextAlign.AlignCenterAsWrittenAgrees | src/main/kotlin/Main.kt:44-48 | where no sum `len + lineWidth` overflows, the 32-bit `alignCenter` and the exact one agree |
| TextAlign.Align | src/main/kotlin/Main.kt:18-23 | the chosen aligner keeps the number of lines |
| TextAlign.ConvertToString | src/main/kotlin/Main.kt:71-78 | the loop over all but the last line, followed by the last line, gives `JoinLines`: one newline between lines and none at the end |
| TextAlign.SplitJoin | src/main/kotlin/Main.kt:71-78 | cutting the output of `convertToString` at its newlines gives back the lines when there is at least one and none holds a newline |
| TextAlign.AlignText | src/main/kotlin/Main.kt:12-26 | fails with `NonPositiveWidth` exactly when the width is below 1; otherwise returns `AlignedText`, which centres with the corrected aligner; so on plain text it fails only for a width below 1 |
| TextAlign.CenterAsWrittenAgreesBelow | src/main/kotlin/Main.kt:44-48 | for every width below 2^30 the lines of `splitTextByLines` fit in the width, and the 32-bit `alignCenter` of the source gives on them what the corrected one gives |
| TextAlign.NextLinePlain | src/main/kotlin/Main.kt:56-63 | on plain text a pass never fails and takes a non-empty prefix; when the first space is within the width, the line ends at the text's end or before a space; otherwise the line is the first `min(w, len)` characters |
| TextAlign.CutBack | src/main/kotlin/Main.kt:61 | on plain text the cut of line 61 falls on a space after the first character, so it never cuts at -1 or 0 |
| TextAlign.RemainingPlain | src/main/kotlin/Main.kt:66 | the remaining text is again plain and keeps the non-space characters and the words of what followed the line |
| TextAlign.SplitLinesPlain | src/main/kotlin/Main.kt:50-69 | on plain text splitting never fails, and every line is non-empty, starts with a character other than whitespace, and holds no whitespace but spaces |
| TextAlign.SplitLinesNonSpaces | src/main/kotlin/Main.kt:50-69 | the non-space characters of the emitted lines, read in order, are those of the text |
| TextAlign.NextLineKeepsWords | src/main/kotlin/Main.kt:56-66 | when no word is longer than the width, the words of the text are the words of the line followed by those of the remaining text |
| TextAlign.SplitLinesKeepsWords | src/main/kotlin/Main.kt:50-69 | when no word is longer than the width, no word is broken: the words of the lines, in order, are the words of the text |
| TextAlign.AlignKeepsPlain | src/main/kotlin/Main.kt:18-23 | every aligner keeps each line free of whitespace other than spaces and keeps its non-space characters |
| TextAlign.PaddedPlain | src/main/kotlin/Main.kt:37-48 | padding with spaces adds no non-space character and no other whitespace |
| TextAlign.AlignedTextSplit | src/main/kotlin/Main.kt:12-26 | on non-empty plain text the output, cut at its newlines, is the aligned lines of `splitTextByLines` |
| TextAlign.AlignedTextWidth | src/main/kotlin/Main.kt:12-26 | every output line is at most the width long, and exactly the width when right-aligned |
| TextAlign.AlignedTextNonSpaces | src/main/kotlin/Main.kt:12-26 | the output has the text's non-space characters, none lost and none reordered |
| TextAlign.EmptyText | src/main/kotlin/Main.kt:55 | the empty text gives no lines and the empty string |
| TextAlign.NextLineOneWord | src/main/kotlin/Main.kt:56-63 | a single word that fits is taken whole |
| TextAlign.SplitOneWord | src/main/kotlin/Main.kt:55-67 | a single word that fits is one line |
| TextAlign.NextLineKeepsSpace | src/main/kotlin/Main.kt:56-63 | from "a  bc" at width 4 a pass takes "a ", keeping the space left before the cut |
| TextAlign.RemainderAfterSpace | src/main/kotlin/Main.kt:66 | after "a " the remaining text of "a  bc" is "bc" |
| TextAlign.SplitTwoLines | src/main/kotlin/Main.kt:55-67 | a pass that leaves a text giving one line gives two lines in all |
| TextAlign.TrailingSpaceKept | src/main/kotlin/Main.kt:61 | "a  bc" at width 4 gives the lines "a " and "bc": a line can end in a space |
| TextAlign.LeadingWhitespaceRepeats | src/main/kotlin/Main.kt:66 | "\tab" at width 5 gives the lines "ab" and "b": the remainder resumes at index 2 of the untrimmed text |
| TextAlign.LeadingSpaceCrashes | src/main/kotlin/Main.kt:61 | " ab cd" at width 3 makes line 61 call `substring(0, -1)` |
| TextAlign.OtherWhitespaceCrashes | src/main/kotlin/Main.kt:61 | "ab\t cd" at width 4 makes line 61 call `substring(0, -1)` |
| TextAlign.CenterTargetOverflows | src/main/kotlin/Main.kt:46 | for a line of length 1 at width 2147483647 the padding length comes out as -1073741824 |
| TextAlign.CenterOverflowCrashes | src/main/kotlin/Main.kt:46 | `alignText("a", CENTER, 2147483647)` splits into the line "a" and then throws in `padStart` |
| TextAlign.CenterCorrectedPads | src/main/kotlin/Main.kt:46 | the corrected centre aligner pads that line to 1073741824 characters |

## Left out

- `main` (Main.kt:90-99) is left out: a fixed sample text, console output and an exception handler are I/O only.
- The `StringBuilder` of `convertToString` is left out: the model builds the result as a sequence of characters.
- Strings holding surrogate code units are left out. A Kotlin `String` is a sequence of UTF-16 code units, but a Dafny `char` is a Unicode scalar value and cannot be a lone surrogate. So the model covers only strings without surrogates, where one code unit is one `char`. A character outside the Basic Multilingual Plane has length 2 in Kotlin, and line 56 can cut between its halves; neither is modelled.
- KotlinText.IsWhitespace follows the whitespace set of Java 9 and later. On Java 8, U+180E also counts as whitespace.
- TextAlign.AlignText, TextAlign.AlignedText, TextAlign.AlignedTextSplit, TextAlign.AlignedTextWidth and TextAlign.AlignedTextNonSpaces use the corrected centre aligner `AlignCenter` of "## Findings", not the 32-bit one of Main.kt:46. For CENTER at a width where some line's length plus the width exceeds 2^31 - 1, they return a result where the source throws (TextAlign.CenterOverflowCrashes). Below a width of 2^30 the two agree (TextAlign.CenterAsWrittenAgreesBelow).
- TextAlign.SplitTextByLines and TextAlign.SplitLines require a width of at least 1. With width 0 the Kotlin loop never ends on a text holding a character other than whitespace. With a negative width, `substring` throws on every non-empty text, and the empty text gives no lines. `alignText`, the only caller, rejects such widths first.
- TextAlign.AlignRight and TextAlign.AlignCenter require a width of at least 0, since `padStart` throws on a negative length. `alignText` calls them only with a width of at least 1.
- TextAlign.SplitLinesPlain, TextAlign.SplitLinesNonSpaces, TextAlign.SplitLinesKeepsWords, TextAlign.AlignedTextWidth and TextAlign.AlignedTextNonSpaces hold only for plain text. On other text line 61 can throw, and these properties are not stated there.
- Memory exhaustion is not modelled. An example is `padStart` to a length near 2^31.
- The model never states that emitted lines are trimmed, because a line shortened on line 61 can end in a space (TextAlign.TrailingSpaceKept). Only the output of `alignLeft` is trimmed.

## Findings

| source | as written | input that shows it | evidently intended | confidence | as-written member | corrected member |
|---|---|---|---|---|---|---|
| src/main/kotlin/Main.kt:46 | `(line.length + lineWidth) / 2` is evaluated in 32-bit `Int` and wraps for a large width, so `padStart` gets a negative length and throws | `alignText("a", Alignment.CENTER, 2147483647)`: `1 + 2147483647` wraps to -2147483648, and `/ 2` gives -1073741824 | the padding length `(len + lineWidth) / 2` computed without overflow, here 1073741824 | not executed | TextAlign.CenterOverflowCrashes | TextAlign.AlignCenter |
