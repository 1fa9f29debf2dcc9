# formatHtml, modelled in Dafny

This project models `formatHtml` (src/utils/format.ts), the pretty-printer
of the editor's HTML view, and proves what it does. The function works in four steps:

1. It splits the markup into tag and text pieces with the capturing
   pattern `(<\/?[^>]+>)` and drops the blank pieces.
2. It walks the tokens with an integer counter `indent`. Each token is a
   closing tag, a void tag, an opening tag or text. Each printed token
   adds one line of two spaces per level, the token (text trimmed) and a
   line feed.
3. A closing tag decrements the counter first and prints at
   `Math.max(0, indent)`. An opening tag prints and then increments it.
4. It trims the result.

The model follows the code as written. The counter is never clamped, so
a closing tag can drive it below zero. Any other printed token then calls
`'  '.repeat` with a negative count, which throws `RangeError`. The
model returns that as `Failure(RangeError(n))`.

Modules, one file each:

- `results.dfy`, `Results`: `Option`, `Result` and the `RangeError` value.
- `strings.dfy`, `Strings`: the ECMAScript string operations the
  function uses. `trim` uses the WhiteSpace and LineTerminator set.
  `repeat` throws for a negative count.
- `tokenizer.dfy`, `Tokenizer`: the split as a direct left-to-right scan
  (`Split`), its declarative characterisation (`WellSplit`), and the
  blank filter (`KeepNonBlank`, `Tokens`).
- `classifier.dfy`, `Classifier`: the four-way token test, in the
  source's order.
- `formatter.dfy`, `Formatter`: one loop iteration (`Step`), the loop as
  a fold (`Fold`), the whole function (`Format`), and `FormatHtml`, a
  method that mirrors the loop statement by statement. It also holds the
  reference layout (`Lines`) and the exact failure condition (`Blocked`).
- `clamped.dfy`, `Clamped`: the evidently intended variant, with the
  counter floored at zero (see Findings).
- `examples.dfy`, `Examples`: worked inputs, proved over generic tag and
  text arguments and then instantiated.

## Model

| member | source | states |
|---|---|---|
| Strings.Trim | src/utils/format.ts:29 | `trim` removes exactly a blank prefix and a blank suffix. What remains starts and ends with a non-space character, and is empty exactly when the input is blank. |
| Strings.TrimStart | src/utils/format.ts:29 | The result is the longest suffix of the input that does not start with white space. Everything cut off is blank. |
| Strings.TrimEnd | src/utils/format.ts:29 | The result is the longest prefix of the input that does not end with white space. Everything cut off is blank. |
| Strings.TrimUntouched | src/utils/format.ts:36 | A string with no white space at either end trims to itself. So does that string with one line feed appended. |
| Strings.Repeat | src/utils/format.ts:20 | `unit.repeat(n)` throws `RangeError(n)` exactly when `n` is negative. Otherwise it is `n` copies of `unit` laid end to end: it has `n * len(unit)` characters, and character `i` is `unit[i % len(unit)]`. |
| Strings.RepeatTabIsIndent | src/utils/format.ts:5 | `tab.repeat(n)` yields two spaces per level for `n >= 0`, and throws `RangeError(n)` for negative `n`. |
| Strings.FlattenBlank | src/utils/format.ts:10 | A concatenation of pieces is blank exactly when every piece is blank. |
| Tokenizer.IndexOf | src/utils/format.ts:10 | The result is the first occurrence of the character, or none when the character does not occur. |
| Tokenizer.TagLengthExact | src/utils/format.ts:10 | At most one prefix of the remaining input matches the tag pattern. That prefix runs from `<` to the first later `>`, with at least one character between them. `TagLength` finds it, or returns 0 when no prefix matches. |
| Tokenizer.TagLengthStartsTag | src/utils/format.ts:10 | A match begins at a position exactly when `TagLength` there is positive. |
| Tokenizer.FirstTagFrom | src/utils/format.ts:10 | The scan returns the leftmost position, from the start on, where a match begins. No match begins before it. When it finds none, no match begins anywhere. |
| Tokenizer.Split | src/utils/format.ts:10 | `html.split(/(<\/?[^>]+>)/g)` as a left-to-right scan. It has no contract of its own. `Tokenizer.SplitCharacterization` states, in both directions, that the pieces are text and tag pieces alternating, with maximal text pieces, and that they concatenate back to the input. |
| Tokenizer.SplitFlattens | src/utils/format.ts:10 | The split pieces concatenate back to the input. |
| Tokenizer.SplitCharacterization | src/utils/format.ts:10 | A sequence of pieces is the split of `s` exactly when four things hold: the pieces spell `s`; text and tag alternate, starting and ending with text; every odd piece is a whole match; and no match begins inside a text piece. Both directions are proved. |
| Tokenizer.SplitOfAlternation | src/utils/format.ts:10 | Tags alternating with `<`-free text pieces split back into exactly those pieces. |
| Tokenizer.SplitAfterText | src/utils/format.ts:10 | The split peels off a leading `<`-free text and the tag after it. It then splits the rest on its own. |
| Tokenizer.KeepNonBlank | src/utils/format.ts:10 | `.filter(token => token.trim())` keeps only non-blank pieces. A piece survives exactly when it was present and is not blank. |
| Tokenizer.KeepNonBlankAppend | src/utils/format.ts:10 | The filter distributes over concatenation, so it keeps the input order. |
| Tokenizer.Tokens | src/utils/format.ts:10 | The split followed by `.filter(token => token.trim())`. It has no contract of its own. `Tokenizer.KeepNonBlank` fixes which pieces survive, and `Tokenizer.TokensEmpty` shows that there are no tokens exactly for blank input. |
| Tokenizer.TokensAfterText | src/utils/format.ts:10 | The tokens of text + tag + rest are the text (absent when blank), then the tag, then the tokens of the rest. |
| Tokenizer.TokensPlainText | src/utils/format.ts:10 | Text without `<` is its own single token, or yields no token when blank. |
| Tokenizer.TokensEmpty | src/utils/format.ts:10 | The input has no tokens exactly when it is blank. |
| Classifier.AffixTests | src/utils/format.ts:14-23 | The character tests used by `Classify` agree with `startsWith('</')`, `startsWith('<')` and `endsWith('/>')`. |
| Classifier.Classify | src/utils/format.ts:14-25 | The four-way test: closing first, then void, then opening, then text. It has no contract of its own. `Classifier.ClassifyTag` characterises void and opening tags in both directions, and `Classifier.AffixTests` ties its tests to `startsWith` and `endsWith`. |
| Classifier.BrandIsVoid | src/utils/format.ts:19 | The void pattern has no word boundary, so `<brand>` is void. |
| Classifier.UpperCaseBrIsOpening | src/utils/format.ts:19 | The void pattern is case-sensitive, so `<BR>` opens a level. |
| Classifier.UnclosedBrIsOpening | src/utils/format.ts:19 | The void pattern needs a `>` after the name, so `<br` opens a level. |
| Classifier.LaterBrIsVoid | src/utils/format.ts:19 | The void pattern may match anywhere in the token: the split yields `<a<br>` as one tag, and that tag is void. |
| Classifier.ClosingBrIsClosing | src/utils/format.ts:14 | `</br>` is a closing tag, because the closing test precedes the void test. |
| Classifier.SelfClosingIsVoid | src/utils/format.ts:19 | A token ending in `/>` is void whatever its name. |
| Classifier.PlainOpeningTag | src/utils/format.ts:23 | A token that starts with `<`, contains no second `<`, is not a closing tag, is not self-closing, and whose name does not begin with `img`, `br`, `hr` or `input` opens a level, whether or not it ends in `>`. This covers names such as `ins` and `image`. |
| Classifier.InsIsOpening | src/utils/format.ts:19-23 | `<ins>` opens a level: it shares its first letters with `img` and `input` but matches neither. |
| Classifier.ClassifyTag | src/utils/format.ts:14-25 | For a tag that ends in `>`, is not a closing tag and contains no second `<`, both directions hold: it is void exactly when it ends in `/>` or its name begins with `img`, `br`, `hr` or `input`. Otherwise it opens a level. |
| Formatter.Step | src/utils/format.ts:13-33 | One iteration throws exactly when a printed non-closing token meets a negative counter, and then reports that count. The counter moves by +1, -1 or 0 by kind. A printed token adds one line: a closing tag at the decremented level floored at zero, any other token at the current level. A blank text adds nothing. |
| Formatter.Fold | src/utils/format.ts:12-34 | After any token sequence, the counter equals the number of opening tags minus the number of closing tags. |
| Formatter.Format | src/utils/format.ts:36 | A non-empty result neither starts nor ends with white space. |
| Formatter.FoldFailsIff | src/utils/format.ts:19-31 | The loop throws exactly when some printed non-closing token is reached while more closing than opening tags precede it. |
| Formatter.FormatFailsIff | src/utils/format.ts:4-37 | `formatHtml` throws exactly when one of its tokens is blocked in that sense. |
| Formatter.NoUnderflowSucceeds | src/utils/format.ts:20-31 | When no prefix has more closing than opening tags, the loop succeeds. |
| Formatter.ClosingTagsNeverFail | src/utils/format.ts:14-17 | A sequence made only of closing tags never throws, however far the counter drops. |
| Formatter.FoldOutput | src/utils/format.ts:12-34 | On success, the loop's text is the reference layout. Each printed token gives exactly one line, at its own level floored at zero, in token order. Nothing is reordered, duplicated or dropped. |
| Formatter.FoldPrefixFails | src/utils/format.ts:12-34 | Once a prefix throws, the whole loop ends with that same error. |
| Formatter.FormatLayout | src/utils/format.ts:10-36 | Every token is printed. On success the result is the trimmed reference layout. |
| Formatter.FormatEmptyIff | src/utils/format.ts:10-36 | The result is `""` exactly when the input is blank. |
| Formatter.FormatHtml | src/utils/format.ts:4-37 | The loop, with `formatted` and `indent` updated in place and an early exit on `RangeError`, computes exactly `Format`. |
| Clamped.StepClamped | src/utils/format.ts:15-16 | With the counter floored at zero, a closing tag prints at the new floored level. Every other token prints at the current level. |
| Clamped.FormatClamped | src/utils/format.ts:4-37 | The corrected `formatHtml`, with the counter floored at zero. It is total and has no contract of its own. `Clamped.ClampedAgrees` proves it returns what `formatHtml` returns wherever that does not throw. |
| Clamped.FoldClampedAgrees | src/utils/format.ts:12-34 | Wherever the source's loop succeeds, the clamped loop prints the same text. Its counter is the source's counter floored at zero. |
| Clamped.ClampedAgrees | src/utils/format.ts:4-37 | The correction changes nothing wherever `formatHtml` succeeds. |
| Examples.UnderflowThrows | src/utils/format.ts:15-24 | `</p><p>` throws `RangeError(-1)`. |
| Examples.UnderflowClamped | src/utils/format.ts:15-16 | The corrected formatter prints `</p><p>` as two unindented lines. |
| Examples.FormatWrapped | src/utils/format.ts:19-25 | An element around one void tag or one text prints over three lines. The middle line is one level deeper, and text is trimmed. |
| Examples.VoidExample | src/utils/format.ts:19-20 | `<div><img src="x.png"/></div>` gives levels 0, 1, 0. |
| Examples.TextExample | src/utils/format.ts:28-32 | `<p>Hello</p>` puts the text one level below its element. |
| Examples.FormatBlank | src/utils/format.ts:10 | An element holding only white space prints as its two tags on consecutive lines. |
| Examples.BlankExample | src/utils/format.ts:10-33 | `<p>   </p>` gives exactly two lines. |
| Examples.FormatUnmatched | src/utils/format.ts:14-17 | Two closing tags with nothing open print as two unindented lines, and nothing throws. |
| Examples.UnmatchedExample | src/utils/format.ts:14-17 | `</div></div>` gives two unindented lines. |
| Examples.FormatNested | src/utils/format.ts:14-33 | Two nested elements around a text give levels 0, 1, 2, 1, 0, with the text trimmed. |
| Examples.NestedExample | src/utils/format.ts:12-36 | `<div><p>Hello</p></div>` gives levels 0, 1, 2, 1, 0. |

## Left out

- src/plugins/ToolbarPlugin.jsx, src/App.jsx, src/Editor.jsx: user interface state and editor configuration, with no formatting logic.
- src/plugins/ImagePlugin.jsx, src/plugins/OnChangePlugin.jsx, src/plugins/LoadHTMLPlugin.jsx: command registration, DOM parsing and HTML import/export by the editor framework. That framework is not part of this model. Its only tie to the core is the call of `formatHtml` on the exported HTML.
- src/nodes/ImageNode.jsx: a node class of the editor framework that only copies fields.
- Regular expressions: the split pattern and the void pattern are modelled as direct scans over the characters, not through a regex engine.
- UTF-16: strings are sequences of Unicode scalar values, not UTF-16 code units. Lone surrogates and code-unit indexing are not modelled.
- Strings.IsSpace: the Unicode category Zs is written out as a fixed list of characters. A later Unicode version that adds a space separator would change `trim`.
- Strings.Repeat: the `RangeError` JavaScript raises for infinite counts and for results longer than the maximum string length is not modelled. Counts here are finite integers, and memory is unbounded.
- Formatter.Fold: `formatted +=` (src/utils/format.ts:16, 20, 24, 31) throws `RangeError` ("Invalid string length") once the output passes the engine's maximum string length. Indentation grows with nesting, so deep nesting on a large input can reach this limit. The model has no length bound, and its output is then longer than what JavaScript could produce.
- Formatter.FormatHtml: the same string-length `RangeError` is not modelled, for the reason given for Formatter.Fold.
- The source behaves differently from what a reader might expect in three ways, and the model keeps all three:
  - void detection is case-sensitive (`<BR>` opens a level);
  - the counter is not clamped at zero;
  - the function can throw (see Findings).

## Findings

| source | as written | input that shows it | evidently intended | confidence | as-written member | corrected member |
|---|---|---|---|---|---|---|
| src/utils/format.ts:15 | `indent--` is unbounded. Only the closing tag's own line is floored with `Math.max(0, indent)`. A later non-closing token calls `tab.repeat` with a negative count. | `</p><p>` throws `RangeError` at `<p>`. | The counter is floored at zero (`indent = Math.max(0, indent - 1)`), so every token prints and nothing throws. `</p><p>` then gives `</p>\n<p>`. | medium, not executed | Examples.UnderflowThrows | Clamped.ClampedAgrees |

The corrected formatter is `Clamped.FormatClamped`. It is total, and
`Clamped.ClampedAgrees` proves that it returns the same text as
`formatHtml` on every input where `formatHtml` does not throw.
`Examples.UnderflowClamped` shows the corrected output on the failing input.
