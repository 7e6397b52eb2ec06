# Smart quotes: the quote-conversion engine

A Dafny model of the engine of the Obsidian smart-quotes plugin
(`apply-quotes.ts`). The engine turns the straight quotes `"` and `'` of a
text into the typographic strings chosen in the plugin settings. It works
one line at a time. Each quote is judged only by its two immediate
neighbours in the original line:

- whitespace (or the start of the line) before the quote makes it `Opening`;
- otherwise, whitespace (or the end of the line) after it makes it `Closing`;
- otherwise it is `Enclosed`, i.e. it sits inside a word.

Only a space and a tab count as whitespace. A single quote becomes
`openSingle` when it is `Opening` and `closeSingle` otherwise, so an
apostrophe inside a word becomes a closing quote. A double quote becomes
`closeDouble` when it is `Closing` and `openDouble` otherwise.

Layout:

- `strings.dfy`, module `Strings`: the JavaScript string primitives the engine
  uses. `Concat` is `join("")`. `Split` and `Join` are `split` and `join` on a
  one-character separator. The module also proves that `Split` and `Join` are
  inverse to each other.
- `apply_quotes.dfy`, module `ApplyQuotes`: the settings record, `QuotePosition`
  and `QuoteInfo`, and `IsWhitespace`. It then gives a position-by-position
  specification of a converted line:
  - `Classify`, `PositionAt` and `QuoteAt` classify one position;
  - `Replacement` and `Piece` give what that position becomes;
  - `ConvertLine` joins the pieces of all positions in order;
  - `Quotes` lists the records the scan must produce.
  The module implements the source's two passes as methods proved against
  this specification, and models the blob driver as a function over
  `ConvertLine`.

`applyQuotePreferencesToLine` is modelled as two methods. `ScanLine` is the
scan loop. It keeps the sliding window `prevChar`/`curChar`/`nextChar`,
copies every character into `newline` and records every quote.
`ApplyQuotePreferencesToLine` has the early return for an empty line. It then
calls `ScanLine`, runs the overwrite pass over the records, and joins the
slots. Both methods keep the source's own `if`/`else` chains. Their
postconditions tie the results to `Quotes` and `ConvertLine`. The classifier
and the replacement table are therefore proved to agree with the inline code.

## Model

| member | source | states |
|---|---|---|
| ApplyQuotes.Boundaries | apply-quotes.ts:164-169 | a neighbour counts as whitespace exactly when it is missing (start or end of the line), a space or a tab |
| ApplyQuotes.PositionRule | apply-quotes.ts:119-129 | a quote is Opening iff it is at index 0 or follows a space or tab; otherwise Closing iff it is at the last index or precedes a space or tab; otherwise Enclosed |
| ApplyQuotes.ReplacementTable | apply-quotes.ts:143-157 | single Opening gives openSingle and any other single gives closeSingle; double Closing gives closeDouble and any other double gives openDouble |
| ApplyQuotes.ScanLine | apply-quotes.ts:105-139 | after the loop, `newline` has one entry per character and entry i is the one-character string `line[i]`; the recorded quotes are exactly `Quotes(line)` |
| ApplyQuotes.QuotesSound | apply-quotes.ts:131-135 | every record has an index inside the line that holds a quote character; `isSingle` is true exactly for `'`; the position is the boundary rule's for that index |
| ApplyQuotes.QuotesSorted | apply-quotes.ts:111-139 | the records come in strictly increasing index order, so no quote is recorded twice |
| ApplyQuotes.QuotesComplete | apply-quotes.ts:118-135 | every quote character of the line has a record |
| ApplyQuotes.NoQuotesNoRecords | apply-quotes.ts:118 | a line without `"` or `'` produces no records |
| ApplyQuotes.ApplyQuotePreferencesToLine | apply-quotes.ts:100-162 | the result is the concatenation, in original order, of the pieces of the original positions; a quote's piece is its resolved string and any other position's piece is its own character; an empty line gives the empty string |
| ApplyQuotes.EmptyLine | apply-quotes.ts:102-103 | an empty line converts to the empty string |
| ApplyQuotes.NoQuotesUnchanged | apply-quotes.ts:141-161 | a line without straight quotes comes back unchanged |
| ApplyQuotes.OneCharReplacements | apply-quotes.ts:158-161 | with one-character replacements the output has the line's length; every non-quote character stays at its index and every quote becomes its replacement at its index |
| ApplyQuotes.StraightSettingsUnchanged | apply-quotes.ts:141-161 | settings that map each straight quote to itself leave every line unchanged |
| ApplyQuotes.SpaceSeparates | apply-quotes.ts:112-129 | the parts of a line on either side of a space convert as if each were a line of its own, since a space and a line end are the same to the classifier |
| ApplyQuotes.ConvertLineAvoids | apply-quotes.ts:158-161 | a character that is neither in the line nor in any replacement string is not in the output |
| ApplyQuotes.EmptyBlob | apply-quotes.ts:61-64 | the empty text converts to the empty text |
| ApplyQuotes.SingleLineBlob | apply-quotes.ts:61-64 | a text without a line break converts exactly as the single-line conversion does |
| ApplyQuotes.BlobLinesIndependent | apply-quotes.ts:61-64 | converting `a + "\n" + b` gives the conversion of `a`, a line break, and the conversion of `b`, so no state crosses a line break |
| ApplyQuotes.BlobLines | apply-quotes.ts:61-64 | when no replacement contains a line break, the lines of the converted text are exactly the converted lines of the text |
| ApplyQuotes.BlobWithoutQuotesUnchanged | apply-quotes.ts:61-64 | a text without straight quotes comes back unchanged |
| ApplyQuotes.CurlyExamples | apply-quotes.ts:100-162 | with curly settings, `"hello"` becomes `“hello”` (Opening at the start, Closing at the end), `don't` becomes `don’t` (Enclosed single quote resolves to closeSingle) and `'quote'` becomes `‘quote’` |
| Strings.JoinSplit | apply-quotes.ts:63 | joining the pieces of `split("\n")` with `"\n"` gives the text back |
| Strings.SplitJoin | apply-quotes.ts:63 | splitting the join of lines that contain no separator gives the lines back |
| Strings.SplitConcat | apply-quotes.ts:63 | `split` of `a + sep + b` is the split of `a` followed by the split of `b` |

Functions that only compute are covered by the lemmas above:

- `ApplyQuotes.IsWhitespace` (apply-quotes.ts:164-169) is stated by `ApplyQuotes.Boundaries`.
- `ApplyQuotes.Classify` and `ApplyQuotes.PositionAt` (apply-quotes.ts:119-129) are stated by `ApplyQuotes.PositionRule`.
- `ApplyQuotes.Replacement` (apply-quotes.ts:141-157) is stated by `ApplyQuotes.ReplacementTable`.
- `ApplyQuotes.ApplyQuotePreferencesToBlob` (apply-quotes.ts:61-64) is stated by `ApplyQuotes.SingleLineBlob`, `ApplyQuotes.BlobLinesIndependent`, `ApplyQuotes.BlobLines`, `ApplyQuotes.EmptyBlob` and `ApplyQuotes.BlobWithoutQuotesUnchanged`.

## Left out

- `applyQuotes` (apply-quotes.ts:9-59) is left out. It only drives the Obsidian `Editor`: it lists selections, orders anchor and head, reads ranges and lines, builds `EditorChange` records and commits a transaction. Those are host calls with no visible behaviour to model.
- The pairing heuristic described in the comments at apply-quotes.ts:83-84 is not implemented by the source, so it is not modelled. Every quote is classified from its own neighbours only.
- JavaScript looseness is not modelled. A `null` line (apply-quotes.ts:102), `undefined` settings fields and `var` hoisting have no counterpart here. A line is a `seq<char>` and the settings fields are total strings. `None` stands for `null` only as a missing neighbour.
- UTF-16 is not modelled. A line is a sequence of `char`; surrogate pairs are not treated specially.
- `ApplyQuotePreferencesToBlob` is a function over the specification `ConvertLine` rather than a call to the method, because a Dafny function cannot call a method. `ApplyQuotePreferencesToLine` is proved equal to `ConvertLine` on every line.
- `ScanLine` requires a non-empty line. The only caller reaches the scan after the empty-line return at apply-quotes.ts:102-103.
- The output need not keep the count of non-quote characters, because a replacement such as `“` is itself a non-quote character (and a replacement may have any length). The model states the positional form instead: `ApplyQuotePreferencesToLine` gives the output as the in-order concatenation of one piece per original position, and `OneCharReplacements` shows that with one-character replacements every non-quote character keeps its index.
