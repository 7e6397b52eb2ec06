/**
 * The quote converter of apply-quotes.ts: straight `"` and `'` characters
 * of a line become the typographic strings chosen in the plugin settings,
 * each one judged only by its two immediate neighbours in the original line.
 */
module ApplyQuotes {
  import opened Strings

  /** A neighbour of the current character; `None` is JavaScript's `null`,
      i.e. the start or the end of the line. */
  datatype Option<T> = None | Some(value: T)

  /** The four replacement strings of `SmartTypographySettings`. */
  datatype SmartTypographySettings = SmartTypographySettings(
    openSingle: string, closeSingle: string, openDouble: string, closeDouble: string)

  datatype QuotePosition = Opening | Closing | Enclosed

  /** One straight quote found by the scan: which kind, where in the
      original line, and how its neighbours classify it. */
  datatype QuoteInfo = QuoteInfo(isSingle: bool, index: nat, position: QuotePosition)

  predicate IsQuote(c: char)
  {
    c == '"' || c == '\''
  }

  /** `isWhitespace`: a missing neighbour, a space and a tab are whitespace. */
  predicate IsWhitespace(c: Option<char>)
  {
    match c
    case None => true
    case Some(ch) => ch == ' ' || ch == '\t'
  }

  // ---------------------------------------------------------------------
  // Specification of one line, position by position
  // ---------------------------------------------------------------------

  /** The character before position `i`, or `None` at the start. */
  function Before(line: string, i: nat): Option<char>
    requires i < |line|
  {
    if i == 0 then None else Some(line[i - 1])
  }

  /** The character after position `i`, or `None` at the end. */
  function After(line: string, i: nat): Option<char>
    requires i < |line|
  {
    if i < |line| - 1 then Some(line[i + 1]) else None
  }

  /** The boundary rule: whitespace before wins, then whitespace after. */
  function Classify(prevChar: Option<char>, nextChar: Option<char>): QuotePosition
  {
    if IsWhitespace(prevChar) then Opening
    else if IsWhitespace(nextChar) then Closing
    else Enclosed
  }

  function PositionAt(line: string, i: nat): QuotePosition
    requires i < |line|
  {
    Classify(Before(line, i), After(line, i))
  }

  /** The record the scan makes for a quote at position `i`. */
  function QuoteAt(line: string, i: nat): QuoteInfo
    requires i < |line|
  {
    QuoteInfo(line[i] == '\'', i, PositionAt(line, i))
  }

  /** The replacement string the settings give a recorded quote. */
  function Replacement(quote: QuoteInfo, settings: SmartTypographySettings): string
  {
    if quote.isSingle then
      (if quote.position == Opening then settings.openSingle else settings.closeSingle)
    else
      (if quote.position == Closing then settings.closeDouble else settings.openDouble)
  }

  /** What position `i` of the line becomes in the output. */
  function Piece(line: string, i: nat, settings: SmartTypographySettings): string
    requires i < |line|
  {
    if IsQuote(line[i]) then Replacement(QuoteAt(line, i), settings) else [line[i]]
  }

  function Pieces(line: string, settings: SmartTypographySettings): seq<string>
  {
    seq(|line|, i requires 0 <= i < |line| => Piece(line, i, settings))
  }

  /** The converted line: the pieces of all positions of the original line,
      in order. */
  function ConvertLine(line: string, settings: SmartTypographySettings): string
  {
    Concat(Pieces(line, settings))
  }

  /** The records of the quotes among the first `n` characters, left to right. */
  function QuotesUpTo(line: string, n: nat): seq<QuoteInfo>
    requires n <= |line|
  {
    if n == 0 then []
    else QuotesUpTo(line, n - 1) + (if IsQuote(line[n - 1]) then [QuoteAt(line, n - 1)] else [])
  }

  /** The records of all quotes of the line. */
  function Quotes(line: string): seq<QuoteInfo>
  {
    QuotesUpTo(line, |line|)
  }

  // ---------------------------------------------------------------------
  // The two passes
  // ---------------------------------------------------------------------

  /** The scan loop: copies each character into `newline` and records each
      quote, keeping a window of the previous, current and next character. */
  method ScanLine(line: string) returns (newline: seq<string>, quotes: seq<QuoteInfo>)
    requires |line| > 0
    ensures newline == Singletons(line)
    ensures quotes == Quotes(line)
  {
    newline := [];
    var nextChar: Option<char> := Some(line[0]);
    var curChar: Option<char> := None;
    var i := 0;
    quotes := [];

    while i < |line|
      invariant 0 <= i <= |line|
      invariant i < |line| ==> nextChar == Some(line[i])
      invariant curChar == if i == 0 then None else Some(line[i - 1])
      invariant |newline| == i
      invariant forall k :: 0 <= k < i ==> newline[k] == [line[k]]
      invariant quotes == QuotesUpTo(line, i)
    {
      var prevChar := curChar;
      curChar := nextChar;
      nextChar := if i < |line| - 1 then Some(line[i + 1]) else None;

      var c := curChar.value;
      newline := newline + [[c]];

      if c == '"' || c == '\'' {
        var isWsBefore := IsWhitespace(prevChar);
        var isWsAfter := IsWhitespace(nextChar);

        var pos := Opening;
        if isWsBefore {
          pos := Opening;
        } else if isWsAfter {
          pos := Closing;
        } else {
          pos := Enclosed;
        }

        quotes := quotes + [QuoteInfo(c == '\'', i, pos)];
      }

      i := i + 1;
    }
  }

  /** `applyQuotePreferencesToLine`: scan, then overwrite the slot of every
      recorded quote with its replacement, then join the slots. */
  method ApplyQuotePreferencesToLine(line: string, settings: SmartTypographySettings)
    returns (r: string)
    ensures r == ConvertLine(line, settings)
  {
    if |line| == 0 {
      return "";
    }

    var newline, quotes := ScanLine(line);
    QuotesSound(line);

    ghost var done: set<nat> := {};
    var j := 0;
    while j < |quotes|
      invariant 0 <= j <= |quotes|
      invariant |newline| == |line|
      invariant forall k :: 0 <= k < j ==> quotes[k].index in done
      invariant Rewritten(line, settings, newline, done)
    {
      var quote := quotes[j];
      var c: string;
      if quote.isSingle {
        if quote.position == Opening {
          c := settings.openSingle;
        } else {
          c := settings.closeSingle;
        }
      } else {
        if quote.position == Closing {
          c := settings.closeDouble;
        } else {
          c := settings.openDouble;
        }
      }
      assert quote == QuoteAt(line, quote.index) && IsQuote(line[quote.index]);
      assert c == Piece(line, quote.index, settings);
      RewriteStep(line, settings, newline, done, quote.index);
      newline := newline[quote.index := c];
      done := done + {quote.index};
      j := j + 1;
    }

    RewriteComplete(line, settings, newline, done);
    r := Concat(newline);
  }

  /** The slots in `done` hold their pieces and all others their original
      character. */
  ghost predicate Rewritten(line: string, settings: SmartTypographySettings, newline: seq<string>, done: set<nat>)
  {
    |newline| == |line| &&
    forall i :: 0 <= i < |line| ==>
      newline[i] == if i in done then Piece(line, i, settings) else [line[i]]
  }

  lemma RewriteStep(line: string, settings: SmartTypographySettings, newline: seq<string>, done: set<nat>, x: nat)
    requires Rewritten(line, settings, newline, done)
    requires x < |line|
    ensures Rewritten(line, settings, newline[x := Piece(line, x, settings)], done + {x})
  {
  }

  /** Once every recorded quote's slot holds its piece, all slots do. */
  lemma RewriteComplete(line: string, settings: SmartTypographySettings, newline: seq<string>, done: set<nat>)
    requires Rewritten(line, settings, newline, done)
    requires forall k :: 0 <= k < |Quotes(line)| ==> Quotes(line)[k].index in done
    ensures newline == Pieces(line, settings)
  {
    QuotesComplete(line);
    forall i | 0 <= i < |line|
      ensures newline[i] == Pieces(line, settings)[i]
    {
      if IsQuote(line[i]) {
        var k :| 0 <= k < |Quotes(line)| && Quotes(line)[k].index == i;
        assert i in done;
      }
    }
  }

  /** `applyQuotePreferencesToBlob`: split on line breaks, convert each line
      on its own, join with line breaks. */
  function ApplyQuotePreferencesToBlob(text: string, settings: SmartTypographySettings): string
  {
    Join(ConvertAll(Split(text, '\n'), settings), '\n')
  }

  /** `lines.map(line => applyQuotePreferencesToLine(line, settings))`. */
  function ConvertAll(lines: seq<string>, settings: SmartTypographySettings): seq<string>
  {
    seq(|lines|, k requires 0 <= k < |lines| => ConvertLine(lines[k], settings))
  }

  // ---------------------------------------------------------------------
  // Properties of the scan
  // ---------------------------------------------------------------------

  lemma {:induction false} QuotesUpToFacts(line: string, n: nat)
    requires n <= |line|
    ensures forall k :: 0 <= k < |QuotesUpTo(line, n)| ==>
      QuotesUpTo(line, n)[k].index < n &&
      IsQuote(line[QuotesUpTo(line, n)[k].index]) &&
      QuotesUpTo(line, n)[k] == QuoteAt(line, QuotesUpTo(line, n)[k].index)
    ensures forall a, b :: 0 <= a < b < |QuotesUpTo(line, n)| ==>
      QuotesUpTo(line, n)[a].index < QuotesUpTo(line, n)[b].index
    ensures forall i :: 0 <= i < n && IsQuote(line[i]) ==>
      exists k :: 0 <= k < |QuotesUpTo(line, n)| && QuotesUpTo(line, n)[k].index == i
    decreases n
  {
    if n > 0 {
      QuotesUpToFacts(line, n - 1);
      var prev, cur := QuotesUpTo(line, n - 1), QuotesUpTo(line, n);
      assert forall k :: 0 <= k < |prev| ==> cur[k] == prev[k];
      if IsQuote(line[n - 1]) {
        assert cur[|prev|].index == n - 1;
      }
    }
  }

  /** Every record is the record of a quote character at its index: `isSingle`
      holds exactly for `'`, and the position is the boundary rule's. */
  lemma QuotesSound(line: string)
    ensures forall k :: 0 <= k < |Quotes(line)| ==>
      Quotes(line)[k].index < |line| &&
      IsQuote(line[Quotes(line)[k].index]) &&
      Quotes(line)[k] == QuoteAt(line, Quotes(line)[k].index)
  {
    QuotesUpToFacts(line, |line|);
  }

  /** The records come in strictly increasing index order. */
  lemma QuotesSorted(line: string)
    ensures forall a, b :: 0 <= a < b < |Quotes(line)| ==> Quotes(line)[a].index < Quotes(line)[b].index
  {
    QuotesUpToFacts(line, |line|);
  }

  /** Every quote character of the line has a record. */
  lemma QuotesComplete(line: string)
    ensures forall i :: 0 <= i < |line| && IsQuote(line[i]) ==>
      exists k :: 0 <= k < |Quotes(line)| && Quotes(line)[k].index == i
  {
    QuotesUpToFacts(line, |line|);
    assert Quotes(line) == QuotesUpTo(line, |line|);
  }

  /** A line without straight quotes gets no records. */
  lemma NoQuotesNoRecords(line: string)
    requires forall i :: 0 <= i < |line| ==> !IsQuote(line[i])
    ensures Quotes(line) == []
  {
    NoQuotesUpTo(line, |line|);
  }

  lemma {:induction false} NoQuotesUpTo(line: string, n: nat)
    requires n <= |line|
    requires forall i :: 0 <= i < |line| ==> !IsQuote(line[i])
    ensures QuotesUpTo(line, n) == []
    decreases n
  {
    if n > 0 {
      NoQuotesUpTo(line, n - 1);
    }
  }

  /** The boundary test in terms of the line: the start of the line, a space
      or a tab before; the end of the line, a space or a tab after. */
  lemma Boundaries(line: string, i: nat)
    requires i < |line|
    ensures IsWhitespace(Before(line, i)) <==> i == 0 || line[i - 1] == ' ' || line[i - 1] == '\t'
    ensures IsWhitespace(After(line, i)) <==> i == |line| - 1 || line[i + 1] == ' ' || line[i + 1] == '\t'
  {
  }

  /** The classification of position `i`, in terms of the line. */
  lemma PositionRule(line: string, i: nat)
    requires i < |line|
    ensures PositionAt(line, i) == Opening <==>
      i == 0 || line[i - 1] == ' ' || line[i - 1] == '\t'
    ensures PositionAt(line, i) == Closing <==>
      !(i == 0 || line[i - 1] == ' ' || line[i - 1] == '\t') &&
      (i == |line| - 1 || line[i + 1] == ' ' || line[i + 1] == '\t')
    ensures PositionAt(line, i) == Enclosed <==>
      !(i == 0 || line[i - 1] == ' ' || line[i - 1] == '\t') &&
      !(i == |line| - 1 || line[i + 1] == ' ' || line[i + 1] == '\t')
  {
    Boundaries(line, i);
  }

  /** The replacement table, row by row. */
  lemma ReplacementTable(quote: QuoteInfo, settings: SmartTypographySettings)
    ensures quote.isSingle && quote.position == Opening ==> Replacement(quote, settings) == settings.openSingle
    ensures quote.isSingle && quote.position != Opening ==> Replacement(quote, settings) == settings.closeSingle
    ensures !quote.isSingle && quote.position == Closing ==> Replacement(quote, settings) == settings.closeDouble
    ensures !quote.isSingle && quote.position != Closing ==> Replacement(quote, settings) == settings.openDouble
  {
  }

  // ---------------------------------------------------------------------
  // Properties of a converted line
  // ---------------------------------------------------------------------

  lemma EmptyLine(settings: SmartTypographySettings)
    ensures ConvertLine([], settings) == []
  {
  }

  /** A line without straight quotes comes back unchanged. */
  lemma NoQuotesUnchanged(line: string, settings: SmartTypographySettings)
    requires forall i :: 0 <= i < |line| ==> !IsQuote(line[i])
    ensures ConvertLine(line, settings) == line
  {
    assert Pieces(line, settings) == Singletons(line);
    ConcatSingletons(line);
  }

  /** With one-character replacements there is no drift: the output has the
      line's length, every other character stays where it was, and each quote
      becomes its replacement character in place. */
  lemma OneCharReplacements(line: string, settings: SmartTypographySettings)
    requires |settings.openSingle| == 1 && |settings.closeSingle| == 1
    requires |settings.openDouble| == 1 && |settings.closeDouble| == 1
    ensures |ConvertLine(line, settings)| == |line|
    ensures forall i :: 0 <= i < |line| && !IsQuote(line[i]) ==> ConvertLine(line, settings)[i] == line[i]
    ensures forall i :: 0 <= i < |line| && IsQuote(line[i]) ==>
      ConvertLine(line, settings)[i] == Replacement(QuoteAt(line, i), settings)[0]
  {
    ConcatUnitParts(Pieces(line, settings));
  }

  /** Settings that map each quote to itself change nothing. */
  lemma StraightSettingsUnchanged(line: string)
    ensures ConvertLine(line, SmartTypographySettings("'", "'", "\"", "\"")) == line
  {
    var settings := SmartTypographySettings("'", "'", "\"", "\"");
    assert Pieces(line, settings) == Singletons(line);
    ConcatSingletons(line);
  }

  /** A space separates two parts of a line completely: each part converts
      as if it were a line of its own. */
  lemma SpaceSeparates(a: string, b: string, settings: SmartTypographySettings)
    ensures ConvertLine(a + [' '] + b, settings) == ConvertLine(a, settings) + [' '] + ConvertLine(b, settings)
  {
    var line := a + [' '] + b;
    var pa, pb := Pieces(a, settings), Pieces(b, settings);
    forall i | 0 <= i < |a|
      ensures Pieces(line, settings)[i] == pa[i]
    {
      assert IsWhitespace(After(line, i)) == IsWhitespace(After(a, i));
    }
    forall i | 0 <= i < |b|
      ensures Pieces(line, settings)[|a| + 1 + i] == pb[i]
    {
      assert IsWhitespace(Before(line, |a| + 1 + i)) == IsWhitespace(Before(b, i));
    }
    assert Pieces(line, settings) == pa + [[' ']] + pb;
    ConcatAppend(pa + [[' ']], pb);
    ConcatAppend(pa, [[' ']]);
    assert Concat([[' ']]) == [' '];
  }

  /** Output without a given character, when neither the line nor the
      settings hold it. */
  lemma ConvertLineAvoids(line: string, settings: SmartTypographySettings, c: char)
    requires c !in line
    requires c !in settings.openSingle && c !in settings.closeSingle
    requires c !in settings.openDouble && c !in settings.closeDouble
    ensures c !in ConvertLine(line, settings)
  {
    ConcatMember(Pieces(line, settings), c);
  }

  // ---------------------------------------------------------------------
  // Properties of the blob conversion
  // ---------------------------------------------------------------------

  lemma EmptyBlob(settings: SmartTypographySettings)
    ensures ApplyQuotePreferencesToBlob([], settings) == []
  {
    assert Split([], '\n') == [[]];
  }

  /** Text without a line break converts as a single line. */
  lemma SingleLineBlob(text: string, settings: SmartTypographySettings)
    requires '\n' !in text
    ensures ApplyQuotePreferencesToBlob(text, settings) == ConvertLine(text, settings)
  {
    SplitNoSeparator(text, '\n');
  }

  /** No state crosses a line break: the text before and the text after it
      convert independently. */
  lemma BlobLinesIndependent(a: string, b: string, settings: SmartTypographySettings)
    ensures ApplyQuotePreferencesToBlob(a + "\n" + b, settings) ==
      ApplyQuotePreferencesToBlob(a, settings) + "\n" + ApplyQuotePreferencesToBlob(b, settings)
  {
    var la, lb := Split(a, '\n'), Split(b, '\n');
    SplitConcat(a, b, '\n');
    assert ConvertAll(la + lb, settings) == ConvertAll(la, settings) + ConvertAll(lb, settings);
    JoinAppend(ConvertAll(la, settings), ConvertAll(lb, settings), '\n');
  }

  /** When the settings add no line break, the lines of the converted text are
      exactly the converted lines of the text. */
  lemma BlobLines(text: string, settings: SmartTypographySettings)
    requires '\n' !in settings.openSingle && '\n' !in settings.closeSingle
    requires '\n' !in settings.openDouble && '\n' !in settings.closeDouble
    ensures Split(ApplyQuotePreferencesToBlob(text, settings), '\n') ==
      ConvertAll(Split(text, '\n'), settings)
  {
    var lines := Split(text, '\n');
    var converted := ConvertAll(lines, settings);
    forall k | 0 <= k < |converted|
      ensures '\n' !in converted[k]
    {
      ConvertLineAvoids(lines[k], settings, '\n');
    }
    SplitJoin(converted, '\n');
  }

  /** Text without straight quotes comes back unchanged, line breaks included. */
  lemma BlobWithoutQuotesUnchanged(text: string, settings: SmartTypographySettings)
    requires '"' !in text && '\'' !in text
    ensures ApplyQuotePreferencesToBlob(text, settings) == text
  {
    var lines := Split(text, '\n');
    SplitPiecesFrom(text, '\n');
    forall k | 0 <= k < |lines|
      ensures ConvertAll(lines, settings)[k] == lines[k]
    {
      NoQuotesUnchanged(lines[k], settings);
    }
    assert ConvertAll(lines, settings) == lines;
    JoinSplit(text, '\n');
  }

  /** Every character of a split piece comes from the text. */
  lemma {:induction false} SplitPiecesFrom(t: string, sep: char)
    ensures forall k, c :: 0 <= k < |Split(t, sep)| && c in Split(t, sep)[k] ==> c in t
    decreases |t|
  {
    if t != [] {
      var rest := Split(t[1..], sep);
      SplitPiecesFrom(t[1..], sep);
      assert t == [t[0]] + t[1..];
      forall k, c | 0 <= k < |Split(t, sep)| && c in Split(t, sep)[k]
        ensures c in t
      {
        if t[0] == sep {
          if k > 0 {
            assert Split(t, sep)[k] == rest[k - 1];
          }
        } else if k == 0 {
          assert c == t[0] || c in rest[0];
        } else {
          assert Split(t, sep)[k] == rest[k];
        }
      }
    }
  }

  // ---------------------------------------------------------------------
  // Worked examples
  // ---------------------------------------------------------------------

  const Curly := SmartTypographySettings("‘", "’", "“", "”")

  /** Three lines converted with curly settings: a double-quoted word, a
      contraction and a single-quoted word. */
  lemma CurlyExamples()
    ensures ConvertLine("\"hello\"", Curly) == "“hello”"
    ensures ConvertLine("don't", Curly) == "don’t"
    ensures ConvertLine("'quote'", Curly) == "‘quote’"
  {
    OneCharReplacements("\"hello\"", Curly);
    OneCharReplacements("don't", Curly);
    OneCharReplacements("'quote'", Curly);
  }
}
