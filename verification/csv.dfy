/** The text that `htmlTableToCSV` puts in the downloaded file: every cell's
    text quoted, cells joined by `,`, rows by a line feed. The source escapes
    a quote inside a cell with `String.prototype.replace('"', '""')`, which
    replaces only the FIRST quote; `QuoteCellAsWritten` models that, and
    `QuoteCell` the escaping of every quote that CSV (RFC 4180, section 2)
    requires. `Parse` is an RFC 4180 reader for the quoted-field form the
    export produces; it is the partner against which the export is proved. */
module Csv {
  import opened Common

  /** A table as the DOM shows it: rows of cells' `innerText`. `None` is a
      missing table element. */
  type Table = Option<seq<seq<string>>>

  const Quote: char := '"'

  /** The number of quote characters in `s`. */
  function QuoteCount(s: string): nat
  {
    if |s| == 0 then 0 else (if s[0] == Quote then 1 else 0) + QuoteCount(s[1..])
  }

  /** Quotes in a concatenation are counted part by part. */
  lemma {:induction false} QuoteCountAppend(a: string, b: string)
    ensures QuoteCount(a + b) == QuoteCount(a) + QuoteCount(b)
  {
    if |a| == 0 {
      assert a + b == b;
    } else {
      assert (a + b)[1..] == a[1..] + b;
      QuoteCountAppend(a[1..], b);
    }
  }

  /** The first quote of `s` is at position `k`. */
  predicate FirstQuoteAt(s: string, k: int) {
    0 <= k < |s| && s[k] == Quote && QuoteCount(s[..k]) == 0
  }

  /** `s.replace('"', '""')` with a string pattern: the first quote, if any,
      is doubled; the rest of the string is left as is. */
  function ReplaceFirstQuote(s: string): (r: string)
    ensures QuoteCount(s) == 0 ==> r == s
    ensures QuoteCount(s) > 0 ==> QuoteCount(r) == QuoteCount(s) + 1
  {
    if |s| == 0 then s
    else if s[0] == Quote then
      var r := [Quote, Quote] + s[1..];
      assert r[1..] == [Quote] + s[1..] && r[1..][1..] == s[1..];
      r
    else
      var r := [s[0]] + ReplaceFirstQuote(s[1..]);
      assert r[1..] == ReplaceFirstQuote(s[1..]);
      r
  }

  /** It is the first quote that `ReplaceFirstQuote` doubles: the result is
      the text before it, an extra quote, and the rest from that quote on. */
  lemma {:induction false} ReplaceFirstDoublesFirst(s: string)
    ensures QuoteCount(s) > 0 ==>
              exists k :: FirstQuoteAt(s, k) && ReplaceFirstQuote(s) == s[..k] + [Quote] + s[k..]
  {
    if |s| == 0 {
    } else if s[0] == Quote {
      assert s == [Quote] + s[1..];
      assert FirstQuoteAt(s, 0) && ReplaceFirstQuote(s) == s[..0] + [Quote] + s[0..];
    } else if QuoteCount(s) > 0 {
      ReplaceFirstDoublesFirst(s[1..]);
      FirstQuoteShifts(s, ReplaceFirstQuote(s[1..]));
    }
  }

  /** A first quote in the tail of `s` is, one position later, the first
      quote of `s` when `s` does not start with a quote. */
  lemma FirstQuoteShifts(s: string, t: string)
    requires |s| > 0 && s[0] != Quote
    requires exists k :: FirstQuoteAt(s[1..], k) && t == s[1..][..k] + [Quote] + s[1..][k..]
    ensures exists k :: FirstQuoteAt(s, k) && [s[0]] + t == s[..k] + [Quote] + s[k..]
  {
    var k :| FirstQuoteAt(s[1..], k) && t == s[1..][..k] + [Quote] + s[1..][k..];
    assert s[..k + 1][1..] == s[1..][..k];
    assert s[..k + 1] == [s[0]] + s[1..][..k];
    assert s[k + 1..] == s[1..][k..];
    assert FirstQuoteAt(s, k + 1);
  }

  /** Every quote doubled. */
  function Escape(s: string): string
  {
    if |s| == 0 then s
    else if s[0] == Quote then [Quote, Quote] + Escape(s[1..])
    else [s[0]] + Escape(s[1..])
  }

  /** The cell text as the source writes it. */
  function QuoteCellAsWritten(text: string): (r: string)
    ensures |r| >= 2 && r[0] == Quote && r[|r| - 1] == Quote
    ensures QuoteCount(text) == 0 ==> r[1..|r| - 1] == text
    ensures QuoteCount(text) > 0 ==> QuoteCount(r) == QuoteCount(text) + 3
  {
    QuoteCountAppend([Quote], ReplaceFirstQuote(text));
    QuoteCountAppend([Quote] + ReplaceFirstQuote(text), [Quote]);
    [Quote] + ReplaceFirstQuote(text) + [Quote]
  }

  /** The exported field is the first quote doubled and the rest untouched,
      between the two enclosing quotes. */
  lemma AsWrittenDoublesFirst(text: string)
    ensures QuoteCount(text) > 0 ==>
              exists k :: FirstQuoteAt(text, k) &&
                QuoteCellAsWritten(text) == [Quote] + text[..k] + [Quote] + text[k..] + [Quote]
  {
    if QuoteCount(text) > 0 {
      ReplaceFirstDoublesFirst(text);
      var t := ReplaceFirstQuote(text);
      var k :| FirstQuoteAt(text, k) && t == text[..k] + [Quote] + text[k..];
      assert QuoteCellAsWritten(text) == [Quote] + t + [Quote];
      RegroupAroundQuote(text[..k], text[k..]);
      assert FirstQuoteAt(text, k);
    }
  }

  /** Concatenation regrouped around an inserted quote. */
  lemma RegroupAroundQuote(a: string, b: string)
    ensures [Quote] + (a + [Quote] + b) + [Quote] == [Quote] + a + [Quote] + b + [Quote]
  {
  }

  /** The cell text as a well-formed quoted CSV field. */
  function QuoteCell(text: string): string
  {
    [Quote] + Escape(text) + [Quote]
  }

  /** `cells.map(quote)`. */
  function QuoteAll(cells: seq<string>, quote: string -> string): (r: seq<string>)
    ensures |r| == |cells|
  {
    if |cells| == 0 then [] else [quote(cells[0])] + QuoteAll(cells[1..], quote)
  }

  /** One row: each cell quoted, joined by commas. */
  function RowText(cells: seq<string>, quote: string -> string): string
  {
    Join(QuoteAll(cells, quote), ',')
  }

  /** `rows.map(row => RowText(row))`. */
  function RowTexts(rows: seq<seq<string>>, quote: string -> string): (r: seq<string>)
    ensures |r| == |rows|
  {
    if |rows| == 0 then [] else [RowText(rows[0], quote)] + RowTexts(rows[1..], quote)
  }

  /** All rows, joined by line feeds. */
  function TableText(rows: seq<seq<string>>, quote: string -> string): string
  {
    Join(RowTexts(rows, quote), '\n')
  }

  /** `htmlTableToCSV` as written: no output for a missing table. */
  function ToCsvAsWritten(table: Table): (r: Option<string>)
    ensures table.None? <==> r.None?
  {
    match table
    case None => None
    case Some(rows) => Some(TableText(rows, QuoteCellAsWritten))
  }

  /** `htmlTableToCSV` with every quote escaped. */
  function ToCsv(table: Table): (r: Option<string>)
    ensures table.None? <==> r.None?
  {
    match table
    case None => None
    case Some(rows) => Some(TableText(rows, QuoteCell))
  }

  // ---------------------------------------------------------------------
  // The reader

  /** The inside of a quoted field, after its opening quote: `""` stands for
      one quote, a lone quote closes the field. Returns the text and what
      follows the closing quote. */
  function ParseQuoted(s: string): (r: Option<(string, string)>)
    decreases |s|
    ensures r.Some? ==> |r.value.1| < |s|
  {
    if |s| == 0 then None
    else if s[0] == Quote then
      if |s| >= 2 && s[1] == Quote then
        match ParseQuoted(s[2..])
        case None => None
        case Some(p) => Some(([Quote] + p.0, p.1))
      else Some(("", s[1..]))
    else
      match ParseQuoted(s[1..])
      case None => None
      case Some(p) => Some(([s[0]] + p.0, p.1))
  }

  function ParseField(s: string): (r: Option<(string, string)>)
    ensures r.Some? ==> |r.value.1| < |s|
  {
    if |s| > 0 && s[0] == Quote then ParseQuoted(s[1..]) else None
  }

  /** One row of fields. Returns the cells, the text after the row, and
      whether the row ended with a line feed (rather than the input). */
  function ParseRow(s: string): (r: Option<(seq<string>, string, bool)>)
    decreases |s|
    ensures r.Some? ==> |r.value.1| < |s|
    ensures r.Some? && !r.value.2 ==> r.value.1 == ""
  {
    match ParseField(s)
    case None => None
    case Some(p) =>
      var rest := p.1;
      if rest == "" then Some(([p.0], "", false))
      else if rest[0] == '\n' then Some(([p.0], rest[1..], true))
      else if rest[0] == ',' then
        match ParseRow(rest[1..])
        case None => None
        case Some(q) => Some(([p.0] + q.0, q.1, q.2))
      else None
  }

  function ParseRows(s: string): Option<seq<seq<string>>>
    decreases |s|
  {
    match ParseRow(s)
    case None => None
    case Some(q) =>
      if !q.2 then Some([q.0])
      else
        match ParseRows(q.1)
        case None => None
        case Some(rows) => Some([q.0] + rows)
  }

  /** Reads a whole file; an empty file is a table without rows. */
  function Parse(s: string): Option<seq<seq<string>>>
  {
    if s == "" then Some([]) else ParseRows(s)
  }

  // ---------------------------------------------------------------------
  // Properties

  /** An escaped field reads back as its text, whatever follows it, as long
      as that does not start with a quote. */
  lemma {:induction false} ParseQuotedEscape(t: string, rest: string)
    requires |rest| == 0 || rest[0] != Quote
    decreases |t|
    ensures ParseQuoted(Escape(t) + [Quote] + rest) == Some((t, rest))
  {
    if |t| == 0 {
      assert Escape(t) + [Quote] + rest == [Quote] + rest;
    } else {
      ParseQuotedEscape(t[1..], rest);
      var tail := Escape(t[1..]) + [Quote] + rest;
      var head := if t[0] == Quote then [Quote, Quote] else [t[0]];
      assert Escape(t) == head + Escape(t[1..]);
      Regroup(head, Escape(t[1..]), [Quote], rest);
      if t[0] == Quote {
        ParseQuotedPair(tail);
      } else {
        ParseQuotedChar(t[0], tail);
      }
      assert [t[0]] + t[1..] == t;
    }
  }

  lemma Regroup(a: string, b: string, c: string, d: string)
    ensures (a + b) + c + d == a + (b + c + d)
  {
  }

  /** `""` inside a quoted field reads as one quote. */
  lemma ParseQuotedPair(tail: string)
    ensures ParseQuoted([Quote, Quote] + tail)
         == match ParseQuoted(tail) case None => None case Some(p) => Some(([Quote] + p.0, p.1))
  {
    assert ([Quote, Quote] + tail)[2..] == tail;
  }

  /** Any other character inside a quoted field reads as itself. */
  lemma ParseQuotedChar(c: char, tail: string)
    requires c != Quote
    ensures ParseQuoted([c] + tail)
         == match ParseQuoted(tail) case None => None case Some(p) => Some(([c] + p.0, p.1))
  {
    assert ([c] + tail)[1..] == tail;
  }

  /** A quoted cell reads back as its text. */
  lemma ParseFieldQuoteCell(t: string, rest: string)
    requires |rest| == 0 || rest[0] != Quote
    ensures ParseField(QuoteCell(t) + rest) == Some((t, rest))
  {
    ParseQuotedEscape(t, rest);
    assert (QuoteCell(t) + rest)[1..] == Escape(t) + [Quote] + rest;
  }

  /** A row of quoted cells reads back as its cells; `rest` is what follows
      the row (nothing, or a line feed and more rows). */
  lemma {:induction false} ParseRowText(cells: seq<string>, rest: string)
    requires |cells| > 0
    requires rest == "" || rest[0] == '\n'
    decreases |cells|
    ensures ParseRow(RowText(cells, QuoteCell) + rest)
         == Some((cells, if rest == "" then "" else rest[1..], rest != ""))
  {
    if |cells| == 1 {
      assert RowText(cells, QuoteCell) == QuoteCell(cells[0]);
      ParseFieldQuoteCell(cells[0], rest);
      assert [cells[0]] == cells;
    } else {
      var after := RowText(cells[1..], QuoteCell) + rest;
      RowTextCons(cells);
      Regroup(QuoteCell(cells[0]), [','], RowText(cells[1..], QuoteCell), rest);
      assert [','] + RowText(cells[1..], QuoteCell) + rest == [','] + after;
      ParseFieldQuoteCell(cells[0], [','] + after);
      ParseRowText(cells[1..], rest);
      ParseRowComma(RowText(cells, QuoteCell) + rest, cells[0], after);
      assert [cells[0]] + cells[1..] == cells;
    }
  }

  /** A row of several cells is the first quoted cell, a comma, and the
      rest of the row. */
  lemma RowTextCons(cells: seq<string>)
    requires |cells| > 1
    ensures RowText(cells, QuoteCell) == QuoteCell(cells[0]) + [','] + RowText(cells[1..], QuoteCell)
  {
    assert QuoteAll(cells, QuoteCell)[1..] == QuoteAll(cells[1..], QuoteCell);
  }

  /** A field followed by a comma continues the row. */
  lemma ParseRowComma(s: string, f: string, after: string)
    requires ParseField(s) == Some((f, [','] + after))
    ensures ParseRow(s) == match ParseRow(after) case None => None case Some(q) => Some(([f] + q.0, q.1, q.2))
  {
    assert ([','] + after)[1..] == after;
  }

  /** The export reads back as the table, provided no row is empty (an
      empty row would be an empty line, which reads as nothing). */
  lemma {:induction false} ParseTableText(rows: seq<seq<string>>)
    requires |rows| > 0
    requires forall i :: 0 <= i < |rows| ==> |rows[i]| > 0
    decreases |rows|
    ensures ParseRows(TableText(rows, QuoteCell)) == Some(rows)
  {
    if |rows| == 1 {
      assert TableText(rows, QuoteCell) == RowText(rows[0], QuoteCell);
      ParseRowText(rows[0], "");
      assert RowText(rows[0], QuoteCell) + "" == RowText(rows[0], QuoteCell);
      assert [rows[0]] == rows;
    } else {
      assert RowTexts(rows, QuoteCell)[1..] == RowTexts(rows[1..], QuoteCell);
      var after := TableText(rows[1..], QuoteCell);
      assert TableText(rows, QuoteCell) == RowText(rows[0], QuoteCell) + (['\n'] + after);
      ParseRowText(rows[0], ['\n'] + after);
      assert (['\n'] + after)[1..] == after;
      ParseTableText(rows[1..]);
      assert [rows[0]] + rows[1..] == rows;
    }
  }

  /** Round trip: the corrected export of any table without empty rows
      parses back to exactly that table. */
  lemma RoundTrip(rows: seq<seq<string>>)
    requires forall i :: 0 <= i < |rows| ==> |rows[i]| > 0
    ensures Parse(ToCsv(Some(rows)).value) == Some(rows)
  {
    if |rows| > 0 {
      ParseTableText(rows);
      assert TableText(rows, QuoteCell) != "" by {
        var lines := RowTexts(rows, QuoteCell);
        ParseRowText(rows[0], "");
        assert RowText(rows[0], QuoteCell) + "" == lines[0];
        assert |lines[0]| > 0;
        JoinKeepsFirst(lines, '\n');
      }
    }
  }

  /** The two quotings agree exactly on cells holding at most one quote. */
  lemma {:induction false} AsWrittenAgreesUpToOneQuote(t: string)
    ensures QuoteCellAsWritten(t) == QuoteCell(t) <==> QuoteCount(t) <= 1
  {
    EscapeLength(t);
    ReplaceFirstLength(t);
    if QuoteCount(t) <= 1 {
      ReplaceFirstIsEscape(t);
    }
  }

  lemma {:induction false} EscapeLength(t: string)
    ensures |Escape(t)| == |t| + QuoteCount(t)
  {
    if |t| > 0 {
      EscapeLength(t[1..]);
    }
  }

  lemma {:induction false} ReplaceFirstLength(t: string)
    ensures |ReplaceFirstQuote(t)| == |t| + (if QuoteCount(t) > 0 then 1 else 0)
  {
    if |t| > 0 && t[0] != Quote {
      ReplaceFirstLength(t[1..]);
    }
  }

  lemma {:induction false} ReplaceFirstIsEscape(t: string)
    requires QuoteCount(t) <= 1
    ensures ReplaceFirstQuote(t) == Escape(t)
  {
    if |t| > 0 {
      if t[0] == Quote {
        NoQuoteEscapeIdentity(t[1..]);
      } else {
        ReplaceFirstIsEscape(t[1..]);
      }
    }
  }

  lemma {:induction false} NoQuoteEscapeIdentity(t: string)
    requires QuoteCount(t) == 0
    ensures Escape(t) == t
  {
    if |t| > 0 {
      NoQuoteEscapeIdentity(t[1..]);
      assert [t[0]] + t[1..] == t;
    }
  }

  /** The export as written does not read back: the cell `a"b"c` becomes
      `"a""b"c"`, whose field closes after `a"b` and is followed by stray
      text, so the file is not valid CSV. */
  lemma AsWrittenBreaksRoundTrip()
    ensures ToCsvAsWritten(Some([["a\"b\"c"]])) == Some("\"a\"\"b\"c\"")
    ensures Parse("\"a\"\"b\"c\"") == None
  {
    AsWrittenExport();
    StrayTextAfterField();
  }

  /** Only the first quote of `a"b"c` is doubled. */
  lemma AsWrittenExport()
    ensures ToCsvAsWritten(Some([["a\"b\"c"]])) == Some("\"a\"\"b\"c\"")
  {
    var cell := "a\"b\"c";
    ExampleReplaceFirst();
    assert QuoteCellAsWritten(cell) == "\"a\"\"b\"c\"";
    assert QuoteAll([cell], QuoteCellAsWritten) == ["\"a\"\"b\"c\""];
    assert RowTexts([[cell]], QuoteCellAsWritten) == ["\"a\"\"b\"c\""];
  }

  /** The quote after `a` is the one doubled in `a"b"c`. */
  lemma ExampleReplaceFirst()
    ensures ReplaceFirstQuote("a\"b\"c") == "a\"\"b\"c"
  {
    var cell := "a\"b\"c";
    assert cell[1..] == "\"b\"c";
    assert ReplaceFirstQuote(cell[1..]) == "\"\"b\"c";
  }

  /** The field of `"a""b"c"` closes after `a"b`, and `c"` follows it. */
  lemma StrayTextAfterField()
    ensures Parse("\"a\"\"b\"c\"") == None
  {
    var s := "\"a\"\"b\"c\"";
    var inner := s[1..];
    assert inner == "a\"\"b\"c\"";
    assert inner[1..] == "\"\"b\"c\"";
    assert inner[1..][2..] == "b\"c\"";
    assert inner[1..][2..][1..] == "\"c\"";
    assert ParseQuoted(inner[1..][2..][1..]) == Some(("", "c\""));
    assert ['b'] + "" == "b" && [Quote] + "b" == "\"b" && ['a'] + "\"b" == "a\"b";
    assert ParseQuoted(inner[1..][2..]) == Some(("b", "c\""));
    assert ParseQuoted(inner[1..]) == Some(("\"b", "c\""));
    assert ParseQuoted(inner) == Some(("a\"b", "c\""));
    assert ParseField(s) == Some(("a\"b", "c\""));
  }
}
