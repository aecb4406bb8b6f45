/** Delimited text: the quoting and joining that App.tsx's CSV export uses, and a
    reader for the result.

    The writer side is the JavaScript the export is built from: `replace(/"/g, '""')`
    inside a pair of quotes, which is the escaping of section 2, rule 7 of RFC 4180,
    and `Array.prototype.join`. The export separates records with a line feed, not
    the CRLF of section 2, rule 1, so the reader here ends a record at a line feed.
    A rendered document is read back by ReadDocument, which inverts the writer: the
    lemmas at the end prove that reading it gives every field's text, in order. */
module Csv {

  /** `text.replace(/"/g, '""')`: every double quote doubled. A text without quotes
      comes back unchanged, and any other text comes back longer. */
  function DoubleQuotes(text: string): (r: string)
    ensures '"' !in text ==> r == text
    ensures '"' in text ==> |r| > |text|
  {
    if text == [] then []
    else (if text[0] == '"' then "\"\"" else [text[0]]) + DoubleQuotes(text[1..])
  }

  /** A field wrapped in double quotes, with embedded quotes doubled. */
  function QuoteField(text: string): string
  {
    "\"" + DoubleQuotes(text) + "\""
  }

  /** Text that can stand in a record without quotes: no comma, quote or line feed. */
  predicate IsPlainSafe(text: string)
  {
    forall i :: 0 <= i < |text| ==> text[i] != ',' && text[i] != '"' && text[i] != '\n'
  }

  /** One field as the export writes it: bare, or quoted. */
  datatype Cell = Plain(text: string) | Quoted(text: string)

  function Render(c: Cell): string
  {
    match c
    case Plain(t) => t
    case Quoted(t) => QuoteField(t)
  }

  /** A bare field can be read back only if it needs no quoting. */
  predicate WellFormed(c: Cell)
  {
    c.Plain? ==> IsPlainSafe(c.text)
  }

  predicate AllWellFormed(cells: seq<Cell>)
  {
    forall i :: 0 <= i < |cells| ==> WellFormed(cells[i])
  }

  /** The number of characters in all of `parts` together. */
  function TotalLength(parts: seq<string>): nat
  {
    if parts == [] then 0 else |parts[0]| + TotalLength(parts[1..])
  }

  /** `parts.join(sep)`: no parts give the empty text; otherwise the parts in order,
      starting with the first, with one separator between neighbours. */
  function Join(parts: seq<string>, sep: char): (r: string)
    ensures |parts| == 0 ==> r == ""
    ensures |parts| > 0 ==> parts[0] <= r && |r| == TotalLength(parts) + |parts| - 1
  {
    if |parts| == 0 then ""
    else if |parts| == 1 then parts[0]
    else parts[0] + [sep] + Join(parts[1..], sep)
  }

  /** The texts of the cells, in order. */
  function Values(cells: seq<Cell>): seq<string>
  {
    seq(|cells|, i requires 0 <= i < |cells| => cells[i].text)
  }

  /** One record: the rendered cells joined with commas. */
  function RenderRow(cells: seq<Cell>): string
  {
    Join(seq(|cells|, i requires 0 <= i < |cells| => Render(cells[i])), ',')
  }

  /** A document: the rendered records joined with line feeds. */
  function RenderDocument(rows: seq<seq<Cell>>): string
  {
    Join(seq(|rows|, k requires 0 <= k < |rows| => RenderRow(rows[k])), '\n')
  }

  /** What may follow a field: the end, a comma, or a line feed. */
  predicate EndsField(rest: string)
  {
    rest == [] || rest[0] == ',' || rest[0] == '\n'
  }

  /** Reads a bare field: everything up to the next comma, line feed or the end. */
  function ReadPlain(s: string): (r: (string, string))
    ensures r.0 + r.1 == s
    ensures EndsField(r.1)
  {
    if EndsField(s) then ("", s)
    else
      var (v, rest) := ReadPlain(s[1..]);
      assert s == [s[0]] + s[1..];
      ([s[0]] + v, rest)
  }

  /** Reads the inside of a quoted field, its opening quote already consumed: two quotes
      stand for one, a single quote closes the field. Gives the field's text and what
      follows the closing quote. An unterminated field runs to the end. */
  function ReadQuoted(s: string): (r: (string, string))
    ensures |r.1| <= |s|
  {
    if s == [] then ("", "")
    else if s[0] == '"' then
      if |s| > 1 && s[1] == '"' then
        var (v, rest) := ReadQuoted(s[2..]);
        ("\"" + v, rest)
      else ("", s[1..])
    else
      var (v, rest) := ReadQuoted(s[1..]);
      ([s[0]] + v, rest)
  }

  /** Reads one field, quoted or bare. Anything between a closing quote and the next
      comma or line feed is kept as text. */
  function ReadField(s: string): (r: (string, string))
    ensures EndsField(r.1)
    ensures |r.1| <= |s|
    ensures !EndsField(s) ==> |r.1| < |s|
  {
    if s != [] && s[0] == '"' then
      var (quoted, afterQuote) := ReadQuoted(s[1..]);
      var (trailing, rest) := ReadPlain(afterQuote);
      (quoted + trailing, rest)
    else
      var r := ReadPlain(s);
      assert |r.0| + |r.1| == |s|;
      assert !EndsField(s) ==> r.0 != "";
      r
  }

  /** Reads one record: fields separated by commas, up to a line feed (which is
      consumed) or the end. */
  function ReadRecord(s: string): (r: (seq<string>, string))
    ensures |r.1| <= |s|
    ensures s != [] ==> |r.1| < |s|
    decreases |s|
  {
    var (field, rest) := ReadField(s);
    if rest == [] then ([field], [])
    else if rest[0] == ',' then
      var (fields, rest') := ReadRecord(rest[1..]);
      ([field] + fields, rest')
    else ([field], rest[1..])
  }

  /** Reads records until the text runs out. */
  function ReadDocument(s: string): seq<seq<string>>
    decreases |s|
  {
    if s == [] then []
    else
      var (fields, rest) := ReadRecord(s);
      [fields] + ReadDocument(rest)
  }

  /** The doubled text, its closing quote and what follows, split after the first
      character's doubling. */
  lemma DoubleQuotesStep(text: string, rest: string)
    requires text != []
    ensures DoubleQuotes(text) + "\"" + rest
         == (if text[0] == '"' then "\"\"" else [text[0]]) + (DoubleQuotes(text[1..]) + "\"" + rest)
  {
  }

  /** Two quotes inside a quoted field stand for one. */
  lemma ReadQuotedPair(tail: string)
    ensures ReadQuoted("\"\"" + tail) == ("\"" + ReadQuoted(tail).0, ReadQuoted(tail).1)
  {
    assert ("\"\"" + tail)[2..] == tail;
  }

  /** Any other character inside a quoted field stands for itself. */
  lemma ReadQuotedOther(c: char, tail: string)
    requires c != '"'
    ensures ReadQuoted([c] + tail) == ([c] + ReadQuoted(tail).0, ReadQuoted(tail).1)
  {
    assert ([c] + tail)[1..] == tail;
  }

  /** Reading a doubled text up to its closing quote gives the text back, and leaves
      exactly what followed the quote. */
  lemma {:induction false} ReadQuotedInverse(text: string, rest: string)
    requires rest == [] || rest[0] != '"'
    ensures ReadQuoted(DoubleQuotes(text) + "\"" + rest) == (text, rest)
  {
    if text == [] {
      assert DoubleQuotes(text) + "\"" + rest == "\"" + rest;
    } else {
      var tail := DoubleQuotes(text[1..]) + "\"" + rest;
      ReadQuotedInverse(text[1..], rest);
      DoubleQuotesStep(text, rest);
      if text[0] == '"' {
        ReadQuotedPair(tail);
      } else {
        ReadQuotedOther(text[0], tail);
      }
      assert text == [text[0]] + text[1..];
    }
  }

  /** A text that needs no quoting reads back as itself. */
  lemma {:induction false} ReadPlainSafe(text: string, rest: string)
    requires IsPlainSafe(text) && EndsField(rest)
    ensures ReadPlain(text + rest) == (text, rest)
  {
    if text == [] {
      assert text + rest == rest;
    } else {
      assert (text + rest)[1..] == text[1..] + rest;
      assert IsPlainSafe(text[1..]) by {
        forall i | 0 <= i < |text[1..]| ensures text[1..][i] == text[i + 1] { }
      }
      ReadPlainSafe(text[1..], rest);
      assert text == [text[0]] + text[1..];
    }
  }

  /** A well-formed cell reads back as its text. */
  lemma ReadFieldCell(c: Cell, rest: string)
    requires WellFormed(c) && EndsField(rest)
    ensures ReadField(Render(c) + rest) == (c.text, rest)
  {
    match c
    case Plain(t) =>
      ReadPlainSafe(t, rest);
      if t == [] {
        assert Render(c) + rest == rest;
      } else {
        assert (Render(c) + rest)[0] == t[0];
      }
    case Quoted(t) =>
      var s := Render(c) + rest;
      assert s == "\"" + (DoubleQuotes(t) + "\"" + rest);
      assert s[1..] == DoubleQuotes(t) + "\"" + rest;
      assert s != [] && s[0] == '"';
      ReadQuotedInverse(t, rest);
      assert ReadQuoted(s[1..]) == (t, rest);
      ReadPlainSafe("", rest);
      assert "" + rest == rest;
      assert ReadPlain(rest) == ("", rest);
      assert t + "" == t;
  }

  /** A row of two or more cells renders as the first, a comma, and the rest. */
  lemma RenderRowCons(cells: seq<Cell>)
    requires |cells| > 1
    ensures RenderRow(cells) == Render(cells[0]) + "," + RenderRow(cells[1..])
  {
    var parts := seq(|cells|, i requires 0 <= i < |cells| => Render(cells[i]));
    assert parts[1..] == seq(|cells[1..]|, i requires 0 <= i < |cells[1..]| => Render(cells[1..][i]));
  }

  /** ReadRecord after a field that ends at a comma: that field, then the next record's. */
  lemma ReadRecordComma(s: string, field: string, tail: string)
    requires ReadField(s) == (field, "," + tail)
    ensures ReadRecord(s) == ([field] + ReadRecord(tail).0, ReadRecord(tail).1)
  {
    assert ("," + tail)[1..] == tail;
  }

  /** The texts of a non-empty row: the first cell's, then the others'. */
  lemma ValuesCons(cells: seq<Cell>)
    requires |cells| > 0
    ensures Values(cells) == [cells[0].text] + Values(cells[1..])
  {
  }

  /** The cells after the first are well-formed too. */
  lemma AllWellFormedTail(cells: seq<Cell>)
    requires |cells| > 0 && AllWellFormed(cells)
    ensures AllWellFormed(cells[1..])
  {
    forall i | 0 <= i < |cells[1..]| ensures WellFormed(cells[1..][i]) {
      assert cells[1..][i] == cells[i + 1];
    }
  }

  /** A record of well-formed cells, followed by a line feed or the end, reads back as
      the cells' texts. */
  lemma {:induction false} ReadRecordRow(cells: seq<Cell>, rest: string)
    requires |cells| > 0 && AllWellFormed(cells)
    requires rest == [] || rest[0] == '\n'
    ensures ReadRecord(RenderRow(cells) + rest) == (Values(cells), if rest == [] then [] else rest[1..])
  {
    var s := RenderRow(cells) + rest;
    if |cells| == 1 {
      assert RenderRow(cells) == Render(cells[0]);
      ReadFieldCell(cells[0], rest);
      assert Values(cells) == [cells[0].text];
    } else {
      var tail := RenderRow(cells[1..]) + rest;
      RenderRowCons(cells);
      assert s == Render(cells[0]) + ("," + tail);
      ReadFieldCell(cells[0], "," + tail);
      ReadRecordComma(s, cells[0].text, tail);
      AllWellFormedTail(cells);
      ReadRecordRow(cells[1..], rest);
      ValuesCons(cells);
    }
  }

  /** A document splits into its first record, a line feed, and the rest. */
  lemma RenderDocumentCons(rows: seq<seq<Cell>>)
    requires |rows| > 1
    ensures RenderDocument(rows) == RenderRow(rows[0]) + "\n" + RenderDocument(rows[1..])
  {
    var lines := seq(|rows|, k requires 0 <= k < |rows| => RenderRow(rows[k]));
    assert lines[1..] == seq(|rows[1..]|, k requires 0 <= k < |rows[1..]| => RenderRow(rows[1..][k]));
  }

  /** The texts of every record, in order. */
  function AllValues(rows: seq<seq<Cell>>): (records: seq<seq<string>>)
    ensures |records| == |rows|
  {
    seq(|rows|, k requires 0 <= k < |rows| => Values(rows[k]))
  }

  /** The texts of a non-empty document: the first record's, then the others'. */
  lemma AllValuesCons(rows: seq<seq<Cell>>)
    requires |rows| > 0
    ensures AllValues(rows) == [Values(rows[0])] + AllValues(rows[1..])
  {
  }

  /** A record of two or more cells renders to at least one character. */
  lemma RenderRowNonEmpty(cells: seq<Cell>)
    requires |cells| > 1
    ensures |RenderRow(cells)| > 0
  {
    RenderRowCons(cells);
  }

  /** ReadDocument on a non-empty text: the first record, then the records of the rest. */
  lemma ReadDocumentStep(s: string)
    requires s != []
    ensures ReadDocument(s) == [ReadRecord(s).0] + ReadDocument(ReadRecord(s).1)
  {
  }

  /** Round trip: a document of well-formed records of at least two cells each reads
      back as the texts of all its cells, record by record, in order. */
  lemma {:induction false} ReadDocumentRoundTrip(rows: seq<seq<Cell>>)
    requires forall k :: 0 <= k < |rows| ==> |rows[k]| > 1 && AllWellFormed(rows[k])
    ensures ReadDocument(RenderDocument(rows)) == AllValues(rows)
  {
    if rows == [] {
      assert RenderDocument(rows) == "";
    } else {
      var s := RenderDocument(rows);
      RenderRowNonEmpty(rows[0]);
      if |rows| == 1 {
        assert s == RenderRow(rows[0]) + [];
        ReadRecordRow(rows[0], []);
        ReadDocumentStep(s);
      } else {
        var rest := RenderDocument(rows[1..]);
        RenderDocumentCons(rows);
        assert s == RenderRow(rows[0]) + ("\n" + rest);
        ReadRecordRow(rows[0], "\n" + rest);
        assert ("\n" + rest)[1..] == rest;
        ReadDocumentStep(s);
        ReadDocumentRoundTrip(rows[1..]);
      }
      AllValuesCons(rows);
    }
  }

  /** A text that may stand bare in a record once its commas are taken as separators:
      no quote and no line feed. */
  predicate NoQuoteOrLineFeed(text: string)
  {
    forall i :: 0 <= i < |text| ==> text[i] != '"' && text[i] != '\n'
  }

  /** The pieces of `text` between its commas, in order: how a reader sees a bare field
      that holds commas. There is one more piece than there are commas. */
  function SplitOnCommas(text: string): (parts: seq<string>)
    ensures |parts| >= 1
    ensures Join(parts, ',') == text
    ensures forall i :: 0 <= i < |parts| ==> ',' !in parts[i]
    ensures NoQuoteOrLineFeed(text) ==> forall i :: 0 <= i < |parts| ==> IsPlainSafe(parts[i])
    ensures |parts| == 1 <==> ',' !in text
  {
    if text == [] then [""]
    else
      var rest := SplitOnCommas(text[1..]);
      TextTail(text);
      if text[0] == ',' then
        [""] + rest
      else
        var first := [text[0]] + rest[0];
        JoinHead(text[0], rest, ',');
        PieceCons(text[0], rest[0]);
        [first] + rest[1..]
  }

  /** What holds of a text holds of its tail. */
  lemma TextTail(text: string)
    requires text != []
    ensures text == [text[0]] + text[1..]
    ensures NoQuoteOrLineFeed(text) ==> NoQuoteOrLineFeed(text[1..])
    ensures ',' in text <==> text[0] == ',' || ',' in text[1..]
  {
    if NoQuoteOrLineFeed(text) {
      forall i | 0 <= i < |text[1..]| ensures text[1..][i] == text[i + 1] { }
    }
  }

  /** A comma-free piece with a character other than a comma in front stays comma-free,
      and stays plain-safe when the character is. */
  lemma PieceCons(c: char, piece: string)
    requires c != ',' && ',' !in piece
    ensures ',' !in [c] + piece
    ensures c != '"' && c != '\n' && IsPlainSafe(piece) ==> IsPlainSafe([c] + piece)
  {
    forall i | 0 <= i < |piece| ensures ([c] + piece)[i + 1] == piece[i] { }
  }

  /** Putting a character in front of the first part puts it in front of the join. */
  lemma JoinHead(c: char, parts: seq<string>, sep: char)
    requires |parts| >= 1
    ensures Join([[c] + parts[0]] + parts[1..], sep) == [c] + Join(parts, sep)
  {
    var grown := [[c] + parts[0]] + parts[1..];
    assert grown[1..] == parts[1..];
  }

  /** Splitting the join of comma-free parts gives the parts back. */
  lemma {:induction false} SplitJoinRoundTrip(parts: seq<string>)
    requires |parts| >= 1
    requires forall i :: 0 <= i < |parts| ==> ',' !in parts[i]
    ensures SplitOnCommas(Join(parts, ',')) == parts
  {
    if |parts| == 1 {
    } else {
      SplitJoinRoundTrip(parts[1..]);
      SplitPrefix(parts[0], Join(parts[1..], ','));
    }
  }

  /** A leading comma closes an empty first piece. */
  lemma SplitLeadingComma(tail: string)
    ensures SplitOnCommas([','] + tail) == [""] + SplitOnCommas(tail)
  {
    assert ([','] + tail)[1..] == tail;
  }

  /** A leading character other than a comma joins the first piece. */
  lemma SplitLeadingOther(c: char, tail: string)
    requires c != ','
    ensures SplitOnCommas([c] + tail) == [[c] + SplitOnCommas(tail)[0]] + SplitOnCommas(tail)[1..]
  {
    assert ([c] + tail)[1..] == tail;
  }

  /** A comma-free text, a comma and more text split into the text, then the pieces of
      the rest. */
  lemma {:induction false} SplitPrefix(head: string, tail: string)
    requires ',' !in head
    ensures SplitOnCommas(head + "," + tail) == [head] + SplitOnCommas(tail)
  {
    if head == [] {
      assert head + "," + tail == [','] + tail;
      SplitLeadingComma(tail);
    } else {
      var after := head[1..] + "," + tail;
      assert head + "," + tail == [head[0]] + after;
      assert ',' !in head[1..] by {
        forall i | 0 <= i < |head[1..]| ensures head[1..][i] == head[i + 1] { }
      }
      SplitPrefix(head[1..], tail);
      SplitLeadingOther(head[0], after);
      assert head == [head[0]] + head[1..];
    }
  }

  /** Bare cells holding the given texts. */
  function PlainCells(texts: seq<string>): (cells: seq<Cell>)
    ensures |cells| == |texts| && Values(cells) == texts
    ensures (forall i :: 0 <= i < |texts| ==> IsPlainSafe(texts[i])) ==> AllWellFormed(cells)
  {
    var cells := seq(|texts|, i requires 0 <= i < |texts| => Plain(texts[i]));
    assert Values(cells) == texts;
    cells
  }

  /** Bare cells render as the join of their texts. */
  lemma {:induction false} RenderPlainCells(texts: seq<string>)
    requires |texts| >= 1
    ensures RenderRow(PlainCells(texts)) == Join(texts, ',')
  {
    var cells := PlainCells(texts);
    if |texts| == 1 {
      assert cells[0] == Plain(texts[0]);
    } else {
      RenderRowCons(cells);
      assert cells[1..] == PlainCells(texts[1..]);
      RenderPlainCells(texts[1..]);
      assert cells[0] == Plain(texts[0]);
    }
  }

  /** Two non-empty rows rendered after one another, with a comma between. */
  lemma {:induction false} RenderRowAppend(xs: seq<Cell>, ys: seq<Cell>)
    requires |xs| >= 1 && |ys| >= 1
    ensures RenderRow(xs + ys) == RenderRow(xs) + "," + RenderRow(ys)
  {
    RenderRowCons(xs + ys);
    assert (xs + ys)[0] == xs[0];
    if |xs| == 1 {
      assert (xs + ys)[1..] == ys;
      assert RenderRow(xs) == Render(xs[0]);
    } else {
      assert (xs + ys)[1..] == xs[1..] + ys;
      RenderRowAppend(xs[1..], ys);
      RenderRowCons(xs);
    }
  }

  /** A bare first cell whose text holds commas renders exactly as the bare cells of
      its comma-separated pieces. */
  lemma SplitFirstCell(cells: seq<Cell>)
    requires |cells| > 1 && cells[0].Plain?
    ensures RenderRow(cells) == RenderRow(PlainCells(SplitOnCommas(cells[0].text)) + cells[1..])
  {
    var pieces := SplitOnCommas(cells[0].text);
    RenderRowCons(cells);
    RenderPlainCells(pieces);
    RenderRowAppend(PlainCells(pieces), cells[1..]);
  }

  /** Documents whose records render alike render alike. */
  lemma RenderDocumentAlike(xs: seq<seq<Cell>>, ys: seq<seq<Cell>>)
    requires |xs| == |ys|
    requires forall k :: 0 <= k < |xs| ==> RenderRow(xs[k]) == RenderRow(ys[k])
    ensures RenderDocument(xs) == RenderDocument(ys)
  {
    var lx := seq(|xs|, k requires 0 <= k < |xs| => RenderRow(xs[k]));
    var ly := seq(|ys|, k requires 0 <= k < |ys| => RenderRow(ys[k]));
    assert lx == ly;
  }

  /** Two rows of cells that read back as written, put together. */
  lemma AllWellFormedAppend(xs: seq<Cell>, ys: seq<Cell>)
    requires AllWellFormed(xs) && AllWellFormed(ys)
    ensures AllWellFormed(xs + ys)
  {
    forall i | 0 <= i < |xs + ys| ensures WellFormed((xs + ys)[i]) {
      if i >= |xs| {
        assert (xs + ys)[i] == ys[i - |xs|];
      }
    }
  }

  /** The texts of two rows put together. */
  lemma ValuesAppend(xs: seq<Cell>, ys: seq<Cell>)
    ensures Values(xs + ys) == Values(xs) + Values(ys)
  {
  }
}
