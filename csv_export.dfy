/** The CSV export of App.tsx (exportToCSV): a header line and one line per history
    row, in history order, joined with line feeds.

    Each row's cells are the creation time as the browser's locale renders it, the two
    language names, and the two texts, quoted. The locale rendering is browser
    formatting and enters as a parameter. The export writes the rendering bare, so a
    locale whose rendering contains a comma (en-US: "10/17/2026, 3:04:05 PM") splits the
    cell in two. ExportCsvAsWritten models the export as written: AsWrittenReadsBack
    proves it still reads back one record per row, in order, with the rendering split at
    its commas, and CommaInTimestampSplitsRecord shows the extra field. ExportCsv quotes
    the rendering as the texts are quoted, and ExportRoundTrip proves every row then
    reads back whole. */
module CsvExport {
  import opened Types
  import opened Csv

  /** `toLocaleString()` applied to a creation time. */
  type LocaleRendering = int -> string

  const Headers: seq<string> := ["Timestamp", "Source Language", "Target Language", "Original Text", "Translated Text"]

  const HeaderRow: seq<Cell> :=
    [Plain("Timestamp"), Plain("Source Language"), Plain("Target Language"), Plain("Original Text"), Plain("Translated Text")]

  /** What a reader should get back for one row. */
  function RecordValues(r: TranslationRecord, locale: LocaleRendering): seq<string>
  {
    [locale(r.timestamp), LanguageName(r.sourceLang), LanguageName(r.targetLang), r.originalText, r.translatedText]
  }

  /** The cells of one row as App.tsx writes them: rendering and language names bare,
      texts quoted. One cell per header, holding the row's values; every cell after
      the first reads back as written, and the first does exactly when the rendering
      needs no quoting. */
  function RecordCellsAsWritten(r: TranslationRecord, locale: LocaleRendering): (cells: seq<Cell>)
    ensures |cells| == |Headers| && Values(cells) == RecordValues(r, locale)
    ensures AllWellFormed(cells[1..])
    ensures WellFormed(cells[0]) <==> IsPlainSafe(locale(r.timestamp))
  {
    LanguageNameIsPlain(r.sourceLang);
    LanguageNameIsPlain(r.targetLang);
    var cells := [Plain(locale(r.timestamp)), Plain(LanguageName(r.sourceLang)), Plain(LanguageName(r.targetLang)),
                  Quoted(r.originalText), Quoted(r.translatedText)];
    assert Values(cells) == RecordValues(r, locale);
    cells
  }

  /** The cells of one row with the rendering quoted as well. */
  function RecordCells(r: TranslationRecord, locale: LocaleRendering): seq<Cell>
  {
    [Quoted(locale(r.timestamp)), Plain(LanguageName(r.sourceLang)), Plain(LanguageName(r.targetLang)),
     Quoted(r.originalText), Quoted(r.translatedText)]
  }

  /** One line's cells per row, as written. */
  function RowsAsWritten(history: seq<TranslationRecord>, locale: LocaleRendering): seq<seq<Cell>>
  {
    seq(|history|, i requires 0 <= i < |history| => RecordCellsAsWritten(history[i], locale))
  }

  /** One line's cells per row, with the rendering quoted. */
  function Rows(history: seq<TranslationRecord>, locale: LocaleRendering): seq<seq<Cell>>
  {
    seq(|history|, i requires 0 <= i < |history| => RecordCells(history[i], locale))
  }

  /** What a reader should get back for a whole history. */
  function HistoryValues(history: seq<TranslationRecord>, locale: LocaleRendering): seq<seq<string>>
  {
    seq(|history|, i requires 0 <= i < |history| => RecordValues(history[i], locale))
  }

  /** exportToCSV as written: nothing for an empty history, else the document. */
  function ExportCsvAsWritten(history: seq<TranslationRecord>, locale: LocaleRendering): (csv: Option<string>)
    ensures csv.None? <==> history == []
  {
    if |history| == 0 then None else Some(RenderDocument([HeaderRow] + RowsAsWritten(history, locale)))
  }

  /** exportToCSV with the locale rendering quoted. */
  function ExportCsv(history: seq<TranslationRecord>, locale: LocaleRendering): (csv: Option<string>)
    ensures csv.None? <==> history == []
  {
    if |history| == 0 then None else Some(RenderDocument([HeaderRow] + Rows(history, locale)))
  }

  /** The language names need no quoting. */
  lemma LanguageNameIsPlain(l: Language)
    ensures IsPlainSafe(LanguageName(l))
  {
    match l
    case Korean =>
    case English =>
    case Japanese =>
    case Chinese =>
  }

  /** The header needs no quoting and reads back as the header names. */
  lemma HeaderRowIsPlain()
    ensures AllWellFormed(HeaderRow) && Values(HeaderRow) == Headers
  {
    HeaderNamesArePlain();
    assert forall i :: 0 <= i < |HeaderRow| ==> HeaderRow[i] == Plain(Headers[i]);
  }

  /** None of the five column names needs quoting. */
  lemma HeaderNamesArePlain()
    ensures forall i :: 0 <= i < |Headers| ==> IsPlainSafe(Headers[i])
  {
    assert IsPlainSafe(Headers[0]);
    assert IsPlainSafe(Headers[1]);
    assert IsPlainSafe(Headers[2]);
    assert IsPlainSafe(Headers[3]);
    assert IsPlainSafe(Headers[4]);
  }

  /** The header followed by well-formed lines, one per row, each holding that row's
      values, reads back as the header and the rows' values. */
  lemma {:induction false} LinesRoundTrip(history: seq<TranslationRecord>, locale: LocaleRendering, rows: seq<seq<Cell>>)
    requires |rows| == |history|
    requires forall i :: 0 <= i < |rows| ==> |rows[i]| > 1 && AllWellFormed(rows[i])
    requires forall i :: 0 <= i < |rows| ==> Values(rows[i]) == RecordValues(history[i], locale)
    ensures ReadDocument(RenderDocument([HeaderRow] + rows)) == [Headers] + HistoryValues(history, locale)
  {
    var all := [HeaderRow] + rows;
    var expected := [Headers] + HistoryValues(history, locale);
    HeaderRowIsPlain();
    forall k | 0 <= k < |all|
      ensures |all[k]| > 1 && AllWellFormed(all[k])
      ensures AllValues(all)[k] == expected[k]
    {
      if k > 0 {
        assert all[k] == rows[k - 1];
        assert expected[k] == RecordValues(history[k - 1], locale);
      }
    }
    ReadDocumentRoundTrip(all);
  }

  /** Round trip: the export reads back as the header followed by every row's
      rendering, language names and texts, in history order, whatever the texts and
      the locale rendering contain. */
  lemma ExportRoundTrip(history: seq<TranslationRecord>, locale: LocaleRendering)
    requires history != []
    ensures ReadDocument(ExportCsv(history, locale).value) == [Headers] + HistoryValues(history, locale)
  {
    var rows := Rows(history, locale);
    forall i | 0 <= i < |rows|
      ensures |rows[i]| > 1 && AllWellFormed(rows[i]) && Values(rows[i]) == RecordValues(history[i], locale)
    {
      LanguageNameIsPlain(history[i].sourceLang);
      LanguageNameIsPlain(history[i].targetLang);
    }
    LinesRoundTrip(history, locale, rows);
  }

  /** The export as written reads back correctly as long as no rendering needs quoting. */
  lemma AsWrittenRoundTrip(history: seq<TranslationRecord>, locale: LocaleRendering)
    requires history != []
    requires forall i :: 0 <= i < |history| ==> IsPlainSafe(locale(history[i].timestamp))
    ensures ReadDocument(ExportCsvAsWritten(history, locale).value) == [Headers] + HistoryValues(history, locale)
  {
    var rows := RowsAsWritten(history, locale);
    forall i | 0 <= i < |rows|
      ensures |rows[i]| > 1 && AllWellFormed(rows[i]) && Values(rows[i]) == RecordValues(history[i], locale)
    {
      LanguageNameIsPlain(history[i].sourceLang);
      LanguageNameIsPlain(history[i].targetLang);
    }
    LinesRoundTrip(history, locale, rows);
  }

  /** A bare first cell `a,b` renders exactly as the two bare cells `a` and `b`. */
  lemma SplitCellRendersAlike(cells: seq<Cell>, a: string, b: string)
    requires |cells| > 1 && cells[0] == Plain(a + "," + b)
    ensures RenderRow(cells) == RenderRow([Plain(a), Plain(b)] + cells[1..])
  {
    var split := [Plain(a), Plain(b)] + cells[1..];
    RenderRowCons(cells);
    RenderRowCons(split);
    assert split[1..] == [Plain(b)] + cells[1..];
    RenderRowCons(split[1..]);
    assert split[1..][1..] == cells[1..];
  }

  /** Two documents of two lines whose second lines render alike render alike. */
  lemma SecondLineRendersAlike(header: seq<Cell>, x: seq<Cell>, y: seq<Cell>)
    requires RenderRow(x) == RenderRow(y)
    ensures RenderDocument([header, x]) == RenderDocument([header, y])
  {
    RenderDocumentCons([header, x]);
    RenderDocumentCons([header, y]);
    assert [header, x][1..] == [x];
    assert [header, y][1..] == [y];
  }

  /** What a reader gets back for one row as App.tsx writes it: the pieces of the
      rendering between its commas, then the language names and the texts. */
  function RecordValuesAsRead(r: TranslationRecord, locale: LocaleRendering): seq<string>
  {
    SplitOnCommas(locale(r.timestamp)) + [LanguageName(r.sourceLang), LanguageName(r.targetLang), r.originalText, r.translatedText]
  }

  /** The row as written, with the rendering's pieces as separate bare cells. */
  function SplitCells(r: TranslationRecord, locale: LocaleRendering): seq<Cell>
  {
    PlainCells(SplitOnCommas(locale(r.timestamp))) + RecordCellsAsWritten(r, locale)[1..]
  }

  /** The split row renders to the same line as the row as written, holds the values a
      reader gets back, and, when the rendering holds no quote or line feed, every cell
      reads back as written. */
  lemma SplitCellsRenderAlike(r: TranslationRecord, locale: LocaleRendering)
    requires NoQuoteOrLineFeed(locale(r.timestamp))
    ensures |SplitCells(r, locale)| > 1 && AllWellFormed(SplitCells(r, locale))
    ensures RenderRow(SplitCells(r, locale)) == RenderRow(RecordCellsAsWritten(r, locale))
    ensures Values(SplitCells(r, locale)) == RecordValuesAsRead(r, locale)
  {
    var written := RecordCellsAsWritten(r, locale);
    var pieces := PlainCells(SplitOnCommas(locale(r.timestamp)));
    var cells := pieces + written[1..];
    SplitFirstCell(written);
    AllWellFormedAppend(pieces, written[1..]);
    ValuesAppend(pieces, written[1..]);
    assert Values(written[1..]) == RecordValues(r, locale)[1..];
  }

  /** The header followed by every row's split cells. */
  function SplitDocument(history: seq<TranslationRecord>, locale: LocaleRendering): (rows: seq<seq<Cell>>)
    ensures |rows| == |history| + 1 && rows[0] == HeaderRow
    ensures forall k :: 0 < k < |rows| ==> rows[k] == SplitCells(history[k - 1], locale)
  {
    seq(|history| + 1, k requires 0 <= k <= |history| => if k == 0 then HeaderRow else SplitCells(history[k - 1], locale))
  }

  /** The export as written is the text of the split document. */
  lemma AsWrittenIsSplitDocument(history: seq<TranslationRecord>, locale: LocaleRendering)
    requires history != []
    requires forall i :: 0 <= i < |history| ==> NoQuoteOrLineFeed(locale(history[i].timestamp))
    ensures ExportCsvAsWritten(history, locale).value == RenderDocument(SplitDocument(history, locale))
  {
    var written := [HeaderRow] + RowsAsWritten(history, locale);
    var split := SplitDocument(history, locale);
    forall k | 0 <= k < |written|
      ensures RenderRow(written[k]) == RenderRow(split[k])
    {
      if k > 0 {
        assert written[k] == RecordCellsAsWritten(history[k - 1], locale);
        SplitCellsRenderAlike(history[k - 1], locale);
      }
    }
    RenderDocumentAlike(written, split);
  }

  /** Once the renderings hold no quote and no line feed (as the usual locales'
      renderings do, commas included), the export as written still reads back as the
      header and one record per row, in history order. Each record is the rendering's
      comma-separated pieces followed by the language names and the texts; it has as
      many fields as there are headers exactly when the rendering has no comma. */
  lemma AsWrittenReadsBack(history: seq<TranslationRecord>, locale: LocaleRendering)
    requires history != []
    requires forall i :: 0 <= i < |history| ==> NoQuoteOrLineFeed(locale(history[i].timestamp))
    ensures var read := ReadDocument(ExportCsvAsWritten(history, locale).value);
            && |read| == |history| + 1
            && read[0] == Headers
            && (forall i :: 0 <= i < |history| ==> read[i + 1] == RecordValuesAsRead(history[i], locale))
            && (forall i :: 0 <= i < |history| ==> (|read[i + 1]| == |Headers| <==> ',' !in locale(history[i].timestamp)))
  {
    var split := SplitDocument(history, locale);
    AsWrittenIsSplitDocument(history, locale);
    HeaderRowIsPlain();
    forall k | 0 <= k < |split|
      ensures |split[k]| > 1 && AllWellFormed(split[k])
    {
      if k > 0 {
        SplitCellsRenderAlike(history[k - 1], locale);
      }
    }
    ReadDocumentRoundTrip(split);
    var read := AllValues(split);
    forall i | 0 <= i < |history|
      ensures read[i + 1] == RecordValuesAsRead(history[i], locale)
      ensures |read[i + 1]| == |Headers| <==> ',' !in locale(history[i].timestamp)
    {
      assert read[i + 1] == Values(split[i + 1]);
      SplitCellsRenderAlike(history[i], locale);
    }
    assert read[0] == Values(HeaderRow);
  }

  /** As written, a rendering `a,b` is read as two cells: the record comes back with six
      fields under a five-field header. */
  lemma CommaInTimestampSplitsRecord(r: TranslationRecord, locale: LocaleRendering, a: string, b: string)
    requires locale(r.timestamp) == a + "," + b
    requires IsPlainSafe(a) && IsPlainSafe(b)
    ensures ReadDocument(ExportCsvAsWritten([r], locale).value)
         == [Headers, [a, b, LanguageName(r.sourceLang), LanguageName(r.targetLang), r.originalText, r.translatedText]]
  {
    var written := RecordCellsAsWritten(r, locale);
    var split := [Plain(a), Plain(b)] + written[1..];
    SplitCellRendersAlike(written, a, b);
    assert RowsAsWritten([r], locale) == [written];
    assert [HeaderRow] + [written] == [HeaderRow, written];
    SecondLineRendersAlike(HeaderRow, written, split);

    HeaderRowIsPlain();
    LanguageNameIsPlain(r.sourceLang);
    LanguageNameIsPlain(r.targetLang);
    assert AllWellFormed(split);
    ReadDocumentRoundTrip([HeaderRow, split]);
    assert Values(split) == [a, b, LanguageName(r.sourceLang), LanguageName(r.targetLang), r.originalText, r.translatedText];
    assert AllValues([HeaderRow, split]) == [Values(HeaderRow), Values(split)];
  }

  /** The en-US rendering of a time, "10/17/2026, 3:04:05 PM", yields a record of six
      fields where the header has five. */
  lemma EnUsTimestampBreaksColumns(r: TranslationRecord, locale: LocaleRendering)
    requires locale(r.timestamp) == "10/17/2026, 3:04:05 PM"
    ensures var read := ReadDocument(ExportCsvAsWritten([r], locale).value);
            |read| == 2 && |read[1]| == 6 && |read[0]| == |Headers| == 5
  {
    var a, b := "10/17/2026", " 3:04:05 PM";
    assert locale(r.timestamp) == a + "," + b;
    CommaInTimestampSplitsRecord(r, locale, a, b);
  }
}
