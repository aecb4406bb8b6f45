/** The App component of App.tsx: the selected languages and the history state cell,
    driven by the recorder's chunks, by the outcomes of the remote calls, and by the
    clear and export buttons; and the "Next Refresh" countdown. */
module App {
  import opened Types
  import opened Ledger
  import Recorder
  import CsvExport

  /** The segment length App gives the recorder. */
  const IntervalMs := 15000

  /** What handleChunkReady sends to the remote service for one chunk, with the id
      that the answer is filed under. */
  datatype PendingCall = PendingCall(id: string, audio: Recorder.Segment, sourceLang: Language, targetLang: Language)

  class Session {
    var sourceLang: Language
    var targetLang: Language
    var history: History

    constructor ()
      ensures sourceLang == Korean && targetLang == English && history == []
    {
      sourceLang := Korean;
      targetLang := English;
      history := [];
    }

    method SelectSourceLanguage(l: Language)
      modifies this
      ensures sourceLang == l && targetLang == old(targetLang) && history == old(history)
    {
      sourceLang := l;
    }

    method SelectTargetLanguage(l: Language)
      modifies this
      ensures targetLang == l && sourceLang == old(sourceLang) && history == old(history)
    {
      targetLang := l;
    }

    /** A chunk is ready: a pending row goes to the tail, and the call starts with the
        very languages that row records. `id` and `timestamp` are the clock readings
        taken for the row. */
    method HandleChunkReady(audio: Recorder.Segment, id: string, timestamp: int) returns (call: PendingCall)
      modifies this
      ensures sourceLang == old(sourceLang) && targetLang == old(targetLang)
      ensures history == AppendPending(old(history), id, timestamp, sourceLang, targetLang)
      ensures call.id == id && call.audio == audio
      ensures call.sourceLang == history[|history| - 1].sourceLang == sourceLang
      ensures call.targetLang == history[|history| - 1].targetLang == targetLang
    {
      history := AppendPending(history, id, timestamp, sourceLang, targetLang);
      call := PendingCall(id, audio, sourceLang, targetLang);
    }

    /** The call has settled: its outcome is filed under the call's id. */
    method HandleOutcome(call: PendingCall, outcome: Outcome)
      modifies this
      ensures sourceLang == old(sourceLang) && targetLang == old(targetLang)
      ensures history == Complete(old(history), call.id, outcome)
    {
      history := Complete(history, call.id, outcome);
    }

    /** The clear button: the history goes only if the user confirms. */
    method ClearHistory(confirmed: bool)
      modifies this
      ensures sourceLang == old(sourceLang) && targetLang == old(targetLang)
      ensures history == if confirmed then [] else old(history)
    {
      if confirmed {
        history := [];
      }
    }

    /** The export button: the text of the file as App.tsx writes it, or nothing for an
        empty history. */
    method ExportToCsv(locale: CsvExport.LocaleRendering) returns (csv: Option<string>)
      ensures csv == CsvExport.ExportCsvAsWritten(history, locale)
      ensures csv.None? <==> history == []
    {
      if |history| == 0 {
        return None;
      }
      csv := CsvExport.ExportCsvAsWritten(history, locale);
    }
  }

  /** Whole seconds needed to cover `ms` milliseconds: the ceiling of ms / 1000. */
  function CeilSeconds(ms: int): (s: int)
    ensures (s - 1) * 1000 < ms <= s * 1000
  {
    -((-ms) / 1000)
  }

  /** The "Next Refresh" figure: max(0, ceil((IntervalMs - elapsed) / 1000)). */
  function NextRefreshSeconds(elapsed: int): (s: int)
    ensures s >= 0
    ensures elapsed >= IntervalMs ==> s == 0
    ensures elapsed < IntervalMs ==> (s - 1) * 1000 < IntervalMs - elapsed <= s * 1000
    ensures elapsed >= 0 ==> s <= IntervalMs / 1000
  {
    var c := CeilSeconds(IntervalMs - elapsed);
    if c > 0 then c else 0
  }

  /** The countdown never goes up as the segment's time runs on. */
  lemma NextRefreshNeverRises(earlier: int, later: int)
    requires earlier <= later
    ensures NextRefreshSeconds(later) <= NextRefreshSeconds(earlier)
  {
  }

  /** A recorder segment flows into the history; an answer that arrives after the
      history was cleared changes nothing. */
  method LateAnswerAfterClear()
  {
    var app := new Session();
    app.SelectSourceLanguage(Japanese);
    var call := app.HandleChunkReady(Recorder.Segment([1], "audio/webm"), "1000", 1000);
    assert app.history == [PendingRecord("1000", 1000, Japanese, English)];
    app.ClearHistory(false);
    assert |app.history| == 1;
    app.ClearHistory(true);
    app.HandleOutcome(call, Interpreted("hello", "hi"));
    assert app.history == [];
  }
}
