/** The interpretation history of App.tsx as a value: the updaters that
    handleChunkReady and clearHistory pass to the history state cell. A chunk adds a
    pending row at the tail; the remote call's outcome later rewrites every row
    carrying that chunk's id, through `map`, so rows never move. */
module Ledger {
  import opened Types

  type History = seq<TranslationRecord>

  /** What processing a chunk came back with: both texts, or a failure of the upload
      or of the remote call. */
  datatype Outcome = Interpreted(original: string, translated: string) | Failed

  /** The message a failed row carries. */
  const FailureMessage := "Failed to process audio chunk."

  /** The ids of the rows, in ledger order. */
  function Ids(history: History): seq<string>
  {
    seq(|history|, i requires 0 <= i < |history| => history[i].id)
  }

  /** The row added while a chunk is processed: loading, no texts yet, and the
      languages selected when the chunk arrived. */
  function PendingRecord(id: string, timestamp: int, sourceLang: Language, targetLang: Language): TranslationRecord
  {
    TranslationRecord(id, timestamp, sourceLang, targetLang, "", "", true, None)
  }

  /** The history after a chunk arrives: one pending row added at the tail. */
  function AppendPending(history: History, id: string, timestamp: int, sourceLang: Language, targetLang: Language): (r: History)
    ensures |r| == |history| + 1 && r[..|history|] == history
    ensures r[|history|].id == id && r[|history|].timestamp == timestamp
    ensures r[|history|].sourceLang == sourceLang && r[|history|].targetLang == targetLang
    ensures r[|history|].isLoading && r[|history|].originalText == "" && r[|history|].translatedText == ""
    ensures r[|history|].error == None
  {
    history + [PendingRecord(id, timestamp, sourceLang, targetLang)]
  }

  /** `history.map(item => item.id === id ? f(item) : item)`. */
  function UpdateById(history: History, id: string, f: TranslationRecord -> TranslationRecord): (r: History)
    ensures |r| == |history|
    ensures forall i :: 0 <= i < |history| && history[i].id != id ==> r[i] == history[i]
    ensures forall i :: 0 <= i < |history| && history[i].id == id ==> r[i] == f(history[i])
  {
    if history == [] then []
    else [if history[0].id == id then f(history[0]) else history[0]] + UpdateById(history[1..], id, f)
  }

  /** The history after a chunk's texts come back: every row with that id stops
      loading and takes the texts; its error, if any, stays. */
  function Resolve(history: History, id: string, original: string, translated: string): (r: History)
    ensures |r| == |history| && Ids(r) == Ids(history)
    ensures forall i :: 0 <= i < |history| && history[i].id != id ==> r[i] == history[i]
    ensures forall i :: 0 <= i < |history| && history[i].id == id ==>
      && !r[i].isLoading && r[i].originalText == original && r[i].translatedText == translated
      && r[i].timestamp == history[i].timestamp && r[i].error == history[i].error
      && r[i].sourceLang == history[i].sourceLang && r[i].targetLang == history[i].targetLang
  {
    UpdateById(history, id, (row: TranslationRecord) => row.(originalText := original, translatedText := translated, isLoading := false))
  }

  /** The history after a chunk fails: every row with that id stops loading and
      carries the message; its texts stay as they were. */
  function Fail(history: History, id: string, message: string): (r: History)
    ensures |r| == |history| && Ids(r) == Ids(history)
    ensures forall i :: 0 <= i < |history| && history[i].id != id ==> r[i] == history[i]
    ensures forall i :: 0 <= i < |history| && history[i].id == id ==>
      && !r[i].isLoading && r[i].error == Some(message)
      && r[i].originalText == history[i].originalText && r[i].translatedText == history[i].translatedText
      && r[i].timestamp == history[i].timestamp
      && r[i].sourceLang == history[i].sourceLang && r[i].targetLang == history[i].targetLang
  {
    UpdateById(history, id, (row: TranslationRecord) => row.(isLoading := false, error := Some(message)))
  }

  /** The try/catch of handleChunkReady: the outcome of one chunk applied to the rows
      with its id. Rows never move and rows with another id are left alone; every row
      with the id stops loading and keeps its time and languages, and takes the texts
      on success or the failure message otherwise. */
  function Complete(history: History, id: string, outcome: Outcome): (r: History)
    ensures |r| == |history| && Ids(r) == Ids(history)
    ensures forall i :: 0 <= i < |history| && history[i].id != id ==> r[i] == history[i]
    ensures forall i :: 0 <= i < |history| && history[i].id == id ==>
      && !r[i].isLoading && r[i].timestamp == history[i].timestamp
      && r[i].sourceLang == history[i].sourceLang && r[i].targetLang == history[i].targetLang
      && (outcome.Interpreted? ==>
            r[i].originalText == outcome.original && r[i].translatedText == outcome.translated
            && r[i].error == history[i].error)
      && (outcome.Failed? ==>
            r[i].error == Some(FailureMessage)
            && r[i].originalText == history[i].originalText && r[i].translatedText == history[i].translatedText)
  {
    match outcome
    case Interpreted(original, translated) => Resolve(history, id, original, translated)
    case Failed => Fail(history, id, FailureMessage)
  }

  /** An outcome for an id no row has (one that was cleared, say) changes nothing. */
  lemma {:induction false} CompleteUnknownIdIsNoop(history: History, id: string, outcome: Outcome)
    requires id !in Ids(history)
    ensures Complete(history, id, outcome) == history
  {
    var r := Complete(history, id, outcome);
    forall i | 0 <= i < |history|
      ensures r[i] == history[i]
    {
      assert Ids(history)[i] == history[i].id;
    }
  }

  /** Outcomes of two different chunks may arrive in either order: the history ends
      up the same. */
  lemma CompletionsCommute(history: History, a: string, oa: Outcome, b: string, ob: Outcome)
    requires a != b
    ensures Complete(Complete(history, a, oa), b, ob) == Complete(Complete(history, b, ob), a, oa)
  {
  }

  /** The outcome of an earlier chunk and the arrival of a later one commute, provided
      the later one has a different id. */
  lemma {:induction false} CompleteCommutesWithAppend(history: History, id: string, outcome: Outcome,
                                                      newId: string, timestamp: int, sourceLang: Language, targetLang: Language)
    requires newId != id
    ensures Complete(AppendPending(history, newId, timestamp, sourceLang, targetLang), id, outcome)
         == AppendPending(Complete(history, id, outcome), newId, timestamp, sourceLang, targetLang)
  {
    var left := Complete(AppendPending(history, newId, timestamp, sourceLang, targetLang), id, outcome);
    var right := AppendPending(Complete(history, id, outcome), newId, timestamp, sourceLang, targetLang);
    assert |left| == |right|;
    forall i | 0 <= i < |left|
      ensures left[i] == right[i]
    {
      if i < |history| {
        assert AppendPending(history, newId, timestamp, sourceLang, targetLang)[i] == history[i];
      }
    }
  }

  /** Applying the same outcome twice is the same as applying it once. */
  lemma CompleteIsIdempotent(history: History, id: string, outcome: Outcome)
    ensures Complete(Complete(history, id, outcome), id, outcome) == Complete(history, id, outcome)
  {
  }

  /** Three chunks A, B, C dispatched in that order and answered B, A, C: the history
      reads A, B, C, none of them loading. */
  lemma OutOfOrderAnswersKeepDispatchOrder(ts: int, src: Language, tgt: Language,
                                          a: Outcome, b: Outcome, c: Outcome)
    requires a.Interpreted? && b.Interpreted? && c.Interpreted?
    ensures var h0 := AppendPending(AppendPending(AppendPending([], "1", ts, src, tgt), "2", ts + 1, src, tgt), "3", ts + 2, src, tgt);
            var h := Complete(Complete(Complete(h0, "2", b), "1", a), "3", c);
            && Ids(h) == ["1", "2", "3"]
            && (forall i :: 0 <= i < |h| ==> !h[i].isLoading)
            && h[0].originalText == a.original && h[1].originalText == b.original && h[2].originalText == c.original
  {
    var h0 := AppendPending(AppendPending(AppendPending([], "1", ts, src, tgt), "2", ts + 1, src, tgt), "3", ts + 2, src, tgt);
    assert Ids(h0) == ["1", "2", "3"];
  }
}
