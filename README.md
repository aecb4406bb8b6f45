# Sequential interpreter: segmented capture and result ledger

This project models the two pieces of sequential logic inside the browser-based
sequential interpretation tool. Both are written in Dafny and verified.

- **Segmented capture** (`hooks/useAudioRecorder.ts`). The recorder hook records
  the microphone in segments of a fixed length (15000 ms in the app). On every
  animation frame it checks whether the interval has run out. If so, it stops the
  current MediaRecorder. The recorder's stop handler then builds the segment from the
  buffered pieces, hands it to the app if it is non-empty, and starts a fresh
  recorder if recording is still on.
  - Class `Recorder.AudioRecorder` holds the hook's refs as fields.
  - Each browser event is a method: `StartRecording`, `Tick`, `OnDataAvailable`,
    `OnRecorderStopped` and `StopRecording`.
  - `StartRecording` takes how the first segment's setup went. The
    MediaRecorder constructor or `start()` may throw inside the try of
    `startRecording`; the model follows the catch.
  - Time is integer milliseconds. Audio pieces are byte sequences.
  - The calls the hook makes into the browser are out-parameters: `onChunkReady`
    becomes `segment`, `requestAnimationFrame` becomes `frameRequested`, and
    `recorder.stop()` becomes `stopRequested`.
  - A ghost field `pieces` records every piece delivered since the buffer was last
    emptied. The invariant `Valid` ties the buffer to it: the buffer holds exactly
    the non-empty pieces.
- **Result ledger and export** (`App.tsx`). The `history` state is an ordered list
  of rows.
  - A ready chunk appends a pending row at the tail. The row records the languages
    selected at that moment.
  - The remote call's outcome rewrites every row with that chunk's id, through `map`.
  - Clearing empties the list.
  - The list can be exported as delimited text, and the recording button shows a
    "Next Refresh" countdown.
  - Module `Ledger` holds the updaters as functions. Class `App.Session` holds the
    state cell. Modules `Csv` and `CsvExport` model the export. `App.NextRefreshSeconds`
    is the countdown.
  - The exported text is read back by `Csv.ReadDocument`, which inverts the writer.
    It uses the quoting rule of section 2 (rule 7) of RFC 4180, but ends records at a
    line feed, because the export joins records with LF, not CRLF. The round-trip
    lemmas prove that the text reads back field for field.
  - `App.Session.ExportToCsv` gives the text exactly as App.tsx writes it
    (`CsvExport.ExportCsvAsWritten`). `CsvExport.ExportCsv` is the corrected export
    described under Findings.

Behaviours of the code worth knowing:
- A segment of zero bytes is dropped; nothing is handed on for it
  (`hooks/useAudioRecorder.ts:62`).
- A row's id is the decimal text of `Date.now()` (`App.tsx:33`). Two chunks ready in
  the same millisecond get the same id, and an outcome rewrites every row with that id.
- An outcome is applied whether or not the row is still loading. Applying the same
  outcome twice gives the same history (`Ledger.CompleteIsIdempotent`), but a second,
  different outcome for the same id overwrites the first.
- When recording stops, the last partial segment is still emitted if it is
  non-empty. This happens because the stop handler of the last recorder runs after
  `StopRecording` and finds recording off.
- If the MediaRecorder constructor or `start()` throws, the catch switches recording
  off but the granted stream stays in its ref, with the microphone live, until the
  component unmounts (`hooks/useAudioRecorder.ts:117-121`): the app's button now
  offers start, not stop (`App.tsx:129-135`). A new start overwrites the ref, and
  the earlier stream is then never released.

## Model

| member | source | states |
|---|---|---|
| `Recorder.Concat` | hooks/useAudioRecorder.ts:61 | The Blob built from the buffer is empty exactly when every piece in it is empty |
| `Recorder.MimeType` | hooks/useAudioRecorder.ts:48-50 | The container is always WebM; the Opus codec is named exactly when the browser supports it |
| `Recorder.NonEmpty` | hooks/useAudioRecorder.ts:56-58 | The buffer the data handler builds holds only pieces of positive size, no more of them than were delivered |
| `Recorder.NonEmptyKeepsBlob` | hooks/useAudioRecorder.ts:56-61 | Dropping the empty pieces does not change the Blob: the Blob of the kept pieces equals that of all delivered pieces |
| `Recorder.NonEmptySnoc` | hooks/useAudioRecorder.ts:56-58 | Receiving one more piece adds it to the end of the kept pieces if its size is positive, and keeps them as they were otherwise |
| `Recorder.BlobEmptyIffNoPieces` | hooks/useAudioRecorder.ts:60-64 | For a buffer of non-empty pieces, the segment is non-empty (and so handed on) exactly when the buffer holds at least one piece |
| `Recorder.AudioRecorder.constructor` | hooks/useAudioRecorder.ts:8-20 | The hook starts not recording, with no recorder, no stream, an empty buffer and a zero clock, and keeps the interval it is given |
| `Recorder.AudioRecorder.StartNewSegment` | hooks/useAudioRecorder.ts:22-29 | Stops the recorder exactly when a recorder exists, recording is on and the recorder's state is recording. Otherwise it changes nothing |
| `Recorder.AudioRecorder.Tick` | hooks/useAudioRecorder.ts:31-43 | While not recording, nothing changes and nothing is requested. While recording, the elapsed time is now minus the start time; the tick rotates exactly when that reaches the interval, and asks for another frame exactly when it does not rotate. Start time, buffer and stream stay unchanged |
| `Recorder.AudioRecorder.SetupRecorder` | hooks/useAudioRecorder.ts:45-54 | With a stream, installs a fresh inactive recorder and empties the buffer. Without one, changes nothing |
| `Recorder.AudioRecorder.OnDataAvailable` | hooks/useAudioRecorder.ts:56-58 | Appends the piece to the buffer exactly when its size is positive; nothing else changes, and the buffer keeps only non-empty pieces |
| `Recorder.AudioRecorder.TakeSegment` | hooks/useAudioRecorder.ts:61-65 | Gives the concatenation of the buffered pieces exactly when it is non-empty, which is exactly when any non-empty piece arrived; the bytes are all pieces delivered since the buffer was emptied, in order. Afterwards the buffer is empty and nothing else has changed |
| `Recorder.AudioRecorder.OpenSegment` | hooks/useAudioRecorder.ts:71-72 | Leaves a fresh recorder capturing into an empty buffer, with recording, stream and clock unchanged |
| `Recorder.AudioRecorder.OnRecorderStopped` | hooks/useAudioRecorder.ts:60-75 | Emits the concatenation of the buffered pieces exactly when it is non-empty, which is exactly when any non-empty piece arrived; the emitted bytes are all pieces delivered since the last restart, in order. Afterwards the buffer is empty. If recording is still on, the clock restarts at now and a fresh recorder is recording; otherwise nothing restarts |
| `Recorder.AudioRecorder.StartRecording` | hooks/useAudioRecorder.ts:78-97 | Recording ends on, and a frame is requested, exactly when the stream is granted and the recorder is built and started. With a granted stream, the stream is held and the clock starts at now, whatever happens next. If the constructor throws, recorder and buffer are untouched; otherwise a fresh recorder with an empty buffer is recording, or inactive when `start()` threw. When the microphone is refused, stream, recorder, clock and buffer are left unchanged |
| `Recorder.AudioRecorder.BeginWithStream` | hooks/useAudioRecorder.ts:81-96 | The try and catch after the stream is granted: the stream is held and the clock reset. Recording stays on only when the recorder was built and started, and the recorder and buffer are as for StartRecording |
| `Recorder.AudioRecorder.StopRecording` | hooks/useAudioRecorder.ts:99-115 | Recording ends off, with the stream released and the recorder inactive. The recorder is stopped only if it was recording. A call in that stopped state changes nothing and stops or releases nothing |
| `Ledger.AppendPending` | App.tsx:36-47 | A chunk adds exactly one row, at the tail, and the earlier rows stay unchanged. The row is loading, has empty texts and no error, and records the given id, time and languages |
| `Ledger.UpdateById` | App.tsx:53-64 | The `map` by id keeps the length. Rows with a different id are unchanged; rows with that id are replaced by the update applied to them |
| `Ledger.Resolve` | App.tsx:53-57 | Length and the order of ids are kept, and rows with a different id are unchanged. Every row with the id stops loading and takes both texts; its time, languages and error stay |
| `Ledger.Fail` | App.tsx:60-64 | Length and the order of ids are kept, and rows with a different id are unchanged. Every row with the id stops loading and carries the message; its texts, time and languages stay |
| `Ledger.Complete` | App.tsx:49-65 | Length and the order of ids are kept, and rows with another id are unchanged. Every row with the id stops loading and keeps its time and languages. On success it takes both texts and keeps its error; on failure it carries "Failed to process audio chunk." and keeps its texts |
| `Ledger.CompleteUnknownIdIsNoop` | App.tsx:53-64 | An outcome for an id that no row has (for example after a clear) leaves the history unchanged |
| `Ledger.CompletionsCommute` | App.tsx:53-64 | Outcomes for two different ids give the same history in either order of arrival |
| `Ledger.CompleteCommutesWithAppend` | App.tsx:36-64 | An earlier chunk's outcome and a later chunk's pending row (with another id) give the same history in either order |
| `Ledger.CompleteIsIdempotent` | App.tsx:53-64 | Applying the same outcome twice gives the same history as applying it once |
| `Ledger.OutOfOrderAnswersKeepDispatchOrder` | App.tsx:32-66 | Chunks 1, 2, 3 answered in the order 2, 1, 3 leave the rows in the order 1, 2, 3, none of them loading, each with its own text |
| `Csv.DoubleQuotes` | App.tsx:99-100 | A text without quotes comes back unchanged; any other text comes back longer |
| `Csv.Join` | App.tsx:104-106 | Joining no parts gives the empty text. Otherwise the first part is a prefix, and the length is the parts' total plus one separator between each pair of neighbours |
| `Csv.SplitOnCommas` | App.tsx:96-105 | How a reader cuts a bare field at its commas: at least one piece, none with a comma, one piece exactly when the text has no comma, and the pieces joined with commas give the text back. Pieces of a text without quotes or line feeds need no quoting |
| `Csv.SplitJoinRoundTrip` | App.tsx:104-105 | Cutting the comma join of comma-free parts gives the parts back |
| `Csv.ReadQuotedInverse` | App.tsx:99-100 | Un-doubling a quoted field's inside, up to its closing quote, gives back the original text and leaves what followed the quote |
| `Csv.ReadPlainSafe` | App.tsx:96-98 | A bare field with no comma, quote or line feed reads back as itself |
| `Csv.ReadFieldCell` | App.tsx:96-100 | Every cell the export writes (bare and safe, or quoted) reads back as its text, leaving the separator that follows |
| `Csv.ReadRecordRow` | App.tsx:105 | A line of cells joined with commas reads back as the cells' texts in order, and the line feed after it is consumed |
| `Csv.ReadDocumentRoundTrip` | App.tsx:103-106 | Lines joined with line feeds read back as one record per line, in order, each holding its cells' texts |
| `CsvExport.LanguageNameIsPlain` | types.ts:1-6 | No language name needs quoting |
| `CsvExport.HeaderRowIsPlain` | App.tsx:94 | The header needs no quoting and reads back as the five column names |
| `CsvExport.RecordCellsAsWritten` | App.tsx:95-101 | One cell per header, holding the row's rendering, language names and texts. Every cell after the first reads back as written; the first does exactly when the rendering needs no quoting |
| `CsvExport.ExportCsvAsWritten` | App.tsx:91-106 | The export as written gives no text exactly when the history is empty |
| `CsvExport.AsWrittenReadsBack` | App.tsx:92-106 | For renderings without quotes or line feeds (commas allowed), the export as written reads back as the header plus one record per row, in history order. Each record is the rendering's comma-separated pieces, then both language names and both texts. A record has as many fields as the header exactly when its rendering has no comma |
| `CsvExport.AsWrittenRoundTrip` | App.tsx:92-106 | When no time rendering needs quoting, the export as written reads back as the header plus one record per row in history order. Each record holds the rendering, both language names and both texts |
| `CsvExport.CommaInTimestampSplitsRecord` | App.tsx:96 | As written, a time rendering `a,b` reads back as two fields, so the row has six fields under a five-field header |
| `CsvExport.EnUsTimestampBreaksColumns` | App.tsx:96 | With the en-US rendering "10/17/2026, 3:04:05 PM", the exported row reads back with 6 fields while the header has 5 |
| `CsvExport.ExportCsv` | App.tsx:91-106 | The export with the time rendering quoted gives no text exactly when the history is empty |
| `CsvExport.ExportRoundTrip` | App.tsx:92-106 | The export with the rendering quoted reads back as the header plus one record per row, in history order, whatever the texts and renderings contain. Each record holds the rendering, both language names and both texts |
| `App.Session.constructor` | App.tsx:24-26 | The app starts with Korean to English and an empty history |
| `App.Session.SelectSourceLanguage` | App.tsx:24 | Changes only the source language |
| `App.Session.SelectTargetLanguage` | App.tsx:25 | Changes only the target language |
| `App.Session.HandleChunkReady` | App.tsx:32-51 | Appends the pending row for the chunk at the tail. The call sent for the chunk carries the chunk, the row's id, and the same languages the row records. The languages do not change |
| `App.Session.HandleOutcome` | App.tsx:49-65 | Applies the call's outcome to the rows with the call's id: resolved on success, failed with the fixed message otherwise |
| `App.Session.ClearHistory` | App.tsx:123-127 | A confirmed clear empties the history; an unconfirmed one leaves it as it was |
| `App.Session.ExportToCsv` | App.tsx:91-106 | Gives no text exactly for an empty history, and otherwise the text App.tsx writes for the whole history, rendering unquoted |
| `App.CeilSeconds` | App.tsx:228 | The result is the ceiling of the milliseconds divided by 1000 |
| `App.NextRefreshSeconds` | App.tsx:228 | The countdown is never negative, is 0 once elapsed reaches the interval, is otherwise the ceiling of the remaining seconds, and is at most 15 for a non-negative elapsed time |
| `App.NextRefreshNeverRises` | App.tsx:228 | As elapsed time grows, the countdown never increases |

## Left out

- Browser internals (`getUserMedia`, MediaRecorder encoding, `requestAnimationFrame`, `cancelAnimationFrame`, timers) are not modelled. They become the inputs and outputs of the event methods. A MediaRecorder is reduced to its recording state.
- Interleaving of `await` continuations is not modelled. `StartRecording` models the code after the microphone request completes. Nothing before that point changes state.
- Events are attributed to the current recorder. After a quick stop and restart, a stop event from the replaced recorder could run the shared handler over the new buffer; that race is not modelled.
- `Recorder.AudioRecorder.StopRecording`: `cancelAnimationFrame` is not modelled as state. Its effect shows in `Tick` doing nothing once recording is off.
- `Recorder.AudioRecorder.OnRecorderStopped`: a throw from the MediaRecorder constructor or `start()` in the stop handler's restart (`hooks/useAudioRecorder.ts:71-72`) is not modelled. No catch surrounds it, so recording would stay on with no capturing recorder; the model assumes the container that worked at the start keeps working.
- `console.error` is not modelled.
- The MIME type is fixed when the hook is built, from whether opus is supported. The hook re-evaluates it on every setup, but the browser's answer does not change.
- `App.Session.HandleChunkReady`: the languages are read from the session when the chunk arrives. The hook's stop handler actually calls a callback captured when recording began. The two agree because the language selector is disabled while recording (`App.tsx:178`).
- Base64 conversion (`blobToBase64`) and the remote service (`services/geminiService.ts`) are not modelled. Both appear only as the `Outcome` of a call, and a failure of either is `Failed`.
- The download itself (byte order mark, Blob, object URL, anchor element, toast timer) is not modelled. `ExportToCsv` gives the text that would be written.
- `toLocaleString()` is browser locale formatting and is a function parameter.
- `(text || '')` in the export is the identity on strings and is left out.
- The progress ring and progress ratio use floating point and are left out. The countdown is exact integer arithmetic, because elapsed times are whole milliseconds.
- Fullscreen handling, the Header, Timeline and LanguageSelector components, and the unmount cleanup effect are rendering and lifecycle glue.

## Findings

| source | as written | input that shows it | evidently intended | confidence | as-written member | corrected member |
|---|---|---|---|---|---|---|
| App.tsx:96 | The creation time is written as `toLocaleString()` without quotes, while the texts are quoted | A row created under the en-US locale, whose rendering is "10/17/2026, 3:04:05 PM" | Five fields per row, matching the header, for every locale | high (not executed) | `CsvExport.EnUsTimestampBreaksColumns` | `CsvExport.ExportRoundTrip` |
