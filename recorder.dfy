/** The segmented-capture hook of hooks/useAudioRecorder.ts.

    The hook keeps its state in mutable refs and reacts to browser events. Here the
    refs are the fields of class AudioRecorder and every browser event is a method:
    the microphone request completing (StartRecording), an animation frame firing
    (Tick), the recorder handing over a piece of encoded audio (OnDataAvailable), the
    recorder reporting that it has stopped (OnRecorderStopped) and the user pressing
    stop (StopRecording). Time is integer milliseconds, audio is bytes, and the calls
    the hook makes into the browser (requestAnimationFrame, onChunkReady) are returned
    as out-parameters. */
module Recorder {
  import opened Types

  type Bytes = seq<bv8>

  /** A microphone stream handed out by the browser. */
  type StreamHandle = nat

  /** A finished segment: the bytes of a Blob and its MIME type. */
  datatype Segment = Segment(data: Bytes, mimeType: string)

  datatype RecorderState = Recording | Inactive

  /** How opening the first segment went once the stream was granted: the recorder was
      built and started, the MediaRecorder constructor threw (the container is not
      supported), or `start()` threw. */
  datatype SetupResult = SetupSucceeded | ConstructorThrew | StartThrew

  /** The segment length the hook uses when its caller gives none. */
  const DefaultIntervalMs := 15000

  /** The container the recorder is asked to produce: always WebM, with the Opus codec
      named exactly when the browser supports it. */
  function MimeType(opusSupported: bool): (m: string)
    ensures "audio/webm" <= m
    ensures opusSupported <==> m != "audio/webm"
  {
    if opusSupported then "audio/webm;codecs=opus" else "audio/webm"
  }

  /** The bytes of a Blob built from `pieces`: the pieces one after the other. */
  function Concat(pieces: seq<Bytes>): (blob: Bytes)
    ensures |blob| == 0 <==> forall i :: 0 <= i < |pieces| ==> |pieces[i]| == 0
  {
    if pieces == [] then [] else pieces[0] + Concat(pieces[1..])
  }

  /** The pieces the data handler keeps: those of positive size, in arrival order. */
  function NonEmpty(pieces: seq<Bytes>): (kept: seq<Bytes>)
    ensures forall i :: 0 <= i < |kept| ==> |kept[i]| > 0
    ensures |kept| <= |pieces|
  {
    if pieces == [] then []
    else if |pieces[0]| > 0 then
      var rest := NonEmpty(pieces[1..]);
      assert ([pieces[0]] + rest)[1..] == rest;
      [pieces[0]] + rest
    else NonEmpty(pieces[1..])
  }

  /** Dropping the empty pieces does not change the Blob. */
  lemma {:induction false} NonEmptyKeepsBlob(pieces: seq<Bytes>)
    ensures Concat(NonEmpty(pieces)) == Concat(pieces)
  {
    if pieces != [] {
      NonEmptyKeepsBlob(pieces[1..]);
      var rest := NonEmpty(pieces[1..]);
      if |pieces[0]| > 0 {
        assert ([pieces[0]] + rest)[1..] == rest;
      } else {
        assert pieces[0] + Concat(pieces[1..]) == Concat(pieces[1..]);
      }
    }
  }

  /** Keeping the non-empty pieces commutes with receiving one more piece. */
  lemma {:induction false} NonEmptySnoc(pieces: seq<Bytes>, piece: Bytes)
    ensures NonEmpty(pieces + [piece]) == NonEmpty(pieces) + (if |piece| > 0 then [piece] else [])
  {
    if pieces == [] {
      assert pieces + [piece] == [piece];
    } else {
      var grown := pieces + [piece];
      var tail := if |piece| > 0 then [piece] else [];
      assert grown[0] == pieces[0];
      assert grown[1..] == pieces[1..] + [piece];
      NonEmptySnoc(pieces[1..], piece);
      if |pieces[0]| > 0 {
        calc {
          NonEmpty(grown);
          [pieces[0]] + NonEmpty(pieces[1..] + [piece]);
          [pieces[0]] + (NonEmpty(pieces[1..]) + tail);
          ([pieces[0]] + NonEmpty(pieces[1..])) + tail;
          NonEmpty(pieces) + tail;
        }
      } else {
        assert NonEmpty(grown) == NonEmpty(pieces[1..] + [piece]);
      }
    }
  }

  /** A buffer of non-empty pieces yields an empty Blob exactly when it holds no piece. */
  lemma BlobEmptyIffNoPieces(chunks: seq<Bytes>)
    requires forall i :: 0 <= i < |chunks| ==> |chunks[i]| > 0
    ensures |Concat(chunks)| == 0 <==> chunks == []
  {
    if chunks != [] {
      assert |chunks[0]| > 0;
    }
  }

  /** The browser's MediaRecorder, reduced to its recording state. */
  class MediaRecorder {
    var state: RecorderState

    constructor ()
      ensures state == Inactive
    {
      state := Inactive;
    }

    method Start()
      requires state == Inactive
      modifies this
      ensures state == Recording
    {
      state := Recording;
    }

    /** The browser refuses stop() on an inactive recorder. */
    method Stop()
      requires state == Recording
      modifies this
      ensures state == Inactive
    {
      state := Inactive;
    }
  }

  /** The refs and state cells of the hook. `isRecording` stands for both the ref and
      the state cell of that name: the hook always assigns them together. */
  class AudioRecorder {
    const intervalMs: int
    const mimeType: string

    var isRecording: bool
    var elapsedTime: int
    var startTime: int
    var recorder: MediaRecorder?
    var stream: Option<StreamHandle>
    var chunks: seq<Bytes>

    /** Every piece delivered since the buffer was last emptied, empty ones included. */
    ghost var pieces: seq<Bytes>

    /** The buffer holds exactly the non-empty pieces delivered since it was emptied. */
    ghost predicate BufferValid()
      reads this
    {
      chunks == NonEmpty(pieces)
    }

    ghost predicate Valid()
      reads this
    {
      && BufferValid()
      && (isRecording ==> stream.Some? && recorder != null)
    }

    /** Nothing is live: not recording, no stream held, no recorder still capturing. */
    ghost predicate Stopped()
      reads this, recorder
    {
      !isRecording && stream.None? && (recorder != null ==> recorder.state == Inactive)
    }

    constructor (intervalMs: int, opusSupported: bool)
      ensures Valid()
      ensures this.intervalMs == intervalMs && mimeType == MimeType(opusSupported)
      ensures !isRecording && elapsedTime == 0 && startTime == 0
      ensures recorder == null && stream == None && chunks == [] && pieces == []
    {
      this.intervalMs := intervalMs;
      mimeType := MimeType(opusSupported);
      isRecording := false;
      elapsedTime := 0;
      startTime := 0;
      recorder := null;
      stream := None;
      chunks := [];
      pieces := [];
    }

    /** Stops the current recorder so that its stop handler closes the segment; does
        nothing without a recorder, when recording is off, or when the recorder is
        already inactive. */
    method StartNewSegment() returns (stopRequested: bool)
      requires Valid()
      modifies recorder
      ensures stopRequested == old(recorder != null && isRecording && recorder.state == Recording)
      ensures recorder != null ==> recorder.state == if stopRequested then Inactive else old(recorder.state)
    {
      if recorder == null || !isRecording {
        return false;
      }
      if recorder.state == Recording {
        recorder.Stop();
        stopRequested := true;
      } else {
        stopRequested := false;
      }
    }

    /** An animation frame: while recording, measure the time since the segment began
        and either rotate the segment or ask for another frame. */
    method Tick(now: int) returns (rotated: bool, stopRequested: bool, frameRequested: bool)
      requires Valid()
      modifies this, recorder
      ensures Valid()
      ensures isRecording == old(isRecording) && startTime == old(startTime) && recorder == old(recorder)
      ensures stream == old(stream) && chunks == old(chunks) && pieces == old(pieces)
      ensures !isRecording ==>
        && !rotated && !stopRequested && !frameRequested
        && elapsedTime == old(elapsedTime)
        && (recorder != null ==> recorder.state == old(recorder.state))
      ensures isRecording ==>
        && elapsedTime == now - startTime
        && rotated == (now - startTime >= intervalMs)
        && frameRequested == !rotated
      ensures stopRequested == (rotated && old(recorder.state) == Recording)
      ensures recorder != null ==> recorder.state == if stopRequested then Inactive else old(recorder.state)
    {
      if !isRecording {
        return false, false, false;
      }
      var elapsed := now - startTime;
      elapsedTime := elapsed;
      if elapsed >= intervalMs {
        rotated, frameRequested := true, false;
        stopRequested := StartNewSegment();
      } else {
        rotated, stopRequested, frameRequested := false, false, true;
      }
    }

    /** Creates the recorder for a new segment over the held stream and empties the
        buffer; without a stream it does nothing. */
    method SetupRecorder()
      requires BufferValid() && (isRecording ==> stream.Some?)
      modifies this
      ensures Valid()
      ensures isRecording == old(isRecording) && stream == old(stream)
      ensures startTime == old(startTime) && elapsedTime == old(elapsedTime)
      ensures old(stream).None? ==> recorder == old(recorder) && chunks == old(chunks) && pieces == old(pieces)
      ensures old(stream).Some? ==>
        && recorder != null && fresh(recorder) && recorder.state == Inactive
        && chunks == [] && pieces == []
    {
      if stream.None? {
        return;
      }
      recorder := new MediaRecorder();
      chunks := [];
      pieces := [];
    }

    /** The recorder hands over a piece of encoded audio; only a non-empty piece is kept. */
    method OnDataAvailable(piece: Bytes)
      requires Valid()
      modifies this
      ensures Valid()
      ensures chunks == old(chunks) + (if |piece| > 0 then [piece] else [])
      ensures pieces == old(pieces) + [piece]
      ensures isRecording == old(isRecording) && startTime == old(startTime) && elapsedTime == old(elapsedTime)
      ensures recorder == old(recorder) && stream == old(stream)
    {
      ghost var before := pieces;
      NonEmptySnoc(before, piece);
      if |piece| > 0 {
        chunks := chunks + [piece];
      }
      pieces := before + [piece];
    }

    /** The first half of the stop handler: the Blob of the buffer, kept only if it is
        non-empty, and the buffer emptied. */
    method TakeSegment() returns (segment: Option<Segment>)
      requires Valid()
      modifies this
      ensures Valid()
      ensures segment.Some? <==> |Concat(old(chunks))| > 0
      ensures segment.Some? <==> old(chunks) != []
      ensures segment.Some? ==> segment.value == Segment(Concat(old(chunks)), mimeType)
      ensures segment.Some? ==> segment.value.data == Concat(old(pieces))
      ensures chunks == [] && pieces == []
      ensures isRecording == old(isRecording) && stream == old(stream) && recorder == old(recorder)
      ensures startTime == old(startTime) && elapsedTime == old(elapsedTime)
    {
      BlobEmptyIffNoPieces(chunks);
      NonEmptyKeepsBlob(pieces);
      var blob := Concat(chunks);
      if |blob| > 0 {
        segment := Some(Segment(blob, mimeType));
      } else {
        segment := None;
      }
      chunks := [];
      pieces := [];
    }

    /** The recorder has stopped: build the segment from the buffer, hand it on only if
        it is non-empty, empty the buffer, and if recording is still on, open the next
        segment at once with a fresh recorder. */
    method OnRecorderStopped(now: int) returns (segment: Option<Segment>, frameRequested: bool)
      requires Valid()
      modifies this
      ensures Valid()
      ensures segment.Some? <==> |Concat(old(chunks))| > 0
      ensures segment.Some? <==> old(chunks) != []
      ensures segment.Some? ==> segment.value == Segment(Concat(old(chunks)), mimeType)
      ensures segment.Some? ==> segment.value.data == Concat(old(pieces))
      ensures chunks == [] && pieces == []
      ensures isRecording == old(isRecording) && stream == old(stream)
      ensures isRecording ==>
        && startTime == now && elapsedTime == 0 && frameRequested
        && recorder != null && fresh(recorder) && recorder.state == Recording
      ensures !isRecording ==>
        && startTime == old(startTime) && elapsedTime == old(elapsedTime) && !frameRequested
        && recorder == old(recorder)
    {
      segment := TakeSegment();
      if isRecording {
        startTime := now;
        elapsedTime := 0;
        OpenSegment();
        frameRequested := true;
      } else {
        frameRequested := false;
      }
    }

    /** The microphone request has completed. Without a stream, recording is off and
        nothing else is touched. With one, the stream is kept, recording is switched on
        and the clock reset to `now`, and the recorder is built and started; if building
        or starting it throws, the handler switches recording off again but keeps the
        stream and the reset clock. */
    method StartRecording(acquired: Option<StreamHandle>, setup: SetupResult, now: int) returns (frameRequested: bool)
      requires Valid()
      modifies this
      ensures Valid()
      ensures isRecording == (acquired.Some? && setup == SetupSucceeded)
      ensures frameRequested == isRecording
      ensures acquired.Some? ==> stream == acquired && startTime == now && elapsedTime == 0
      ensures acquired.Some? && setup != ConstructorThrew ==>
        && recorder != null && fresh(recorder) && chunks == [] && pieces == []
        && recorder.state == if setup == SetupSucceeded then Recording else Inactive
      ensures acquired.Some? && setup == ConstructorThrew ==>
        recorder == old(recorder) && chunks == old(chunks) && pieces == old(pieces)
      ensures acquired.None? ==>
        && stream == old(stream) && recorder == old(recorder)
        && startTime == old(startTime) && elapsedTime == old(elapsedTime)
        && chunks == old(chunks) && pieces == old(pieces)
    {
      if acquired.None? {
        isRecording := false;
        return false;
      }
      frameRequested := BeginWithStream(acquired.value, setup, now);
    }

    /** The body of the try once `getUserMedia` has granted `handle`. */
    method BeginWithStream(handle: StreamHandle, setup: SetupResult, now: int) returns (frameRequested: bool)
      requires Valid()
      modifies this
      ensures Valid()
      ensures isRecording == (setup == SetupSucceeded) && frameRequested == isRecording
      ensures stream == Some(handle) && startTime == now && elapsedTime == 0
      ensures setup != ConstructorThrew ==>
        && recorder != null && fresh(recorder) && chunks == [] && pieces == []
        && recorder.state == if setup == SetupSucceeded then Recording else Inactive
      ensures setup == ConstructorThrew ==>
        recorder == old(recorder) && chunks == old(chunks) && pieces == old(pieces)
    {
      stream := Some(handle);
      isRecording := true;
      startTime := now;
      elapsedTime := 0;
      match setup
      case ConstructorThrew =>
        isRecording := false;
        frameRequested := false;
      case StartThrew =>
        SetupRecorder();
        isRecording := false;
        frameRequested := false;
      case SetupSucceeded =>
        OpenSegment();
        frameRequested := true;
    }

    /** `setupRecorder()` followed by `start()`: a fresh recorder over the held stream,
        capturing into an empty buffer. */
    method OpenSegment()
      requires BufferValid() && isRecording && stream.Some?
      modifies this
      ensures Valid()
      ensures isRecording == old(isRecording) && stream == old(stream)
      ensures startTime == old(startTime) && elapsedTime == old(elapsedTime)
      ensures recorder != null && fresh(recorder) && recorder.state == Recording
      ensures chunks == [] && pieces == []
    {
      SetupRecorder();
      recorder.Start();
    }

    /** Recording off, the current recorder stopped if it is still capturing, the
        stream released. In the Stopped state a call changes nothing. */
    method StopRecording() returns (stopRequested: bool, released: Option<StreamHandle>)
      requires Valid()
      modifies this, recorder
      ensures Valid() && Stopped()
      ensures stopRequested == old(recorder != null && recorder.state == Recording)
      ensures released == old(stream)
      ensures recorder == old(recorder)
      ensures startTime == old(startTime) && elapsedTime == old(elapsedTime)
      ensures chunks == old(chunks) && pieces == old(pieces)
      ensures old(Stopped()) ==> !stopRequested && released.None?
    {
      isRecording := false;
      stopRequested := false;
      if recorder != null && recorder.state == Recording {
        recorder.Stop();
        stopRequested := true;
      }
      released := stream;
      stream := None;
    }
  }

  /** A denied microphone leaves the hook idle. */
  method DeniedMicrophoneWalkthrough()
  {
    var hook := new AudioRecorder(DefaultIntervalMs, true);
    var frame := hook.StartRecording(None, SetupSucceeded, 0);
    assert !hook.isRecording && hook.recorder == null && !frame;
    var rotated, stopped, again := hook.Tick(20000);
    assert !rotated && !stopped && !again;
  }

  /** The Blob of the two pieces the segment walkthrough keeps. */
  lemma SampleBlob()
    ensures Concat([[1, 2], [3]]) == [1, 2, 3]
  {
    assert [[1, 2], [3]][1..] == [[3]];
    assert [[3]][1..] == [];
  }

  /** A segment rotates once its time reaches the interval, and not before. */
  method RotationWalkthrough()
  {
    var hook := new AudioRecorder(DefaultIntervalMs, true);
    var frame := hook.StartRecording(Some(7), SetupSucceeded, 1000);
    var rotated, stopped, again := hook.Tick(15999);
    assert !rotated && !stopped && again && hook.elapsedTime == 14999;
    rotated, stopped, again := hook.Tick(16000);
    assert rotated && stopped && !again;
  }

  /** The stop handler emits the non-empty pieces, in order, and opens the next segment
      with a fresh recorder. */
  method SegmentWalkthrough()
  {
    var hook := new AudioRecorder(DefaultIntervalMs, true);
    var frame := hook.StartRecording(Some(7), SetupSucceeded, 1000);
    var first := hook.recorder;
    hook.OnDataAvailable([1, 2]);
    hook.OnDataAvailable([]);
    hook.OnDataAvailable([3]);
    assert hook.chunks == [[1, 2], [3]];
    SampleBlob();
    var segment, next := hook.OnRecorderStopped(16005);
    assert segment == Some(Segment([1, 2, 3], "audio/webm;codecs=opus"));
    assert hook.recorder != first && hook.startTime == 16005 && hook.chunks == [] && next;
  }

  /** The container is refused: recording stays off, but the stream stays held until the
      component unmounts. The StopRecording call below is a direct call on the hook; the
      app's button offers start, not stop, while recording is off, so it cannot make it. */
  method RefusedContainerWalkthrough()
  {
    var hook := new AudioRecorder(DefaultIntervalMs, false);
    var frame := hook.StartRecording(Some(7), ConstructorThrew, 500);
    assert !hook.isRecording && !frame && hook.stream == Some(7) && hook.recorder == null;
    var rotated, stopped, again := hook.Tick(20000);
    assert !rotated && !again;
    var stopRequested, released := hook.StopRecording();
    assert !stopRequested && released == Some(7);
  }

  /** Stopping twice, then the late stop event of the last recorder. */
  method StopWalkthrough()
  {
    var hook := new AudioRecorder(DefaultIntervalMs, false);
    var frame := hook.StartRecording(Some(7), SetupSucceeded, 0);
    hook.OnDataAvailable([]);
    var stopRequested, released := hook.StopRecording();
    assert stopRequested && released == Some(7);
    stopRequested, released := hook.StopRecording();
    assert !stopRequested && released == None;

    var segment, next := hook.OnRecorderStopped(20000);
    assert segment == None && !next && !hook.isRecording;
    var rotated, stopped, again := hook.Tick(40000);
    assert !rotated && !again;
  }
}
