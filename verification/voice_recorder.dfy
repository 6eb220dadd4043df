/** The voice recorder button: an `MM:SS` clock and a small state machine
    of flags, a chunk buffer, a timer handle and a second counter. The
    media API (`getUserMedia`, `MediaRecorder`, `setInterval`) is reduced to
    its outcomes: whether access was granted, the interval handle the
    browser returned, the chunks it delivers and the transcription's
    result. */
module VoiceRecorder {
  import opened Optional
  import Text

  /** `n.toString().padStart(2, '0')`. */
  function Pad2(n: nat): (r: string)
    ensures Text.AllDigits(r) && |r| >= 2
    ensures n < 100 <==> |r| == 2
  {
    Text.NatToStringLength(n);
    Text.PadStart(Text.NatToString(n), 2, '0')
  }

  /** Padding with zeros does not change the number a numeral reads as. */
  lemma Pad2Value(n: nat)
    ensures Text.DigitsValue(Pad2(n)) == n
  {
    Text.NatToStringValue(n);
    Text.NatToStringLength(n);
    if n < 10 {
      var r := Pad2(n);
      assert r == ['0', Text.DigitChar(n)];
      assert r[..1] == ['0'] && ['0'][..0] == [];
      assert Text.DigitsValue(r[..1]) == 0;
    }
  }

  /** `formatTime`: whole minutes, a colon, then the seconds within the
      minute, each at least two digits. */
  function FormatTime(seconds: nat): (r: string)
    ensures |r| >= 5 && r[|r| - 3] == ':'
  {
    Pad2(seconds / 60) + ":" + Pad2(seconds % 60)
  }

  /** The two fields of a clock string around its colon. */
  lemma ClockFields(m: string, s: string)
    requires |s| == 2
    ensures var r := m + ":" + s; r[..|r| - 3] == m && r[|r| - 2..] == s
  {
  }

  /** Reads a clock string back into seconds: a digit minutes field, a
      colon and a two-digit seconds field below 60. */
  function ReadClock(r: string): Option<nat> {
    if |r| >= 3 && r[|r| - 3] == ':' then
      var m, s := r[..|r| - 3], r[|r| - 2..];
      if Text.AllDigits(m) && Text.AllDigits(s) && Text.DigitsValue(s) < 60
      then Some(Text.DigitsValue(m) * 60 + Text.DigitsValue(s))
      else None
    else None
  }

  /** Reading the clock back gives the elapsed time. */
  lemma {:induction false} FormatTimeReadsBack(seconds: nat)
    ensures ReadClock(FormatTime(seconds)) == Some(seconds)
  {
    MinutesAndSeconds(seconds);
    ReadPadded(seconds / 60, seconds % 60);
  }

  lemma {:induction false} ReadPadded(mins: nat, secs: nat)
    requires secs < 60
    ensures ReadClock(Pad2(mins) + ":" + Pad2(secs)) == Some(mins * 60 + secs)
  {
    var m, s := Pad2(mins), Pad2(secs);
    Pad2Value(mins);
    Pad2Value(secs);
    ReadClockOf(m, s, mins, secs);
  }

  /** The clock is exactly five characters wide below 100 minutes. */
  lemma FormatTimeWidth(seconds: nat)
    ensures seconds < 6000 <==> |FormatTime(seconds)| == 5
  {
    MinutesAndSeconds(seconds);
  }

  lemma ReadClockOf(m: string, s: string, mins: nat, secs: nat)
    requires Text.AllDigits(m) && Text.AllDigits(s) && |s| == 2
    requires Text.DigitsValue(m) == mins && Text.DigitsValue(s) == secs && secs < 60
    ensures ReadClock(m + ":" + s) == Some(mins * 60 + secs)
  {
    ClockFields(m, s);
  }

  lemma MinutesAndSeconds(seconds: nat)
    ensures (seconds / 60) * 60 + seconds % 60 == seconds && seconds % 60 < 60
    ensures seconds < 6000 <==> seconds / 60 < 100
  {
  }

  /** A piece of recorded audio. */
  type Chunk = seq<bv8>

  /** How the awaited transcription ended: a text, or a thrown value that
      may or may not be an `Error`. */
  datatype TranscriptionOutcome = Transcribed(text: string) | Threw(isError: bool, message: string)

  /** What the recorder reports to its parent. */
  datatype Report = Complete(text: string) | Failure(message: string)

  /** The report for an outcome: a non-`Error` throw becomes
      "Transcription failed". */
  function ReportFor(o: TranscriptionOutcome): (r: Report)
    ensures o.Transcribed? <==> r.Complete?
    ensures o.Transcribed? ==> r.text == o.text
    ensures o.Threw? && o.isError ==> r == Failure(o.message)
    ensures o.Threw? && !o.isError ==> r == Failure("Transcription failed")
  {
    match o
    case Transcribed(text) => Complete(text)
    case Threw(isError, message) => Failure(if isError then message else "Transcription failed")
  }

  class Recorder {
    var hasRecorder: bool
    var isRecording: bool
    var isTranscribing: bool
    var recordingTime: nat
    var chunks: seq<Chunk>
    var timer: Option<nat>

    /** Recording needs a recorder. */
    predicate Valid()
      reads this
    {
      isRecording ==> hasRecorder
    }

    constructor ()
      ensures Valid()
      ensures !hasRecorder && !isRecording && !isTranscribing && recordingTime == 0 && chunks == [] && timer == None
    {
      hasRecorder, isRecording, isTranscribing := false, false, false;
      recordingTime, chunks, timer := 0, [], None;
    }

    /** The start button is disabled while a transcription runs. */
    predicate CanStart()
      reads this
    {
      !isTranscribing
    }

    /** `startRecording`: without microphone access nothing changes;
        otherwise the buffer is emptied, the flag set, the counter reset and
        the interval handle kept. */
    method StartRecording(granted: bool, handle: nat)
      requires Valid()
      modifies this
      ensures Valid()
      ensures !granted ==>
        && hasRecorder == old(hasRecorder) && isRecording == old(isRecording)
        && recordingTime == old(recordingTime) && chunks == old(chunks) && timer == old(timer)
      ensures granted ==> hasRecorder && isRecording && recordingTime == 0 && chunks == [] && timer == Some(handle)
      ensures isTranscribing == old(isTranscribing)
    {
      if !granted {
        return;
      }
      hasRecorder := true;
      chunks := [];
      isRecording := true;
      recordingTime := 0;
      timer := Some(handle);
    }

    /** `ondataavailable`: chunks are kept in arrival order. */
    method DataAvailable(c: Chunk)
      requires Valid()
      modifies this
      ensures Valid()
      ensures chunks == old(chunks) + [c]
      ensures hasRecorder == old(hasRecorder) && isRecording == old(isRecording) && isTranscribing == old(isTranscribing)
      ensures recordingTime == old(recordingTime) && timer == old(timer)
    {
      chunks := chunks + [c];
    }

    /** One interval tick: one more second. */
    method Tick()
      requires Valid()
      modifies this
      ensures Valid()
      ensures recordingTime == old(recordingTime) + 1
      ensures hasRecorder == old(hasRecorder) && isRecording == old(isRecording) && isTranscribing == old(isTranscribing)
      ensures chunks == old(chunks) && timer == old(timer)
    {
      recordingTime := recordingTime + 1;
    }

    /** `stopRecording`: only a running recording stops; the interval is
        cleared when its handle is truthy (a handle of 0 is left alone). */
    method StopRecording() returns (stopped: bool)
      requires Valid()
      modifies this
      ensures Valid()
      ensures stopped <==> old(hasRecorder) && old(isRecording)
      ensures !stopped ==> isRecording == old(isRecording) && timer == old(timer)
      ensures stopped ==> !isRecording
      ensures stopped && old(timer).Some? && old(timer).value != 0 ==> timer == None
      ensures stopped && (old(timer).None? || old(timer).value == 0) ==> timer == old(timer)
      ensures hasRecorder == old(hasRecorder) && isTranscribing == old(isTranscribing)
      ensures recordingTime == old(recordingTime) && chunks == old(chunks)
    {
      stopped := hasRecorder && isRecording;
      if stopped {
        isRecording := false;
        if timer.Some? && timer.value != 0 {
          timer := None;
        }
      }
    }

    /** `onstop`, up to the `await`: the buffered chunks become the audio
        sent for transcription and the transcribing flag is raised. */
    method BeginTranscription() returns (audio: seq<Chunk>)
      requires Valid()
      modifies this
      ensures Valid()
      ensures audio == chunks && isTranscribing && !CanStart()
      ensures hasRecorder == old(hasRecorder) && isRecording == old(isRecording)
      ensures recordingTime == old(recordingTime) && chunks == old(chunks) && timer == old(timer)
    {
      audio := chunks;
      isTranscribing := true;
    }

    /** After the `await`: the flag drops whatever the outcome. */
    method FinishTranscription(o: TranscriptionOutcome) returns (report: Report)
      requires Valid()
      modifies this
      ensures Valid()
      ensures report == ReportFor(o) && !isTranscribing && CanStart()
      ensures hasRecorder == old(hasRecorder) && isRecording == old(isRecording)
      ensures recordingTime == old(recordingTime) && chunks == old(chunks) && timer == old(timer)
    {
      report := ReportFor(o);
      isTranscribing := false;
    }
  }
}
