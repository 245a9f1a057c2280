/**
 * The voice-message recorder: its `m:ss` live counter and the state it keeps
 * while recording (the active recording, whether recording is on, and the
 * elapsed seconds), driven by start, the one-second tick, stop and cancel.
 * The audio library's calls are reduced to whether they succeed.
 */
module AudioRecorder {
  import opened Wrappers
  import opened Text
  import MessageBubble

  /** `formatTime(seconds)`: whole minutes, a colon, and the remaining seconds padded to two digits. */
  function FormatTime(seconds: nat): string {
    var mins := seconds / 60;
    var secs := seconds % 60;
    NatToString(mins) + ":" + PadStart2(NatToString(secs))
  }

  /** The live counter's label stands for exactly the elapsed seconds. */
  lemma {:induction false} FormatTimeReadsBack(seconds: nat)
    ensures MessageBubble.ParseClock(FormatTime(seconds)) == Some(seconds)
  {
    MessageBubble.ClockLabelReadsBack(seconds / 60, seconds % 60);
  }

  /**
   * The duration handed on by stop (`recordingTime * 1000` milliseconds) is
   * rendered by the message bubble exactly as the live counter showed it.
   */
  lemma {:induction false} DurationLabelMatchesCounter(seconds: nat)
    ensures MessageBubble.FormatDuration(1000 * seconds) == FormatTime(seconds)
  {
    assert (1000 * seconds) / 1000 == seconds;
  }

  /** Stands for an `Audio.Recording` object of the audio library. */
  type RecordingHandle = nat

  /** How a start request ends: refused for want of permission, started, or failed in the library. */
  datatype StartOutcome = NoPermission | Started | StartFailed

  /** The component's callbacks, as invoked: `onRecordingComplete(uri, duration)` and `onCancel()`. */
  datatype Callback = RecordingComplete(uri: string, durationMillis: nat) | Cancelled

  class Recorder {
    var recording: Option<RecordingHandle>
    var isRecording: bool
    var recordingTime: nat
    var hasPermission: bool
    /** Every callback invocation so far, oldest first. */
    var callbacks: seq<Callback>

    /** A recording exists exactly while recording is on, and the counter is 0 otherwise. */
    ghost predicate Valid()
      reads this
    {
      (isRecording <==> recording.Some?) && (!isRecording ==> recordingTime == 0)
    }

    /** Mounting the component; `permissionGranted` is the answer to the microphone permission request. */
    constructor (permissionGranted: bool)
      ensures Valid()
      ensures recording == None && !isRecording && recordingTime == 0
      ensures hasPermission == permissionGranted && callbacks == []
    {
      recording := None;
      isRecording := false;
      recordingTime := 0;
      hasPermission := permissionGranted;
      callbacks := [];
    }

    /** `startRecording()`; `startSucceeds` says whether the audio mode and recording calls succeed. */
    method StartRecording(startSucceeds: bool, newRecording: RecordingHandle) returns (outcome: StartOutcome)
      requires Valid()
      modifies this
      ensures Valid()
      ensures outcome == if !old(hasPermission) then NoPermission else if startSucceeds then Started else StartFailed
      ensures outcome == Started ==> recording == Some(newRecording) && isRecording && recordingTime == 0
      ensures outcome != Started ==>
        recording == old(recording) && isRecording == old(isRecording) && recordingTime == old(recordingTime)
      ensures hasPermission == old(hasPermission) && callbacks == old(callbacks)
    {
      if !hasPermission {
        return NoPermission;
      }
      if startSucceeds {
        recording := Some(newRecording);
        isRecording := true;
        recordingTime := 0;
        outcome := Started;
      } else {
        outcome := StartFailed;
      }
    }

    /** One firing of the one-second interval, which runs only while recording is on. */
    method Tick()
      requires Valid()
      modifies this
      ensures Valid()
      ensures recordingTime == if old(isRecording) then old(recordingTime) + 1 else old(recordingTime)
      ensures recording == old(recording) && isRecording == old(isRecording)
      ensures hasPermission == old(hasPermission) && callbacks == old(callbacks)
    {
      if isRecording {
        recordingTime := recordingTime + 1;
      }
    }

    /**
     * `stopRecording()`; `stopSucceeds` says whether stopping the recording
     * succeeds and `uri` is what the recording then reports as its file.
     */
    method StopRecording(stopSucceeds: bool, uri: Option<string>)
      requires Valid()
      modifies this
      ensures Valid()
      ensures old(recording).None? ==>
        recording == old(recording) && isRecording == old(isRecording) &&
        recordingTime == old(recordingTime) && callbacks == old(callbacks)
      ensures old(recording).Some? ==>
        recording == None && !isRecording && recordingTime == 0 &&
        callbacks == old(callbacks) +
          if stopSucceeds && Truthy(uri) then [RecordingComplete(uri.value, old(recordingTime) * 1000)] else []
      ensures hasPermission == old(hasPermission)
    {
      if recording.None? {
        return;
      }
      if stopSucceeds && Truthy(uri) {
        var duration := recordingTime * 1000;
        callbacks := callbacks + [RecordingComplete(uri.value, duration)];
      }
      // the `finally` block
      recording := None;
      isRecording := false;
      recordingTime := 0;
    }

    /** `cancelRecording()`: the library calls it makes cannot change what it leaves behind. */
    method CancelRecording()
      requires Valid()
      modifies this
      ensures Valid()
      ensures callbacks == old(callbacks) + [Cancelled]
      ensures old(recording).Some? ==> recording == None && !isRecording && recordingTime == 0
      ensures old(recording).None? ==>
        recording == old(recording) && isRecording == old(isRecording) && recordingTime == old(recordingTime)
      ensures hasPermission == old(hasPermission)
    {
      if recording.Some? {
        recording := None;
        isRecording := false;
        recordingTime := 0;
      }
      callbacks := callbacks + [Cancelled];
    }
  }
}
