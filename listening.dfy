/** The speech-recognition lifecycle of
    chess-board/src/components/VoiceControl.tsx: the flags `listeningRef`,
    `isRecognizingRef` and `hasMicErrorRef`, the recognition's result, error
    and end handlers, the mount and teardown of the component and the effect
    that follows the `listening` prop. The recognition object itself is
    foreign: each call of `start()` either works or throws, and the caller
    says which. */
module Listening {
  import opened Wrappers
  import opened Text
  import opened Normalizer

  /** A call the component makes on the recognition object. */
  datatype Call = Start | Stop

  const UnsupportedMessage: string := "SpeechRecognition API not supported in this browser"
  const DeniedMessage: string := "Microphone access denied. Please allow microphone permission in your browser settings."
  const PermissionDeniedMessage: string :=
    "Microphone access is denied. Please allow microphone permissions in your browser settings."
  const UserMediaDeniedMessage: string := "Microphone access denied. Please allow it in your browser settings."

  /** The error kinds that mean the microphone may not be used. */
  predicate IsPermissionError(kind: string) {
    kind == "not-allowed" || kind == "permission-denied"
  }

  function ErrorText(kind: string): string {
    if IsPermissionError(kind) then DeniedMessage else "Speech recognition error: " + kind
  }

  /** Every `stop()` follows directly on a `start()`. */
  predicate StopsFollowStarts(calls: seq<Call>) {
    forall i | 0 <= i < |calls| && calls[i] == Stop :: i > 0 && calls[i - 1] == Start
  }

  class Recognizer {
    /** `recognitionRef.current != null`: the browser has the API. */
    var present: bool
    var listening: bool
    var isRecognizing: bool
    var hasMicError: bool
    var errorMessage: Option<string>
    var lastTranscript: Option<string>
    /** The calls made on the recognition object so far. */
    var calls: seq<Call>

    /** The flags never claim a recognition that was not started. */
    predicate Valid()
      reads this
    {
      && (!present ==> calls == [] && !isRecognizing)
      && (isRecognizing ==> calls != [] && calls[|calls| - 1] == Start)
      && StopsFollowStarts(calls)
    }

    /** A `start()` call that throws when `works` is false, which the
        handlers' `catch` blocks swallow. */
    method TryStart(works: bool)
      requires Valid() && present && !isRecognizing
      modifies this
      ensures Valid()
      ensures calls == old(calls) + [Start] && isRecognizing == works
      ensures present == old(present) && listening == old(listening) && hasMicError == old(hasMicError)
      ensures errorMessage == old(errorMessage) && lastTranscript == old(lastTranscript)
    {
      calls := calls + [Start];
      if works {
        isRecognizing := true;
      }
    }

    /** A `stop()` of a running recognition. */
    method StopRunning()
      requires Valid() && isRecognizing
      modifies this
      ensures Valid()
      ensures calls == old(calls) + [Stop] && !isRecognizing
      ensures present == old(present) && listening == old(listening) && hasMicError == old(hasMicError)
      ensures errorMessage == old(errorMessage) && lastTranscript == old(lastTranscript)
    {
      calls := calls + [Stop];
      isRecognizing := false;
      assert calls[|calls| - 2] == Start;
    }

    /** The mount effect on its own: without the API only the message is
        set; with it the recognition is created and, when listening,
        started. At mount React runs the `listening` effect right after it,
        which `Mount` below adds. */
    constructor(listening: bool, supported: bool, startWorks: bool)
      ensures Valid() && present == supported && this.listening == listening && !hasMicError
      ensures lastTranscript.None?
      ensures !supported ==> errorMessage == Some(UnsupportedMessage) && calls == [] && !isRecognizing
      ensures supported ==> errorMessage.None?
      ensures supported && listening ==> calls == [Start] && isRecognizing == startWorks
      ensures supported && !listening ==> calls == [] && !isRecognizing
    {
      present := supported;
      this.listening := listening;
      hasMicError := false;
      lastTranscript := None;
      calls := [];
      isRecognizing := supported && listening && startWorks;
      if supported {
        errorMessage := None;
        if listening {
          calls := [Start];
        }
      } else {
        errorMessage := Some(UnsupportedMessage);
      }
    }

    /** `onresult`: the transcript, trimmed, is shown, the error message and
        the mic-error flag are cleared, and the trimmed text is handed to
        `handleVoiceCommand`, whose outcome is returned. */
    method OnResult(transcript: string) returns (command: string, outcome: Outcome)
      requires Valid()
      modifies this
      ensures Valid()
      ensures command == Trim(transcript) && lastTranscript == Some(command)
      ensures outcome == Normalize(command)
      ensures errorMessage.None? && !hasMicError
      ensures present == old(present) && listening == old(listening)
      ensures isRecognizing == old(isRecognizing) && calls == old(calls)
    {
      command := Trim(transcript);
      lastTranscript := Some(command);
      errorMessage := None;
      hasMicError := false;
      outcome := Normalize(command);
    }

    /** `onerror`: a permission error sets the mic-error flag, any other
        only the message; the recognition counts as no longer running. */
    method OnError(kind: string)
      requires Valid()
      modifies this
      ensures Valid()
      ensures errorMessage == Some(ErrorText(kind)) && !isRecognizing
      ensures hasMicError == (IsPermissionError(kind) || old(hasMicError))
      ensures present == old(present) && listening == old(listening)
      ensures lastTranscript == old(lastTranscript) && calls == old(calls)
    {
      errorMessage := Some(ErrorText(kind));
      if IsPermissionError(kind) {
        hasMicError := true;
      }
      isRecognizing := false;
    }

    /** `onend`: the recognition counts as no longer running, and is started
        again when listening is on and there has been no mic error. */
    method OnEnd(startWorks: bool)
      requires Valid() && present
      modifies this
      ensures Valid()
      ensures calls == old(calls) + (if listening && !hasMicError then [Start] else [])
      ensures isRecognizing == (listening && !hasMicError && startWorks)
      ensures present == old(present) && listening == old(listening) && hasMicError == old(hasMicError)
      ensures errorMessage == old(errorMessage) && lastTranscript == old(lastTranscript)
    {
      isRecognizing := false;
      if listening && !hasMicError {
        TryStart(startWorks);
      }
    }

    /** The effects that follow the `listening` prop: `listeningRef` takes
        the new value, then a recognition is started when listening and none
        is running, or a running one stopped when not listening. Without the
        API only the flag changes. */
    method ListeningChanged(on: bool, startWorks: bool)
      requires Valid()
      modifies this
      ensures Valid() && listening == on
      ensures !present ==> calls == old(calls) && isRecognizing == old(isRecognizing)
      ensures present && on && !old(isRecognizing) ==> calls == old(calls) + [Start] && isRecognizing == startWorks
      ensures present && on && old(isRecognizing) ==> calls == old(calls) && isRecognizing
      ensures present && !on && old(isRecognizing) ==> calls == old(calls) + [Stop] && !isRecognizing
      ensures present && !on && !old(isRecognizing) ==> calls == old(calls) && !isRecognizing
      ensures present == old(present) && hasMicError == old(hasMicError)
      ensures errorMessage == old(errorMessage) && lastTranscript == old(lastTranscript)
    {
      listening := on;
      if present {
        if on {
          if !isRecognizing {
            TryStart(startWorks);
          }
        } else if isRecognizing {
          StopRunning();
        }
      }
    }

    /** The answer of the permission query made at mount, where the API is
        present: a denied microphone sets its message, any other state
        leaves the message alone. */
    method PermissionQueried(denied: bool)
      requires Valid() && present
      modifies this
      ensures Valid()
      ensures errorMessage == if denied then Some(PermissionDeniedMessage) else old(errorMessage)
      ensures present == old(present) && listening == old(listening) && hasMicError == old(hasMicError)
      ensures isRecognizing == old(isRecognizing) && lastTranscript == old(lastTranscript) && calls == old(calls)
    {
      if denied {
        errorMessage := Some(PermissionDeniedMessage);
      }
    }

    /** A later change of the permission: denied sets the message, granted
        or undecided clears it. */
    method PermissionChanged(denied: bool)
      requires Valid() && present
      modifies this
      ensures Valid()
      ensures errorMessage == if denied then Some(PermissionDeniedMessage) else None
      ensures present == old(present) && listening == old(listening) && hasMicError == old(hasMicError)
      ensures isRecognizing == old(isRecognizing) && lastTranscript == old(lastTranscript) && calls == old(calls)
    {
      errorMessage := if denied then Some(PermissionDeniedMessage) else None;
    }

    /** The microphone prompt made at mount was refused. Only the message
        changes: neither flag is touched. */
    method MicrophoneRefused()
      requires Valid()
      modifies this
      ensures Valid() && errorMessage == Some(UserMediaDeniedMessage)
      ensures present == old(present) && listening == old(listening) && hasMicError == old(hasMicError)
      ensures isRecognizing == old(isRecognizing) && lastTranscript == old(lastTranscript) && calls == old(calls)
    {
      errorMessage := Some(UserMediaDeniedMessage);
    }

    /** The mount effect's cleanup: a running recognition is stopped. */
    method Teardown()
      requires Valid()
      modifies this
      ensures Valid() && !isRecognizing
      ensures calls == old(calls) + (if old(isRecognizing) then [Stop] else [])
      ensures present == old(present) && listening == old(listening) && hasMicError == old(hasMicError)
      ensures errorMessage == old(errorMessage) && lastTranscript == old(lastTranscript)
    {
      if present && isRecognizing {
        StopRunning();
      }
    }
  }

  // ---------------------------------------------------------------------
  // Mount and teardown as a whole.

  /** Mounting the component: the mount effect, then the `listening` effect,
      which React also runs on the first render. When listening with the
      API present, a first `start()` that throws is followed at once by a
      second one; when it works, the effect sees it running and does
      nothing. */
  method Mount(listening: bool, supported: bool, firstWorks: bool, secondWorks: bool) returns (r: Recognizer)
    ensures fresh(r) && r.Valid()
    ensures r.present == supported && r.listening == listening && !r.hasMicError && r.lastTranscript.None?
    ensures r.errorMessage == if supported then None else Some(UnsupportedMessage)
    ensures r.calls == if supported && listening then (if firstWorks then [Start] else [Start, Start]) else []
    ensures r.isRecognizing == (supported && listening && (firstWorks || secondWorks))
  {
    r := new Recognizer(listening, supported, firstWorks);
    r.ListeningChanged(listening, secondWorks);
  }

  /** Teardown stops a running recognition but leaves its `onend` handler
      in place, and `listeningRef` keeps its value: the end event that the
      `stop()` brings starts the recognition again. */
  method EndAfterTeardown(r: Recognizer, startWorks: bool)
    requires r.Valid() && r.present && r.isRecognizing && r.listening && !r.hasMicError
    modifies r
    ensures r.Valid()
    ensures r.calls == old(r.calls) + [Stop, Start] && r.isRecognizing == startWorks
  {
    r.Teardown();
    r.OnEnd(startWorks);
  }

  // ---------------------------------------------------------------------
  // Properties of the call log.

  /** Appending a start keeps every stop after a start; appending a stop does
      so only right after a start. */
  lemma StartKeepsOrder(calls: seq<Call>)
    requires StopsFollowStarts(calls)
    ensures StopsFollowStarts(calls + [Start])
  {
    var c := calls + [Start];
    forall i | 0 <= i < |c| && c[i] == Stop ensures i > 0 && c[i - 1] == Start {
      assert c[i] == calls[i];
    }
  }

  lemma StopKeepsOrder(calls: seq<Call>)
    requires StopsFollowStarts(calls) && calls != [] && calls[|calls| - 1] == Start
    ensures StopsFollowStarts(calls + [Stop])
  {
    var c := calls + [Stop];
    forall i | 0 <= i < |c| && c[i] == Stop ensures i > 0 && c[i - 1] == Start {
      if i < |calls| {
        assert c[i] == calls[i];
      }
    }
  }

  /** So no two stops are ever made in a row. */
  lemma NoDoubleStop(calls: seq<Call>, i: nat)
    requires StopsFollowStarts(calls) && i + 1 < |calls|
    ensures !(calls[i] == Stop && calls[i + 1] == Stop)
  {
  }
}
