// The chat screen's input handlers (New/frontend/src/components/ChatInterface.jsx):
// the text box, the Enter key, the send-button gate, the recorder callbacks
// and the intro flag in local storage. `sendMessage` of the chat hook is
// recorded as the list `sent`; `loading` is the hook's `isLoading`, which
// these handlers only read.
module ChatInterface {
  import opened Wrappers
  import opened TextUtil

  /** An audio recording, by an opaque handle. */
  datatype Blob = Blob(handle: nat)

  /** The argument of `sendMessage`. */
  datatype Outgoing = TextMessage(content: string) | AudioMessage(audio: Blob, transcript: string)

  /** JavaScript's `!s.trim()`. */
  predicate TrimsToEmpty(s: string) {
    Trim(Js, s) == ""
  }

  /** `!s.trim()` holds exactly when `s` is nothing but whitespace. */
  lemma TrimsToEmptyIffBlank(s: string)
    ensures TrimsToEmpty(s) <==> IsBlank(Js, s)
  {
    TrimEmptyIffBlank(Js, s);
  }

  /** The send button's `disabled`: loading, recording, or a blank input. */
  function SendDisabled(loading: bool, recording: bool, input: string): (d: bool)
    ensures !d <==> !loading && !recording && !IsBlank(Js, input)
  {
    TrimsToEmptyIffBlank(input);
    loading || recording || TrimsToEmpty(input)
  }

  /** The Enter rule of the text box: Enter without Shift submits a non-blank input; nothing else submits. */
  function EnterSubmits(key: string, shift: bool, input: string): (b: bool)
    ensures b <==> key == "Enter" && !shift && !IsBlank(Js, input)
    ensures b ==> key == "Enter"
  {
    TrimsToEmptyIffBlank(input);
    key == "Enter" && !shift && !TrimsToEmpty(input)
  }

  /** Every input the enabled button would send, Enter sends as well. */
  lemma ButtonImpliesEnter(loading: bool, recording: bool, input: string)
    requires !SendDisabled(loading, recording, input)
    ensures EnterSubmits("Enter", false, input)
  {
  }

  /** Enter is not gated on `loading`: a second question can go out while an answer is pending. */
  lemma EnterWhileLoading()
    ensures SendDisabled(true, false, "why?") && EnterSubmits("Enter", false, "why?")
  {
    assert !IsSpace(Js, "why?"[0]);
  }

  /** The intro auto-opens exactly when the stored flag is missing or empty (falsy). */
  predicate IntroDue(stored: Option<string>) {
    stored.None? || stored == Some("")
  }

  class Chat {
    var inputText: string
    var recording: bool
    var transcript: string
    var loading: bool
    var showIntro: bool
    var introSeen: Option<string>
    var sent: seq<Outgoing>

    /** The first render: an empty box, no recording, no transcript, the intro closed. */
    constructor(loading0: bool, stored: Option<string>)
      ensures inputText == "" && !recording && transcript == "" && loading == loading0
      ensures !showIntro && introSeen == stored && sent == []
    {
      inputText, recording, transcript, loading := "", false, "", loading0;
      showIntro, introSeen, sent := false, stored, [];
    }

    /** The mount effect: a falsy flag opens the intro and stores 'true'; a set flag changes nothing. */
    method ShowIntroOnce()
      modifies this
      ensures IntroDue(old(introSeen)) ==> showIntro && introSeen == Some("true")
      ensures !IntroDue(old(introSeen)) ==> showIntro == old(showIntro) && introSeen == old(introSeen)
      ensures !IntroDue(introSeen)
      ensures inputText == old(inputText) && recording == old(recording) && transcript == old(transcript)
      ensures loading == old(loading) && sent == old(sent)
    {
      if introSeen.None? || introSeen == Some("") {
        showIntro := true;
        introSeen := Some("true");
      }
    }

    /** The textarea's onChange; refused while recording, when the box is disabled. */
    method Type(value: string)
      requires !recording
      modifies this
      ensures inputText == value
      ensures recording == old(recording) && transcript == old(transcript) && loading == old(loading)
      ensures showIntro == old(showIntro) && introSeen == old(introSeen) && sent == old(sent)
    {
      inputText := value;
    }

    /**
     * handleTextSubmit: a blank box changes nothing; otherwise the text as
     * typed, untrimmed, is sent and the box is emptied.
     */
    method HandleTextSubmit()
      modifies this
      ensures TrimsToEmpty(old(inputText)) ==> inputText == old(inputText) && sent == old(sent)
      ensures !TrimsToEmpty(old(inputText)) ==> inputText == "" && sent == old(sent) + [TextMessage(old(inputText))]
      ensures recording == old(recording) && transcript == old(transcript) && loading == old(loading)
      ensures showIntro == old(showIntro) && introSeen == old(introSeen)
    {
      if !TrimsToEmpty(inputText) {
        var message := inputText;
        inputText := "";
        sent := sent + [TextMessage(message)];
      }
    }

    /** onKeyDown of the textarea (which receives no keys while recording). */
    method KeyDown(key: string, shift: bool)
      requires !recording
      modifies this
      ensures EnterSubmits(key, shift, old(inputText)) ==>
                inputText == "" && sent == old(sent) + [TextMessage(old(inputText))]
      ensures !EnterSubmits(key, shift, old(inputText)) ==> inputText == old(inputText) && sent == old(sent)
      ensures recording == old(recording) && transcript == old(transcript) && loading == old(loading)
      ensures showIntro == old(showIntro) && introSeen == old(introSeen)
    {
      if key == "Enter" && !shift {
        if !TrimsToEmpty(inputText) {
          HandleTextSubmit();
        }
      }
    }

    /** A click on the send button, which does nothing while it is disabled. */
    method ClickSend()
      modifies this
      ensures SendDisabled(old(loading), old(recording), old(inputText)) ==>
                inputText == old(inputText) && sent == old(sent)
      ensures !SendDisabled(old(loading), old(recording), old(inputText)) ==>
                inputText == "" && sent == old(sent) + [TextMessage(old(inputText))]
      ensures recording == old(recording) && transcript == old(transcript) && loading == old(loading)
      ensures showIntro == old(showIntro) && introSeen == old(introSeen)
    {
      if !(loading || recording || TrimsToEmpty(inputText)) {
        HandleTextSubmit();
      }
    }

    /** handleTranscriptUpdate: the live transcript is replaced. */
    method HandleTranscriptUpdate(newTranscript: string)
      modifies this
      ensures transcript == newTranscript
      ensures inputText == old(inputText) && recording == old(recording) && loading == old(loading)
      ensures showIntro == old(showIntro) && introSeen == old(introSeen) && sent == old(sent)
    {
      transcript := newTranscript;
    }

    /** handleRecordingStart: recording, with the old transcript cleared. */
    method HandleRecordingStart()
      modifies this
      ensures recording && transcript == ""
      ensures inputText == old(inputText) && loading == old(loading)
      ensures showIntro == old(showIntro) && introSeen == old(introSeen) && sent == old(sent)
    {
      recording := true;
      transcript := "";
    }

    /**
     * handleAudioSubmit: recording stops first; a blank transcript is never
     * sent; the transcript is cleared whether the send was skipped, resolved
     * or threw (the error is caught).
     */
    method HandleAudioSubmit(blob: Blob, finalTranscript: string, outcome: CallOutcome)
      modifies this
      ensures !recording && transcript == ""
      ensures sent == old(sent) + (if TrimsToEmpty(finalTranscript) then [] else [AudioMessage(blob, finalTranscript)])
      ensures inputText == old(inputText) && loading == old(loading)
      ensures showIntro == old(showIntro) && introSeen == old(introSeen)
    {
      recording := false;
      if !TrimsToEmpty(finalTranscript) {
        sent := sent + [AudioMessage(blob, finalTranscript)];
      }
      transcript := "";
    }

    /**
     * The older handler (NewModel/frontend/src/components/ChatInterface.jsx):
     * it sends whatever transcript it is given, blank included, and clears
     * the transcript only when the send resolves; a thrown send leaves it.
     * Returns whether the error escaped the handler.
     */
    method LegacyHandleAudioSubmit(blob: Blob, finalTranscript: string, outcome: CallOutcome) returns (escaped: bool)
      modifies this
      ensures !recording
      ensures sent == old(sent) + [AudioMessage(blob, finalTranscript)]
      ensures escaped <==> outcome.Threw?
      ensures transcript == (if outcome.Threw? then old(transcript) else "")
      ensures inputText == old(inputText) && loading == old(loading)
      ensures showIntro == old(showIntro) && introSeen == old(introSeen)
    {
      recording := false;
      sent := sent + [AudioMessage(blob, finalTranscript)];
      if outcome.Threw? {
        return true;
      }
      transcript := "";
      escaped := false;
    }
  }
}
