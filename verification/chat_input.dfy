/**
 * The message composer (components/ChatInput.tsx): a text field and a
 * recording flag. Text is sent only when it is not blank; the voice button
 * starts and stops a (simulated) recording, and stopping sends a voice
 * message with a placeholder media URL.
 */
module ChatInput {
  import opened Types
  import opened Text

  /** The media URL every simulated voice message carries. */
  const MockVoiceUrl := "mock-voice-url"

  /**
   * The arguments of one `onSendMessage(text, type, mediaUrl)` call; a call
   * that leaves `type` out gets the conversation's default, a text message.
   */
  datatype SendRequest = SendRequest(text: string, kind: MessageKind, mediaUrl: Option<string>)

  /** The send button replaces the voice button while the draft is not blank. */
  predicate ShowsSendButton(text: string) {
    Trim(text) != []
  }

  /** What `handleSend` passes on for the draft `text`: the draft itself, untrimmed, when it is not blank. */
  function SendOf(text: string): (r: Option<SendRequest>)
    ensures r.Some? <==> !AllWhitespace(text)
    ensures r.Some? ==> r.value == SendRequest(text, Text, None)
  {
    TrimEmptyIff(text);
    if Trim(text) != [] then Some(SendRequest(text, Text, None)) else None
  }

  /** The send button is offered exactly for the drafts that would be sent. */
  lemma SendButtonIff(text: string)
    ensures ShowsSendButton(text) <==> SendOf(text).Some?
    ensures ShowsSendButton(text) <==> !AllWhitespace(text)
  {
    TrimEmptyIff(text);
  }

  /** The key press takes the send path: Enter without Shift. */
  predicate SubmitsOnKey(key: string, shiftKey: bool) {
    key == "Enter" && !shiftKey
  }

  /** What the voice button sends: nothing when it starts a recording, a voice message when it stops one. */
  function VoiceOf(wasRecording: bool): (r: Option<SendRequest>)
    ensures r.Some? <==> wasRecording
    ensures r.Some? ==> r.value.kind == Voice && r.value.text == [] && r.value.mediaUrl == Some(MockVoiceUrl)
  {
    if wasRecording then Some(SendRequest("", Voice, Some(MockVoiceUrl))) else None
  }

  /** The composer's state: the draft and whether a recording is running. */
  class Composer {
    var text: string
    var isRecording: bool

    constructor ()
      ensures text == [] && !isRecording
    {
      text := [];
      isRecording := false;
    }

    /** The text area's `onChange`. */
    method SetText(value: string)
      modifies this
      ensures text == value && isRecording == old(isRecording)
    {
      text := value;
    }

    /** `handleSend`: send a non-blank draft as typed and clear it; a blank draft stays and nothing is sent. */
    method HandleSend() returns (sent: Option<SendRequest>)
      modifies this
      ensures sent == SendOf(old(text))
      ensures text == if sent.Some? then [] else old(text)
      ensures isRecording == old(isRecording)
    {
      if Trim(text) != [] {
        sent := Some(SendRequest(text, Text, None));
        text := [];
      } else {
        sent := None;
      }
    }

    /** `handleKeyDown`: Enter without Shift behaves as `handleSend`; any other key leaves everything as it is. */
    method HandleKeyDown(key: string, shiftKey: bool) returns (sent: Option<SendRequest>)
      modifies this
      ensures SubmitsOnKey(key, shiftKey) ==> sent == SendOf(old(text))
      ensures !SubmitsOnKey(key, shiftKey) ==> sent == None
      ensures text == if sent.Some? then [] else old(text)
      ensures isRecording == old(isRecording)
    {
      if key == "Enter" && !shiftKey {
        sent := HandleSend();
      } else {
        sent := None;
      }
    }

    /** `handleVoiceRecord`: flip the recording flag; stopping a recording sends the voice message. */
    method HandleVoiceRecord() returns (sent: Option<SendRequest>)
      modifies this
      ensures isRecording == !old(isRecording)
      ensures sent == VoiceOf(old(isRecording))
      ensures text == old(text)
    {
      var wasRecording := isRecording;
      isRecording := !isRecording;
      if !wasRecording {
        sent := None;
      } else {
        sent := Some(SendRequest("", Voice, Some(MockVoiceUrl)));
      }
    }
  }
}
