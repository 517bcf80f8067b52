/**
 * How the speech recogniser's handlers act on the conversation: interim text goes
 * to the input field, error notices join the messages, the end of a session clears
 * the input, and the collected transcript is sent on its own, with the reply read
 * aloud and never as a retry.
 */
module VoiceInput {
  import opened Wrappers
  import opened Strings
  import opened Messages
  import opened PromptBuilder
  import opened SpeechCapture
  import opened Conversation

  /** The text `onresult` puts in the input field, if any. */
  function ShownInterim(results: seq<SpeechResult>): Option<string> {
    match ScanAll(results)
    case None => None
    case Some(st) => if Trim(st.interim) != "" then Some(Trim(st.interim)) else None
  }

  /** `onresult`: the recogniser's state advances and non-blank interim text replaces the input. */
  method ResultArrived(chat: ChatSession, rec: Recognizer, now: int, results: seq<SpeechResult>)
    requires chat.Valid() && rec.Valid()
    modifies chat, rec
    ensures chat.Valid() && rec.Valid()
    ensures chat.input == (if ShownInterim(results).Some? then ShownInterim(results).value else old(chat.input))
    ensures chat.messages == old(chat.messages) && chat.waitingForRetry == old(chat.waitingForRetry)
    ensures chat.isSending == old(chat.isSending)
    ensures chat.currentFeature == old(chat.currentFeature) && chat.isAutoSpeaking == old(chat.isAutoSpeaking)
    ensures chat.isLoadingHistory == old(chat.isLoadingHistory)
    ensures rec.hasDetectedSpeech && rec.lastSpeechTime == now && rec.listening == old(rec.listening)
    ensures ScanAll(results).None? ==>
      rec.completeTranscript == old(rec.completeTranscript) && rec.silenceCheckAt == old(rec.silenceCheckAt)
    ensures ScanAll(results).Some? ==>
      && rec.completeTranscript == old(rec.completeTranscript) + ScanAll(results).value.finalText
      && rec.silenceCheckAt == Some(now + SilenceDelay)
  {
    var display := rec.OnResult(now, results);
    if display.Some? {
      chat.SetInput(display.value);
    }
  }

  /** `onerror`: listening stops, the error's notice (if it has one) joins the messages. */
  method ErrorArrived(chat: ChatSession, rec: Recognizer, kind: ErrorKind) returns (restartScheduled: bool)
    requires chat.Valid()
    modifies chat, rec
    ensures chat.Valid() && !rec.listening
    ensures chat.messages == old(chat.messages) + (if ErrorNotice(kind).Some? then [AiMessage(ErrorNotice(kind).value)] else [])
    ensures restartScheduled == kind.NoSpeech?
    ensures chat.input == old(chat.input) && chat.waitingForRetry == old(chat.waitingForRetry)
    ensures chat.isSending == old(chat.isSending) && chat.currentFeature == old(chat.currentFeature)
    ensures chat.isAutoSpeaking == old(chat.isAutoSpeaking) && chat.isLoadingHistory == old(chat.isLoadingHistory)
    ensures rec.completeTranscript == old(rec.completeTranscript) && rec.hasDetectedSpeech == old(rec.hasDetectedSpeech)
    ensures rec.lastSpeechTime == old(rec.lastSpeechTime) && rec.silenceCheckAt == old(rec.silenceCheckAt)
  {
    var notice;
    notice, restartScheduled := rec.OnError(kind);
    if notice.Some? {
      chat.AddNotice(notice.value);
    }
  }

  /** `onend`: listening stops and the input is cleared at once. */
  method SessionEnded(chat: ChatSession, rec: Recognizer)
    requires chat.Valid()
    modifies chat, rec
    ensures chat.Valid() && !rec.listening && rec.silenceCheckAt.None?
    ensures chat.input == ""
    ensures chat.messages == old(chat.messages) && chat.waitingForRetry == old(chat.waitingForRetry)
    ensures chat.isSending == old(chat.isSending) && chat.currentFeature == old(chat.currentFeature)
    ensures chat.isAutoSpeaking == old(chat.isAutoSpeaking) && chat.isLoadingHistory == old(chat.isLoadingHistory)
    ensures rec.completeTranscript == old(rec.completeTranscript) && rec.hasDetectedSpeech == old(rec.hasDetectedSpeech)
    ensures rec.lastSpeechTime == old(rec.lastSpeechTime)
  {
    rec.OnEnd();
    chat.SetInput("");
  }

  /** What the auto-send after `onend` sends: the trimmed transcript, when speech gave one. */
  function VoiceText(transcript: string, hasDetectedSpeech: bool): Option<string> {
    if Trim(transcript) != "" && hasDetectedSpeech then Some(Trim(transcript)) else None
  }

  /**
   * The auto-send 200 ms after `onend`: the transcript, when there is one, is sent
   * with the reply to be spoken and without the retry flag, so an awaited retry is
   * only ever replaced by a new mistake, never cleared; the input is left alone; the
   * recogniser's transcript is reset either way.
   */
  method AutoSend(chat: ChatSession, rec: Recognizer, o: SendOutcome, mistakeId: string)
    returns (request: Option<Request>)
    requires chat.Valid()
    modifies chat, rec
    ensures chat.Valid() && rec.Valid()
    ensures rec.completeTranscript == "" && !rec.hasDetectedSpeech
    ensures rec.listening == old(rec.listening) && rec.lastSpeechTime == old(rec.lastSpeechTime)
    ensures rec.silenceCheckAt == old(rec.silenceCheckAt)
    ensures chat.input == old(chat.input) && chat.currentFeature == old(chat.currentFeature)
    ensures chat.isLoadingHistory == old(chat.isLoadingHistory)
    ensures VoiceText(old(rec.completeTranscript), old(rec.hasDetectedSpeech)).None? ==>
      && chat.messages == old(chat.messages) && chat.waitingForRetry == old(chat.waitingForRetry) && request.None?
      && chat.isSending == old(chat.isSending) && chat.isAutoSpeaking == old(chat.isAutoSpeaking)
    ensures VoiceText(old(rec.completeTranscript), old(rec.hasDetectedSpeech)).Some? ==>
      var t := VoiceText(old(rec.completeTranscript), old(rec.hasDetectedSpeech)).value;
      && chat.messages == old(chat.messages) + [UserMessage(t), ReplyMessage(o, t, mistakeId)]
      && !chat.isSending && chat.isAutoSpeaking
      && request == RequestSent(o, old(chat.currentFeature), t, false)
      && chat.waitingForRetry ==
           (if ReplyMessage(o, t, mistakeId).mistake.Some? && mistakeId != "" then Some(mistakeId)
            else old(chat.waitingForRetry))
  {
    var send := rec.FlushTranscript();
    request := None;
    if send.Some? {
      request := chat.SendMessage(send.value, true, false, o, mistakeId);
    }
  }

  /**
   * Speaking to the tutor gets the answer read aloud: after a voice message is sent,
   * the speak-back effect speaks exactly the reply (or error notice) that replaced
   * the typing placeholder.
   */
  method AutoSendAndSpeak(chat: ChatSession, rec: Recognizer, o: SendOutcome, mistakeId: string)
    returns (spoken: Option<string>)
    requires chat.Valid()
    modifies chat, rec
    ensures chat.Valid()
    ensures VoiceText(old(rec.completeTranscript), old(rec.hasDetectedSpeech)).Some? ==>
      var t := VoiceText(old(rec.completeTranscript), old(rec.hasDetectedSpeech)).value;
      spoken == Some(ReplyMessage(o, t, mistakeId).text) && !chat.isAutoSpeaking
  {
    var request := AutoSend(chat, rec, o, mistakeId);
    spoken := chat.SpeakIfDue();
  }
}
