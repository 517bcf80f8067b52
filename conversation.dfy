/**
 * The chat widget's conversation state and the handlers that change it:
 * sending a message (`sendMessage`, split at its first await into the part that
 * runs at once and the part that runs when the services have answered), loading
 * a feature's history, the Enter key, a feature switch and the retry reset.
 * Service answers, the clock-derived mistake ids and the recogniser's listening
 * flag are arguments.
 */
module Conversation {
  import opened Wrappers
  import opened Strings
  import opened Messages
  import opened ResponseParser
  import opened PromptBuilder

  // ---------------------------------------------------------------- service outcomes

  /** What the language-model call produced. */
  datatype Reply =
    | Answer(text: Option<string>)          // `ok`, with the first candidate's text if there is one
    | HttpError(status: nat, message: Option<string>)
    | Failure(reason: string)               // an exception with this message on the way

  /** Everything `sendMessage` learns from the outside world after its first await. */
  datatype SendOutcome = SendOutcome(history: Option<seq<Record>>, apiKeyConfigured: bool, reply: Reply)

  const ErrorPrefix: string := "Error: "
  const MissingKeyText: string := "API key is not configured."
  const NoAnswerText: string := "Could not get a valid response from the AI."

  /** An error notice: a settled tutor message without a correction whose text starts with `Error: `. */
  function ErrorMessage(reason: string): (m: Message)
    ensures m.sender == Ai && !m.isTyping && m.mistake.None?
    ensures StartsWith(m.text, ErrorPrefix)
  {
    assert (ErrorPrefix + reason)[..|ErrorPrefix|] == ErrorPrefix;
    AiMessage(ErrorPrefix + reason)
  }

  const ApiErrorLabel: string := "API Error: "
  const StatusSeparator: string := " - "

  /** The service's own error message, or `Unknown error` when it gave none. */
  function ServiceDetail(message: Option<string>): string {
    if message.Some? && message.value != "" then message.value else "Unknown error"
  }

  function HttpErrorText(status: nat, message: Option<string>): string {
    ApiErrorLabel + NatToString(status) + (StatusSeparator + ServiceDetail(message))
  }

  /** The notice names the failing status legibly: different statuses never give the same text. */
  lemma HttpErrorNamesStatus(s1: nat, m1: Option<string>, s2: nat, m2: Option<string>)
    requires HttpErrorText(s1, m1) == HttpErrorText(s2, m2)
    ensures s1 == s2
  {
    var d1, d2 := NatToString(s1), NatToString(s2);
    var r1, r2 := StatusSeparator + ServiceDetail(m1), StatusSeparator + ServiceDetail(m2);
    assert r1[0] == ' ' && r2[0] == ' ';
    DigitsBeforeSpace(ApiErrorLabel, d1, r1, d2, r2);
    NatToStringInjective(s1, s2);
  }

  /** The one message `sendMessage` leaves in place of the typing placeholder. */
  function ReplyMessage(o: SendOutcome, text: string, mistakeId: string): (m: Message)
    ensures m.sender == Ai && !m.isTyping
  {
    if !o.apiKeyConfigured then ErrorMessage(MissingKeyText)
    else
      match o.reply
      case HttpError(status, message) => ErrorMessage(HttpErrorText(status, message))
      case Failure(reason) => ErrorMessage(reason)
      case Answer(t) =>
        if t.None? || t.value == "" then ErrorMessage(NoAnswerText)
        else ParseResponse(t.value, text, mistakeId)
  }

  /**
   * A reply marks a mistake exactly when the key is configured and the service
   * answered with a non-empty text that starts with the mistake marker; every other
   * outcome is an error notice or a plain reply.
   */
  lemma ReplyMistakeIff(o: SendOutcome, text: string, mistakeId: string)
    ensures ReplyMessage(o, text, mistakeId).mistake.Some? <==>
      o.apiKeyConfigured && o.reply.Answer? && o.reply.text.Some? && o.reply.text.value != ""
      && StartsWith(o.reply.text.value, MistakeMarker)
    ensures ReplyMessage(o, text, mistakeId).mistake.Some? ==>
      ReplyMessage(o, text, mistakeId).mistake.value.originalText == text
      && ReplyMessage(o, text, mistakeId).mistake.value.mistakeId == mistakeId
  {
    if !o.apiKeyConfigured || !o.reply.Answer? || o.reply.text.None? || o.reply.text.value == "" {
      assert ReplyMessage(o, text, mistakeId).mistake.None?;
    } else if StartsWith(o.reply.text.value, MistakeMarker) {
      MistakeReply(o.reply.text.value, text, mistakeId);
    }
  }

  /** Every failure is reported as a message starting with `Error: `, the key check first. */
  lemma FailuresAreReported(o: SendOutcome, text: string, mistakeId: string)
    requires !o.apiKeyConfigured || !o.reply.Answer? || o.reply.text.None? || o.reply.text.value == ""
    ensures StartsWith(ReplyMessage(o, text, mistakeId).text, ErrorPrefix)
    ensures !o.apiKeyConfigured ==> ReplyMessage(o, text, mistakeId) == ErrorMessage(MissingKeyText)
    ensures ReplyMessage(o, text, mistakeId).mistake.None?
  {
    var m := ReplyMessage(o, text, mistakeId);
    assert exists reason :: m == ErrorMessage(reason);
  }

  /** The request `sendMessage` sends: none when the key is missing. */
  function RequestSent(o: SendOutcome, f: Feature, text: string, isRetry: bool): (r: Option<Request>)
    ensures r.Some? <==> o.apiKeyConfigured
  {
    if o.apiKeyConfigured then Some(BuildRequest(o.history, f, text, isRetry)) else None
  }

  // ---------------------------------------------------------------- history rows

  /** What the history query produced. */
  datatype LoadResult = QueryError | Threw | Rows(rows: seq<Record>)

  /** The content of the row before `i` when that row is the user's, else empty. */
  function PrecedingUserInput(rows: seq<Record>, i: nat): string
    requires i < |rows|
  {
    if i > 0 && rows[i - 1].sender == "user" then rows[i - 1].content else ""
  }

  /**
   * The message a history row becomes: user rows verbatim; tutor rows parsed when
   * they contain either marker (with the preceding user row as the original text),
   * verbatim otherwise.
   */
  function RowMessage(rows: seq<Record>, i: nat, mistakeId: string): (m: Message)
    requires i < |rows|
    ensures m.sender == (if rows[i].sender == "user" then User else Ai) && !m.isTyping
    ensures m.mistake.Some? ==> rows[i].sender != "user" && StartsWith(rows[i].content, MistakeMarker)
  {
    var content := rows[i].content;
    if rows[i].sender == "user" then UserMessage(content)
    else if Contains(content, MistakeMarker) || Contains(content, NoMistakeMarker) then
      ParseResponse(content, PrecedingUserInput(rows, i), mistakeId)
    else AiMessage(content)
  }

  /** One message per row, in order; `idAt(i)` is the mistake id the clock gives row `i`. */
  function HistoryMessages(rows: seq<Record>, idAt: nat -> string): (ms: seq<Message>)
    ensures |ms| == |rows|
    ensures forall i :: 0 <= i < |rows| ==> ms[i] == RowMessage(rows, i, idAt(i))
  {
    seq(|rows|, i requires 0 <= i < |rows| => RowMessage(rows, i, idAt(i)))
  }

  /**
   * The marker test before parsing a tutor row changes nothing: a row with neither
   * marker cannot start with one, so parsing it would have shown it verbatim too.
   */
  lemma TutorRowsAreParsed(rows: seq<Record>, i: nat, mistakeId: string)
    requires i < |rows| && rows[i].sender != "user"
    ensures RowMessage(rows, i, mistakeId) == ParseResponse(rows[i].content, PrecedingUserInput(rows, i), mistakeId)
  {
    var content := rows[i].content;
    StartsWithContains(content, MistakeMarker);
    StartsWithContains(content, NoMistakeMarker);
    if !(Contains(content, MistakeMarker) || Contains(content, NoMistakeMarker)) {
      UnmarkedReply(content, PrecedingUserInput(rows, i), mistakeId);
    }
  }

  /** Restored history holds no typing placeholder, and every restored mistake asks for a retry. */
  lemma HistoryIsSettled(rows: seq<Record>, idAt: nat -> string)
    ensures NoTyping(HistoryMessages(rows, idAt))
    ensures forall i :: 0 <= i < |rows| && HistoryMessages(rows, idAt)[i].mistake.Some? ==>
      rows[i].sender != "user" && StartsWith(rows[i].content, MistakeMarker)
      && HistoryMessages(rows, idAt)[i].mistake.value.isRetryPrompt
      && HistoryMessages(rows, idAt)[i].mistake.value.originalText == PrecedingUserInput(rows, i)
  {
    var ms := HistoryMessages(rows, idAt);
    forall i | 0 <= i < |rows|
      ensures !ms[i].isTyping
      ensures ms[i].mistake.Some? ==>
        rows[i].sender != "user" && StartsWith(rows[i].content, MistakeMarker)
        && ms[i].mistake.value.isRetryPrompt && ms[i].mistake.value.originalText == PrecedingUserInput(rows, i)
    {
      if rows[i].sender != "user" {
        TutorRowsAreParsed(rows, i, idAt(i));
        if StartsWith(rows[i].content, MistakeMarker) {
          MistakeReply(rows[i].content, PrecedingUserInput(rows, i), idAt(i));
        }
      }
    }
  }

  /** The conversation a signed-in history load leaves, given the one before it. */
  function Restored(before: seq<Message>, result: LoadResult, idAt: nat -> string): seq<Message> {
    match result
    case QueryError => before
    case Threw => [AiMessage(GreetingText)]
    case Rows(rows) => if rows == [] then [AiMessage(GreetingText)] else HistoryMessages(rows, idAt)
  }

  /** When a key press sends the input: Enter, not already sending, non-blank input. */
  predicate EnterSends(key: string, isSending: bool, input: string) {
    key == "Enter" && !isSending && Trim(input) != ""
  }

  // ---------------------------------------------------------------- the session

  class ChatSession {
    var messages: seq<Message>
    var input: string
    var isSending: bool
    var isAutoSpeaking: bool
    var isLoadingHistory: bool
    /** The mistake id a retry is awaited for (`null` as `None`). */
    var waitingForRetry: Option<string>
    var currentFeature: Feature

    /**
     * Outside a send in flight no typing placeholder is shown, and an awaited retry
     * always names a non-empty mistake id.
     */
    predicate Valid()
      reads this
    {
      NoTyping(messages) && (waitingForRetry.Some? ==> waitingForRetry.value != "")
    }

    /** The widget's initial state. */
    constructor()
      ensures Valid()
      ensures messages == [] && input == "" && !isSending && !isAutoSpeaking && !isLoadingHistory
      ensures waitingForRetry.None? && currentFeature == FreeTalk
    {
      messages := [];
      input := "";
      isSending := false;
      isAutoSpeaking := false;
      isLoadingHistory := false;
      waitingForRetry := None;
      currentFeature := FreeTalk;
    }

    /**
     * The part of `sendMessage(text, autoSpeak, isRetry)` that runs before the first
     * await: nothing for blank text; otherwise the user's message is shown, the input
     * cleared unless speaking automatically, sending starts, and a retry clears the
     * awaited mistake.
     */
    method BeginSend(text: string, autoSpeak: bool, isRetry: bool) returns (started: bool)
      requires Valid()
      modifies this
      ensures Valid()
      ensures started == (Trim(text) != "")
      ensures !started ==> unchanged(this)
      ensures started ==>
        && messages == old(messages) + [UserMessage(text)]
        && input == (if autoSpeak then old(input) else "")
        && isSending
        && isAutoSpeaking == (autoSpeak || old(isAutoSpeaking))
        && waitingForRetry == (if isRetry then None else old(waitingForRetry))
        && currentFeature == old(currentFeature) && isLoadingHistory == old(isLoadingHistory)
    {
      if Trim(text) == "" {
        return false;
      }
      started := true;
      messages := messages + [UserMessage(text)];
      if !autoSpeak {
        input := "";
      }
      isSending := true;
      if autoSpeak {
        isAutoSpeaking := true;
      }
      if isRetry {
        waitingForRetry := None;
      }
    }

    /**
     * The rest of `sendMessage`: the typing placeholder is shown, the request is built
     * from the stored history and sent when the key is configured (the request is
     * returned, or `None` when nothing was sent), the placeholder is replaced by the
     * reply or an error notice, a detected mistake becomes the awaited one, and
     * sending stops.
     */
    method FinishSend(text: string, isRetry: bool, o: SendOutcome, mistakeId: string)
      returns (request: Option<Request>)
      requires Valid()
      modifies this
      ensures Valid()
      ensures messages == old(messages) + [ReplyMessage(o, text, mistakeId)]
      ensures !isSending
      ensures waitingForRetry ==
        (if ReplyMessage(o, text, mistakeId).mistake.Some? && mistakeId != "" then Some(mistakeId)
         else old(waitingForRetry))
      ensures request == RequestSent(o, old(currentFeature), text, isRetry)
      ensures input == old(input) && currentFeature == old(currentFeature)
      ensures isAutoSpeaking == old(isAutoSpeaking) && isLoadingHistory == old(isLoadingHistory)
    {
      var reply := ReplyMessage(o, text, mistakeId);
      request := RequestSent(o, currentFeature, text, isRetry);
      if reply.mistake.Some? && mistakeId != "" {
        waitingForRetry := Some(mistakeId);
      }
      ShowReply(reply);
    }

    /** The typing placeholder appears and is then replaced by `reply`; sending stops. */
    method ShowReply(reply: Message)
      requires Valid() && !reply.isTyping
      modifies this
      ensures Valid()
      ensures messages == old(messages) + [reply] && !isSending
      ensures input == old(input) && currentFeature == old(currentFeature) && waitingForRetry == old(waitingForRetry)
      ensures isAutoSpeaking == old(isAutoSpeaking) && isLoadingHistory == old(isLoadingHistory)
    {
      var before := messages;
      messages := messages + [TypingPlaceholder];
      WithoutTypingConcat(before, [TypingPlaceholder]);
      WithoutTypingKeeps(before);
      assert WithoutTyping([TypingPlaceholder]) == [];
      messages := WithoutTyping(messages) + [reply];
      isSending := false;
    }

    /**
     * `sendMessage` as a whole: blank text changes nothing; otherwise the conversation
     * grows by exactly the user's message and one reply, and no placeholder remains.
     */
    method SendMessage(text: string, autoSpeak: bool, isRetry: bool, o: SendOutcome, mistakeId: string)
      returns (request: Option<Request>)
      requires Valid()
      modifies this
      ensures Valid()
      ensures Trim(text) == "" ==> unchanged(this) && request.None?
      ensures Trim(text) != "" ==>
        && messages == old(messages) + [UserMessage(text), ReplyMessage(o, text, mistakeId)]
        && !isSending
        && input == (if autoSpeak then old(input) else "")
        && waitingForRetry ==
             (if ReplyMessage(o, text, mistakeId).mistake.Some? && mistakeId != "" then Some(mistakeId)
              else if isRetry then None else old(waitingForRetry))
        && request == RequestSent(o, old(currentFeature), text, isRetry)
        && isAutoSpeaking == (autoSpeak || old(isAutoSpeaking))
      ensures currentFeature == old(currentFeature) && isLoadingHistory == old(isLoadingHistory)
    {
      var started := BeginSend(text, autoSpeak, isRetry);
      if !started {
        return None;
      }
      request := FinishSend(text, isRetry, o, mistakeId);
    }

    /**
     * `loadChatHistory(feature)`: nothing without a signed-in user; a query error
     * leaves the messages alone; a thrown error or an empty history shows only the
     * greeting; otherwise the rows become the conversation, one message each, with
     * `idAt` giving the mistake id the clock supplies to row `i`.
     */
    method LoadChatHistory(signedIn: bool, result: LoadResult, idAt: nat -> string)
      requires Valid()
      modifies this
      ensures Valid()
      ensures !signedIn ==> unchanged(this)
      ensures signedIn ==> !isLoadingHistory
      ensures signedIn ==> messages == Restored(old(messages), result, idAt)
      ensures input == old(input) && isSending == old(isSending) && waitingForRetry == old(waitingForRetry)
      ensures currentFeature == old(currentFeature) && isAutoSpeaking == old(isAutoSpeaking)
    {
      if !signedIn {
        return;
      }
      isLoadingHistory := true;
      match result {
        case QueryError =>
        case Threw =>
          messages := [AiMessage(GreetingText)];
        case Rows(rows) =>
          if rows == [] {
            messages := [AiMessage(GreetingText)];
          } else {
            var restored: seq<Message> := [];
            var i := 0;
            while i < |rows|
              invariant 0 <= i <= |rows|
              invariant |restored| == i
              invariant forall k :: 0 <= k < i ==> restored[k] == RowMessage(rows, k, idAt(k))
            {
              var record := rows[i];
              var m: Message;
              if record.sender == "user" {
                m := UserMessage(record.content);
              } else if Contains(record.content, MistakeMarker) || Contains(record.content, NoMistakeMarker) {
                var userInput := "";
                if i > 0 && rows[i - 1].sender == "user" {
                  userInput := rows[i - 1].content;
                }
                m := ParseResponse(record.content, userInput, idAt(i));
              } else {
                m := AiMessage(record.content);
              }
              restored := restored + [m];
              i := i + 1;
            }
            assert restored == HistoryMessages(rows, idAt);
            HistoryIsSettled(rows, idAt);
            messages := restored;
          }
      }
      isLoadingHistory := false;
    }

    /** The Enter key sends the input, as a retry when one is awaited, unless sending or blank. */
    method HandleKeyPress(key: string, o: SendOutcome, mistakeId: string) returns (request: Option<Request>)
      requires Valid()
      modifies this
      ensures Valid()
      ensures !EnterSends(key, old(isSending), old(input)) ==> unchanged(this) && request.None?
      ensures EnterSends(key, old(isSending), old(input)) ==>
        && messages == old(messages) + [UserMessage(old(input)), ReplyMessage(o, old(input), mistakeId)]
        && input == ""
        && !isSending
        && waitingForRetry ==
             (if ReplyMessage(o, old(input), mistakeId).mistake.Some? && mistakeId != "" then Some(mistakeId) else None)
        && request == RequestSent(o, old(currentFeature), old(input), old(waitingForRetry).Some?)
        && isAutoSpeaking == old(isAutoSpeaking)
      ensures currentFeature == old(currentFeature) && isLoadingHistory == old(isLoadingHistory)
    {
      request := None;
      if EnterSends(key, isSending, input) {
        var isRetry := waitingForRetry.Some?;
        request := SendMessage(input, false, isRetry, o, mistakeId);
      }
    }

    /**
     * A feature switch: the feature changes, its history is loaded, the input is
     * cleared, and capture is to be stopped when listening. The awaited retry is
     * left as it was.
     */
    method HandleFeatureClick(f: Feature, signedIn: bool, result: LoadResult, idAt: nat -> string, listening: bool)
      returns (stopCapture: bool)
      requires Valid()
      modifies this
      ensures Valid()
      ensures currentFeature == f && input == "" && stopCapture == listening
      ensures waitingForRetry == old(waitingForRetry) && isSending == old(isSending)
      ensures signedIn ==> messages == Restored(old(messages), result, idAt)
      ensures !signedIn ==> messages == old(messages)
      ensures isAutoSpeaking == old(isAutoSpeaking)
      ensures isLoadingHistory == (if signedIn then false else old(isLoadingHistory))
    {
      currentFeature := f;
      LoadChatHistory(signedIn, result, idAt);
      input := "";
      stopCapture := listening;
    }

    /** `handleRetryAttempt`: the input is cleared and no retry is awaited any more. */
    method HandleRetryAttempt()
      requires Valid()
      modifies this
      ensures Valid()
      ensures input == "" && waitingForRetry.None?
      ensures messages == old(messages) && isSending == old(isSending) && currentFeature == old(currentFeature)
      ensures isAutoSpeaking == old(isAutoSpeaking) && isLoadingHistory == old(isLoadingHistory)
    {
      input := "";
      waitingForRetry := None;
    }

    /** A notice from the speech handlers, added to the conversation (`setMessages(prev => [...prev, notice])`). */
    method AddNotice(text: string)
      requires Valid()
      modifies this
      ensures Valid()
      ensures messages == old(messages) + [AiMessage(text)]
      ensures input == old(input) && isSending == old(isSending) && waitingForRetry == old(waitingForRetry)
      ensures currentFeature == old(currentFeature)
      ensures isAutoSpeaking == old(isAutoSpeaking) && isLoadingHistory == old(isLoadingHistory)
    {
      messages := messages + [AiMessage(text)];
    }

    /**
     * The effect that reads replies aloud: when speaking is requested and the last
     * message is a settled tutor message, its text is spoken and the request
     * withdrawn; otherwise nothing happens.
     */
    method SpeakIfDue() returns (spoken: Option<string>)
      requires Valid()
      modifies this
      ensures Valid()
      ensures spoken.Some? <==> old(isAutoSpeaking) && |messages| > 0 && messages[|messages| - 1].sender == Ai
      ensures spoken.Some? ==> spoken.value == messages[|messages| - 1].text && !isAutoSpeaking
      ensures spoken.None? ==> isAutoSpeaking == old(isAutoSpeaking)
      ensures messages == old(messages) && input == old(input) && isSending == old(isSending)
      ensures waitingForRetry == old(waitingForRetry) && currentFeature == old(currentFeature)
      ensures isLoadingHistory == old(isLoadingHistory)
    {
      spoken := None;
      if isAutoSpeaking && |messages| > 0 {
        var last := messages[|messages| - 1];
        if last.sender == Ai && !last.isTyping {
          spoken := Some(last.text);
          isAutoSpeaking := false;
        }
      }
    }

    method SetInput(text: string)
      requires Valid()
      modifies this
      ensures Valid()
      ensures input == text
      ensures messages == old(messages) && isSending == old(isSending) && waitingForRetry == old(waitingForRetry)
      ensures currentFeature == old(currentFeature)
      ensures isAutoSpeaking == old(isAutoSpeaking) && isLoadingHistory == old(isLoadingHistory)
    {
      input := text;
    }
  }
}
