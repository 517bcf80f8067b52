/**
 * What the chat widget shows and offers for a given state: the primary button's
 * action, which controls are disabled, the input placeholder, the correction
 * controls under a reply, and the explanation modal's content.
 */
module ChatView {
  import opened Wrappers
  import opened Strings
  import opened Messages
  import opened Conversation

  // ---------------------------------------------------------------- input row

  /** What the round button beside the input does. */
  datatype PrimaryAction =
    | StopCapture
    | Send(text: string, isRetry: bool)
    | StartCapture

  /** Stop while listening; otherwise send non-blank input (as a retry when one is awaited); otherwise start listening. */
  function PrimaryButtonAction(listening: bool, input: string, waitingForRetry: Option<string>): PrimaryAction {
    if listening then StopCapture
    else if Trim(input) != "" then Send(input, waitingForRetry.Some?)
    else StartCapture
  }

  /** The text field refuses typing while a send is in flight or while listening. */
  predicate InputDisabled(isSending: bool, listening: bool) {
    isSending || listening
  }

  /** The button is refused only while a send is in flight. */
  predicate ButtonDisabled(isSending: bool) {
    isSending
  }

  /**
   * The button and the Enter key agree: outside capture, when nothing is being
   * sent, the button sends exactly when Enter would, the same text with the same
   * retry flag.
   */
  lemma ButtonAgreesWithEnter(isSending: bool, input: string, waitingForRetry: Option<string>)
    requires !isSending
    ensures PrimaryButtonAction(false, input, waitingForRetry).Send? <==> EnterSends("Enter", isSending, input)
    ensures PrimaryButtonAction(false, input, waitingForRetry).Send? ==>
      PrimaryButtonAction(false, input, waitingForRetry) == Send(input, waitingForRetry.Some?)
  {
  }

  /**
   * Listening never locks the user in: while listening and not sending, the text
   * field is disabled but the button is enabled and stops capture; and whenever the
   * field accepts text that is not blank, the button sends it.
   */
  lemma ControlsStayUsable(isSending: bool, listening: bool, input: string, waitingForRetry: Option<string>)
    ensures listening && !isSending ==>
      InputDisabled(isSending, listening) && !ButtonDisabled(isSending)
      && PrimaryButtonAction(listening, input, waitingForRetry) == StopCapture
    ensures !InputDisabled(isSending, listening) && Trim(input) != "" ==>
      !ButtonDisabled(isSending) && PrimaryButtonAction(listening, input, waitingForRetry).Send?
    ensures PrimaryButtonAction(listening, input, waitingForRetry) == StartCapture <==>
      !listening && Trim(input) == ""
  {
  }

  const RetryPlaceholder: string := "Попробуйте сказать это снова..."

  function FeaturePlaceholder(f: Feature): string {
    match f
    case Vocabulary => "Type a word or ask for a new one..."
    case Mistakes => "Paste text to review for mistakes..."
    case Grammar => "Ask a grammar question or provide a sentence..."
    case FreeTalk => "Type your English here..."
  }

  /** The retry prompt while a (truthy) mistake id is awaited, the feature's hint otherwise. */
  function Placeholder(waitingForRetry: Option<string>, f: Feature): string {
    if waitingForRetry.Some? && waitingForRetry.value != "" then RetryPlaceholder else FeaturePlaceholder(f)
  }

  /** In a valid session the retry prompt is shown exactly when a retry is awaited. */
  lemma PlaceholderTracksRetry(waitingForRetry: Option<string>, f: Feature)
    requires waitingForRetry.Some? ==> waitingForRetry.value != ""
    ensures Placeholder(waitingForRetry, f) == RetryPlaceholder <==> waitingForRetry.Some?
  {
    assert |RetryPlaceholder| == 31;
    match f {
      case Vocabulary => assert |FeaturePlaceholder(f)| == 35;
      case Mistakes => assert |FeaturePlaceholder(f)| == 36;
      case Grammar => assert |FeaturePlaceholder(f)| == 47;
      case FreeTalk => assert |FeaturePlaceholder(f)| == 25;
    }
  }

  // ---------------------------------------------------------------- correction controls

  /** A reply shows the explain button when it carries a mistake with a (truthy) id. */
  predicate ExplainButtonShown(m: Message) {
    m.mistake.Some? && m.mistake.value.mistakeId != ""
  }

  /** The "say it again" hint shows under the explain button of the reply whose retry is awaited. */
  predicate RetryHintShown(m: Message, waitingForRetry: Option<string>) {
    ExplainButtonShown(m) && waitingForRetry == Some(m.mistake.value.mistakeId)
  }

  /**
   * After a send that detected a mistake under a fresh id, the new reply shows both
   * the explain button and the retry hint; a hint is never shown when no retry is
   * awaited (as after `handleRetryAttempt`).
   */
  lemma DetectedMistakeAwaitsRetry(o: SendOutcome, text: string, mistakeId: string)
    requires ReplyMessage(o, text, mistakeId).mistake.Some? && mistakeId != ""
    ensures ExplainButtonShown(ReplyMessage(o, text, mistakeId))
    ensures RetryHintShown(ReplyMessage(o, text, mistakeId), Some(mistakeId))
    ensures forall m: Message :: !RetryHintShown(m, None)
  {
    ReplyMistakeIff(o, text, mistakeId);
  }

  // ---------------------------------------------------------------- explanation modal

  /** `messages.find(m => m.mistakeId === id)`, as an index: the first message carrying `id`. */
  function FindByMistakeId(ms: seq<Message>, id: string, from: nat): (r: Option<nat>)
    requires from <= |ms|
    decreases |ms| - from
    ensures r.Some? ==> from <= r.value < |ms| && ms[r.value].mistake.Some? && ms[r.value].mistake.value.mistakeId == id
    ensures r.Some? ==> forall k :: from <= k < r.value ==> !(ms[k].mistake.Some? && ms[k].mistake.value.mistakeId == id)
    ensures r.None? ==> forall k :: from <= k < |ms| ==> !(ms[k].mistake.Some? && ms[k].mistake.value.mistakeId == id)
  {
    if from == |ms| then None
    else if ms[from].mistake.Some? && ms[from].mistake.value.mistakeId == id then Some(from)
    else FindByMistakeId(ms, id, from + 1)
  }

  /** The explanation the modal gives. */
  datatype ExplanationBody =
    | InRussian(text: string)
    | EnglishWithNotice(text: string)   // with the notice that no translation is available
    | Unavailable                       // with the suggestion to ask the tutor in Russian

  datatype ModalView = ModalView(original: string, corrected: string, body: ExplanationBody)

  function Body(m: Mistake): (b: ExplanationBody)
    ensures b.InRussian? <==> m.explanationRussian != ""
    ensures b.EnglishWithNotice? <==> m.explanationRussian == "" && m.explanation != ""
    ensures !b.Unavailable? ==> b.text != ""
  {
    if m.explanationRussian != "" then InRussian(m.explanationRussian)
    else if m.explanation != "" then EnglishWithNotice(m.explanation)
    else Unavailable
  }

  /**
   * What the explanation modal renders: nothing while closed; once opened with a
   * truthy id, the overlay with its title and close button, holding the mistake's
   * view when some message carries the id and nothing inside when none does.
   */
  datatype ModalState = Closed | OpenEmpty | OpenWith(view: ModalView)

  /** The modal for the id it was opened with (`showMistakeExplanation`). */
  function Modal(ms: seq<Message>, shown: Option<string>): (r: ModalState)
    ensures r.Closed? <==> shown.None? || shown.value == ""
    ensures r.OpenWith? <==> (shown.Some? && shown.value != "" &&
      exists k :: 0 <= k < |ms| && ms[k].mistake.Some? && ms[k].mistake.value.mistakeId == shown.value)
    ensures r.OpenEmpty? <==> (shown.Some? && shown.value != "" &&
      forall k :: 0 <= k < |ms| ==> !(ms[k].mistake.Some? && ms[k].mistake.value.mistakeId == shown.value))
  {
    if shown.None? || shown.value == "" then Closed
    else
      match FindByMistakeId(ms, shown.value, 0)
      case None => OpenEmpty
      case Some(k) =>
        var m := ms[k].mistake.value;
        OpenWith(ModalView(m.originalText, m.correctedText, Body(m)))
  }

  /**
   * Opening the modal from a reply's explain button shows a modal, and it shows the
   * FIRST message carrying that id: ids are not unique (restored replies can share
   * the clock value), so a later reply with the same id is never the one explained.
   */
  lemma ModalShowsFirstCarrier(ms: seq<Message>, i: nat)
    requires i < |ms| && ExplainButtonShown(ms[i])
    ensures Modal(ms, Some(ms[i].mistake.value.mistakeId)).OpenWith?
    ensures var v := Modal(ms, Some(ms[i].mistake.value.mistakeId)).view;
      exists k :: 0 <= k <= i && ms[k].mistake.Some? && ms[k].mistake.value.mistakeId == ms[i].mistake.value.mistakeId
        && v == ModalView(ms[k].mistake.value.originalText, ms[k].mistake.value.correctedText, Body(ms[k].mistake.value))
        && (forall j :: 0 <= j < k ==> !(ms[j].mistake.Some? && ms[j].mistake.value.mistakeId == ms[i].mistake.value.mistakeId))
  {
    var id := ms[i].mistake.value.mistakeId;
    var r := FindByMistakeId(ms, id, 0);
    assert r.Some?;
    var k := r.value;
    assert k <= i;
  }
}
