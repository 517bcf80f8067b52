/**
 * The chat data the tutor widget keeps: messages, the protocol markers of the
 * tutor's replies, the practice features and the persisted history rows.
 */
module Messages {
  import opened Wrappers

  datatype Sender = User | Ai

  /** The correction fields a reply carries when it was classified as a mistake. */
  datatype Mistake = Mistake(
    originalText: string,
    correctedText: string,
    explanation: string,
    explanationRussian: string,
    isRetryPrompt: bool,
    mistakeId: string)

  /**
   * One chat bubble. `mistake` is present exactly when the widget sets
   * `hasMistake: true`; `isTyping` marks the transient "typing" placeholder.
   */
  datatype Message = Message(sender: Sender, text: string, isTyping: bool, mistake: Option<Mistake>)

  function UserMessage(text: string): Message {
    Message(User, text, false, None)
  }

  function AiMessage(text: string): Message {
    Message(Ai, text, false, None)
  }

  const TypingPlaceholder: Message := Message(Ai, "Ava is typing...", true, None)

  const GreetingText: string := "Hi! I'm Ava, your English coach. Let's practice together!"

  /** No message of `ms` is a typing placeholder. */
  predicate NoTyping(ms: seq<Message>) {
    forall k :: 0 <= k < |ms| ==> !ms[k].isTyping
  }

  /** `prev.filter(m => !m.isTyping)`. */
  function WithoutTyping(ms: seq<Message>): (r: seq<Message>)
    ensures NoTyping(r)
    ensures |r| <= |ms|
  {
    if ms == [] then []
    else if ms[0].isTyping then WithoutTyping(ms[1..])
    else [ms[0]] + WithoutTyping(ms[1..])
  }

  /** Filtering distributes over concatenation. */
  lemma {:induction false} WithoutTypingConcat(a: seq<Message>, b: seq<Message>)
    ensures WithoutTyping(a + b) == WithoutTyping(a) + WithoutTyping(b)
  {
    if a == [] {
      assert a + b == b;
    } else {
      assert (a + b)[0] == a[0];
      assert (a + b)[1..] == a[1..] + b;
      WithoutTypingConcat(a[1..], b);
    }
  }

  /** Filtering a list that holds no placeholder changes nothing. */
  lemma {:induction false} WithoutTypingKeeps(ms: seq<Message>)
    requires NoTyping(ms)
    ensures WithoutTyping(ms) == ms
  {
    if ms != [] {
      WithoutTypingKeeps(ms[1..]);
    }
  }

  /** The practice modes of the widget. */
  datatype Feature = FreeTalk | Vocabulary | Grammar | Mistakes

  /** A persisted history row, with its `sender` column as stored (`'user'` or anything else). */
  datatype Record = Record(sender: string, content: string)

  /** Markers of the mistake-detection protocol the tutor is told to follow. */
  const MistakeMarker: string := "MISTAKE_DETECTED:"
  const NoMistakeMarker: string := "NO_MISTAKE:"
  const RussianMarker: string := "RUSSIAN_EXPLANATION:"
  const RetryQuestion: string := "Can you try saying it again?"
}
