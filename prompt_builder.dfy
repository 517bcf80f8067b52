/**
 * The request the widget sends to the language-model service: the system
 * instruction (the feature's prompt prefix, extended by the recent history when
 * there is any) and the conversation contents.
 */
module PromptBuilder {
  import opened Wrappers
  import opened Strings
  import opened Messages

  /**
   * The mistake-detection protocol every prompt prefix carries, reduced to what
   * it asks of the reply's layout, with the markers and the retry question it
   * names as parameters.
   */
  function ProtocolText(mistake: string, noMistake: string, russian: string, retry: string): string {
    "MISTAKE DETECTION PROTOCOL:\nIF MISTAKES ARE FOUND: start with \""
    + (mistake + ("\", then \""
    + (russian + ("\", and ask \""
    + (retry + ("\"\nIF NO MISTAKES: start with \""
    + (noMistake + "\"")))))))
  }

  /** The protocol text names each of the markers it is given. */
  lemma ProtocolNamesMarkers(mistake: string, noMistake: string, russian: string, retry: string)
    ensures var t := ProtocolText(mistake, noMistake, russian, retry);
      Contains(t, mistake) && Contains(t, noMistake) && Contains(t, russian) && Contains(t, retry)
  {
    var a := "MISTAKE DETECTION PROTOCOL:\nIF MISTAKES ARE FOUND: start with \"";
    var b := "\", then \"";
    var c := "\", and ask \"";
    var d := "\"\nIF NO MISTAKES: start with \"";
    var r4 := noMistake + "\"";
    var r3 := retry + (d + r4);
    var r2 := russian + (c + r3);
    var r1 := mistake + (b + r2);
    ContainsAfter(d, noMistake, "\"");
    ContainsInTail(retry, d + r4, noMistake);
    ContainsAfter(c, retry, d + r4);
    ContainsInTail(c, r3, noMistake);
    ContainsInTail(russian, c + r3, noMistake);
    ContainsInTail(russian, c + r3, retry);
    ContainsAfter(b, russian, c + r3);
    ContainsInTail(b, r2, noMistake);
    ContainsInTail(b, r2, retry);
    ContainsInTail(mistake, b + r2, noMistake);
    ContainsInTail(mistake, b + r2, retry);
    ContainsInTail(mistake, b + r2, russian);
    ContainsAfter(a, mistake, b + r2);
    ContainsInTail(a, r1, noMistake);
    ContainsInTail(a, r1, retry);
    ContainsInTail(a, r1, russian);
  }

  const ProtocolHeader: string := ProtocolText(MistakeMarker, NoMistakeMarker, RussianMarker, RetryQuestion)

  /** The opening sentence of each feature's prompt. */
  function Role(f: Feature): string {
    match f
    case Vocabulary => "You are Ava, an English vocabulary tutor."
    case Mistakes => "You are Ava, an English error correction tutor."
    case Grammar => "You are Ava, an English grammar tutor."
    case FreeTalk => "You are Ava, a friendly English conversation tutor."
  }

  /** The heading of each feature's guidelines; the free-talk prompt has none. */
  function Guidance(f: Feature): string {
    match f
    case Vocabulary => "VOCABULARY-SPECIFIC GUIDELINES:"
    case Mistakes => "MISTAKE CORRECTION GUIDELINES:"
    case Grammar => "GRAMMAR-SPECIFIC GUIDELINES:"
    case FreeTalk => "EXAMPLES:"
  }

  /** `getPromptPrefix(feature)`: the role, the shared protocol, then the feature's guidance. */
  function PromptPrefix(f: Feature): string {
    Role(f) + ("\n\n" + (ProtocolHeader + ("\n\n" + Guidance(f))))
  }

  /** The protocol tells the tutor about all three markers and the retry question. */
  lemma HeaderNamesMarkers()
    ensures Contains(ProtocolHeader, MistakeMarker)
    ensures Contains(ProtocolHeader, NoMistakeMarker)
    ensures Contains(ProtocolHeader, RussianMarker)
    ensures Contains(ProtocolHeader, RetryQuestion)
  {
    ProtocolNamesMarkers(MistakeMarker, NoMistakeMarker, RussianMarker, RetryQuestion);
  }

  /** Every feature's prefix holds the whole protocol, hence every marker. */
  lemma PrefixCarriesProtocol(f: Feature)
    ensures Contains(PromptPrefix(f), ProtocolHeader)
    ensures Contains(PromptPrefix(f), MistakeMarker) && Contains(PromptPrefix(f), NoMistakeMarker)
    ensures Contains(PromptPrefix(f), RussianMarker)
  {
    var s := PromptPrefix(f);
    ContainsAfter("\n\n", ProtocolHeader, "\n\n" + Guidance(f));
    ContainsInTail(Role(f), "\n\n" + (ProtocolHeader + ("\n\n" + Guidance(f))), ProtocolHeader);
    HeaderNamesMarkers();
    ContainsTrans(s, ProtocolHeader, MistakeMarker);
    ContainsTrans(s, ProtocolHeader, NoMistakeMarker);
    ContainsTrans(s, ProtocolHeader, RussianMarker);
  }

  /**
   * Different features get different prompt prefixes: the role sentences they
   * open with part at `a friendly` or at the tutor's speciality.
   */
  lemma PrefixDistinguishesFeatures(f: Feature, g: Feature)
    requires f != g
    ensures PromptPrefix(f) != PromptPrefix(g)
  {
    RolesDiffer(f, g);
    var tf, tg := "\n\n" + (ProtocolHeader + ("\n\n" + Guidance(f))), "\n\n" + (ProtocolHeader + ("\n\n" + Guidance(g)));
    assert PromptPrefix(f) == Role(f) + tf && PromptPrefix(g) == Role(g) + tg;
    assert (Role(f) + tf)[14] == Role(f)[14] && (Role(f) + tf)[24] == Role(f)[24];
    assert (Role(g) + tg)[14] == Role(g)[14] && (Role(g) + tg)[24] == Role(g)[24];
  }

  /** Two role sentences differ at the article (`an English` or `a friendly`) or at the speciality. */
  lemma RolesDiffer(f: Feature, g: Feature)
    requires f != g
    ensures |Role(f)| > 24 && |Role(g)| > 24
    ensures Role(f)[14] != Role(g)[14] || Role(f)[24] != Role(g)[24]
  {
  }

  /** How the conversation rows are shown to the tutor: `Student: …` or `Tutor: …`. */
  function HistoryLine(r: Record): string {
    (if r.sender == "user" then "Student" else "Tutor") + ": " + r.content
  }

  function HistoryLines(rs: seq<Record>): (ls: seq<string>)
    ensures |ls| == |rs|
    ensures forall k :: 0 <= k < |rs| ==> ls[k] == HistoryLine(rs[k])
  {
    if rs == [] then [] else [HistoryLine(rs[0])] + HistoryLines(rs[1..])
  }

  /** `chatHistory.slice(-10)`. */
  function Recent(h: seq<Record>): (w: seq<Record>)
    ensures |w| == if |h| < 10 then |h| else 10
    ensures w == h[|h| - |w|..]
  {
    if |h| > 10 then h[|h| - 10..] else h
  }

  function HistoryText(h: seq<Record>): string {
    Join(HistoryLines(Recent(h)), "\n")
  }

  const ContextHeader: string := "CONVERSATION CONTEXT:"

  const ContinuationGuidelines: string := "CONTINUATION GUIDELINES:"

  const RetryNote: string := "NOTE: This is a retry attempt after a mistake correction."

  const ReplyInstruction: string := "Respond as Ava."

  function QuotedInput(input: string): string {
    "Current student input: \"" + input + "\""
  }

  /** `a` followed by a blank line and `rest`: how the instruction's blocks are laid out. */
  function Para(a: string, rest: string): string {
    a + ("\n\n" + rest)
  }

  lemma ParaHead(a: string, rest: string)
    ensures Contains(Para(a, rest), a)
  {
    OccursInConcat([], a, "\n\n" + rest);
    assert Para(a, rest) == [] + a + ("\n\n" + rest);
  }

  lemma ParaTail(a: string, rest: string, p: string)
    requires Contains(rest, p)
    ensures Contains(Para(a, rest), p)
  {
    ContainsInTail("\n\n", rest, p);
    ContainsInTail(a, "\n\n" + rest, p);
  }

  /**
   * The system instruction (`promptWithHistory`): with a non-empty history, the
   * prefix followed by the context heading, the last ten rows, the continuation
   * guidelines, the retry note (an empty block when not retrying), the quoted
   * current input and the reply instruction, separated by blank lines; with no
   * history (none stored, or the query failed), the bare prefix.
   */
  function Instruction(prefix: string, history: Option<seq<Record>>, input: string, isRetry: bool): string {
    if history.Some? && |history.value| > 0 then
      Para(prefix, Para(ContextHeader, HistoryBlocks(history.value, input, isRetry)))
    else
      prefix
  }

  function HistoryBlocks(h: seq<Record>, input: string, isRetry: bool): string {
    Para(HistoryText(h), Para(ContinuationGuidelines,
      Para(if isRetry then RetryNote else "", Para(QuotedInput(input), ReplyInstruction))))
  }

  /** Without history the instruction is the bare prefix, so a retry's note is dropped. */
  lemma FirstMessageUsesPrefix(history: Option<seq<Record>>, f: Feature, input: string, isRetry: bool)
    requires history.None? || history.value == []
    ensures BuildRequest(history, f, input, isRetry).systemInstruction == PromptPrefix(f)
    ensures BuildRequest(history, f, input, true) == BuildRequest(history, f, input, false)
  {
    var prefix := PromptPrefix(f);
    assert Instruction(prefix, history, input, true) == prefix;
    assert Instruction(prefix, history, input, false) == prefix;
  }

  /**
   * With history, the instruction holds the feature's prefix, each of the last ten rows
   * as a `Student:`/`Tutor:` line, the quoted current input, and the retry note when retrying.
   */
  lemma InstructionWithHistory(h: seq<Record>, f: Feature, input: string, isRetry: bool, k: nat)
    requires |h| > 0 && k < |Recent(h)|
    ensures var s := BuildRequest(Some(h), f, input, isRetry).systemInstruction;
      && Contains(s, PromptPrefix(f))
      && Contains(s, MistakeMarker)
      && Contains(s, HistoryLine(Recent(h)[k]))
      && Contains(s, QuotedInput(input))
      && (isRetry ==> Contains(s, RetryNote))
  {
    var prefix := PromptPrefix(f);
    var s := Instruction(prefix, Some(h), input, isRetry);
    InstructionLayout(prefix, h, input, isRetry, k);
    PrefixCarriesProtocol(f);
    ContainsTrans(s, prefix, MistakeMarker);
  }

  /** The extended instruction holds its prefix, each recent row, the quoted input and the note. */
  lemma InstructionLayout(prefix: string, h: seq<Record>, input: string, isRetry: bool, k: nat)
    requires |h| > 0 && k < |Recent(h)|
    ensures var s := Instruction(prefix, Some(h), input, isRetry);
      && Contains(s, prefix)
      && Contains(s, HistoryLine(Recent(h)[k]))
      && Contains(s, QuotedInput(input))
      && (isRetry ==> Contains(s, RetryNote))
  {
    var s := Instruction(prefix, Some(h), input, isRetry);
    var note := if isRetry then RetryNote else "";
    BlocksHoldTheirParts(prefix, ContextHeader, HistoryText(h), ContinuationGuidelines,
      note, QuotedInput(input), ReplyInstruction);
    JoinContains(HistoryLines(Recent(h)), "\n", k);
    ContainsTrans(s, HistoryText(h), HistoryLine(Recent(h)[k]));
  }

  /** Seven blocks laid out as the instruction lays them out: the first, third, fifth and sixth are all in it. */
  lemma BlocksHoldTheirParts(b1: string, b2: string, b3: string, b4: string, b5: string, b6: string, b7: string)
    ensures var s := Para(b1, Para(b2, Para(b3, Para(b4, Para(b5, Para(b6, b7))))));
      Contains(s, b1) && Contains(s, b3) && Contains(s, b5) && Contains(s, b6)
  {
    var t6 := Para(b6, b7);
    var t5 := Para(b5, t6);
    var t4 := Para(b4, t5);
    var t3 := Para(b3, t4);
    var t2 := Para(b2, t3);
    ParaHead(b6, b7);
    ParaHead(b5, t6);
    ParaTail(b5, t6, b6);
    ParaTail(b4, t5, b5);
    ParaTail(b4, t5, b6);
    ParaHead(b3, t4);
    ParaTail(b3, t4, b5);
    ParaTail(b3, t4, b6);
    ParaTail(b2, t3, b3);
    ParaTail(b2, t3, b5);
    ParaTail(b2, t3, b6);
    ParaHead(b1, t2);
    ParaTail(b1, t2, b3);
    ParaTail(b1, t2, b5);
    ParaTail(b1, t2, b6);
  }

  /** Only the last ten rows are shown: the window is the history's ten-row suffix. */
  lemma WindowIsLastTen(h: seq<Record>)
    ensures |h| <= 10 ==> Recent(h) == h
    ensures |h| > 10 ==> Recent(h) == h[|h| - 10..] && |Recent(h)| == 10
  {
  }

  datatype Speaker = UserRole | ModelRole

  /** One entry of the request's `contents`. */
  datatype Turn = Turn(role: Speaker, text: string)

  function RecordTurn(r: Record): Turn {
    Turn(if r.sender == "user" then UserRole else ModelRole, r.content)
  }

  /** `conversationContext`: every stored row, in order, with its role. */
  function Context(h: seq<Record>): (ts: seq<Turn>)
    ensures |ts| == |h|
    ensures forall k :: 0 <= k < |h| ==> ts[k] == RecordTurn(h[k])
  {
    if h == [] then [] else [RecordTurn(h[0])] + Context(h[1..])
  }

  /** The request body: `contents` and `systemInstruction`. */
  datatype Request = Request(contents: seq<Turn>, systemInstruction: string)

  /** The request's `contents`: the conversation when it has two rows or more, else the current input. */
  function Contents(history: Option<seq<Record>>, input: string): seq<Turn> {
    var ctx := if history.Some? && |history.value| > 0 then Context(history.value) else [Turn(UserRole, input)];
    if |ctx| > 1 then ctx else [Turn(UserRole, input)]
  }

  function BuildRequest(history: Option<seq<Record>>, f: Feature, input: string, isRetry: bool): Request {
    Request(Contents(history, input), Instruction(PromptPrefix(f), history, input, isRetry))
  }

  /**
   * The contents are the whole stored conversation with mapped roles when it has
   * at least two rows, and otherwise the current input alone, whatever the one
   * stored row says.
   */
  lemma RequestContents(history: Option<seq<Record>>, input: string)
    ensures var c := Contents(history, input);
      && (history.Some? && |history.value| > 1 ==>
            |c| == |history.value|
            && forall k :: 0 <= k < |history.value| ==>
                 c[k].text == history.value[k].content
                 && (c[k].role == UserRole <==> history.value[k].sender == "user"))
      && (history.None? || |history.value| <= 1 ==> c == [Turn(UserRole, input)])
  {
  }
}
