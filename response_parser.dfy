/**
 * Classification of a tutor reply under the mistake-detection protocol
 * (`parseAIResponse`): a reply that starts with the mistake marker becomes a
 * correction message, one that starts with the no-mistake marker loses its
 * marker, and anything else is shown verbatim.
 */
module ResponseParser {
  import opened Wrappers
  import opened Strings
  import opened Messages
  import opened ExplanationPatterns

  /** The reply with its mistake marker removed and trimmed (`content`). */
  function MistakeContent(response: string): string {
    Trim(ReplaceFirst(response, MistakeMarker, ""))
  }

  /** The English part of a mistake reply: the trimmed text before the first Russian marker. */
  function EnglishPart(content: string): string {
    Trim(Split(content, RussianMarker)[0])
  }

  /** The Russian part: the trimmed text between the first and the second Russian marker, or empty. */
  function RussianPart(content: string): string {
    var second := Piece(Split(content, RussianMarker), 1);
    if second != "" then Trim(second) else ""
  }

  /** The corrected text: the first quoted run of the English part, or empty. */
  function CorrectedText(english: string): string {
    match FirstQuoted(english)
    case Some(c) => c
    case None => ""
  }

  /**
   * `parseAIResponse(response, userInput)`, with the timestamp the source reads
   * for the mistake id passed in as `mistakeId`.
   */
  function ParseResponse(response: string, userInput: string, mistakeId: string): (m: Message)
    ensures m.sender == Ai && !m.isTyping
    ensures m.mistake.Some? <==> StartsWith(response, MistakeMarker)
  {
    if StartsWith(response, MistakeMarker) then
      var content := MistakeContent(response);
      var english := EnglishPart(content);
      var corrected := CorrectedText(english);
      Message(Ai, english, false, Some(Mistake(
        originalText := userInput,
        correctedText := corrected,
        explanation := Explanation(english, corrected),
        explanationRussian := RussianPart(content),
        isRetryPrompt := true,
        mistakeId := mistakeId)))
    else if StartsWith(response, NoMistakeMarker) then
      Message(Ai, Trim(ReplaceFirst(response, NoMistakeMarker, "")), false, None)
    else
      Message(Ai, response, false, None)
  }

  /** The two markers cannot both begin a reply. */
  lemma MarkersExclusive(response: string)
    ensures !(StartsWith(response, MistakeMarker) && StartsWith(response, NoMistakeMarker))
  {
    if StartsWith(response, MistakeMarker) {
      assert response[0] == MistakeMarker[0] == 'M';
    }
    assert StartsWith(response, NoMistakeMarker) ==> response[0] == 'N';
  }

  /** A reply beginning with the no-mistake marker is the trimmed rest, marker dropped exactly once. */
  lemma NoMistakeReply(response: string, userInput: string, mistakeId: string)
    requires StartsWith(response, NoMistakeMarker)
    ensures ParseResponse(response, userInput, mistakeId)
      == Message(Ai, Trim(response[|NoMistakeMarker|..]), false, None)
  {
    MarkersExclusive(response);
    ReplacePrefix(response, NoMistakeMarker);
  }

  /**
   * A reply beginning with neither marker is shown exactly as received; that includes
   * a marker preceded by a space, since only a prefix counts.
   */
  lemma UnmarkedReply(response: string, userInput: string, mistakeId: string)
    requires !StartsWith(response, MistakeMarker) && !StartsWith(response, NoMistakeMarker)
    ensures ParseResponse(response, userInput, mistakeId) == Message(Ai, response, false, None)
  {
  }

  lemma LeadingSpaceIsUnmarked(rest: string)
    ensures !StartsWith(" " + rest, MistakeMarker) && !StartsWith(" " + rest, NoMistakeMarker)
  {
    assert (" " + rest)[0] == ' ';
  }

  /**
   * A reply beginning with the mistake marker: the text is the English part, the
   * Russian explanation is what lies between the first and the second Russian marker
   * (anything after a second marker is dropped), the correction is the leftmost
   * quoted run of the English part, and the message always invites a retry.
   */
  lemma MistakeReply(response: string, userInput: string, mistakeId: string)
    requires StartsWith(response, MistakeMarker)
    ensures var m := ParseResponse(response, userInput, mistakeId);
      var content := Trim(response[|MistakeMarker|..]);
      && m.mistake.Some?
      && m.mistake.value.originalText == userInput
      && m.mistake.value.isRetryPrompt
      && m.mistake.value.mistakeId == mistakeId
      && !Contains(m.text, RussianMarker)
      && (IndexOf(content, RussianMarker).None? ==>
            m.text == content && m.mistake.value.explanationRussian == "")
      && (IndexOf(content, RussianMarker).Some? ==>
            var k := IndexOf(content, RussianMarker).value;
            var rest := content[k + |RussianMarker|..];
            && m.text == Trim(content[..k])
            && m.mistake.value.explanationRussian ==
                 Trim(if IndexOf(rest, RussianMarker).Some? then rest[..IndexOf(rest, RussianMarker).value] else rest))
  {
    ReplacePrefix(response, MistakeMarker);
    var content := Trim(response[|MistakeMarker|..]);
    assert content == MistakeContent(response);
    SplitFirst(content, RussianMarker);
    SplitSecond(content, RussianMarker);
    EnglishHasNoMarker(content);
    match IndexOf(content, RussianMarker)
    case None =>
      TrimIdempotent(response[|MistakeMarker|..]);
    case Some(k) =>
      var rest := content[k + |RussianMarker|..];
      SplitFirst(rest, RussianMarker);
  }

  /** The English part never holds the Russian marker. */
  lemma EnglishHasNoMarker(content: string)
    ensures !Contains(EnglishPart(content), RussianMarker)
  {
    var first := Split(content, RussianMarker)[0];
    SplitFirst(content, RussianMarker);
    if Contains(EnglishPart(content), RussianMarker) {
      ContainsSlice(first, TrimLo(first), TrimHi(first), RussianMarker);
    }
    assert Contains(EnglishPart(content), RussianMarker) ==> Contains(first, RussianMarker);
  }

  lemma TrimIdempotent(s: string)
    ensures Trim(Trim(s)) == Trim(s)
  {
    var t := Trim(s);
    assert LeadingSpaces(t) == 0;
    assert TrailingSpaces(t) == 0;
  }

  /**
   * The correction is empty exactly when the English part has no quoted run, and
   * otherwise is the capture of its leftmost one (single and double quotes mix).
   */
  lemma CorrectedIsFirstQuoted(english: string)
    ensures CorrectedText(english) == "" <==> forall i: nat, c: string :: !QuotedAt(english, i, c)
    ensures CorrectedText(english) != "" ==>
      exists i: nat :: QuotedAt(english, i, CorrectedText(english))
        && forall j: nat, c: string :: j < i ==> !QuotedAt(english, j, c)
  {
    FirstQuotedSpec(english);
    match FirstQuoted(english)
    case None =>
    case Some(c) =>
      var i :| QuotedAt(english, i, c);
  }

  /**
   * The brief explanation of a mistake reply only ever comes from the first or the
   * third pattern or from the fallback: the patterns that end with the Russian marker
   * are run on a text that cannot contain it.
   */
  lemma ExplanationSkipsRussianPatterns(response: string, userInput: string, mistakeId: string)
    requires StartsWith(response, MistakeMarker)
    ensures var english := EnglishPart(MistakeContent(response));
      Search(english, Chain[1]).None? && Search(english, Chain[3]).None?
      && FirstMatching(english, Chain) == FirstMatching(english, [Chain[0], Chain[2]])
  {
    var english := EnglishPart(MistakeContent(response));
    EnglishHasNoMarker(MistakeContent(response));
    RussianPatternsNeverMatch(english);
  }
}
