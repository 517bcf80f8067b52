/**
 * The correction card shown for a detected mistake: the phrase that introduces the
 * correction, the extra explanation fetched on request (with its offline fallback),
 * the card's explain flow, and which of its parts are visible.
 */
module MistakeFeedback {
  import opened Wrappers
  import opened Strings

  // ---------------------------------------------------------------- corrective phrase

  /** How many maximal runs of whitespace `t` holds (each one ends where a non-space or the end follows). */
  function SpaceRuns(t: string): nat {
    if |t| == 0 then 0
    else (if IsSpace(t[0]) && (|t| == 1 || !IsSpace(t[1])) then 1 else 0) + SpaceRuns(t[1..])
  }

  /**
   * `s.trim().split(/\s+/).length`: the trimmed text splits at each whitespace run,
   * so it has one piece more than it has runs (the empty text is one empty piece).
   */
  function WordCount(s: string): (n: nat)
    ensures n >= 1
  {
    1 + SpaceRuns(Trim(s))
  }

  const YouMean: string := "You mean"
  const YouShouldSay: string := "You should say"

  /** "You mean" when the two texts' word counts differ by at most one, "You should say" otherwise. */
  function CorrectivePhrase(original: string, corrected: string): (p: string)
    ensures p == YouMean || p == YouShouldSay
  {
    var d := WordCount(original) - WordCount(corrected);
    if -1 <= d <= 1 then YouMean else YouShouldSay
  }

  /** The phrase does not depend on which text is the original. */
  lemma CorrectivePhraseSymmetric(a: string, b: string)
    ensures CorrectivePhrase(a, b) == CorrectivePhrase(b, a)
  {
  }

  predicate IsWord(w: string) {
    w != "" && forall k :: 0 <= k < |w| ==> !IsSpace(w[k])
  }

  lemma {:induction false} SpaceRunsAfterWord(w: string, r: string)
    requires forall k :: 0 <= k < |w| ==> !IsSpace(w[k])
    ensures SpaceRuns(w + r) == SpaceRuns(r)
    decreases |w|
  {
    if w != "" {
      assert (w + r)[1..] == w[1..] + r;
      SpaceRunsAfterWord(w[1..], r);
    } else {
      assert w + r == r;
    }
  }

  lemma SpaceRunsAfterSpace(r: string)
    requires r != "" && !IsSpace(r[0])
    ensures SpaceRuns(" " + r) == 1 + SpaceRuns(r)
  {
    assert (" " + r)[1..] == r;
  }

  /** Words joined by single spaces: one run between each pair, and no space at either end. */
  lemma {:induction false} JoinedWords(ws: seq<string>)
    requires |ws| >= 1 && forall i :: 0 <= i < |ws| ==> IsWord(ws[i])
    ensures var j := Join(ws, " ");
      j != "" && !IsSpace(j[0]) && !IsSpace(j[|j| - 1]) && SpaceRuns(j) == |ws| - 1
  {
    if |ws| > 1 {
      var rest := Join(ws[1..], " ");
      JoinedWords(ws[1..]);
      var j := Join(ws, " ");
      assert j == ws[0] + (" " + rest);
      SpaceRunsAfterSpace(rest);
      SpaceRunsAfterWord(ws[0], " " + rest);
      assert j[0] == ws[0][0];
      assert j[|j| - 1] == rest[|rest| - 1];
    } else {
      SpaceRunsAfterWord(ws[0], "");
      assert ws[0] + "" == ws[0];
    }
  }

  /** Text without spaces at either end is its own trim. */
  lemma TrimOfTrimmed(s: string)
    requires s != "" && !IsSpace(s[0]) && !IsSpace(s[|s| - 1])
    ensures Trim(s) == s
  {
    assert LeadingSpaces(s) == 0;
    assert TrailingSpaces(s) == 0;
  }

  /** The count agrees with counting words: `n` words joined by single spaces count as `n`. */
  lemma WordCountOfWords(ws: seq<string>)
    requires |ws| >= 1 && forall i :: 0 <= i < |ws| ==> IsWord(ws[i])
    ensures WordCount(Join(ws, " ")) == |ws|
  {
    JoinedWords(ws);
    TrimOfTrimmed(Join(ws, " "));
  }

  /**
   * So the phrase is decided by the number of words: a substitution within the same
   * number of words, or one word more or fewer, is "You mean"; a rewrite that adds or
   * drops two words or more is "You should say".
   */
  lemma PhraseByWordCounts(original: seq<string>, corrected: seq<string>)
    requires |original| >= 1 && forall i :: 0 <= i < |original| ==> IsWord(original[i])
    requires |corrected| >= 1 && forall i :: 0 <= i < |corrected| ==> IsWord(corrected[i])
    ensures CorrectivePhrase(Join(original, " "), Join(corrected, " ")) == YouMean <==>
      -1 <= |original| - |corrected| <= 1
  {
    WordCountOfWords(original);
    WordCountOfWords(corrected);
  }

  // ---------------------------------------------------------------- explanations

  function Quoted(s: string): string {
    "\"" + s + "\""
  }

  /** Three slots laid out between fixed texts: `h x m y n z t`. */
  function Slots(h: string, x: string, m: string, y: string, n: string, z: string, t: string): string {
    h + (x + (m + (y + (n + (z + t)))))
  }

  /** The slots appear in the laid-out text in order and without overlapping. */
  lemma SlotsInOrder(h: string, x: string, m: string, y: string, n: string, z: string, t: string)
    ensures var s := Slots(h, x, m, y, n, z, t);
      var a, b := |h|, |h| + |x| + |m|;
      var c := b + |y| + |n|;
      OccursAt(s, x, a) && OccursAt(s, y, b) && OccursAt(s, z, c)
      && a + |x| <= b && b + |y| <= c
  {
    var s := Slots(h, x, m, y, n, z, t);
    assert s == h + x + m + y + n + z + t;
    var a, b := |h|, |h| + |x| + |m|;
    var c := b + |y| + |n|;
    assert s[a..a + |x|] == x;
    assert s[b..b + |y|] == y;
    assert s[c..c + |z|] == z;
  }

  const FallbackHeading: string := "Подробное объяснение ошибки:\n\nВаш текст: "
  const FallbackCorrectLabel: string := "\nПравильный вариант: "
  const FallbackClosing: string :=
    "\n\nЭто распространенная ошибка среди изучающих английский язык. Запомните правильную форму и попробуйте использовать её в других предложениях для закрепления."

  /** `generateFallbackExplanation`: the two texts quoted, then the basic explanation, between fixed Russian text. */
  function FallbackExplanation(original: string, corrected: string, basicExplanation: string): string {
    Slots(FallbackHeading, Quoted(original), FallbackCorrectLabel, Quoted(corrected), "\n\n", basicExplanation, FallbackClosing)
  }

  /** The fallback quotes the original, then the corrected text, then gives the basic explanation, and is never empty. */
  lemma FallbackCarriesInputs(original: string, corrected: string, basicExplanation: string)
    ensures var f := FallbackExplanation(original, corrected, basicExplanation);
      exists a: nat, b: nat, c: nat ::
        && OccursAt(f, Quoted(original), a) && OccursAt(f, Quoted(corrected), b) && OccursAt(f, basicExplanation, c)
        && a + |Quoted(original)| <= b && b + |Quoted(corrected)| <= c
    ensures FallbackExplanation(original, corrected, basicExplanation) != ""
  {
    var x, y := Quoted(original), Quoted(corrected);
    SlotsInOrder(FallbackHeading, x, FallbackCorrectLabel, y, "\n\n", basicExplanation, FallbackClosing);
    var a: nat, b: nat := |FallbackHeading|, |FallbackHeading| + |x| + |FallbackCorrectLabel|;
    var c: nat := b + |y| + 2;
    assert |FallbackExplanation(original, corrected, basicExplanation)| >= |FallbackHeading| > 0;
  }

  const DetailRequestHeading: string := "Provide a detailed explanation in Russian for this English mistake:\nOriginal: "
  const DetailRequestCorrect: string := "\nCorrect: "
  const DetailRequestBasic: string := "\nBasic explanation: "
  /** The list of points the extra explanation is asked to cover, reduced to its closing request. */
  const DetailRequestClosing: string := "\n\nKeep it concise but informative."

  /** The prompt sent for the extra explanation: all three texts, quoted, in order. */
  function DetailRequest(original: string, corrected: string, basicExplanation: string): string {
    Slots(DetailRequestHeading, Quoted(original), DetailRequestCorrect, Quoted(corrected),
          DetailRequestBasic, Quoted(basicExplanation), DetailRequestClosing)
  }

  lemma DetailRequestCarriesInputs(original: string, corrected: string, basicExplanation: string)
    ensures var q := DetailRequest(original, corrected, basicExplanation);
      exists a: nat, b: nat, c: nat ::
        && OccursAt(q, Quoted(original), a) && OccursAt(q, Quoted(corrected), b)
        && OccursAt(q, Quoted(basicExplanation), c)
        && a + |Quoted(original)| <= b && b + |Quoted(corrected)| <= c
  {
    var x, y, z := Quoted(original), Quoted(corrected), Quoted(basicExplanation);
    SlotsInOrder(DetailRequestHeading, x, DetailRequestCorrect, y, DetailRequestBasic, z, DetailRequestClosing);
    var a: nat, b: nat := |DetailRequestHeading|, |DetailRequestHeading| + |x| + |DetailRequestCorrect|;
    var c: nat := b + |y| + |DetailRequestBasic|;
    var q := DetailRequest(original, corrected, basicExplanation);
    assert OccursAt(q, x, a) && OccursAt(q, y, b) && OccursAt(q, z, c);
  }

  /** What the explanation service did. */
  datatype DetailAnswer =
    | Answered(text: Option<string>)   // `response.ok`, with the first candidate's text if there is one
    | NotOk
    | Threw

  /**
   * `generateDetailedExplanation`: the service's text when the key is configured and
   * the service answered with a non-empty text; the fallback in every other case.
   */
  function DetailedExplanation(keyConfigured: bool, answer: DetailAnswer,
                               original: string, corrected: string, basicExplanation: string): (r: string)
  {
    if keyConfigured && answer.Answered? && answer.text.Some? && answer.text.value != "" then answer.text.value
    else FallbackExplanation(original, corrected, basicExplanation)
  }

  /**
   * The service's text is used exactly when it was obtained; every failure falls
   * back; and the delivered explanation is never empty.
   */
  lemma DetailedExplanationCases(keyConfigured: bool, answer: DetailAnswer,
                                 original: string, corrected: string, basicExplanation: string)
    ensures var r := DetailedExplanation(keyConfigured, answer, original, corrected, basicExplanation);
      && (keyConfigured && answer.Answered? && answer.text.Some? && answer.text.value != "" ==> r == answer.text.value)
      && (!(keyConfigured && answer.Answered? && answer.text.Some? && answer.text.value != "") ==>
            r == FallbackExplanation(original, corrected, basicExplanation))
      && r != ""
  {
    FallbackCarriesInputs(original, corrected, basicExplanation);
  }

  // ---------------------------------------------------------------- the card

  /** The card's own state; `detailedExplanation` is owned by the parent and passed in. */
  class Card {
    var showDetailed: bool
    var isLoadingDetailed: bool

    constructor()
      ensures !showDetailed && !isLoadingDetailed
    {
      showDetailed := false;
      isLoadingDetailed := false;
    }

    /**
     * The synchronous start of `handleExplainMistake`: without a (non-empty) stored
     * explanation loading starts and one is to be generated; with one the detail is
     * shown at once.
     */
    method StartExplain(detailed: Option<string>) returns (generate: bool)
      modifies this
      ensures generate == (detailed.None? || detailed.value == "")
      ensures generate ==> isLoadingDetailed && showDetailed == old(showDetailed)
      ensures !generate ==> showDetailed && isLoadingDetailed == old(isLoadingDetailed)
      ensures generate && !old(showDetailed) ==>
        ExplainButtonShown(showDetailed) && ExplainButtonDisabled(isLoadingDetailed)
    {
      generate := detailed.None? || detailed.value == "";
      if generate {
        isLoadingDetailed := true;
      } else {
        showDetailed := true;
      }
    }

    /** After the generation: the text goes to the parent, loading stops, and the detail is shown. */
    method FinishExplain(text: string) returns (delivered: string)
      modifies this
      ensures delivered == text && !isLoadingDetailed && showDetailed
    {
      delivered := text;
      isLoadingDetailed := false;
      showDetailed := true;
    }

    /**
     * `handleExplainMistake` as a whole: the parent receives the generated
     * explanation once, and only when none was stored; the detail is shown in both
     * cases and nothing is left loading.
     */
    method HandleExplainMistake(detailed: Option<string>, keyConfigured: bool, answer: DetailAnswer,
                                original: string, corrected: string, basicExplanation: string)
      returns (delivered: Option<string>)
      requires !isLoadingDetailed
      modifies this
      ensures delivered.Some? <==> detailed.None? || detailed.value == ""
      ensures delivered.Some? ==>
        delivered.value == DetailedExplanation(keyConfigured, answer, original, corrected, basicExplanation)
      ensures showDetailed && !isLoadingDetailed
      ensures !ExplainButtonShown(showDetailed)
      ensures DetailBoxShown(showDetailed, if delivered.Some? then delivered else detailed)
    {
      ExplainFlowReveals(detailed, keyConfigured, answer, original, corrected, basicExplanation);
      var generate := StartExplain(detailed);
      delivered := None;
      if generate {
        var text := DetailedExplanation(keyConfigured, answer, original, corrected, basicExplanation);
        var sent := FinishExplain(text);
        delivered := Some(sent);
      }
    }
  }

  // ---------------------------------------------------------------- visibility

  /** The explain button shows until the detail is shown; it is disabled while loading. */
  predicate ExplainButtonShown(showDetailed: bool) {
    !showDetailed
  }

  predicate ExplainButtonDisabled(isLoadingDetailed: bool) {
    isLoadingDetailed
  }

  /** The detail box needs both the flag and a (non-empty) stored explanation. */
  predicate DetailBoxShown(showDetailed: bool, detailed: Option<string>) {
    showDetailed && detailed.Some? && detailed.value != ""
  }

  predicate RepeatPromptShown(waitingForRepeat: bool, userRepeated: bool) {
    waitingForRepeat && !userRepeated
  }

  predicate SuccessLineShown(userRepeated: bool) {
    userRepeated
  }

  /** The repeat prompt and the success line are never shown together. */
  lemma RepeatLinesExclusive(waitingForRepeat: bool, userRepeated: bool)
    ensures !(RepeatPromptShown(waitingForRepeat, userRepeated) && SuccessLineShown(userRepeated))
  {
  }

  /**
   * Once the explain flow has run and the parent stored what it was given, the
   * stored explanation is non-empty, so a shown detail has a box to show.
   */
  lemma ExplainFlowReveals(detailed: Option<string>, keyConfigured: bool, answer: DetailAnswer,
                           original: string, corrected: string, basicExplanation: string)
    ensures var stored := if detailed.None? || detailed.value == ""
                          then Some(DetailedExplanation(keyConfigured, answer, original, corrected, basicExplanation))
                          else detailed;
      DetailBoxShown(true, stored)
  {
    DetailedExplanationCases(keyConfigured, answer, original, corrected, basicExplanation);
  }
}
