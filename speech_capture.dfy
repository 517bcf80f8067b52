/**
 * The speech-recognition handlers of the chat: the per-feature grammar hints,
 * and the recogniser's session state (`hasDetectedSpeech`, `lastSpeechTime`,
 * `completeTranscript`, the pending silence timer, whether it is listening)
 * as `onstart`, `onresult`, `onerror`, `onend`, the silence timer and the
 * delayed auto-send update it. Clock readings and timer firings are arguments.
 */
module SpeechCapture {
  import opened Wrappers
  import opened Strings
  import opened Messages

  // ---------------------------------------------------------------- grammar hints

  /**
   * `getGrammarHints(feature)`: words the recogniser is told to expect. Each is a
   * non-empty token free of the grammar's `|` and `;` delimiters, so every hint
   * stands as one whole alternative of the rule.
   */
  function Hints(f: Feature): (hints: seq<string>)
    ensures hints != []
    ensures forall k :: 0 <= k < |hints| ==> hints[k] != "" && '|' !in hints[k] && ';' !in hints[k]
  {
    match f
    case Vocabulary => ["word", "definition", "meaning", "example", "synonym", "antonym"]
    case Grammar => ["noun", "verb", "adjective", "adverb", "tense", "sentence", "question"]
    case Mistakes => ["correct", "wrong", "mistake", "error", "fix", "review"]
    case FreeTalk => ["hello", "how", "what", "when", "where", "why", "please", "thank you"]
  }

  const GrammarHeader: string := "#JSGF V1.0; grammar hints; public <hint> = "

  /** The JSGF grammar handed to the recogniser: every hint as an alternative of one rule. */
  function GrammarText(f: Feature): string {
    GrammarHeader + (Join(Hints(f), " | ") + ";")
  }

  /** The grammar is a JSGF 1.0 document whose rule offers every hint of the feature. */
  lemma GrammarOffersEveryHint(f: Feature, k: nat)
    requires k < |Hints(f)|
    ensures StartsWith(GrammarText(f), GrammarHeader)
    ensures Contains(GrammarText(f), Hints(f)[k])
  {
    var alternatives := Join(Hints(f), " | ");
    JoinContains(Hints(f), " | ", k);
    OccursInConcat([], alternatives, ";");
    assert alternatives + ";" == [] + alternatives + ";";
    ContainsTrans(alternatives + ";", alternatives, Hints(f)[k]);
    ContainsInTail(GrammarHeader, alternatives + ";", Hints(f)[k]);
    assert GrammarText(f)[..|GrammarHeader|] == GrammarHeader;
  }

  // ---------------------------------------------------------------- one result event

  /** One recognition hypothesis; `confidence` may be missing. */
  datatype Alternative = Alternative(transcript: string, confidence: Option<real>)

  /** One entry of `event.results`. */
  datatype SpeechResult = SpeechResult(isFinal: bool, alternatives: seq<Alternative>)

  /**
   * The handler's locals while it walks `event.results`: the running highest
   * confidence and best transcript (shared by all final results of the event),
   * the final text collected so far and the interim text.
   */
  datatype ScanState = ScanState(highest: real, best: string, finalText: string, interim: string)

  const ScanStart: ScanState := ScanState(0.0, "", "", "")

  /** One alternative of a final result: it wins only with a defined, strictly higher confidence. */
  function Consider(highest: real, best: string, a: Alternative): (real, string) {
    if a.confidence.Some? && a.confidence.value > highest then (a.confidence.value, a.transcript)
    else (highest, best)
  }

  /** The running highest confidence and best transcript after the alternatives `alts`. */
  function BestAmong(highest: real, best: string, alts: seq<Alternative>): (real, string)
    decreases |alts|
  {
    if alts == [] then (highest, best)
    else
      var prev := BestAmong(highest, best, alts[..|alts| - 1]);
      Consider(prev.0, prev.1, alts[|alts| - 1])
  }

  /**
   * One result: a final result appends the running best transcript (whatever the
   * 0.6 threshold says, both branches append it); an interim one appends its first
   * alternative when that has no confidence or one above 0.3. An interim result
   * without alternatives makes the handler throw (`None`).
   */
  function StepResult(st: ScanState, r: SpeechResult): Option<ScanState> {
    if r.isFinal then
      var hb := BestAmong(st.highest, st.best, r.alternatives);
      Some(ScanState(hb.0, hb.1, st.finalText + hb.1, st.interim))
    else if |r.alternatives| == 0 then None
    else
      var a := r.alternatives[0];
      if a.confidence.None? || a.confidence.value > 0.3 then
        Some(st.(interim := st.interim + a.transcript))
      else Some(st)
  }

  /** The walk over all of `event.results`, always from index 0. */
  function ScanAll(results: seq<SpeechResult>): Option<ScanState>
    decreases |results|
  {
    if results == [] then Some(ScanStart)
    else
      match ScanAll(results[..|results| - 1])
      case None => None
      case Some(st) => StepResult(st, results[|results| - 1])
  }

  /**
   * The running best is the maximum of the starting confidence and every defined
   * confidence seen, paired with the transcript that reached it first.
   */
  lemma {:induction false} BestAmongIsMaximum(highest: real, best: string, alts: seq<Alternative>)
    ensures var hb := BestAmong(highest, best, alts);
      && hb.0 >= highest
      && (forall k :: 0 <= k < |alts| && alts[k].confidence.Some? ==> hb.0 >= alts[k].confidence.value)
      && (hb == (highest, best) ||
          (hb.0 > highest &&
           exists k :: 0 <= k < |alts| && alts[k].confidence == Some(hb.0) && alts[k].transcript == hb.1))
    decreases |alts|
  {
    if alts != [] {
      var init := alts[..|alts| - 1];
      BestAmongIsMaximum(highest, best, init);
      var prev := BestAmong(highest, best, init);
      var hb := BestAmong(highest, best, alts);
      forall k | 0 <= k < |alts| && alts[k].confidence.Some?
        ensures hb.0 >= alts[k].confidence.value
      {
        if k < |alts| - 1 {
          assert alts[k] == init[k];
        }
      }
      if hb != prev {
        assert hb == (alts[|alts| - 1].confidence.value, alts[|alts| - 1].transcript);
      } else if prev != (highest, best) {
        var k :| 0 <= k < |init| && init[k].confidence == Some(prev.0) && init[k].transcript == prev.1;
        assert alts[k] == init[k];
      }
    }
  }

  /** Interim results leave the confidence, the best transcript and the final text alone. */
  lemma InterimLeavesFinalText(st: ScanState, r: SpeechResult)
    requires !r.isFinal && |r.alternatives| > 0
    ensures StepResult(st, r).Some?
    ensures var n := StepResult(st, r).value;
      n.highest == st.highest && n.best == st.best && n.finalText == st.finalText
  {
  }

  /**
   * The running best is not reset between results: a final result none of whose
   * alternatives beats the confidence already reached appends the previous best
   * transcript again instead of its own.
   */
  lemma WeakFinalRepeatsBest(st: ScanState, r: SpeechResult)
    requires r.isFinal
    requires forall k :: 0 <= k < |r.alternatives| && r.alternatives[k].confidence.Some? ==>
      r.alternatives[k].confidence.value <= st.highest
    ensures StepResult(st, r) == Some(st.(finalText := st.finalText + st.best))
  {
    BestAmongIsMaximum(st.highest, st.best, r.alternatives);
  }

  /** Two final results, the second one less confident: the event's final text is the first one twice. */
  lemma SecondFinalDropped()
    ensures ScanAll([SpeechResult(true, [Alternative("hello", Some(0.9))]),
                     SpeechResult(true, [Alternative("world", Some(0.5))])])
      == Some(ScanState(0.9, "hello", "hellohello", ""))
  {
    var r1 := SpeechResult(true, [Alternative("hello", Some(0.9))]);
    var r2 := SpeechResult(true, [Alternative("world", Some(0.5))]);
    assert [r1, r2][..1] == [r1];
    assert [r1][..0] == [];
    assert r1.alternatives[..0] == [];
    assert r2.alternatives[..0] == [];
    assert BestAmong(0.0, "", r1.alternatives) == (0.9, "hello");
    assert "" + "hello" == "hello";
    assert StepResult(ScanStart, r1) == Some(ScanState(0.9, "hello", "hello", ""));
    assert ScanAll([r1][..0]) == Some(ScanStart);
    assert ScanAll([r1]) == Some(ScanState(0.9, "hello", "hello", ""));
    assert BestAmong(0.9, "hello", r2.alternatives) == (0.9, "hello");
    assert "hello" + "hello" == "hellohello";
    assert StepResult(ScanState(0.9, "hello", "hello", ""), r2) == Some(ScanState(0.9, "hello", "hellohello", ""));
    assert ScanAll([r1, r2][..1]) == Some(ScanState(0.9, "hello", "hello", ""));
  }

  /** The highest confidence never decreases along the walk, and never drops below zero. */
  lemma {:induction false} ScanHighestNonNegative(results: seq<SpeechResult>)
    requires ScanAll(results).Some?
    ensures ScanAll(results).value.highest >= 0.0
    decreases |results|
  {
    if results != [] {
      var init := results[..|results| - 1];
      ScanHighestNonNegative(init);
      var st := ScanAll(init).value;
      BestAmongIsMaximum(st.highest, st.best, results[|results| - 1].alternatives);
    }
  }

  // ---------------------------------------------------------------- the recogniser

  /** The error codes the handler tells apart. */
  datatype ErrorKind = Network | NotAllowed | NoSpeech | AudioCapture | OtherError(code: string)

  const NetworkNotice: string := "Network error during speech recognition. Please check your connection and try again."
  const MicrophoneNotice: string := "Microphone access denied. Please enable microphone permissions and try again."
  const AudioNotice: string := "Audio capture error. Please check your microphone and try again."

  /** The chat notice an error adds: only the network, permission and audio errors add one. */
  function ErrorNotice(kind: ErrorKind): (notice: Option<string>)
    ensures notice.None? <==> kind.NoSpeech? || kind.OtherError?
  {
    match kind
    case Network => Some(NetworkNotice)
    case NotAllowed => Some(MicrophoneNotice)
    case AudioCapture => Some(AudioNotice)
    case NoSpeech => None
    case OtherError(_) => None
  }

  /** Milliseconds from a result to the silence check it schedules. */
  const SilenceDelay: int := 2500

  /** Milliseconds of silence after which the check stops the recogniser. */
  const SilenceThreshold: int := 2000

  /** Milliseconds after `no-speech` before the recogniser is restarted. */
  const NoSpeechRestartDelay: int := 500

  /** Milliseconds after the end of a session before its transcript is sent. */
  const SendDelay: int := 200

  /** The shared state of the handlers installed on one recogniser. */
  class Recognizer {
    var listening: bool
    var hasDetectedSpeech: bool
    var lastSpeechTime: int
    var completeTranscript: string
    /** When the pending silence check fires, if one is scheduled. */
    var silenceCheckAt: Option<int>

    /** A transcript is only ever collected after speech was detected. */
    predicate Valid()
      reads this
    {
      completeTranscript != "" ==> hasDetectedSpeech
    }

    /** Installing the handlers at time `now`. */
    constructor(now: int)
      ensures Valid()
      ensures !listening && !hasDetectedSpeech && lastSpeechTime == now
      ensures completeTranscript == "" && silenceCheckAt.None?
    {
      listening := false;
      hasDetectedSpeech := false;
      lastSpeechTime := now;
      completeTranscript := "";
      silenceCheckAt := None;
    }

    /** `onstart`: listening, with the detection state and transcript reset. */
    method OnStart(now: int)
      modifies this
      ensures Valid()
      ensures listening && !hasDetectedSpeech && lastSpeechTime == now && completeTranscript == ""
      ensures silenceCheckAt == old(silenceCheckAt)
    {
      listening := true;
      hasDetectedSpeech := false;
      lastSpeechTime := now;
      completeTranscript := "";
    }

    /**
     * `onresult` at time `now`: speech is marked as detected and timed first; then,
     * unless the walk over the results throws, the event's final text is added to
     * the transcript, the silence check is rescheduled, and the trimmed interim text
     * (when not blank) is returned for the input field.
     */
    method OnResult(now: int, results: seq<SpeechResult>) returns (display: Option<string>)
      requires Valid()
      modifies this
      ensures Valid()
      ensures hasDetectedSpeech && lastSpeechTime == now && listening == old(listening)
      ensures ScanAll(results).None? ==>
        display.None? && completeTranscript == old(completeTranscript) && silenceCheckAt == old(silenceCheckAt)
      ensures ScanAll(results).Some? ==>
        var st := ScanAll(results).value;
        && completeTranscript == old(completeTranscript) + st.finalText
        && silenceCheckAt == Some(now + SilenceDelay)
        && display == (if Trim(st.interim) != "" then Some(Trim(st.interim)) else None)
    {
      lastSpeechTime := now;
      hasDetectedSpeech := true;
      var scan := WalkResults(results);
      if scan.None? {
        return None;
      }
      var st := scan.value;
      if st.finalText != "" {
        completeTranscript := completeTranscript + st.finalText;
      }
      silenceCheckAt := Some(now + SilenceDelay);
      var shown := Trim(st.interim);
      display := if shown != "" then Some(shown) else None;
    }

    /**
     * The silence check firing at time `now`. `listeningSeen` is the listening flag
     * as the handler's closure sees it. It asks to stop the recogniser when that flag
     * is set, speech was detected and at least two seconds passed since the last result.
     */
    method SilenceCheck(now: int, listeningSeen: bool) returns (stop: bool)
      requires silenceCheckAt.Some? && now >= silenceCheckAt.value
      modifies this
      ensures stop == (listeningSeen && hasDetectedSpeech && now - lastSpeechTime >= SilenceThreshold)
      ensures silenceCheckAt.None?
      ensures listening == old(listening) && hasDetectedSpeech == old(hasDetectedSpeech)
      ensures lastSpeechTime == old(lastSpeechTime) && completeTranscript == old(completeTranscript)
      ensures old(silenceCheckAt) == Some(old(lastSpeechTime) + SilenceDelay) ==>
        stop == (listeningSeen && hasDetectedSpeech)
    {
      stop := listeningSeen && hasDetectedSpeech && now - lastSpeechTime >= SilenceThreshold;
      silenceCheckAt := None;
    }

    /**
     * `onerror`: listening stops; the chat notice to add, if any, is returned, and
     * whether a restart is scheduled (only after `no-speech`).
     */
    method OnError(kind: ErrorKind) returns (notice: Option<string>, restartScheduled: bool)
      modifies this
      ensures !listening
      ensures notice == ErrorNotice(kind) && restartScheduled == kind.NoSpeech?
      ensures hasDetectedSpeech == old(hasDetectedSpeech) && completeTranscript == old(completeTranscript)
      ensures lastSpeechTime == old(lastSpeechTime) && silenceCheckAt == old(silenceCheckAt)
    {
      listening := false;
      notice := ErrorNotice(kind);
      restartScheduled := kind == NoSpeech;
    }

    /** `onend`: listening stops and the pending silence check is cancelled. */
    method OnEnd()
      modifies this
      ensures !listening && silenceCheckAt.None?
      ensures hasDetectedSpeech == old(hasDetectedSpeech) && completeTranscript == old(completeTranscript)
      ensures lastSpeechTime == old(lastSpeechTime)
    {
      listening := false;
      silenceCheckAt := None;
    }

    /**
     * The auto-send 200 ms after `onend`: the trimmed transcript is returned for
     * sending when it is not blank and speech was detected, and the detection state
     * and transcript are reset either way.
     */
    method FlushTranscript() returns (send: Option<string>)
      modifies this
      ensures Valid()
      ensures send == (if Trim(old(completeTranscript)) != "" && old(hasDetectedSpeech)
                       then Some(Trim(old(completeTranscript))) else None)
      ensures !hasDetectedSpeech && completeTranscript == ""
      ensures listening == old(listening) && lastSpeechTime == old(lastSpeechTime)
      ensures silenceCheckAt == old(silenceCheckAt)
    {
      var finalText := Trim(completeTranscript);
      send := if finalText != "" && hasDetectedSpeech then Some(finalText) else None;
      hasDetectedSpeech := false;
      completeTranscript := "";
    }
  }

  /** The walk over `event.results` with the handler's two nested loops. */
  method WalkResults(results: seq<SpeechResult>) returns (scan: Option<ScanState>)
    ensures scan == ScanAll(results)
  {
    var highest, best, finalText, interim := 0.0, "", "", "";
    var i := 0;
    while i < |results|
      invariant 0 <= i <= |results|
      invariant ScanAll(results[..i]) == Some(ScanState(highest, best, finalText, interim))
    {
      var r := results[i];
      assert results[..i + 1][..i] == results[..i];
      if r.isFinal {
        var j := 0;
        while j < |r.alternatives|
          invariant 0 <= j <= |r.alternatives|
          invariant BestAmong(ScanAll(results[..i]).value.highest, ScanAll(results[..i]).value.best,
                              r.alternatives[..j]) == (highest, best)
        {
          assert r.alternatives[..j + 1][..j] == r.alternatives[..j];
          var a := r.alternatives[j];
          if a.confidence.Some? && a.confidence.value > highest {
            highest := a.confidence.value;
            best := a.transcript;
          }
          j := j + 1;
        }
        assert r.alternatives[..j] == r.alternatives;
        finalText := finalText + best;
      } else {
        if |r.alternatives| == 0 {
          assert ScanAll(results[..i + 1]).None?;
          NoneStaysNone(results, i + 1);
          return None;
        }
        var a := r.alternatives[0];
        if a.confidence.None? || a.confidence.value > 0.3 {
          interim := interim + a.transcript;
        }
      }
      i := i + 1;
    }
    assert results[..i] == results;
    scan := Some(ScanState(highest, best, finalText, interim));
  }

  /** Once the walk has thrown, the later results do not matter. */
  lemma {:induction false} NoneStaysNone(results: seq<SpeechResult>, n: nat)
    requires n <= |results| && ScanAll(results[..n]).None?
    ensures ScanAll(results).None?
    decreases |results| - n
  {
    if n < |results| {
      assert results[..n + 1][..n] == results[..n];
      NoneStaysNone(results, n + 1);
    } else {
      assert results[..n] == results;
    }
  }
}
