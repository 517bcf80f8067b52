/**
 * The regular expressions the reply parser uses to pull the corrected text and
 * the brief explanation out of a tutor reply, written as search functions that
 * follow the JavaScript engine's order of trying: the leftmost start position
 * first, a greedy `\.?\s*` from its longest reach downwards, a lazy `(.+?)`
 * from its shortest capture upwards, and `.` never matching a line terminator.
 */
module ExplanationPatterns {
  import opened Wrappers
  import opened Strings
  import opened Messages

  predicate IsQuote(c: char) {
    c == '\'' || c == '"'
  }

  // ---------------------------------------------------------------------------
  // `['"]([^'"]+)['"]`: a quoted run

  /** A match of `['"]([^'"]+)['"]` at `i`, capturing `c`. Opening and closing quote may differ. */
  predicate QuotedAt(s: string, i: nat, c: string) {
    && i + 1 + |c| < |s|
    && IsQuote(s[i])
    && |c| > 0
    && s[i + 1..i + 1 + |c|] == c
    && (forall k :: 0 <= k < |c| ==> !IsQuote(c[k]))
    && IsQuote(s[i + 1 + |c|])
  }

  /** The first quote at or after `i`. */
  function NextQuote(s: string, i: nat): (q: Option<nat>)
    requires i <= |s|
    decreases |s| - i
    ensures q.Some? ==> i <= q.value < |s| && IsQuote(s[q.value])
    ensures q.Some? ==> forall k :: i <= k < q.value ==> !IsQuote(s[k])
    ensures q.None? ==> forall k :: i <= k < |s| ==> !IsQuote(s[k])
  {
    if i == |s| then None
    else if IsQuote(s[i]) then Some(i)
    else NextQuote(s, i + 1)
  }

  /** The closing quote of the quoted run that starts at `i`, if there is one. */
  function QuotedRunAt(s: string, i: nat): (q: Option<nat>)
    ensures q.Some? ==> i + 1 < q.value < |s| && QuotedAt(s, i, s[i + 1..q.value])
  {
    if i < |s| && IsQuote(s[i]) then
      match NextQuote(s, i + 1)
      case Some(q) => if q > i + 1 then Some(q) else None
      case None => None
    else None
  }

  /** A quoted run at `i` is unique: the closing quote is the first quote after the opening one. */
  lemma QuotedRunAtComplete(s: string, i: nat, c: string)
    requires QuotedAt(s, i, c)
    ensures QuotedRunAt(s, i) == Some(i + 1 + |c|)
  {
    var q := i + 1 + |c|;
    forall k | i + 1 <= k < q ensures !IsQuote(s[k]) {
      assert s[k] == c[k - i - 1];
    }
    var n := NextQuote(s, i + 1);
    assert n.Some? && n.value <= q;
    assert n.value >= q;
  }

  /** The leftmost start of a quoted run at or after `i`. */
  function FirstQuoteFrom(s: string, i: nat): (r: Option<nat>)
    requires i <= |s|
    decreases |s| - i
    ensures r.Some? ==> i <= r.value && QuotedRunAt(s, r.value).Some?
    ensures r.Some? ==> forall j :: i <= j < r.value ==> QuotedRunAt(s, j).None?
    ensures r.None? ==> forall j: nat :: i <= j ==> QuotedRunAt(s, j).None?
  {
    if QuotedRunAt(s, i).Some? then Some(i)
    else if i == |s| then None
    else FirstQuoteFrom(s, i + 1)
  }

  /** `s.match(/['"]([^'"]+)['"]/)?.[1]`: the first quoted run of `s`. */
  function FirstQuoted(s: string): Option<string> {
    match FirstQuoteFrom(s, 0)
    case None => None
    case Some(i) => Some(s[i + 1..QuotedRunAt(s, i).value])
  }

  /**
   * `FirstQuoted` finds exactly the leftmost quoted run: it is `None` only when
   * `s` has none, and otherwise returns the capture of a run no other run starts before.
   */
  lemma FirstQuotedSpec(s: string)
    ensures FirstQuoted(s).None? <==> forall i: nat, c: string :: !QuotedAt(s, i, c)
    ensures FirstQuoted(s).Some? ==>
      exists i: nat :: QuotedAt(s, i, FirstQuoted(s).value)
        && forall j: nat, c: string :: j < i ==> !QuotedAt(s, j, c)
  {
    forall i: nat, c: string | QuotedAt(s, i, c) ensures FirstQuoteFrom(s, 0).Some? && FirstQuoteFrom(s, 0).value <= i {
      QuotedRunAtComplete(s, i, c);
    }
    match FirstQuoteFrom(s, 0)
    case None =>
    case Some(i) =>
      var c := FirstQuoted(s).value;
      assert QuotedAt(s, i, c);
      forall j: nat, c': string | j < i ensures !QuotedAt(s, j, c') {
        if QuotedAt(s, j, c') {
          QuotedRunAtComplete(s, j, c');
        }
        assert QuotedAt(s, j, c') ==> QuotedRunAt(s, j).Some?;
      }
  }

  // ---------------------------------------------------------------------------
  // lazy groups and what follows them

  /** The index a greedy `\s*` starting at `i` stops at. */
  function SkipSpaces(s: string, i: nat): (j: nat)
    requires i <= |s|
    decreases |s| - i
    ensures i <= j <= |s|
    ensures forall k :: i <= k < j ==> IsSpace(s[k])
    ensures j < |s| ==> !IsSpace(s[j])
  {
    if i < |s| && IsSpace(s[i]) then SkipSpaces(s, i + 1) else i
  }

  /**
   * What must follow a lazy group: a literal text, or `\.\s*` and then a literal
   * text. In the second form, backing `\s*` off can never help because every
   * literal text used here begins with a letter, so skipping all spaces is exact.
   */
  datatype Tail = Literal(text: string) | DotSpacesLiteral(text: string)

  predicate TailAt(s: string, m: nat, t: Tail) {
    match t
    case Literal(x) => OccursAt(s, x, m)
    case DotSpacesLiteral(x) => m < |s| && s[m] == '.' && OccursAt(s, x, SkipSpaces(s, m + 1))
  }

  /** `s[a..m]` is a capture `(.+?)` may make, followed by the tail `t`. */
  predicate GroupMatch(s: string, a: nat, m: nat, t: Tail) {
    && a < m <= |s|
    && (forall j :: a <= j < m ==> !IsLineTerminator(s[j]))
    && TailAt(s, m, t)
  }

  function LazyEndFrom(s: string, a: nat, m: nat, t: Tail): (r: Option<nat>)
    requires a < m
    requires forall j :: a <= j < m - 1 ==> j < |s| && !IsLineTerminator(s[j])
    requires forall k :: a < k < m ==> !GroupMatch(s, a, k, t)
    decreases |s| + 1 - m
    ensures r.Some? ==> GroupMatch(s, a, r.value, t)
    ensures r.Some? ==> forall k :: a < k < r.value ==> !GroupMatch(s, a, k, t)
    ensures r.None? ==> forall k :: a < k ==> !GroupMatch(s, a, k, t)
  {
    if m > |s| || IsLineTerminator(s[m - 1]) then None
    else if TailAt(s, m, t) then Some(m)
    else LazyEndFrom(s, a, m + 1, t)
  }

  /** The end of the shortest capture of `(.+?)` starting at `a` that the tail accepts. */
  function LazyEnd(s: string, a: nat, t: Tail): (r: Option<nat>)
    ensures r.Some? ==> GroupMatch(s, a, r.value, t)
    ensures r.Some? ==> forall k :: a < k < r.value ==> !GroupMatch(s, a, k, t)
    ensures r.None? ==> forall k :: a < k ==> !GroupMatch(s, a, k, t)
  {
    LazyEndFrom(s, a, a + 1, t)
  }

  /** The farthest index `\.?\s*` reaches from `p`; every index from `p` up to it is reachable too. */
  function OptDotSpaces(s: string, p: nat): (a: nat)
    requires p <= |s|
    ensures p <= a <= |s|
  {
    SkipSpaces(s, if p < |s| && s[p] == '.' then p + 1 else p)
  }

  /** Capture starts from `hi` down to `lo`, the order in which backtracking out of a greedy `\.?\s*` tries them. */
  function Descend(s: string, lo: nat, hi: nat, t: Tail): (r: Option<(nat, nat)>)
    requires lo <= hi <= |s|
    decreases hi
    ensures r.Some? ==> lo <= r.value.0 <= hi && GroupMatch(s, r.value.0, r.value.1, t)
  {
    match LazyEnd(s, hi, t)
    case Some(m) => Some((hi, m))
    case None => if hi == lo then None else Descend(s, lo, hi - 1, t)
  }

  /** When `Descend` finds nothing, no start in `lo..hi` has a lazy capture. */
  lemma {:induction false} DescendNone(s: string, lo: nat, hi: nat, t: Tail)
    requires lo <= hi <= |s|
    requires Descend(s, lo, hi, t).None?
    decreases hi
    ensures forall a :: lo <= a <= hi ==> LazyEnd(s, a, t).None?
  {
    if hi > lo {
      DescendNone(s, lo, hi - 1, t);
    }
  }

  /**
   * When `Descend` finds a start, it is the highest start in `lo..hi` with a
   * lazy capture, and the end it returns is that shortest capture's end.
   */
  lemma {:induction false} DescendHighest(s: string, lo: nat, hi: nat, t: Tail)
    requires lo <= hi <= |s|
    requires Descend(s, lo, hi, t).Some?
    decreases hi
    ensures LazyEnd(s, Descend(s, lo, hi, t).value.0, t) == Some(Descend(s, lo, hi, t).value.1)
    ensures forall a :: Descend(s, lo, hi, t).value.0 < a <= hi ==> LazyEnd(s, a, t).None?
  {
    var here := LazyEnd(s, hi, t);
    if here.None? {
      var r := Descend(s, lo, hi - 1, t);
      assert Descend(s, lo, hi, t) == r;
      DescendHighest(s, lo, hi - 1, t);
      forall a | r.value.0 < a <= hi
        ensures LazyEnd(s, a, t).None?
      {
        if a == hi {
          assert LazyEnd(s, a, t) == here;
        }
      }
    }
  }

  // ---------------------------------------------------------------------------
  // the patterns

  /** The capture groups of a match: `match[1]` and, for two-group patterns, `match[2]`. */
  datatype Match = Match(first: string, second: Option<string>)

  datatype Pattern =
    | SentenceThen(tail: Tail)   // /\. (.+?)TAIL/
    | QuotedThen(tail: Tail)     // /['"]([^'"]+)['"]\.?\s*(.+?)TAIL/
    | LooseThen(tail: Tail)      // /\.?\s*(.+?)TAIL/

  /** The match of `pat` that starts exactly at `i`, if any. */
  function AttemptAt(s: string, pat: Pattern, i: nat): Option<Match>
    requires i <= |s|
  {
    match pat
    case SentenceThen(t) =>
      if OccursAt(s, ". ", i) then
        (match LazyEnd(s, i + 2, t)
         case Some(m) => Some(Match(s[i + 2..m], None))
         case None => None)
      else None
    case QuotedThen(t) =>
      (match QuotedRunAt(s, i)
       case None => None
       case Some(q) =>
         (match Descend(s, q + 1, OptDotSpaces(s, q + 1), t)
          case None => None
          case Some(am) => Some(Match(s[i + 1..q], Some(s[am.0..am.1])))))
    case LooseThen(t) =>
      match Descend(s, i, OptDotSpaces(s, i), t)
      case None => None
      case Some(am) => Some(Match(s[am.0..am.1], None))
  }

  /** The leftmost start at or after `i` where `pat` has a match. */
  function FirstAttemptFrom(s: string, pat: Pattern, i: nat): (r: Option<nat>)
    requires i <= |s|
    decreases |s| - i
    ensures r.Some? ==> i <= r.value <= |s| && AttemptAt(s, pat, r.value).Some?
    ensures r.Some? ==> forall j :: i <= j < r.value ==> AttemptAt(s, pat, j).None?
    ensures r.None? ==> forall j :: i <= j <= |s| ==> AttemptAt(s, pat, j).None?
  {
    if AttemptAt(s, pat, i).Some? then Some(i)
    else if i == |s| then None
    else FirstAttemptFrom(s, pat, i + 1)
  }

  /**
   * `s.match(pat)`: the match at the leftmost start position that admits one,
   * and None only when no start position admits one.
   */
  function Search(s: string, pat: Pattern): (r: Option<Match>)
    ensures r.Some? ==> exists j :: (0 <= j <= |s| && AttemptAt(s, pat, j) == r
      && forall k :: 0 <= k < j ==> AttemptAt(s, pat, k).None?)
    ensures r.None? ==> forall j :: 0 <= j <= |s| ==> AttemptAt(s, pat, j).None?
  {
    match FirstAttemptFrom(s, pat, 0)
    case None => None
    case Some(j) => AttemptAt(s, pat, j)
  }

  /** The literal a tail ends with. */
  function TailText(t: Tail): string {
    match t
    case Literal(x) => x
    case DotSpacesLiteral(x) => x
  }

  /** A lazy group only matches where the literal of its tail occurs. */
  lemma GroupNeedsTail(s: string, a: nat, m: nat, t: Tail)
    requires GroupMatch(s, a, m, t)
    ensures Contains(s, TailText(t))
  {
    match t
    case Literal(x) =>
      assert OccursAt(s, x, m);
    case DotSpacesLiteral(x) =>
      assert OccursAt(s, x, SkipSpaces(s, m + 1));
  }

  /** The group positions of the match of `pat` at `i`. */
  function GroupSpan(s: string, pat: Pattern, i: nat): (am: (nat, nat))
    requires i <= |s|
    requires AttemptAt(s, pat, i).Some?
    ensures GroupMatch(s, am.0, am.1, pat.tail)
  {
    match pat
    case SentenceThen(t) =>
      assert OccursAt(s, ". ", i);
      var m := LazyEnd(s, i + 2, t);
      assert m.Some?;
      (i + 2, m.value)
    case QuotedThen(t) =>
      var q := QuotedRunAt(s, i);
      assert q.Some?;
      var am := Descend(s, q.value + 1, OptDotSpaces(s, q.value + 1), t);
      assert am.Some?;
      am.value
    case LooseThen(t) =>
      var am := Descend(s, i, OptDotSpaces(s, i), t);
      assert am.Some?;
      am.value
  }

  /** A pattern can only match a text that contains the literal its tail ends with. */
  lemma AttemptNeedsTail(s: string, pat: Pattern, i: nat)
    requires i <= |s|
    requires AttemptAt(s, pat, i).Some?
    ensures Contains(s, TailText(pat.tail))
  {
    var am := GroupSpan(s, pat, i);
    GroupNeedsTail(s, am.0, am.1, pat.tail);
  }

  lemma SearchNeedsTail(s: string, pat: Pattern)
    requires Search(s, pat).Some?
    ensures Contains(s, TailText(pat.tail))
  {
    var j :| 0 <= j <= |s| && AttemptAt(s, pat, j) == Search(s, pat);
    AttemptNeedsTail(s, pat, j);
  }

  // ---------------------------------------------------------------------------
  // the explanation chain

  /** The ordered pattern list of the brief-explanation extraction. */
  const Chain: seq<Pattern> := [
    SentenceThen(Literal(". " + RetryQuestion)),
    SentenceThen(Literal(". " + RussianMarker)),
    QuotedThen(DotSpacesLiteral(RetryQuestion)),
    QuotedThen(DotSpacesLiteral(RussianMarker))
  ]

  /** The fallback pattern, tried on the text after the quoted correction (no `?` after "again"). */
  const Fallback: Pattern := LooseThen(DotSpacesLiteral("Can you try saying it again"))

  /** `match[1] || match[2] || ''`, the value the source takes from a match. */
  function PickAsWritten(mt: Match): string {
    if mt.first != "" then mt.first
    else if mt.second.Some? && mt.second.value != "" then mt.second.value
    else ""
  }

  /** The explanation group of a match: group 2 of the quoted patterns, group 1 of the others. */
  function Captured(pat: Pattern, mt: Match): string {
    if pat.QuotedThen? && mt.second.Some? then mt.second.value else mt.first
  }

  /**
   * As the source picks it, what a quoted pattern yields is always the quoted text
   * itself, never the explanation that follows it.
   */
  lemma QuotedPatternYieldsQuotedText(s: string, t: Tail)
    requires Search(s, QuotedThen(t)).Some?
    ensures exists i: nat :: QuotedAt(s, i, PickAsWritten(Search(s, QuotedThen(t)).value))
  {
    var mt := Search(s, QuotedThen(t)).value;
    var i :| 0 <= i <= |s| && AttemptAt(s, QuotedThen(t), i) == Some(mt);
    var q := QuotedRunAt(s, i).value;
    assert mt.first == s[i + 1..q];
    assert QuotedAt(s, i, PickAsWritten(mt));
  }

  /**
   * With the explanation group, a quoted pattern yields the text that runs up to the
   * tail: it has no line terminator and is followed by `.`, spaces and the tail's literal.
   */
  lemma QuotedPatternYieldsExplanation(s: string, t: Tail)
    requires Search(s, QuotedThen(t)).Some?
    ensures exists a: nat, m: nat ::
      (GroupMatch(s, a, m, t) && Captured(QuotedThen(t), Search(s, QuotedThen(t)).value) == s[a..m])
  {
    var mt := Search(s, QuotedThen(t)).value;
    var i :| 0 <= i <= |s| && AttemptAt(s, QuotedThen(t), i) == Some(mt);
    var am := GroupSpan(s, QuotedThen(t), i);
    assert mt.second == Some(s[am.0..am.1]);
    assert GroupMatch(s, am.0, am.1, t) && Captured(QuotedThen(t), mt) == s[am.0..am.1];
  }

  /** A reply the third pattern handles: `'a' b. Can you try saying it again?`. */
  const QuotedSample: string := "'a' b. " + RetryQuestion

  /** On that reply the source's third pattern yields the correction `a` where the explanation is `b`. */
  lemma QuotedPatternSample()
    ensures Search(QuotedSample, Chain[2]) == Some(Match("a", Some("b")))
    ensures PickAsWritten(Search(QuotedSample, Chain[2]).value) == "a"
    ensures Captured(Chain[2], Search(QuotedSample, Chain[2]).value) == "b"
  {
    var s := QuotedSample;
    var t := DotSpacesLiteral(RetryQuestion);
    assert s[0] == '\'' && s[1] == 'a' && s[2] == '\'' && s[3] == ' ' && s[4] == 'b' && s[5] == '.' && s[6] == ' ';
    assert NextQuote(s, 1) == Some(2);
    assert QuotedRunAt(s, 0) == Some(2);
    assert SkipSpaces(s, 4) == 4;
    assert SkipSpaces(s, 3) == 4;
    assert OptDotSpaces(s, 3) == 4;
    assert SkipSpaces(s, 6) == 7;
    assert s[7..7 + |RetryQuestion|] == RetryQuestion;
    assert TailAt(s, 5, t);
    assert LazyEnd(s, 4, t) == Some(5);
    assert Descend(s, 3, 4, t) == Some((4, 5));
    assert s[1..2] == "a" && s[4..5] == "b";
    assert Chain[2] == QuotedThen(t);
    assert AttemptAt(s, QuotedThen(t), 0) == Some(Match("a", Some("b")));
  }

  /** The first pattern of `patterns` with a match, as the source's `for ... break` loop finds it. */
  function FirstMatching(s: string, patterns: seq<Pattern>): (r: Option<(Pattern, Match)>)
    ensures r.Some? ==> r.value.0 in patterns && Search(s, r.value.0) == Some(r.value.1)
    ensures r.None? ==> forall p :: p in patterns ==> Search(s, p).None?
    ensures r.Some? ==> exists k :: (0 <= k < |patterns| && patterns[k] == r.value.0 &&
      forall j :: 0 <= j < k ==> Search(s, patterns[j]).None?)
  {
    if patterns == [] then None
    else match Search(s, patterns[0])
      case Some(mt) => Some((patterns[0], mt))
      case None =>
        var r := FirstMatching(s, patterns[1..]);
        assert r.Some? ==> exists k :: (1 <= k < |patterns| && patterns[k] == r.value.0 &&
          forall j :: 0 <= j < k ==> Search(s, patterns[j]).None?) by {
          if r.Some? {
            var k :| 0 <= k < |patterns[1..]| && patterns[1..][k] == r.value.0 &&
              forall j :: 0 <= j < k ==> Search(s, patterns[1..][j]).None?;
            assert patterns[k + 1] == r.value.0;
            assert forall j :: 1 <= j < k + 1 ==> patterns[j] == patterns[1..][j - 1];
          }
        }
        r
  }

  /** A pattern cannot match a text holding no copy of one of its tail's characters. */
  lemma MissingCharNoMatch(s: string, pat: Pattern, k: nat)
    requires k < |TailText(pat.tail)| && TailText(pat.tail)[k] !in s
    ensures Search(s, pat).None?
  {
    if Search(s, pat).Some? {
      SearchNeedsTail(s, pat);
    }
  }

  /** The first pattern needs `. ` twice, the second time right before the question; the sample has it once. */
  lemma FirstPatternMissesSample(j: nat)
    requires j <= |QuotedSample|
    ensures AttemptAt(QuotedSample, Chain[0], j).None?
  {
    var s := QuotedSample;
    var t := Literal(". " + RetryQuestion);
    assert |s| == 35 && |TailText(t)| == 30 && Chain[0] == SentenceThen(t);
    if j < 3 {
      assert s[0] == '\'' && s[1] == 'a' && s[2] == '\'';
      assert !OccursAt(s, ". ", j) by {
        if j + 2 <= |s| {
          assert s[j..j + 2][0] == s[j];
        }
      }
    } else if j + 2 <= |s| {
      assert LazyEnd(s, j + 2, t).None?;
    }
  }

  /**
   * On the sample reply the whole chain is tried: the first pattern finds no second
   * `. ` before the question, the second finds no Russian marker, and the third matches.
   * The source's pick then shows the correction `a` as the explanation, where the
   * intended one is `b`.
   */
  lemma SampleChain()
    ensures FirstMatching(QuotedSample, Chain) == Some((Chain[2], Match("a", Some("b"))))
    ensures ExplanationAsWritten(QuotedSample, "a") == "a"
    ensures Explanation(QuotedSample, "a") == "b"
  {
    var s := QuotedSample;
    SampleMissesFirst();
    SampleMissesSecond();
    QuotedPatternSample();
    assert Chain[1..][0] == Chain[1] && Chain[1..][1..] == Chain[2..] && Chain[2..][0] == Chain[2];
    assert FirstMatching(s, Chain) == FirstMatching(s, Chain[1..]);
    assert FirstMatching(s, Chain[1..]) == FirstMatching(s, Chain[2..]);
  }

  /** No start position of the sample admits the first pattern. */
  lemma SampleMissesFirst()
    ensures Search(QuotedSample, Chain[0]).None?
  {
    forall j | 0 <= j <= |QuotedSample| ensures AttemptAt(QuotedSample, Chain[0], j).None? {
      FirstPatternMissesSample(j);
    }
  }

  /** The sample holds no `R`, which the Russian marker starts with. */
  lemma SampleMissesSecond()
    ensures Search(QuotedSample, Chain[1]).None?
  {
    assert TailText(Chain[1].tail)[2] == 'R';
    assert 'R' !in QuotedSample;
    MissingCharNoMatch(QuotedSample, Chain[1], 2);
  }

  /** The text after the quoted correction: the piece after the first `"corrected"`, else after the first `'corrected'`. */
  function AfterCorrection(english: string, corrected: string): string {
    var dq := Piece(Split(english, "\"" + corrected + "\""), 1);
    if dq != "" then dq else Piece(Split(english, "'" + corrected + "'"), 1)
  }

  /** The fallback extraction: the trimmed lazy group before "Can you try saying it again" in the text after the correction. */
  function FallbackExplanation(english: string, corrected: string): string {
    var after := AfterCorrection(english, corrected);
    if after == "" then ""
    else match Search(after, Fallback)
      case Some(mt) => Trim(mt.first)
      case None => ""
  }

  /** The brief explanation of a mistake reply's English part. */
  function Explanation(english: string, corrected: string): string {
    var chained := match FirstMatching(english, Chain)
      case Some(pm) => Captured(pm.0, pm.1)
      case None => "";
    if chained == "" && corrected != "" then FallbackExplanation(english, corrected) else chained
  }

  /** The brief explanation as the source computes it, taking `match[1] || match[2]` from the first matching pattern. */
  function ExplanationAsWritten(english: string, corrected: string): string {
    var chained := match FirstMatching(english, Chain)
      case Some(pm) => PickAsWritten(pm.1)
      case None => "";
    if chained == "" && corrected != "" then FallbackExplanation(english, corrected) else chained
  }

  /**
   * Whenever a quoted pattern is the first to match, the explanation as written is a
   * quoted run of the reply (the correction), while the corrected extraction is the
   * text between the quoted run and the tail.
   */
  lemma QuotedMatchExplainsWithQuote(english: string, corrected: string)
    requires FirstMatching(english, Chain).Some? && FirstMatching(english, Chain).value.0.QuotedThen?
    ensures exists i: nat :: QuotedAt(english, i, ExplanationAsWritten(english, corrected))
    ensures var pm := FirstMatching(english, Chain).value;
      exists a: nat, m: nat :: GroupMatch(english, a, m, pm.0.tail) && Explanation(english, corrected) == english[a..m]
  {
    var pm := FirstMatching(english, Chain).value;
    QuotedPatternYieldsQuotedText(english, pm.0.tail);
    QuotedPatternYieldsExplanation(english, pm.0.tail);
    var i: nat :| QuotedAt(english, i, PickAsWritten(pm.1));
    ChainPicked(english, corrected);
    var a: nat, m: nat :| GroupMatch(english, a, m, pm.0.tail) && Captured(pm.0, pm.1) == english[a..m];
    assert |english[a..m]| > 0;
  }

  /** A non-empty pick from the chain is the explanation; the fallback is not consulted. */
  lemma ChainPicked(english: string, corrected: string)
    requires FirstMatching(english, Chain).Some?
    ensures var pm := FirstMatching(english, Chain).value;
      PickAsWritten(pm.1) != "" ==> ExplanationAsWritten(english, corrected) == PickAsWritten(pm.1)
    ensures var pm := FirstMatching(english, Chain).value;
      Captured(pm.0, pm.1) != "" ==> Explanation(english, corrected) == Captured(pm.0, pm.1)
  {
  }

  /** A match of the second or the fourth pattern puts the Russian marker in the text. */
  lemma RussianPatternsNeedMarker(s: string)
    ensures Search(s, Chain[1]).Some? ==> Contains(s, RussianMarker)
    ensures Search(s, Chain[3]).Some? ==> Contains(s, RussianMarker)
  {
    var p1 := ". " + RussianMarker;
    if Search(s, Chain[1]).Some? {
      SearchNeedsTail(s, Chain[1]);
      var i: nat :| i <= |s| && OccursAt(s, p1, i);
      assert s[i + 2..i + 2 + |RussianMarker|] == p1[2..];
      assert OccursAt(s, RussianMarker, i + 2);
    }
    if Search(s, Chain[3]).Some? {
      SearchNeedsTail(s, Chain[3]);
    }
  }

  /** The two patterns that end with the Russian marker never match a text without that marker. */
  lemma RussianPatternsNeverMatch(s: string)
    requires !Contains(s, RussianMarker)
    ensures Search(s, Chain[1]).None? && Search(s, Chain[3]).None?
    ensures FirstMatching(s, Chain) == FirstMatching(s, [Chain[0], Chain[2]])
  {
    RussianPatternsNeedMarker(s);
    assert Chain[1..][1..] == [Chain[2], Chain[3]];
  }
}
