/**
 * `renderMarkdown`: the three global regular-expression replacements the chat
 * applies to a message's text before showing it as HTML: `**x**` becomes
 * `<strong>x</strong>`, then `*x*` becomes `<em>x</em>`, then every line feed
 * becomes `<br />`.
 */
module Markdown {
  import opened Wrappers
  import opened Strings

  /**
   * Where the lazy group `(.*?)` followed by the delimiter `d` stops, scanning from
   * `i`: the first occurrence of `d` at or after `i`, provided no line terminator
   * (which `.` refuses) comes before it.
   */
  function LazyClose(s: string, d: string, i: nat): (r: Option<nat>)
    requires i <= |s|
    decreases |s| - i
    ensures r.Some? ==> i <= r.value && OccursAt(s, d, r.value)
    ensures r.Some? ==> forall k :: i <= k < r.value ==> !OccursAt(s, d, k) && !IsLineTerminator(s[k])
    ensures r.None? && |d| > 0 ==>
      forall k :: i <= k <= |s| && OccursAt(s, d, k) ==> exists m :: i <= m < k && IsLineTerminator(s[m])
  {
    if OccursAt(s, d, i) then Some(i)
    else if i == |s| || IsLineTerminator(s[i]) then None
    else LazyClose(s, d, i + 1)
  }

  /**
   * `s.replace(/D(.*?)D/g, open + '$1' + close)` for the delimiter `d`: the
   * leftmost match is replaced and the search resumes on the text after it.
   */
  function ReplaceDelimited(s: string, d: string, open: string, close: string): string
    requires |d| > 0
    decreases |s|
  {
    if s == [] then ""
    else if OccursAt(s, d, 0) && LazyClose(s, d, |d|).Some? then
      var j := LazyClose(s, d, |d|).value;
      open + s[|d|..j] + close + ReplaceDelimited(s[j + |d|..], d, open, close)
    else
      [s[0]] + ReplaceDelimited(s[1..], d, open, close)
  }

  /** `s.replace(/\n/g, '<br />')`. */
  function ReplaceNewlines(s: string): (r: string)
    ensures forall k :: 0 <= k < |r| ==> r[k] != '\n'
    ensures (forall k :: 0 <= k < |s| ==> s[k] != '\n') ==> r == s
  {
    if s == [] then []
    else if s[0] == '\n' then "<br />" + ReplaceNewlines(s[1..])
    else [s[0]] + ReplaceNewlines(s[1..])
  }

  /** The rendered text never holds a line feed: each one became `<br />`. */
  function RenderMarkdown(text: string): (html: string)
    ensures forall k :: 0 <= k < |html| ==> html[k] != '\n'
  {
    var bold := ReplaceDelimited(text, "**", "<strong>", "</strong>");
    var italic := ReplaceDelimited(bold, "*", "<em>", "</em>");
    ReplaceNewlines(italic)
  }

  predicate NoStar(s: string) {
    forall k :: 0 <= k < |s| ==> s[k] != '*'
  }

  /** Without an asterisk nothing matches, whatever the replacement. */
  lemma {:induction false} NoDelimiterNoChange(s: string, d: string, open: string, close: string)
    requires |d| > 0 && d[0] == '*' && NoStar(s)
    ensures ReplaceDelimited(s, d, open, close) == s
    decreases |s|
  {
    if s != [] {
      if |d| <= |s| {
        assert s[0..|d|][0] == s[0];
      }
      assert ReplaceDelimited(s, d, open, close) == [s[0]] + ReplaceDelimited(s[1..], d, open, close);
      NoDelimiterNoChange(s[1..], d, open, close);
      assert s == [s[0]] + s[1..];
    }
  }

  /** Text without asterisks is rendered with only its line feeds changed, and plain one-line text unchanged. */
  lemma PlainTextRendering(text: string)
    requires NoStar(text)
    ensures RenderMarkdown(text) == ReplaceNewlines(text)
    ensures (forall k :: 0 <= k < |text| ==> text[k] != '\n') ==> RenderMarkdown(text) == text
  {
    NoDelimiterNoChange(text, "**", "<strong>", "</strong>");
    NoDelimiterNoChange(text, "*", "<em>", "</em>");
  }

  predicate OneLine(s: string) {
    forall k :: 0 <= k < |s| ==> !IsLineTerminator(s[k])
  }

  predicate NoLineFeed(s: string) {
    forall k :: 0 <= k < |s| ==> s[k] != '\n'
  }

  lemma PlainConcat(a: string, b: string)
    requires NoStar(a) && NoStar(b) && NoLineFeed(a) && NoLineFeed(b)
    ensures NoStar(a + b) && NoLineFeed(a + b)
  {
    assert forall k :: |a| <= k < |a + b| ==> (a + b)[k] == b[k - |a|];
  }

  /** A starless one-line word between double asterisks becomes bold, and the asterisks disappear. */
  lemma BoldWord(w: string)
    requires NoStar(w) && OneLine(w)
    ensures RenderMarkdown("**" + w + "**") == "<strong>" + w + "</strong>"
  {
    var bold := "<strong>" + w + "</strong>";
    BoldPass(w);
    assert NoLineFeed(w);
    PlainConcat("<strong>", w);
    PlainConcat("<strong>" + w, "</strong>");
    NoDelimiterNoChange(bold, "*", "<em>", "</em>");
  }

  /** The double-asterisk pass turns `**w**` into `<strong>w</strong>`. */
  lemma BoldPass(w: string)
    requires NoStar(w) && OneLine(w)
    ensures ReplaceDelimited("**" + w + "**", "**", "<strong>", "</strong>") == "<strong>" + w + "</strong>"
  {
    var s := "**" + w + "**";
    var n := |w| + 2;
    assert OccursAt(s, "**", 0) by { assert s[0..2] == "**"; }
    assert OccursAt(s, "**", n) by { assert s[n..n + 2] == "**"; }
    forall k | 2 <= k < n
      ensures !OccursAt(s, "**", k) && !IsLineTerminator(s[k])
    {
      assert s[k] == w[k - 2];
      assert s[k..k + 2][0] == s[k];
    }
    LazyCloseFinds(s, "**", 2, n);
    assert s[2..n] == w && s[n + 2..] == [];
  }

  /** The lazy group stops at the first delimiter when no line terminator or delimiter precedes it. */
  lemma {:induction false} LazyCloseFinds(s: string, d: string, i: nat, j: nat)
    requires i <= j <= |s| && OccursAt(s, d, j)
    requires forall k :: i <= k < j ==> !OccursAt(s, d, k) && !IsLineTerminator(s[k])
    ensures LazyClose(s, d, i) == Some(j)
    decreases j - i
  {
    if i < j {
      LazyCloseFinds(s, d, i + 1, j);
    }
  }

  /** Line feeds are replaced one by one: the replacement distributes over concatenation. */
  lemma {:induction false} NewlinesDistribute(a: string, b: string)
    ensures ReplaceNewlines(a + b) == ReplaceNewlines(a) + ReplaceNewlines(b)
    ensures ReplaceNewlines("\n") == "<br />"
  {
    if a != [] {
      assert (a + b)[0] == a[0] && (a + b)[1..] == a[1..] + b;
      NewlinesDistribute(a[1..], b);
      var head := if a[0] == '\n' then "<br />" else [a[0]];
      assert ReplaceNewlines(a) == head + ReplaceNewlines(a[1..]);
      assert ReplaceNewlines(a + b) == head + ReplaceNewlines(a[1..] + b);
    } else {
      assert a + b == b;
    }
  }

  /** Where the delimiter occurs nowhere, the pass copies the text unchanged. */
  lemma {:induction false} NoOccurrenceNoChange(s: string, d: string, open: string, close: string)
    requires |d| > 0
    requires forall k :: 0 <= k < |s| ==> !OccursAt(s, d, k)
    ensures ReplaceDelimited(s, d, open, close) == s
    decreases |s|
  {
    if s != [] {
      assert ReplaceDelimited(s, d, open, close) == [s[0]] + ReplaceDelimited(s[1..], d, open, close);
      forall k | 0 <= k < |s[1..]|
        ensures !OccursAt(s[1..], d, k)
      {
        OccursShift(s, d, 1, k);
      }
      NoOccurrenceNoChange(s[1..], d, open, close);
      assert s == [s[0]] + s[1..];
    }
  }

  /** The delimiter occurs in `s[i..]` at `k` exactly when it occurs in `s` at `i + k`. */
  lemma OccursShift(s: string, d: string, i: nat, k: nat)
    requires i + k <= |s|
    ensures OccursAt(s[i..], d, k) <==> OccursAt(s, d, i + k)
  {
    if i + k + |d| <= |s| {
      assert s[i + k..i + k + |d|] == s[i..][k..k + |d|];
    }
  }

  /** The single-asterisk pass turns `*w*` into `<em>w</em>`. */
  lemma ItalicPass(w: string)
    requires w != "" && NoStar(w) && OneLine(w)
    ensures ReplaceDelimited("*" + w + "*", "*", "<em>", "</em>") == "<em>" + w + "</em>"
  {
    var s := "*" + w + "*";
    var n := |w| + 1;
    assert OccursAt(s, "*", 0) by { assert s[0..1] == "*"; }
    assert OccursAt(s, "*", n) by { assert s[n..n + 1] == "*"; }
    forall k | 1 <= k < n
      ensures !OccursAt(s, "*", k) && !IsLineTerminator(s[k])
    {
      assert s[k] == w[k - 1];
      assert s[k..k + 1][0] == s[k];
    }
    LazyCloseFinds(s, "*", 1, n);
    assert s[1..n] == w && s[n + 1..] == [];
  }

  /**
   * A non-empty starless one-line word between single asterisks becomes italic: the
   * double-asterisk pass finds no `**` in it and the single-asterisk pass converts it.
   */
  lemma ItalicWord(w: string)
    requires w != "" && NoStar(w) && OneLine(w)
    ensures RenderMarkdown("*" + w + "*") == "<em>" + w + "</em>"
  {
    var s := "*" + w + "*";
    var n := |w| + 1;
    forall k | 0 <= k < |s|
      ensures !OccursAt(s, "**", k)
    {
      if k + 2 <= |s| {
        assert s[k..k + 2][0] == s[k] && s[k..k + 2][1] == s[k + 1];
        if k + 1 < n {
          assert s[k + 1] == w[k];
        } else {
          assert s[k] == w[k - 1];
        }
      }
    }
    NoOccurrenceNoChange(s, "**", "<strong>", "</strong>");
    ItalicPass(w);
    var italic := "<em>" + w + "</em>";
    assert NoLineFeed(w);
    PlainConcat("<em>", w);
    PlainConcat("<em>" + w, "</em>");
  }

  /** An asterisk-free prefix is copied as it stands, and the pass goes on with what follows it. */
  lemma {:induction false} StarlessPrefixCopied(p: string, y: string, d: string, open: string, close: string)
    requires |d| > 0 && d[0] == '*' && NoStar(p)
    ensures ReplaceDelimited(p + y, d, open, close) == p + ReplaceDelimited(y, d, open, close)
    decreases |p|
  {
    if p == [] {
      assert p + y == y;
    } else {
      var s := p + y;
      assert s[0] == p[0];
      if |d| <= |s| {
        assert s[0..|d|][0] == s[0];
      }
      assert ReplaceDelimited(s, d, open, close) == [p[0]] + ReplaceDelimited(s[1..], d, open, close);
      assert s[1..] == p[1..] + y;
      StarlessPrefixCopied(p[1..], y, d, open, close);
      assert p + ReplaceDelimited(y, d, open, close) == [p[0]] + (p[1..] + ReplaceDelimited(y, d, open, close));
    }
  }

  /** A match at the very start: `d + w + d` is rewritten and the pass goes on with the rest. */
  lemma SpanAtStart(d: string, w: string, rest: string, open: string, close: string)
    requires |d| > 0 && d[0] == '*' && NoStar(w) && OneLine(w)
    ensures ReplaceDelimited(d + w + d + rest, d, open, close)
      == open + w + close + ReplaceDelimited(rest, d, open, close)
  {
    var t := d + w + d + rest;
    var b := |d|;
    var c := b + |w|;
    assert OccursAt(t, d, 0) by { assert t[0..b] == d; }
    assert OccursAt(t, d, c) by { assert t[c..c + b] == d; }
    assert t[b..c] == w;
    assert t[c + b..] == rest;
    forall k | b <= k < c
      ensures !OccursAt(t, d, k) && !IsLineTerminator(t[k])
    {
      assert t[k] == w[k - b];
      if k + b <= |t| {
        assert t[k..k + b][0] == t[k];
      }
    }
    LazyCloseFinds(t, d, b, c);
    assert ReplaceDelimited(t, d, open, close) == open + t[b..c] + close + ReplaceDelimited(t[c + b..], d, open, close);
  }

  /**
   * A delimited span inside text: after an asterisk-free prefix, the leftmost match
   * `d + w + d` (with `w` asterisk-free and on one line) is rewritten, and the pass
   * continues on the rest exactly as it would on the rest alone.
   */
  lemma SpanPass(p: string, d: string, w: string, rest: string, open: string, close: string)
    requires |d| > 0 && d[0] == '*' && NoStar(p) && NoStar(w) && OneLine(w)
    ensures ReplaceDelimited(p + d + w + d + rest, d, open, close)
      == p + open + w + close + ReplaceDelimited(rest, d, open, close)
  {
    var t := d + w + d + rest;
    assert p + d + w + d + rest == p + t;
    StarlessPrefixCopied(p, t, d, open, close);
    SpanAtStart(d, w, rest, open, close);
  }
}
