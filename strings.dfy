/** The optional-value wrapper used throughout the model. */
module Wrappers {
  datatype Option<+T> = None | Some(value: T)
}

/**
 * The JavaScript string operations the tutor relies on, over `seq<char>`:
 * `trim`, `startsWith`, `includes`, `indexOf`, `replace` with a string pattern,
 * `split` with a string separator, `join`, and number-to-text conversion.
 */
module Strings {
  import opened Wrappers

  /** JavaScript's WhiteSpace and LineTerminator code points: what `\s` matches and `trim` removes. */
  predicate IsSpace(c: char) {
    c == ' ' || c == '\t' || c == '\n' || c == '\U{B}' || c == '\U{C}' || c == '\r'
    || c == '\U{A0}' || c == '\U{1680}' || ('\U{2000}' <= c <= '\U{200A}')
    || c == '\U{2028}' || c == '\U{2029}' || c == '\U{202F}' || c == '\U{205F}'
    || c == '\U{3000}' || c == '\U{FEFF}'
  }

  /** The characters a regular-expression `.` refuses to match. */
  predicate IsLineTerminator(c: char) {
    c == '\n' || c == '\r' || c == '\U{2028}' || c == '\U{2029}'
  }

  predicate AllSpaces(s: string) {
    forall k :: 0 <= k < |s| ==> IsSpace(s[k])
  }

  /** Number of leading spaces of `s`. */
  function LeadingSpaces(s: string): (n: nat)
    ensures n <= |s|
    ensures forall k :: 0 <= k < n ==> IsSpace(s[k])
    ensures n < |s| ==> !IsSpace(s[n])
  {
    if |s| > 0 && IsSpace(s[0]) then 1 + LeadingSpaces(s[1..]) else 0
  }

  /** Number of trailing spaces of `s`. */
  function TrailingSpaces(s: string): (n: nat)
    ensures n <= |s|
    ensures forall k :: |s| - n <= k < |s| ==> IsSpace(s[k])
    ensures n < |s| ==> !IsSpace(s[|s| - 1 - n])
  {
    if |s| > 0 && IsSpace(s[|s| - 1]) then 1 + TrailingSpaces(s[..|s| - 1]) else 0
  }

  /** Start index of `trim(s)` inside `s`. */
  function TrimLo(s: string): (lo: nat)
    ensures lo <= |s|
  {
    LeadingSpaces(s)
  }

  /** End index of `trim(s)` inside `s`. */
  function TrimHi(s: string): (hi: nat)
    ensures TrimLo(s) <= hi <= |s|
  {
    var lo, t := LeadingSpaces(s), TrailingSpaces(s);
    if |s| - t < lo then lo else |s| - t
  }

  /** JavaScript `s.trim()`: the slice of `s` without its leading and trailing spaces. */
  function Trim(s: string): (r: string)
    ensures forall k :: 0 <= k < TrimLo(s) ==> IsSpace(s[k])
    ensures forall k :: TrimHi(s) <= k < |s| ==> IsSpace(s[k])
    ensures |r| > 0 ==> !IsSpace(r[0]) && !IsSpace(r[|r| - 1])
  {
    s[TrimLo(s)..TrimHi(s)]
  }

  /** `trim(s) === ''` holds exactly when `s` consists of spaces only. */
  lemma TrimEmptyIffAllSpaces(s: string)
    ensures Trim(s) == "" <==> AllSpaces(s)
  {
    if Trim(s) == "" {
      forall k | 0 <= k < |s| ensures IsSpace(s[k]) {
        assert k < TrimLo(s) || TrimHi(s) <= k;
      }
    }
  }

  /** `p` occurs in `s` starting at index `i`. */
  predicate OccursAt(s: string, p: string, i: nat) {
    i + |p| <= |s| && s[i..i + |p|] == p
  }

  /** JavaScript `s.includes(p)`. */
  predicate Contains(s: string, p: string) {
    exists i: nat | i <= |s| :: OccursAt(s, p, i)
  }

  /** JavaScript `s.startsWith(p)`. */
  predicate StartsWith(s: string, p: string) {
    OccursAt(s, p, 0)
  }

  /** The first occurrence of `p` in `s` at or after `i`. */
  function IndexOfFrom(s: string, p: string, i: nat): (r: Option<nat>)
    requires i <= |s|
    decreases |s| - i
    ensures r.Some? ==> i <= r.value && OccursAt(s, p, r.value)
    ensures r.Some? ==> forall j :: i <= j < r.value ==> !OccursAt(s, p, j)
    ensures r.None? ==> forall j: nat :: i <= j ==> !OccursAt(s, p, j)
  {
    if OccursAt(s, p, i) then Some(i)
    else if i == |s| then None
    else IndexOfFrom(s, p, i + 1)
  }

  /** JavaScript `s.indexOf(p)`, with -1 as `None`. */
  function IndexOf(s: string, p: string): Option<nat> {
    IndexOfFrom(s, p, 0)
  }

  lemma IndexOfContains(s: string, p: string)
    ensures IndexOf(s, p).Some? <==> Contains(s, p)
  {
    if Contains(s, p) {
      var i: nat :| OccursAt(s, p, i);
    }
  }

  lemma StartsWithIndexOf(s: string, p: string)
    requires StartsWith(s, p)
    ensures IndexOf(s, p) == Some(0)
  {
  }

  /** An occurrence inside a slice of `s` is an occurrence in `s`. */
  lemma OccursInSlice(s: string, lo: nat, hi: nat, p: string, i: nat)
    requires lo <= hi <= |s|
    requires OccursAt(s[lo..hi], p, i)
    ensures OccursAt(s, p, lo + i)
  {
    forall k | 0 <= k < |p| ensures s[lo + i + k] == p[k] {
      assert s[lo..hi][i..i + |p|][k] == p[k];
    }
  }

  lemma ContainsSlice(s: string, lo: nat, hi: nat, p: string)
    requires lo <= hi <= |s|
    requires Contains(s[lo..hi], p)
    ensures Contains(s, p)
  {
    var i: nat :| OccursAt(s[lo..hi], p, i);
    OccursInSlice(s, lo, hi, p, i);
  }

  /** `a + p + b` contains `p` right after `a`. */
  lemma OccursInConcat(a: string, p: string, b: string)
    ensures OccursAt(a + p + b, p, |a|)
    ensures Contains(a + p + b, p)
  {
    assert (a + p + b)[|a|..|a| + |p|] == p;
    var i: nat := |a|;
    assert i <= |a + p + b| && OccursAt(a + p + b, p, i);
  }

  /** A prefix is contained in the text. */
  lemma StartsWithContains(s: string, p: string)
    ensures StartsWith(s, p) ==> Contains(s, p)
  {
    if StartsWith(s, p) {
      var i: nat := 0;
      assert i <= |s| && OccursAt(s, p, i);
    }
  }

  /** Text contained in the tail of a concatenation is contained in the whole. */
  lemma ContainsInTail(a: string, b: string, p: string)
    requires Contains(b, p)
    ensures Contains(a + b, p)
  {
    var i: nat :| i <= |b| && OccursAt(b, p, i);
    assert (a + b)[|a|..|a + b|] == b;
    OccursInSlice(a + b, |a|, |a + b|, p, i);
  }

  /** `a + (p + b)` contains `p`. */
  lemma ContainsAfter(a: string, p: string, b: string)
    ensures Contains(a + (p + b), p)
  {
    OccursInConcat(a, p, b);
    assert a + (p + b) == a + p + b;
  }

  /** Containment is transitive. */
  lemma ContainsTrans(s: string, t: string, p: string)
    requires Contains(s, t) && Contains(t, p)
    ensures Contains(s, p)
  {
    var i: nat :| i <= |s| && OccursAt(s, t, i);
    var j: nat :| j <= |t| && OccursAt(t, p, j);
    OccursInSlice(s, i, i + |t|, p, j);
  }

  /** JavaScript `s.replace(p, r)` for a string pattern: only the first occurrence is replaced. */
  function ReplaceFirst(s: string, p: string, r: string): string {
    match IndexOf(s, p)
    case None => s
    case Some(i) => s[..i] + r + s[i + |p|..]
  }

  /** Removing a prefix marker with `replace(marker, '')` drops exactly that prefix. */
  lemma ReplacePrefix(s: string, p: string)
    requires StartsWith(s, p)
    ensures ReplaceFirst(s, p, "") == s[|p|..]
  {
    StartsWithIndexOf(s, p);
  }

  /** JavaScript `s.split(sep)` for a non-empty string separator. */
  function Split(s: string, sep: string): (parts: seq<string>)
    requires |sep| > 0
    ensures |parts| >= 1
    decreases |s|
  {
    match IndexOf(s, sep)
    case None => [s]
    case Some(i) => [s[..i]] + Split(s[i + |sep|..], sep)
  }

  /** `parts[n]` of a split, with JavaScript's (falsy) `undefined` read as the empty string. */
  function Piece(parts: seq<string>, n: nat): string {
    if n < |parts| then parts[n] else ""
  }

  /** The first piece of a split is the text before the first separator, and holds no separator. */
  lemma SplitFirst(s: string, sep: string)
    requires |sep| > 0
    ensures IndexOf(s, sep).None? ==> Split(s, sep) == [s]
    ensures IndexOf(s, sep).Some? ==> Split(s, sep)[0] == s[..IndexOf(s, sep).value]
    ensures !Contains(Split(s, sep)[0], sep)
  {
    var first := Split(s, sep)[0];
    forall j: nat | j <= |first| ensures !OccursAt(first, sep, j) {
      match IndexOf(s, sep)
      case None =>
        assert first == s;
      case Some(i) =>
        if OccursAt(first, sep, j) {
          OccursInSlice(s, 0, i, sep, j);
        }
        assert OccursAt(first, sep, j) ==> OccursAt(s, sep, j) && j < i;
    }
  }

  /** The second piece of a split is the text between the first and the second separator. */
  lemma SplitSecond(s: string, sep: string)
    requires |sep| > 0
    ensures IndexOf(s, sep).None? ==> Piece(Split(s, sep), 1) == ""
    ensures IndexOf(s, sep).Some? ==>
      var rest := s[IndexOf(s, sep).value + |sep|..];
      Piece(Split(s, sep), 1) == Split(rest, sep)[0] && !Contains(Piece(Split(s, sep), 1), sep)
  {
    match IndexOf(s, sep)
    case None =>
      assert Split(s, sep) == [s];
    case Some(i) =>
      var rest := s[i + |sep|..];
      var tail := Split(rest, sep);
      assert Split(s, sep) == [s[..i]] + tail;
      assert Piece(Split(s, sep), 1) == tail[0];
      SplitFirst(rest, sep);
  }

  /** JavaScript `xs.join(sep)`. */
  function Join(xs: seq<string>, sep: string): string {
    if |xs| == 0 then ""
    else if |xs| == 1 then xs[0]
    else xs[0] + sep + Join(xs[1..], sep)
  }

  /** Every joined element appears in the joined text, preceded by exactly the elements and separators before it. */
  lemma {:induction false} JoinContains(xs: seq<string>, sep: string, k: nat)
    requires k < |xs|
    ensures Contains(Join(xs, sep), xs[k])
  {
    if |xs| == 1 {
      assert OccursAt(Join(xs, sep), xs[0], 0);
    } else if k == 0 {
      assert OccursAt(Join(xs, sep), xs[0], 0);
    } else {
      JoinContains(xs[1..], sep, k - 1);
      var prefix := xs[0] + sep;
      var rest := Join(xs[1..], sep);
      assert Join(xs, sep) == prefix + rest;
      var i: nat :| OccursAt(rest, xs[k], i);
      assert (prefix + rest)[|prefix|..|prefix + rest|] == rest;
      ContainsSlice(prefix + rest, |prefix|, |prefix + rest|, xs[k]);
    }
  }

  /** Decimal digits of a natural number, as `String(n)` writes them. */
  function NatToString(n: nat): (r: string)
    ensures |r| > 0
    ensures (|r| == 1) == (n < 10)
    ensures forall k :: 0 <= k < |r| ==> '0' <= r[k] <= '9'
    decreases n
  {
    var d := [(('0' as int) + n % 10) as char];
    if n < 10 then d else NatToString(n / 10) + d
  }

  /** The decimal rendering is one-to-one: different status codes read differently. */
  lemma {:induction false} NatToStringInjective(m: nat, n: nat)
    requires NatToString(m) == NatToString(n)
    ensures m == n
    decreases m
  {
    var rm, rn := NatToString(m), NatToString(n);
    assert rm[|rm| - 1] == rn[|rn| - 1];
    assert m % 10 == n % 10;
    if m >= 10 {
      assert n >= 10;
      assert NatToString(m / 10) == rm[..|rm| - 1];
      assert NatToString(n / 10) == rn[..|rn| - 1];
      NatToStringInjective(m / 10, n / 10);
    }
  }

  /** Digit runs ended by a space are read back unambiguously from the same text. */
  lemma DigitsBeforeSpace(p: string, d1: string, r1: string, d2: string, r2: string)
    requires p + d1 + r1 == p + d2 + r2
    requires forall k :: 0 <= k < |d1| ==> '0' <= d1[k] <= '9'
    requires forall k :: 0 <= k < |d2| ==> '0' <= d2[k] <= '9'
    requires |r1| > 0 && r1[0] == ' ' && |r2| > 0 && r2[0] == ' '
    ensures d1 == d2
  {
    var t := p + d1 + r1;
    assert t[|p| + |d1|] == ' ';
    assert (p + d2 + r2)[|p| + |d2|] == ' ';
    assert forall k :: 0 <= k < |d1| ==> t[|p| + k] == d1[k];
    assert forall k :: 0 <= k < |d2| ==> (p + d2 + r2)[|p| + k] == d2[k];
    assert |d1| == |d2|;
    assert d1 == t[|p|..|p| + |d1|];
    assert d2 == (p + d2 + r2)[|p|..|p| + |d2|];
  }

  /** `toUpperCase` restricted to ASCII letters. */
  function UpperAscii(c: char): (u: char)
    ensures 'a' <= c <= 'z' ==> u as int == c as int - 32
    ensures !('a' <= c <= 'z') ==> u == c
  {
    if 'a' <= c <= 'z' then (c as int - 32) as char else c
  }

  function UpperAsciiString(s: string): (r: string)
    ensures |r| == |s|
    ensures forall k :: 0 <= k < |s| ==> r[k] == UpperAscii(s[k])
  {
    if s == [] then [] else [UpperAscii(s[0])] + UpperAsciiString(s[1..])
  }
}
