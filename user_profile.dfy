/**
 * The signed-in user's badge: the name shown, the initials in the avatar, and
 * the dropdown's open state.
 */
module UserProfile {
  import opened Wrappers
  import opened Strings

  /** What the badge reads from the signed-in user. */
  datatype User = User(fullName: Option<string>, email: Option<string>)

  /** The part of the e-mail address before its first `@`. */
  function MailboxName(email: string): (r: string)
    ensures forall k :: 0 <= k < |r| ==> r[k] != '@'
    ensures exists j :: 0 <= j <= |email| && r == email[..j]
    ensures r == email || (|r| < |email| && email[|r|] == '@')
  {
    MailboxNameSpec(email);
    Split(email, "@")[0]
  }

  lemma MailboxNameSpec(email: string)
    ensures var r := Split(email, "@")[0];
      (forall k :: 0 <= k < |r| ==> r[k] != '@') && exists j :: 0 <= j <= |email| && r == email[..j]
    ensures var r := Split(email, "@")[0];
      r == email || (|r| < |email| && email[|r|] == '@')
  {
    SplitFirst(email, "@");
    var r := Split(email, "@")[0];
    if IndexOf(email, "@").Some? {
      var i := IndexOf(email, "@").value;
      assert OccursAt(email, "@", i) && |r| == i;
      assert email[i..i + 1] == "@";
    }
    forall k | 0 <= k < |r| ensures r[k] != '@' {
      if r[k] == '@' {
        assert r[k..k + 1] == "@";
        var i: nat := k;
        assert i <= |r| && OccursAt(r, "@", i);
      }
    }
    assert email[..|email|] == email;
  }

  /** The full name when set; else the mailbox name when not empty; else `User`. */
  function DisplayName(u: User): (name: string)
    ensures name != ""
  {
    if u.fullName.Some? && u.fullName.value != "" then u.fullName.value
    else if u.email.Some? && MailboxName(u.email.value) != "" then MailboxName(u.email.value)
    else "User"
  }

  /**
   * The shown name falls back in this order, and a mailbox name is the whole
   * text of the address before its first `@` (all of it when there is none).
   */
  lemma DisplayNameFallbacks(u: User)
    ensures u.fullName.Some? && u.fullName.value != "" ==> DisplayName(u) == u.fullName.value
    ensures !(u.fullName.Some? && u.fullName.value != "") && u.email.Some? && MailboxName(u.email.value) != "" ==>
      DisplayName(u) == MailboxName(u.email.value)
      && (exists j :: 0 <= j <= |u.email.value| && DisplayName(u) == u.email.value[..j])
      && (DisplayName(u) == u.email.value
          || (|DisplayName(u)| < |u.email.value| && u.email.value[|DisplayName(u)|] == '@'))
      && forall k :: 0 <= k < |DisplayName(u)| ==> DisplayName(u)[k] != '@'
    ensures !(u.fullName.Some? && u.fullName.value != "") && (u.email.None? || MailboxName(u.email.value) == "") ==>
      DisplayName(u) == "User"
  {
  }

  /** `name[0]` for each piece, with an empty piece's `undefined` joining as nothing. */
  function FirstLetters(pieces: seq<string>): (r: string)
    ensures |r| <= |pieces|
  {
    if pieces == [] then ""
    else (if pieces[0] == "" then "" else [pieces[0][0]]) + FirstLetters(pieces[1..])
  }

  /** The avatar's text: the first letter of each space-separated piece, upper-cased, at most two. */
  function Initials(name: string): (r: string)
    ensures |r| <= 2
  {
    var letters := UpperAsciiString(FirstLetters(Split(name, " ")));
    if |letters| <= 2 then letters else letters[..2]
  }

  /** The badge: nothing without a user. */
  datatype Badge = Badge(name: string, initials: string)

  function Profile(user: Option<User>): (b: Option<Badge>)
    ensures b.Some? <==> user.Some?
    ensures b.Some? ==> b.value.name != "" && |b.value.initials| <= 2
  {
    if user.None? then None
    else Some(Badge(DisplayName(user.value), Initials(DisplayName(user.value))))
  }

  /** Empty pieces give no letter, non-empty ones give their first character, in order. */
  lemma {:induction false} FirstLettersOfWords(pieces: seq<string>)
    requires forall i :: 0 <= i < |pieces| ==> pieces[i] != ""
    ensures |FirstLetters(pieces)| == |pieces|
    ensures forall i :: 0 <= i < |pieces| ==> FirstLetters(pieces)[i] == pieces[i][0]
  {
    if pieces != [] {
      FirstLettersOfWords(pieces[1..]);
    }
  }

  lemma {:induction false} FirstLettersSkipEmpty(pieces: seq<string>, k: nat)
    requires k < |pieces| && pieces[k] == ""
    ensures FirstLetters(pieces) == FirstLetters(pieces[..k]) + FirstLetters(pieces[k + 1..])
    decreases k
  {
    if k > 0 {
      FirstLettersSkipEmpty(pieces[1..], k - 1);
      assert pieces[1..][..k - 1] == pieces[..k][1..];
      assert pieces[1..][k..] == pieces[k + 1..];
    } else {
      assert pieces[..0] == [];
    }
  }

  predicate NoSpace(w: string) {
    forall k :: 0 <= k < |w| ==> w[k] != ' '
  }

  /** Splitting at `' '` after a piece without spaces yields that piece, then the split of the rest. */
  lemma SplitAtSpace(first: string, rest: string)
    requires NoSpace(first)
    ensures Split(first + " " + rest, " ") == [first] + Split(rest, " ")
  {
    var name := first + " " + rest;
    assert OccursAt(name, " ", |first|) by { assert name[|first|..|first| + 1] == " "; }
    forall j: nat | j < |first| ensures !OccursAt(name, " ", j) {
      assert name[j..j + 1][0] == first[j];
    }
    IndexOfFromFinds(name, " ", 0, |first|);
    assert name[..|first|] == first;
    assert name[|first| + 1..] == rest;
  }

  /** A piece without spaces splits into itself. */
  lemma SplitNoSpace(w: string)
    requires NoSpace(w)
    ensures Split(w, " ") == [w]
  {
    forall i: nat | i < |w| ensures !OccursAt(w, " ", i) {
      assert w[i..i + 1][0] == w[i];
    }
  }

  /** A first and a last name give their two upper-cased first letters. */
  lemma TwoNameInitials(first: string, last: string)
    requires first != "" && last != "" && NoSpace(first) && NoSpace(last)
    ensures Initials(first + " " + last) == [UpperAscii(first[0]), UpperAscii(last[0])]
  {
    SplitAtSpace(first, last);
    SplitNoSpace(last);
    assert Split(first + " " + last, " ") == [first, last];
    assert FirstLetters([last]) == [last[0]];
    assert FirstLetters([first, last]) == [first[0], last[0]];
  }

  /** A doubled space leaves an empty piece between the two names. */
  lemma SplitDoubledSpace(first: string, last: string)
    requires NoSpace(first) && NoSpace(last)
    ensures Split(first + "  " + last, " ") == [first, "", last]
  {
    assert first + "  " + last == first + " " + (" " + last);
    SplitAtSpace(first, " " + last);
    assert "" + " " + last == " " + last;
    SplitAtSpace("", last);
    SplitNoSpace(last);
  }

  /** The empty piece adds no letter: the initials are those of the single-spaced name. */
  lemma DoubledSpaceInitials(first: string, last: string)
    requires first != "" && last != "" && NoSpace(first) && NoSpace(last)
    ensures Initials(first + "  " + last) == Initials(first + " " + last)
  {
    SplitDoubledSpace(first, last);
    var pieces := [first, "", last];
    FirstLettersSkipEmpty(pieces, 1);
    assert pieces[..1] == [first] && pieces[2..] == [last];
    assert FirstLetters([first]) == [first[0]];
    assert FirstLetters([last]) == [last[0]];
    TwoNameInitials(first, last);
  }

  /** The first occurrence at or after `i` is the one at `j` when none comes before it. */
  lemma {:induction false} IndexOfFromFinds(s: string, p: string, i: nat, j: nat)
    requires i <= j <= |s| && OccursAt(s, p, j)
    requires forall k: nat :: i <= k < j ==> !OccursAt(s, p, k)
    ensures IndexOfFrom(s, p, i) == Some(j)
    decreases j - i
  {
    if i < j {
      IndexOfFromFinds(s, p, i + 1, j);
    }
  }

  /** The dropdown under the badge. */
  class Menu {
    var isOpen: bool

    constructor()
      ensures !isOpen
    {
      isOpen := false;
    }

    /** The badge button flips the dropdown. */
    method Toggle()
      modifies this
      ensures isOpen == !old(isOpen)
    {
      isOpen := !isOpen;
    }

    /** A press outside the dropdown closes it; the listener only exists while it is open. */
    method PressOutside(inside: bool)
      modifies this
      ensures isOpen == (old(isOpen) && inside)
    {
      if isOpen && !inside {
        isOpen := false;
      }
    }

    /** Signing out closes the dropdown once the sign-out has returned. */
    method SignOut()
      modifies this
      ensures !isOpen
    {
      isOpen := false;
    }
  }
}
