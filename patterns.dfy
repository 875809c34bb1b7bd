/**
 * The two `@Pattern` regular expressions of the user entity (model/User.java),
 * each stated twice: once as a plain rule, once read the way the regular
 * expression is matched, with a lemma that the two accept the same strings.
 */
module Patterns {

  // ---------------------------------------------------------------------------
  // Character classes of the two patterns (Java regular expressions, no flags)

  predicate IsDigit(c: char) { '0' <= c <= '9' }
  predicate IsLower(c: char) { 'a' <= c <= 'z' }
  predicate IsUpper(c: char) { 'A' <= c <= 'Z' }
  predicate IsLetter(c: char) { IsLower(c) || IsUpper(c) }
  /** `[A-Za-z0-9]` */
  predicate IsAlnum(c: char) { IsLetter(c) || IsDigit(c) }
  /** `[_A-Za-z0-9-]` */
  predicate IsAtomChar(c: char) { IsAlnum(c) || c == '_' || c == '-' }

  /** The characters that `.` does not match when no flag is given. */
  predicate IsLineTerminator(c: char) {
    c == '\n' || c == '\r' || c == '\U{85}' || c == '\U{2028}' || c == '\U{2029}'
  }

  // ---------------------------------------------------------------------------
  // The password constraint: ((?=.*\d)(?=.*[a-z])(?=.*[A-Z]).{6,20})

  /** The password rule in plain terms. */
  predicate ValidPassword(p: string) {
    && 6 <= |p| <= 20
    && (forall k :: 0 <= k < |p| ==> !IsLineTerminator(p[k]))
    && (exists k :: 0 <= k < |p| && IsDigit(p[k]))
    && (exists k :: 0 <= k < |p| && IsLower(p[k]))
    && (exists k :: 0 <= k < |p| && IsUpper(p[k]))
  }

  /** `.*` matches all of `s`. */
  predicate DotStar(s: string) {
    forall k :: 0 <= k < |s| ==> !IsLineTerminator(s[k])
  }

  /** The lookahead `(?=.*X)` succeeds at the start of `s`, X being the class `x`. */
  predicate LookaheadFinds(s: string, x: char -> bool) {
    exists k :: 0 <= k < |s| && DotStar(s[..k]) && x(s[k])
  }

  /**
   * The password pattern read construct by construct, matched against the
   * whole value as `Matcher.matches()` does: three lookaheads at position 0,
   * then `.{6,20}` consuming everything.
   */
  predicate PasswordPatternMatches(p: string) {
    && LookaheadFinds(p, IsDigit)
    && LookaheadFinds(p, IsLower)
    && LookaheadFinds(p, IsUpper)
    && 6 <= |p| <= 20 && DotStar(p)
  }

  /** The pattern accepts exactly the passwords of the plain rule. */
  lemma PasswordPatternMeaning(p: string)
    ensures PasswordPatternMatches(p) <==> ValidPassword(p)
  {
    if ValidPassword(p) {
      forall x: char -> bool | exists k :: 0 <= k < |p| && x(p[k])
        ensures LookaheadFinds(p, x)
      {
        var k :| 0 <= k < |p| && x(p[k]);
        assert DotStar(p[..k]);
      }
    }
  }

  /** "Abc123" is an acceptable password and "short" is not. */
  lemma PasswordExamples()
    ensures ValidPassword("Abc123")
    ensures !ValidPassword("short")
  {
    assert IsDigit("Abc123"[3]) && IsLower("Abc123"[1]) && IsUpper("Abc123"[0]);
  }

  // ---------------------------------------------------------------------------
  // The email constraint:
  // ^[_A-Za-z0-9-]+(\.[_A-Za-z0-9-]+)*@[A-Za-z0-9]+(\.[A-Za-z0-9]+)*(\.[A-Za-z]{2,})$

  /**
   * `t` is one or more non-empty atoms over the class `x` separated by single
   * dots (`x` must not hold of '.').
   */
  predicate DotSeparated(t: string, x: char -> bool) {
    && |t| > 0
    && t[0] != '.' && t[|t| - 1] != '.'
    && (forall k :: 0 <= k < |t| ==> t[k] == '.' || x(t[k]))
    && (forall k :: 0 <= k < |t| - 1 && t[k] == '.' ==> t[k + 1] != '.')
  }

  /**
   * The part after the '@': at least two dot-separated non-empty labels over
   * `[A-Za-z0-9]`, the last of them all letters and at least two long.
   */
  predicate ValidDomain(d: string) {
    exists e :: 0 <= e < |d| && d[e] == '.' && DotSeparated(d[..e], IsAlnum)
      && |d| - e - 1 >= 2 && (forall k :: e < k < |d| ==> IsLetter(d[k]))
  }

  /** The email rule in plain terms: local atoms, one '@', a domain. */
  predicate ValidEmail(s: string) {
    exists a :: 0 <= a < |s| && s[a] == '@' && DotSeparated(s[..a], IsAtomChar) && ValidDomain(s[a + 1..])
  }

  // ---------------------------------------------------------------------------
  // The email pattern read left to right, one character at a time

  /**
   * The states of a deterministic automaton for the email pattern. The local
   * states follow `[_A-Za-z0-9-]+(\.[_A-Za-z0-9-]+)*`; after the `@`, the
   * domain states track whether the label being read could still be the
   * closing `\.[A-Za-z]{2,}` (one letter so far, or two and more) or
   * can only be an inner `\.[A-Za-z0-9]+` label.
   */
  datatype EmailState =
    | LocalStart      // nothing read
    | LocalAtom       // inside a local atom
    | LocalDot        // just after a dot of the local part
    | DomainStart     // just after the '@'
    | FirstLabel      // inside the first domain label
    | LabelDot        // just after a dot of the domain
    | MixedLabel      // inside a later label that holds a digit
    | OneLetterLabel  // inside a later label, one letter so far
    | LetterLabel     // inside a later label, two or more letters so far
    | Reject

  /** The transition on one character. */
  function EmailStep(q: EmailState, c: char): EmailState {
    match q
    case LocalStart => if IsAtomChar(c) then LocalAtom else Reject
    case LocalAtom =>
      if IsAtomChar(c) then LocalAtom
      else if c == '.' then LocalDot
      else if c == '@' then DomainStart
      else Reject
    case LocalDot => if IsAtomChar(c) then LocalAtom else Reject
    case DomainStart => if IsAlnum(c) then FirstLabel else Reject
    case FirstLabel => if IsAlnum(c) then FirstLabel else if c == '.' then LabelDot else Reject
    case LabelDot => if IsLetter(c) then OneLetterLabel else if IsDigit(c) then MixedLabel else Reject
    case MixedLabel => if IsAlnum(c) then MixedLabel else if c == '.' then LabelDot else Reject
    case OneLetterLabel =>
      if IsLetter(c) then LetterLabel
      else if IsDigit(c) then MixedLabel
      else if c == '.' then LabelDot
      else Reject
    case LetterLabel =>
      if IsLetter(c) then LetterLabel
      else if IsDigit(c) then MixedLabel
      else if c == '.' then LabelDot
      else Reject
    case Reject => Reject
  }

  /** The state reached after reading all of `s` from the start. */
  function EmailRun(s: string): EmailState
    decreases |s|
  {
    if |s| == 0 then LocalStart else EmailStep(EmailRun(s[..|s| - 1]), s[|s| - 1])
  }

  /**
   * The email pattern matched against the whole value: the anchors `^` and
   * `$` make the automaton accept only when the input ends in `LetterLabel`.
   */
  predicate EmailPatternMatches(s: string) {
    EmailRun(s) == LetterLabel
  }

  /** Each prefix of `s` leads one step further than the prefix before it. */
  lemma PrefixRuns(s: string)
    ensures forall k :: 0 < k <= |s| ==> EmailRun(s[..k]) == EmailStep(EmailRun(s[..k - 1]), s[k - 1])
  {
    forall k | 0 < k <= |s|
      ensures EmailRun(s[..k]) == EmailStep(EmailRun(s[..k - 1]), s[k - 1])
    {
      assert s[..k][..k - 1] == s[..k - 1];
    }
  }

  /** Once the automaton rejects, no further input brings it back. */
  lemma {:induction false} RejectIsFinal(w: string, t: string)
    requires EmailRun(w) == Reject
    ensures EmailRun(w + t) == Reject
    decreases |t|
  {
    if |t| > 0 {
      var t' := t[..|t| - 1];
      RejectIsFinal(w, t');
      assert (w + t)[..|w + t| - 1] == w + t';
    } else {
      assert w + t == w;
    }
  }

  /** "a@b.com" matches the pattern; "a@b.c", "a@b" and "a..b@c.com" do not. */
  lemma EmailPatternExamples()
    ensures EmailPatternMatches("a@b.com")
    ensures !EmailPatternMatches("a@b.c")
    ensures !EmailPatternMatches("a@b")
    ensures !EmailPatternMatches("a..b@c.com")
  {
    var ok := "a@b.com";
    PrefixRuns(ok);
    assert EmailRun(ok[..1]) == LocalAtom;
    assert EmailRun(ok[..2]) == DomainStart;
    assert EmailRun(ok[..3]) == FirstLabel;
    assert EmailRun(ok[..4]) == LabelDot;
    assert EmailRun(ok[..5]) == OneLetterLabel;
    assert EmailRun(ok[..6]) == LetterLabel;
    assert ok[..5] == "a@b.c" && ok[..3] == "a@b";
    var dots := "a..b@c.com";
    PrefixRuns("a..");
    assert EmailRun("a..") == Reject;
    RejectIsFinal("a..", dots[3..]);
    assert "a.." + dots[3..] == dots;
  }

  // What each state means, in the terms of the plain rule.

  /** Every character of `t` is in the class `x`. */
  predicate AllIn(t: string, x: char -> bool) {
    forall k :: 0 <= k < |t| ==> x(t[k])
  }

  /** The position of the last '.' of `d`, or -1 when there is none. */
  function LastDot(d: string): (e: int)
    ensures -1 <= e < |d|
    ensures e >= 0 ==> d[e] == '.'
    ensures forall k :: e < k < |d| ==> d[k] != '.'
    decreases |d|
  {
    if |d| == 0 then -1
    else if d[|d| - 1] == '.' then |d| - 1
    else LastDot(d[..|d| - 1])
  }

  /** The position of the first '@' of `w`, or -1 when there is none. */
  function FirstAt(w: string): (a: int)
    ensures -1 <= a < |w|
    ensures a >= 0 ==> w[a] == '@'
    ensures forall k :: 0 <= k < |w| && (a < 0 || k < a) ==> w[k] != '@'
    decreases |w|
  {
    if |w| == 0 then -1
    else
      var a := FirstAt(w[..|w| - 1]);
      if a >= 0 then a else if w[|w| - 1] == '@' then |w| - 1 else -1
  }

  /** The state a prefix `w` of the local part (no '@' yet) leads to. */
  function LocalClass(w: string): EmailState {
    if |w| == 0 then LocalStart
    else if DotSeparated(w, IsAtomChar) then LocalAtom
    else if w[|w| - 1] == '.' && DotSeparated(w[..|w| - 1], IsAtomChar) then LocalDot
    else Reject
  }

  /** The state a prefix `d` of the domain (the text after the '@') leads to. */
  function DomainClass(d: string): EmailState {
    if |d| == 0 then DomainStart
    else if AllIn(d, IsAlnum) then FirstLabel
    else if d[|d| - 1] == '.' then
      if DotSeparated(d[..|d| - 1], IsAlnum) then LabelDot else Reject
    else
      var e := LastDot(d);
      if e < 0 || !DotSeparated(d[..e], IsAlnum) || !AllIn(d[e + 1..], IsAlnum) then Reject
      else if !AllIn(d[e + 1..], IsLetter) then MixedLabel
      else if |d| - e - 1 == 1 then OneLetterLabel
      else LetterLabel
  }

  /** The state any prefix `w` leads to: split at its first '@'. */
  function EmailClass(w: string): EmailState {
    var a := FirstAt(w);
    if a < 0 then LocalClass(w)
    else if DotSeparated(w[..a], IsAtomChar) then DomainClass(w[a + 1..])
    else Reject
  }

  /** Appending a character to a run of dot-separated atoms. */
  lemma DotSeparatedSnoc(w: string, c: char, x: char -> bool)
    requires !x('.')
    ensures DotSeparated(w + [c], x) <==>
      && c != '.' && x(c)
      && (|w| == 0 || DotSeparated(w, x) || (w[|w| - 1] == '.' && DotSeparated(w[..|w| - 1], x)))
  {
    var v := w + [c];
    if DotSeparated(v, x) && |w| > 0 && w[|w| - 1] != '.' {
      assert forall k :: 0 <= k < |w| ==> w[k] == v[k];
    }
    if DotSeparated(v, x) && |w| > 0 && w[|w| - 1] == '.' {
      var p := w[..|w| - 1];
      assert forall k :: 0 <= k < |p| ==> p[k] == v[k];
      assert p[|p| - 1] != '.' by { assert v[|w| - 2] == p[|p| - 1] && v[|w| - 1] == '.'; }
    }
    if c != '.' && x(c) && |w| > 0 && !DotSeparated(w, x) && w[|w| - 1] == '.' && DotSeparated(w[..|w| - 1], x) {
      var p := w[..|w| - 1];
      assert v == p + ['.', c];
      assert forall k :: 0 <= k < |p| ==> v[k] == p[k];
    }
  }

  /** A run of dot-separated atoms extended by a dot and one more atom. */
  lemma DotSeparatedJoin(u: string, t: string, x: char -> bool)
    requires !x('.')
    requires DotSeparated(u, x) && |t| > 0 && AllIn(t, x)
    ensures DotSeparated(u + ['.'] + t, x)
  {
    var v := u + ['.'] + t;
    assert forall k :: 0 <= k < |u| ==> v[k] == u[k];
    assert forall j :: 0 <= j < |t| ==> v[|u| + 1 + j] == t[j];
  }

  /** One atom alone is a run of dot-separated atoms. */
  lemma AllInIsDotSeparated(t: string, x: char -> bool)
    requires !x('.')
    requires |t| > 0 && AllIn(t, x)
    ensures DotSeparated(t, x)
  {
  }

  /** A run of dot-separated atoms with a dot in it splits at its last dot. */
  lemma DotSeparatedLastDot(d: string, x: char -> bool)
    requires !x('.')
    requires DotSeparated(d, x) && !AllIn(d, x)
    ensures LastDot(d) > 0 && LastDot(d) < |d| - 1
    ensures DotSeparated(d[..LastDot(d)], x)
    ensures AllIn(d[LastDot(d) + 1..], x)
  {
    var k :| 0 <= k < |d| && !x(d[k]);
    var e := LastDot(d);
    assert d[k] == '.' && k <= e;
    var p := d[..e];
    assert forall j :: 0 <= j < |p| ==> p[j] == d[j];
    assert d[e - 1] != '.';
  }

  /** A domain ends in the `LetterLabel` state exactly when it is a valid domain. */
  lemma DomainClassMeaning(d: string)
    ensures DomainClass(d) == LetterLabel <==> ValidDomain(d)
  {
    if ValidDomain(d) {
      var e :| 0 <= e < |d| && d[e] == '.' && DotSeparated(d[..e], IsAlnum)
        && |d| - e - 1 >= 2 && (forall k :: e < k < |d| ==> IsLetter(d[k]));
      assert !IsAlnum(d[e]);
      assert LastDot(d) == e;
      assert forall k :: e < k < |d| ==> d[k] == d[e + 1..][k - e - 1];
    }
    if DomainClass(d) == LetterLabel {
      var e := LastDot(d);
      assert forall k :: e < k < |d| ==> d[k] == d[e + 1..][k - e - 1];
    }
  }

  /** Reading one more character of the local part. */
  lemma LocalClassStep(w: string, c: char)
    ensures c != '@' ==> LocalClass(w + [c]) == EmailStep(LocalClass(w), c)
    ensures EmailStep(LocalClass(w), '@') == if DotSeparated(w, IsAtomChar) then DomainStart else Reject
  {
    DotSeparatedSnoc(w, c, IsAtomChar);
    assert (w + [c])[..|w|] == w;
  }

  /** Reading the first character of the domain. */
  lemma DomainStartStep(c: char)
    ensures DomainClass([c]) == EmailStep(DomainStart, c)
  {
    var v := [c];
    assert v[..0] == [];
    if IsAlnum(c) {
      assert AllIn(v, IsAlnum);
      assert DomainClass(v) == FirstLabel;
    } else if c == '.' {
      assert !DotSeparated(v[..0], IsAlnum);
      assert DomainClass(v) == Reject;
    } else {
      assert !AllIn(v, IsAlnum);
      assert LastDot(v) == LastDot(v[..0]) == -1;
      assert DomainClass(v) == Reject;
    }
  }

  /** Reading one more character inside the first domain label. */
  lemma FirstLabelStep(d: string, c: char)
    requires |d| > 0 && AllIn(d, IsAlnum)
    ensures DomainClass(d + [c]) == EmailStep(FirstLabel, c)
  {
    var v := d + [c];
    assert v[..|d|] == d;
    if c == '.' {
      AllInIsDotSeparated(d, IsAlnum);
    } else if !IsAlnum(c) {
      assert !AllIn(v, IsAlnum) && v[|v| - 1] != '.';
      assert LastDot(v) == LastDot(d);
      assert LastDot(d) == -1;
    }
  }

  /** Reading the character after a dot of the domain. */
  lemma AfterDotStep(d: string, c: char)
    requires |d| > 0 && !AllIn(d, IsAlnum) && d[|d| - 1] == '.'
    ensures DomainClass(d + [c]) == EmailStep(DomainClass(d), c)
  {
    var v := d + [c];
    var p := d[..|d| - 1];
    assert v[..|d|] == d;
    if c == '.' {
      assert !DotSeparated(d, IsAlnum);
    } else {
      assert !AllIn(v, IsAlnum) by { assert !IsAlnum(v[|d| - 1]); }
      assert LastDot(v) == |d| - 1;
      assert v[..|d| - 1] == p;
      assert v[|d|..] == [c];
    }
  }

  /** Reading a dot after a later label of the domain. */
  lemma LabelDotStep(d: string)
    requires |d| > 0 && !AllIn(d, IsAlnum) && d[|d| - 1] != '.'
    ensures DomainClass(d + ['.']) == EmailStep(DomainClass(d), '.')
  {
    var v := d + ['.'];
    assert v[..|d|] == d;
    var e := LastDot(d);
    if DomainClass(d) == Reject {
      if DotSeparated(d, IsAlnum) {
        DotSeparatedLastDot(d, IsAlnum);
      }
    } else {
      DotSeparatedJoin(d[..e], d[e + 1..], IsAlnum);
      assert d[..e] + ['.'] + d[e + 1..] == d;
    }
  }

  /** Reading a character other than a dot inside a later label of the domain. */
  lemma InLabelStep(d: string, c: char)
    requires |d| > 0 && !AllIn(d, IsAlnum) && d[|d| - 1] != '.' && c != '.'
    ensures DomainClass(d + [c]) == EmailStep(DomainClass(d), c)
  {
    var v := d + [c];
    assert v[..|d|] == d;
    assert !AllIn(v, IsAlnum);
    var e := LastDot(d);
    assert LastDot(v) == e;
    if e >= 0 {
      assert v[..e] == d[..e];
      assert v[e + 1..] == d[e + 1..] + [c];
    }
  }

  /** Reading one more character of the domain. */
  lemma DomainClassStep(d: string, c: char)
    ensures DomainClass(d + [c]) == EmailStep(DomainClass(d), c)
  {
    if |d| == 0 {
      assert d + [c] == [c];
      DomainStartStep(c);
    } else if AllIn(d, IsAlnum) {
      FirstLabelStep(d, c);
    } else if d[|d| - 1] == '.' {
      AfterDotStep(d, c);
    } else if c == '.' {
      LabelDotStep(d);
    } else {
      InLabelStep(d, c);
    }
  }

  /** Reading one more character of any prefix. */
  lemma EmailClassStep(w: string, c: char)
    ensures EmailClass(w + [c]) == EmailStep(EmailClass(w), c)
  {
    var v := w + [c];
    assert v[..|w|] == w;
    var a := FirstAt(w);
    if a < 0 {
      LocalClassStep(w, c);
      if c == '@' {
        assert FirstAt(v) == |w|;
        assert v[|w| + 1..] == [];
      }
    } else {
      assert FirstAt(v) == a;
      assert v[..a] == w[..a];
      assert v[a + 1..] == w[a + 1..] + [c];
      DomainClassStep(w[a + 1..], c);
    }
  }

  /** The automaton's state after any input is the one its meaning predicts. */
  lemma {:induction false} EmailRunIsClass(s: string)
    ensures EmailRun(s) == EmailClass(s)
    decreases |s|
  {
    if |s| > 0 {
      var w, c := s[..|s| - 1], s[|s| - 1];
      assert w + [c] == s;
      calc {
        EmailRun(s);
        EmailStep(EmailRun(w), c);
        { EmailRunIsClass(w); }
        EmailStep(EmailClass(w), c);
        { EmailClassStep(w, c); }
        EmailClass(w + [c]);
      }
    }
  }

  /** An email of the plain rule has its '@' at the first '@' of the string. */
  lemma ValidEmailAt(s: string, b: int)
    requires 0 <= b < |s| && s[b] == '@' && DotSeparated(s[..b], IsAtomChar)
    ensures FirstAt(s) == b
  {
    assert forall k :: 0 <= k < b ==> s[k] == s[..b][k];
  }

  /** An email of the plain rule leads the automaton to its accepting state. */
  lemma ValidEmailAccepted(s: string)
    requires ValidEmail(s)
    ensures EmailClass(s) == LetterLabel
  {
    var b :| 0 <= b < |s| && s[b] == '@' && DotSeparated(s[..b], IsAtomChar) && ValidDomain(s[b + 1..]);
    ValidEmailAt(s, b);
    DomainClassMeaning(s[b + 1..]);
  }

  /** A string that leads the automaton to its accepting state is an email of the plain rule. */
  lemma AcceptedIsValidEmail(s: string)
    requires EmailClass(s) == LetterLabel
    ensures ValidEmail(s)
  {
    var a := FirstAt(s);
    assert a >= 0;
    DomainClassMeaning(s[a + 1..]);
  }

  /** The automaton accepts exactly the emails of the plain rule. */
  lemma EmailPatternMeaning(s: string)
    ensures EmailPatternMatches(s) <==> ValidEmail(s)
  {
    EmailRunIsClass(s);
    if ValidEmail(s) {
      ValidEmailAccepted(s);
    }
    if EmailRun(s) == LetterLabel {
      AcceptedIsValidEmail(s);
    }
  }
}
