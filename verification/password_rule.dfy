/** The `@Pattern` on `User.password`:
      ^(?=.*[a-z])(?=.*[A-Z])(?=.*\d)[a-zA-Z\d]{8,}$
    `\d` is the ASCII digit class (no UNICODE_CHARACTER_CLASS flag), and `.`
    does not match a line terminator. */
module PasswordRule {

  predicate IsAsciiLower(c: char) { 'a' <= c <= 'z' }

  predicate IsAsciiUpper(c: char) { 'A' <= c <= 'Z' }

  predicate IsAsciiDigit(c: char) { '0' <= c <= '9' }

  /** The class `[a-zA-Z\d]`. */
  predicate IsPasswordChar(c: char) {
    IsAsciiLower(c) || IsAsciiUpper(c) || IsAsciiDigit(c)
  }

  /** The characters Java's `.` refuses to match. */
  predicate IsLineTerminator(c: char) {
    c == '\n' || c == '\r' || c == '\U{0085}' || c == '\U{2028}' || c == '\U{2029}'
  }

  /** The lookahead `(?=.*[class])` at the start of `p`: some character of the
      class, reached without crossing a line terminator. */
  predicate LookaheadFinds(p: string, charClass: char -> bool) {
    exists i :: 0 <= i < |p| && charClass(p[i]) && forall j :: 0 <= j < i ==> !IsLineTerminator(p[j])
  }

  /** The whole pattern, read literally. */
  predicate PasswordPattern(p: string) {
    && LookaheadFinds(p, IsAsciiLower)
    && LookaheadFinds(p, IsAsciiUpper)
    && LookaheadFinds(p, IsAsciiDigit)
    && |p| >= 8
    && forall i :: 0 <= i < |p| ==> IsPasswordChar(p[i])
  }

  predicate Contains(p: string, charClass: char -> bool) {
    exists i :: 0 <= i < |p| && charClass(p[i])
  }

  /** The rule in plain words: at least eight characters, ASCII letters and
      digits only, and at least one lowercase letter, one uppercase letter and
      one digit. */
  predicate PasswordValid(p: string) {
    && |p| >= 8
    && (forall i :: 0 <= i < |p| ==> IsPasswordChar(p[i]))
    && Contains(p, IsAsciiLower)
    && Contains(p, IsAsciiUpper)
    && Contains(p, IsAsciiDigit)
  }

  /** Because every character must be alphanumeric, each lookahead reduces to
      plain containment. */
  lemma PatternIffValid(p: string)
    ensures PasswordPattern(p) <==> PasswordValid(p)
  {
    if PasswordValid(p) {
      assert forall j :: 0 <= j < |p| ==> !IsLineTerminator(p[j]);
      var lo :| 0 <= lo < |p| && IsAsciiLower(p[lo]);
      var up :| 0 <= up < |p| && IsAsciiUpper(p[up]);
      var dg :| 0 <= dg < |p| && IsAsciiDigit(p[dg]);
      assert forall j :: 0 <= j < lo ==> !IsLineTerminator(p[j]);
      assert forall j :: 0 <= j < up ==> !IsLineTerminator(p[j]);
      assert forall j :: 0 <= j < dg ==> !IsLineTerminator(p[j]);
    }
  }

  /** A one-pass matcher for the pattern: it scans the input once, tracking
      which of the three classes it has seen and stopping at the first
      character outside `[a-zA-Z\d]`. */
  method MatchPassword(p: string) returns (ok: bool)
    ensures ok <==> PasswordPattern(p)
  {
    var lower, upper, digit := false, false, false;
    var i := 0;
    while i < |p|
      invariant 0 <= i <= |p|
      invariant forall j :: 0 <= j < i ==> IsPasswordChar(p[j])
      invariant lower <==> Contains(p[..i], IsAsciiLower)
      invariant upper <==> Contains(p[..i], IsAsciiUpper)
      invariant digit <==> Contains(p[..i], IsAsciiDigit)
    {
      var c := p[i];
      if !IsPasswordChar(c) {
        PatternIffValid(p);
        return false;
      }
      assert p[..i + 1] == p[..i] + [c];
      lower := lower || IsAsciiLower(c);
      upper := upper || IsAsciiUpper(c);
      digit := digit || IsAsciiDigit(c);
      i := i + 1;
    }
    assert p[..i] == p;
    PatternIffValid(p);
    ok := |p| >= 8 && lower && upper && digit;
  }

  /** Any character outside the class, a '-' for instance, makes a password
      invalid however strong it is otherwise. */
  lemma ForeignCharRejects(p: string, i: nat)
    requires i < |p| && !IsPasswordChar(p[i])
    ensures !PasswordPattern(p)
  {
  }

  lemma ShortRejects(p: string)
    requires |p| < 8
    ensures !PasswordPattern(p)
  {
  }
}
