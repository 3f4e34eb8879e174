/** Character-level helpers shared by the field rules. */
module Strings {
  import opened Wrappers

  /** The position of the first occurrence of `c` in `s`, if any. */
  function IndexOf(s: string, c: char): (r: Option<nat>)
    ensures r.None? <==> c !in s
    ensures r.Some? ==> r.value < |s| && s[r.value] == c && c !in s[..r.value]
    decreases |s|
  {
    if |s| == 0 then None
    else if s[0] == c then Some(0)
    else match IndexOf(s[1..], c)
      case None => None
      case Some(k) => assert s[1..][..k] == s[1..k + 1]; Some(k + 1)
  }

  /** In `a + [c] + b` with no `c` inside `a`, the first `c` is the one after `a`. */
  lemma IndexOfAfterPrefix(a: string, c: char, b: string)
    requires c !in a
    ensures IndexOf(a + [c] + b, c) == Some(|a|)
  {
    var s := a + [c] + b;
    assert s[|a|] == c;
    assert forall i :: 0 <= i < |a| ==> s[i] == a[i] != c;
    var r := IndexOf(s, c);
    assert r.Some? && r.value >= |a|;
  }

  /** Whether Java's `String.trim` strips `c`: every code point up to U+0020. */
  predicate IsTrimmed(c: char) {
    c <= ' '
  }

  function TrimStart(s: string): (r: string)
    decreases |s|
  {
    if |s| > 0 && IsTrimmed(s[0]) then TrimStart(s[1..]) else s
  }

  function TrimEnd(s: string): (r: string)
    decreases |s|
  {
    if |s| > 0 && IsTrimmed(s[|s| - 1]) then TrimEnd(s[..|s| - 1]) else s
  }

  /** `String.trim`: drop the trimmable characters at both ends. */
  function Trim(s: string): string {
    TrimEnd(TrimStart(s))
  }

  /** Some character of `s` survives trimming. */
  predicate HasVisibleChar(s: string) {
    exists i :: 0 <= i < |s| && !IsTrimmed(s[i])
  }

  lemma {:induction false} TrimStartEmpty(s: string)
    ensures |TrimStart(s)| == 0 <==> !HasVisibleChar(s)
    ensures |TrimStart(s)| > 0 ==> !IsTrimmed(TrimStart(s)[0])
    decreases |s|
  {
    if |s| > 0 && IsTrimmed(s[0]) {
      TrimStartEmpty(s[1..]);
      if HasVisibleChar(s) {
        var i :| 0 <= i < |s| && !IsTrimmed(s[i]);
        assert !IsTrimmed(s[1..][i - 1]);
      }
      if HasVisibleChar(s[1..]) {
        var i :| 0 <= i < |s[1..]| && !IsTrimmed(s[1..][i]);
        assert !IsTrimmed(s[i + 1]);
      }
    } else if |s| > 0 {
      assert !IsTrimmed(s[0]);
    }
  }

  lemma {:induction false} TrimEndKeepsVisibleHead(s: string)
    requires |s| > 0 && !IsTrimmed(s[0])
    ensures |TrimEnd(s)| > 0
    decreases |s|
  {
    if IsTrimmed(s[|s| - 1]) {
      TrimEndKeepsVisibleHead(s[..|s| - 1]);
    }
  }

  /** `s.trim()` is non-empty exactly when `s` has a character above U+0020. */
  lemma TrimNonEmptyIffVisible(s: string)
    ensures |Trim(s)| > 0 <==> HasVisibleChar(s)
  {
    TrimStartEmpty(s);
    if |TrimStart(s)| > 0 {
      TrimEndKeepsVisibleHead(TrimStart(s));
    }
  }
}
