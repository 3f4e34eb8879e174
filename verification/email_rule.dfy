/** The `@Pattern` on `User.email`:
      ^[a-zA-Z0-9.!#$%&â€™*+/=?^_`{|}~-]+@[a-zA-Z0-9-]+(?:\.[a-zA-Z0-9-]+)*$
    The local-part class is taken as the source spells it, including the three
    characters U+00E2, U+20AC and U+2122 (a mis-decoded right single quotation
    mark) and without the ASCII apostrophe. */
module EmailRule {
  import opened Wrappers
  import opened Strings

  predicate IsAsciiAlnum(c: char) {
    ('a' <= c <= 'z') || ('A' <= c <= 'Z') || ('0' <= c <= '9')
  }

  /** The non-alphanumeric members of the local-part class, in source order. */
  const LocalPunctuation: string := ".!#$%&\U{00E2}\U{20AC}\U{2122}*+/=?^_`{|}~-"

  predicate IsLocalChar(c: char) {
    IsAsciiAlnum(c) || c in LocalPunctuation
  }

  /** The domain-label class `[a-zA-Z0-9-]`. */
  predicate IsLabelChar(c: char) {
    IsAsciiAlnum(c) || c == '-'
  }

  predicate IsLocalPart(s: string) {
    |s| > 0 && forall i :: 0 <= i < |s| ==> IsLocalChar(s[i])
  }

  predicate IsLabel(s: string) {
    |s| > 0 && forall i :: 0 <= i < |s| ==> IsLabelChar(s[i])
  }

  predicate AllLabels(labels: seq<string>) {
    forall i :: 0 <= i < |labels| ==> IsLabel(labels[i])
  }

  predicate NoDots(labels: seq<string>) {
    forall i :: 0 <= i < |labels| ==> '.' !in labels[i]
  }

  /** The labels glued with single dots. */
  function JoinDots(labels: seq<string>): string
    requires |labels| > 0
  {
    if |labels| == 1 then labels[0] else labels[0] + "." + JoinDots(labels[1..])
  }

  /** The maximal dot-free pieces of `d`, in order. */
  function SplitDots(d: string): (r: seq<string>)
    ensures |r| > 0
    ensures NoDots(r)
    ensures JoinDots(r) == d
    decreases |d|
  {
    match IndexOf(d, '.')
    case None => [d]
    case Some(k) =>
      var rest := SplitDots(d[k + 1..]);
      assert d == d[..k] + "." + d[k + 1..];
      [d[..k]] + rest
  }

  /** Splitting undoes joining, as long as no label holds a dot. */
  lemma {:induction false} SplitJoin(labels: seq<string>)
    requires |labels| > 0 && NoDots(labels)
    ensures SplitDots(JoinDots(labels)) == labels
    decreases |labels|
  {
    if |labels| == 1 {
      assert IndexOf(labels[0], '.') == None;
    } else {
      var rest := labels[1..];
      IndexOfAfterPrefix(labels[0], '.', JoinDots(rest));
      var d := JoinDots(labels);
      assert d == labels[0] + ['.'] + JoinDots(rest);
      var k := |labels[0]|;
      assert d[..k] == labels[0];
      assert d[k + 1..] == JoinDots(rest);
      SplitJoin(rest);
    }
  }

  /** The domain `[a-zA-Z0-9-]+(?:\.[a-zA-Z0-9-]+)*`, checked by splitting on dots. */
  predicate IsDomain(d: string) {
    AllLabels(SplitDots(d))
  }

  /** The email rule as the validator applies it to a non-null value. */
  predicate EmailValid(s: string) {
    match IndexOf(s, '@')
    case None => false
    case Some(k) => IsLocalPart(s[..k]) && IsDomain(s[k + 1..])
  }

  /** The grammar of the domain, read off the regular expression: one or more
      labels joined by dots. */
  ghost predicate DomainMatches(d: string) {
    exists labels :: |labels| > 0 && AllLabels(labels) && JoinDots(labels) == d
  }

  /** The grammar of the whole address, read off the regular expression. */
  ghost predicate EmailMatches(s: string) {
    exists k :: 0 <= k < |s| && s[k] == '@' && IsLocalPart(s[..k]) && DomainMatches(s[k + 1..])
  }

  lemma LabelsHaveNoDots(labels: seq<string>)
    requires AllLabels(labels)
    ensures NoDots(labels)
  {
    forall i | 0 <= i < |labels|
      ensures '.' !in labels[i]
    {
      assert !IsLabelChar('.');
    }
  }

  lemma IsDomainIffMatches(d: string)
    ensures IsDomain(d) <==> DomainMatches(d)
  {
    if DomainMatches(d) {
      var labels :| |labels| > 0 && AllLabels(labels) && JoinDots(labels) == d;
      LabelsHaveNoDots(labels);
      SplitJoin(labels);
    }
  }

  lemma LocalPartHasNoAt(s: string)
    requires IsLocalPart(s)
    ensures '@' !in s
  {
    assert !IsLocalChar('@');
  }

  lemma ValidImpliesMatches(s: string)
    requires EmailValid(s)
    ensures EmailMatches(s)
  {
    var k := IndexOf(s, '@').value;
    IsDomainIffMatches(s[k + 1..]);
    assert s[k] == '@' && IsLocalPart(s[..k]) && DomainMatches(s[k + 1..]);
  }

  lemma MatchesImpliesValid(s: string)
    requires EmailMatches(s)
    ensures EmailValid(s)
  {
    var j :| 0 <= j < |s| && s[j] == '@' && IsLocalPart(s[..j]) && DomainMatches(s[j + 1..]);
    var local, domain := s[..j], s[j + 1..];
    LocalPartHasNoAt(local);
    assert s == local + ['@'] + domain;
    IndexOfAfterPrefix(local, '@', domain);
    IsDomainIffMatches(domain);
  }

  /** The hand-written check accepts exactly the strings the pattern matches. */
  lemma EmailValidIffMatches(s: string)
    ensures EmailValid(s) <==> EmailMatches(s)
  {
    if EmailValid(s) {
      ValidImpliesMatches(s);
    }
    if EmailMatches(s) {
      MatchesImpliesValid(s);
    }
  }

  /** The shape of a valid domain stated character by character. */
  predicate DottedShape(d: string) {
    && |d| > 0
    && d[0] != '.'
    && d[|d| - 1] != '.'
    && (forall i :: 0 <= i < |d| ==> IsLabelChar(d[i]) || d[i] == '.')
    && (forall i :: 0 <= i < |d| - 1 ==> d[i] == '.' ==> d[i + 1] != '.')
  }

  /** Peeling the first label off a dotted domain, left to right. */
  lemma ShapeFromHead(d: string, k: nat)
    requires k < |d| && d[k] == '.' && '.' !in d[..k]
    requires IsLabel(d[..k]) && DottedShape(d[k + 1..])
    ensures DottedShape(d)
  {
    var head, rest := d[..k], d[k + 1..];
    assert d[0] == head[0];
    assert d[|d| - 1] == rest[|rest| - 1];
    forall i | 0 <= i < |d|
      ensures IsLabelChar(d[i]) || d[i] == '.'
    {
      if i < k {
        assert d[i] == head[i];
      } else if i > k {
        assert d[i] == rest[i - k - 1];
      }
    }
    forall i | 0 <= i < |d| - 1 && d[i] == '.'
      ensures d[i + 1] != '.'
    {
      if i == k {
        assert d[i + 1] == rest[0];
      } else if i > k {
        assert d[i] == rest[i - k - 1] && d[i + 1] == rest[i - k];
      }
    }
  }

  /** Peeling the first label off a dotted domain, right to left. */
  lemma HeadFromShape(d: string, k: nat)
    requires k < |d| && d[k] == '.' && '.' !in d[..k]
    requires DottedShape(d)
    ensures IsLabel(d[..k]) && DottedShape(d[k + 1..])
  {
    var head, rest := d[..k], d[k + 1..];
    assert k > 0;
    assert k < |d| - 1;
    forall i | 0 <= i < |head|
      ensures IsLabelChar(head[i])
    {
      assert head[i] in head && d[i] == head[i];
    }
    assert rest[0] == d[k + 1];
    assert rest[|rest| - 1] == d[|d| - 1];
    forall i | 0 <= i < |rest|
      ensures IsLabelChar(rest[i]) || rest[i] == '.'
    {
      assert rest[i] == d[i + k + 1];
    }
    forall i | 0 <= i < |rest| - 1 && rest[i] == '.'
      ensures rest[i + 1] != '.'
    {
      assert rest[i] == d[i + k + 1] && rest[i + 1] == d[i + k + 2];
    }
  }

  /** A dot-free domain is a single label. */
  lemma SingleLabelShape(d: string)
    requires '.' !in d
    ensures IsDomain(d) <==> DottedShape(d)
  {
    assert SplitDots(d) == [d];
    assert forall i :: 0 <= i < |d| ==> d[i] in d;
  }

  /** A domain is valid iff it is non-empty, drawn from `[a-zA-Z0-9-.]`, and
      has no leading, trailing or doubled dot. */
  lemma {:induction false} DomainShape(d: string)
    ensures IsDomain(d) <==> DottedShape(d)
    decreases |d|
  {
    match IndexOf(d, '.')
    case None =>
      SingleLabelShape(d);
    case Some(k) =>
      var rest := d[k + 1..];
      assert SplitDots(d) == [d[..k]] + SplitDots(rest);
      assert IsDomain(d) <==> IsLabel(d[..k]) && IsDomain(rest);
      DomainShape(rest);
      if IsLabel(d[..k]) && DottedShape(rest) {
        ShapeFromHead(d, k);
      }
      if DottedShape(d) {
        HeadFromShape(d, k);
      }
  }

  /** A valid address has exactly one '@': the local part and the domain
      classes both exclude it. */
  lemma ExactlyOneAt(s: string)
    requires EmailValid(s)
    ensures '@' in s
    ensures forall i, j :: 0 <= i < |s| && 0 <= j < |s| && s[i] == '@' && s[j] == '@' ==> i == j
  {
    var k := IndexOf(s, '@').value;
    var local, domain := s[..k], s[k + 1..];
    DomainShape(domain);
    assert !IsLocalChar('@') && !IsLabelChar('@');
    forall i | 0 <= i < |s| && s[i] == '@'
      ensures i == k
    {
    }
  }
}
