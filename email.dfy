/** The e-mail address shape the registration route checks with the regular expression
    `^[^\s@]+@[^\s@]+\.[^\s@]+$`, and which this model also takes as the `isEmail`
    validation of the `email` column. */
module Email {
  import opened Wrappers
  import opened Strings

  /** A character of the class `[^\s@]`. */
  predicate Plain(c: char) {
    !IsSpace(c) && c != '@'
  }

  predicate AllPlain(s: string) {
    forall i :: 0 <= i < |s| ==> Plain(s[i])
  }

  /** The language of the regular expression: a non-empty local part, `@`, a non-empty
      label, `.`, and a non-empty rest, none of them holding whitespace or `@`. The `.`
      may be any dot of the domain, as backtracking tries them all. */
  ghost predicate MatchesEmailPattern(s: string) {
    exists at, dot ::
      && 0 < at && at + 1 < dot && dot + 1 < |s|
      && s[at] == '@' && s[dot] == '.'
      && AllPlain(s[..at]) && AllPlain(s[at + 1..dot]) && AllPlain(s[dot + 1..])
  }

  /** The index of the first occurrence of `c` in `s`. */
  function FirstIndex(s: string, c: char): (r: Option<nat>)
    ensures r.Some? ==> r.value < |s| && s[r.value] == c
    ensures r.Some? ==> forall j :: 0 <= j < r.value ==> s[j] != c
    ensures r.None? ==> forall j :: 0 <= j < |s| ==> s[j] != c
  {
    if s == [] then None
    else if s[0] == c then Some(0)
    else
      match FirstIndex(s[1..], c)
      case None => None
      case Some(k) => Some(k + 1)
  }

  /** A direct check of the shape: no whitespace, exactly one `@` and not first, and a `.`
      after the `@` that has a character on each side. */
  predicate IsEmailShape(s: string) {
    var at := FirstIndex(s, '@');
    && at.Some? && at.value > 0
    && (forall i :: 0 <= i < |s| ==> !IsSpace(s[i]))
    && (forall i :: at.value < i < |s| ==> s[i] != '@')
    && (exists d :: at.value + 1 < d < |s| - 1 && s[d] == '.')
  }

  lemma PlainSlice(s: string, lo: nat, hi: nat)
    requires lo <= hi <= |s|
    requires forall i :: lo <= i < hi ==> Plain(s[i])
    ensures AllPlain(s[lo..hi])
  {
    var t := s[lo..hi];
    forall i | 0 <= i < |t| ensures Plain(t[i]) {
      assert t[i] == s[lo + i];
    }
  }

  lemma SlicePlain(s: string, lo: nat, hi: nat)
    requires lo <= hi <= |s|
    requires AllPlain(s[lo..hi])
    ensures forall i :: lo <= i < hi ==> Plain(s[i])
  {
    var t := s[lo..hi];
    forall i | lo <= i < hi ensures Plain(s[i]) {
      assert s[i] == t[i - lo];
    }
  }

  lemma ShapeMatches(s: string)
    requires IsEmailShape(s)
    ensures MatchesEmailPattern(s)
  {
    var at := FirstIndex(s, '@').value;
    var d :| at + 1 < d < |s| - 1 && s[d] == '.';
    PlainSlice(s, 0, at);
    PlainSlice(s, at + 1, d);
    PlainSlice(s, d + 1, |s|);
    assert s[..at] == s[0..at];
    assert s[d + 1..] == s[d + 1..|s|];
  }

  lemma MatchesShape(s: string)
    requires MatchesEmailPattern(s)
    ensures IsEmailShape(s)
  {
    var at, dot :|
      && 0 < at && at + 1 < dot && dot + 1 < |s|
      && s[at] == '@' && s[dot] == '.'
      && AllPlain(s[..at]) && AllPlain(s[at + 1..dot]) && AllPlain(s[dot + 1..]);
    assert s[..at] == s[0..at];
    assert s[dot + 1..] == s[dot + 1..|s|];
    SlicePlain(s, 0, at);
    SlicePlain(s, at + 1, dot);
    SlicePlain(s, dot + 1, |s|);
    assert !IsSpace('@') && !IsSpace('.');
    forall i | 0 <= i < |s| ensures !IsSpace(s[i]) {
      if i != at && i != dot {
        assert Plain(s[i]);
      }
    }
    forall i | at < i < |s| ensures s[i] != '@' {
      if i != dot {
        assert Plain(s[i]);
      }
    }
    FirstIsAt(s, at);
    assert at + 1 < dot < |s| - 1 && s[dot] == '.';
  }

  lemma FirstIsAt(s: string, at: nat)
    requires at < |s| && s[at] == '@'
    requires forall i :: 0 <= i < at ==> Plain(s[i])
    ensures FirstIndex(s, '@') == Some(at)
  {
    var r := FirstIndex(s, '@');
    assert r.Some? && s[r.value] == '@';
    assert !Plain(s[r.value]);
  }

  /** The direct check accepts exactly the strings the regular expression matches. */
  lemma EmailShapeIff(s: string)
    ensures IsEmailShape(s) <==> MatchesEmailPattern(s)
  {
    if IsEmailShape(s) {
      ShapeMatches(s);
    }
    if MatchesEmailPattern(s) {
      MatchesShape(s);
    }
  }
}
