/**
 * The email shape test shared by the registration and login forms: the regular
 * expression `^[^\s@]+@[^\s@]+\.[^\s@]+$` (src/user/Registration.jsx:55,
 * src/user/Login.jsx:36), written as a character-level check and proved equal
 * to a predicate that follows the expression's structure.
 */
module Email {
  import opened Text

  /** A character of the class `[^\s@]`. */
  predicate IsSegmentChar(c: char)
  {
    !IsWhitespace(c) && c != '@'
  }

  /** `[^\s@]+`: a non-empty run of segment characters. */
  predicate IsSegment(t: string)
  {
    |t| > 0 && forall i :: 0 <= i < |t| ==> IsSegmentChar(t[i])
  }

  /** Index of the first occurrence of `c` in `s`, or `|s|` when there is none. */
  function IndexOf(s: string, c: char): (k: nat)
    ensures k <= |s|
    ensures k < |s| ==> s[k] == c
    ensures forall i :: 0 <= i < k ==> s[i] != c
  {
    if s == [] then 0
    else if s[0] == c then 0
    else 1 + IndexOf(s[1..], c)
  }

  /**
   * The regular expression read literally: `s` splits as L "@" A "." B where
   * L, A and B are segments. The split points are the indices of '@' and '.'.
   */
  ghost predicate MatchesEmailPattern(s: string)
  {
    exists at, dot ::
      && 0 < at < dot < |s|
      && s[at] == '@' && s[dot] == '.'
      && IsSegment(s[..at]) && IsSegment(s[at + 1..dot]) && IsSegment(s[dot + 1..])
  }

  /**
   * The character-level check: a non-empty local part before the first '@';
   * after it a domain with no whitespace and no further '@' that has a '.'
   * which is neither its first nor its last character.
   */
  predicate IsEmailShape(s: string)
  {
    var at := IndexOf(s, '@');
    && 0 < at < |s|
    && IsSegment(s[..at])
    && IsDomain(s[at + 1..])
  }

  /** The part after '@': segment characters only, with an inner '.'. */
  predicate IsDomain(d: string)
  {
    && (forall i :: 0 <= i < |d| ==> IsSegmentChar(d[i]))
    && |d| >= 3
    && IndexOf(d[1..|d| - 1], '.') < |d| - 2
  }

  /** The character-level check accepts exactly the strings the regular expression matches. */
  lemma EmailShapeMatchesPattern(s: string)
    ensures IsEmailShape(s) <==> MatchesEmailPattern(s)
  {
    if IsEmailShape(s) { ShapeImpliesPattern(s); }
    if MatchesEmailPattern(s) { PatternImpliesShape(s); }
  }

  lemma ShapeImpliesPattern(s: string)
    requires IsEmailShape(s)
    ensures MatchesEmailPattern(s)
  {
    var at := IndexOf(s, '@');
    var d := s[at + 1..];
    var j := IndexOf(d[1..|d| - 1], '.');
    var dot := at + 2 + j;
    assert s[dot] == d[1..|d| - 1][j];
    assert s[at + 1..dot] == d[..j + 1];
    assert s[dot + 1..] == d[j + 2..];
    assert IsSegment(s[at + 1..dot]) by {
      assert forall i :: 0 <= i < j + 1 ==> d[..j + 1][i] == d[i];
    }
    assert IsSegment(s[dot + 1..]);
  }

  lemma PatternImpliesShape(s: string)
    requires MatchesEmailPattern(s)
    ensures IsEmailShape(s)
  {
    var at, dot :|
      && 0 < at < dot < |s|
      && s[at] == '@' && s[dot] == '.'
      && IsSegment(s[..at]) && IsSegment(s[at + 1..dot]) && IsSegment(s[dot + 1..]);
    assert IndexOf(s, '@') == at by {
      assert forall i :: 0 <= i < at ==> s[i] == s[..at][i];
      IndexOfFirst(s, '@', at);
    }
    DomainAroundDot(s, at, dot);
  }

  /** An index of `c` with no earlier `c` is the one IndexOf finds. */
  lemma {:induction false} IndexOfFirst(s: string, c: char, k: nat)
    requires k < |s| && s[k] == c
    requires forall i :: 0 <= i < k ==> s[i] != c
    ensures IndexOf(s, c) == k
  {
    if k > 0 {
      assert forall i :: 0 <= i < k - 1 ==> s[1..][i] == s[i + 1];
      IndexOfFirst(s[1..], c, k - 1);
    }
  }

  /** What follows the '@' of a match, two segments joined by a '.', is a domain. */
  lemma DomainAroundDot(s: string, at: nat, dot: nat)
    requires at < dot < |s| && s[dot] == '.'
    requires IsSegment(s[at + 1..dot]) && IsSegment(s[dot + 1..])
    ensures IsDomain(s[at + 1..])
  {
    var d := s[at + 1..];
    forall i | 0 <= i < |d| ensures IsSegmentChar(d[i]) {
      if at + 1 + i < dot {
        assert d[i] == s[at + 1..dot][i];
      } else if at + 1 + i > dot {
        assert d[i] == s[dot + 1..][at + i - dot];
      }
    }
    assert d[1..|d| - 1][dot - at - 2] == '.';
  }

  /** An accepted email is never blank, so the required-email check cannot fire on it. */
  lemma EmailShapeNotBlank(s: string)
    requires IsEmailShape(s)
    ensures s != "" && !IsBlank(s)
  {
    var at := IndexOf(s, '@');
    assert s[..at][0] == s[0];
    BlankIffAllWhitespace(s);
  }

  /** A string with no '@' at all (such as "not-an-email") is rejected. */
  lemma NoAtSignRejected(s: string)
    requires forall i :: 0 <= i < |s| ==> s[i] != '@'
    ensures !IsEmailShape(s)
  {
  }

  /** A string containing whitespace anywhere is rejected; in particular every whitespace-only non-empty string. */
  lemma WhitespaceRejected(s: string, k: nat)
    requires k < |s| && IsWhitespace(s[k])
    ensures !IsEmailShape(s)
  {
  }
}
