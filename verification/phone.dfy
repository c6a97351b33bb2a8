/**
 * The registration form's phone number test (src/user/Registration.jsx:71-74):
 * separators are deleted with `replace(/[\s\-\(\)]/g, '')` and what remains must
 * match `^[\+]?[1-9][\d]{0,15}$`.
 */
module Phone {
  import opened Text

  /** A character of the class `[\s\-\(\)]`, deleted before the shape test. */
  predicate IsSeparator(c: char)
  {
    IsWhitespace(c) || c == '-' || c == '(' || c == ')'
  }

  /** `\d`: an ASCII decimal digit (JavaScript's `\d` is ASCII-only). */
  predicate IsDigit(c: char)
  {
    '0' <= c <= '9'
  }

  predicate AllDigits(s: string)
  {
    forall i :: 0 <= i < |s| ==> IsDigit(s[i])
  }

  /** Every separator deleted and every other character kept, in order. */
  function StripSeparators(s: string): string
  {
    if s == [] then []
    else if IsSeparator(s[0]) then StripSeparators(s[1..])
    else [s[0]] + StripSeparators(s[1..])
  }

  /**
   * What stripping keeps: no separator is left, and a character occurs in the
   * result exactly when it occurs in `s` and is not a separator.
   */
  lemma {:induction false} StripSeparatorsSpec(s: string)
    ensures |StripSeparators(s)| <= |s|
    ensures forall i :: 0 <= i < |StripSeparators(s)| ==> !IsSeparator(StripSeparators(s)[i])
    ensures forall c :: c in StripSeparators(s) <==> c in s && !IsSeparator(c)
  {
    if s != [] {
      StripSeparatorsSpec(s[1..]);
      assert forall c :: c in s <==> c == s[0] || c in s[1..];
    }
  }

  /** Stripping distributes over concatenation: it works character by character. */
  lemma {:induction false} StripSeparatorsAppend(a: string, b: string)
    ensures StripSeparators(a + b) == StripSeparators(a) + StripSeparators(b)
  {
    if a != [] {
      assert (a + b)[1..] == a[1..] + b;
      StripSeparatorsAppend(a[1..], b);
    } else {
      assert a + b == b;
    }
  }

  /** A string without separators is left as it is; so stripping twice is stripping once. */
  lemma {:induction false} StripSeparatorsKeepsClean(s: string)
    requires forall i :: 0 <= i < |s| ==> !IsSeparator(s[i])
    ensures StripSeparators(s) == s
  {
    if s != [] {
      StripSeparatorsKeepsClean(s[1..]);
    }
  }

  /** A string made only of separators (whitespace-only input among them) strips to "". */
  lemma {:induction false} StripSeparatorsOnly(s: string)
    requires forall i :: 0 <= i < |s| ==> IsSeparator(s[i])
    ensures StripSeparators(s) == ""
  {
    if s != [] {
      StripSeparatorsOnly(s[1..]);
    }
  }

  /** `[1-9][\d]{0,15}`: a non-zero first digit followed by at most fifteen digits. */
  predicate IsNumberBody(d: string)
  {
    1 <= |d| <= 16 && '1' <= d[0] <= '9' && AllDigits(d[1..])
  }

  /** The regular expression read literally: the body, either alone or after one '+'. */
  predicate MatchesPhonePattern(t: string)
  {
    IsNumberBody(t) || (|t| > 0 && t[0] == '+' && IsNumberBody(t[1..]))
  }

  /**
   * The character-level check on the stripped text: drop a leading '+', then
   * 1 to 16 characters, all digits, the first not '0'.
   */
  predicate IsPhoneShape(t: string)
  {
    var d := if |t| > 0 && t[0] == '+' then t[1..] else t;
    1 <= |d| <= 16 && d[0] != '0' && AllDigits(d)
  }

  /** The character-level check accepts exactly what the regular expression matches. */
  lemma PhoneShapeMatchesPattern(t: string)
    ensures IsPhoneShape(t) <==> MatchesPhonePattern(t)
  {
    var d := if |t| > 0 && t[0] == '+' then t[1..] else t;
    if IsPhoneShape(t) {
      assert IsDigit(d[0]);
      assert forall i :: 0 <= i < |d| - 1 ==> d[1..][i] == d[i + 1];
    }
    if IsNumberBody(d) {
      assert forall i :: 1 <= i < |d| ==> d[i] == d[1..][i - 1];
    }
  }

  /** The whole phone rule on raw input: a number in digits only, or with '+' and separators. */
  predicate IsPhoneNumber(raw: string)
  {
    IsPhoneShape(StripSeparators(raw))
  }

  /** Separators placed anywhere between the characters of a raw number do not change the verdict. */
  lemma SeparatorsIgnored(a: string, sep: string, b: string)
    requires forall i :: 0 <= i < |sep| ==> IsSeparator(sep[i])
    ensures IsPhoneNumber(a + sep + b) <==> IsPhoneNumber(a + b)
  {
    StripSeparatorsAppend(a + sep, b);
    StripSeparatorsAppend(a, sep);
    StripSeparatorsAppend(a, b);
    StripSeparatorsOnly(sep);
    assert StripSeparators(a) + "" == StripSeparators(a);
  }

  /** Whitespace-only input is never a phone number: it strips to "". */
  lemma WhitespaceOnlyRejected(raw: string)
    requires AllWhitespace(raw)
    ensures !IsPhoneNumber(raw)
  {
    StripSeparatorsOnly(raw);
  }

  /** An accepted phone number is never blank, so the required-phone check cannot fire on it. */
  lemma PhoneNumberNotBlank(raw: string)
    requires IsPhoneNumber(raw)
    ensures raw != "" && !IsBlank(raw)
  {
    BlankIffAllWhitespace(raw);
    if AllWhitespace(raw) {
      WhitespaceOnlyRejected(raw);
    }
  }
}
