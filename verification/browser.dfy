/**
 The Safari test on the user-agent string: the regular expression
 `/^((?!chrome|android|crios).)*safari/i`, stated as a predicate on strings,
 and the scan that decides it.

 Reading of the expression: from the start of the string, zero or more
 single characters are consumed, and before each one the lookahead demands
 that none of `chrome`, `android`, `crios` begins there; `.` does not consume
 a line terminator; then `safari` must follow. Without the `u` flag the `i`
 flag compares characters after upper-casing and never lets a non-ASCII
 character match an ASCII one, so for these all-ASCII words it is exactly
 ASCII case-insensitivity.
 */
module Browser {
  import opened Text

  /** ASCII lower-casing, the only case folding the expression performs on its ASCII words. */
  function LowerAscii(c: char): (l: char)
    ensures 'A' <= c <= 'Z' ==> l as int == c as int + 32
    ensures !('A' <= c <= 'Z') ==> l == c
  {
    if 'A' <= c <= 'Z' then (c as int + 32) as char else c
  }

  /** The lower-case ASCII `word` occurs in `s` at index `i`, ignoring ASCII case. */
  predicate WordAt(s: String, i: nat, word: String)
  {
    i + |word| <= |s| && forall k :: 0 <= k < |word| ==> LowerAscii(s[i + k]) == word[k]
  }

  /** A position the group `((?!chrome|android|crios).)` can step over. */
  predicate Clear(s: String, j: nat)
    requires j < |s|
  {
    !IsLineTerminator(s[j]) && !WordAt(s, j, "chrome") && !WordAt(s, j, "android") && !WordAt(s, j, "crios")
  }

  /** Every position before `i`, from `from` on, can be stepped over. */
  predicate ClearBetween(s: String, from: nat, i: nat)
    requires i <= |s|
  {
    forall j :: from <= j < i ==> Clear(s, j)
  }

  /** The expression matches `s`: some `safari` is reached by stepping over clear positions only. */
  ghost predicate SafariPattern(s: String)
  {
    exists i :: 0 <= i <= |s| && WordAt(s, i, "safari") && ClearBetween(s, 0, i)
  }

  /**
   The matcher resumed at index `i`: true exactly when some `safari` at or
   after `i` is reached by stepping over clear positions only.
   */
  function MatchFrom(s: String, i: nat): (r: bool)
    requires i <= |s|
    ensures r <==> exists k :: i <= k <= |s| && WordAt(s, k, "safari") && ClearBetween(s, i, k)
    decreases |s| - i
  {
    if WordAt(s, i, "safari") then
      true
    else if i < |s| && Clear(s, i) then
      var r := MatchFrom(s, i + 1);
      assert r ==> exists k :: i <= k <= |s| && WordAt(s, k, "safari") && ClearBetween(s, i, k);
      r
    else
      false
  }

  /** `browserIsSafari` on a given user-agent string. */
  function BrowserIsSafari(userAgent: String): (r: bool)
    ensures r <==> SafariPattern(userAgent)
  {
    MatchFrom(userAgent, 0)
  }

  /** A user agent without `safari` (in any case) is never taken for Safari. */
  lemma NoSafariMeansFalse(userAgent: String)
    requires forall i :: 0 <= i <= |userAgent| ==> !WordAt(userAgent, i, "safari")
    ensures !BrowserIsSafari(userAgent)
  {
  }

  /**
   A position that cannot be stepped over (a `chrome`, `android` or `crios`
   beginning there, or a line terminator) ahead of every `safari` rules Safari
   out. The Chrome, Android and Chrome-for-iOS user agents all carry a
   `Safari/...` token after such a word.
   */
  lemma BlockedBeforeEverySafariMeansFalse(userAgent: String, j: nat)
    requires j < |userAgent| && !Clear(userAgent, j)
    requires forall i :: 0 <= i <= j ==> !WordAt(userAgent, i, "safari")
    ensures !BrowserIsSafari(userAgent)
  {
    forall i | 0 <= i <= |userAgent| && WordAt(userAgent, i, "safari")
      ensures !ClearBetween(userAgent, 0, i)
    {
      assert j < i;
    }
  }

  /** A `safari` preceded only by clear positions is recognised. */
  lemma ClearPrefixMeansTrue(userAgent: String, i: nat)
    requires i <= |userAgent| && WordAt(userAgent, i, "safari")
    requires ClearBetween(userAgent, 0, i)
    ensures BrowserIsSafari(userAgent)
  {
  }


  /** A word cannot occur where its first letter does not. */
  lemma FirstLetterMismatch(s: String, i: nat, word: String)
    requires i < |s| && |word| > 0 && LowerAscii(s[i]) != word[0]
    ensures !WordAt(s, i, word)
  {
    assert s[i + 0] == s[i];
  }

  /** A user agent that begins with `Chrome`, whatever follows, is not taken for Safari. */
  lemma ChromeFirstIsNotSafari(rest: String)
    ensures !BrowserIsSafari("Chrome" + rest)
  {
    var ua := "Chrome" + rest;
    forall k | 0 <= k < 6
      ensures LowerAscii(ua[k]) == "chrome"[k]
    {
      assert k == 0 || k == 1 || k == 2 || k == 3 || k == 4 || k == 5;
    }
    assert WordAt(ua, 0, "chrome");
    FirstLetterMismatch(ua, 0, "safari");
    BlockedBeforeEverySafariMeansFalse(ua, 0);
  }

  /** A user agent that begins with `Android`, whatever follows, is not taken for Safari. */
  lemma AndroidFirstIsNotSafari(rest: String)
    ensures !BrowserIsSafari("Android" + rest)
  {
    var ua := "Android" + rest;
    forall k | 0 <= k < 7
      ensures LowerAscii(ua[k]) == "android"[k]
    {
      assert k == 0 || k == 1 || k == 2 || k == 3 || k == 4 || k == 5 || k == 6;
    }
    assert WordAt(ua, 0, "android");
    FirstLetterMismatch(ua, 0, "safari");
    BlockedBeforeEverySafariMeansFalse(ua, 0);
  }

  /** `.` does not step over a line break, so a `Safari` after one is not reached. */
  lemma LineBreakFirstIsNotSafari(rest: String)
    ensures !BrowserIsSafari("\n" + rest)
  {
    var ua := "\n" + rest;
    FirstLetterMismatch(ua, 0, "safari");
    BlockedBeforeEverySafariMeansFalse(ua, 0);
  }

  /** A user agent that begins with `Safari`, whatever follows, is taken for Safari. */
  lemma SafariFirstIsSafari(rest: String)
    ensures BrowserIsSafari("Safari" + rest)
  {
    var ua := "Safari" + rest;
    forall k | 0 <= k < 6
      ensures LowerAscii(ua[k]) == "safari"[k]
    {
      assert k == 0 || k == 1 || k == 2 || k == 3 || k == 4 || k == 5;
    }
    ClearPrefixMeansTrue(ua, 0);
  }

  /** `isNumberInputInSafari`: the field is a number input and the user agent is Safari's. */
  function IsNumberInputInSafari(inputType: String, userAgent: String): (r: bool)
    ensures r <==> inputType == "number" && SafariPattern(userAgent)
  {
    inputType == "number" && BrowserIsSafari(userAgent)
  }
}
