/**
 The ECMAScript string operations the shim relies on, over strings modelled
 as sequences of characters: `trim`, `includes` of one character, `slice`,
 `split` on one character and `join`.
 */
module Text {

  type String = seq<char>

  /** An ECMAScript LineTerminator: the characters the regular-expression `.` does not match. */
  predicate IsLineTerminator(c: char)
  {
    c == '\n' || c == '\r' || c == '\U{2028}' || c == '\U{2029}'
  }

  /**
   ECMAScript WhiteSpace and LineTerminator code points: what
   `String.prototype.trim` strips. In code-point order: tab, line feed, vertical
   tab, form feed and carriage return (U+0009 to U+000D); space; no-break space;
   the Unicode Zs space separators (U+1680, U+2000 to U+200A, U+202F, U+205F,
   U+3000); the line and paragraph separators (U+2028, U+2029); and the byte
   order mark (U+FEFF).
   */
  predicate IsJsWhitespace(c: char)
  {
    ('\t' <= c <= '\r') || c == ' ' || c == '\U{00A0}' || c == '\U{1680}'
    || ('\U{2000}' <= c <= '\U{200A}') || c == '\U{2028}' || c == '\U{2029}'
    || c == '\U{202F}' || c == '\U{205F}' || c == '\U{3000}' || c == '\U{FEFF}'
  }

  /** Number of occurrences of `c` in `s`. */
  function Count(s: String, c: char): nat
  {
    if |s| == 0 then 0 else (if s[0] == c then 1 else 0) + Count(s[1..], c)
  }

  /** `s` with every occurrence of `c` deleted. */
  function RemoveChar(s: String, c: char): String
  {
    if |s| == 0 then [] else (if s[0] == c then [] else [s[0]]) + RemoveChar(s[1..], c)
  }

  /** Index of the first occurrence of `c` in `s`. */
  function IndexOf(s: String, c: char): (k: nat)
    requires c in s
    ensures k < |s| && s[k] == c
    ensures forall j :: 0 <= j < k ==> s[j] != c
  {
    if s[0] == c then 0 else 1 + IndexOf(s[1..], c)
  }

  /** `s` without its leading whitespace. */
  function TrimStart(s: String): (r: String)
    ensures |r| <= |s|
    ensures |r| > 0 ==> !IsJsWhitespace(r[0])
  {
    if |s| > 0 && IsJsWhitespace(s[0]) then TrimStart(s[1..]) else s
  }

  /** `s` without its trailing whitespace. */
  function TrimEnd(s: String): (r: String)
    ensures |r| <= |s|
    ensures |r| > 0 ==> r[0] == s[0] && !IsJsWhitespace(r[|r| - 1])
  {
    if |s| > 0 && IsJsWhitespace(s[|s| - 1]) then TrimEnd(s[..|s| - 1]) else s
  }

  /** Trimming the start only drops characters from the front. */
  lemma {:induction false} TrimStartIsSuffix(s: String)
    ensures TrimStart(s) == s[|s| - |TrimStart(s)|..]
    decreases |s|
  {
    if |s| > 0 && IsJsWhitespace(s[0]) {
      TrimStartIsSuffix(s[1..]);
    }
  }

  /** Trimming the end only drops characters from the back. */
  lemma {:induction false} TrimEndIsPrefix(s: String)
    ensures TrimEnd(s) == s[..|TrimEnd(s)|]
    decreases |s|
  {
    if |s| > 0 && IsJsWhitespace(s[|s| - 1]) {
      TrimEndIsPrefix(s[..|s| - 1]);
    }
  }

  /** `String.prototype.trim`: `s` without leading and trailing whitespace. */
  function Trim(s: String): (r: String)
    ensures |r| <= |s|
    ensures |r| > 0 ==> !IsJsWhitespace(r[0]) && !IsJsWhitespace(r[|r| - 1])
  {
    TrimEnd(TrimStart(s))
  }

  /**
   `s.slice(a, b)` for non-negative offsets: both offsets are clamped to the
   length, and a start past the end gives the empty string.
   */
  function Slice(s: String, a: nat, b: nat): (r: String)
    ensures a <= b <= |s| ==> r == s[a..b]
    ensures b <= a || |s| <= a ==> r == []
    ensures a <= |s| <= b ==> r == s[a..]
    ensures |r| <= |s|
  {
    var lo := if a < |s| then a else |s|;
    var hi := if b < |s| then b else |s|;
    if lo <= hi then s[lo..hi] else []
  }

  /** `parts.join(sep)` for a one-character separator. */
  function Join(parts: seq<String>, sep: char): String
  {
    if |parts| == 0 then []
    else if |parts| == 1 then parts[0]
    else parts[0] + [sep] + Join(parts[1..], sep)
  }

  /** `parts.join('')`. */
  function Concat(parts: seq<String>): String
  {
    if |parts| == 0 then [] else parts[0] + Concat(parts[1..])
  }

  /**
   `s.split(sep)` for a one-character separator: the pieces between
   consecutive separators, one more piece than there are separators.
   */
  function Split(s: String, sep: char): (parts: seq<String>)
    ensures |parts| == Count(s, sep) + 1
  {
    if |s| == 0 then
      [[]]
    else
      var rest := Split(s[1..], sep);
      if s[0] == sep then [[]] + rest else [[s[0]] + rest[0]] + rest[1..]
  }

  /** No piece of a split contains the separator. */
  lemma {:induction false} SplitPiecesFree(s: String, sep: char)
    ensures forall i :: 0 <= i < |Split(s, sep)| ==> sep !in Split(s, sep)[i]
    decreases |s|
  {
    if |s| > 0 {
      SplitPiecesFree(s[1..], sep);
      var rest := Split(s[1..], sep);
      if s[0] == sep {
        assert Split(s, sep) == [[]] + rest;
      } else {
        assert Split(s, sep) == [[s[0]] + rest[0]] + rest[1..];
        assert sep !in rest[0];
      }
    }
  }

  /** Joining the pieces of a split with the separator gives the string back. */
  lemma {:induction false} JoinSplit(s: String, sep: char)
    ensures Join(Split(s, sep), sep) == s
    decreases |s|
  {
    if |s| > 0 {
      JoinSplit(s[1..], sep);
      var rest := Split(s[1..], sep);
      if s[0] == sep {
        assert s == [sep] + s[1..];
      } else {
        JoinExtendFirst(s[0], rest, sep);
      }
    }
  }

  /** Prepending a character to the first piece prepends it to the joined string. */
  lemma JoinExtendFirst(x: char, parts: seq<String>, sep: char)
    requires |parts| >= 1
    ensures Join([[x] + parts[0]] + parts[1..], sep) == [x] + Join(parts, sep)
  {
    var ext := [[x] + parts[0]] + parts[1..];
    assert ext[1..] == parts[1..];
  }

  /** A character occurs in `s` exactly when it is counted there. */
  lemma {:induction false} CountZero(s: String, c: char)
    ensures Count(s, c) == 0 <==> c !in s
    decreases |s|
  {
    if |s| > 0 {
      CountZero(s[1..], c);
      assert s == [s[0]] + s[1..];
    }
  }

  lemma {:induction false} CountConcat(a: String, b: String, c: char)
    ensures Count(a + b, c) == Count(a, c) + Count(b, c)
    decreases |a|
  {
    if |a| > 0 {
      assert (a + b)[0] == a[0];
      assert (a + b)[1..] == a[1..] + b;
      CountConcat(a[1..], b, c);
    } else {
      assert a + b == b;
    }
  }

  /** Moving the third part of a five-part concatenation from the tail group to the head group. */
  lemma RegroupAfterMiddle(a: String, b: String, c: String, d: String, e: String)
    ensures a + b + (c + d + e) == (a + b + c) + d + e
  {
  }

  /** Gathering the second, third and fourth parts of a five-part concatenation into one group. */
  lemma RegroupAroundMiddle(a: String, b: String, c: String, d: String, e: String)
    ensures (a + b) + c + (d + e) == a + (b + c + d) + e
  {
  }

  /** A string with a single `c` is the text before it, `c`, and the text after it, neither holding `c`. */
  lemma SingleOccurrence(s: String, c: char)
    requires Count(s, c) == 1
    ensures c in s
    ensures var k := IndexOf(s, c);
      s == s[..k] + [c] + s[k + 1..] && c !in s[..k] && c !in s[k + 1..]
  {
    CountZero(s, c);
    var k := IndexOf(s, c);
    assert s == s[..k] + [c] + s[k + 1..];
    CountConcat(s[..k] + [c], s[k + 1..], c);
    CountConcat(s[..k], [c], c);
    CountZero(s[..k], c);
    CountZero(s[k + 1..], c);
  }

  /** Replacing `s[a..b]` by `ins` replaces its occurrences of `c` by those of `ins`. */
  lemma CountSplice(s: String, a: nat, b: nat, ins: String, c: char)
    requires a <= b <= |s|
    ensures Count(s[..a] + ins + s[b..], c) == Count(s, c) - Count(s[a..b], c) + Count(ins, c)
  {
    assert s == s[..a] + s[a..b] + s[b..];
    CountConcat(s[..a] + s[a..b], s[b..], c);
    CountConcat(s[..a], s[a..b], c);
    CountConcat(s[..a] + ins, s[b..], c);
    CountConcat(s[..a], ins, c);
  }

  lemma {:induction false} RemoveCharConcat(a: String, b: String, c: char)
    ensures RemoveChar(a + b, c) == RemoveChar(a, c) + RemoveChar(b, c)
    decreases |a|
  {
    if |a| > 0 {
      assert (a + b)[0] == a[0];
      assert (a + b)[1..] == a[1..] + b;
      RemoveCharConcat(a[1..], b, c);
    } else {
      assert a + b == b;
    }
  }

  /** Deleting `c` removes exactly its occurrences and nothing else. */
  lemma {:induction false} RemoveCharFacts(s: String, c: char)
    ensures c !in RemoveChar(s, c)
    ensures |RemoveChar(s, c)| == |s| - Count(s, c)
    ensures c !in s ==> RemoveChar(s, c) == s
    decreases |s|
  {
    if |s| > 0 {
      RemoveCharFacts(s[1..], c);
      if c !in s {
        assert c !in s[1..];
      }
    }
  }

  /** Deleting a character keeps every remaining character from the original. */
  lemma {:induction false} RemoveCharSubset(s: String, c: char)
    ensures forall x :: x in RemoveChar(s, c) ==> x in s
    decreases |s|
  {
    if |s| > 0 {
      RemoveCharSubset(s[1..], c);
      assert RemoveChar(s, c) == (if s[0] == c then [] else [s[0]]) + RemoveChar(s[1..], c);
    }
  }

  /** `join('')` of the pieces of a split is the string with the separators deleted. */
  lemma {:induction false} ConcatSplit(s: String, sep: char)
    ensures Concat(Split(s, sep)) == RemoveChar(s, sep)
    decreases |s|
  {
    if |s| > 0 {
      ConcatSplit(s[1..], sep);
      var rest := Split(s[1..], sep);
      if s[0] != sep {
        var parts := [[s[0]] + rest[0]] + rest[1..];
        assert parts[1..] == rest[1..];
        assert Concat(rest) == rest[0] + Concat(rest[1..]);
      }
    }
  }

  /** A piece without the separator, followed by the separator, splits off as the first piece. */
  lemma {:induction false} SplitPrefix(p: String, sep: char, rest: String)
    requires sep !in p
    ensures Split(p + [sep] + rest, sep) == [p] + Split(rest, sep)
    decreases |p|
  {
    var s := p + [sep] + rest;
    if |p| == 0 {
      assert s == [sep] + rest;
      assert s[1..] == rest;
    } else {
      assert s[1..] == p[1..] + [sep] + rest;
      SplitPrefix(p[1..], sep, rest);
      assert [p[0]] + p[1..] == p;
    }
  }

  /** A string without the separator is a single piece. */
  lemma {:induction false} SplitNone(s: String, sep: char)
    requires sep !in s
    ensures Split(s, sep) == [s]
    decreases |s|
  {
    if |s| > 0 {
      SplitNone(s[1..], sep);
      assert [s[0]] + s[1..] == s;
    }
  }

  /** `split` inverts `join` on separator-free pieces. */
  lemma {:induction false} SplitJoin(parts: seq<String>, sep: char)
    requires |parts| >= 1
    requires forall i :: 0 <= i < |parts| ==> sep !in parts[i]
    ensures Split(Join(parts, sep), sep) == parts
    decreases |parts|
  {
    if |parts| == 1 {
      SplitNone(parts[0], sep);
    } else {
      SplitJoin(parts[1..], sep);
      SplitPrefix(parts[0], sep, Join(parts[1..], sep));
    }
  }

  /** Trimming removes no character other than whitespace. */
  lemma TrimCount(s: String, c: char)
    requires !IsJsWhitespace(c)
    ensures Count(Trim(s), c) == Count(s, c)
    ensures c in Trim(s) <==> c in s
  {
    TrimStartCount(s, c);
    TrimEndCount(TrimStart(s), c);
    CountZero(s, c);
    CountZero(Trim(s), c);
  }

  lemma {:induction false} TrimStartCount(s: String, c: char)
    requires !IsJsWhitespace(c)
    ensures Count(TrimStart(s), c) == Count(s, c)
    decreases |s|
  {
    if |s| > 0 && IsJsWhitespace(s[0]) {
      TrimStartCount(s[1..], c);
    }
  }

  lemma {:induction false} TrimEndCount(s: String, c: char)
    requires !IsJsWhitespace(c)
    ensures Count(TrimEnd(s), c) == Count(s, c)
    decreases |s|
  {
    if |s| > 0 && IsJsWhitespace(s[|s| - 1]) {
      var init := s[..|s| - 1];
      TrimEndCount(init, c);
      assert s == init + [s[|s| - 1]];
      CountConcat(init, [s[|s| - 1]], c);
    }
  }

  predicate NoWhitespace(s: String)
  {
    forall c :: c in s ==> !IsJsWhitespace(c)
  }

  /** A string with no whitespace in it is its own trimming. */
  lemma TrimNoWhitespace(s: String)
    requires NoWhitespace(s)
    ensures Trim(s) == s
  {
    assert TrimStart(s) == s;
  }

  /** Trimming is idempotent. */
  lemma TrimIdempotent(s: String)
    ensures Trim(Trim(s)) == Trim(s)
  {
    var r := Trim(s);
    if |r| > 0 {
      assert TrimStart(r) == r;
      assert TrimEnd(r) == r;
    }
  }
}
