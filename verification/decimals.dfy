/**
 `resolveMultipleDecimals`, stated at the level of the numeral it hands to
 `Number(...)`. The coercion itself (ECMAScript ToNumber, floating-point
 parsing) is not modelled: what is proved here is which string reaches it.
 */
module Decimals {
  import opened Text

  /**
   Reference reading of the collapse, independent of `split` and `join`: keep
   `t` up to and including its first `.`, then delete every later `.`.
   */
  function KeepFirstDot(t: String): String
    requires '.' in t
  {
    if t[0] == '.' then "." + RemoveChar(t[1..], '.') else [t[0]] + KeepFirstDot(t[1..])
  }

  /**
   The reference reading as one splice: the text before the first `.`, the
   `.`, and the rest with its dots deleted.
   */
  lemma {:induction false} KeepFirstDotSplice(t: String)
    requires '.' in t
    ensures var k := IndexOf(t, '.');
      KeepFirstDot(t) == t[..k] + "." + RemoveChar(t[k + 1..], '.')
    decreases |t|
  {
    if t[0] != '.' {
      KeepFirstDotSplice(t[1..]);
      var k := IndexOf(t[1..], '.');
      assert t[..k + 1] == [t[0]] + t[1..][..k];
      assert t[k + 2..] == t[1..][k + 1..];
    }
  }

  /**
   The reference reading leaves exactly one `.`, loses no other character,
   and leaves a string that has a single `.` as it was.
   */
  lemma {:induction false} KeepFirstDotFacts(t: String)
    requires '.' in t
    ensures Count(KeepFirstDot(t), '.') == 1
    ensures RemoveChar(KeepFirstDot(t), '.') == RemoveChar(t, '.')
    ensures Count(t, '.') == 1 ==> KeepFirstDot(t) == t
    decreases |t|
  {
    var rest := t[1..];
    if t[0] == '.' {
      RemoveCharFacts(rest, '.');
      RemoveCharFacts(RemoveChar(rest, '.'), '.');
      CountZero(RemoveChar(rest, '.'), '.');
      CountZero(rest, '.');
      assert t == "." + rest;
    } else {
      KeepFirstDotFacts(rest);
      assert t == [t[0]] + rest;
    }
  }

  /** The `split('.')` / `join('')` computation agrees with the reference reading. */
  lemma {:induction false} SplitJoinCollapse(t: String)
    requires '.' in t
    ensures |Split(t, '.')| >= 2
    ensures Split(t, '.')[0] + "." + Concat(Split(t, '.')[1..]) == KeepFirstDot(t)
    decreases |t|
  {
    var rest := Split(t[1..], '.');
    if t[0] == '.' {
      ConcatSplit(t[1..], '.');
      assert Split(t, '.') == [[]] + rest;
      assert Split(t, '.')[1..] == rest;
    } else {
      SplitJoinCollapse(t[1..]);
      var parts := Split(t, '.');
      assert parts == [[t[0]] + rest[0]] + rest[1..];
      assert parts[1..] == rest[1..];
    }
  }

  /**
   The numeral `resolveMultipleDecimals(value)` coerces with `Number`. With no
   `.` the value itself is passed on (untrimmed); otherwise the trimmed value
   is cut at every `.`, the first piece is kept as the integer part and the
   other pieces are glued together, in order, as the fraction.
   */
  function ResolveMultipleDecimals(value: String): (numeral: String)
    ensures '.' !in value ==> numeral == value
    ensures '.' in value ==>
      Count(numeral, '.') == 1 && RemoveChar(numeral, '.') == RemoveChar(Trim(value), '.')
  {
    var parts := Split(Trim(value), '.');
    TrimCount(value, '.');
    CountZero(value, '.');
    if |parts| <= 1 then
      value
    else
      SplitJoinCollapse(Trim(value));
      KeepFirstDotFacts(Trim(value));
      var integerPart := parts[0];
      var decimalPart := Concat(parts[1..]);
      integerPart + "." + decimalPart
  }

  /**
   The split-and-join computation agrees with the reference reading: with a
   `.` present, the numeral is the trimmed value with its first `.` kept and
   every later `.` deleted.
   */
  lemma ResolveIsKeepFirstDot(value: String)
    requires '.' in value
    ensures '.' in Trim(value)
    ensures ResolveMultipleDecimals(value) == KeepFirstDot(Trim(value))
  {
    TrimCount(value, '.');
    CountZero(value, '.');
    CountZero(Trim(value), '.');
    SplitJoinCollapse(Trim(value));
  }

  /**
   With a `.` present the numeral has exactly one `.`, the trimmed text before
   the first `.` is kept verbatim, and no character other than a `.` is lost,
   added or moved.
   */
  lemma ResolveKeepsFirstSegment(value: String)
    requires '.' in value
    ensures '.' in Trim(value)
    ensures Count(ResolveMultipleDecimals(value), '.') == 1
    ensures var k := IndexOf(Trim(value), '.');
      ResolveMultipleDecimals(value) == Trim(value)[..k] + "." + RemoveChar(Trim(value)[k + 1..], '.')
    ensures RemoveChar(ResolveMultipleDecimals(value), '.') == RemoveChar(Trim(value), '.')
  {
    ResolveIsKeepFirstDot(value);
    var t := Trim(value);
    KeepFirstDotFacts(t);
    KeepFirstDotSplice(t);
  }

  /** A value with exactly one `.` comes out as its trimming. */
  lemma ResolveSingleDot(value: String)
    requires Count(value, '.') == 1
    ensures ResolveMultipleDecimals(value) == Trim(value)
  {
    CountZero(value, '.');
    TrimCount(value, '.');
    ResolveIsKeepFirstDot(value);
    var t := Trim(value);
    assert Count(t, '.') == 1 && '.' in t;
    KeepFirstDotFacts(t);
    assert KeepFirstDot(t) == t;
  }

  /**
   A second application changes nothing beyond whitespace, which `Number`
   ignores: with a `.` the output already has exactly one `.`, so a second
   pass only trims it; without one the value is passed through both times.
   */
  lemma ResolveIdempotent(value: String)
    ensures '.' in value ==>
      ResolveMultipleDecimals(ResolveMultipleDecimals(value)) == Trim(ResolveMultipleDecimals(value))
    ensures '.' !in value ==>
      ResolveMultipleDecimals(ResolveMultipleDecimals(value)) == ResolveMultipleDecimals(value)
    ensures Trim(ResolveMultipleDecimals(ResolveMultipleDecimals(value))) == Trim(ResolveMultipleDecimals(value))
  {
    var once := ResolveMultipleDecimals(value);
    if '.' in value {
      ResolveSingleDot(once);
      TrimIdempotent(once);
    }
  }

  /** A whitespace-free value is collapsed to a fixpoint in one pass. */
  lemma ResolveIdempotentWithoutWhitespace(value: String)
    requires NoWhitespace(value)
    ensures ResolveMultipleDecimals(ResolveMultipleDecimals(value)) == ResolveMultipleDecimals(value)
  {
    var once := ResolveMultipleDecimals(value);
    if '.' in value {
      TrimNoWhitespace(value);
      ResolveIsKeepFirstDot(value);
      KeepFirstDotChars(value);
      TrimNoWhitespace(once);
      ResolveIdempotent(value);
    }
  }

  /** The collapse introduces no character other than the `.` it keeps. */
  lemma {:induction false} KeepFirstDotChars(t: String)
    requires '.' in t
    ensures forall c :: c in KeepFirstDot(t) ==> c in t
    decreases |t|
  {
    if t[0] == '.' {
      RemoveCharSubset(t[1..], '.');
    } else {
      KeepFirstDotChars(t[1..]);
    }
  }

  /**
   Two `.` in a trimmed value: the first is kept and the pieces after it are
   glued together, as in `"123.45.67"` giving `"123.4567"` and `"..5"`
   giving `".5"`.
   */
  lemma ResolveTwoDots(a: String, b: String, c: String)
    requires '.' !in a && '.' !in b && '.' !in c
    requires Trim(a + "." + b + "." + c) == a + "." + b + "." + c
    ensures ResolveMultipleDecimals(a + "." + b + "." + c) == a + "." + b + c
  {
    KeepFirstDotTwoDots(a, b, c);
    ResolveIsKeepFirstDot(a + "." + b + "." + c);
  }

  lemma KeepFirstDotTwoDots(a: String, b: String, c: String)
    requires '.' !in a && '.' !in b && '.' !in c
    ensures '.' in a + "." + b + "." + c
    ensures KeepFirstDot(a + "." + b + "." + c) == a + "." + b + c
  {
    var tail := b + "." + c;
    assert a + "." + b + "." + c == a + "." + tail;
    assert KeepFirstDot(a + "." + tail) == a + "." + (b + c) by {
      KeepFirstDotAfterPrefix(a, tail);
      RemoveDotBetween(b, c);
    }
    assert a + "." + (b + c) == a + "." + b + c;
  }

  /** Deleting the `.` between two dot-free strings joins them. */
  lemma {:induction false} RemoveDotBetween(b: String, c: String)
    requires '.' !in b && '.' !in c
    ensures RemoveChar(b + "." + c, '.') == b + c
    decreases |b|
  {
    var s := b + "." + c;
    if |b| == 0 {
      assert s[1..] == c;
      RemoveCharFacts(c, '.');
    } else {
      assert s[1..] == b[1..] + "." + c;
      RemoveDotBetween(b[1..], c);
      assert b + c == [b[0]] + (b[1..] + c);
    }
  }

  /** A dot-free prefix followed by a `.` is kept, and every later `.` is deleted. */
  lemma {:induction false} KeepFirstDotAfterPrefix(head: String, tail: String)
    requires '.' !in head
    ensures '.' in head + "." + tail
    ensures KeepFirstDot(head + "." + tail) == head + "." + RemoveChar(tail, '.')
    decreases |head|
  {
    var t := head + "." + tail;
    assert t[|head|] == '.';
    if |head| == 0 {
      assert t == "." + tail;
    } else {
      assert t[1..] == head[1..] + "." + tail;
      KeepFirstDotAfterPrefix(head[1..], tail);
    }
  }
}
