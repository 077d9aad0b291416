/**
 Where the paste handler's caret lands in the collapsed value. The handler
 places it at `start + pasted.length - cursorOffset`, subtracting one when
 the collapse drops a `.`. Stated on the numeral `resolveMultipleDecimals`
 passes to `Number`, for values and pasted text without whitespace that
 hold at most one `.` each (what a number input and a rendered number hold).
 */
module PasteCaret {
  import opened Text
  import opened Decimals
  import opened Paste

  /** A whitespace-free text with at most one `.` is passed to `Number` as it is. */
  lemma ResolveAtMostOneDot(s: String)
    requires NoWhitespace(s) && Count(s, '.') <= 1
    ensures ResolveMultipleDecimals(s) == s
  {
    CountZero(s, '.');
    if '.' in s {
      ResolveSingleDot(s);
      TrimNoWhitespace(s);
    }
  }

  /** A whitespace-free text whose first `.` follows `head` keeps that `.` and loses every later one. */
  lemma ResolveAfterPrefix(head: String, tail: String)
    requires '.' !in head && NoWhitespace(head + "." + tail)
    ensures ResolveMultipleDecimals(head + "." + tail) == head + "." + RemoveChar(tail, '.')
  {
    TrimNoWhitespace(head + "." + tail);
    KeepFirstDotAfterPrefix(head, tail);
    ResolveIsKeepFirstDot(head + "." + tail);
  }

  /** Deleting `.` from `a + x + b` touches only `x` when `a` and `b` have none. */
  lemma RemoveCharMiddle(a: String, x: String, b: String)
    requires '.' !in a && '.' !in b
    ensures RemoveChar(a + x + b, '.') == a + RemoveChar(x, '.') + b
  {
    RemoveCharConcat(a + x, b, '.');
    RemoveCharConcat(a, x, '.');
    RemoveCharFacts(a, '.');
    RemoveCharFacts(b, '.');
  }

  /**
   When no `.` is dropped, the pasted text lands intact between the text
   before and after the selection, and the caret sits right after it.
   */
  lemma CaretWhenNoDotDropped(current: String, start: nat, end: nat, pasted: String)
    requires start <= end <= |current|
    requires NoWhitespace(current) && NoWhitespace(pasted)
    requires Count(current, '.') <= 1 && Count(pasted, '.') <= 1
    requires CursorOffset(current, start, end, pasted) == 0
    ensures ResolveMultipleDecimals(Splice(current, start, end, pasted))
      == current[..start] + pasted + current[end..]
    ensures NewCursorPosition(current, start, end, pasted) == |current[..start] + pasted|
  {
    var spliced := current[..start] + pasted + current[end..];
    assert Count(spliced, '.') <= 1 by {
      CountSplice(current, start, end, pasted, '.');
      CountZero(current, '.');
      CountZero(current[start..end], '.');
      CountZero(pasted, '.');
    }
    assert NoWhitespace(spliced) by {
      assert NoWhitespace(current[..start]) && NoWhitespace(current[end..]);
    }
    ResolveAtMostOneDot(spliced);
  }

  /** The value's `.` before the pasted text: the pasted text loses its `.`. */
  lemma ResolveDotThenPaste(p1: String, p2: String, x: String, suf: String)
    requires '.' !in p1 && '.' !in p2 && '.' !in suf
    requires NoWhitespace(p1 + "." + p2) && NoWhitespace(x) && NoWhitespace(suf)
    ensures ResolveMultipleDecimals(p1 + "." + p2 + x + suf) == p1 + "." + p2 + RemoveChar(x, '.') + suf
  {
    RegroupAfterMiddle(p1, ".", p2, x, suf);
    assert NoWhitespace(p1 + "." + (p2 + x + suf));
    ResolveAfterPrefix(p1, p2 + x + suf);
    RemoveCharMiddle(p2, x, suf);
    RegroupAfterMiddle(p1, ".", p2, RemoveChar(x, '.'), suf);
  }

  /** The pasted text's `.` before the value's: the value's later `.` is dropped. */
  lemma ResolvePasteThenDot(pre: String, q1: String, q2: String, suf: String)
    requires '.' !in pre && '.' !in q1 && '.' !in q2
    requires NoWhitespace(pre) && NoWhitespace(q1 + "." + q2) && NoWhitespace(suf)
    ensures ResolveMultipleDecimals(pre + (q1 + "." + q2) + suf) == pre + (q1 + "." + q2) + RemoveChar(suf, '.')
  {
    RegroupAroundMiddle(pre, q1, ".", q2, suf);
    assert NoWhitespace((pre + q1) + "." + (q2 + suf));
    ResolveAfterPrefix(pre + q1, q2 + suf);
    RemoveCharConcat(q2, suf, '.');
    RemoveCharFacts(q2, '.');
    RegroupAroundMiddle(pre, q1, ".", q2, RemoveChar(suf, '.'));
  }

  /**
   When a `.` is dropped and the value's own `.` lies before the selection,
   the pasted text lands without its `.` and the caret sits right after it:
   the correction by one is exactly the dropped character.
   */
  lemma CaretWhenDotBeforeSelection(current: String, start: nat, end: nat, pasted: String)
    requires start <= end <= |current|
    requires NoWhitespace(current) && NoWhitespace(pasted)
    requires Count(current, '.') <= 1 && Count(pasted, '.') <= 1
    requires CursorOffset(current, start, end, pasted) == 1
    requires '.' in current[..start]
    ensures ResolveMultipleDecimals(Splice(current, start, end, pasted))
      == current[..start] + RemoveChar(pasted, '.') + current[end..]
    ensures NewCursorPosition(current, start, end, pasted) == |current[..start] + RemoveChar(pasted, '.')|
  {
    DotBeforeSelectionNumeral(current, start, end, pasted);
    assert |RemoveChar(pasted, '.')| == |pasted| - 1 by {
      RemoveCharFacts(pasted, '.');
      CountZero(pasted, '.');
    }
  }

  /** With the value's only `.` before the selection, the pasted text loses its `.`. */
  lemma DotBeforeSelectionNumeral(current: String, start: nat, end: nat, pasted: String)
    requires start <= end <= |current|
    requires NoWhitespace(current) && NoWhitespace(pasted)
    requires Count(current, '.') <= 1
    requires '.' in current[..start]
    ensures ResolveMultipleDecimals(current[..start] + pasted + current[end..])
      == current[..start] + RemoveChar(pasted, '.') + current[end..]
  {
    var pre, sel, suf := current[..start], current[start..end], current[end..];
    assert Count(pre, '.') == 1 && '.' !in suf && NoWhitespace(pre) && NoWhitespace(suf) by {
      assert current == pre + sel + suf;
      CountConcat(pre + sel, suf, '.');
      CountConcat(pre, sel, '.');
      CountZero(pre, '.');
      CountZero(suf, '.');
    }
    SingleOccurrence(pre, '.');
    var k := IndexOf(pre, '.');
    assert pre == pre[..k] + "." + pre[k + 1..];
    ResolveDotThenPaste(pre[..k], pre[k + 1..], pasted, suf);
  }

  /**
   The handler as written: when the value's own `.` lies after the selection,
   it is that `.` the collapse drops, after the caret, yet the caret is still
   moved back by one. It ends one character before the end of the pasted
   text (pasting `2.3` over the `1` of `1.5` gives `2.35` with the caret
   after `2.`).
   */
  lemma CaretWhenDotAfterSelection(current: String, start: nat, end: nat, pasted: String)
    requires start <= end <= |current|
    requires NoWhitespace(current) && NoWhitespace(pasted)
    requires Count(current, '.') <= 1 && Count(pasted, '.') <= 1
    requires '.' in current[end..] && '.' in pasted
    ensures CursorOffset(current, start, end, pasted) == 1
    ensures ResolveMultipleDecimals(Splice(current, start, end, pasted))
      == current[..start] + pasted + RemoveChar(current[end..], '.')
    ensures NewCursorPosition(current, start, end, pasted) + 1 == |current[..start] + pasted|
  {
    DotAfterSelectionPieces(current, start, end);
    DotAfterSelectionNumeral(current, start, end, pasted);
  }

  /** With the only `.` after the selection, the text before and in the selection has none. */
  lemma DotAfterSelectionPieces(current: String, start: nat, end: nat)
    requires start <= end <= |current|
    requires Count(current, '.') <= 1 && '.' in current[end..]
    ensures '.' !in current[..start] && '.' !in current[start..end] && '.' in current
  {
    var pre, sel, suf := current[..start], current[start..end], current[end..];
    assert current == pre + sel + suf;
    CountConcat(pre + sel, suf, '.');
    CountConcat(pre, sel, '.');
    CountZero(pre, '.');
    CountZero(sel, '.');
    CountZero(suf, '.');
  }

  lemma DotAfterSelectionNumeral(current: String, start: nat, end: nat, pasted: String)
    requires start <= end <= |current|
    requires NoWhitespace(current) && NoWhitespace(pasted)
    requires Count(pasted, '.') <= 1 && '.' in pasted
    requires '.' !in current[..start]
    ensures ResolveMultipleDecimals(current[..start] + pasted + current[end..])
      == current[..start] + pasted + RemoveChar(current[end..], '.')
  {
    var pre, suf := current[..start], current[end..];
    assert NoWhitespace(pre) && NoWhitespace(suf);
    assert Count(pasted, '.') == 1 by {
      CountZero(pasted, '.');
    }
    SingleOccurrence(pasted, '.');
    var k := IndexOf(pasted, '.');
    assert pasted == pasted[..k] + "." + pasted[k + 1..];
    ResolvePasteThenDot(pre, pasted[..k], pasted[k + 1..], suf);
  }
}
