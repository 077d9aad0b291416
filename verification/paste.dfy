/**
 `pasteEventHandler`: the paste handler for number inputs in Safari. It
 cancels the browser's paste, splices the collapsed clipboard numeral into
 the value over the selection, keeps the result only when the pasted numeral
 is a number, collapses the caret just after the pasted text, turns the field
 back into a number input and calls the change handler.

 `Number(...)` and its string form are not modelled: they enter as a
 `NumberCoercion`, so every property below holds whatever ToNumber and
 Number::toString do.
 */
module Paste {
  import opened Text
  import opened Dom
  import opened Decimals
  import Browser

  /**
   A `paste` event. `targetIsInput` is whether the target is an
   `HTMLInputElement`, `isClipboardEvent` whether the native event is a
   `ClipboardEvent`; `clipboardText` is what `clipboardData.getData('text')`
   yields, `None` when there is no clipboard data.
   */
  datatype PasteEvent = PasteEvent(
    target: Field,
    targetIsInput: bool,
    isClipboardEvent: bool,
    clipboardText: Option<String>)

  /**
   The two uses the handler makes of `Number(numeral)`: `isNaN` says whether
   it is `NaN`, `render` is its string form (`String(Number(numeral))`).
   */
  datatype NumberCoercion = NumberCoercion(isNaN: String -> bool, render: String -> String)

  /** `getData('text') || ''`: a missing clipboard reads as the empty string. */
  function ClipboardText(event: PasteEvent): (text: String)
    ensures event.clipboardText.None? ==> text == []
    ensures event.clipboardText.Some? ==> text == event.clipboardText.value
  {
    event.clipboardText.GetOr([])
  }

  /** The event passes the handler's guards: an input element, a clipboard event, a number input in Safari. */
  predicate Applies(event: PasteEvent, userAgent: String)
  {
    event.targetIsInput && event.isClipboardEvent
    && Browser.IsNumberInputInSafari(event.target.inputType, userAgent)
  }

  /** `selectionStart ?? value.length`. */
  function SelectionStart(f: Field): (start: nat)
    ensures f.selectionStart.None? ==> start == |f.value|
    ensures f.selectionStart.Some? ==> start == f.selectionStart.value
  {
    f.selectionStart.GetOr(|f.value|)
  }

  /** `selectionEnd ?? value.length`. */
  function SelectionEnd(f: Field): (end: nat)
    ensures f.selectionEnd.None? ==> end == |f.value|
    ensures f.selectionEnd.Some? ==> end == f.selectionEnd.value
  {
    f.selectionEnd.GetOr(|f.value|)
  }

  /**
   The 0/1 caret correction: 1 exactly when the value already has a `.`, the
   selection being replaced has none, and the pasted text has one, that is,
   when the collapse will drop one `.`.
   */
  function CursorOffset(current: String, start: nat, end: nat, pasted: String): (offset: nat)
    ensures offset <= 1
    ensures offset == 1 <==> '.' in current && '.' !in Slice(current, start, end) && '.' in pasted
    ensures offset == 1 ==> |pasted| >= 1
  {
    var currentHasDot := '.' in current;
    var selectionHasDot := '.' in Slice(current, start, end);
    var pastedHasDot := '.' in pasted;
    var decimalIsDropped := currentHasDot && !selectionHasDot && pastedHasDot;
    if decimalIsDropped then 1 else 0
  }

  /**
   `value.slice(0, start) + pasted + value.slice(end)`: the pasted text put in
   place of the selection. Offsets past the end count as the end.
   */
  function Splice(current: String, start: nat, end: nat, pasted: String): (spliced: String)
    ensures var lo := if start < |current| then start else |current|;
            var hi := if end < |current| then end else |current|;
            spliced == current[..lo] + pasted + current[hi..]
    ensures start <= end <= |current| ==> spliced == current[..start] + pasted + current[end..]
    ensures start <= end <= |current| ==> |spliced| == |current| - (end - start) + |pasted|
  {
    Slice(current, 0, start) + pasted + Slice(current, end, |current|)
  }

  /**
   `start + pasted.length - cursorOffset`: the caret after the paste. It is
   never before the paste point and never past the end of the pasted text.
   */
  function NewCursorPosition(current: String, start: nat, end: nat, pasted: String): (caret: nat)
    ensures start <= caret <= start + |pasted|
    ensures caret == start + |pasted| <==> CursorOffset(current, start, end, pasted) == 0
  {
    start + |pasted| - CursorOffset(current, start, end, pasted)
  }

  /**
   The handler past its guards, with the pasted numeral's string form
   `pasted` and its verdict `pastedIsNumber` (`!isNaN(Number(pastedValue))`)
   given. `render` turns the collapsed new value into the value written back.
   */
  function ApplyPaste(field: Field, pasted: String, pastedIsNumber: bool, render: String -> String): (out: Outcome)
    ensures Replay(field, out.log) == out.field
    ensures |out.log| == 6 && out.log[0] == PreventDefault && out.log[5] == CallChangeHandler
    ensures Occurrences(out.log, PreventDefault) == 1 && Occurrences(out.log, CallChangeHandler) == 1
    ensures out.log[1] == SetType("text") && out.log[4] == SetType("number")
    ensures var caret := NewCursorPosition(field.value, SelectionStart(field), SelectionEnd(field), pasted);
            out.log[2] == SetValue(out.field.value) && out.log[3] == SetSelectionRange(caret, caret)
    ensures out.field.inputType == "number"
    ensures !pastedIsNumber ==> out.field.value == field.value
    ensures pastedIsNumber ==>
              out.field.value == render(ResolveMultipleDecimals(
                Splice(field.value, SelectionStart(field), SelectionEnd(field), pasted)))
    ensures out.field.selectionStart == out.field.selectionEnd
      == Some(NewCursorPosition(field.value, SelectionStart(field), SelectionEnd(field), pasted))
  {
    var current := field.value;
    var start := SelectionStart(field);
    var end := SelectionEnd(field);
    var newValue := Splice(current, start, end, pasted);
    var value := if pastedIsNumber then render(ResolveMultipleDecimals(newValue)) else current;
    var caret := NewCursorPosition(current, start, end, pasted);
    PasteLogFacts(field, value, caret);
    Outcome(Field(value, Some(caret), Some(caret), "number"), PasteLog(value, caret))
  }

  /** The writes of a paste, in source order. */
  function PasteLog(value: String, caret: nat): seq<Effect>
  {
    [PreventDefault, SetType("text"), SetValue(value), SetSelectionRange(caret, caret),
     SetType("number"), CallChangeHandler]
  }

  /** Replaying a paste log yields the pasted field; the default is cancelled once, the change handler called once. */
  lemma PasteLogFacts(field: Field, value: String, caret: nat)
    ensures Replay(field, PasteLog(value, caret)) == Field(value, Some(caret), Some(caret), "number")
    ensures Occurrences(PasteLog(value, caret), PreventDefault) == 1
    ensures Occurrences(PasteLog(value, caret), CallChangeHandler) == 1
  {
    var log := PasteLog(value, caret);
    var f1 := field.(inputType := "text");
    var f2 := f1.(value := value);
    var f3 := f2.(selectionStart := Some(caret), selectionEnd := Some(caret));
    var f4 := f3.(inputType := "number");
    assert log[1..][1..][1..][1..][1..][1..] == [];
    assert Replay(f4, log[5..]) == f4;
    assert Replay(f3, log[4..]) == f4;
    assert Replay(f2, log[3..]) == f4;
    assert Replay(f1, log[2..]) == f4;
    assert Replay(field, log[1..]) == f4;
    assert Occurrences(log[5..], PreventDefault) == 0;
    assert Occurrences(log[4..], PreventDefault) == 0;
    assert Occurrences(log[3..], PreventDefault) == 0;
    assert Occurrences(log[2..], PreventDefault) == 0;
    assert Occurrences(log[1..], PreventDefault) == 0;
    assert Occurrences(log[5..], CallChangeHandler) == 1;
    assert Occurrences(log[4..], CallChangeHandler) == 1;
    assert Occurrences(log[3..], CallChangeHandler) == 1;
    assert Occurrences(log[2..], CallChangeHandler) == 1;
    assert Occurrences(log[1..], CallChangeHandler) == 1;
  }

  /**
   The handler once the guards have passed: the clipboard text is collapsed
   by `resolveMultipleDecimals`, coerced, and pasted in.
   */
  function PasteInto(field: Field, clipboard: String, number: NumberCoercion): (out: Outcome)
    ensures Replay(field, out.log) == out.field
    ensures |out.log| == 6 && out.log[0] == PreventDefault && out.log[5] == CallChangeHandler
    ensures Occurrences(out.log, PreventDefault) == 1 && Occurrences(out.log, CallChangeHandler) == 1
    ensures out.field.inputType == "number"
    ensures number.isNaN(ResolveMultipleDecimals(clipboard)) ==> out.field.value == field.value
    ensures var pasted := number.render(ResolveMultipleDecimals(clipboard));
            var start := SelectionStart(field);
            var end := SelectionEnd(field);
            (!number.isNaN(ResolveMultipleDecimals(clipboard)) ==>
               out.field.value == number.render(ResolveMultipleDecimals(Splice(field.value, start, end, pasted))))
            && out.field.selectionStart == out.field.selectionEnd
               == Some(NewCursorPosition(field.value, start, end, pasted))
  {
    var pastedValue := ResolveMultipleDecimals(clipboard);
    ApplyPaste(field, number.render(pastedValue), !number.isNaN(pastedValue), number.render)
  }

  /** `pasteEventHandler` for the user agent `userAgent`. */
  function PasteEventHandler(event: PasteEvent, userAgent: String, number: NumberCoercion): (out: Outcome)
    ensures !Applies(event, userAgent) ==> out.field == event.target && out.log == []
    ensures Replay(event.target, out.log) == out.field
    ensures Applies(event, userAgent) ==>
      |out.log| == 6 && out.log[0] == PreventDefault && out.log[5] == CallChangeHandler
      && Occurrences(out.log, PreventDefault) == 1 && Occurrences(out.log, CallChangeHandler) == 1
      && out.field.inputType == "number"
    ensures Applies(event, userAgent) && number.isNaN(ResolveMultipleDecimals(ClipboardText(event))) ==>
      out.field.value == event.target.value
    ensures Applies(event, userAgent) ==>
      var numeral := ResolveMultipleDecimals(ClipboardText(event));
      var pasted := number.render(numeral);
      var start := SelectionStart(event.target);
      var end := SelectionEnd(event.target);
      (!number.isNaN(numeral) ==>
         out.field.value == number.render(ResolveMultipleDecimals(Splice(event.target.value, start, end, pasted))))
      && out.field.selectionStart == out.field.selectionEnd
         == Some(NewCursorPosition(event.target.value, start, end, pasted))
  {
    if !Applies(event, userAgent) then
      Outcome(event.target, [])
    else
      PasteInto(event.target, ClipboardText(event), number)
  }
}
