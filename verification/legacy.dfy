/**
 The older top-level `formatNumberInputValue`: the same paste handling with
 a weaker guard. It checks only that the target's `type` is `number` and
 that the user agent is Safari's; it does not check that the target is an
 input element or that the event is a clipboard event.
 */
module Legacy {
  import opened Text
  import opened Dom
  import opened Decimals
  import opened Paste
  import Browser

  /** `formatNumberInputValue` for the user agent `userAgent`. */
  function FormatNumberInputValue(event: PasteEvent, userAgent: String, number: NumberCoercion): (out: Outcome)
    ensures !Browser.IsNumberInputInSafari(event.target.inputType, userAgent) ==>
      out.field == event.target && out.log == []
    ensures Replay(event.target, out.log) == out.field
    ensures Browser.IsNumberInputInSafari(event.target.inputType, userAgent) ==>
      |out.log| == 6 && out.log[0] == PreventDefault && out.log[5] == CallChangeHandler
      && Occurrences(out.log, PreventDefault) == 1 && Occurrences(out.log, CallChangeHandler) == 1
      && out.field.inputType == "number"
    ensures number.isNaN(ResolveMultipleDecimals(ClipboardText(event))) ==> out.field.value == event.target.value
    ensures Browser.IsNumberInputInSafari(event.target.inputType, userAgent) ==>
      var numeral := ResolveMultipleDecimals(ClipboardText(event));
      var pasted := number.render(numeral);
      var start := SelectionStart(event.target);
      var end := SelectionEnd(event.target);
      (!number.isNaN(numeral) ==>
         out.field.value == number.render(ResolveMultipleDecimals(Splice(event.target.value, start, end, pasted))))
      && out.field.selectionStart == out.field.selectionEnd
         == Some(NewCursorPosition(event.target.value, start, end, pasted))
  {
    if !Browser.IsNumberInputInSafari(event.target.inputType, userAgent) then
      Outcome(event.target, [])
    else
      PasteInto(event.target, ClipboardText(event), number)
  }

  /**
   The two handlers agree on every event that passes the newer handler's
   shape checks, and the older one behaves on any event as the newer one
   would if those checks passed.
   */
  lemma LegacyAgreesWithPasteEventHandler(event: PasteEvent, userAgent: String, number: NumberCoercion)
    ensures event.targetIsInput && event.isClipboardEvent ==>
      FormatNumberInputValue(event, userAgent, number) == PasteEventHandler(event, userAgent, number)
    ensures FormatNumberInputValue(event, userAgent, number)
      == PasteEventHandler(event.(targetIsInput := true, isClipboardEvent := true), userAgent, number)
  {
  }
}
