/**
 `keyDownEventHandler`: the keystroke filter for number inputs in Safari.
 It lets modifier shortcuts, navigation keys, single digits and a first `.`
 through, and cancels every other key with `preventDefault`.
 */
module KeyDown {
  import opened Text
  import opened Dom
  import Browser

  /**
   A `keydown` event. `targetIsInput` is whether the target is an
   `HTMLInputElement`, `isKeyboardEvent` whether the native event is a
   `KeyboardEvent`; `key` is the key name (`"7"`, `"."`, `"Backspace"`, ...).
   */
  datatype KeyDownEvent = KeyDownEvent(
    target: Field,
    targetIsInput: bool,
    isKeyboardEvent: bool,
    key: String,
    ctrlKey: bool,
    metaKey: bool,
    altKey: bool)

  /** Editing and navigation keys that are always let through. */
  const AllowedKeys: seq<String> := ["Backspace", "Tab", "ArrowLeft", "ArrowRight", "Delete"]

  predicate IsAsciiDigit(c: char)
  {
    '0' <= c <= '9'
  }

  /** `/^\d$/.test(key)`: the key name is a single ASCII digit. */
  predicate IsSingleDigit(key: String)
  {
    |key| == 1 && IsAsciiDigit(key[0])
  }

  /** The event passes the handler's guards: an input element, a keyboard event, a number input in Safari. */
  predicate Applies(event: KeyDownEvent, userAgent: String)
  {
    event.targetIsInput && event.isKeyboardEvent
    && Browser.IsNumberInputInSafari(event.target.inputType, userAgent)
  }

  predicate HasModifier(event: KeyDownEvent)
  {
    event.ctrlKey || event.metaKey || event.altKey
  }

  /**
   The handler's effects: nothing when the key is let through, a single
   `preventDefault` when it is blocked. It never writes to the field.
   */
  function KeyDownEventHandler(event: KeyDownEvent, userAgent: String): (log: seq<Effect>)
    ensures log == [] || log == [PreventDefault]
    ensures Replay(event.target, log) == event.target
    ensures !Applies(event, userAgent) ==> log == []
    ensures HasModifier(event) ==> log == []
    ensures event.key in AllowedKeys ==> log == []
    ensures IsSingleDigit(event.key) ==> log == []
    ensures Applies(event, userAgent) && !HasModifier(event) && event.key == "." ==>
      (log == [] <==> '.' !in event.target.value)
    ensures (Applies(event, userAgent) && !HasModifier(event) && event.key !in AllowedKeys
             && !IsSingleDigit(event.key) && event.key != ".") ==> log == [PreventDefault]
  {
    var log :=
      if !Applies(event, userAgent) then []
      else if HasModifier(event) then []
      else if event.key in AllowedKeys then []
      else if IsSingleDigit(event.key) then []
      else if event.key == "." && '.' !in event.target.value then []
      else [PreventDefault];
    ReplayWithoutWrites(event.target, log);
    log
  }

  /** Digits and at most one `.`: the text a number input can hold while it is typed. */
  predicate NumericDraft(s: String)
  {
    (forall i :: 0 <= i < |s| ==> IsAsciiDigit(s[i]) || s[i] == '.') && Count(s, '.') <= 1
  }

  /**
   The filter keeps a numeric draft a numeric draft: a one-character key it
   lets through without a modifier, typed over any selection, leaves digits
   and at most one `.`.
   */
  lemma AllowedKeystrokeKeepsNumericDraft(event: KeyDownEvent, userAgent: String, a: nat, b: nat)
    requires Applies(event, userAgent) && !HasModifier(event)
    requires |event.key| == 1
    requires KeyDownEventHandler(event, userAgent) == []
    requires NumericDraft(event.target.value) && a <= b <= |event.target.value|
    ensures NumericDraft(event.target.value[..a] + event.key + event.target.value[b..])
  {
    var v := event.target.value;
    var key := event.key;
    assert key !in AllowedKeys;
    assert IsSingleDigit(key) || (key == "." && '.' !in v);
    var typed := v[..a] + key + v[b..];
    assert Count(typed, '.') <= 1 by {
      CountSplice(v, a, b, key, '.');
      if key == "." {
        CountZero(v, '.');
      } else {
        CountZero(key, '.');
      }
    }
    forall i | 0 <= i < |typed|
      ensures IsAsciiDigit(typed[i]) || typed[i] == '.'
    {
      if i < a {
        assert typed[i] == v[i];
      } else if i > a {
        assert typed[i] == v[i - a - 1 + b];
      }
    }
  }
}
