/**
 The slice of the DOM the handlers touch: an input element reduced to its
 value, its selection offsets and its `type`, and the writes a handler makes,
 recorded in order as an effect log.
 */
module Dom {
  import opened Text

  datatype Option<T> = None | Some(value: T)
  {
    /** `x ?? fallback`. */
    function GetOr(fallback: T): T
    {
      match this
      case None => fallback
      case Some(v) => v
    }
  }

  /**
   An `HTMLInputElement` as the handlers see it. `selectionStart` and
   `selectionEnd` are `null` where the element has no text selection.
   */
  datatype Field = Field(
    value: String,
    selectionStart: Option<nat>,
    selectionEnd: Option<nat>,
    inputType: String)

  /** One observable step of a handler, in the order it is taken. */
  datatype Effect =
    | PreventDefault
    | SetType(inputType: String)
    | SetValue(value: String)
    | SetSelectionRange(start: nat, end: nat)
    | CallChangeHandler

  /** The field after a handler has run, and everything the handler did. */
  datatype Outcome = Outcome(field: Field, log: seq<Effect>)

  /** The write an effect makes to the field; the other effects leave it alone. */
  function Apply(f: Field, e: Effect): Field
  {
    match e
    case SetType(t) => f.(inputType := t)
    case SetValue(v) => f.(value := v)
    case SetSelectionRange(a, b) => f.(selectionStart := Some(a), selectionEnd := Some(b))
    case _ => f
  }

  /** The field after the writes of `log`, in order. */
  function Replay(f: Field, log: seq<Effect>): Field
    decreases |log|
  {
    if |log| == 0 then f else Replay(Apply(f, log[0]), log[1..])
  }

  /** How often `e` occurs in `log`. */
  function Occurrences(log: seq<Effect>, e: Effect): nat
  {
    if |log| == 0 then 0 else (if log[0] == e then 1 else 0) + Occurrences(log[1..], e)
  }

  /** A log that only cancels the browser's default action writes nothing to the field. */
  lemma {:induction false} ReplayWithoutWrites(f: Field, log: seq<Effect>)
    requires forall i :: 0 <= i < |log| ==> log[i] == PreventDefault || log[i] == CallChangeHandler
    ensures Replay(f, log) == f
    decreases |log|
  {
    if |log| > 0 {
      ReplayWithoutWrites(f, log[1..]);
    }
  }
}
