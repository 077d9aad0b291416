# Safari number-input shim, modelled in Dafny

This project models a small browser shim. Safari's `<input type="number">` accepts pasted text with several decimal points and typed characters that are not part of a number. The shim fixes both with two event handlers and one helper:

- `resolveMultipleDecimals` collapses a numeral with several `.` into one with a single `.`. It keeps the first segment as the integer part and glues the later segments, in order, into the fraction.
- `keyDownEventHandler` is the keystroke filter. It lets through modifier shortcuts, five editing keys, single digits, and a `.` when the value has none. It cancels every other key.
- `pasteEventHandler` handles a paste. It cancels the browser's paste and collapses the clipboard text. It splices the result over the selection. When the pasted numeral is not `NaN`, it collapses the spliced value again and writes it; otherwise the value is left as it was. It sets the caret, restores `type="number"` and calls the change handler.
- `browserIsSafari` is the user-agent test `/^((?!chrome|android|crios).)*safari/i`. `isNumberInputInSafari` combines it with `type === 'number'`.
- The older top-level `formatNumberInputValue` does the same paste handling with a weaker guard.

The modules follow the source:

| module | file | models |
|---|---|---|
| `Text` | `text.dfy` | The ECMAScript string operations the code uses: `trim`, `slice`, `split('.')`, `join`, `includes('.')`. |
| `Decimals` | `decimals.dfy` | `resolveMultipleDecimals`, at the level of the string handed to `Number(...)`. |
| `Browser` | `browser.dfy` | The user-agent expression, as a predicate with a scanner that decides it, and `isNumberInputInSafari`. |
| `Dom` | `dom.dfy` | The input element as an immutable record, the effect log, and its replay. |
| `KeyDown` | `keydown.dfy` | `keyDownEventHandler`. |
| `Paste` | `paste.dfy` | `pasteEventHandler`: the splice, the caret arithmetic and the effect log. |
| `PasteCaret` | `caret.dfy` | Where the caret lands in the collapsed value. |
| `Legacy` | `legacy.dfy` | `formatNumberInputValue` from the top-level `index.ts`. |

A handler is modelled as a pure function. It takes the event (the target field plus what the event carries) and the user-agent string.

- The paste handlers return the new field and the log of what they did: `preventDefault`, each `type`, `value` and `setSelectionRange` write, and the change-handler call. Their partner property is that replaying the log on the old field gives the new field.
- The keystroke handler returns only its log, which is empty or a single `preventDefault`. Replaying that log leaves the field unchanged.

`Number(...)`, `isNaN` and the number-to-string conversion are floating-point parsing and printing. They are not modelled. The paste handler takes them as a parameter, `NumberCoercion(isNaN, render)`, so everything proved holds for any coercion.

The numeric check `isNaN(Number(pastedValue))` is applied to a number that is already the result of a coercion. So it is `isNaN` of the collapsed clipboard numeral.

Facts about the code that the model keeps:

- **Trim before split.** `resolveMultipleDecimals` trims before splitting. When there is no `.`, it hands the original, untrimmed value to `Number`.
- **Guards.** The handlers in `src/index.ts` require three things: an `HTMLInputElement` target, the right native event class, and a number input in Safari. The older `formatNumberInputValue` checks only the last.
- **Caret correction.** The one-position correction applies when three things hold: the value has a `.`, the selection does *not* contain it, and the pasted text has one.
- **`NaN` test.** The pasted value is kept whenever it is not `NaN`, so `Infinity` is kept.
- **User agent.** `navigator.userAgent` is read as it is. The model takes it as a string parameter.

## Model

| member | source | states |
|---|---|---|
| `Decimals.ResolveMultipleDecimals` | src/index.ts:79-86 | A value with no `.` is handed to `Number` untouched. Otherwise the numeral has exactly one `.`, and apart from its dots it is the trimmed value: no other character is lost, added or reordered. |
| `Decimals.ResolveIsKeepFirstDot` | src/index.ts:80-85 | With a `.` present, the split-and-join result equals a reference reading stated without `split`/`join`: the trimmed value, its first `.` kept and every later `.` deleted. |
| `Decimals.SplitJoinCollapse` | src/index.ts:80-85 | The `split('.')`, `parts[0]`, `slice(1).join('')` computation gives at least two pieces. It equals the reference reading "keep the first `.`, delete the later ones". |
| `Decimals.ResolveKeepsFirstSegment` | src/index.ts:80-85 | With a `.` present, the numeral has exactly one `.`. The trimmed text before the first `.` is kept verbatim, and the rest follows with its dots deleted. Deleting every `.` from the numeral and from the trimmed input gives the same text. |
| `Decimals.ResolveSingleDot` | src/index.ts:80-85 | A value with exactly one `.` comes out as its trimmed self. |
| `Decimals.ResolveIdempotent` | src/index.ts:80-85 | A second collapse changes nothing but surrounding whitespace. With a `.`, it only trims. Without one, both passes hand over the value untouched. |
| `Decimals.ResolveIdempotentWithoutWhitespace` | src/index.ts:80-85 | On whitespace-free input the collapse is idempotent. |
| `Decimals.ResolveTwoDots` | index.ts:70-82 | For dot-free `a`, `b`, `c` with nothing to trim, `a.b.c` collapses to `a.bc`. Examples are `"123.45.67"` to `"123.4567"` and `"..5"` to `".5"`. |
| `Decimals.KeepFirstDotFacts` | src/index.ts:82-85 | The collapse leaves exactly one `.` and loses no other character. It leaves a single-dot text as it is. |
| `Decimals.KeepFirstDotSplice` | src/index.ts:82-85 | The collapse is one splice: the text before the first `.`, the `.`, then the remainder with its dots deleted. |
| `Decimals.KeepFirstDotChars` | src/index.ts:82-85 | Every character of the collapsed numeral comes from the trimmed input. |
| `Decimals.KeepFirstDotAfterPrefix` | src/index.ts:82-85 | After a dot-free head, the first `.` is kept and every later `.` in the tail is deleted. |
| `Text.JoinSplit` | src/index.ts:80 | Joining the pieces of `split(sep)` with `sep` gives the string back. |
| `Text.SplitJoin` | src/index.ts:80 | `split(sep)` inverts `join(sep)` on separator-free pieces. |
| `Text.ConcatSplit` | src/index.ts:82 | `join('')` of the pieces of a split is the string with every separator deleted. |
| `Text.SplitPiecesFree` | src/index.ts:80 | No piece of `split(sep)` contains `sep`. |
| `Text.Split` | src/index.ts:80 | `split(sep)` yields one more piece than there are separators. |
| `Text.Trim` | src/index.ts:80 | `trim` never lengthens a string. Its result neither starts nor ends with ECMAScript whitespace. |
| `Text.TrimStartIsSuffix` | src/index.ts:80 | Trimming the start only drops characters from the front: the result is a suffix of the input. |
| `Text.TrimEndIsPrefix` | src/index.ts:80 | Trimming the end only drops characters from the back: the result is a prefix of the input. |
| `Text.RemoveCharSubset` | src/index.ts:82 | Deleting a character introduces nothing: every character of the result occurs in the input. |
| `Text.TrimCount` | src/index.ts:80 | Trimming removes no non-whitespace character, so `.` occurs in the trimmed text exactly as often as in the input. |
| `Text.TrimIdempotent` | src/index.ts:80 | Trimming twice is trimming once. |
| `Text.Slice` | src/index.ts:42 | `slice(a, b)` is `s[a..b]` for in-range offsets. A start at or past the end of the string, or not before the end offset, gives the empty string. An end past the length reads to the end of the string. |
| `Browser.LowerAscii` | src/index.ts:8 | The `/i` flag on these ASCII words: an upper-case ASCII letter is mapped to its lower-case letter, and every other character is left as it is. |
| `Browser.MatchFrom` | src/index.ts:8 | From index `i`, the scan succeeds exactly when some `safari` at or after `i` is reached over positions that begin no `chrome`, `android` or `crios` and hold no line terminator. |
| `Browser.BrowserIsSafari` | src/index.ts:8 | The test holds exactly when some case-insensitive `safari` has no `chrome`, `android`, `crios` or line terminator at any index before it. |
| `Browser.NoSafariMeansFalse` | src/index.ts:8 | A user agent without `safari`, in any case, is not Safari. |
| `Browser.BlockedBeforeEverySafariMeansFalse` | src/index.ts:8 | A `chrome`, `android`, `crios` or line break that begins before every `safari` rules Safari out. |
| `Browser.ClearPrefixMeansTrue` | src/index.ts:8 | A `safari` preceded only by clear positions is recognised. |
| `Browser.ChromeFirstIsNotSafari` | src/index.ts:8 | `Chrome...` followed by anything, including `Safari/...`, is not Safari. |
| `Browser.AndroidFirstIsNotSafari` | src/index.ts:8 | `Android...` followed by anything is not Safari. |
| `Browser.LineBreakFirstIsNotSafari` | src/index.ts:8 | A user agent that starts with a line break is not Safari. |
| `Browser.SafariFirstIsSafari` | src/index.ts:8 | `Safari...` followed by anything is Safari. |
| `Browser.IsNumberInputInSafari` | src/index.ts:95-97 | Holds exactly for a `number` input under a user agent the expression accepts. |
| `KeyDown.KeyDownEventHandler` | src/index.ts:124-149 | The effect is nothing or one `preventDefault`, and the field is never written. There is no effect off-target, with a modifier, for the five editing keys, or for a single digit. A `.` is let through exactly when the value has no `.`. Every other key is blocked. |
| `KeyDown.AllowedKeystrokeKeepsNumericDraft` | src/index.ts:139-145 | A one-character key the filter lets through, typed over any selection of a value of digits with at most one `.`, leaves digits with at most one `.`. |
| `Dom.ReplayWithoutWrites` | src/index.ts:136-148 | A log holding only `preventDefault` and change-handler calls leaves the field as it was. |
| `Paste.ClipboardText` | src/index.ts:27 | Missing clipboard data reads as the empty string; otherwise the clipboard text is used. |
| `Paste.SelectionStart` | src/index.ts:39 | A missing `selectionStart` defaults to the value's length. |
| `Paste.SelectionEnd` | src/index.ts:40 | A missing `selectionEnd` defaults to the value's length. |
| `Paste.CursorOffset` | src/index.ts:37-44 | The offset is 0 or 1. It is 1 exactly when the value has a `.`, the selected text has none, and the pasted text has one. |
| `Paste.Splice` | src/index.ts:46 | The new value is `value[..start] + pasted + value[end..]`, with offsets past the end clamped. Its length is `|value| - (end - start) + |pasted|` when `start <= end <= |value|`. |
| `Paste.NewCursorPosition` | src/index.ts:51 | The caret is never negative and never before `start` or past `start + |pasted|`. It is `start + |pasted|` exactly when the offset is 0. |
| `Paste.ApplyPaste` | src/index.ts:29-58 | The log is `preventDefault`, `type = text`, the value write, the caret, `type = number`, then the change handler. Each of the first and the last occurs once, in first and last place, and replaying the log gives the result. The type ends `number`. A non-numeric paste leaves the value as it was. A numeric one writes the rendered collapse of the splice. Both selection ends sit at the new caret. |
| `Paste.PasteLogFacts` | src/index.ts:32-58 | Replaying the paste log gives the pasted field. It cancels the default once and calls the change handler once. |
| `Paste.PasteInto` | src/index.ts:27-58 | Past the guards: `preventDefault` once and first, the change handler once and last, and the type ends `number`. A clipboard numeral that is `NaN` leaves the value unchanged. Otherwise the rendered clipboard numeral is spliced over the selection, and the value becomes that splice collapsed and rendered again. Both selection ends sit at `start + |pasted| - offset`. |
| `Paste.PasteEventHandler` | src/index.ts:17-59 | A target that is not an input, a non-clipboard event, a non-number field or a non-Safari user agent changes nothing and logs nothing. Otherwise: `preventDefault` comes once and first, the change handler once and last, and the type ends `number`. A `NaN` paste keeps the value. A numeric paste writes the rendered collapse of the splice. Both selection ends sit at the new caret. Replaying the log gives the result. |
| `PasteCaret.ResolveAtMostOneDot` | src/index.ts:79-86 | A whitespace-free text with at most one `.` reaches `Number` unchanged. |
| `PasteCaret.CaretWhenNoDotDropped` | src/index.ts:43-52 | With offset 0, values and pasted text whitespace-free and holding at most one `.` each: the collapsed value is `prefix + pasted + suffix`, with the caret right after the pasted text. |
| `PasteCaret.CaretWhenDotBeforeSelection` | src/index.ts:43-52 | With offset 1 and the value's `.` before the selection, the pasted text lands without its `.`. The caret is right after it, so the correction is exactly the dropped character. |
| `PasteCaret.CaretWhenDotAfterSelection` | src/index.ts:43-52 | With the value's `.` after the selection and a `.` in the pasted text, the offset is 1. The value's later `.` is the one dropped, and the caret ends one character before the end of the pasted text: `2.3` over the `1` of `1.5` gives `2.35` with the caret after `2.`. |
| `Legacy.FormatNumberInputValue` | index.ts:17-56 | Off a `number` field or off Safari, nothing changes and nothing is logged. Otherwise `preventDefault` comes once and first, the change handler once and last, and the type ends `number`. A `NaN` paste keeps the value. A numeric one writes the rendered collapse of the splice. Both selection ends sit at the new caret, and replaying the log gives the result. |
| `Legacy.LegacyAgreesWithPasteEventHandler` | index.ts:17-56 | On an input target and a clipboard event, the older handler equals `pasteEventHandler`. On any event, it equals `pasteEventHandler` with the shape checks taken as passed. |

## Left out

- **Numeric coercion.** `Number(...)`, `isNaN` and `Number::toString` are ECMAScript ToNumber and number printing: floating-point parsing and formatting, where `"3.0"` becomes `"3"`. They are parameters (`NumberCoercion`), not definitions. `resolveMultipleDecimals` is therefore modelled as the string it hands to `Number`.
- **Number arguments.** `resolveMultipleDecimals` called with a number (`value.toString()` on a number) is not modelled. The handlers only call it with strings. The `value = ''` default for a missing argument is not modelled either.
- **DOM shape checks.** The `instanceof HTMLInputElement / ClipboardEvent / KeyboardEvent` checks and the `nativeEvent ?? event` lookup are booleans on the event record.
- **User agent.** `navigator.userAgent` is a string parameter.
- **Legacy null target.** In `index.ts`, a missing target (`eventTarget?.type` on `null`) is not represented separately. It returns early, like any field whose type is not `number`.
- **Browser side of the writes.** The model does not describe how the browser reacts to the writes: a value write moving the selection, `setSelectionRange` clamping to the value's length, a number input hiding its selection. The log records the writes and the record keeps what was written.
- **Selection reading.** Selection offsets are read from the record as they are after the switch to `type="text"`. The browser's behaviour that makes the switch necessary is not modelled.
- **UTF-16.** Strings are sequences of Unicode scalar values, not UTF-16 code units. The expression in `browserIsSafari` has no `u` flag, so it steps over a supplementary character in two steps. Neither half is a line terminator or part of an ASCII word, so the verdict is the same.
- **Type declarations.** `src/types.ts` and `types.ts` hold only type declarations.
- **Caret lemmas.** `PasteCaret.CaretWhenNoDotDropped`, `PasteCaret.CaretWhenDotBeforeSelection` and `PasteCaret.CaretWhenDotAfterSelection` speak of the numeral handed to `Number`, not of its rendered form. They assume whitespace-free text with at most one `.` in the value and in the pasted text, which is what a number input and a rendered number hold.
