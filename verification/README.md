# user-events-formatter: the message parser, in Dafny

This project models `formatUserEvent`, the one piece of logic in the
user-events-formatter function app. The function receives a raw user-event
message such as

    {"userEvent":"LOGIN", "customerId":"[0700376380]", "salesOrg:"BCAR"}

It does not parse the message as JSON. It splits it on the double-quote
character and reads three fixed segments:

- segment 3 is the event type, matched exactly against `LOGIN` and
  `PLACE_ORDER`; anything else, or a missing segment, gives `undefined`;
- segment 7 is the bracketed customer-id list; `substring(1, length - 2)` cuts
  its first character and its last two, and the rest is split on `,`;
- segment 10 is the sales organisation, taken verbatim; it is `undefined`
  when the message has fewer than 11 segments.

If segment 7 is missing, `undefined.substring` throws, and the call fails.

Files:

- `wrappers.dfy`: `Option` stands for a value that may be `undefined`, and
  `Result` for a call that returns or throws.
- `js_string.dfy`: the JavaScript `split` (one-character separator, empty
  pieces kept), `join` and `substring` (clamping and argument swap), with the
  split/join round trips in both directions.
- `user_event_formatter.dfy`: the event type, the output record, the
  `switch`, the id-list stripping and splitting, and `Format` itself. It also
  has `FormatCorrected`, the variant that cuts only the closing bracket (see
  Findings).
- `message_shape.dfy`: `Render` builds a message of the documented shape. The
  parser is checked against it, and the example above `formatUserEvent` is
  worked through.

## Model

| member | source | states |
|---|---|---|
| JsString.Split | src/functions/user-event-formatter.function.ts:31 | `message.split('"')` gives one more piece than the message has quotes, and no piece contains a quote |
| JsString.JoinSplit | src/functions/user-event-formatter.function.ts:31 | joining the pieces of a split with the separator gives back the original string |
| JsString.SplitJoin | src/functions/user-event-formatter.function.ts:31 | splitting a join gives back the pieces when there is at least one piece and none contains the separator |
| JsString.SplitPiecesComeFromSource | src/functions/user-event-formatter.function.ts:31 | every character of a piece occurs in the split string |
| JsString.JsSubstring | src/functions/user-event-formatter.function.ts:45 | with arguments inside the string and in order, `substring` is the slice between them, and its characters come from the string |
| JsString.JsSubstringSwap | src/functions/user-event-formatter.function.ts:45 | `substring(a, b)` equals `substring(b, a)` |
| JsString.JsSubstringClamps | src/functions/user-event-formatter.function.ts:45 | a negative start acts as 0 and an end past the string acts as its length |
| UserEventFormatter.At | src/functions/user-event-formatter.function.ts:34-47 | reading an array index past the end gives `undefined`, otherwise the element |
| UserEventFormatter.EventTypeOf | src/functions/user-event-formatter.function.ts:33-43 | the event type is `LOGIN` exactly when the token is `"LOGIN"`, `PLACE_ORDER` exactly when it is `"PLACE_ORDER"`, and `undefined` for any other token or a missing one; it never fails |
| UserEventFormatter.EventTypeOfToken | src/functions/user-event-formatter.function.ts:35-40 | each event type is read back from its own token |
| UserEventFormatter.StripIdList | src/functions/user-event-formatter.function.ts:45 | a segment longer than the trailing cut loses its first character and the trailing characters; an empty one gives `""`; a shorter non-empty one gives its first character |
| UserEventFormatter.ParseCustomerIds | src/functions/user-event-formatter.function.ts:45 | there is at least one id; the ids joined with `,` are the stripped text; no id contains a comma or a character missing from the segment |
| UserEventFormatter.Format | src/functions/user-event-formatter.function.ts:30-54 | fails exactly when the message has fewer than 7 quotes; otherwise the event type follows segment 3, and the sales organisation is segment 10 when at least 11 segments exist and `undefined` when there are only 8 to 10 |
| UserEventFormatter.FormatCustomerIds | src/functions/user-event-formatter.function.ts:45 | on success the ids are non-empty and free of `,` and `"`; joined with `,` they are segment 7 without its first and last two characters when it has at least 3; an empty segment gives `[""]`; a segment of 1 or 2 characters gives its first character |
| UserEventFormatter.ReplaceSegmentKeepsOtherFields | src/functions/user-event-formatter.function.ts:31-53 | replacing one segment by quote-free text leaves success or failure unchanged and changes at most the field read from that segment |
| UserEventFormatter.FormatCorrected | src/functions/user-event-formatter.function.ts:45 | fails exactly when `Format` does, has the same event type and sales organisation, and, when segment 7 has at least 2 characters, its ids join to segment 7 without its first and last character |
| MessageShape.SplitRender | src/functions/user-event-formatter.function.ts:29-31 | a message in the documented shape splits into its twelve fields, with the event type at 3, the id list at 7 and the sales organisation at 10 |
| MessageShape.FormatRender | src/functions/user-event-formatter.function.ts:29-54 | on a message in the documented shape, `Format` returns the token's event type, the parsed bracketed id list and the sales organisation |
| MessageShape.CorrectedRoundTrip | src/functions/user-event-formatter.function.ts:29-54 | the corrected parser reads every message in the documented shape back exactly: its event type, its id list and its sales organisation |
| MessageShape.BracketedIdsAsWritten | src/functions/user-event-formatter.function.ts:45 | as written, a non-empty bracketed id list is read with its last character lost, so the ids differ from the ones written |
| MessageShape.AsWrittenDropsLastCharacter | src/functions/user-event-formatter.function.ts:29-54 | as written, a message in the documented shape keeps its event type and sales organisation but loses the last character of its id list |
| MessageShape.AsWrittenEmptyList | src/functions/user-event-formatter.function.ts:45 | as written, the empty list `[]` is read as the single id `"["` |
| MessageShape.DocExampleSegments | src/functions/user-event-formatter.function.ts:29-31 | the example message splits into twelve segments, with `LOGIN` at 3, `[0700376380]` at 7 and `BCAR` at 10 |
| MessageShape.DocExampleAsWritten | src/functions/user-event-formatter.function.ts:29-54 | as written, the example gives `LOGIN`, `["070037638"]` and `"BCAR"`: the id's final `0` is lost |
| MessageShape.DocExampleCorrected | src/functions/user-event-formatter.function.ts:29-54 | the corrected parser gives `LOGIN`, `["0700376380"]` and `"BCAR"` on the example |

## Left out

- The event-hub trigger registration and its environment variables
  (lines 56-62): runtime configuration, not logic.
- The event-hub client, the producer, `enqueueEvent` and `close` (lines 6, 9,
  20, 24): network I/O through foreign libraries. The error path that closes
  the producer and rethrows is left out with them.
- Logging through `context.debug`, `context.info` and `context.error`, and the
  `JSON.stringify` pretty-printing (lines 12, 19, 21, 23): observability only.
- The `EventData` envelope (lines 14-17): it wraps the result with a constant
  content type.
- The `UserEvent` and `UserEventType` definitions come from an external types
  package that is not part of this model. They are modelled locally as a
  two-constructor datatype and a record with `Option` fields.
- Strings are sequences of Dafny `char` (Unicode scalar values), not UTF-16
  code units. Splitting on `"` and `,` does not depend on the encoding, but
  the positions `substring` counts do.
- UserEventFormatter.StripIdList: agrees with JavaScript only when the first
  character and the last two characters of segment 7 lie in the Basic
  Multilingual Plane (code points up to U+FFFF). For segment 7 = `[😀]`
  JavaScript counts 4 code units and keeps a lone surrogate, while the model
  counts 3 characters and keeps `""`. `Format`, `FormatCorrected` and
  `FormatCustomerIds` inherit this, because strings are not modelled as
  16-bit code units.
- `substring` is modelled for integer arguments only. The JavaScript
  conversion of non-integer or `NaN` arguments never arises, because the
  arguments are `1` and a length minus a constant.
- Repeated calls give equal results (no hidden state). Every Dafny function is
  deterministic, so no lemma states this.

## Findings

| source | as written | input that shows it | evidently intended | confidence | as-written member | corrected member |
|---|---|---|---|---|---|---|
| src/functions/user-event-formatter.function.ts:45 | `substring(1, length - 2)` cuts the closing `]` and also the last character of the last id; an empty list `[]` becomes the id `"["` | the example at line 29: segment 7 is `[0700376380]` and the id comes out as `070037638` | cut only the brackets (`length - 1`), giving `0700376380` | medium: the example at line 29 holds a bracketed ten-digit id, and `length - 2` removes one of its digits; not executed | MessageShape.AsWrittenDropsLastCharacter | MessageShape.CorrectedRoundTrip |
