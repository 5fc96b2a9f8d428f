# useAiAnalysis — a verified model of the analysis hook's control flow

The `useAiAnalysis` React hook exposes two operations over a remote generative
model:

- `generateContentForAllFields` populates a checklist one field at a time. It first
  resets its two state cells, `isAnalyzing` and `error`, and then refuses to run
  without an API key. It then walks the checklist in order and tells the caller
  about each field's trimmed answer through `onFieldCompleted`. On the first failure
  it records the message in `error`, leaves the analysing state and throws.
- `identifyEntities` sends one schema-constrained request whose prompt embeds at most
  the first 50000 characters of the document. It returns the parsed reply as it is
  and turns every failure into one fixed message.

The model has five modules:

- `Wrappers`: `Option` and `Result`.
- `JsText`:
  - `String.prototype.trim`, over the ECMAScript whitespace set and proved to strip
    both ends and nothing else;
  - `String.prototype.substring`, with its index clamping and swapping.
- `EntityExtraction`: `identifyEntities` as a function of the document, the contract
  text and an oracle. The oracle stands for the request plus `JSON.parse` and maps
  a prompt to a reply.
- `FieldOrchestration`: the specification of one run of `generateContentForAllFields`.
  - A run is a trace of observable events: writes to the state cells, the start of
    each field's `try` block, each `onFieldCompleted` call, the final throw.
  - `RunEvents` defines the trace from the API key, the checklist and one scripted
    outcome per field.
  - The projections `Completions`, `Attempts`, `Thrown` and `StateAfter` are what a
    caller can observe. The properties of a run are lemmas about them.
- `AnalysisHook`:
  - the class `AiAnalysis`, whose fields `isAnalyzing` and `error` are updated in
    place, with a ghost record of the events;
  - the class `CompletionLog`, standing for the caller's callback, whose list of
    calls each `OnFieldCompleted` extends.

  `GenerateContentForAllFields` is proved to produce exactly `RunEvents`, to make
  exactly `Completions(RunEvents)` callback calls, and to throw exactly
  `Thrown(RunEvents)`. So every lemma about the trace is a statement about the method.

Three behaviours of the code are easy to misread, and the model states them as
written:

- A field failure's message is the caught `Error`'s own `message`, verbatim, and
  does not name the field. A generic message naming the field is used only when the
  thrown value is not an `Error` (`hooks/useAiAnalysis.ts:89-90`).
- `identifyEntities` does not check that `characters` and `locations` are present.
  The parsed value is returned through a cast, and the key check is left to the
  provider-side schema (`hooks/useAiAnalysis.ts:40`, `:49-50`). `NoEntityShapeCheck`
  states this.
- `identifyEntities` does not check the API key.

## Model

| member | source | states |
|---|---|---|
| JsText.IsWhitespace | hooks/useAiAnalysis.ts:84 | the characters `trim` removes: the ECMAScript white space and line terminators |
| JsText.Trim | hooks/useAiAnalysis.ts:84 | `String.prototype.trim`: strips whitespace from both ends (its meaning is stated by the lemmas below) |
| JsText.TrimIsTrimmed | hooks/useAiAnalysis.ts:84 | the trimmed text has no whitespace at either end and is no longer than the response text |
| JsText.TrimIsInfix | hooks/useAiAnalysis.ts:84 | the trimmed text is a contiguous piece of its input, preceded only and followed only by whitespace |
| JsText.TrimStripsPadding | hooks/useAiAnalysis.ts:84 | trimming any whitespace-padded trimmed string gives that string back, so `trim` removes exactly the padding |
| JsText.TrimIdempotent | hooks/useAiAnalysis.ts:84 | trimming a trimmed text changes nothing |
| JsText.ClampIndex | hooks/useAiAnalysis.ts:29 | a `substring` index is clamped into the string and left alone when already inside it |
| JsText.Substring | hooks/useAiAnalysis.ts:29 | `substring` never yields more than the string, and with ordered in-range indices yields exactly that slice |
| JsText.SubstringFromZero | hooks/useAiAnalysis.ts:29 | `substring(0, n)` is a prefix of the string of length `min(length, n)` |
| JsText.SubstringSymmetric | hooks/useAiAnalysis.ts:29 | `substring` gives the same text whichever order its two indices come in |
| EntityExtraction.TruncatedDocument | hooks/useAiAnalysis.ts:29 | the embedded document text is a prefix of the document, of length `min(length, 50000)` |
| EntityExtraction.LayoutPrompt | hooks/useAiAnalysis.ts:18-33 | the template's layout: a line break, the contract text, the instructions, the embedded document, the closing lines |
| EntityExtraction.ExtractionPrompt | hooks/useAiAnalysis.ts:18-33 | the extraction prompt: the template laid out with the instruction lines 21-28 (`INSTRUCTIONS`), the closing lines 30-32 (`CLOSING`) and the truncated document |
| EntityExtraction.PromptEmbedsTruncatedDocument | hooks/useAiAnalysis.ts:18-32 | the prompt carries the contract text whole and exactly the first `min(length, 50000)` document characters at a fixed offset, so its length is bounded whatever the document |
| EntityExtraction.ExtractionIgnoresDocumentTail | hooks/useAiAnalysis.ts:29 | text beyond the first 50000 characters of the document cannot change the extraction result |
| EntityExtraction.IdentifyEntities | hooks/useAiAnalysis.ts:17-55 | exactly one request is recorded, carrying the extraction prompt; success exactly when the reply to it parsed; the parsed value is returned unchanged; every failure carries the fixed extraction-failure message |
| EntityExtraction.ExtractionErrorNormalised | hooks/useAiAnalysis.ts:51-54 | a rejected request and an unparsable reply give the same result, whatever their cause: the fixed message |
| EntityExtraction.ExtractionSingleRequest | hooks/useAiAnalysis.ts:43-50 | exactly one prompt is sent whatever the service replies (no retry), and the outcome depends only on the answer to it |
| EntityExtraction.NoEntityShapeCheck | hooks/useAiAnalysis.ts:34-50 | an object with neither `characters` nor `locations` is returned as a success: the code checks no keys |
| FieldOrchestration.KeyConfigured | hooks/useAiAnalysis.ts:67 | `!API_KEY` is false: the key is present and not empty |
| FieldOrchestration.FailureMessage | hooks/useAiAnalysis.ts:89-90 | a caught `Error`'s own message, else `Error on field <path>.` |
| FieldOrchestration.FailureTail | hooks/useAiAnalysis.ts:91-93 | the events of a failure: `setError(message)`, `setIsAnalyzing(false)`, the throw |
| FieldOrchestration.FieldEvents | hooks/useAiAnalysis.ts:74-96 | the loop's events from field `i`: an attempt and a report per generated field, an attempt and a failure tail at the first failing one, `setIsAnalyzing(false)` after the last |
| FieldOrchestration.RunEvents | hooks/useAiAnalysis.ts:64-96 | one run's events: the two resets, then the missing-key failure or the loop |
| FieldOrchestration.TrimmedAt | hooks/useAiAnalysis.ts:84 | trimming the responses keeps each one's kind and replaces a generated text by its trimmed text |
| FieldOrchestration.ProcessedReported | hooks/useAiAnalysis.ts:74-86 | the events of the fields processed so far report exactly those fields, in order, and throw nothing |
| FieldOrchestration.JoinEvents | hooks/useAiAnalysis.ts:74-95 | the loop's events are those of the fields already processed followed by those of the remaining loop |
| FieldOrchestration.LoopFailsAt | hooks/useAiAnalysis.ts:87-94 | when field `i` is the first to fail, the loop is the processed prefix, that field's attempt and the failure; it reports the prefix only and throws the failure message |
| FieldOrchestration.LoopCompletes | hooks/useAiAnalysis.ts:74-96 | when no field fails, the loop is every field's events followed by `setIsAnalyzing(false)`; it reports every field and throws nothing |
| FieldOrchestration.RunEndsIdle | hooks/useAiAnalysis.ts:64-96 | every run, from any state, ends with `isAnalyzing` false and `error` equal to what it throws (null when it does not throw) |
| FieldOrchestration.FieldEventsEndIdle | hooks/useAiAnalysis.ts:74-96 | the loop, entered analysing with no error, ends idle with `error` equal to what it throws |
| FieldOrchestration.ActiveWhileProcessing | hooks/useAiAnalysis.ts:64-65 | every run starts with `setIsAnalyzing(true)` and `setError(null)`; at every attempt and every report `isAnalyzing` is true and `error` is null, so an earlier error is cleared first |
| FieldOrchestration.InertBefore | hooks/useAiAnalysis.ts:74-86 | up to any attempt or report, the loop has written neither state cell |
| FieldOrchestration.ThrowIsLast | hooks/useAiAnalysis.ts:64-94 | a throw is a run's last event: nothing is attempted, reported or written after it |
| FieldOrchestration.FieldThrowIsLast | hooks/useAiAnalysis.ts:93 | within the loop, a throw is the last event |
| FieldOrchestration.ReportsInOrder | hooks/useAiAnalysis.ts:74-85 | with the key configured and the first `k` fields generated, the first `k` callback calls are `(field, trimmed text)` for those fields in checklist order |
| FieldOrchestration.ReportedAt | hooks/useAiAnalysis.ts:74-85 | the loop from field `i` reports field `j` as its call `j - i` when the fields from `i` up to `j` are generated |
| FieldOrchestration.AllFieldsSucceed | hooks/useAiAnalysis.ts:74-96 | with the key configured and every field generated: one callback call per field, call `i` being `(field i, its trimmed text)`, every field attempted, no throw, and the run ends with `isAnalyzing` false and `error` null |
| FieldOrchestration.AllReportedCount | hooks/useAiAnalysis.ts:74-95 | when every remaining field is generated, the loop reports each of them once |
| FieldOrchestration.AllAttempted | hooks/useAiAnalysis.ts:74-95 | when every remaining field is generated, the loop attempts exactly the remaining fields, in order |
| FieldOrchestration.NoneThrown | hooks/useAiAnalysis.ts:74-96 | when every remaining field is generated, the loop throws nothing |
| FieldOrchestration.FirstFailureStops | hooks/useAiAnalysis.ts:74-94 | with the first failure at `k`: exactly `k` callback calls, call `i` being `(field i, its trimmed text)`, exactly fields `0..k` attempted, and the thrown message and the final `error` are the same (the `Error`'s message, else `Error on field <path>.`) with `isAnalyzing` false |
| FieldOrchestration.StopsAtCount | hooks/useAiAnalysis.ts:85-93 | the loop from `i` reports only the fields before the first failure at `k` |
| FieldOrchestration.StopsAtAttempts | hooks/useAiAnalysis.ts:87-94 | the loop from `i` attempts the fields from `i` up to the first failure `k` and none after |
| FieldOrchestration.StopsAtThrown | hooks/useAiAnalysis.ts:87-93 | the loop from `i` throws the message of the first failure |
| FieldOrchestration.MissingKeyFailsFast | hooks/useAiAnalysis.ts:67-72 | without a key, whatever the checklist: no field attempted, no callback call, the same missing-key message thrown and left in `error`, `isAnalyzing` false |
| FieldOrchestration.EmptyChecklist | hooks/useAiAnalysis.ts:74-96 | with the key configured and no fields: nothing attempted or reported, no throw, the run ends idle with `error` null |
| AnalysisHook.CompletionLog.constructor | hooks/useAiAnalysis.ts:62 | the callback starts with no calls recorded |
| AnalysisHook.CompletionLog.OnFieldCompleted | hooks/useAiAnalysis.ts:85 | each call of the callback is appended to its record |
| AnalysisHook.AiAnalysis.constructor | hooks/useAiAnalysis.ts:14-15 | the state cells start as `false` and `null`, with no events |
| AnalysisHook.AiAnalysis.SetIsAnalyzing | hooks/useAiAnalysis.ts:14 | `setIsAnalyzing` writes only `isAnalyzing` and records the write |
| AnalysisHook.AiAnalysis.SetError | hooks/useAiAnalysis.ts:15 | `setError` writes only `error` and records the write |
| AnalysisHook.AiAnalysis.GenerateContentForAllFields | hooks/useAiAnalysis.ts:57-97 | the run's events are exactly `RunEvents`; the callback receives exactly its `Completions`; it throws exactly its `Thrown`; the state ends as `StateAfter` of it, idle with `error` equal to the thrown message |
| AnalysisHook.AiAnalysis.FailMissingKey | hooks/useAiAnalysis.ts:67-72 | the missing-key branch records the message, leaves the analysing state and throws it |
| AnalysisHook.AiAnalysis.RecordFailure | hooks/useAiAnalysis.ts:91-93 | a failure writes `error`, then `isAnalyzing := false`, then throws that same message |
| AnalysisHook.AiAnalysis.ProcessChecklist | hooks/useAiAnalysis.ts:74-96 | the loop, entered with the state reset, produces exactly the loop's events and callback calls, throws exactly what they throw, and leaves `error` equal to that |
| AnalysisHook.AiAnalysis.ProcessField | hooks/useAiAnalysis.ts:75-94 | one field either reports `(path, trimmed text)` and leaves the state as it was, or makes no callback call, records the failure message (the `Error`'s own, else the generic one) and throws it |

## Left out

- The `GoogleGenAI` client, the model name and the request payloads
  (`hooks/useAiAnalysis.ts:3`, `:10-11`, `:44-48`, `:78-82`). This is a network
  client over a library that is not part of this model. It is replaced by oracles:
  - a sequence of per-field outcomes for the field loop;
  - a function from prompt to reply for the extraction.
- `buildFieldPrompt` (`utils/prompt-builder.ts` is not part of this model).
  - Its result is not modelled.
  - The field's failure outcome also stands for `buildFieldPrompt` throwing, and for
    `response.text` being undefined. The model calls the start of each `try` block an
    attempt, not a request, so no request is claimed for a field that failed before sending.
- `JSON.parse` and the provider-side `responseSchema` (`hooks/useAiAnalysis.ts:34-41`,
  `:49`). They are folded into the extraction reply: a rejected request, unparsable
  text, or a parsed value. JSON numbers are kept as their literal text.
- The temperatures 0.1 and 0.2 (`hooks/useAiAnalysis.ts:47`, `:81`). They are floating
  point configuration with no logic attached.
- React's `useState`/`useCallback` scheduling, re-rendering and batching. The state
  cells are plain fields written at once.
- The `await` suspensions. Each one is one oracle step of a strictly sequential loop.
- A checklist that changes during a run. `checklistItems` is read once, when the call
  starts, as a fixed sequence. The source's `for…of` (`hooks/useAiAnalysis.ts:74`)
  reads the array's length and current element again at every step. So a caller that
  changes the array while the run waits at the `await` (`:78`), or from inside
  `onFieldCompleted` (`:85`), changes which fields the source attempts. The model does
  not capture that.
- Overlapping calls. Each run is modelled as running alone. A second call started while
  one is suspended at an `await` would share `isAnalyzing` and `error` with it. Then
  `RunEndsIdle` and `ActiveWhileProcessing` hold of each run's own sequence of writes;
  interleaved with the other run's writes, the cells can end or read otherwise.
- `console.warn` and `console.error` logging (`hooks/useAiAnalysis.ts:8`, `:52`, `:88`).
- `API_KEY` comes from the environment at module load. Here it is a parameter, and
  "not configured" means absent or empty, as `!API_KEY` does.
- UTF-16 code units. A Dafny `char` is one Unicode scalar value, whereas JavaScript
  measures strings in UTF-16 code units. So for a document holding characters outside
  the Basic Multilingual Plane, `substring(0, 50000)` counts and cuts differently here:
  JavaScript counts each such character as two units and can cut between them, leaving
  half a surrogate pair, which the model cannot represent. `trim` is unaffected, since
  every whitespace character lies in that plane. Strings are not normalised or case-folded.
- AnalysisHook.CompletionLog.OnFieldCompleted: does not model a callback that throws.
  In the source such a throw is caught by the same `catch` and becomes a field
  failure; here the callback always returns.
- AnalysisHook.AiAnalysis.GenerateContentForAllFields: requires exactly one scripted
  outcome per checklist item. This is a modelling device for the oracle, not a
  demand of the source; outcomes for fields after a failure are never consulted.
- The `documentText`, `execContractText` and `fieldRules` arguments of
  `generateContentForAllFields`. They only feed `buildFieldPrompt`, so they are not
  parameters of the model.
- The message text of a failure thrown from inside the extraction `try` block is not
  modelled beyond "some `Error` message or none". Only the fixed message the caller
  sees matters, and it is modelled.
