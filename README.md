# Barcode scanner: detection filters and tally

A Dafny model of the decision logic of a browser barcode scanner. The camera
and the symbol decoder are an external library; this model starts where
that library hands over a detection. The handler passes each detection
through `Filter.apply` with two stages, in this order:

- the confidence stage `Filter.removeFalsePositive`;
- the debounce stage `Filter.debounce`, which keeps a suppression set
  `barcodeToSkip` and deletes each code from it again 2000 ms after
  accepting it.

The handler then adds one to the code's count in an insertion-ordered tally
map. The copy button turns the tally into CSV text, one `code,count` line per
entry, joined by newlines.

`src/index.ts` is the TypeScript source. `docs/scripts/index.js` is its
compiled JavaScript with the same logic. One model covers both, and the table
cites whichever file shows a point best.

Modules:

- `Detections`: the two fields of a decoder result that the filters read. These are the code, and per decoded module an error estimate. `None` stands for an error that is not a number.
- `Confidence`: the confidence stage.
- `Cooldown`: the debounce stage and the suppression set, as values.
  - Every timer has the same 2000 ms delay, so the pending timers fire in the order they were scheduled.
  - The model keeps them as a queue of `(code, due)` entries, with an explicit clock `now` in milliseconds.
  - `Advance(ms)` moves the clock and runs the callbacks of the timers that fell due.
  - The invariant `Valid` says four things: the set holds exactly the codes of the pending timers; there is one timer per code; the timers are queued by due time; each is due within the next 2000 ms.
- `Pipeline`: `apply` and the `Filter` class.
  - A stage is a function from a detection and the suppression state to an optional detection and a new state.
  - Passing the state explicitly stands for the stages' access to the static set.
  - `Run` is the reference definition, and `Filter.Apply` is the loop proved equal to it.
  - The handler's stages are `ConfidenceStage`, which lifts `RemoveFalsePositive`, and `Cooldown.Debounce` itself.
  - `Filter.Debounce` renders a direct call `Filter.debounce(data)`, updating the fields in place. The handler does not use it, because it goes through `Apply`. It is proved equal to `Cooldown.Debounce` on the old state.
- `Tally`: the `barcodeCount` map as a class.
  - It holds the keys in insertion order, a count map, and a ghost history of accepted codes.
  - Its meaning is `TallyOf(history)`: each code in order of first acceptance, with the number of times it was accepted.
- `Csv`: the exported text and its partner, a parser that reads the text back. The round trip is proved.
- `Scanner`: the `onDetected` handler, which filters and then tallies, and the copy button. It also holds client scenarios: a repeat within and after the cooldown, a low-confidence sighting followed by a confident one, three recordings of one code, and the A, B, A export.

Two facts about the code shape the model:

- The debounce stage changes nothing when it rejects (src/index.ts:56). A rejection therefore does not restart the cooldown.
- In the code, a rejected `beep.play()` skips the tally update (src/index.ts:120-121). That path is not modelled.

## Model

| member | source | states |
|---|---|---|
| `Confidence.Every` | src/index.ts:42 | `every` over the decode attempts is true exactly when each attempt's error is not a number or is below 0.2 |
| `Confidence.RemoveFalsePositive` | src/index.ts:41-46 | returns the detection unchanged exactly when every attempt's error is absent or `< 0.2`, and `None` exactly when some attempt's error is `>= 0.2` |
| `Confidence.AcceptsNoAttempts` | src/index.ts:42 | a detection with an empty `decodedCodes` list is accepted |
| `Confidence.OneBadAttemptRejects` | docs/scripts/index.js:35-40 | one attempt with error `>= 0.2` at any position rejects the detection, whatever the other attempts are |
| `Cooldown.Initial` | docs/scripts/index.js:62 | the suppression set starts empty with no pending timer, and the invariant holds |
| `Cooldown.Debounce` | src/index.ts:48-57 | an unseen code is accepted, and the set becomes the old set plus that code, with one new timer due 2000 ms later. A code already in the set gives `None`, and the state, including its timer, is unchanged. The invariant is preserved |
| `Cooldown.Expire` | src/index.ts:52 | the oldest timer's callback: its code leaves the set, that timer leaves the queue, and the clock stays |
| `Cooldown.FireDue` | docs/scripts/index.js:44-46 | runs the due callbacks, oldest first. The clock stays, codes only leave the set, and the oldest timer left is not yet due |
| `Cooldown.Advance` | src/index.ts:51-53 | `ms` milliseconds pass. The clock moves by `ms`, codes only leave the set, and the oldest timer left falls due after the new time |
| `Cooldown.ExpireKeepsSchedule` | src/index.ts:51-53 | a timer callback deletes only its own code. Every other code stays in the set with its one pending timer, and the invariant holds |
| `Cooldown.FireDueValid` | docs/scripts/index.js:44-46 | after the due callbacks have run, no due timer is left and the invariant holds |
| `Cooldown.FireDueKeepsLate` | docs/scripts/index.js:44-46 | after the due callbacks have run, a code is in the set exactly when its timer is due later than now |
| `Cooldown.AdvanceKeepsLate` | src/index.ts:51-53 | `ms` milliseconds later, a code is still suppressed exactly when its timer is due after `now + ms` |
| `Cooldown.SuppressedWithinCooldown` | src/index.ts:48-56 | after a code is accepted, the same code is rejected at any time less than 2000 ms later |
| `Cooldown.ReleasedAfterCooldown` | docs/scripts/index.js:41-50 | after a code is accepted, the same code is accepted again 2000 ms or more later |
| `Cooldown.CooldownClearsAll` | src/index.ts:53 | waiting 2000 ms empties the suppression set |
| `Cooldown.FireDueLater` | docs/scripts/index.js:44-46 | running the due callbacks and then, at a later time, running them again is the same as running them once at that later time |
| `Cooldown.AdvanceAdditive` | src/index.ts:51-53 | two steps of the clock, `a` then `b`, fire the same timers and leave the same state as one step of `a + b` |
| `Cooldown.SuppressedAcrossSteps` | src/index.ts:48-56 | an accepted code is still rejected after the clock moves in two steps that add up to less than 2000 ms |
| `Pipeline.Run` | src/index.ts:59-68 | the reference definition of `apply`: the stages run left to right and stop at the first rejection. With no stage, or with a candidate already rejected, the candidate and state are returned unchanged, and a rejection is never undone |
| `Pipeline.RunAppend` | src/index.ts:59-68 | running the stages `f + g` is running `f`, then running `g` on the candidate and state `f` left: the stages compose left to right |
| `Pipeline.ShortCircuit` | docs/scripts/index.js:51-60 | once a prefix of the stages has rejected, later stages change neither the result (`None`) nor the state, so they have no effect |
| `Pipeline.AcceptingStagesCompose` | src/index.ts:61-66 | when the stages so far accepted, one more stage is applied to their output and state |
| `Pipeline.ScanPipeline` | src/index.ts:118 | with the confidence stage before the debounce stage, a low-confidence detection is rejected with the state untouched, so it never enters the set. A confident one is decided by the debounce stage alone |
| `Pipeline.ScanPipelineValid` | docs/scripts/index.js:107 | the handler's two-stage pipeline keeps the suppression invariant |
| `Pipeline.Filter.constructor` | src/index.ts:39 | `barcodeToSkip` starts as an empty set with no timer pending |
| `Pipeline.Filter.Debounce` | docs/scripts/index.js:41-50 | the in-place debounce. An unseen code is added and a timer is scheduled, and the detection is returned. A present code gives `None` and the state is unchanged. Equal to `Cooldown.Debounce` on the old state, and keeps the invariant |
| `Pipeline.Filter.Expire` | docs/scripts/index.js:44-46 | the oldest timer's callback removes its code from the set and that timer from the queue, and nothing else |
| `Pipeline.Filter.Advance` | src/index.ts:51-53 | moves the clock and runs every due callback, oldest first. The new state is `Cooldown.Advance` of the old one and keeps the invariant |
| `Pipeline.Filter.Apply` | docs/scripts/index.js:51-60 | the loop over the filters, which breaks once the result is `None`, yields exactly the result and state of `Run` on the old state. With no filters, it returns the detection |
| `Csv.NatToString` | src/index.ts:96 | the count is written as a non-empty string of decimal digits, without a leading zero |
| `Csv.ParseNatToString` | docs/scripts/index.js:86 | the decimal digits of a count read back as that count |
| `Csv.SplitJoin` | src/index.ts:96 | splitting the `join('\n')` text at newlines gives back the lines, when no line holds a newline |
| `Csv.Join` | src/index.ts:96 | `join`: empty for no lines, and otherwise the text starts with the first line |
| `Csv.CsvText` | src/index.ts:96 | the `map`/`join` text: empty exactly when there is no entry, and otherwise it starts with the first entry's code and a comma. Its full meaning is fixed by `CsvTextLines` and `CsvRoundTrip` |
| `Csv.CsvRoundTrip` | src/index.ts:96 | the exported text of a non-empty tally parses back to the same entries in the same order. Each line's code is what precedes its last comma, and its count is the digits after that comma |
| `Csv.CsvTextLines` | docs/scripts/index.js:86 | the text has one line per entry, and line `i` is entry `i`'s code, a comma and its count |
| `Csv.CsvExample` | src/index.ts:96 | the entries A→2, B→1 export as `"A,2\nB,1"` |
| `Tally.FirstSeen` | src/index.ts:121 | the Map's key order: the distinct accepted codes in order of first acceptance. It is never longer than the history and starts with the first accepted code |
| `Tally.TallyOf` | src/index.ts:121 | the Map's entries: the keys in first-acceptance order, each paired with its number of acceptances, which lies between 1 and the number of accepted detections |
| `Tally.TallyTotal` | docs/scripts/index.js:110 | the counts add up to the number of accepted detections, because each acceptance adds exactly 1 to exactly one count |
| `Tally.FirstSeenDistinct` | src/index.ts:114 | the tally's keys list every accepted code exactly once, and nothing else |
| `Tally.FirstSeenAppend` | src/index.ts:121 | setting a code already in the map keeps its position in the key order. A new code goes last |
| `Tally.BarcodeCount.constructor` | src/index.ts:114 | the tally starts empty |
| `Tally.BarcodeCount.Entries` | src/index.ts:96 | `[...barcodeCount]` lists each accepted code in first-acceptance order, paired with the number of times it was accepted |
| `Tally.BarcodeCount.Record` | src/index.ts:121 | the code's count becomes its old count (0 when absent) plus 1. That is the number of times it has been recorded. Other counts are unchanged, and a new code is appended to the key order |
| `Tally.BarcodeCount.CsvExport` | src/index.ts:92-96 | gives nothing when the tally is empty. Otherwise it gives the CSV text of the entries in first-acceptance order |
| `Scanner.Session.constructor` | src/index.ts:111-116 | a session starts with an empty suppression set and an empty tally |
| `Scanner.Session.OnDetected` | src/index.ts:117-124 | accepts exactly when the detection is confident and its code is not cooling down, with the result and state of `apply` with the two stages. A rejected low-confidence detection leaves the suppression set untouched. An accepted one adds 1 to its code's count and leaves the other counts alone. A rejected one leaves the tally unchanged |
| `Scanner.Session.Advance` | docs/scripts/index.js:44-46 | time passes and the due cooldown timers fire, keeping both invariants |
| `Scanner.Session.CopyCsv` | docs/scripts/index.js:81-86 | the click handler returns early on an empty tally. Otherwise it produces the CSV text of the tally |
| `Scanner.CooldownScenario` | src/index.ts:117-121 | two confident sightings of one code: the first is accepted, and the second is accepted exactly when it comes 2000 ms or more later |
| `Scanner.LowConfidenceScenario` | docs/scripts/index.js:106-110 | a sighting with an error of 0.25 is rejected, and an immediate confident sighting of the same code is still accepted |
| `Scanner.RecordThreeTimes` | docs/scripts/index.js:110 | recording one code three times yields the counts 1, 2 and 3 |
| `Scanner.ExportExample` | src/index.ts:96 | accepting A, B, A gives the entries A→2, B→1 and the text `"A,2\nB,1"` |

## Left out

- `initQuagga`, the decoder configuration and the camera are not modelled. This includes the orientation-based resolution and aspect ratio, and the error path when start-up fails. They are calls into the decoding library.
- `printError`, `showHintBar` and `appendResult` are not modelled. They only create DOM elements and run CSS animation timers.
- `beep.play()` is foreign, asynchronous I/O. The handler is modelled as "filter, then tally". In the code, a rejected `play()` skips the tally update and `appendResult`; that path is not covered.
- `navigator.clipboard.writeText` and its error report are not modelled. `CopyCsv` returns the text that would be written.
- `src/index.sw.ts` (the offline cache service worker) is not part of this model. It is plumbing over browser Cache Storage.
- Real `setTimeout` timing is replaced by the explicit clock `now` and `Advance(ms)`.
  - A timer fires exactly when the clock reaches its due time.
  - The timers that are due run before the next detection is handled.
- `Pipeline.Filter.Apply`: `barcodeToSkip` is a static field in the source. Here it is a field of one `Filter` object, owned by the session. Stages read and update it through explicit state passing, not through shared mutable state.
- A `NaN` error estimate is not modelled. In the source, `typeof NaN` is `'number'` and `NaN < 0.2` is false, so such an attempt rejects. `Option<real>` has no NaN.
- Counts are unbounded integers. JavaScript numbers lose precision above 2^53, which a session never reaches.
- Result-object fields other than `codeResult.code` and `decodedCodes[].error` are not modelled. The code is a plain string, as the source's `code!` assertions assume.
- `Csv.CsvRoundTrip`: the round trip is stated only for codes without a newline. The source does not escape codes, so a code holding a newline would read back as two lines. UPC and EAN codes are digits, so this does not arise in practice.
