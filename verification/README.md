# A verified model of llm-conduit's metering, probing and forwarding

`llm-conduit` is a gateway in front of OpenAI-compatible model servers. While a response passes through, the gateway
reads the token counters out of it without holding the body: a scanner receives the frames as the network cut them,
keeps at most 16 KiB of an unfinished object, and merges the usages of the objects that complete. The request side
probes a JSON body in one pass for its model, thinking effort and token budget, and rewrites the model only when it
must. This project models that behaviour in Dafny and proves what the code is meant to guarantee.

How the parts build on each other:

- `Bytes.dfy`, `Decimals.dfy` — bytes, `find` and `trim`; decimal digits and their place values.
- `Recognizer.dfy` — a left-to-right reader of JSON text that answers `Ok`, `Cut` (out of bytes) or `Bad` at every
  point. Its central lemmas say that an answer reached before the end of the text is not changed by more bytes.
- `UsageProbe.dfy`, `Completion.dfy` — the typed readers and the member loop of the usage probe, the three-way verdict
  the scanner acts on (`Done`, `Eof`, `Rejected`), and which rejected buffers could have been continued after all.
- `JsonGrammar.dfy`, `ProbeMeaning.dfy` — the JSON grammar by plain recursive descent, building document trees, and
  what the probe means on a tree. On every text, valid or not, the byte-level verdict equals that meaning.
- `Spelling.dfy`, `DocumentSpelling.dfy` — the grammar of RFC 8259 once more, as a relation between texts and documents
  without any reader in it. The reader finds a document exactly where the text spells it, so the verdict follows from
  the relation alone.
- `JsonText.dfy` — a text for every tree, which the grammar reads back.
- `BlankRuns.dfy`, `Shapes.dfy`, `ValueRuns.dfy` — taking a run of blanks out of a document: outside strings it stays
  the same document; in a string it stays one, and keeps its verdict unless a key becomes one the probe looks for.
- `TokenUsages.dfy` — the counters and the merge that keeps the most complete ones.
- `CandidateSplit.dfy` — cutting a frame into candidates; the search-based split equals a line-oriented reference.
- `UsageScanning.dfy` — the scanner as an object and as a state function, its invariant, the recovery bound, batching.
- `Feeding.dfy`, `Events.dfy`, `Chunking.dfy` — chunk independence for event streams with comments, `event:` lines,
  `[DONE]` and unusable payloads in them, also for streams that break off.
- `PlainBodies.dfy` — chunk independence for buffered bodies.
- `SingleCuts.dfy`, `CutExamples.dfy` — one cut anywhere in a stream or body: exactly what the scanner then holds and
  reports, and concrete cuts that change it.
- `Metering.dfy` — the metered body with its observer and its report, as objects and as a state machine over polls.
- `EndToEnd.dfy` — from the documents an upstream sends to the one log line.
- `Json.dfy`, `BodyProbes.dfy`, `Forwarding.dfy` — request bodies as members in text order, the three probes, the
  model rewrite, the shortcut that skips it, and what the upstream receives.
- `ConnectionLists.dfy`, `Headers.dfy`, `BodyReading.dfy`, `Health.dfy` — the names that `Connection` lists, header filtering and the upstream request headers, bounded body
  reading, and the prober's records, log lines and readiness verdict.

## Assumptions

The JSON library is not part of the repository. The readers follow `serde_json` 1.0.151 (Cargo.lock:730-731) and the
grammar of RFC 8259: an unknown value is stepped over without recursion; a value of the wrong type is read to its end
before it is refused, except that brackets are refused at once; a repeated known field of a derived structure is
refused when its key has been read; a number that is being *skipped* and stops after its sign, its point or its
exponent letter is reported as an invalid number and not as end of input. The last point is kept apart as
`Cut(true)`: `PrefixIsCut` and `BadIsFinal` hold whichever way a library reports it, and the one line of `Classify`
that maps it to `Rejected` is the only place that depends on it. Event framing follows section 9.2.5 of the WHATWG
HTML standard as far as the code does, that is, `data:` lines only. Of the `http` crate it is assumed that
`HeaderValue::from_str` accepts exactly visible ASCII, the space and the tab, and that `HeaderName::from_bytes` accepts exactly the tokens of section 3.2.6 of RFC 7230, of any length
(`ConnectionLists.IsText`, `ConnectionLists.IsTokenChar`).

The sum that stands in for a missing total is an unchecked 64-bit addition; it is modelled as wrapping, which is what
the release profile does. The byte counter of the meter is an unbounded number here.

## Where the code and its documentation differ

- src/usage.rs:238-239 says that a rejected buffer can never become a usable object. That fails for a buffer cut in
  the middle of a skipped number (`RejectedIsNotAlwaysFinal`), and for no other: a rejected buffer can be continued to
  a usable object if and only if it stops there, which it does only behind a sign, a point or an exponent letter
  (`RejectedIsFinal`).
- src/usage.rs:201-202 says that the scanner survives chunk boundaries that cut through an object. Under the conditions
  of `CutAllowed`, `CutsAllowed` and `PlainCuts` it does, for any number of cuts. For one cut the outcome is exact
  everywhere in these streams: `CutInStream` gives it for every block and every cut that has no marker behind it in the
  block, `MarkerBehindCutInStream` for the others, `PlainSingleCut` and `AnyBodyCut` for bodies. In particular:
  - An event with a usable payload adds its `CutUsage` and touches no other (`SingleCut`). It is lost by a cut inside
    `data:`; by one between `data:` and the payload, if anything follows; by one behind the sign, point or exponent
    letter of a skipped number; and by one in the payload, if lines without a marker directly follow. A cut
    behind blanks makes the payload be read without them, which changes nothing between tokens, in a value, or in a key
    that does not become a name the probe looks for (`HarmlessCutKeepsUsage`); otherwise it can
    (`TrimmedFragmentChangesUsage`). No other cut changes anything, unless a marker is behind it (`MarkerBehindCut`).
  - Ignored lines that are cut do no harm if an event follows in the same frame, or if what is left of the lines, once
    trimmed, is empty or starts with a byte that starts no object. Otherwise what is left is read as a plain body
    (`CutInLines`); the next event can be glued to it and lost (`LineCutLosesEvent`).
  - A useless payload does no harm if what is left of its line is such junk, too, and its first fragment is useless on its
    own (`CutInUseless`). Otherwise the cut can invent a usage (`CutInventsUsage`).
- src/usage.rs:421-423 says that every field of the usage object is optional. A detail object that is present but
  `null` makes the whole response unusable (`NullDetailsRejectResponse`).
- src/usage.rs:14-16 names `reasoning.level` as a form in which an effort appears. An object is read for its `type` or
  else its `effort` only (`CandidateIsOffered`), so such an effort is not logged (`LevelIsNotRead`).
- docs/DESIGN.md:410-411 says that the first effort field present wins, and 420-421 that values that are no non-empty
  string are ignored. Together they leave open what an unusable first field does. In the code the next one then wins
  (`UnusableFirstIsPassed`); the first one present wins exactly when it is usable or none is (`FirstPresentWins`).

## Model

| member | source | states |
|---|---|---|
| Bytes.Find | src/usage.rs:352-358 | a hit is the leftmost occurrence; a miss means there is none; an empty needle is never found |
| Bytes.TrimSlice | src/usage.rs:361-377 | the two shrinking loops compute the trimmed slice |
| Bytes.TrimIsSlice | src/usage.rs:361-377 | the trimmed text is the slice between the outermost bytes that are no tab, newline, form feed, return or space |
| Decimals.MagnitudeIsPlaceValue | src/usage.rs:424-438 | digits stand for the sum of their place values, powers of ten |
| Recognizer.SkipStable | src/usage.rs:236-239 | stepping over a value gives the same answer when bytes are appended, once it was settled before the end |
| Recognizer.SkipGap | src/usage.rs:236-239 | where a skipped number was cut, a text that goes on correctly goes on with a digit or a sign |
| Spelling.StringsAreSpelled | src/usage.rs:406 | on every text: a string is read as a text exactly where plain bytes and escapes spell it, each escape with its meaning |
| Spelling.NumbersAreSpelled | src/usage.rs:424-438 | on every text: a number is read with a sign and a magnitude exactly where sign, digits without a leading zero, fraction and exponent spell it, as far as they reach; the magnitude of an integer is the sum of its place values |
| DocumentSpelling.ValuesAreSpelled | src/usage.rs:401-416 | on every text: a document is read exactly where the text spells it by RFC 8259 |
| DocumentSpelling.CountersAreSpelled | src/usage.rs:424-438 | a counter is read exactly where the text spells `null` or an unsigned integer of 64 bits, and as that |
| DocumentSpelling.DigitsAreCounted | src/usage.rs:424-438 | digits with no leading zero in front of anything that ends them count as the sum of their place values, or are refused from two to the 64 on |
| DocumentSpelling.AcceptedIsSpelled | src/usage.rs:264-273 | a text is accepted with a usage if and only if it spells, with only blanks around it, an object that is usable and says that usage; an object that is not usable is rejected |
| UsageProbe.VisitMap | src/usage.rs:401-416 | the member loop computes the recursive reading of the members |
| UsageProbe.BadIsFinal | src/usage.rs:238-239 | a refused text stays refused whatever follows |
| UsageProbe.OkIsKept | src/usage.rs:235-239 | an accepted text keeps its usage in every accepted longer text, which adds only whitespace |
| UsageProbe.PrefixIsCut | src/usage.rs:264-273 | every proper prefix of an accepted object is cut off: neither accepted early nor refused |
| UsageProbe.TrailingSpace | src/usage.rs:264-268 | whitespace after a complete object changes nothing |
| UsageProbe.PrefixViability | src/usage.rs:264-273 | a proper prefix of an accepted object asks for more bytes exactly when it does not stop in a skipped number, and then its last byte is no sign, point or exponent letter |
| Completion.RejectedIsFinal | src/usage.rs:238-239 | a rejected buffer can be continued to a usable object exactly when it stops in a skipped number; one that does not end in a sign, a point or an exponent letter never can |
| UsageProbe.RejectedIsNotAlwaysFinal | src/usage.rs:238-239 | a concrete buffer that is rejected although it continues to a usable object |
| UsageProbe.GapIsResumed | src/usage.rs:264-273 | in an accepted text a digit or a sign follows every place where a skipped number can be cut |
| TokenUsages.DerivedTotal | src/usage.rs:443-448 | the derived total is the real sum exactly when the sum fits in 64 bits |
| TokenUsages.GivenIs | src/usage.rs:469-480 | each of the five counters is in that set exactly when it is there |
| TokenUsages.CompletenessCounts | src/usage.rs:469-480 | completeness is the size of the set of counters that are there |
| TokenUsages.MergeKeepsMoreCounters | src/usage.rs:461-467 | a held usage stays exactly when it has strictly more counters than the new one |
| TokenUsages.MergeUsage | src/usage.rs:459-467 | the held usage stays exactly when it has strictly more counters; whatever was seen before: if the held value was the last among the most complete ones, the new one is that again with the new entry taken in |
| TokenUsages.MergeIsAMonoid | src/usage.rs:461-467 | absent usage is the identity and merging is associative |
| TokenUsages.MergeKeepsLastMostComplete | src/usage.rs:459-480 | over any run the held value is the last among the most complete ones, and absent only if all were |
| TokenUsages.LastMostCompleteIsUnique | src/usage.rs:459-480 | there is at most one such entry |
| TokenUsages.MergeNeverLoses | src/usage.rs:459-467 | a present value stays present and never becomes less complete |
| JsonText.StringReadsBack | src/usage.rs:406 | a written key or string is read back to the same text, whatever codes it holds |
| JsonText.NumberReadsBack | src/usage.rs:426-438 | a written number is read back: its end, its sign, whether it is an integer, and the integer |
| JsonText.DocReadsBack | src/usage.rs:401-416 | the text of any document, in place, is read back to the same tree and to its end |
| ProbeMeaning.VerdictIsMeaning | src/usage.rs:383-416 | on every text: it is accepted exactly when it is one JSON object, with only whitespace around it, in which everything the probe looks at is usable, and then with the usage of its last `usage` member; an object with something unusable is rejected |
| ProbeMeaning.MembersRead | src/usage.rs:401-416 | from any point of an object on, with any members read before: the loop accepts exactly what the grammar finds there if all members together are usable, stops where the grammar stops, and holds what those members mean |
| ProbeMeaning.CounterReads | src/usage.rs:424-438 | on every text a counter is read as its value says, refused if the value is no counter, and not read if there is no value |
| ProbeMeaning.CountersComeFromUsage | src/usage.rs:424-456 | each logged counter is the one of that name, and the total is the given one or the sum of the two halves |
| ProbeMeaning.FullUsageIsRead | src/usage.rs:424-438 | a usage with all five counters under their names, whatever their values, is read as these five |
| ProbeMeaning.UsageIsOfLastMember | src/usage.rs:405-409 | a response has a usage exactly when its last `usage` is an object; `null` takes an earlier one back |
| ProbeMeaning.NullDetailsRejectResponse | src/usage.rs:429-432 | a detail object that is `null` makes the response unusable |
| JsonGrammar.SkipIsGrammar | src/usage.rs:410-412 | on every text, valid or not, stepping over a value with an explicit stack of open brackets answers what the recursive grammar of JSON values answers: the same end, the same refusal, or the same running out |
| BlankRuns.ClosedUpDocument | src/usage.rs:361-377 | a document without one of its runs of blanks is a document; outside strings it is the same one and gets the same verdict |
| ValueRuns.ClosedUpKeepsVerdict | src/usage.rs:361-377 | it gets the same verdict in a string, too, unless that is a key that becomes one of the names the probe looks for |
| Shapes.SameShapeSameVerdict | src/usage.rs:383-416 | the verdict on an object depends only on its shape: which strings it holds does not matter, nor which keys, unless the probe knows them |
| BlankRuns.NoFeedInDocument | src/usage.rs:361-377 | no document contains a form feed, so what trimming removes from one is JSON whitespace |
| CandidateSplit.Candidates.constructor | src/usage.rs:296-298 | what is left to yield at the start is the split of the frame |
| CandidateSplit.Candidates.Take | src/usage.rs:301-305 | the front is returned and the rest kept |
| CandidateSplit.Candidates.NextPayload | src/usage.rs:331-347 | one step of the closed split, with a strictly shorter rest |
| CandidateSplit.Candidates.Next | src/usage.rs:311-349 | the iterator yields the split of its frame item by item, the rest strictly shrinking, and ends when nothing is left |
| CandidateSplit.SplitIsByLine | src/usage.rs:277-288 | the search-based split equals the line-oriented one: each marked line yields its payload, lines in between are dropped, lines after the last marked one are a plain body |
| CandidateSplit.SplitInOrder | src/usage.rs:289-349 | candidates are in-order, non-overlapping slices of the frame and no longer than it in total |
| UsageScanning.UsageScanner.constructor | src/usage.rs:226-228 | a new scanner holds nothing |
| UsageScanning.UsageScanner.ConsumePending | src/usage.rs:257-274 | the new buffer and usage are those of the state function |
| UsageScanning.UsageScanner.PushFrame | src/usage.rs:244-251 | one frame takes buffer and usage to the state function's value |
| UsageScanning.OfferKeepsInv | src/usage.rs:244-274 | after every candidate the buffer is within the limit and cut off, and is either empty or extended by exactly the candidate |
| UsageScanning.PushAllKeepsInv | src/usage.rs:244-274 | the same after any run of frames |
| UsageScanning.PeakBound | src/usage.rs:223-246 | during a frame the buffer exceeds the limit by at most the current candidate |
| UsageScanning.OpenBufferIsConcatenation | src/usage.rs:244-274 | while no candidate empties it, the buffer is the concatenation of everything offered |
| UsageScanning.RecoveryBound | src/usage.rs:244-274 | from any state that keeps the invariant, candidates longer in total than the room left empty the buffer on the way |
| UsageScanning.Batching | src/usage.rs:205-209 | two frames that meet between events act like one frame, for every state that keeps the invariant |
| Events.PushPiece | src/usage.rs:244-251 | any allowed piece of a block, usable or not, also one that starts between the marker and the payload, leaves exactly the held prefix and merges the usage when a usable payload is complete |
| Events.RestThenMore | src/usage.rs:205-209 | the rest of a block and what follows it may come in one frame or in two |
| Chunking.StreamRun | src/usage.rs:199-210 | the usage after any frames of a stream, from any position in it, and that nothing is held outside usable payloads |
| Chunking.SseChunkIndependence | src/usage.rs:199-210 | a stream gives the merged usages of its usable payloads and an empty buffer in every allowed partition; comments, `event:` lines, `[DONE]` and unusable payloads add nothing |
| Chunking.SsePrefix | src/usage.rs:199-210 | if the stream breaks off, the usage is that of the usable payloads that arrived in full |
| Chunking.WholeEventsAllowed | src/usage.rs:205-206 | the cut conditions can be met for every stream: by one block a frame and by a single frame |
| Events.InertIsCutAnywhere | src/usage.rs:199-210 | a payload that starts no object in any of its bytes may be cut anywhere behind its marker, any number of times |
| Chunking.DoneIsInert | src/usage.rs:581 | the event `[DONE]` is a block of these streams that adds nothing and may be cut anywhere behind its marker |
| PlainBodies.PlainChunkIndependence | src/usage.rs:277-283 | a plain body gives the same result in any number of frames as in one |
| PlainBodies.OversizedBodyIsDropped | src/usage.rs:257-262 | a body over the limit, in one frame, leaves nothing behind |
| SingleCuts.CutInStream | src/usage.rs:199-210 | a stream cut once, anywhere in any block, with no marker behind the cut in that block: the verdict on the first fragment decides what the rest of the block and the lines behind it become, and the next events go on from there |
| SingleCuts.SingleCut | src/usage.rs:199-210 | a stream cut once, anywhere in an event with a usable payload, whatever follows: all other blocks add what they add uncut, and the cut event adds exactly its `CutUsage` |
| SingleCuts.CutInLines | src/usage.rs:289-349 | a stream cut once inside ignored lines: nothing changes if an event follows or what is left of the lines is junk, else what is left of all the lines is read as a plain body |
| SingleCuts.CutInUseless | src/usage.rs:199-210 | a stream cut once inside a useless payload gives what it gives uncut, if the first fragment is useless and what is left is junk |
| SingleCuts.MarkerBehindCut | src/usage.rs:319-347 | for every payload and every cut: a marker behind the cut disappears, with the blanks behind it; what is in front of it is glued to a held fragment, the rest of the line is a candidate of its own, and the blocks behind follow as ever |
| SingleCuts.MarkerBehindCutInStream | src/usage.rs:319-347 | the same with any blocks in front |
| SingleCuts.HarmlessCutKeepsUsage | src/usage.rs:344-347 | a cut keeps the whole usage unless it splits a skipped number or leaves blanks behind in a key that becomes a known name without them |
| SingleCuts.DocumentFollowed | src/usage.rs:264-273 | a whole object with anything but blanks glued to it is rejected, so its usage is lost |
| SingleCuts.PlainSingleCut | src/usage.rs:277-283 | a plain body with a usable object cut once, anywhere: exactly the usage that is left |
| SingleCuts.AnyBodyCut | src/usage.rs:277-283 | any text without a marker in two frames: the verdict on the first decides whether the second is glued to it or read on its own |
| CutExamples.TrimmedFragmentChangesUsage | src/usage.rs:344-347 | a body without usage that is read as having one when it is cut behind a space in a key |
| CutExamples.CutInventsUsage | src/usage.rs:199-210 | an event without usage that is read as having one when it is cut in its payload |
| CutExamples.LineCutLosesEvent | src/usage.rs:199-210 | a cut in front of the last letter of an `event:` line loses the next event, whatever it is |
| Metering.UsageObserver.constructor | src/gateway.rs:314-320 | scanner and sink start empty |
| Metering.UsageObserver.Observe | src/gateway.rs:330-338 | the frame is scanned and the result published |
| Metering.Report.Call | src/gateway.rs:152-163 | the published usage, if any, goes into the log, and one line is written |
| Metering.RequestLog.Finish | src/observe.rs:133-134 | one line with the bytes, the aborted flag and the usage |
| Metering.MeteredBody.constructor | src/observe.rs:268-284 | the wrapper starts with nothing counted and the report still to come |
| Metering.MeteredBody.PollFrame | src/observe.rs:318-341 | the poll is handed on untouched, and the meter makes the state function's step |
| Metering.MeteredBody.Drop | src/observe.rs:356-362 | the report is taken and run, so a second drop does nothing |
| Metering.DropReportsOnce | src/observe.rs:318-362 | for every run of polls dropped at any point: exactly one line, with the bytes handed out, the right aborted flag and the scanner's usage of exactly those frames |
| Metering.StreamedResponseIsLogged | src/gateway.rs:143-169 | the line of a streamed response, also a broken one, holds the merged usages of the usable payloads that arrived in full |
| Metering.BufferedResponseIsLogged | src/gateway.rs:143-169 | the line of a buffered response holds its usage however it was cut |
| Metering.SameStreamSameUsage | src/gateway.rs:143-169 | two partitions of one stream log the same |
| EndToEnd.EventIsDataLine | src/usage.rs:205-206 | an event is `data: `, its payload and a blank line |
| EndToEnd.SentIsWellFormed | src/usage.rs:383-416 | any JSON object on one line, usable or not, and any inert payload is a block of these streams and adds exactly what its members say |
| EndToEnd.EveryDocumentHasText | src/usage.rs:401-416 | every object tree has a text that is that document |
| EndToEnd.DocumentsAreLogged | src/gateway.rs:329-339 | documents in, one log line out: it holds the merged usages that the members of the fully delivered usable documents say; all else contributes nothing |
| EndToEnd.BufferedDocumentIsLogged | src/gateway.rs:329-339 | the same for one buffered document, however it is written |
| Json.ToMapHasLast | src/json_model.rs:73-76 | the parsed map holds the value of the last member with a key |
| Json.KeyLeqIsLexicographic | src/json_model.rs:70 | the order of written keys is the lexicographic one |
| Json.WrittenReadsBack | src/json_model.rs:70-86 | writing a map gives unique keys in order that read back to the map |
| BodyProbes.NonEmpty | src/usage.rs:105-114 | blank text counts as absent; of other text exactly the part between its surrounding whitespace is kept |
| BodyProbes.WhiteIs | src/usage.rs:106 | the characters that trimming removes, one by one |
| BodyProbes.Position | src/usage.rs:66 | the position of a key is that of its first occurrence |
| BodyProbes.CandidateIsOffered | src/usage.rs:86-103 | for every value: the effort is the trimmed text of a string, or of an object's `type`, or without a `type` of its `effort`, if that is not blank, and else there is none |
| BodyProbes.LevelIsNotRead | src/usage.rs:14-16 | an object that holds an effort under `level` and has no `type` and no `effort` gives none |
| BodyProbes.RankIsPrecedence | src/usage.rs:17-22 | the order of precedence of the four keys |
| BodyProbes.VisitEffort | src/usage.rs:57-78 | for every body: the effort is what some effort member offers over which no other one that offers any has precedence, by key and then by position; and absent exactly when none offers any |
| BodyProbes.EffortIsDetermined | src/usage.rs:57-78 | the members determine the effort |
| BodyProbes.EffortIgnoresOrder | src/usage.rs:62-64 | reordering members with distinct keys does not change the effort |
| BodyProbes.FirstPresentWins | docs/DESIGN.md:410-421 | the effort is that of the first key present exactly when its value is usable or no effort key has a usable one |
| BodyProbes.UnusableFirstIsPassed | docs/DESIGN.md:410-421 | a first key without a usable value is passed over for the next one |
| BodyProbes.VisitRequestUsage | src/usage.rs:178-196 | the budget is that of the first of the three keys whose value is a 64-bit number, and the choice count that of the last `n`, absent if that is no such number |
| BodyProbes.BudgetOrder | src/usage.rs:178-196 | the budget is the same in every member order exactly when all usable budgets agree |
| BodyProbes.VisitModel | src/json_model.rs:43-61 | the result is the text of a `model` member, not empty, after which no `model` holds a text that is not empty; absent exactly when none does |
| BodyProbes.ExtractIsLastUsable | src/json_model.rs:43-61 | the extracted model is the last usable one |
| BodyProbes.TryRewriteModel | src/json_model.rs:64-87 | nothing, if the body is no object or its last `model` is the target or missing; else every key with its last value and the target under `model`, which is then extracted and needs no further rewrite |
| BodyProbes.RewriteThenExtract | src/json_model.rs:64-87 | a rewritten body names the target, keeps the last value of every other key, and needs no further rewrite |
| Forwarding.DispatchIsByPrecedence | src/gateway.rs:221-252 | the name is the header's, else the body's, else the default; the request is routed to that name if and only if it is configured, unknown if and only if it is not, and has no model if and only if all three are absent; the body is probed exactly when it decided |
| Forwarding.ShortcutIsSound | src/proxy.rs:109-113 | skipping the rewrite changes nothing exactly when the last `model` member is a usable string, which unique keys guarantee |
| Forwarding.ShortcutNeedsUniqueKeys | src/proxy.rs:109-113 | a body with two `model` members for which the shortcut forwards something else |
| Forwarding.UpstreamSeesItsModel | src/gateway.rs:221-260 | for every body, repeated keys included, however it was routed: the body as it came, if it cannot be parsed or has no `model`, or an object with all other fields from which the upstream's name is extracted; its parsed model is that name exactly unless the rewrite was skipped on a body whose last `model` is unusable |
| Forwarding.UpstreamReadsItsName | src/proxy.rs:109-113 | the upstream's own name is extracted from what it receives if and only if the client wrote that name, or wrote some model in an object that can be parsed |
| Forwarding.SkimmedKeepsClientModel | src/json_model.rs:57 | a body that is routed by its model and cannot be parsed reaches the upstream under the client's name |
| Forwarding.UniqueKeysSuffice | src/proxy.rs:109-113 | with unique keys the parsed model is always the upstream's name |
| ConnectionLists.ConnectionTokens | src/proxy.rs:186-201 | for every name: it is among the tokens if and only if some readable `Connection` line has it, in any case of letters and with blanks around it, as a whole stretch between commas or line ends |
| ConnectionLists.TokensAreListed | src/proxy.rs:186-201 | the same for the tokens the filter uses |
| ConnectionLists.LinesOrCommas | src/proxy.rs:185-201 | several `Connection` lines name the same headers as one comma-joined line (sections 3.2.2 and 6.1 of RFC 7230) |
| Headers.CopyHeaders | src/proxy.rs:172-183 | the loop appends exactly the kept headers to the target |
| Headers.CopyKeepsEndToEnd | src/proxy.rs:167-183 | every value of every name is kept in order, unless the name is one of the nine hop-by-hop names, stripped, or listed by `Connection` |
| Headers.ForOneHopIs | src/proxy.rs:24-34 | the hop-by-hop names |
| Headers.ForGatewayIs | src/proxy.rs:36-48 | the names stripped from requests |
| Headers.CopyIsIdempotent | src/proxy.rs:172-183 | copying a copy changes nothing |
| Headers.BuildRequest | src/proxy.rs:139-165 | an internal error exactly for an unreadable key; else one content length, the decimal text whose place values add up to the body length, authorization from the upstream key alone, and every other value in order, except under hop-by-hop names, the gateway's own names and listed ones |
| Headers.ResponseHeadersAre | src/proxy.rs:167-171 | the response loses only hop-by-hop names and those `Connection` lists, so it keeps its content length |
| BodyReading.ReadBody | src/proxy.rs:67-90 | early rejection, else the result of the frame that stops the loop; the buffer never exceeds the limit |
| BodyReading.ContentJoins | src/proxy.rs:78-87 | the content is the data of the chunks in the order they came |
| BodyReading.LoopResultIsUnique | src/proxy.rs:76-89 | frames and limit determine the result |
| BodyReading.ReadExactlyWhatFits | src/proxy.rs:76-89 | without errors the exact content comes back if and only if it fits |
| BodyReading.EarlyRejectionAgrees | src/proxy.rs:68-74 | an exact declared length is rejected early exactly when the loop would reject |
| Health.HealthState.constructor | src/health.rs:41-46 | names are fixed and nothing is known yet |
| Health.HealthState.Record | src/health.rs:48-55 | the record of one name is replaced |
| Health.HealthState.ProbePass | src/health.rs:149-187 | a pass takes records and log lines to the state function's value, after any earlier lines |
| Health.HealthState.Readyz | src/health.rs:75-104 | the verdict and the status of every configured name |
| Health.LinesAreChanges | src/health.rs:149-187 | an upstream's lines are its outcomes with repetitions collapsed, and its record is its last outcome |
| Health.LogMatchesState | src/health.rs:167-186 | lines strictly alternate and the last one is the recorded state |
| Health.PassesCompose | src/health.rs:135-190 | several passes act like one with all their completions |
| Health.ReadyMeansLatestHealthy | src/health.rs:71-104 | ready exactly when no configured upstream's latest outcome was unhealthy |
| Health.OrderBetweenUpstreams | src/health.rs:149-187 | the order of completions of different upstreams does not matter |

## Left out

- SseChunkIndependence: keeps the cut conditions of `CutAllowed` and `CutsAllowed`, that is: no cut inside `data:`, behind the sign, point or exponent letter of a skipped number, or behind blanks in a key that becomes a known name without them; cuts in ignored lines and useless payloads only where what is left of the block is junk, and the first fragment of such a payload is useless; no marker in the rest of a cut payload; nothing behind an event in a frame that starts between its marker and its payload; and no unmarked lines behind an event in a frame that completes it. What a single cut outside these conditions does is proved (`CutInStream`, `MarkerBehindCutInStream`), what several do together is not. A payload that is cut off although its event is complete is no block of these streams.
- SingleCut: takes the cut event to have no marker behind the cut; `MarkerBehindCutInStream` says what happens then.
- PlainChunkIndependence: excludes bodies that contain the marker, which the code reads as events; `SplitIsByLine` says as which. It keeps the cut conditions of `PlainCuts`: no cut that splits a skipped number, or leaves blanks behind in a key that becomes a known name without them.
- OversizedBodyIsDropped: speaks of one frame; what the later frames of an oversized body may be taken for is not modelled.
- UpstreamReadsItsName: takes it as given which bodies are skimmed only, that is, pass the streaming probe and not the full parse: those whose skipped values hold a lone surrogate such as `\ud800`, invalid UTF-8, a number out of range such as `1e999`, or nesting below the limit of the library.
- The array form in which the JSON library also accepts the usage and detail structures; it counts as a wrong type here.
- Unicode: UTF-8 validation, and the pairing of surrogate escapes in keys. Keys are compared code by code, which is exact for the ASCII names the code looks for.
- The 64-bit wrap-around of the response byte counter.
- Which responses get an observer (src/gateway.rs:131-133), log levels and the text of log lines, latency and clocks, lock poisoning, wakers.
- Request identifiers (src/observe.rs:27-66), authentication, `/v1/models`, URI building, TLS, configuration, the accept loop: library wiring or one-branch checks.
- The byte form of request bodies: the probes start from members in text order. The effort and the token budget of a body that is skimmed only are not modelled.
- The order in which a header map lists different names: one fixed order stands for it, and results are stated per name.
- Waiting, timeouts and the network in the prober: an outcome is an input, and a lost probe is one, too.
