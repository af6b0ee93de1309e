# better-words plugin core, modelled in Dafny

This project models the logic of the `better-words` design-tool plugin (`code.js`). The plugin gathers the text of the selected text layers, sends it with the user's instructions to a chat-completion service, and reports the improved text back to its UI. The model covers four parts:

- **Selection text aggregator** (`aggregator.dfy`, module `Aggregator`). The module-level `currentText` string and `processedNodeIds` set become the fields of the class `TextAggregator`. `GetTextFromNodes` (with its two loops in `BuildTextMap` and `MarkNew`) and `UpdateSelectedText` are methods proved against the pure functions `Absorb` and `Update` over an `AggState` value. A selection is a `seq<Node>`, each node carrying its id, whether it is a text layer, and its characters.
- **Text sanitiser** (`sanitizer.dfy`, module `Sanitizer`). `sanitizeText` is modelled step by step: control characters are removed, CR LF is replaced, and the result is trimmed with the whitespace set of ECMA-262 (`IsJsWhitespace`).
- **Completion client** (`completion.dfy`, module `Completion`). This is the pure part of `callOpenAI`: the key check, the two message contents, and how an HTTP outcome becomes a returned value or a thrown message. The network is a parameter `server: Request -> Response`. A key's length is counted as JavaScript counts it, in UTF-16 code units (`Utf16Length`).
- **Session controller** (`session.dfy`, module `Session`). `figma.ui.onmessage` is a state-machine step `Dispatch` over the aggregator state, a settings map and a closed flag. The class `Session` runs it in place. Its method `OnSelectionChange` is the `selectionchange` handler, which also runs once at start.

One behaviour of the code shapes what is sent. The first `replace` of `sanitizeText` removes U+0000–U+001F, and that range includes LF and CR. So the second `replace` never finds a CR LF (`CrLfReplacementIsNoOp`), and every LF and CR, like every other C0 and C1 control character, is removed from the request (`SanitizeProperties`). The line terminators LS (U+2028) and PS (U+2029) are not control characters, so inside the text they survive (`SanitizeKeepsInnerSeparators`). The aggregator joins layers with `"\n\n"`, yet the request carries the layers' texts run together: two layers "Hello" and "World" are sent as "HelloWorld" (`SanitizeDropsSeparator`, `TwoLayerScenario`). The comment at `code.js:131` says the function normalises line endings, which suggests line breaks were meant to survive; the model follows the code as written.

A `process-text` command calls `getTextFromNodes` directly. It does not go through `updateSelectedText`, so no ids are evicted before the new layers are absorbed. `Dispatch` uses `Absorb`, not `Update`, for this reason, and `Complete` is the part after the text is aggregated. A repeated `process-text` on the same selection appends no layer's text to the aggregate twice (`RepeatedProcessKeepsText`); it does send the whole aggregated text to the service again.

The sentinel `'No text selected'` is replaced only by a non-empty increment (`code.js:64-68`). After a selection without text layers resets the text to the sentinel, a selection whose text layers all have empty characters keeps it, and a following `process-text` sends the words "No text selected" to the service as the text to improve (`EmptyLayersKeepSentinel`, `SentinelSentAsText`). The model keeps this behaviour of the code.

## Model

| member | source | states |
|---|---|---|
| Aggregator.GetTextFromNode | code.js:31-36 | no contract of its own: a text layer's characters, otherwise the empty string; used by `TextMapHoldsOwnText` |
| Aggregator.HasTextNodes | code.js:79-81 | true exactly when some node of the selection is a text layer |
| Aggregator.TextNodes | code.js:84-87 | its own contract bounds only the length; `TextNodesSingle` and `TextNodesAppend` fix the function as the node-by-node filter (order and multiplicity kept, so its length is the number of selected text layers reported as `count`), and `TextNodesMembers` and `HasTextNodesIffTextNodes` state membership and emptiness; the same filter at code.js:92 is the one `Update` uses |
| Aggregator.TextMap | code.js:48-51 | no contract of its own: the `forEach` that sets each node's id to its text, later nodes overwriting earlier ones; `TextMapHoldsOwnText` states that each node finds its own text when ids identify nodes |
| Aggregator.NewNodes | code.js:55 | no contract of its own: the text layers of the selection whose ids are not yet processed, in selection order; `NewNodesIds` and `NoNewNodesWhenAllProcessed` state which ids pass the filter |
| Aggregator.Lookups | code.js:56-59 | one text per new node (the length is kept); the `.map` lookup without its add, which `Absorb` performs on the processed set; `StagesGiveFreshTexts` states which texts come out, in order |
| Aggregator.NonEmpty | code.js:60 | a text is kept exactly when it was among the inputs and is not empty; `StagesGiveFreshTexts` states the order |
| Aggregator.TextNodesSingle | code.js:86 | a one-node selection keeps its node exactly when it is a text layer |
| Aggregator.TextNodesAppend | code.js:86 | the text layers of a concatenated selection are those of the first part followed by those of the second: order and multiplicity are those of the selection |
| Aggregator.TextNodesMembers | code.js:84-87 | the filtered selection holds exactly the selection's text layers |
| Aggregator.HasTextNodesIffTextNodes | code.js:92-95 | "some node is text" agrees with "the filtered selection is non-empty" |
| Aggregator.NewNodesIds | code.js:54-57 | the ids marked processed by one call are exactly the selected text ids that were not yet processed |
| Aggregator.NoNewNodesWhenAllProcessed | code.js:55 | once every selected text id is processed, no node passes the filter |
| Aggregator.TextMapHoldsOwnText | code.js:48-51 | when ids identify nodes, the id-to-text map gives each node its own text |
| Aggregator.StagesGiveFreshTexts | code.js:54-61 | filter, map and non-empty filter together give the non-empty texts of unprocessed text layers, in selection order |
| Aggregator.FreshTextsIgnoreOtherIds | code.js:106-112 | evicting ids outside the selection does not change which selected layers count as new |
| Aggregator.Join | code.js:61 | no contract of its own: the parts joined by a double line break; stated through `AbsorbText` and `TwoNewLayers` |
| Aggregator.Merge | code.js:63-68 | no contract of its own: append after a separator, replace an empty or sentinel text, or keep the text; its three cases are stated by `UpdateAppendsFreshTexts` |
| Aggregator.Absorb | code.js:43-71 | no contract of its own: the state after `getTextFromNodes`; its properties are `AbsorbMarksSelected`, `AbsorbText` and `AbsorbIdempotent` |
| Aggregator.Update | code.js:90-120 | no contract of its own: the state after `updateSelectedText`; its properties are the lemmas below |
| Aggregator.AbsorbMarksSelected | code.js:54-57 | after `getTextFromNodes` on the selection's text layers the processed ids are the old ones plus exactly the selected text ids |
| Aggregator.AbsorbText | code.js:43-71 | the text after `getTextFromNodes`: the reference increment (non-empty texts of unprocessed text layers, in selection order, joined by a double line break) merged into the current text |
| Aggregator.AbsorbIdempotent | code.js:54-68 | a second `getTextFromNodes` with the same selection changes neither the text nor the set (no duplication) |
| Aggregator.ResetWithoutText | code.js:95-103 | with no text layer selected, the text becomes the sentinel and the set empties, whatever the prior state |
| Aggregator.ProcessedIsSelectedTextIds | code.js:106-114 | after a selection change with a text layer, the processed ids are exactly the selected text ids |
| Aggregator.UpdateAppendsFreshTexts | code.js:54-68 | the increment is the new layers' non-empty texts in selection order joined by a double line break; it is appended after a separator, replaces an empty or sentinel text, or leaves the text alone when empty |
| Aggregator.UpdateIdempotent | code.js:90-120 | a second change with the same selection changes neither the text nor the set (no duplication) |
| Aggregator.FreshTextsOfEmptyLayers | code.js:60 | text layers whose characters are empty contribute no part to the increment |
| Aggregator.EmptyLayersKeepSentinel | code.js:64-68 | from the reset state, a selection whose text layers are all empty keeps the sentinel text and marks exactly the selected text ids |
| Aggregator.NarrowToProcessed | code.js:106-112 | narrowing to an already processed layer keeps the text and evicts the other ids |
| Aggregator.WidenWithReturning | code.js:54-68 | reselecting an evicted layer beside a kept one contributes only the returning layer's text |
| Aggregator.DeselectedNodeContributesAgain | code.js:106-112 | select A,B, then B, then A,B: A's text is appended again, B's is not duplicated |
| Aggregator.TwoNewLayers | code.js:54-68 | two new text layers from the start state give "first\n\nsecond" and count 2 |
| Aggregator.TextAggregator.constructor | code.js:39-40 | the text starts empty and the set starts empty |
| Aggregator.TextAggregator.GetTextFromNodes | code.js:43-71 | the new state is Absorb of the old one: the filter sees the set as it was before any add, and the returned text is the new text; `AbsorbText` and `AbsorbIdempotent` state what that means |
| Aggregator.TextAggregator.BuildTextMap | code.js:48-51 | the map the `forEach` builds is `TextMap`: a later node with the same id overwrites an earlier one |
| Aggregator.TextAggregator.MarkNew | code.js:56-59 | the new nodes' ids are added to the set, their looked-up texts are returned in order, and the text is unchanged |
| Aggregator.TextAggregator.UpdateSelectedText | code.js:90-120 | the new state is Update of the old one; the report carries the new text and the number of text layers, the sentinel and 0 when there are none; the set becomes the selected text ids |
| Sanitizer.StripControls | code.js:133 | the result has no character in U+0000–U+001F or U+007F–U+009F, and a string without them is unchanged |
| Sanitizer.StripControlsSubsequence | code.js:133 | the result is the input with characters deleted |
| Sanitizer.ReplaceCrLf | code.js:134 | a string in which no CR is directly followed by LF is unchanged |
| Sanitizer.ReplaceCrLfSubsequence | code.js:134 | the replacement only deletes characters |
| Sanitizer.ReplaceCrLfSplits | code.js:134 | around each CR LF pair the result is the replacement of the part before, one LF, and the replacement of the part after; with the identity on strings without a pair this fixes the function |
| Sanitizer.LeadingWhitespace | code.js:135 | counts exactly the whitespace prefix: all counted characters are whitespace, the next one is not |
| Sanitizer.TrailingWhitespace | code.js:135 | counts exactly the whitespace suffix |
| Sanitizer.Trim | code.js:135 | the result neither starts nor ends with whitespace; it is the slice of the input after the leading whitespace; only whitespace lies outside it; a string already trimmed is unchanged |
| Sanitizer.CrLfReplacementIsNoOp | code.js:133-134 | after control stripping the CR LF replacement changes nothing |
| Sanitizer.Sanitize | code.js:130-136 | no contract of its own: the three steps in order; its properties are the lemmas below |
| Sanitizer.SanitizeProperties | code.js:130-136 | the output has no control character, in particular no LF or CR, no surrounding whitespace, and is a subsequence of the input |
| Sanitizer.SanitizeIdempotent | code.js:130-136 | sanitising twice equals sanitising once |
| Sanitizer.SanitizeKeepsInnerSeparators | code.js:130-136 | an LS or PS between two clean non-empty texts survives sanitising: the control class does not contain it, and `trim` removes line terminators only at the ends |
| Sanitizer.SanitizeKeepsCleanText | code.js:130-136 | text without control characters or surrounding whitespace is unchanged |
| Sanitizer.SanitizeDropsSeparator | code.js:133 | two clean texts joined by "\n\n" are sanitised to the two texts run together |
| Completion.StartsWith | code.js:126 | true exactly when the prefix is a prefix of the string |
| Completion.Utf16Length | code.js:126 | a string's `length` lies between its number of characters and twice that |
| Completion.Utf16LengthAppend | code.js:126 | code units add up over concatenation |
| Completion.Utf16LengthPlanes | code.js:126 | a string of characters above U+FFFF has twice as many code units as characters; one without them has as many |
| Completion.ValidateApiKey | code.js:123-127 | true exactly when the key has at least 51 UTF-16 code units and begins with "sk-" (which implies it is non-empty) |
| Completion.KeyLengthInCodeUnits | code.js:126 | "sk-" and 24 characters above U+FFFF (27 characters, 51 code units) is accepted; with basic-plane characters the key needs 48 characters after the prefix |
| Completion.KeyRejections | code.js:123-127 | a key under 51 code units (in particular under 26 characters), a key without the prefix, and "abc" are all rejected |
| Completion.SanitizedInstructions | code.js:148 | the falsy default "" agrees with sanitising the instructions |
| Completion.BuildRequest | code.js:147-165 | no contract of its own: the two contents; stated by `RequestContents` |
| Completion.RequestContents | code.js:152-165 | the system and user contents are the fixed prefixes followed by clean subsequences of the instructions and of the text |
| Completion.Prepare | code.js:142-144 | it fails, with the key-format message, exactly when the key is invalid; otherwise it yields the request |
| Completion.IsOk | code.js:178 | no contract of its own: `response.ok`, a status from 200 to 299 |
| Completion.FailureMessage | code.js:180-188 | no contract of its own: the message thrown for a status that is not ok; stated by `ResponseClassification` and `StatusMessageNamesStatus` |
| Completion.Interpret | code.js:178-194 | no contract of its own: the outcome of `fetch` as a returned value or a thrown message; stated by `ResponseClassification` |
| Completion.CallOpenAI | code.js:139-199 | no contract of its own: validation, then the service's answer interpreted; stated by `InvalidKeySendsNothing` and `ResponseClassification` |
| Completion.DecimalString | code.js:187 | the status numeral is non-empty, all digits, with no leading zero |
| Completion.DecimalRoundTrip | code.js:187 | the numeral's value is the status |
| Completion.InvalidKeySendsNothing | code.js:142-143 | an invalid key gives the format error whatever the service would answer, so nothing is sent |
| Completion.ResponseClassification | code.js:178-194 | with a valid key: the content on an ok status; the fixed 401 message even when the body has one; otherwise the body's non-empty message verbatim; otherwise the status message; a rejected fetch gives its own message |
| Completion.StatusMessageNamesStatus | code.js:187 | the fallback message starts with the fixed words and the status can be read back from it |
| Session.LoadSavedData | code.js:202-213 | no contract of its own: both settings, missing ones as the empty string; used by `ProcessSuccessStoresBoth` and `CompleteStorage` |
| Session.Dispatch | code.js:226-263 | no contract of its own: the effect of one UI message; its properties are the lemmas below |
| Session.Complete | code.js:241-258 | no contract of its own: `callOpenAI` on the aggregated text and what follows it; stated by `CompleteSucceeds`, `CompleteStorage` and `CompleteKeepsAggregate` |
| Session.CompleteSucceeds | code.js:241-252 | with a valid key and an ok answer, the request built from the aggregated text is sent, the answer posted and both settings stored |
| Session.CompleteStorage | code.js:241-258 | a result is posted or an error is; an error leaves the store as it was; a result follows storing both settings, which load back, and one request |
| Session.CompleteKeepsAggregate | code.js:241-258 | the completion half leaves the text and the processed ids alone |
| Session.ProcessAggregate | code.js:231-240 | `process-text` changes the aggregator by `getTextFromNodes` on the selection's text layers when there are any, and not at all otherwise |
| Session.RepeatedProcessKeepsText | code.js:229-258 | a second `process-text` on the same selection leaves the text and ids as the first left them, whatever the keys, instructions and services |
| Session.ProcessWithoutTextLayer | code.js:231-238 | with no text layer selected, process-text posts the selection error, sends no request and changes nothing |
| Session.ProcessReplyIsCompletionOutcome | code.js:240-258 | with a text layer, the posted result or error is exactly callOpenAI's outcome on the absorbed text; one request is sent with a valid key, none otherwise |
| Session.ProcessFailureKeepsStorage | code.js:241-258 | a process-text that posts an error writes nothing to storage |
| Session.ProcessSuccessStoresBoth | code.js:243-252 | a process-text that posts a result has stored both settings under their keys; loading gives them back; one request was sent |
| Session.ProcessSucceeds | code.js:229-252 | with a valid key and an ok response, the whole step: text absorbed, the one request built from it, the content posted, both settings stored |
| Session.SaveInstructionsWritesOnlyInstructions | code.js:259-262 | save-instructions writes the instructions entry and no other, posts nothing and sends nothing |
| Session.TwoLayerRequest | code.js:147-161 | two clean texts joined by a double line break are sent run together, and clean instructions unchanged |
| Session.ProcessTwoLayers | code.js:229-252 | from the state two new layers leave, a successful `process-text` is the whole step: one request with the texts run together, the answer posted, both settings stored |
| Session.SentinelSentAsText | code.js:64-68 | after the reset to the sentinel, a selection whose text layers are all empty keeps the sentinel, and a `process-text` with a valid key sends the sentinel as the text to improve |
| Session.TwoLayerScenario | code.js:226-252 | two new layers give "first\n\nsecond" and count 2; a successful process-text sends one request carrying the texts run together, posts the answer and stores both settings |
| Session.Session.constructor | code.js:9-40 | at start the aggregator is empty and the store is as left |
| Session.Session.OnSelectionChange | code.js:216-218 | the aggregator takes the Update step, and nothing else changes |
| Session.Session.OnMessage | code.js:226-263 | the new state, posted result and sent requests are those of Dispatch |
| Session.Session.HandleProcessText | code.js:229-258 | the process-text branch equals Dispatch on that command |
| Session.Session.CompleteRequest | code.js:241-258 | the awaited call and what follows equal `Complete` on the state after aggregation |

## Left out

- The host API: `figma.showUI`, `figma.ui.postMessage`, `figma.closePlugin`, `console.log` and `console.error`. Posted messages are returned values. Closing sets a `closed` flag, and what the host does after closing is not modelled.
- `figma.clientStorage`: the store is a `map<string, string>`. Storage failures are not modelled, nor is a stored value of another type.
- `fetch`, the request headers and body encoding, and JSON parsing of the response. A response is a status, an optional `error.message` and the first choice's content. A successful response whose body lacks `choices` is not modelled, and neither is an `error.message` that is not a string.
- The model name `"gpt-4"` and the temperature `0.9`. They are constants passed to the service and are not part of `Request`.
- `async`/`await`, `Promise.all` and overlapping `process-text` commands. Every handler runs to completion, one at a time.
- Messages whose `apiKey` or `instructions` are `undefined` or `null`. They are modelled as strings, so the only falsy value is the empty string.
- Characters: a Dafny `char` is a Unicode scalar value, not a UTF-16 code unit, so a string holding a lone surrogate code unit cannot be written. Lengths are counted in code units where the code reads them (`Utf16Length` in `ValidateApiKey`). No control or whitespace character lies above U+FFFF, so `sanitizeText` treats a character above U+FFFF exactly as the code treats its surrogate pair.
- `isTextNode` is the `isText` field of a node and has no member of its own.
- Aggregator.EmptyLayersKeepSentinel: requires `IdsIdentify`, as `UpdateAppendsFreshTexts` does, and so does `SentinelSentAsText`.
- Aggregator.AbsorbText: like `UpdateAppendsFreshTexts`, requires `IdsIdentify`, for the same reason.
- Aggregator.UpdateAppendsFreshTexts: states the increment in terms of the layers' own characters only when ids identify nodes (`IdsIdentify`), as in a host selection. With a repeated id, the model still computes what the code does (both copies pass the filter, and the map gives the text of the last one), but no lemma states it.
- Session.TwoLayerScenario: proved for any two distinct clean text layers, any valid key and clean instructions, rather than for the literal strings "Hello", "World" and "Fix grammar".
