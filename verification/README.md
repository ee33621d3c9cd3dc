# ChenChess: a verified model

This project models the parts of the ChenChess repository whose correctness is hardest to see by reading
them, and proves what each part is for. The model follows the code where the code and its documentation
differ; each difference is stated below, with a lemma at a concrete input and the exact condition under which
the promise is kept.

- **Contract runtime.** Texts are sequences of UTF-16 code units (`Utf16Text`), numbers are IEEE doubles as
  `Number::toString` prints them (`NumberText`), and `JsonText` models `JSON.stringify`. `CanonicalJson`
  proves that the canonical text decides equality, `JsonPointer` that references resolve to what their keys
  name, and `SchemaMeaning` with `SchemaValidator` that the validator is sound and complete for a
  declarative meaning and terminates. `InheritedNames` says for which values the names every object
  inherits cannot change a verdict.
- **Sliding-window admission.** `AdmissionLog` is the log of all unreleased admissions and its laws;
  `ProtocolAdmission` is the object with its map of charge times, proved against that log method by method.
- **Account deletion saga.** `AccountDeletion` is a transition system: two databases with version-checked
  writes and any number of runners that crash, lose replies and interleave at every database call.
- **Event stream.** `EventStream` splits chunks into lines and checks the event protocol.
- **Presentation.** `PresentationAnimation` checks animation deltas, `FenPlacement` holds the two readers of
  a FEN placement, `RecencyCache`, `PresentationCache` and `ReviewProjection` the memoised projections,
  `MoveSequenceLines` and `MoveSequenceSnapshot` the replay of move sequences, `ComparisonArrows` the
  merged arrows.
- **Tooling.** `AliasResolution` holds the alias resolvers of the lint plugin, `SplashSilhouette` the
  geometry of the theme's silhouettes.

`Optional`, `TextSplit`, `StrictSort`, `BlankText` and `UciText` hold what several of these share.

What is assumed of code outside the model is always a parameter: the regular expression engine, event
decoding and handlers, the rendering of a moment, the part of the generated contract schema that a result
must meet, the chess library (`Lawful` in `MoveSequenceLines` lists what is asked of it), the random stream,
and every clock, which never runs backwards.

Differences between the code and its promises:

- JavaScript's `in` and property reads also find the names every object inherits, so the validator accepts
  an object that lacks a required `constructor` (`RequiredNamesSlipThrough`): owning the required names is
  decided exactly by the rules that require no inherited one (`RequiredNamesDecideExactly`). A reference may
  end at `__proto__` (`EndsAtPrototype` is the exact condition). With plain required names, every document gives a
  value its own-property verdict if and only if the value is not `Exposed`: no object in it, outside arrays
  that hold an ill-formed string, has a key with an inherited name (`OwnPropertiesDecideExactly`).
- A rule with `$ref` ignores the keywords beside it, and string lengths count UTF-16 units.
- The cached session projection promises what direct computation returns. The decoder refuses idempotency
  keys that the branded key type allows, and a cache hit is not decoded again: the promise is kept exactly
  on a miss, for a key the decoder accepts, or for a completion with no moments to review
  (`ProjectCachedSession`), and `RefusedKeyIsServed` models the failing call.
- The retry time of a key-limit rejection is a lower bound that may be too short
  (`KeyLimitRetryMayBeTooShort`). A later call is admitted if and only if every charge of some live key has
  expired by then (`KeyLimitAdmitsIff`).
- A Player Line that replays is still refused, by an exception, when the chess library accepts a spelling
  the address pattern does not (`UpperCasePromotionIsRefused`). Which lines are shown is exact in
  `ProjectPlayerLineSequenceSnapshot`.

The rank loop of the FEN decoder takes U+212A, the Kelvin sign, for a king, so taken alone it is exact up to
that character (`CanonicalIffPrinted`, `PrintedIffNoKelvin`). The library comparison that runs before the loop
refuses the sign, so the decoder as a whole does not (`DecodePlacement`).

## Model

| member | source | states |
|---|---|---|
| Utf16Text.WellFormedIffPaired | packages/coach-engine-sdk/src/contract-runtime.ts:129-148 | A text is the UTF-16 encoding of some sequence of scalar values exactly when no surrogate in it is unpaired |
| Utf16Text.RequireWellFormedUnicode | packages/coach-engine-sdk/src/contract-runtime.ts:129-148 | The index loop succeeds exactly on the texts that encode some sequence of scalar values |
| NumberText.NumberToStringInjective | packages/coach-engine-sdk/src/contract-runtime.ts:107-123 | Two finite numbers print alike exactly when they are the same number, the two zeros being one |
| JsonText.StringifyUnambiguous | packages/coach-engine-sdk/src/contract-runtime.ts:107-123 | Whatever follows two printed values, equal texts force equal values and equal rests: the printed form can be cut in one way only |
| JsonText.SameJsonIffNormalEqual | packages/coach-engine-sdk/src/contract-runtime.ts:372-374 | Comparing printed texts is comparing values member by member in order, with signless zeros and non-finite numbers as null |
| CanonicalJson.SortKeysAscending | packages/coach-engine-sdk/src/contract-runtime.ts:107-117 | Sorting the keys of an object puts them in strictly ascending order of their code units |
| CanonicalJson.FailsIffIllFormed | packages/coach-engine-sdk/src/contract-runtime.ts:107-148 | The canonical printer fails exactly when some string or key at some depth is not well-formed UTF-16 |
| CanonicalJson.CanonicalIsSortedText | packages/coach-engine-sdk/src/contract-runtime.ts:107-123 | A canonical text is what `JSON.stringify` prints of the value with every object's keys sorted |
| CanonicalJson.CanonicalTextDecidesEquality | packages/coach-engine-sdk/src/contract-runtime.ts:107-127 | For well-formed values, equal canonical texts mean equal values with objects read as unordered maps, and conversely |
| JsonPointer.ResolveReference | packages/coach-engine-sdk/src/contract-runtime.ts:332-345 | The token loop resolves a reference to what following its decoded tokens one by one reaches |
| JsonPointer.DecodeInvertsEscape | packages/coach-engine-sdk/src/contract-runtime.ts:337-338 | Decoding a token gives back the key it was escaped from, for every key |
| JsonPointer.TokenOrderMatters | packages/coach-engine-sdk/src/contract-runtime.ts:337-338 | Decoding `~0` before `~1` would not invert the escaping of some key |
| JsonPointer.PointerRoundTrip | packages/coach-engine-sdk/src/contract-runtime.ts:332-345 | The reference made of escaped keys reaches exactly the subschema the keys name; with a step missing it resolves if and only if it stops at an object and its last key is `__proto__` |
| JsonPointer.MissingStepCanResolve | packages/coach-engine-sdk/src/contract-runtime.ts:332-345 | Some reference with a missing step does resolve |
| SchemaMeaning.NoCycle | packages/coach-engine-sdk/src/contract-runtime.ts:150-202 | When no part of the document comes back to itself in place, no rule whatever, inside the document or not, leads to one that does |
| SchemaMeaning.RankDecreases | packages/coach-engine-sdk/src/contract-runtime.ts:150-202 | From a rule that leads to no cycle, every rule applied to the same value through `$ref`, `allOf`, `anyOf` or `oneOf` leads to none either and has a smaller rank: the measure by which validation terminates |
| SchemaMeaning.GuardedByParts | packages/coach-engine-sdk/src/contract-runtime.ts:150-202 | A rule leads to no cycle when all rules it hands to the same value or to parts of it lead to none |
| SchemaValidator.Validate | packages/coach-engine-sdk/src/contract-runtime.ts:150-202 | Acceptance means the value satisfies the rule's declarative meaning, rejection that it does not, and where the rule leads only to supported rules there is no other outcome; terminates by value size and rank whenever no rule reachable from this one is cyclic |
| SchemaValidator.Accepts | packages/coach-engine-sdk/src/contract-runtime.ts:322-330 | A caught validation answers yes exactly for valid values, and lets only foreign errors through |
| SchemaValidator.ValidateReference | packages/coach-engine-sdk/src/contract-runtime.ts:158-161 | A rule with `$ref` has the meaning of its target alone |
| SchemaValidator.ValidateAllOf | packages/coach-engine-sdk/src/contract-runtime.ts:162-164 | Accepts exactly when every `allOf` branch holds |
| SchemaValidator.ValidateAnyOf | packages/coach-engine-sdk/src/contract-runtime.ts:165-170 | Accepts exactly when some `anyOf` branch holds |
| SchemaValidator.ValidateOneOf | packages/coach-engine-sdk/src/contract-runtime.ts:171-177 | Accepts exactly when one `oneOf` branch holds and no other does |
| SchemaValidator.OneTrue | packages/coach-engine-sdk/src/contract-runtime.ts:171-177 | Counting one match among the branches is the same as exactly one branch matching |
| SchemaValidator.ValidateConstants | packages/coach-engine-sdk/src/contract-runtime.ts:178-189 | `const` and `enum` hold exactly when the value equals the constant or some listed value |
| SchemaValidator.ValidateType | packages/coach-engine-sdk/src/contract-runtime.ts:191-197 | Accepts exactly the values of some allowed type; an unknown type name is an error and not a mismatch |
| SchemaValidator.ValidateString | packages/coach-engine-sdk/src/contract-runtime.ts:204-232 | Length limits in UTF-16 units and the pattern hold exactly when accepted |
| SchemaValidator.ValidateNumber | packages/coach-engine-sdk/src/contract-runtime.ts:234-264 | Format range and limits hold exactly when accepted; an unknown format is the only error |
| SchemaValidator.UniqueTexts | packages/coach-engine-sdk/src/contract-runtime.ts:266-296 | The set of printed items is as large as the array exactly when no two items are equal |
| SchemaValidator.ValidateArray | packages/coach-engine-sdk/src/contract-runtime.ts:266-296 | Size, uniqueness and the item rule of every item hold exactly when accepted |
| SchemaValidator.ValidateObject | packages/coach-engine-sdk/src/contract-runtime.ts:298-320 | Required names are present and each member obeys its property rule, or else the additional rule, exactly when accepted |
| SchemaValidator.ValidateContract | packages/coach-engine-sdk/src/contract-runtime.ts:54-56 | The document validates a value exactly when the value satisfies the document's own meaning |
| SchemaValidator.ValidateContractDefinition | packages/coach-engine-sdk/src/contract-runtime.ts:58-64 | A named definition validates a value exactly when the name resolves and the value satisfies the schema found there |
| InheritedNames.OwnPropertiesDecideExactly | packages/coach-engine-sdk/src/contract-runtime.ts:298-320 | A value is unexposed if and only if every usable document with plain required names gives it its own-property verdict |
| InheritedNames.UnexposedReadsAlike | packages/coach-engine-sdk/src/contract-runtime.ts:298-320 | An unexposed value meets both readings of every rule that leads to plain required names alike |
| InheritedNames.ShowingSeparates | packages/coach-engine-sdk/src/contract-runtime.ts:311-319 | For every exposed value a rule is built that one reading accepts and the other refuses, on it and on all values that print like it |
| InheritedNames.AcceptsIllFormed | packages/coach-engine-sdk/src/contract-runtime.ts:204-206 | A rule that accepts a string that is not well-formed accepts every value under both readings |
| InheritedNames.RequiredNamesDecideExactly | packages/coach-engine-sdk/src/contract-runtime.ts:305-310 | The required names of a rule decide about every object as if only own properties counted if and only if none of them is inherited |
| InheritedNames.RequiredNamesSlipThrough | packages/coach-engine-sdk/src/contract-runtime.ts:298-310 | For every inherited name, the rule that requires it accepts the empty object, which its own-property meaning refuses |
| AdmissionLog.RunInvariant | apps/central-host/server/protocol-admission.ts:156-243 | After every run at non-decreasing times, each key's charges are sorted and within rate, and no more keys are live than allowed |
| AdmissionLog.RateIsBounded | apps/central-host/server/protocol-admission.ts:156-243 | No interval shorter than the window holds more than burst never-released admissions of one key, and the keys with live charges in the log never exceed the limit |
| AdmissionLog.ReleaseUndoesAdmission | apps/central-host/server/protocol-admission.ts:178-190 | Releasing a charge just made restores every key's charges |
| AdmissionLog.BurstRetryIsLeast | apps/central-host/server/protocol-admission.ts:439-445 | With no call in between, a burst-rejected key is admitted at any time from the retry time on and still rejected one second before it |
| AdmissionLog.KeyLimitRetryIsLowerBound | apps/central-host/server/protocol-admission.ts:447-461 | A key rejected for lack of room is still rejected one second before the retry time |
| AdmissionLog.KeyLimitAdmitsIff | apps/central-host/server/protocol-admission.ts:192-231 | A key without live charges, refused for lack of room, is admitted at a later time if and only if every charge of some live key has expired by then |
| ProtocolAdmission.KeyLimitRetryMayBeTooShort | apps/central-host/server/protocol-admission.ts:447-461 | Under an accepted policy and for keys the object forms, some run leaves a key refused for lack of room and refused again at its retry time |
| ProtocolAdmission.PolicyV1IsValid | apps/central-host/server/protocol-admission.ts:56-103 | The checked-in policy meets every demand made of a policy |
| ProtocolAdmission.ValidatePolicy | apps/central-host/server/protocol-admission.ts:271-309 | Succeeds exactly on policies, given as unchecked numbers, with a version text, a positive whole key limit and proper whole limits for every route class; fractions, negative numbers, infinities and NaN are refused |
| ProtocolAdmission.CreateCoachProtocolAdmission | apps/central-host/server/protocol-admission.ts:264-269 | A policy that fails validation makes no object; any other makes one with the limits it gives that has charged nothing |
| ProtocolAdmission.WindowKeyInjective | apps/central-host/server/protocol-admission.ts:418-427 | A window key determines its route class and identity, even when the identity contains the separator |
| ProtocolAdmission.DropExpiredKeepsLive | apps/central-host/server/protocol-admission.ts:429-437 | Shifting expired stamps off a sorted list leaves exactly its live ones, the oldest first |
| ProtocolAdmission.DropExpiredTwice | apps/central-host/server/protocol-admission.ts:429-437 | Shifting at one time and again later is shifting later: when expiry last ran makes no difference |
| ProtocolAdmission.RemoveKept | apps/central-host/server/protocol-admission.ts:178-190 | Splicing the last occurrence of a stamp out of the kept part is keeping the live part of the full list without it |
| ProtocolAdmission.MapIsBounded | apps/central-host/server/protocol-admission.ts:192-243 | The map of every valid object has exactly the live keys, never more than `maxKeys`, and for each of them as many charges as are live, never more than its burst |
| ProtocolAdmission.CoachProtocolAdmission.constructor | apps/central-host/server/protocol-admission.ts:137-147 | A new object represents the empty log |
| ProtocolAdmission.CoachProtocolAdmission.Admit | apps/central-host/server/protocol-admission.ts:149-154 | The decision is the full log's decision, and the log grows by one charge exactly when admitted; afterwards the map holds at most `maxKeys` keys |
| ProtocolAdmission.CoachProtocolAdmission.Reserve | apps/central-host/server/protocol-admission.ts:156-176 | As for admit; the reservation names the charge just made and exists exactly when admitted; afterwards the map holds at most `maxKeys` keys |
| ProtocolAdmission.CoachProtocolAdmission.Release | apps/central-host/server/protocol-admission.ts:178-190 | The log loses the last charge of that key and time, and nothing when there is none; afterwards the map holds at most `maxKeys` keys |
| ProtocolAdmission.CoachProtocolAdmission.DecideCharge | apps/central-host/server/protocol-admission.ts:192-231 | Admits exactly when fewer than burst live charges stand against the key and the key is live or fits; reports occupancy and retry time from the log; afterwards the map holds at most `maxKeys` keys |
| ProtocolAdmission.CoachProtocolAdmission.Expire | apps/central-host/server/protocol-admission.ts:233-243 | Afterwards the map stands for the same log at the new time: its keys are the live keys and its arrays their live charges |
| ProtocolAdmission.CoachProtocolAdmission.CardinalityRetryAfter | apps/central-host/server/protocol-admission.ts:447-465 | The whole seconds until the earliest time at which some key's oldest live charge expires |
| AccountDeletion.EveryRunKeepsInvariant | services/coach-engine/src/account_deletion.rs:166-215 | Every interleaving of calls, crashes, lost replies, new runners and passing time keeps the saga's invariant |
| AccountDeletion.StoredPhaseMeansDone | services/coach-engine/src/account_deletion.rs:166-202 | In every reachable world a stored phase means its effect and all earlier ones have happened, the markers validate, a completed production marker means a completed staging marker, and a finished runner means all five effects |
| AccountDeletion.FirstExecutionsInOrder | services/coach-engine/src/account_deletion.rs:166-202 | In every reachable world the first execution of an effect comes before the first execution of every later one |
| AccountDeletion.ActiveOnlyAfterTwoHours | services/coach-engine/src/account_deletion.rs:55-83 | While a marker is stored the check never fails on it, and calls the player active exactly when two hours have passed since completion, hence since the identity was deleted |
| AccountDeletion.CallMakesProgress | services/coach-engine/src/account_deletion/firestore.rs:35-129 | In a world that satisfies the invariant, a call that is not lost either writes a document for good or brings its runner closer to its end, and never fails it |
| AccountDeletion.BoundDecreases | services/coach-engine/src/account_deletion/firestore.rs:44-129 | Each such call lowers one bound for the whole world, so version conflicts cannot go on forever |
| AccountDeletion.FaultFreeScheduleIsBounded | services/coach-engine/src/account_deletion.rs:166-215 | Every schedule of calls without faults, with any time passing between them, has no more calls than that bound and fails no runner |
| AccountDeletion.FaultFreeRunCompletes | services/coach-engine/src/account_deletion.rs:166-215 | From every reachable world, a fault-free schedule in which time may pass, run to its end, finishes every runner, stores the last phase in both databases and has done all five effects |
| EventStream.LinesAppend | packages/coach-engine-sdk/src/client.ts:823-848 | Appending a chunk only extends the unfinished line and adds lines after it |
| EventStream.StreamConsumer.Consume | packages/coach-engine-sdk/src/client.ts:409-429 | One value is delivered exactly when it decodes, carries the command's identities, is next in sequence and follows no terminal event |
| EventStream.ReadNdjson | packages/coach-engine-sdk/src/client.ts:823-848 | However the text is cut into chunks, the values handed over are the non-blank lines of the whole text in order, up to the first failure |
| EventStream.RestIgnored | packages/coach-engine-sdk/src/client.ts:823-848 | Once a value has failed, no later chunk changes what was delivered |
| EventStream.Stream | packages/coach-engine-sdk/src/client.ts:387-437 | Completes exactly when the text ends and its values form a complete stream; in every run, failing ones included, the delivered events are a protocol prefix of the decoded values |
| EventStream.FeedSucceeds | packages/coach-engine-sdk/src/client.ts:409-429 | All values are consumed exactly when all decode, together follow the protocol and every handler call succeeds |
| EventStream.FeedDelivers | packages/coach-engine-sdk/src/client.ts:409-429 | What is delivered follows the protocol, nothing after a terminal event, and is a prefix of the decoded values |
| EventStream.FeedCompletes | packages/coach-engine-sdk/src/client.ts:430-437 | The final checks hold exactly for non-empty streams numbered from zero whose last event, and only that, is terminal |
| PresentationAnimation.UniqueIffDistinct | packages/coach-engine-sdk/src/decoder.ts:967-971 | A set of values as large as the list means no value occurs twice |
| PresentationAnimation.AccountedIffExact | packages/coach-engine-sdk/src/decoder.ts:836-889 | The scans over motions, removals and prior pieces hold together exactly when removals are the vanished ids and motions the changed survivors |
| PresentationAnimation.ValidateDeltas | packages/coach-engine-sdk/src/decoder.ts:812-896 | One frame passes exactly when its deltas are the difference of the two boards, each listed once, and no piece appears |
| PresentationAnimation.ValidateFrames | packages/coach-engine-sdk/src/decoder.ts:796-898 | The loop passes exactly when every frame is acceptable against the placements of the frame before it |
| PresentationAnimation.ValidatePresentationAnimation | packages/coach-engine-sdk/src/decoder.ts:765-899 | Acceptance is exactly: matching version and moment, one to eight frames, at most eight seconds, and acceptable frames |
| PresentationAnimation.DeltasReachPlacements | packages/coach-engine-sdk/src/decoder.ts:812-896 | Removing and moving what an exact frame lists gives its own placements |
| PresentationAnimation.AcceptedAnimationReplays | packages/coach-engine-sdk/src/decoder.ts:765-899 | After any number of frames of an accepted animation, folding the deltas over the initial board gives the last placements, with no two pieces on a square and no new piece |
| PresentationAnimation.PiecesOnlyVanish | packages/coach-engine-sdk/src/decoder.ts:890-896 | Along accepted frames the set of pieces only shrinks |
| FenPlacement.ValidateRank | packages/coach-engine-sdk/src/position-integrity.ts:87-123 | The rank loop accepts exactly the ranks that fill eight files and equal their own reprint, and lists their occupied squares |
| FenPlacement.CanonicalRankIffPrinted | packages/coach-engine-sdk/src/position-integrity.ts:87-123 | A rank equals its own reprint exactly when it is the printed form of eight cells, reading a Kelvin sign as `K` |
| FenPlacement.ValidatePlacement | packages/coach-engine-sdk/src/position-integrity.ts:73-131 | The rank loop alone accepts exactly the canonical placements and returns the occupied squares in ascending order |
| FenPlacement.CanonicalIffPrinted | packages/coach-engine-sdk/src/position-integrity.ts:73-123 | The placements the rank loop alone accepts are exactly the printed forms of 8x8 boards, up to Kelvin signs |
| FenPlacement.PrintedBoardReadsBack | packages/coach-engine-sdk/src/position-integrity.ts:73-123 | Every board, printed canonically, is accepted and reads back as itself |
| FenPlacement.PrintedIffNoKelvin | packages/coach-engine-sdk/src/position-integrity.ts:98-104 | A placement the rank loop accepts is literally a printed board exactly when it holds no Kelvin sign |
| FenPlacement.RankLoopTakesKelvin | packages/coach-engine-sdk/src/position-integrity.ts:98-104 | The rank loop alone accepts some placement with a Kelvin sign |
| FenPlacement.DecodePlacement | packages/coach-engine-sdk/src/position-integrity.ts:57-131 | With a library that writes back printed boards, exactly the fields it writes back unchanged are accepted; they are printed boards without Kelvin signs, and the result is the board's occupied squares in ascending order |
| FenPlacement.SortedIsAscending | packages/coach-engine-sdk/src/position-integrity.ts:125-127 | Sorting by square index turns reading order into ascending order |
| FenPlacement.AscendingPiecesAreTheOccupied | packages/coach-engine-sdk/src/position-integrity.ts:125-131 | The ascending list holds exactly the occupied squares of the board with their pieces |
| FenPlacement.PresentationPieces | packages/review-projection/src/review-session-presentation-pieces.ts:6-40 | Succeeds exactly on eight full ranks, canonical or not, and lists their pieces in reading order |
| FenPlacement.ReadersAgree | packages/review-projection/src/review-session-presentation-pieces.ts:6-59 | On every accepted placement both readers list the same pieces, equally many |
| RecencyCache.BoundedCache.Get | apps/central-host/server/review-session-presentation.ts:95-101 | Returns what the key maps to and makes it the most recent entry |
| RecencyCache.BoundedCache.Set | apps/central-host/server/review-session-presentation.ts:103-111 | Makes the entry the most recent one and evicts the oldest until the limit holds |
| RecencyCache.HoldsMostRecent | apps/central-host/server/review-session-presentation.ts:86-116 | On every trace of look-up-then-fill uses the cache holds exactly the most recent distinct keys that fit, in order of recency |
| RecencyCache.RecencyIsLastUse | apps/central-host/server/review-session-presentation.ts:86-116 | The order of recency is the order of last uses |
| RecencyCache.HoldsLastValue | apps/central-host/server/review-session-presentation.ts:86-116 | A cached value is the one computed at the last miss of its key |
| RecencyCache.SmallerIsContained | apps/central-host/server/review-session-presentation.ts:86-116 | On the same trace a smaller cache holds the most recent keys of a larger one, and when keys determine values what it finds is what the larger one finds |
| PresentationCache.BindIdempotencyKey | apps/central-host/server/review-session-presentation.ts:66-84 | Returns new objects that differ from the cached ones in the key of every handoff and in nothing else |
| PresentationCache.MemoisedProjection.Project | apps/central-host/server/review-session-presentation.ts:23-64 | Returns what direct computation with the caller's own key returns if and only if the call is a miss, the key is valid or there are no moments; the objects are none of the cache's, and the cache is used as one recency access |
| PresentationCache.MemoisedProjection.Reset | apps/central-host/server/review-session-presentation.ts:122-126 | Nothing is cached afterwards, so that the next call of any key is a miss |
| PresentationCache.ServeAll | apps/central-host/server/review-session-presentation.ts:23-64 | Over every sequence of calls through one cache, each caller whose key is valid, or whose direct computation succeeds, gets the direct result, although callers overwrite their copies in between |
| ReviewProjection.SessionKeyNames | apps/central-host/server/review-session-presentation.ts:27 | The session cache key determines import and revision and nothing more |
| ReviewProjection.AdditionKeyNames | apps/central-host/server/review-session-presentation.ts:45-49 | The addition cache key determines import, revision and moment and nothing more |
| ReviewProjection.SessionKeyFlow | packages/review-projection/src/review-session-presentation.ts:56-91 | Whether a session presentation decodes depends on the key only through the contract pattern, and only when there are moments; the key appears in the handoffs alone, so projecting with another valid key is rebinding |
| ReviewProjection.AdditionKeyFlow | packages/review-projection/src/review-session-presentation.ts:93-136 | An addition never fails on account of the key, and the key appears in the handoff alone |
| ReviewProjection.MomentlessSession | packages/review-projection/src/review-session-presentation.ts:56-91 | A session that projects at all projects to no moments exactly when it has none to review |
| ReviewProjection.ProjectCachedSession | apps/central-host/server/review-session-presentation.ts:23-39 | A cached call returns what direct projection returns if and only if it is a miss, the key meets the contract pattern, or the completion has no moments to review |
| ReviewProjection.KeyDeterminesCompletion | apps/central-host/server/review-session-presentation.ts:23-39 | When import and revision determine the completion, a cache key stands for one completion only |
| ReviewProjection.KeyDeterminesAddition | apps/central-host/server/review-session-presentation.ts:41-64 | The same for additions, whose key also names the moment |
| ReviewProjection.ServeSessions | apps/central-host/server/review-session-presentation.ts:23-39 | Over every sequence of calls through one cache, each caller whose key meets the contract pattern, or whose direct projection succeeds, gets the direct result for its own key, although callers overwrite facts and handoffs of their copies in between |
| ReviewProjection.ServeAdditions | apps/central-host/server/review-session-presentation.ts:41-64 | Over every sequence of calls each caller gets the direct addition for its own key, whatever the key, although callers overwrite their copies in between |
| ReviewProjection.BrandedKeyMayBeRefused | packages/coach-engine-sdk/src/construct.ts:376-382 | Some key of the branded type does not meet the contract pattern |
| ReviewProjection.RefusedKeyIsServed | apps/central-host/server/review-session-presentation.ts:23-39 | With such a key the direct projection fails, and after another caller with an accepted key has filled the cache the cached one returns a presentation that carries the refused key |
| MoveSequenceLines.CanonicalMovesFromFen | packages/review-projection/src/move-sequence-lines.ts:138-154 | Returns canonical moves exactly when the path replays from the FEN |
| MoveSequenceLines.CanonicalNotates | packages/review-projection/src/move-sequence-lines.ts:138-154 | Canonical moves keep the path, carry the notation each move has after the moves before it, and canonicalising them again changes nothing |
| MoveSequenceLines.CanonicalSplits | packages/review-projection/src/move-sequence-lines.ts:138-154 | Canonicalising splits over concatenation, the second part starting where the first ends |
| MoveSequenceLines.CanonicalSplitsAtFen | packages/review-projection/src/move-sequence-lines.ts:120-154 | The same when the position between the parts is written as a FEN and read back |
| MoveSequenceLines.CanonicalLinesFrom | packages/review-projection/src/move-sequence-lines.ts:78-118 | Returns exactly the offered lines, the engine's before the refutation |
| MoveSequenceLines.OfferedLineReplays | packages/review-projection/src/move-sequence-lines.ts:103-117 | Every returned line replays from its own start, is its own canonical form and has at least two moves |
| MoveSequenceLines.RefutationContinuesTheMove | packages/review-projection/src/move-sequence-lines.ts:99-103 | A returned refutation replays from the moment itself once the reviewed move is played |
| MoveSequenceSnapshot.ProjectSequenceMoves | packages/review-projection/src/move-sequence-presentation.ts:22-57 | Throws exactly when the line does not replay; otherwise board i shows the position after the first i moves, indexed from one |
| MoveSequenceSnapshot.ValidateSequenceMoves | packages/coach-engine-sdk/src/decoder.ts:528-563 | Passes exactly on non-empty, contiguous, one-based sequences of real moves on boards with distinct pieces |
| MoveSequenceSnapshot.BoardPiecesDiffer | packages/coach-engine-sdk/src/decoder.ts:543-555 | The pieces read from any board have distinct squares and distinct, non-blank ids |
| MoveSequenceSnapshot.PlayedOutIsReal | packages/coach-engine-sdk/src/decoder.ts:528-563 | Whatever is played out from a replaying line passes the decoder's check |
| MoveSequenceSnapshot.ProjectMoveSequenceSnapshot | packages/review-projection/src/review-moment-snapshot.ts:74-89 | Absent exactly when the moment does not offer the kind; otherwise the boards of the offered line, and an exception exactly when the contract schema refuses them |
| MoveSequenceSnapshot.ShownOnce | packages/review-projection/src/review-moment-snapshot.ts:74-89 | The snapshot of an offered line is determined: no two snapshots of a kind meet what is asked of one |
| MoveSequenceSnapshot.ProjectPlayerLineSequenceSnapshot | packages/review-projection/src/review-moment-snapshot.ts:98-118 | Absent exactly when the path has not one to twelve moves or does not replay; of the others exactly those in the address pattern that the contract schema takes are shown, with recomputed notation and boards |
| MoveSequenceSnapshot.UpperCasePromotionIsRefused | packages/review-projection/src/review-moment-snapshot.ts:98-118 | Under some lawful rules a promotion spelt in upper case replays and is outside the address pattern |
| ComparisonArrows.MergeComparisonArrows | packages/review-projection/src/comparison-arrows.ts:74-112 | The keyed map yields one arrow per pair of squares, labelled and coloured by all kinds of its sources |
| ComparisonArrows.KeyTellsPairs | packages/review-projection/src/comparison-arrows.ts:87 | The map key determines both squares |
| ComparisonArrows.PairsAreFirstSeen | packages/review-projection/src/comparison-arrows.ts:78-97 | Each pair with a source appears once, in the order of first sources |
| ComparisonArrows.KindsAreTheSources | packages/review-projection/src/comparison-arrows.ts:86-96 | A kind is drawn for a pair exactly when some source of that pair stands for it |
| ComparisonArrows.LabelNamesSources | packages/review-projection/src/comparison-arrows.ts:97-111 | A label names the engine exactly when the engine is a source and the player exactly when the player is; the tone is the engine's exactly when the label names it |
| ComparisonArrows.BoardsAgree | packages/review-projection/src/review-moment-board.ts:107-130 | For every two moves and every rating, merging the projected arrows gives what merging the moment's own moves gives |
| ComparisonArrows.CriticalMomentComparisonArrows | packages/review-projection/src/comparison-arrows.ts:32-43 | Draws the merged arrows of the moment's best and most likely moves |
| ComparisonArrows.PresentationComparisonArrows | packages/review-projection/src/comparison-arrows.ts:61-72 | Draws the merged arrows of whatever arrows the presentation carries, best replies and foreign labels included |
| ComparisonArrows.DrawnKinds | packages/review-projection/src/comparison-arrows.ts:61-72 | A kind is drawn for a pair exactly when some arrow of that pair, not a best reply, is of the kind or names it in its label |
| ComparisonArrows.EngineArrowIsMerged | packages/review-projection/src/comparison-arrows.ts:53-59 | A board with one engine line draws the arrow that merging would draw, and none for a text that is not a move |
| AliasResolution.ResolvesIffReaches | tooling/oxlint/plugin.js:778-795 | A resolver answers yes exactly when some finite chain of the steps it follows reaches its keyword, on cyclic alias tables too |
| AliasResolution.ResolvesFollowsChain | tooling/oxlint/plugin.js:1160-1183 | A yes comes with a chain that enters no visited alias and uses no alias twice |
| AliasResolution.ChainIsResolved | tooling/oxlint/plugin.js:1241-1257 | Any chain that avoids the visited aliases makes the resolver answer yes |
| AliasResolution.CutAtLastUse | tooling/oxlint/plugin.js:792-794 | A chain through an alias can be cut to a shorter one that starts at the alias's definition and avoids the alias |
| AliasResolution.ReachableSimply | tooling/oxlint/plugin.js:778-795 | What can be reached at all can be reached without using an alias twice |
| AliasResolution.CollectAliases | tooling/oxlint/plugin.js:812-820 | The alias table holds, for each declared name, its last declaration, exported or not |
| AliasResolution.CheckParameters | tooling/oxlint/plugin.js:796-810 | Reports exactly the annotated parameters from which `object` can be reached, each once and in order |
| AliasResolution.CheckReturnType | tooling/oxlint/plugin.js:1184-1195 | Reports exactly the annotated return types from which `unknown` can be reached |
| AliasResolution.CheckTypeAliases | tooling/oxlint/plugin.js:1258-1278 | Reports exactly the declared aliases whose own definition reaches `unknown` |
| AliasResolution.ResolvesInsideAlias | tooling/oxlint/plugin.js:1258-1278 | Starting inside an alias with that alias visited finds whatever its definition reaches |
| SplashSilhouette.SpreadIncreases | packages/ui/scripts/generate-watercolor-shapes.ts:135-139 | Neighbouring edge positions stay strictly ordered after jitter and clamping, whatever the random values |
| SplashSilhouette.WanderStays | packages/ui/scripts/generate-watercolor-shapes.ts:142-147 | A point that wanders off the base line stays inside the box |
| SplashSilhouette.SplashRectControls | packages/ui/scripts/generate-watercolor-shapes.ts:125-185 | The number of control points depends on the edge counts alone, every point is inside the box, and each edge is strictly monotone |
| SplashSilhouette.SilhouetteFromControls | packages/ui/scripts/generate-watercolor-shapes.ts:220-237 | One closed outline whose curves join midpoint to midpoint around every control in turn, every coordinate rounded to hundredths; no controls is an error |
| SplashSilhouette.OutlineStays | packages/ui/scripts/generate-watercolor-shapes.ts:220-237 | Every point of every curve of controls inside the box is inside the box |
| SplashSilhouette.RoundingStays | packages/ui/scripts/generate-watercolor-shapes.ts:215-216 | Rounding moves a coordinate by at most half a hundredth and keeps it in the box |
| SplashSilhouette.PrintedOutlineStays | packages/ui/scripts/generate-watercolor-shapes.ts:215-237 | The rounded outline still closes, and every point of its curves is inside the box |

## Left out

- The texts and paths of thrown errors: an error is a `false`, a `Crash` or a `Thrown`, told apart only where callers can tell.
- Values `JSON.stringify` treats specially: `undefined`, functions, bigints, `toJSON`; the model's values are parsed JSON.
- Schemas outside the `JsonSchema` declaration: they are a `Crash`, and soundness and completeness are stated for verdicts.
- The regular expression engine and `JSON.parse`: parameters with any behaviour, a malformed pattern being an error.
- SHA-256, UTF-8 decoding of chunks, HTTP, credentials and telemetry output: no shown semantics; the event stream starts from decoded text.
- A reservation's `release` is a call of `Release` with its own key and time; nothing is promised about releasing one reservation twice.
- AdmissionLog.KeyLimitRetryIsLowerBound: says nothing about admission at the retry time, which `KeyLimitAdmitsIff` decides.
- AccountDeletion.StoredPhaseMeansDone: an effect is one event; what withdrawing, deleting and revoking do in their services is not modelled, and neither is the purge of expired markers, which the databases do on their own.
- The saga's recovery pass is a new runner that may start at any time; the listing of incomplete players and the admission of a deletion request are simple checks beside it.
- PresentationAnimation.AcceptedAnimationReplays: the initial board is read as a map in which the last placement of an id wins, because one decoding path does not check its ids for uniqueness.
- The rest of position integrity: castling, en passant, check and rule state depend on the chess library.
- ReviewProjection.ServeSessions: assumes that import and revision determine the completion.
- ReviewProjection.ServeAdditions: assumes that import, revision and moment determine the completion.
- The facts of boards, labels and coaching text inside a presentation: opaque parameters of the projection.
- MoveSequenceLines.CanonicalSplitsAtFen: assumes that the FEN of a position reached by a legal move reads back as that position.
- The contract schema part of snapshot and presentation decoding: the validator is modelled and the schema's key pattern is; the rest of the generated schema is a parameter.
- ComparisonArrows.LabelNamesSources: lower-casing acts on ASCII letters; no other character lower-cases to one of the letters searched for without splitting the word.
- The lexical type parameters that shadow an alias are a parameter of the resolvers; qualified type names are among the other types.
- The substitution-driven classifiers of the lint plugin: they guard against a bare self-reference only, so no measure covers all their inputs.
- SplashSilhouette.SplashRectControls: exact reals, at least two points per edge, and non-negative depths; the torn and round shapes and the generator's bit mixing are left out.
- SplashSilhouette.SilhouetteFromControls: the outline is its rounded points and curves; the text of the commands is left out.
- Generated types, components, styles, fixtures and scripts: they would add only easy members.
