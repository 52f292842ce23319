# Verified models of the engine's hard core

This project models, in Dafny, the parts of the engine whose guarantees span many calls: the
hash-chained audit log, admission control, the idempotency protocols, the PostgreSQL/MongoDB
cutover, the at-least-once event consumers, and the code that gives content its identity.
`dafny verify dfyconfig.toml` checks all of it.

Code that changes things step by step is a class or a method with loops, proved against a
specification function; the guarantees are lemmas about that function over every input, run or
interleaving. Code made of expressions and recursion is functions and lemmas.

| module | models |
|---|---|
| `Text`, `Doubles`, `Json`, `Sorting`, `Wrappers` | UTF-16 strings, integers as doubles and their shortest digits, JSON values with printers and a reader, the stable sort, options and results |
| `CanonicalJson`, `PythonDump`, `AuditChain`, `AuditTheorems` | `canonicalJson`, key sorting, agreement with Python, `add`, `verifyChain`, and exactly when verification succeeds |
| `TokenBucket`, `Quota` | the rate limiter's Lua script and guard, the two-level quota counters |
| `IdempotencyRecords`, `RequestLease` | the database record machine, the Redis lease as interleaved steps |
| `Mappers`, `Checksums`, `Cutover`, `CutoverTheorems` | row mappers, paging, checksum lanes, both copy loops, and what they promise end to end |
| `RunDispatch`, `EvalHarness` | run dispatch with the accepted-run sweep, the eval executor and scorer |
| `PayloadSchema`, `AssistantSchema`, `ExportImport`, `VersionStore` | schema parsing and the unknown-key diff, the assistant payload schema, content hashes, stored versions |
| `Compatibility`, `Releases` | batched template compatibility with memoised probes, release comparison |
| `Uuid`, `Spotlight`, `Budgets` | UUIDv7 layout, spotlight delimiters, budget alerts over a month |

## Abstractions

- SHA-256 is a function parameter. Where a result needs it not to collide, it says so for the digests involved only.
- A total order on strings (`.sort()`, `localeCompare`, the order of a database column) is an injective rank into the reals.
- Tokens and money are reals, counters are integers, and clocks, identifiers and random bytes are arguments.
- A database transaction, a Lua script and a single Redis command are each one atomic step.
- Date parsing and printing, lower-casing and `String(v)` of unusual values are parameters with the laws they need stated as a predicate (`Mappers.ValidEnv`).

## Where the code and its documentation differ

- `canonicalJson` is documented as Python's `json.dumps`. It writes backspace, tab, newline, form feed and carriage return as `\u00xx` where Python abbreviates them, it writes the shortest digits of an integer beyond 2^53 where Python writes all of them, and it sorts keys by UTF-16 code unit where Python sorts by code point. `AgreesWithPythonIff` gives the exact condition; `TabDisagrees`, `GreatIntegerDisagrees` and `EmojiKeyDisagrees` give an input for each difference. A greater integer in a row Python wrote does not survive being read (`RewrittenIff`).
- "Deleting a row breaks the chain" holds only for rows with chained rows on both sides (`DeletionReported`), and "always verifies" only for appends in canonical order (`RunVerifiesIff`).
- `release` is documented as symmetric with `checkAndReserve`. It passes 0 for the project keys, so project counters keep what was released, it decrements product counters for a reservation that failed open and was never counted, and it addresses the month of the release, not of the reservation (`ReleaseUndoesIff`, `RunExactIff`, `ReleasedProjectStaysFull`, `StrayReleaseFreesOthers`, `LaterMonthPays`).
- `toBigint` documents "number when safe, else string" but checks only the upper bound; two different negative values can become the same number (`BigintKeepsValueIff`, `NegativeBigintsCollide`).
- `canonicalize` documents dropping `_id`; a property named `__proto__` disappears as well (`CanonicalFormIff`, `ProtoIsInvisible`).
- A failed case or a dead run is documented to let an eval complete, never hang it. Failures the executor records complete nothing, and when completeRun throws after the last execution was settled, the redelivered event finds nothing pending and returns (`CompletesIff`, `EmptiedOtherwiseHangs`, `TextlessEvalHangs`).
- A rate limit with refill rate 0 is tested for in the script, but the expiry it computes is infinite. Taking it that Redis refuses such an expiry, the script fails and the guard admits every call (`CanActivate`).
- `rejectUnknownPayloadKeys` is documented to list every unknown key. Names every object inherits, such as `constructor`, are found in the schema shape by the plain property lookup and slip through (`ReportIsExact`, `AcceptedLosesNothingIff`, `ConstructorSlipsThrough`).
- An expired claim is documented to mean that its owner was lost. If the owner is only late, a new claim makes a second one, and the completion that comes last wins (`SecondOwnerIff`, `ResponseReplacedIff`).
- The surrogate branch of `canonicalJson` for codes above 0xffff cannot be reached, since the pattern matches single code units.

## Model

| member | source | states |
|---|---|---|
| Json.ReadPrinted | src/common/audit/audit.service.ts:39-80 | a reader of the JSON grammar recovers any printed value and stops exactly at its end, provided what follows does not go on with a digit or a decimal point |
| Json.PrintInjective | src/common/audit/audit.service.ts:39-63 | equal texts mean equal values, for the audit writer, Python's and JSON.stringify alike |
| CanonicalJson.EscapeString | src/common/audit/audit.service.ts:65-80 | the accumulating loop produces the quoted, escaped string |
| CanonicalJson.TwoPasses | src/common/audit/audit.service.ts:28-37 | serialising and then escaping non-ASCII is the same as escaping every string on the way, at any depth |
| CanonicalJson.CanonicalParses | src/common/audit/audit.service.ts:28-63 | reading the canonical text, integers to the nearest double, gives the value back with the keys of every object sorted |
| CanonicalJson.CanonicalIdentifies | src/common/audit/audit.service.ts:28-63 | two values have one canonical text if and only if they differ in key order only |
| CanonicalJson.CanonicalIsPrintable | src/common/audit/audit.service.ts:27-37 | every character of the canonical text is printable ASCII |
| Doubles.NearestOrders | src/common/audit/audit.service.ts:49-50 | reading decimals as doubles keeps their order |
| Doubles.ShortestReads | src/common/audit/audit.service.ts:50 | the digits toString writes for an integer read back as it |
| Doubles.ExactIff | src/common/audit/audit.service.ts:50 | toString writes the exact digits of an integer below 10^21 if and only if no decimal with more trailing zeros reads as it |
| PythonDump.AgreesWithPythonIff | src/common/audit/audit.service.ts:26-63 | the text is what json.dumps writes if and only if no string or key holds one of the five abbreviated control characters, no integer is shortened and no two sibling keys clash |
| PythonDump.RewrittenIff | src/common/audit/audit.service.ts:49-50 | an integer Python wrote is written again as it was if and only if it is the shortest decimal of the double it reads as |
| PythonDump.GreatIntegerDisagrees | src/common/audit/audit.service.ts:50 | 2^57 is written as 144115188075855870 by the one writer and as 144115188075855872 by the other |
| PythonDump.RewrittenInteger | src/common/audit/audit.service.ts:49-50 | 9007199254740993 written by Python is not written again as it was |
| PythonDump.SortsAlikeIff | src/common/audit/audit.service.ts:57-58 | two key orders sort a value alike if and only if they rank all sibling keys alike, at every depth |
| PythonDump.PointsOrderIff | src/common/audit/audit.service.ts:57 | code units and code points order two keys differently if and only if, where they first differ, one has half of a surrogate pair and the other a greater unit that is none |
| PythonDump.TabDisagrees | src/common/audit/audit.service.ts:73-74 | a string holding a tab is written differently by the two writers |
| PythonDump.EmojiKeyDisagrees | src/common/audit/audit.service.ts:57-58 | an emoji and a full-width tilde as sibling keys are written in opposite orders by the two writers |
| CanonicalJson.EquivSorts | src/common/crypto/canonical-hash.ts:15-25 | key sorting identifies two values if and only if they are equal up to key order |
| CanonicalJson.SortKeysAscends | src/common/crypto/canonical-hash.ts:15-25 | sorting leaves every object's keys ascending and the value well formed |
| CanonicalJson.SortKeysFixes | src/common/crypto/canonical-hash.ts:15-25 | a sorted value is left alone, so sorting is idempotent |
| AuditChain.AuditTrail.Add | src/common/audit/audit.service.ts:144-183 | appends the row whose predecessor is the greatest one below it in (created_at, id) order, with its digest, and touches no other row; the row records every column of the event, its details hold a present, non-empty product tag under `product`, and for the rest exactly what the event's own details hold, up to key order |
| AuditChain.DetailsRecorded | src/common/audit/audit.service.ts:168-179 | the hashed details and the stored ones both hold a present, non-empty tag under `product` and otherwise what the event gave, and nothing else |
| AuditChain.AuditTrail.VerifyChain | src/common/audit/audit.service.ts:190-243 | the walking loop returns the verdict, the count and the first break of the specification walk over the window |
| AuditChain.VerifyFromFinds | src/common/audit/audit.service.ts:211-242 | the walk succeeds if and only if every row is sound, and otherwise stops at the first unsound one |
| AuditChain.RunIsChain | src/common/audit/audit.service.ts:144-183 | every run of add calls yields rows each chained to its canonical predecessor at append time |
| AuditTheorems.PreimageIdentifies | src/common/audit/audit.service.ts:159-171 | rows without a pipe in their text columns have one digest input if and only if every hashed column agrees |
| AuditTheorems.TagIsHashed | src/common/audit/audit.service.ts:159-171 | two events that differ in the product tag alone have one digest input if and only if the tags are one text, or one is missing and the details hold the other's text already |
| AuditTheorems.LinkedIff | src/common/audit/audit.service.ts:151-157 | of two canonically adjacent rows the later carries the earlier one's hash if and only if they were appended in that order |
| AuditTheorems.WindowVerifiesIff | src/common/audit/audit.service.ts:190-243 | over any window, verification succeeds if and only if all canonically adjacent rows were appended in order with no legacy row between |
| AuditTheorems.WindowIsFirst | src/common/audit/audit.service.ts:190-209 | the window is the `limit` canonically first of the hashed rows, in order |
| AuditTheorems.ChainVerifiesIff | src/common/audit/audit.service.ts:190-243 | the whole chain verifies if and only if the history was appended in canonical order |
| AuditTheorems.RunVerifiesIff | src/common/audit/audit.service.ts:138-243 | for every sequence of add calls, verifyChain over all rows is ok if and only if each (created_at, id) was above all earlier ones |
| AuditTheorems.LatecomerReported | src/common/audit/audit.service.ts:213-240 | an add landing below existing rows is reported at the row that follows it |
| AuditTheorems.DeletionReported | src/common/audit/audit.service.ts:213-240 | deleting a row is noticed if and only if rows remain on both sides, and then at the row that followed |
| AuditTheorems.EditReported | src/common/audit/audit.service.ts:219-234 | editing a row in place is noticed if and only if its digest input changed, and then at that row |
| TokenBucket.BucketKey.Eval | src/common/http/rate-limit.ts:34-61 | the script's decision, retry time and new stored state are those of the specification step, expiry included; with refill rate 0 it writes the state and fails |
| TokenBucket.BucketKey.CanActivate | src/common/http/rate-limit.ts:72-107 | admits, or refuses with the Retry-After seconds rounded up and at least 1; admits when Redis is unreachable or the script fails |
| TokenBucket.AdmittedIff | src/common/http/rate-limit.ts:40-53 | over any trace a call is admitted if and only if no earlier starting point would exceed one burst plus refill |
| TokenBucket.WindowBound | src/common/http/rate-limit.ts:47-53 | for any clock, calls i to j admit at most capacity plus the refill of the forward clock moves |
| TokenBucket.ClockWindowBound | src/common/http/rate-limit.ts:27-61 | with a clock that does not go back, a window [a, b] admits at most capacity + refill * (b - a) / 1000 |
| TokenBucket.TokensInRange | src/common/http/rate-limit.ts:48-54 | tokens stay between 0 and the capacity |
| TokenBucket.RetryIsExact | src/common/http/rate-limit.ts:56-60 | after a refusal a later call is admitted if and only if it waits at least the returned time, when the capacity covers the cost |
| TokenBucket.RetryAfterIsLeast | src/common/http/rate-limit.ts:102-105 | after a refusal a whole number of seconds is enough if and only if it is at least the Retry-After header |
| TokenBucket.TooDearIsNeverAdmitted | src/common/http/rate-limit.ts:48-53 | a cost above the capacity is refused in every state and at every time |
| TokenBucket.ForgettingIsInvisibleIff | src/common/http/rate-limit.ts:43-46 | losing the key changes no decision state if and only if the bucket would be full by then |
| TokenBucket.ExpiryIsInvisible | src/common/http/rate-limit.ts:54-55 | no trace of calls decides differently because of key expiry |
| Quota.QuotaPlane.CheckAndReserve | src/modules/billing/quota.service.ts:52-168 | admits and increments all addressed counters, or names the level and changes none; fails open when Redis is down |
| Quota.QuotaPlane.Release | src/modules/billing/quota.service.ts:79-206 | decrements the product counters clamped at zero and writes the project counters back unchanged |
| Quota.AdmittedIff | src/modules/billing/quota.service.ts:57-63 | a reservation is admitted if and only if no limited counter would pass its limit |
| Quota.AmountIs | src/modules/billing/quota.service.ts:127-134 | a reservation counts its cost and its units, one unit by default, nothing for negative or missing values, on the product's counters of its month and on those of a named project, and on no other counter |
| Quota.RefusalNames | src/modules/billing/quota.service.ts:52-74 | a refusal names a limited counter of the reservation that would pass its limit |
| Quota.GiveBackTakes | src/modules/billing/quota.service.ts:79-89 | a release that reaches Redis takes what the reservation amounts to off the product counter of the month it is called in, or all there is; project counters keep theirs, and a release that does not reach Redis takes nothing |
| Quota.RunIsAccounted | src/modules/billing/quota.service.ts:52-206 | over every run, Redis up or down and the month as it is at each call, no counter exceeds its limit, project counters are all that was ever counted, and product counters differ from the counted open reservations by at most what stray and lost releases amount to |
| Quota.RunExactIff | src/modules/billing/quota.service.ts:126-206 | throughout a run a product counter equals the counted open reservations if and only if each release takes off it what its reservation put on it, or there is nothing to take |
| Quota.MatchesIff | src/modules/billing/quota.service.ts:126-206 | for the counters a hold addresses, while they are above zero, that is so if and only if the release reaches Redis in the month of the reservation exactly when the reservation was counted |
| Quota.ClampIsMetIff | src/modules/billing/quota.service.ts:76-89 | from an exact counter a release meets the zero clamp if and only if its reservation put nothing on that counter and is above all that did |
| Quota.ReleaseUndoesIff | src/modules/billing/quota.service.ts:170-206 | for Redis up or down at either call and any month of the release, a release restores every counter under exactly the stated condition on the two calls, the reservation and the counters before |
| Quota.StrayReleaseFreesOthers | src/modules/conversations/conversations.service.ts:285-322 | a hold taken while Redis was down and released later takes its units off what other open holds count |
| Quota.LaterMonthPays | src/modules/billing/quota.service.ts:170-182 | a hold released in another month stays on its own month's counter and is taken off the other one's |
| Quota.ReleasedProjectStaysFull | src/modules/billing/quota.service.ts:195-199 | a project whose limit one reservation exhausts stays refused although nothing of it is outstanding |
| IdempotencyRecords.RecordTable.ClaimIdempotency | src/common/http/idempotency-records.ts:51-127 | claims, replays or refuses by hash, status and expiry, refuses for a row hidden from the caller, and states the record afterwards |
| IdempotencyRecords.RecordTable.CompleteIdempotency | src/common/http/idempotency-records.ts:130-142 | records the response under SUCCEEDED and leaves other keys alone |
| IdempotencyRecords.RecordTable.FailIdempotency | src/common/http/idempotency-records.ts:145-157 | marks the record retryable or final and leaves other keys alone |
| IdempotencyRecords.RecordTable.PurgeExpired | src/common/http/idempotency-records.ts:164-172 | removes exactly the records whose expiry has passed and counts them |
| IdempotencyRecords.RecordSafety | src/common/http/idempotency-records.ts:51-172 | over every run in which no key is claimed past an overdue owner, a key has at most one live owner, which blocks all claims until its own runs out, at most one completion on file per record, and replays exactly it |
| IdempotencyRecords.HashIsFixed | src/common/http/idempotency-records.ts:96-121 | the request hash of a record never changes while it lives |
| IdempotencyRecords.SucceededStays | src/common/http/idempotency-records.ts:99-103 | a succeeded record survives every step but a sweep that finds it expired |
| IdempotencyRecords.ReplaysUntilSwept | src/common/http/idempotency-records.ts:99-103 | after a completion every same-hash claim replays that response, however the run goes on and even past the expiry, until a sweep finds the record expired |
| IdempotencyRecords.FinalFailureIsFinal | src/common/http/idempotency-records.ts:123-125 | after a final failure, however the run goes on, until a sweep finds the record expired every same-hash claim is refused with the conflict, no claim of the key is granted and nobody owns it |
| IdempotencyRecords.RetryableFailureReopens | src/common/http/idempotency-records.ts:104-122 | after a retryable failure, however the run goes on until a claim of the key is granted, the next same-hash claim is granted and makes its caller the only owner |
| IdempotencyRecords.LostClaimReopens | src/common/http/idempotency-records.ts:104-122 | an abandoned claim can be taken over if and only if it has expired |
| IdempotencyRecords.RecordGoneIff | src/common/http/idempotency-records.ts:164-172 | a live owner has lost its record if and only if the sweep ran while it was overdue |
| IdempotencyRecords.SecondOwnerIff | src/common/http/idempotency-records.ts:104-122 | the next claim makes a second owner if and only if the owner is overdue and the claim has its hash, or any hash once the sweep took the record |
| IdempotencyRecords.ResponseReplacedIff | src/common/http/idempotency-records.ts:105-142 | if and only if a claim made a second owner, the later of the two completions replaces the recorded response of the earlier, in either order |
| IdempotencyRecords.LateOwnerOverwrites | src/common/http/idempotency-records.ts:105-142 | the shortest run in which an overdue owner overwrites the response of the one that took over |
| RequestLease.Interceptors.Lookup | src/common/http/idempotency.ts:59-75 | the GET step: replay, refusal in flight, refusal of another fingerprint, or go on |
| RequestLease.Interceptors.Claim | src/common/http/idempotency.ts:77-81 | SET NX starts the handler if and only if the key is free |
| RequestLease.Interceptors.StoreResponse | src/common/http/idempotency.ts:85-88 | overwrites the lease with the response under the time to live |
| RequestLease.Interceptors.DropLease | src/common/http/idempotency.ts:89-93 | deletes the key on the error path |
| RequestLease.LeaseSafety | src/common/http/idempotency.ts:59-94 | over every interleaving within leases: one holder per key, none beside a stored response, every replay a reply produced under that key and fingerprint |
| RequestLease.HandlerStartsAlone | src/common/http/idempotency.ts:77-83 | a handler starts only where neither a lease nor a response is under its key |
| RequestLease.LiveResponseStays | src/common/http/idempotency.ts:83-94 | a live response is never overwritten or deleted |
| RequestLease.SuccessIsServed | src/common/http/idempotency.ts:84-88 | for its time to live and no longer, the reply of a successful request is replayed under its fingerprint and other fingerprints are refused |
| RequestLease.HolderRefusesOthers | src/common/http/idempotency.ts:60-81 | while a handler has its key, every other request under it is refused as in flight, at the GET and at the SET NX |
| RequestLease.SecondStartsIff | src/common/http/idempotency.ts:77-94 | as long as every SET NX came in time the key has one holder, and the next SET NX starts a handler beside it if and only if the holder has outlived its lease |
| RequestLease.OverrunBreaksExclusion | src/common/http/idempotency.ts:77-88 | a handler that outlives its lease lets a second one start |
| Mappers.PgRowToMongoDoc | src/cutover/mappers.ts:88-137 | both loops produce the document and the unknown columns of the specification, or the first column's failure |
| Mappers.DocumentOfRow | src/cutover/mappers.ts:88-137 | every row: it maps if and only if each column is writable for its kind, and then the document has ISO texts for timestamps, binaries for uuid texts, no bigints, the other values themselves, and null for each missing required field |
| Mappers.MongoDocToPgRow | src/cutover/mappers.ts:151-190 | the loop drops the surrogate and produces the row and the unknown columns of the specification, or the first failure; what those rows hold is `RowOfDocument` |
| Mappers.RowOfDocument | src/cutover/mappers.ts:139-190 | every document, whoever wrote it: it maps if and only if each property but the surrogate is readable for its kind, and then a timestamp column is null or the ISO text of the instant, held as a date or as a text, a uuid column null or lower-case text, a numeric column null or text, any other column the value |
| Mappers.UuidTextsAgree | src/cutover/mappers.ts:140-145 | a uuid arrives as one text, stored as a binary or as a text in any letter case |
| Mappers.WithoutIdKeeps | src/cutover/mappers.ts:158-159 | exactly the surrogate is dropped |
| Mappers.UnknownIs | src/cutover/mappers.ts:160-165 | the unknown columns are those the mapping does not list |
| Mappers.RowRoundTrip | src/cutover/mappers.ts:88-190 | a row that maps at all comes back from its document with every value normalised, then null for each missing required field |
| Mappers.ValueRoundTrip | src/cutover/mappers.ts:43-147 | each kind of column value comes back as its documented normal form |
| Mappers.CanonicalUuidSurvives | src/cutover/mappers.ts:58-63 | a uuid text in canonical form survives unchanged |
| Mappers.BigintKeepsValueIff | src/cutover/mappers.ts:73-82 | a bigint keeps its value if and only if it is above the safe range or a multiple of the gap between doubles around it |
| Mappers.NegativeBigintsCollide | src/cutover/mappers.ts:75-78 | two different negative bigints become one document value |
| Checksums.IdIsInvisible | src/cutover/mappers.ts:206-214 | adding the surrogate does not change the canonical form |
| Checksums.CanonicalFormIff | src/cutover/mappers.ts:197-217 | two storable values have one canonical form if and only if they are alike: equal up to key order, `_id` and `__proto__`, null against undefined, and binaries or dates against their texts |
| Checksums.ProtoIsInvisible | src/cutover/mappers.ts:208-214 | a document with a property named `__proto__` has the canonical form of the one without |
| Checksums.LinesInjective | src/cutover/verify.ts:100-117 | JSON lines are uniquely decodable: equal streams if and only if equal lists |
| Checksums.StreamPgRows | src/cutover/verify.ts:44-60 | OFFSET paging yields every row once, in key order, for every batch size |
| Checksums.StreamMongoDocs | src/cutover/verify.ts:63-82 | keyset paging yields every document once, in key order, for every batch size |
| Checksums.GreaterIsRest | src/cutover/verify.ts:71-80 | the documents above the last one of a page are exactly the rest of the order |
| Checksums.HashDocs | src/cutover/verify.ts:89-121 | feeding the hash document by document hashes the stream of lines |
| Checksums.VerifyCollection | src/cutover/verify.ts:124-166 | compares counts, skips checksums when they differ, fails with the first row that does not map, and otherwise compares the two digests |
| Checksums.ChecksumsMatchIff | src/cutover/verify.ts:136-145 | checksums match if and only if the lanes are equal document by document in canonical form |
| Cutover.MongoCollection.BulkWrite | src/cutover/cutover.ts:115-126 | inserts the operations whose key is absent and counts upserted and matched |
| Cutover.PgTable.InsertRows | src/cutover/cutover.ts:178-184 | inserts the rows whose key is absent and counts them |
| Cutover.BindValues | src/cutover/cutover.ts:160-177 | binds, for the columns of the first row of the batch, each row's value or null |
| Cutover.CopyPgToMongo | src/cutover/cutover.ts:94-135 | writes every row once, or stops after the last whole batch before the first row that does not map; copied + skipped is the row count |
| Cutover.CopyMongoToPg | src/cutover/cutover.ts:138-193 | writes every document once, or stops after the last whole batch before the first one that does not map; copied + skipped is the count |
| Cutover.InsertAllKeeps | src/cutover/cutover.ts:115-126 | old entries are untouched, every source key is present afterwards, and what is new is a source row whose key was absent |
| Cutover.CopyResumes | src/cutover/cutover.ts:94-135 | insert-if-absent over a list after any prefix of it ends as over the list alone |
| Cutover.InterruptedCopyResumes | src/cutover/cutover.ts:94-193 | a copy interrupted after any number of rows and started again ends as an uninterrupted one |
| Cutover.SecondRunCopiesNothing | src/cutover/cutover.ts:94-193 | a second run copies 0, skips every row and changes nothing |
| Cutover.ColumnKeptIff | src/cutover/cutover.ts:160-176 | a column survives if and only if the first row of its batch has it, and then with the row's own value |
| Cutover.SameColumnsKept | src/cutover/cutover.ts:151-176 | rows with one column list are written whole, whatever the batch size |
| Cutover.ResumeState.Mark | src/cutover/cutover.ts:277-292 | afterwards exactly the collections that passed, or passed before and were not verified again, are marked; dirty if and only if that changed |
| CutoverTheorems.CopyAgreesIff | src/cutover/cutover.ts:94-135 | after a copy the target is alike to the source document by document if and only if each document it already held is alike to the source's with its key |
| CutoverTheorems.VerifyPassesIff | src/cutover/verify.ts:124-166 | counts and checksums both match after a copy under exactly that condition |
| CutoverTheorems.CopyVerifiesIff | src/cutover/verify.ts:124-166 | from the table rows on: after copyPgToMongo went through, verifyCollection passes if and only if each document held before is alike to the source's with its key |
| CutoverTheorems.CopyOntoEmptyVerifies | src/cutover/cutover.ts:94-135 | a copy onto an empty target always verifies |
| CutoverTheorems.ThereAndBack | src/cutover/cutover.ts:94-193 | rows copied to an empty collection and from there to an empty table come back one for one, normalised, for all batch sizes |
| RunDispatch.Engine.MarkDispatched | src/workers/run-dispatch.consumer.ts:285-338 | moves an ACCEPTED run with its event, version and outbox row in one step, leaves an advanced run alone, fails when it is missing |
| RunDispatch.Engine.Handle | src/workers/run-dispatch.consumer.ts:36-196 | the outcome and new state of one delivery of run.created or run.resume_requested; it is to be retried if and only if the workflow could not be started, and skipped if and only if the payload is incomplete or its conversation or run is missing |
| RunDispatch.Engine.Tick | src/workers/accepted-run-sweep.worker.ts:39-78 | re-emits run.created for each locked stuck run and changes no run |
| RunDispatch.DispatchedAtMostOnce | src/workers/run-dispatch.consumer.ts:285-338 | under any duplication and reordering each run is dispatched at most once, each time with one lifecycle event, one run.dispatched and one version step |
| RunDispatch.RunsOnlyAdvance | src/workers/run-dispatch.consumer.ts:319-328 | lastEventSequence and version never fall |
| RunDispatch.StepWrites | src/workers/run-dispatch.consumer.ts:298-336 | what a step writes for one run |
| RunDispatch.DeliveryRecords | src/workers/run-dispatch.consumer.ts:36-338 | a dispatch records the transition with its workflow and one notice, a resume the workflow that goes on and nothing else, another delivery nothing |
| RunDispatch.EventsAscend | src/workers/run-dispatch.consumer.ts:298-318 | event numbers ascend in the order the events were written, by the dispatcher or by others |
| RunDispatch.EndedRunStays | src/workers/run-dispatch.consumer.ts:285-296 | a run that has ended is never touched again, whatever is delivered or tried |
| RunDispatch.SweepRecovers | src/workers/accepted-run-sweep.worker.ts:45-67 | a stuck run is re-emitted, and delivering that event dispatches it |
| EvalHarness.Harness.ClaimValues | src/workers/eval-executor.consumer.ts:87-99 | the nested loops list every case with every attempt from 1 |
| EvalHarness.Harness.HandleRequested | src/workers/eval-executor.consumer.ts:39-182 | the new state of one eval request: missing executions inserted, pending ones dispatched or failed up to the tick limit |
| EvalHarness.Harness.FindExecution | src/workers/eval-scoring.consumer.ts:60-74 | the first transaction: finds the run's pending execution |
| EvalHarness.Harness.SettleExecution | src/workers/eval-scoring.consumer.ts:122-139 | the second transaction: writes the verdict to that execution, pending or not |
| EvalHarness.Harness.MaybeCompleteEvalRun | src/workers/eval-scoring.consumer.ts:142-168 | the last transaction: completes an open eval with every result when nothing is pending and completeRun goes through; what the results say is `CompletesWithVerdicts` |
| EvalHarness.Harness.HandleTerminal | src/workers/eval-scoring.consumer.ts:60-168 | an undisturbed delivery does the three in turn, and nothing when the run has no pending execution |
| EvalHarness.ScoreLexicalIff | src/workers/eval-scoring.consumer.ts:24-46 | a response passes if and only if it contains every needle and nothing forbidden; something forbidden scores 0, no needles score 1, and else the score is the contained part of the needles to four places |
| EvalHarness.InsertAllAgain | src/workers/eval-executor.consumer.ts:100-102 | a redelivered claim adds nothing |
| EvalHarness.HarnessSafety | src/workers/eval-executor.consumer.ts:78-180 | under every interleaving, after a claim the executions are exactly cases x attempts, and the eval is completed at most once, with nothing pending and the results of that moment |
| EvalHarness.CompletesWithVerdicts | src/workers/eval-scoring.consumer.ts:155-166 | over every interleaving that completes the eval, completeRun gets one result per execution: it passed if and only if the last verdict written to the execution before was a pass, with that verdict's score; an execution no verdict was written to is a failure with score 0 |
| EvalHarness.RequestDispatches | src/workers/eval-executor.consumer.ts:39-180 | a request without a snapshot does nothing; one for an existing version handles the undispatched executions as listed, at most 50, up to the first transient failure: each gets its conversation and run, or has failed for its reason; all others are left alone |
| EvalHarness.VerdictsAreFinalIff | src/workers/eval-scoring.consumer.ts:64-86 | a settled verdict is the same under every continuation if and only if no delivery is between finding and settling its execution |
| EvalHarness.VerdictsAreFinal | src/workers/eval-scoring.consumer.ts:122-139 | when no execution is found by one delivery while another holds it, settled verdicts never change |
| EvalHarness.ResultsAreFinal | src/workers/eval-scoring.consumer.ts:155-166 | and then the results handed to completeRun are the final ones |
| EvalHarness.CompletesIff | src/workers/eval-scoring.consumer.ts:60-168 | under every interleaving an eval is completed if and only if some delivery settled an execution and its own completeRun, called with nothing pending, went through |
| EvalHarness.DeliveryCompletesIff | src/workers/eval-scoring.consumer.ts:60-168 | an undisturbed delivery completes an open eval if and only if its run is the only execution pending and completeRun goes through |
| EvalHarness.StillCompletesIff | src/workers/eval-scoring.consumer.ts:64-74 | once nothing is pending, some continuation completes the eval if and only if a delivery is still under way |
| EvalHarness.EmptiedOtherwiseHangs | src/modules/knowledge/eval.service.ts:903-924 | if the executor's failure marks, or a delivery that crashes or whose completeRun throws, empty the pending set with no other delivery under way, the eval is never completed, whatever follows |
| EvalHarness.TextlessEvalHangs | src/workers/eval-executor.consumer.ts:136-141 | an eval whose only case has no text never completes, whatever is delivered |
| PayloadSchema.ObjectShape | src/modules/assistants/validation.ts:245-261 | the unwrapping loop finds the object shape within eight rounds |
| PayloadSchema.ArrayElement | src/modules/assistants/validation.ts:264-280 | the unwrapping loop finds the element schema within eight rounds |
| PayloadSchema.CollectUnknownKeys | src/modules/assistants/validation.ts:217-242 | the recursive loops return the specified list of offending paths, in order |
| PayloadSchema.ObjectParsesIff | src/modules/assistants/validation.ts:23-43 | an object parses if and only if each property of its shape does, present or not, and a strict one has no other property |
| PayloadSchema.ReportIsExact | src/modules/assistants/validation.ts:205-242 | for every supported schema and parsable value the report is exactly the paths parsing loses, except those ending in an inherited name |
| PayloadSchema.LosesNothingIff | src/modules/assistants/validation.ts:205-242 | parsing loses nothing of a payload, at any depth, if and only if the report is empty and no object has a property with an inherited name that its shape lacks |
| PayloadSchema.AcceptedLosesNothingIff | src/modules/assistants/validation.ts:194-215 | an accepted payload loses nothing if and only if no object in it has a property with an inherited name that its shape lacks |
| PayloadSchema.InheritedSlipsThrough | src/modules/assistants/validation.ts:226-231 | to any payload an object shape parses, a property with an inherited name that the shape lacks can be added without changing the report or the result: exactly it is lost |
| ExportImport.ParseStable | src/modules/assistants/validation.ts:43-114 | parsing is idempotent: a normalised value with its keys in any order parses back to itself |
| ExportImport.ConformsIff | src/modules/assistants/validation.ts:43-114 | what parsing returns conforms to the schema at every depth, and the values that parse to themselves are exactly those that do |
| ExportImport.NoNewSecrets | src/modules/assistants/validation.ts:135-160 | parsing and defaulting add no secret to a payload that has none |
| ExportImport.SecretSomewhere | src/modules/assistants/validation.ts:135-159 | the screen finds a secret if and only if there is one at some depth |
| ExportImport.SecretsAreRefused | src/modules/assistants/validation.ts:161-179 | a payload without unknown keys is refused for secret material if and only if it holds a secret at some depth; neither what is accepted nor what is made of it holds one anywhere |
| ExportImport.AcceptsIff | src/modules/assistants/validation.ts:166-215 | a payload is accepted if and only if it has no unknown key, holds no secret and parses, and then as what it parses to |
| ExportImport.CompactsBack | src/modules/assistants/assistants.service.ts:976-979 | stripping top-level nulls undoes the null filling of the stored columns, up to key order |
| ExportImport.AcceptedAgain | src/modules/assistants/assistants.service.ts:287-291 | a normalised payload is accepted again, as it is |
| ExportImport.ExportImports | src/modules/assistants/assistants.service.ts:916-997 | the export of any created version imports to the same normalised payload and hash, even with stored keys reordered |
| ExportImport.HashBindsPayload | src/modules/assistants/assistants.service.ts:986-990 | an envelope carrying the hash of a normalised payload imports as exactly that payload or not at all |
| ExportImport.HashIdentifies | src/common/crypto/canonical-hash.ts:11-25 | content hashes agree if and only if the values are equal up to key order |
| AssistantSchema.AssistantSchemaSuits | src/modules/assistants/validation.ts:6-114 | the assistant payload schema, with its defaults, meets what the diff and the export theorems ask of a schema |
| AssistantSchema.AssistantExportImports | src/modules/assistants/assistants.service.ts:916-997 | export and import round-trip for every payload the assistant schema accepts |
| AssistantSchema.ConstructorSlipsThrough | src/modules/assistants/validation.ts:205-231 | every accepted assistant payload is accepted as the same with a property named constructor added, which is dropped |
| VersionStore.Versions.CreateVersion | src/modules/assistants/assistants.service.ts:271-317 | stores one draft with its columns and hash, or refuses: unknown assistant, refused payload, or a draft already there; it refuses for secret material if and only if a payload without unknown keys holds a secret, and like every method it keeps every stored row free of secrets at every depth |
| VersionStore.Versions.UpdateDraft | src/modules/assistants/assistants.service.ts:328-402 | lands if and only if an expected hash is given, the payload is accepted and the row is this assistant's draft with that hash; otherwise exactly one typed error and no change |
| VersionStore.Versions.UpdateDraftContent | src/modules/assistants/repositories/pg-assistant-version.repository.ts:103-141 | the conditional update changes the row if and only if all four conditions hold |
| VersionStore.Versions.Publish | src/modules/assistants/assistants.service.ts:568-652 | publishes a DRAFT, VALID or VALIDATING row with its columns and hash, or refuses: unknown row, other status, or the first gate its payload does not pass |
| VersionStore.Versions.ExportVersion | src/modules/assistants/assistants.service.ts:916-940 | refuses drafts and foreign rows; whatever it returns imports to the payload the hash covers |
| VersionStore.Versions.ImportVersion | src/modules/assistants/assistants.service.ts:948-997 | creates a draft with the columns and the hash of the envelope, or changes nothing |
| Compatibility.PartitionModelGaps | src/modules/assistants/model-catalog.service.ts:31-51 | the loop splits the missing models into the three specified lists |
| Compatibility.SplitCovers | src/modules/assistants/model-catalog.service.ts:16-30 | the three lists are disjoint and together hold every missing model as often as it was missing |
| Compatibility.FilterKeeps | src/modules/assistants/model-catalog.service.ts:39-49 | each list keeps exactly the matching models, in their order |
| Compatibility.ProviderIs | src/modules/assistants/model-catalog.service.ts:40-41 | the provider of a reference is what stands before its first slash, or the whole reference |
| Compatibility.EvaluateBatch | src/modules/assistants/templates.service.ts:320-421 | gives the specified verdicts and asks each authority once if some template needs it and never otherwise |
| Compatibility.VerdictBlames | src/modules/assistants/templates.service.ts:352-418 | a verdict blames a tool that is neither built in nor enabled, a source when no document is ready, and an allowed model the organisation's catalog lacks on exactly one obstacle: the catalog itself, the platform, the credential or governance |
| Compatibility.CompatibleIff | src/modules/assistants/templates.service.ts:352-418 | a template is compatible if and only if its tools are there, its models are allowed and its sources are ready |
| Compatibility.VerdictAlone | src/modules/assistants/templates.service.ts:310-319 | every template that no later one shares its key with gets the verdict it would get alone |
| Compatibility.WantedIff | src/modules/assistants/templates.service.ts:352-417 | a fact is probed if and only if some template of the batch needs it |
| Releases.CompareVersions | src/modules/assistants/templates.service.ts:498-508 | the comparison loop returns the order of the releases |
| Releases.UpdatesGoForward | src/modules/assistants/templates.service.ts:510-521 | an update is reported if and only if both labels parse and the registry is newer, major if and only if the major number grew, never both ways |
| Releases.PickLatest | src/modules/assistants/templates.service.ts:540-548 | picks the first of the latest releases, none only from an empty list |
| Releases.LatestParses | src/modules/assistants/templates.service.ts:492-497 | an unparsable label is picked only when no row parses |
| Releases.LatestPerSlug | src/modules/assistants/templates.service.ts:529-538 | every slug maps to the first of the latest releases that carry it |
| Uuid.ParseFormat | src/common/infra/db/mongo/mongo-tx.ts:25-31 | reading a printed UUID gives its bytes |
| Uuid.Uuidv7 | src/common/ids/uuidv7.ts:9-25 | the byte loop and the masks produce the text of the UUIDv7 layout |
| Uuid.TimestampRecovered | src/common/ids/uuidv7.ts:14-24 | the first 48 bits are the timestamp modulo 2^48, version 7 and variant 10 as in section 5.7 of RFC 9562 |
| Uuid.TextOrderIsTimeOrder | src/common/ids/uuidv7.ts:14-24 | below 2^48 a smaller timestamp always gives a lexicographically smaller text |
| Spotlight.SanitizeIff | src/common/guardrails/spotlighting.ts:22-28 | sanitised content holds neither delimiter, and is unchanged if and only if it held neither |
| Spotlight.MarkingCreatesNone | src/common/guardrails/spotlighting.ts:36-38 | inserting datamarks creates no delimiter |
| Spotlight.UnmarkMark | src/common/guardrails/spotlighting.ts:36-38 | datamarks can be removed again without loss |
| Spotlight.SpotlightDelimits | src/common/guardrails/spotlighting.ts:34-45 | the result holds one opening and one closing delimiter, at its two ends, and is recognised as spotlighted |
| Budgets.BudgetPlane.CreateBudget | src/modules/billing/billing-credits.service.ts:125-140 | stores the usable thresholds in ascending order, or refuses the amount or an empty list |
| Budgets.UsableIs | src/modules/billing/billing-credits.service.ts:129 | the usable thresholds are the given integers from 10 to 200 |
| Budgets.BudgetPlane.EvaluateBudgets | src/modules/billing/billing-credits.service.ts:180-218 | the loop leaves the specified budgets, sends the specified alerts in order and counts them |
| Budgets.EachOnItsOwn | src/modules/billing/billing-credits.service.ts:180-218 | every budget is updated by its own evaluation, whatever the others do |
| Budgets.PercentReaches | src/modules/billing/billing-credits.service.ts:190 | a percent is reached if and only if the spend has reached that part of the budget |
| Budgets.LevelIsLargestReached | src/modules/billing/billing-credits.service.ts:194-206 | within a month the notified percent is the largest threshold reached so far |
| Budgets.CrossedOnceIff | src/modules/billing/billing-credits.service.ts:192-195 | a threshold is newly crossed in exactly one evaluation, the first that reaches it |
| Budgets.AlertsIff | src/modules/billing/billing-credits.service.ts:194-213 | an evaluation alerts if and only if it is the first to reach some threshold, and then at the largest one reached |
| Budgets.AlertIs | src/modules/billing/billing-credits.service.ts:195-204 | an alert names its budget and is an error from 100 percent on, a warning from 80 on, else information |
| Budgets.AlertsIncrease | src/modules/billing/billing-credits.service.ts:194-206 | the thresholds alerted within a month strictly increase |
| Budgets.NewMonthStartsAfresh | src/modules/billing/billing-credits.service.ts:194 | in a new month earlier alerts do not matter |

## Left out

- HTTP, controllers, guards, DTOs, queues, logging, tracing and metrics: wiring around the modelled calls.
- Real SHA-256, UTF-8 encoding of the hashed text and random number generation: hashes are functions of the code units.
- Numbers are the integers below 10^21 that doubles hold, and fractions from 0.0001 on with at most 15 digits, on which `toString`, `toPrecision(15)` and Python print alike. Other fractions round or print with exponents, non-finite numbers are refused, and a Python float with an integral value is not an integer to Python.
- `undefined` values in audit details: `add` hashes one form of them and stores another.
- `canonicalUtcIso`: created_at is an instant with a printer; parsing of the printed form is a parameter.
- TokenBucket.BucketKey.Eval: the Redis clock and the caller's clock are taken to agree, and the multiplier of local harnesses is part of the limits.
- Quota.RunIsAccounted: a call whose script ran although its reply was lost counts as one that reached Redis, and every release matches an open reservation.
- Quota.QuotaPlane.CheckAndReserve: keys are structured values instead of colon-joined strings, counters do not expire within a run, and `reconcileMonth` and `usageSnapshot` are left out.
- IdempotencyRecords.RecordTable.ClaimIdempotency: taken as one atomic step, because its reclaim update does not repeat the status condition.
- IdempotencyRecords.RecordSafety: no key is claimed past an overdue owner; what happens otherwise is `SecondOwnerIff` and `ResponseReplacedIff`.
- RequestLease.LeaseSafety: handlers end within the 600 second lease; what happens otherwise is `SecondStartsIff`.
- RunDispatch.Engine.Handle: the workflow start on the runtime is an outcome parameter, and only the database projection is exactly-once; tracing, capability tokens and the approval policy are left out.
- EvalHarness.HarnessSafety: one request, its claim and its dispatch loop, is taken as one step, and the dataset is fixed. Looking up the response text and the decision engine inside completeRun are left out: whether completeRun goes through is an event parameter.
- EvalHarness.VerdictsAreFinal: that no execution is held twice rests on one terminal event per run and on the inbox claim letting one worker handle it at a time; what happens otherwise is `VerdictsAreFinalIff`.
- Cutover.MongoCollection.BulkWrite: operations apply in order, and the property order MongoDB gives an upserted document is not modelled; canonical forms do not depend on it.
- Cutover.CopyMongoToPg: the key column is not `_id`, so the stop on a first row without columns is never reached; database errors such as constraint violations, and columns the table has beyond those written, are left out.
- CutoverTheorems.VerifyPassesIff: both stores are taken to sort primary keys alike, and distinct keys not to sort alike; stored documents have one property per key.
- Checksums.CanonicalFormIff: values are those canonicalisation prints, so no ObjectId outside `_id` and no bigint.
- Checksums.VerifyCollection: notes, concurrent writes between the two counts and the printed table are left out.
- The cutover command line, the fresh-target guard, the migration check and the choice of collections to resume: one-branch checks around the copy loops.
- PayloadSchema.CollectUnknownKeys: paths are sequences of keys; joining them with dots is presentation.
- PayloadSchema.ReportIsExact: schemas are objects, scalars and arrays of those under fewer than eight wrappers, which covers the payload schema; arrays of arrays are not inspected by the code either.
- ExportImport.ExportImports: `localeCompare` is a fixed total order on keys, and the two secret patterns are parameters.
- VersionStore.Versions.Publish: the model, tool and release gates are predicates on the normalised payload; lineage, retirement and rollback are left out.
- Template installs that carry a brand: the installed copy omits a field its hash covers.
- Compatibility.EvaluateBatch: an authority answers the same throughout one call; the wording of the reasons is left out.
- Releases.CompareVersions: the pattern that parses a version label is a parameter.
- Budgets.BudgetPlane.EvaluateBudgets: a failure between sending an alert and recording it is left out.
- Price catalog caching, invoices, entitlements, residency, feature flags, PII patterns, moderation and token authentication: independent of the guarantees above or one-branch checks.
