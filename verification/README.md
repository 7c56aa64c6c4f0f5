# agy-pool: verified models

agy-pool keeps a pool of accounts, forwards requests to an upstream through one of
them, and reports what was used. This project models the parts of it whose correctness
depends on more than one function at a time, and proves what they promise over every
input, every run or every interleaving. `dafny verify dfyconfig.toml` verifies all of it.

**Token usage.** `Wire` is the decoder of the protobuf wire format: byte loops proved
against a positional definition, round trips both ways, and a prefix law that makes
concatenation of buffers mean concatenation of field lists; `WireMeaning` says what the bytes
mean bit by bit and under which numbers. `Aliases` gives the partition of
generation identities that usages induce and proves it to be connectivity through shared
usages; `AliasOrders` says exactly which sets of usages have an order that fails and
which have one that succeeds; `AliasTables` is the parent table with recursive path compression, proved to hold
exactly that partition. `Reader` is the two passes over a conversation, `Merge` proves what
its records are: one per identity, each counter the maximum over the identity's usages,
independent of order and repetition. `Generations` says the same of the rows alone: which usages
share a record, what it holds, and when a conversation is refused. `UsageLedger` holds the tables and their three
transactions, `LedgerRuns` the invariants that `Verify` looks for over every reachable ledger,
and `Service` the ingest loop and the agreement of incremental with forced scanning.
`LedgerContents` gives the tables row by row, `Skipping` which conversations a scan skips.

**Routing.** `Capacity` computes what is left of an account's quota, with paces that may be minus
infinity. `Scheduler` splits candidates into tiers and sorts them; any stable sort is shown to
be the one used. `Ordering` proves the layout, `Positions` who is earlier in terms of
the accounts' data, `RoundRobin` the fairness of the persisted cursor,
`Audit` that the independent routing auditor and the scheduler agree exactly up to failover.
`Proxy` is one request walking the candidates, with a commit state that gates every further
dispatch; its answers are arbitrary, and `Answers` says by status and text which of them move the
request on and what the client is sent. `Routing` joins the three: what is dispatched for a
generation request is the scheduler's order, and its failovers are what the auditor judges.

**Concurrency.** `TokenRefresh` and `QuotaRefresh` are interleaved steps of any number of workers with
anything else writing to the pool in between; `Grants` says what a refresh decides and what its answer
leaves in the store. `TwoStore` is the account manager, which keeps a database and a token file in
agreement under injected failures and rollbacks, `Selections` what a target selects and what is left.

**Backup and restore.** `Backup` is the block cipher of encrypted bundles over abstract
primitives, `Keystream` its bytes with every input of the primitives written out, `Import` the
merge and replacement of accounts and the allocation of IDs, `ImportedFields` the accounts it leaves.
`BrainTree` stages and verifies a directory tree, `Restore` is the staged publication step by step,
and `RestoreRuns` proves what holds however others change the disk between its steps. `RestoreVerdicts`
says what a status tells and what verification accepts.

`Common` holds what these share. Integers are unbounded; where the program's 64-bit
counters wrap, the model wraps them explicitly.

Some promised properties do not hold of the code as they stand. Each has an input on which
it fails and, over all inputs, the exact condition under which it holds:

- The documented sums of a record, and with them Verify's sum checks, hold exactly when they
  fit in 64 bits: `Reader.NormalizeIsExact`, `Merge.TotalsAreExactUnlessWrapping`,
  `LedgerRuns.DiscrepanciesAreWraps`. `LedgerRuns.WrappedTotalIsReported` is one ingest of
  counters the database accepts after which Verify reports a total.
- Whether linking aliases fails may depend on the order of the events:
  `Aliases.FailureDependsOnOrder`. Some order fails exactly when two response IDs are connected,
  or two provider IDs are connected by usages without response IDs
  (`AliasOrders.SomeOrderFailsExactly`); some order succeeds exactly when no two response IDs are
  connected and two connected provider IDs always have a response ID in their component
  (`AliasOrders.SomeOrderSucceedsExactly`). Successful orders agree on every root.
- `CommitIngest` counts records it does not store. A completed commit leaves a wrong count
  exactly when it holds a record without tokens: `LedgerRuns.CommitMiscountsExactly`, with
  `LedgerRuns.CommitAloneMiscounts`. The reader filters them, so reachable ledgers count right.
- The auditor calls an attempt a violation exactly when, under max_quota, an earlier attempt of
  the same request went to a better account: `Audit.ViolationMeansFailover` and
  `Routing.AttemptsAreJudgedByFailover`, with `Audit.FailoverCanBeViolation`.
- After a call of the account manager whose rollback, if any, succeeded, the stores agree
  exactly as `TwoStore.AgreementExactly` says: after a successful switch when the selected
  account's ID reads back, after a rolled-back one when the active ID does. An ID reads back
  when, trimmed, it is the number of its own place in the list, or is no number and no earlier
  account has it as ID, email or name. `TwoStore.DigitsIdBreaksIdentity` and
  `TwoStore.RollbackCanPart` part the stores.
- A restore reads the manifest twice and compares the two readings by archive ID and snapshot
  hash. The database is named by the first and the brain by the second, so a restored run puts
  both under one conversation ID, as `docs/AGY_DB.md` has it, exactly when both readings give
  the same one: `RestoreRuns.TargetsAgreeExactly`, with `RestoreRuns.TargetsMayDisagree`. The
  model follows the code.

## Model

| member | source | states |
|---|---|---|
| Wire.ReadVarint | internal/tokei/proto.go:32-46 | The byte loop, which shifts within 64 bits and accumulates by bitwise or, returns the base-128 value of the bytes up to the first without continuation bit, modulo 2^64, with its length; it is truncated exactly when the bytes end first and overflows exactly after ten continuation bytes |
| Wire.OrOfDisjointBitsIsSum | internal/tokei/proto.go:39 | A number below 2^n and a multiple of 2^n have their sum as bitwise or, which is what the accumulator and the shifted digit are at every turn of the loop |
| Wire.AccumulateDigit | internal/tokei/proto.go:39-43 | One turn of the loop extends the value by one digit modulo 2^64, the wrapping tenth byte included |
| Wire.VarintRoundTrip | internal/tokei/proto.go:32-46 | Every 64-bit value, encoded canonically and followed by any bytes, decodes to itself and its length |
| Wire.VarintPrefixStable | internal/tokei/proto.go:32-46 | A varint that decodes does not depend on the bytes after it |
| Wire.VarintCanonicalShorter | internal/tokei/proto.go:32-46 | The canonical encoding is never longer than the bytes a value was decoded from |
| Wire.ReadPayload | internal/tokei/proto.go:74-108 | The payload switch at an offset agrees with decoding the remaining bytes by themselves, in value, length and every error |
| Wire.DecodeFields | internal/tokei/proto.go:49-114 | The offset loop returns the fields of the whole blob in order, or the first error, with the size and depth limits checked first |
| Wire.FieldsRoundTrip | internal/tokei/proto.go:49-114 | Any list of fields with numbers 1 to 2^29-1 and wire types 0, 1, 2 and 5, encoded within the size limit, decodes to itself |
| Wire.FieldPrefixStable | internal/tokei/proto.go:60-112 | A field that decodes does not depend on the bytes after it |
| Wire.Concatenation | internal/tokei/proto.go:49-114 | If a buffer decodes and the concatenation is within the limit, the concatenation decodes to its fields followed by whatever the second buffer decodes to, errors included |
| Wire.Canonicalization | internal/tokei/proto.go:49-114 | Whatever decodes re-encodes to at most as many bytes, which decode to the same fields |
| Wire.ParseModelUsage | internal/tokei/proto.go:182-237 | The assignment loop keeps, for every field of a usage, the last value the message carries |
| Wire.UsageRoundTrip | internal/tokei/proto.go:182-237 | A usage message sent field by field is read back unchanged |
| WireMeaning.VarintMeaning | internal/tokei/proto.go:32-46 | A varint is read exactly when it ends within ten bytes; bit 7i + j of its value is bit j of byte i, bits above 63 are dropped; it is truncated exactly when at most ten bytes all continue and overflows exactly when ten of more do |
| WireMeaning.FieldsLie | internal/tokei/proto.go:60-110 | How a decoded field lies in the bytes: the tag is eight times the number plus the wire type, and a varint, eight bytes, a length with as many bytes, or four bytes follow for wire types 0, 1, 2 and 5 |
| WireMeaning.CutFieldIsTruncated | internal/tokei/proto.go:60-110 | An encoded field cut anywhere inside is reported as truncated |
| WireMeaning.CutMessageIsTruncated | internal/tokei/proto.go:49-114 | So is a message that ends inside a field, whatever complete fields come before |
| WireMeaning.LimitsExactly | internal/tokei/proto.go:50-56 | The recursion error comes exactly from a depth above ten, the size error exactly from a blob above 100 MiB within that depth |
| WireMeaning.UsageNumbers | internal/tokei/proto.go:190-234 | Which field numbers carry which counters and identities of a usage: each is the value last sent under its number and wire type, zero or empty when none was |
| Aliases.RootsAreComponents | internal/tokei/reader.go:221-283 | After a successful linking two identities have one root if and only if they are connected through shared usages |
| Aliases.RootIsGreatest | internal/tokei/reader.go:233-262 | The root is the lexically greatest identity of its component |
| Aliases.PrefixesAreOrdered | internal/tokei/reader.go:234-249 | Lexical order puts responses above providers and providers above messages |
| Aliases.RootsIgnoreOrder | internal/tokei/reader.go:263-283 | All event orders that succeed, with any repetitions, give every identity the same root |
| Aliases.NoAmbiguousComponent | internal/tokei/reader.go:233-263 | A linked component never holds two response IDs, nor two provider IDs unless its root is a response |
| Aliases.FailureDependsOnOrder | internal/tokei/reader.go:252-256 | Three usages exist that link in one order and fail in another |
| Generations.RefusalMeansAmbiguity | internal/tokei/reader.go:233-283 | On the rows alone: a conversation is refused only if a chain of shared IDs joins two usages with different response IDs or different provider IDs, and always if it joins two with different response IDs |
| AliasOrders.SomeOrderFailsExactly | internal/tokei/reader.go:233-283 | Some order of a set of usages fails if and only if two response IDs are connected, or two provider IDs are connected by usages without response IDs |
| AliasOrders.SomeOrderSucceedsExactly | internal/tokei/reader.go:233-283 | Some order succeeds if and only if no two response IDs are connected and every two connected provider IDs have a response ID in their component; the order that succeeds links each component outwards from its response |
| AliasOrders.OrderMattersExactly | internal/tokei/reader.go:233-283 | The outcome depends on the order if and only if two provider IDs are connected by usages without response IDs, any such pair has a response ID in its component, and no two response IDs are connected |
| AliasTables.AliasTable.constructor | internal/tokei/reader.go:221-223 | The empty table holds the partition without any identity |
| AliasTables.AliasTable.Root | internal/tokei/reader.go:223-231 | Registers an unseen identity, follows and compresses the parent chain, returns the root of the partition and changes no identity's root; chains strictly increase, so it terminates |
| AliasTables.AliasTable.Join | internal/tokei/reader.go:250-261 | Joins exactly the classes of two identities unless their roots clash, and otherwise changes nothing |
| AliasTables.AliasTable.Link | internal/tokei/reader.go:233-263 | Joins all identities of a usage, or reports an ambiguity exactly when the specification does |
| AliasTables.Compress | internal/tokei/reader.go:229 | Pointing an identity straight at its root leaves every root as it was |
| AliasTables.AttachIsUnion | internal/tokei/reader.go:257-261 | Attaching the lesser root under the greater one moves exactly the lesser root's class |
| Reader.NormalizeIsExact | internal/tokei/types.go:40-52 | Normalizing meets both documented sums if and only if they fit in 64 bits, and is idempotent |
| Reader.TakeMaxima | internal/tokei/reader.go:345-378 | The merge branch takes the larger of every counter and the earlier timestamp, then normalizes |
| Reader.Collector.constructor | internal/tokei/reader.go:218-221 | A collection starts without records or links |
| Reader.Collector.LinkEvents | internal/tokei/reader.go:264-283 | Links every usage of a table, retries after each, stopping at the first ambiguity |
| Reader.Collector.Upsert | internal/tokei/reader.go:285-379 | A usage without tokens changes nothing; otherwise its identity gets a new record, listed last, or the maxima with its record |
| Reader.Collector.UpsertEvents | internal/tokei/reader.go:382-399 | Upserts the usages of a table in row order |
| Reader.Collector.Records | internal/tokei/reader.go:401-407 | Returns the token-bearing records in order of first appearance |
| Reader.ReadConversation | internal/tokei/reader.go:214-407 | All links are made before any record; the records are those of both tables in order, or none on an ambiguity |
| Merge.OneRecordPerGeneration | internal/tokei/reader.go:285-407 | The records have distinct IDs, exactly the identities with token-bearing usages have one, and each sums up all usages of its identity; the final filter drops none |
| Generations.RecordsAreGenerations | internal/tokei/reader.go:214-407 | On the rows alone: every token-bearing usage has one record and no other usage has one; two usages with IDs share a record if and only if a chain of usages, each sharing a response, provider or message ID with the next, joins them; two without IDs if and only if their step indices are equal; one with and one without never; each record sums up exactly the usages that have it and is named after the greatest ID on such chains, or its conversation and step |
| Generations.RecordsInOrder | internal/tokei/reader.go:325-407 | The records stand in the order in which their generations first appear, each with the step index of the usage that began it |
| Generations.ReadingOrder | internal/tokei/reader.go:382-399 | The usages are taken row by row, each row's retries after its usage |
| Merge.MergeSumsUp | internal/tokei/reader.go:345-378 | If a record sums up a set of usages, merging one more makes it sum up the larger set, maximum by maximum |
| Merge.TotalsAreExactUnlessWrapping | internal/tokei/types.go:40-52 | Total output is the larger of the largest reported total and largest visible plus largest reasoning, and the total is input plus cache reads plus output, if and only if that fits in 64 bits |
| Merge.ReadingIgnoresOrder | internal/tokei/reader.go:214-407 | Two readings of the same usages, in any order and with any repetitions, have the same generations, timestamps and component maxima, and the same totals unless they wrap |
| UsageLedger.Ledger.constructor | internal/tokei/ledger.go:121-289 | A new ledger has empty tables |
| UsageLedger.Ledger.CommitIngest | internal/tokei/ledger.go:354-499 | Succeeds exactly when no database error occurs and no generation ID is taken; then exactly this conversation's rows are replaced by its token-bearing records and its manifest holds the counts and the first and last timestamp; otherwise nothing changes |
| UsageLedger.Ledger.RecordScanFailure | internal/tokei/ledger.go:502-536 | Notes the failure in the manifest and leaves records and every other manifest field alone |
| UsageLedger.Ledger.SyncCatalog | internal/tokei/ledger.go:558-650 | Relabels every stored record of a catalogued conversation and replaces its metadata, in whatever order the catalog is walked, or changes nothing |
| LedgerRuns.ReaderRecordsAreStored | internal/tokei/ledger.go:392-423 | What the reader returns is stored record for record: none is skipped, none is changed by normalizing, and no two share an ID |
| LedgerRuns.CommitKeepsLedgerOk | internal/tokei/ledger.go:354-499 | Committing what the reader returns keeps the ledger's invariant, stores exactly it, and leaves other conversations' rows alone |
| LedgerRuns.StepKeepsLedgerOk | internal/tokei/ledger.go:354-650 | Every ingest, scan failure or catalog synchronization keeps the invariant, whether it commits or fails |
| LedgerRuns.ReachableLedgersVerify | internal/tokei/ledger.go:754-839 | In every state reachable from the empty ledger Verify finds no duplicate generation ID and no completed manifest with a wrong count, and no discrepant sum exactly when no stored row wraps |
| LedgerRuns.DiscrepanciesAreWraps | internal/tokei/ledger.go:783-807 | Among normalized rows the two sum checks of Verify report exactly the rows that do not fit in 64 bits |
| LedgerRuns.CommitMiscountsExactly | internal/tokei/ledger.go:370-428 | A completed commit leaves a manifest that Verify reports if and only if one of its records has no tokens, and changes the verdict on no other conversation |
| LedgerContents.CommittableExactly | internal/tokei/ledger.go:390-428 | A commit is acceptable if and only if every record is the conversation's own, no two records with tokens have one generation ID, and no stored row of another conversation has it |
| LedgerContents.CommitStoresExactly | internal/tokei/ledger.go:354-499 | Afterwards the conversation's rows are those of its records with tokens, in order, with output and total made anew modulo 2^64; every other conversation's rows are as before |
| LedgerContents.CommittedSource | internal/tokei/ledger.go:425-475 | The committed manifest has the higher of the old and the new highest step and generation, and otherwise the source as it was read |
| LedgerContents.CommitSpansUsage | internal/tokei/ledger.go:391-426 | The first and last usage time of a commit are the least and the greatest of its stored rows, a missing time counting as the least of all |
| LedgerContents.HighestNeverFalls | internal/tokei/ledger.go:456-465 | Over every run a conversation's highest step and generation never fall |
| LedgerContents.SyncLabels | internal/tokei/ledger.go:558-650 | A catalog synchronization gives every row of a catalogued conversation its workspace and project, unknown for a blank one, changes nothing else in any row or manifest, and replaces just the catalogued metadata |
| LedgerContents.VerifyExactly | internal/tokei/ledger.go:754-839 | Each of Verify's four counts is zero if and only if its rule holds of all rows: both sums, distinct generation IDs, and as many rows as every completed manifest says |
| LedgerRuns.CommitAloneMiscounts | internal/tokei/ledger.go:393-427 | Such a commit exists outside the reader |
| LedgerRuns.WrappedTotalIsReported | internal/tokei/ledger.go:796-807 | One ingest of input and cache counters of 2^63-1 and output 2 is a run after which Verify reports a discrepant total |
| Service.IngestOne | internal/tokei/service.go:195-234 | One database is read and committed or noted as failed, and is counted exactly once: as ingested exactly when it was committed, and then as completed exactly when the read was complete |
| Service.IngestAll | internal/tokei/service.go:163-235 | Every discovered database ends up skipped, ingested or failed; the counters are the numbers of databases the scan skipped, committed as complete, committed as active, and could not ingest |
| Skipping.LastOperationDecides | internal/tokei/service.go:176-222 | Over every run of the ledger: after the last operation on a conversation an incremental scan skips it if and only if that was a commit of a complete read and size, time and WAL are as then; after a noted failure it is always read again |
| Skipping.CommittedIsSkipped | internal/tokei/service.go:176-193 | A committed conversation is skipped if and only if it was read completely and is unchanged, and its status is completed or active accordingly |
| Skipping.FailedIsRetried | internal/tokei/ledger.go:502-536 | A noted failure keeps the good status and source, records the message and rules skipping out; a first failure leaves an empty failed manifest |
| Skipping.TurnSkipsExactly | internal/tokei/service.go:167-222 | Skipping changes nothing, and a conversation that does not allow it is read as in a forced scan |
| Skipping.TurnEndsExactly | internal/tokei/service.go:167-235 | A turn skips, commits when the conversation can be read and committed, and otherwise notes the failure, unless the ledger cannot be written, with rows and other manifests as they were |
| Skipping.SnapshotTells | internal/tokei/reader.go:409-440 | A read is complete if and only if size and time did not move and no WAL was left |
| Skipping.RecordsAreLabelled | internal/tokei/reader.go:145-152 | Every record carries its conversation's catalog labels, and without an entry no workspace and the project unknown |
| Service.ExtractIgnoresLabels | internal/tokei/reader.go:285-407 | Catalog labels influence neither which records are read nor what they count |
| Service.SkippedTurnAgrees | internal/tokei/service.go:176-193 | A conversation that the skip check passes over would, when re-read and recommitted, be accepted and store the same tokens |
| Service.ReadTurnAgrees | internal/tokei/service.go:195-222 | Two ledgers with the same tokens still have the same tokens after both read a conversation, which may change between the stat and the read, under any database errors |
| Service.ScansAgree | internal/tokei/service.go:167-235 | A whole incremental scan and a whole forced scan, from ledgers with the same tokens, end with the same tokens; conversations that are not skipped may change at any time |
| Service.IncrementalAgreesWithForced | internal/tokei/service.go:167-235 | Over every history of scans and catalog changes, skipping unchanged conversations stores the same generation IDs and token counters as re-reading everything |
| Service.FailureKeepsLastGoodState | internal/tokei/service.go:167-222 | A failed stat, or for a conversation that is not skipped a failed or undecodable read, an ambiguity, a database error or a taken generation ID, leaves all rows and metadata and every manifest except the last scan's status and message; a turn without such a failure skips or commits what was read |
| Service.FailedConversationIsKept | internal/tokei/service.go:167-235 | Over a whole scan, a conversation whose turn fails for whatever reason has the same rows, good status, counts and source in its manifest afterwards as before, whatever the turns of other conversations did |
| Proxy.ResponseCommitter.constructor | internal/proxy/commitment.go:56-64 | A committer starts uncommitted and without a status |
| Proxy.ResponseCommitter.WriteHeader | internal/proxy/commitment.go:86-94 | The first status written commits and stays |
| Proxy.ResponseCommitter.Write | internal/proxy/commitment.go:97-104 | Writing bytes commits |
| Proxy.ResponseCommitter.MarkStream | internal/proxy/commitment.go:107-111 | Marks the response as a committed stream |
| Proxy.ResponseCommitter.MarkBody | internal/proxy/commitment.go:114-118 | Marks the response as a committed body |
| Proxy.SendBuffered | internal/proxy/proxy.go:500-515 | A buffered answer commits the body under the first status |
| Proxy.SendStream | internal/proxy/stream.go:13-61 | Commits before copying and reports success, a lost client or a truncation by where the copying ended |
| Proxy.StreamedMeansGood | internal/proxy/stream.go:28-60 | Success is reported if and only if every byte read reached the client, no read broke, and the length is the announced one |
| Proxy.DispatchAccount | internal/proxy/proxy.go:697-1021 | Failing over is chosen exactly for a failed token refresh or a fully read validation, quota or authentication rejection; the client's status, the commit and success are determined for every upstream answer |
| Proxy.HandleProxy | internal/proxy/proxy.go:648-694 | The attempts are the allowed candidates in order, up to the first answer that may not be replayed; the client gets that answer's status, or 503 when all were exhausted, and no response exactly when the last attempt's request could not be built or its transport failed after the client left |
| Proxy.AttemptsMadeMeaning | internal/proxy/proxy.go:653-688 | All attempts but the last ended in an answer that may be replayed, and stopping early means that the last did not |
| Proxy.AllowedIsSelection | internal/proxy/proxy.go:653-656 | Exactly the restricted accounts are passed over for generations, and distinct IDs stay distinct |
| Proxy.NoReplay | internal/proxy/proxy.go:648-695 | In every run an attempt followed by another left the client untouched, was no success, no ambiguous transport failure and no cut body, went to another account, and no restricted account was sent a generation |
| Answers.ReplayableIsRejected | internal/quota/quota.go:435-458 | The answers that may be replayed are, on status and text: a failed refresh, a fully read 401 or 429 of at most 64 MiB, and such a 403 if and only if its text has one of the fourteen markers in any case of letters; nothing else |
| Answers.SentIsClientStatus | internal/proxy/proxy.go:832-1021 | The status each other answer sends: its own when delivered, 502 for an error body above 64 MiB, 504 or 502 for a cut body or failed transport by whether it timed out, none for a client that left |
| Answers.RequestsAreServedInOrder | internal/proxy/proxy.go:648-694 | A whole request: attempts go to the allowed candidates in order, a rejected one is followed by the next while there is one, every other answer ends the request and decides the status, and 503 is sent exactly when every account was rejected |
| Answers.AllowedPositions | internal/proxy/proxy.go:653-656 | The allowed candidates are those in the ascending places whose status is not restricted, all of them when the request is no generation |
| Answers.StreamsExactly | internal/proxy/stream.go:28-60 | A stream counts as a success if and only if its reads up to the proper end are all delivered and none is broken, and have the announced number of bytes |
| Answers.SuccessExactly | internal/proxy/proxy.go:965-1021 | A success is an answer below 300 that was passed on whole |
| Capacity.MinAndSum | internal/quota/quota.go:344-366 | The loops over the known windows return their least value and their sum |
| Capacity.ResetRatio | internal/quota/quota.go:283-308 | The share of a window left before its reset is in (0, 1], and 1 when unknown or past |
| Capacity.CapacityMeaning | internal/quota/quota.go:214-410 | Unknown fractions are never taken for full quota: without any both paces are minus infinity and the account is not depleted, otherwise it is depleted exactly when a known fraction is at or below the threshold; the worst pace lies in [-1, 1) and the total pace in [-2, 2) |
| Positions.FractionsMeaning | internal/quota/quota.go:214-282 | Which data the fractions are read from: explicit windows first, else one legacy fraction for both windows, else legacy percentages, each clamped to the unit interval |
| Positions.PacesMeaning | internal/quota/quota.go:266-366 | The paces and the floor in terms of the data: a window's pace is its fraction less the share of its 18000 or 604800 seconds that is left, the worst pace the lesser, the total their sum |
| Positions.FreshnessMeaning | internal/quota/quota.go:117-171 | Rank 0 exactly without an update time, 1 exactly when the data is older than five minutes or a window has been reset since, otherwise 2 |
| Positions.TierMeaning | internal/scheduler/scheduler.go:19-72 | The tier of an account by its cooldown and its fractions at 0.5, 15 and 10 percent |
| Scheduler.StableSortIsOne | internal/scheduler/scheduler.go:171-196 | The sort used is a permutation, sorted, and keeps peers in order, for every strict weak order |
| Scheduler.StableSortIsUnique | internal/scheduler/scheduler.go:171-196 | There is only one such result, whatever algorithm computes it |
| Scheduler.MaxQuotaIsStrictWeak | internal/scheduler/scheduler.go:141-169 | The max_quota comparator is a strict weak order, paces of minus infinity included |
| Scheduler.LeastUsedIsStrictWeak | internal/scheduler/scheduler.go:75-109 | The least_used comparator is a strict weak order and ties only equal IDs |
| Scheduler.DepletedIsStrictWeak | internal/scheduler/scheduler.go:185-196 | The comparator of depleted accounts is a strict weak order |
| Scheduler.StartAfter | internal/scheduler/scheduler.go:111-127 | The rotation starts after the first account with the cursor's ID, and at the head without one |
| Scheduler.SplitTiers | internal/scheduler/scheduler.go:54-72 | The first pass splits the non-nil unrestricted candidates by tier, each slice in input order |
| Scheduler.SplitReserve | internal/scheduler/scheduler.go:130-139 | Splits the eligible accounts into healthy and reserve, each in input order |
| Scheduler.OrderCandidates | internal/scheduler/scheduler.go:49-203 | Appending the slices after sorting or rotating them is the order the properties below are about |
| Ordering.OrderIsPermutation | internal/scheduler/scheduler.go:49-203 | The result is a permutation of the non-nil unrestricted candidates |
| Ordering.OrderRespectsTiers | internal/scheduler/scheduler.go:49-203 | Eligible accounts precede depleted ones and those precede cooling ones; under max_quota every healthy account precedes every reserve one |
| Ordering.MaxQuotaPartsAreSorted | internal/scheduler/scheduler.go:129-182 | Under max_quota the healthy and the reserve part are each the stable sort of that tier |
| Ordering.LeastUsedPartIsSorted | internal/scheduler/scheduler.go:75-109 | Under least_used the eligible part is the stable sort of the eligible accounts |
| Ordering.LaterPartsAreSorted | internal/scheduler/scheduler.go:184-202 | Under every strategy the depleted part is the stable sort of the depleted accounts, and the cooling part, last, keeps the input order |
| Positions.MaxQuotaPositions | internal/scheduler/scheduler.go:141-182 | Among the healthy, and among the reserve accounts, an earlier one is never beaten by a later one: more known windows win, then fresher data, larger worst pace, total pace and floor, then fewer hits |
| Positions.LeastUsedPositions | internal/scheduler/scheduler.go:75-109 | Under least_used the same among the eligible accounts, by fewer hits first, then the capacity as above, then the lesser ID |
| Positions.DepletedPositions | internal/scheduler/scheduler.go:184-196 | Under every strategy the same among the depleted accounts, by the larger floor, then fewer hits |
| Positions.ComparatorsMeaning | internal/scheduler/scheduler.go:75-196 | The three comparators are exactly these relations, so ties are exactly the accounts equal in all of them |
| Positions.TiersKeepOrder | internal/scheduler/scheduler.go:54-72 | A tier slice takes its accounts from the input in order |
| Positions.SelectionKeepsOrder | internal/scheduler/scheduler.go:54-58 | The selection keeps the input order and drops just nil and restricted candidates |
| Ordering.LeastUsedIgnoresInputOrder | internal/scheduler/scheduler.go:75-109 | With distinct IDs the eligible part under least_used is the same for every input order and cursor |
| RoundRobin.StateDB.ReserveRoundRobinCandidates | internal/storage/db.go:356-382 | One transaction orders the candidates by the stored cursor and moves it to the one put first, or changes nothing |
| RoundRobin.Rotates | internal/storage/db.go:356-382 | The k-th of consecutive reservations puts the account k places after the start first, wrapping around |
| RoundRobin.RoundRobinIsFair | internal/scheduler/scheduler.go:111-127 | Any n consecutive reservations over n eligible accounts, from any cursor, a stale or absent one included, put each of them first exactly once |
| RoundRobin.NextInTurn | internal/scheduler/scheduler.go:111-127 | After an account's turn comes that of the next eligible one in pool order, after the last one's that of the first |
| RoundRobin.ReservationExactly | internal/scheduler/scheduler.go:111-127 | The whole eligible order is the accounts after the cursor's, then those up to it; without such an account the pool order |
| Audit.BuildContext | internal/proxy/proxy.go:618-646 | The selection context lists exactly the candidates the router would take as healthy and as reserve |
| Audit.NamesExactly | internal/proxy/proxy.go:618-646 | Each list names exactly the candidates of its class that are neither restricted nor cooling down, once each and in order |
| Audit.ClassesExactly | internal/proxy/proxy.go:743-752 | The frozen class by the fractions: depleted, reserve, unknown exactly without any, healthy otherwise |
| Audit.Evaluate | internal/diagnostics/routing_audit_eval.go:215-316 | An event is a violation exactly when max_quota chose a reserve account although another healthy candidate is listed or any is counted, or a depleted one although any healthy or reserve candidate is; it is a warning exactly for an unknown classification under max_quota |
| Audit.ViolationMeansFailover | internal/diagnostics/routing_audit_eval.go:215-316 | For every pool, time and strategy, attempt k is judged a violation if and only if max_quota is in force and an attempt before it went to a better account |
| Audit.FirstAttemptIsNeverViolation | internal/diagnostics/routing_audit_eval.go:215-316 | The event frozen for the first dispatch of a generation is never a violation |
| Audit.FailoverCanBeViolation | internal/diagnostics/routing_audit_eval.go:298-305 | With one healthy and one depleted account the second attempt is a violation under max_quota |
| Routing.DispatchFollowsOrder | internal/proxy/proxy.go:569-580 | For a generation request the handler passes over none of the candidates the scheduler gives it |
| Routing.AttemptsAreJudgedByFailover | internal/proxy/proxy.go:648-689 | Attempt k of a generation request goes to the k-th account of the scheduler's order, and its event is a violation if and only if max_quota is in force and an earlier attempt of the request, which failed over, went to a better account |
| TokenRefresh.FindIndex | internal/storage/storage.go:245-255 | Finds the first account with the same non-empty ID or the same non-empty email, and nothing exactly when there is none |
| TokenRefresh.RunKeepsConsistent | internal/auth/auth.go:230-387 | In every interleaving each lock has at most one holder and every request in flight was made with the pair its holder remembers |
| TokenRefresh.RefreshOnlySwapsTokens | internal/auth/auth.go:353-376 | No step of a refresh adds, removes or renames an account; the pool changes only by storing tokens on the one account whose stored pair still is the pair the request was made with |
| TokenRefresh.FailureRestoresCopy | internal/auth/auth.go:306-380 | Over every run, from the request on: a refresh that fails leaves the caller's copy exactly as the request was made with, whatever happened in between, and one that succeeds leaves the token it returns |
| TokenRefresh.RefreshStepRemembers | internal/auth/auth.go:353-380 | The step that ends a refresh restores the copy on failure, and on success returns a token the pool then holds |
| Grants.GrantIsStored | internal/auth/auth.go:258-376 | Over every run a refresh that succeeds had its request made at a re-read and answered with a grant, and stores on the account that still had the pair used: the granted access token, the granted refresh token or else the one used, and an expiry counted from the re-read, by an hour when no life time came; nothing else in the pool changes |
| Grants.PersistExactly | internal/auth/auth.go:362-376 | The store accepts the tokens if and only if the transaction commits and the first matching account still has the request's pair; then the call returns the token, otherwise the copy is restored and the pool untouched |
| Grants.RereadExactly | internal/auth/auth.go:258-303 | The copy adopts what is stored; the call returns a token with more than 120 seconds left, fails without a stored account or refresh token, and otherwise goes out with the adopted pair |
| Grants.StartExactly | internal/auth/auth.go:230-247 | A call returns a fresh copy's token at once, fails without a refresh token, and otherwise waits for the lock |
| Grants.OneRefreshPerAccount | internal/auth/auth.go:248-258 | In every run two refreshes past their locks never have the same ID, nor without IDs the same email |
| Grants.LocksAreGivenBack | internal/auth/auth.go:258-387 | In every run a waiting call can take its lock if and only if no other call under way has its key: every ending gives the lock back |
| TokenRefresh.NoCallInsideMargin | internal/auth/auth.go:258-308 | Once a refreshed token is stored, no later lock holder that resolves to that account calls upstream while more than 120 seconds are left, unless something else changed this account's stored access token or expiry or removed it; logins, removals and updates of other accounts do not matter |
| TokenRefresh.OtherAccountsMayChange | internal/storage/storage.go:207-255 | A pool write that keeps the account the first match and its token as they were is no interference, whatever else it changes |
| TokenRefresh.RequestsAreJustified | internal/auth/auth.go:260-308 | In every run each request that is out was made at a re-read that found the account stored, with a refresh token and without an access token beyond the margin |
| QuotaRefresh.WaitsGrowToACap | internal/quota/quota.go:413-421 | The wait after consecutive failures never decreases, starts at 30 seconds and stays at 300 from the fifth on |
| QuotaRefresh.RunInvariant | internal/quota/refresh.go:424-485 | In every interleaving there is one worker per key in flight and the retry table tells the failures in a row and when the next start is allowed |
| QuotaRefresh.SingleFlight | internal/quota/refresh.go:441-459 | Two running workers never have one key, and none starts while one is in flight |
| QuotaRefresh.StartsObeyBackoff | internal/quota/refresh.go:441-481 | A worker starts if and only if none is in flight for the key and the wait after its k-th failure in a row is over; success resets it |
| QuotaRefresh.StartsExactly | internal/quota/refresh.go:441-481 | On the history alone: a schedule starts a worker if and only if none works for its key and the last of k failures since the last success is at least 30, 60, 120, 240 or, from the fifth, 300 seconds old |
| TwoStore.AccountManager.constructor | internal/storage/storage.go:180-203 | The manager works on given stores |
| TwoStore.AccountManager.SyncAccountToAgy | internal/accounts/accounts.go:277-290 | Writes the account into the token file or leaves the file as it was |
| TwoStore.AccountManager.SwitchAccount | internal/accounts/accounts.go:386-466 | Both stores and the outcome, for every target and every injected failure, rollback included |
| TwoStore.AccountManager.RemoveAccount | internal/accounts/accounts.go:305-371 | Both stores and the outcome of a removal; a replacement reaches the file before the active account leaves the pool |
| TwoStore.AccountManager.SyncActive | internal/accounts/accounts.go:219-275 | Whatever pools its at most three attempts find, it succeeds exactly when an attempt finds the active account unchanged by the refresh after earlier ones found it changed, then the file holds the active account as last read; otherwise the file is untouched; without other writers it is the synchronization of the other results |
| TwoStore.IdSelectsItself | internal/accounts/accounts.go:92-116 | In a pool whose IDs are unique, not digits, and no one's name or email, an ID selects its own account |
| Selections.PositionsSelect | internal/accounts/accounts.go:92-105 | A decimal number selects the account in that place, counted from one, and nothing outside the list |
| Selections.NamesSelect | internal/accounts/accounts.go:106-116 | Any other text selects the first account that has it as ID, email or name |
| Selections.SwitchActivates | internal/accounts/accounts.go:386-466 | Switching to an ID of a valid pool succeeds if and only if neither the synchronization nor the transaction fails, and then that account is the active one and the one in the file; otherwise the pool is as before |
| Selections.RemovalTakesOut | internal/accounts/accounts.go:305-371 | Removing an ID takes out that account and no other, and exactly an active one is replaced, in both stores, by the first of the others |
| TwoStore.OperationKeepsIdentity | internal/accounts/accounts.go:219-466 | Unless its rollback reports failure every operation keeps the file and the active account in agreement, and a successful switch or synchronization brings them into agreement from any state |
| TwoStore.IdentityHoldsOverRuns | internal/accounts/accounts.go:219-466 | Over every sequence of operations with any failures, since the stores last agreed and without a failed rollback, an active account is the one the token file holds |
| TwoStore.AgreementExactly | internal/accounts/accounts.go:219-466 | For any pool at all, every operation and every failure but a failed rollback, the stores agree afterwards if and only if nothing was written and they agreed before, or what was written leads back: the selected ID after a successful switch, the active ID after a rollback |
| TwoStore.ReadingIsFinding | internal/accounts/accounts.go:92-116 | An ID selects an account with that ID if and only if, trimmed, it is the number of such an account's place, or is no number and the first account with it as ID, email or name has that ID; and it selects nothing exactly when blank, out of range or carried by no account |
| TwoStore.SwitchAgreesExactly | internal/accounts/accounts.go:449-456 | After a successful switch the stores agree if and only if the selected account's ID reads back |
| TwoStore.RollbackCanPart | internal/accounts/accounts.go:441-464 | With an active ID made of digits a failed switch whose rollback succeeds parts the stores although the selected ID reads back |
| TwoStore.DigitsIdBreaksIdentity | internal/accounts/accounts.go:92-116 | With an ID made of digits a successful switch can part the stores |
| Backup.PutUint64 | internal/accounts/crypto.go:64 | The counter fills the last eight bytes, most significant first, and leaves the nonce in the first sixteen |
| Backup.CryptBlock | internal/accounts/crypto.go:69-76 | One block writes exactly its own bytes, each combined with its own keystream byte |
| Backup.CryptBlocks | internal/accounts/crypto.go:56-77 | The block loops cover every byte exactly once, the short last block included |
| Backup.EncryptBundle | internal/accounts/crypto.go:37-94 | Returns the sealed bundle, with random salt and nonce where none is given |
| Backup.DecryptBundle | internal/accounts/crypto.go:97-165 | A plaintext comes out if and only if the bundle is readable, within the iteration limit and its tag is right; format and limit errors are reported exactly for their causes |
| Backup.ApplyIsInvolution | internal/accounts/crypto.go:56-77 | Applying the keystream twice gives the input back, whatever its length |
| Backup.SealedBundleOpens | internal/accounts/crypto.go:97-165 | A sealed bundle meets every condition of opening and opens to its plaintext |
| Backup.RoundTrip | internal/accounts/crypto.go:37-165 | Encrypting and then decrypting with the same password returns the plaintext, for every length, password, salt and nonce |
| Backup.OpenedBundleReseals | internal/accounts/crypto.go:37-165 | Sealing what an authentic bundle opens to, with its salt and nonce, gives its ciphertext and tag again |
| Backup.TagCoversPayload | internal/accounts/crypto.go:79-83 | The tag is one of the salt and of nonce and ciphertext joined: a bundle with the salt, strength and tag of an authentic one is authentic if and only if the primitive gives both joined payloads the same tag, and always when they are equal |
| Backup.PayloadDeterminesParts | internal/accounts/crypto.go:79-83 | Bundles with equal joined payloads have the same nonce and ciphertext if and only if their nonces are equally long |
| Backup.CountersDiffer | internal/accounts/crypto.go:60-67 | No two blocks of a bundle use the same counter block |
| Keystream.ApplyIsStreamed | internal/accounts/crypto.go:56-77 | Byte j of the output is the bitwise exclusive or of byte j of the input and byte j mod 32 of the HMAC of sixteen nonce bytes, zero-padded, and the eight-byte big-endian number j / 32 |
| Keystream.BlocksAreKeyedApart | internal/accounts/crypto.go:60-67 | Every block has such an HMAC input, and two bytes have the same one if and only if they are of one block |
| Keystream.SealedParts | internal/accounts/crypto.go:37-94 | What a sealed bundle decodes to: the format, the derivation name and its 100000 rounds, salt, nonce, the ciphertext so streamed under the first half of the derived key, and the tag under the second half over salt, nonce and ciphertext |
| Keystream.OpenParts | internal/accounts/crypto.go:97-165 | A bundle of such parts opens if and only if its rounds, 100000 when not positive, are at most a million and its tag is the one of its parts, and then to the streamed ciphertext |
| Keystream.XorIsBitwise | internal/accounts/crypto.go:74 | Bytes are combined bit by bit |
| Import.NextAccountID | internal/storage/storage.go:258-273 | The counting loop ends with the least unused positive number, at most the length plus one |
| Import.Pigeonhole | internal/storage/storage.go:266-272 | No more numbers can be taken than there are accounts, which is why the loop ends |
| Import.Pool.constructor | internal/accounts/crypto.go:336 | The import works on a given pool |
| Import.Pool.ReplaceAccounts | internal/accounts/crypto.go:337-415 | The new list is the valid items in order under IDs numbered by their place, with the active account, strategy, cursor and counts it implies |
| Import.Pool.MergeAccounts | internal/accounts/crypto.go:417-481 | The loop with its email map updates, skips or appends as if every lookup searched the current list |
| Import.Pool.ImportPool | internal/accounts/crypto.go:283-488 | Added, updated and skipped add up to the valid items, total is the new length, a merge leaves active account, cursor and strategy alone, and an empty list changes nothing |
| Import.MergeCounts | internal/accounts/crypto.go:417-481 | Every valid item is added, updated or skipped, and the list grows by exactly those added |
| Import.MergeKeepsIdentities | internal/accounts/crypto.go:417-481 | A merge keeps IDs distinct and emails distinct if they were, and keeps the accounts that were there in place under their IDs and emails, untouched when existing ones are skipped |
| Import.MergeBringsTokens | internal/accounts/crypto.go:417-481 | Afterwards every email of a valid item has an account, with the last refresh token the backup has for it unless existing accounts are skipped |
| Import.MergeLeavesOthersAlone | internal/accounts/crypto.go:417-481 | An account whose email no valid item has is entirely unchanged by a merge |
| ImportedFields.ExistingAccounts | internal/accounts/crypto.go:417-453 | Field by field what a merge leaves of an account that was there: the last refresh token, the last access token and expiry, the first name if it had none, its restriction lifted when any item came; of accounts with one email, the last takes it all |
| ImportedFields.AddedAccount | internal/accounts/crypto.go:454-477 | The first item for an email no account has appends an account with the item's fields and a numbered ID nobody has |
| ImportedFields.AddedAccounts | internal/accounts/crypto.go:425-478 | The items after it refresh that account as they would any other |
| Import.ReplaceIsConsistent | internal/accounts/crypto.go:337-415 | A replacement has distinct IDs, one account per valid item, and an active account that is in the list, the named one when it is there, or none when the list is empty |
| ImportedFields.ReplacementHolds | internal/accounts/crypto.go:338-391 | A replacement holds the valid items in order, each with its fields and the ID acc_n of its place |
| ImportedFields.ActiveExactly | internal/accounts/crypto.go:395-411 | The first account with the backup's active email becomes active, else the first account, else none |
| BrainTree.AddParents | internal/inventory/restore.go:373-375 | The loop adds exactly the folders above a path |
| BrainTree.Expect | internal/inventory/restore.go:365-376 | The wanted files and the folders they may need, or a refusal exactly when a path is not below brain/ |
| BrainTree.VerifyRestoredBrain | internal/inventory/restore.go:364-416 | The walk is accepted if and only if every entry is a private folder the files need or a wanted file with its mode, size and hash, no file is seen twice, and all wanted files are seen; comparing the two counts suffices for that |
| BrainTree.WalkMatchesTree | internal/inventory/restore.go:382-415 | The verdict is about the tree and does not depend on the order of the walk |
| BrainTree.TreeIsDetermined | internal/inventory/restore.go:364-416 | Two trees accepted against one manifest are the same tree |
| RestoreVerdicts.BrainExactly | internal/inventory/restore.go:364-416 | In terms of the files: a tree is accepted if and only if it is a 0700 folder holding exactly the listed files, each 0600 with the listed size and hash, in 0700 folders of which each has a listed file below it |
| BrainTree.StageBrain | internal/inventory/restore.go:180-186 | The copying loop fails at the first file that cannot be created and otherwise returns the tree of all files, whatever others do to the staged entries between the copies |
| BrainTree.UndisturbedStaging | internal/inventory/restore.go:180-186 | Left alone, the loop stages exactly the files and their folders |
| BrainTree.StagedBrainVerifies | internal/inventory/restore.go:180-189 | A brain staged completely and left alone is a tree and is accepted |
| BrainTree.StagingSucceedsExactly | internal/inventory/restore.go:180-186 | Staging succeeds if and only if no file's path is another's or runs through it |
| Restore.Attempt | internal/inventory/restore.go:62-253 | One step either fails, which ends the restore with that step's status, or continues it with the next; what is published grows by the two renames only |
| Restore.Preflight | internal/inventory/restore.go:110-146 | The checks before any staging, in order, each with its status and reason |
| Restore.Stage | internal/inventory/restore.go:148-190 | Staging and verification of the database and, when the manifest has one, of the brain |
| Restore.PublishDatabase | internal/inventory/restore.go:197-217 | The rename of the database without replacing, a conflict told from other failures, and its verification in place |
| Restore.PublishBrainTree | internal/inventory/restore.go:219-247 | The rename of the brain without replacing and its verification in place; every failure is a partial publication |
| Restore.Conclude | internal/inventory/restore.go:248-252 | The last look at both roots decides between restored and a partial publication |
| Restore.Restore | internal/inventory/restore.go:62-253 | The result, the disk and the steps taken are those of following the steps until one fails, with the registry taking over the status; nothing is touched when the archive is invalid or the registry unavailable |
| RestoreVerdicts.DatabaseExactly | internal/inventory/restore.go:343-362 | A database is accepted if and only if it is a 0600 file of the size and hash of the manifest's snapshot, with the archive's schema and without any of the three sidecars |
| RestoreVerdicts.VerdictTells | internal/inventory/restore.go:110-253 | Over every run the status tells which kind of step failed, a conflict met at the rename included, and the reason which object it failed on |
| RestoreRuns.PublishedMatchesStatus | internal/inventory/restore.go:192-253 | Published is a prefix of database, brain, and is non-empty if and only if the file outcome is restored or a partial publication |
| RestoreRuns.ReportIsHonest | internal/inventory/restore.go:88-108 | Any exit with something published is restored, partial_publish or registry_failed; registry_failed means exactly that something is published and not recorded, and keeps the file outcome |
| RestoreRuns.RestoredIsVerified | internal/inventory/restore.go:212-252 | A file outcome of restored implies that the database, and the brain exactly when the manifest has one, were published and then verified where they lie, and that the roots were unchanged at the end |
| RestoreRuns.NothingIsReplaced | internal/inventory/restore.go:204-241 | Whatever others do in between, no step of a restore replaces or removes anything in the destination roots, and besides its private staging directories only the two targets are added |
| RestoreRuns.FilesSurvive | internal/inventory/restore.go:204-241 | A file of the conversation root that others leave alone is unchanged at every step and afterwards |
| RestoreRuns.BrainsSurvive | internal/inventory/restore.go:219-241 | The same for the brain root |
| RestoreRuns.ExistingDatabaseConflicts | internal/inventory/restore.go:127-131 | When the target or one of its three sidecars exists and stays, nothing is published, it is kept, and the status is a conflict unless a destination was unsafe before that |
| RestoreRuns.ExistingBrainConflicts | internal/inventory/restore.go:132-134 | The same for a brain that exists under the conversation ID first read and stays: nothing is published, not even the database, and it is kept |
| RestoreRuns.OnlyVerifiedIsPublished | internal/inventory/restore.go:163-241 | As long as nobody else writes into the staging directories only content that passed verification is published |
| RestoreRuns.UndisturbedRestore | internal/inventory/restore.go:62-253 | Left alone, a restore succeeds if and only if the targets are free, the archive is the one verified and its contents are sound, and then the disk holds the manifest's database and brain besides what was there |
| RestoreRuns.PublishedNames | internal/inventory/restore.go:124-241 | A restored run publishes the database under the conversation ID of the first reading only, and the brain under that of the second only |
| RestoreRuns.TargetsAgreeExactly | internal/inventory/restore.go:124-241 | A restored run with a brain puts both under one conversation ID if and only if both readings of the manifest give the same one |
| RestoreRuns.TargetsMayDisagree | internal/inventory/restore.go:143-146 | Two manifests that archive verification accepts, with one archive ID, one snapshot hash, a brain file and a database of a recognised schema, make a restore succeed with the two under different conversation IDs |
| RestoreRuns.AcceptedBrain | internal/inventory/archive.go:852-968 | The brain files of an accepted manifest all lie below brain/, which the undisturbed restore presumes |
| RestoreRuns.SecondReading | internal/inventory/restore.go:136-146 | A restored run read the manifest a second time, with the archive ID and the snapshot hash of the first reading |

## Left out

- Nested step and generation metadata, timestamps inside messages and model or provider names (internal/tokei/proto.go:156-179, 251-430): events arrive decoded.
- Label columns of records beyond workspace and project, clocks and content hashes of the ledger: they carry no tokens.
- Reading the source catalog (internal/tokei/reader.go:28-89): the incremental theorem allows any catalog change or none before each scan, and claims nothing about project and workspace columns.
- Service.IncrementalAgreesWithForced: its premises are that a read which finds size and mtime unchanged and no WAL sees what they stand for; that a conversation the manifests allow to skip still holds, when it would be read, what the size and mtime of the scan's stat stand for; and that a scan meets a conversation once. Conversations that are not skipped may change at any time.
- Wire.VarintRoundTrip: says nothing about distinct encodings of one value; a ten-byte varint with excess high bits decodes to the value without them.
- SQL integers: the driver's refusal of counters above 2^63-1 is one of the database errors that roll a transaction back.
- IEEE rounding and NaN: fractions, paces and times are reals, minus infinity a separate case.
- Parsing of quota fractions and reset times from strings (internal/quota/quota.go:15-107): they arrive as numbers or missing.
- Unicode case folding: lower-casing and case-insensitive comparison are those of ASCII letters. Strings are sequences of Unicode characters; byte strings that are not valid UTF-8 are not part of this model.
- The display name of an account is an arbitrary function in Audit.
- HTTP, TLS, headers, logging and metrics: an upstream answer is an arbitrary value of Proxy.Upstream.
- The answers HandleProxy gives before it has candidates: an unreadable request body, an empty pool, a failed reservation.
- TokenRefresh leaves out the update time and the ID token, which travel with the access token, and the hash that names the lock file.
- Ingest counters for new and total records and durations.
- Candidate selection for requests that are not generations, and the scheduled quota refreshes of HandleProxy.
- How switchAccountLocked scores accounts without a target: the pick is an arbitrary account.
- TwoStore.IdentityHoldsOverRuns: claimed for lock-serialised operations; between them no other writer changes the pool.
- Writing the token file is atomic; paths, symbolic links and permissions of internal/config are not part of this model.
- HMAC, PBKDF2, base64 and random bytes are parameters; decoding is assumed to invert encoding.
- JSON, request counters and creation times of imported accounts.
- The list order of accounts after save and load.
- Verification of the archive itself (internal/inventory/archive.go:852-968): its manifest paths are clean, unique and below brain/ for brain files, so paths are lists of components here and the test for local paths always passes.
- The sorted order in which brain files are copied and expected; what a copy that fails has already put into the staging directory, which is removed afterwards.
- Destination references, IDs and times in the restore result and the registry's row.
- Daemon, installer, terminal output and diagnostics other than the frozen-event auditor.
