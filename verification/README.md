# Verification of the edge router's ledgers, encoders, registry and limiters

The router authenticates requests, records them in hash chains, stores beads through three
separate stores, serves an OCI registry and signs what it streams. This project models the state
machines and encoders behind that and proves what they promise, over every run and every input.

- **Trust ledger and handoff.** `TrustTables` and `TrustStore` hold the attestation and pending
  tables and the retry drain. `BeadHandoff` is a step machine over the blob, bead and trust stores
  with any number of `bead_create` runs and drains interleaved, replies lost and steps cut short;
  `HandoffInvariant` carries its invariant, `HandoffResults` what follows for all runs, `HandoffCounts`
  how often a bead is attested, `HandoffBeads` what holds for requests that carry real beads,
  `HandoffDelivery` what an undisturbed request gets, `HandoffEvidence` what its rows carry;
  `BeadOrchestrator` is the request itself, updating the stores call by call.
- **Lease replay defence.** `LeaseLedger` is the nonce ledger, the alarm and the per-peer hash
  chain as atomic steps; `LeaseGate` is the real sequence under the input gate and refines it;
  `LeaseRecompute` is what a peer can recompute from its own log.
- **Receipt stream.** `ReceiptStream` is the incremental block splitter with its rolling hash,
  against a batch reading of the whole text; `Utf8Decoder` is the decoder it builds for every chunk,
  `Utf8Replacement` its replacement characters.
- **Canonical encoders.** `CanonicalJson`, `CanonicalEncoder`, `BeadCanonical`, `GlobClosure`, `BundleCanonical`,
  `LeaseEnvelope`, `PercentEncoding`, `UrlCanonical`, `UrlQuery`, over `Base64Url`, `Utf8`, `Decimal`,
  `Words`, `Order` and `Sequences`; `CodePointOrder` compares two orders of keys.
- **Registry, limiters, disclosure.** `Registry` is the step machine of pushes and pulls, with
  `RegistryInvariant`, `RegistryResults` and `RegistryDelivery` over it; `Uploads`, `BlobStore`, `PreAuthBudget`,
  `RateWindow`, `Disclosure`, `DisclosureCursor`.

State machines are total functions from a state and an event to a state, where an event that does
not apply changes nothing; results quantify over all event sequences from the empty state.
Fields named `writer`, `inserted`, `appended`, `queued`, `pushed`, `tagWrites`, `served`, `finalized`, `accepted` are history, not
stored data. Hashes, signatures and MACs are function parameters; where a result needs collision
freedom it says so in a premise. Text is UTF-16 code units, except in the URL modules, where the URL
parser delivers ASCII and a character is a unit and a byte at once. SQL `ORDER BY` ties are taken in table order.

Where the code and its own text disagree, the code is followed:

- `src/storage/canonical.ts:84` speaks of code-point order; the sort is by UTF-16 code unit, which
  differs for the keys of `CodePointOrder.OrdersDisagreeExactly`.
- `src/routes/bead-create-orchestrator.ts:394-407` names a failed enqueue as the case that leaves a
  bead unrecorded and says the caller can retry. A lost reply of the insert, a failed head read (line
  356) and a stop in between leave it unrecorded too (`HandoffResults.GapExactly`), and a retry draws a
  new id (line 302), so it creates another bead and leaves the gap (`HandoffBeads.BeadGapExactly`).
- `src/routes/pre-auth-budget.ts:57-60` and `:89-92` call the eviction LRU-like and say a request
  does not evict its own bucket; eviction is by first insertion and can take the caller's own bucket
  (`PreAuthBudget.OwnBucketLostExactly`).
- `src/routes/vault-proxy.ts:172-178` calls the window rolling; it is fixed, so twice the limit fits
  in one window length (`RateWindow.BoundIsAttained`).
- `src/routes/oci-registry.ts:630-633` keeps the session so a finalize can be retried; the refused
  finalize has already appended its body, so only a retry with an empty body works
  (`Uploads.RetrySucceedsExactlyWhenEmpty`).
- `src/routes/receipt-stream.ts:163` says blocks are emitted unchanged; the fresh decoder per chunk at
  line 184 drops a byte order mark at a chunk's start and breaks a code point cut by a chunk's end
  (`ReceiptStream.BytesPassExactly`).
- `src/routes/receipt-stream.ts:171-178` passes an unterminated tail through before the close event,
  which then is not an event of its own (`ReceiptStream.CloseEventStandsAlone`).

Three properties one might expect hold only under a condition, which is given exactly: a bead is
attested once (`HandoffCounts.AttestedOnceExactly`), canonicalizing a path or query twice changes
nothing (`UrlCanonical.ReceivedPathIdempotentExactly`, `UrlQuery.QueryIdempotentExactly`), and a peer
name with colons has a rate bucket of its own (`RateWindow.SharesBucketExactly`).

## Model

| member | source | states |
|---|---|---|
| `HandoffInvariant.NextKeeps` | src/routes/bead-create-orchestrator.ts:313-422 | every step of every run, drain or other caller preserves the global invariant: hashed blobs, rows only for committed beads, linked chains, unique pending keys, every executed append or enqueue recorded; and takes nothing back |
| `HandoffResults.SuccessIsRecordedForever` | src/routes/bead-create-orchestrator.ts:350-422 | over every interleaving, crash and lost reply: a run that returned success has its (peer, digest) in the chain or the pending table, in that state and in every later one |
| `HandoffResults.RowsNameCommittedBeads` | src/routes/bead-create-orchestrator.ts:313-377 | in every reachable state each attestation and pending row names a digest whose blob is stored and whose bead row carries that digest |
| `HandoffResults.EarlyFailureLeavesNoRows` | src/routes/bead-create-orchestrator.ts:317-357 | a run that failed at the blob, bead or head step has no trust row, then or later |
| `HandoffResults.ChainsNeverFork` | src/storage/peer-attestations.ts:240-274 | in every reachable state each chain is numbered 1..n with each row pointing at its predecessor hash (null first), and earlier chains are prefixes of later ones |
| `HandoffResults.AttestedBlobIsTheBead` | src/routes/bead-create-orchestrator.ts:313-319 | if no two byte strings share a digest, the blob an attestation names holds exactly the bytes its run canonicalized |
| `HandoffResults.DrainStepsAreOneRow` | src/trust-store.ts:704-729 | the drain steps of the global machine, run undisturbed, are one iteration of the drain loop, whether or not the gate throws |
| `HandoffResults.RecordedExactly` | src/routes/bead-create-orchestrator.ts:350-392 | in every reachable state a digest is in a peer's chain or the pending table exactly when the trust store executed an append or an enqueue of such a run, whatever reply came back |
| `HandoffResults.GapExactly` | src/routes/bead-create-orchestrator.ts:313-415 | for every ended run whose bead is committed, then and forever: the bead is unrecorded if and only if the run ended at the insert or the head read, or at the enqueue or in a stop with no trust statement executed, and so did every other run of the same claim |
| `HandoffResults.LostInsertReplyIsGap` | src/routes/bead-create-orchestrator.ts:336-348 | from the empty state: the insert commits, its reply is lost, the bead stays unrecorded |
| `HandoffResults.FailedHeadReadIsGap` | src/routes/bead-create-orchestrator.ts:355-357 | from the empty state: a failed head read, or a process that stops after the insert, leaves the bead unrecorded |
| `HandoffResults.FailedEnqueueIsGap` | src/routes/bead-create-orchestrator.ts:383-415 | from the empty state: the append and then the enqueue do not reach the store, or the process stops between them |
| `HandoffDelivery.UndisturbedAppendSucceeds` | src/routes/bead-create-orchestrator.ts:355-381 | from every reachable state, whatever the peer has attested before: a delivered head read followed by a delivered append succeeds, puts the digest at the end of that peer's chain, and touches no other chain and no pending row |
| `HandoffDelivery.AppendedExactlyOnSameHead` | src/routes/bead-create-orchestrator.ts:355-381 | with anything foreign between the head read and the append: the append is executed if and only if the peer's chain ends where it ended at the read; refused, it changes no table |
| `HandoffDelivery.UndisturbedDeferSucceeds` | src/routes/bead-create-orchestrator.ts:383-392 | a delivered enqueue after a failed append succeeds with one pending row of the signed evidence, due half a minute later, unless the key is queued already |
| `HandoffDelivery.UndisturbedCreateSucceeds` | src/routes/bead-create-orchestrator.ts:313-381 | from every reachable state the whole request succeeds on a free primary key: blob and bead stored under its digest, the digest the new end of the peer's chain |
| `HandoffEvidence.EvidenceReachesRows` | src/trust-store.ts:711-721 | in every reachable state each pending row, also one a drain holds, and each attestation carries the scope, certificate and signature its request signed; an attestation has the columns of the request's own append or, without bead id and origins, those of a drain that was started |
| `HandoffEvidence.QuietDrainAppendsRows` | src/trust-store.ts:696-736 | an undisturbed drain appends one row for each claimed row, in claim order, with that row's evidence |
| `HandoffEvidence.UndisturbedDrain` | src/trust-store.ts:696-736 | from every reachable state a drain run to its end undisturbed attests all due rows up to its limit and removes exactly their keys |
| `HandoffBeads.OtherKeyOtherClaim` | src/storage/bead-canonical.ts:47-75 | under collision freedom, requests for beads with different ids or repositories never make the same claim |
| `HandoffBeads.ReachableDistinct` | src/beads.ts:209-213 | in every reachable state no two runs have inserted under one primary key |
| `HandoffBeads.InsertedIsSole` | src/routes/bead-create-orchestrator.ts:301-348 | for requests that carry beads: once a run has inserted its bead, no other run's trust rows can name it |
| `HandoffBeads.BeadGapExactly` | src/routes/bead-create-orchestrator.ts:302-415 | so for every ended run whose bead is committed, whatever follows, a retry included: the bead is unrecorded if and only if this run ended in a gap |
| `HandoffCounts.AttestationsCounted` | src/trust-store.ts:512-552 | over every run of events, the attestations of a run are its own executed append plus the drain turns that appended its pending row |
| `HandoffCounts.GateTurnsEnd` | src/trust-store.ts:704-729 | over every run of events, each of those drain turns has deleted the row, has stopped before that, or stands there now |
| `HandoffCounts.UnqueuedCount` | src/routes/bead-create-orchestrator.ts:359-381 | an ended run that never enqueued is attested once if its append was executed and never otherwise, for good |
| `HandoffCounts.QueuedCount` | src/routes/bead-create-orchestrator.ts:383-392 | a queued bead that is no longer pending was appended and deleted by a drain, and so is attested at least once, and at least twice if its own append was executed too |
| `HandoffCounts.AttestedOnceExactly` | src/trust-store.ts:696-736 | once its claim is no longer pending, a run alone with it is attested exactly once if and only if it appended and never enqueued, or it enqueued without having appended, no drain stopped or stands between append and delete of the row, and one drain deleted it |
| `HandoffCounts.LostReplyAttestsTwice` | src/routes/bead-create-orchestrator.ts:359-392 | from the empty state: the append lands, its reply is lost, the run enqueues, and the retry appends again |
| `HandoffCounts.DrainCrashAttestsTwice` | src/trust-store.ts:710-725 | from the empty state: a drain that stops between append and delete leaves its row to the next drain |
| `HandoffCounts.TwoDrainsAttestTwice` | src/trust-store.ts:696-736 | from the empty state: two drains that claimed the same row before either removed it both append it |
| `BeadOrchestrator.Cluster.RunBeadCreate` | src/routes/bead-create-orchestrator.ts:285-423 | the orchestrator under arbitrary interference: its effect is a run of the step machine, success means blob and bead are committed and the digest recorded, an error before the trust store was asked leaves no row of this request; undisturbed, it succeeds exactly when the primary key is free, and then appends one row to the peer's chain and nothing else to the trust store |
| `BeadOrchestrator.Cluster.StorePut` | src/routes/bead-create-orchestrator.ts:313-325 | the blob put as one step, with reply delivered, lost or call failed |
| `BeadOrchestrator.Cluster.InsertBead` | src/beads.ts:196-213 | the bead insert as one step; a taken primary key fails the run |
| `BeadOrchestrator.Cluster.ReadChainHead` | src/routes/bead-create-orchestrator.ts:355-357 | the head read as one step; a delivered reply is the end of the peer's chain |
| `BeadOrchestrator.Cluster.Attest` | src/routes/bead-create-orchestrator.ts:359-381 | the append as one step; applyOk only on a delivered positive reply |
| `BeadOrchestrator.Cluster.Postpone` | src/routes/bead-create-orchestrator.ts:383-415 | the enqueue as one step; a failed enqueue fails the run |
| `TrustTables.ChainLinks` | src/storage/peer-attestations.ts:240-274 | a table built by checked appends has, per peer, seq 1..n and each prev_self_ref equal to the previous content hash |
| `TrustTables.LastForIsChainEnd` | src/storage/peer-attestations.ts:138-155 | the row with the highest seq is the end of the chain |
| `TrustTables.ApplyKeepsChains` | src/storage/peer-attestations.ts:204-294 | an append with any claimed head, stale or not, succeeds exactly when the claim equals the actual head, extends only that peer and never forks |
| `TrustTables.NewKeyIsFree` | src/storage/peer-attestations.ts:253-274 | the inserted (peer, seq) key is above every existing one |
| `TrustTables.ChainPrefix` | src/storage/peer-attestations.ts:255-274 | chains of a longer table extend those of a shorter one |
| `TrustTables.ClaimBatchExactly` | src/storage/pending-attestations.ts:182-211 | a claim takes distinct due rows with attempts left, earliest first, and leaves a due row behind only when the limit is filled by earlier ones |
| `TrustTables.RetryBudget` | src/storage/pending-attestations.ts:75-84 | after n failures a row is due half a minute, one, two, five or ten minutes after the last time, and after the fifth failure never again; failures change no other column than the count and the two times |
| `TrustTables.CommitKeepsOthers` | src/storage/pending-attestations.ts:217-232 | deleting a pending key removes that key and no other |
| `TrustTables.RecordFailedKeepsKeys` | src/storage/pending-attestations.ts:241-273 | recording a failure keeps every pending key |
| `TrustStore.TrustStore.ApplyAttestation` | src/trust-store.ts:512-552 | appends exactly one numbered, linked row when the claimed head matches, otherwise changes nothing and reports both heads |
| `TrustStore.TrustStore.EnqueuePendingAttestation` | src/trust-store.ts:647-656 | inserts a pending row unless the key exists; reports which |
| `TrustStore.TrustStore.RetryRow` | src/trust-store.ts:704-733 | one claimed row of the drain, with other requests served before the gate and after it |
| `TrustStore.TrustStore.DrainPendingRetries` | src/trust-store.ts:696-736 | the drain loop equals its specification and claimed = committed + failed |
| `TrustStore.RowSettles` | src/trust-store.ts:705-733 | a claimed row whose head still matches at the gate is appended and removed, any other stays pending; other keys stay |
| `TrustStore.DrainSettlesEveryRow` | src/trust-store.ts:696-736 | over a whole batch under any interference every committed row is in its chain and every failed row is still pending |
| `TrustStore.ClaimedArePending` | src/trust-store.ts:701 | what the store claims meets the premises of the drain results |
| `TrustStore.QuietDrainCommitsAll` | src/trust-store.ts:696-736 | with no concurrent writer all claimed rows commit, even many for one peer: each chain grows by exactly its claimed hashes in claim order and exactly the claimed keys leave the table |
| `TrustStore.StaleHeadCanMatchAgain` | src/trust-store.ts:708-722 | a head re-attested between read and gate lets the stale append through, and both rows extend the chain |
| `LeaseLedger.ReachableInv` | src/routes/lease-middleware.ts:438-449 | in every reachable state a repeated accepted envelope waited more than 3,480,000 ms between snapshot and ledger call |
| `LeaseLedger.ReplayBoundIsExact` | src/trust-store.ts:159-160 | some run accepts an envelope twice if and only if the allowed delay exceeds retention minus twice the skew, 3,480,000 ms |
| `LeaseLedger.LeaseChainIsLog` | src/trust-store.ts:420-475 | per peer, seq is the number of accepted calls and last_chain_hash the fold of the step over them in acceptance order |
| `LeaseRecompute.TranscriptReadBack` | src/storage/peer-lease-counters.ts:80-91 | by position, the hashed text is the previous hash, the certificate fingerprint, the nonce and the decimal time |
| `LeaseRecompute.ReadingDecidesText` | src/storage/peer-lease-counters.ts:80-91 | only one text reads so |
| `LeaseRecompute.LeaseHashesRecompute` | src/trust-store.ts:420-475 | in every reachable state each peer's counter row is what its accepted calls come to when each hashed text begins with the hash before it, the first with 64 zeros |
| `LeaseRecompute.UndisturbedCall` | src/routes/lease-middleware.ts:438-449 | from every reachable state a call that goes straight through is refused on more than a minute of skew or a certificate and nonce of the last hour, and accepted, moving its peer's counter by one, within a minute of skew on a new pair |
| `LeaseLedger.LedgerStore.VerifyLeaseAndAdvanceChain` | src/trust-store.ts:420-475 | a fresh (cert, nonce) is recorded with the chain advanced, a seen one changes nothing; the chain-step self-check never fails |
| `LeaseLedger.LedgerStore.AssertChainStep` | src/storage/peer-lease-counters.ts:127-147 | the step check accepts exactly seq + 1 with the recomputed hash |
| `LeaseLedger.LedgerStore.SweepNonces` | src/trust-store.ts:245-252 | the alarm keeps exactly the nonces inside the retention |
| `LeaseLedger.TranscriptCollidesExactly` | src/storage/peer-lease-counters.ts:80-91 | with equal-length previous hash and certificate fingerprint, two transcripts are the same text if and only if all four fields agree, or the first two do and one nonce ends in digits with which the other one's timestamp starts |
| `LeaseLedger.ChainCollidesExactly` | src/storage/peer-lease-counters.ts:203-225 | under an injective digest, equal seq and chain hash mean, call by call, the same certificate and such a pair of nonce and time |
| `LeaseLedger.ChainCommitsToCalls` | src/storage/peer-lease-counters.ts:203-225 | for nonces of any length and server times of thirteen digits (or nonces of equal length at any time), equal seq and chain hash mean the same certificates, nonces and times in order |
| `LeaseGate.StepRefines` | src/trust-store.ts:429-474 | each step under the gate leaves the ledger alone or is exactly one atomic step of it |
| `LeaseGate.GateRefinesLedger` | src/trust-store.ts:429-474 | every step-by-step run, stopped anywhere, has the ledger of an atomic run, so the replay and chain results carry over |
| `LeaseGate.GateWritesBothOrNeither` | src/trust-store.ts:447-466 | no step and no stop writes the nonce without the counter or the reverse |
| `LeaseGate.GatedCallCompletes` | src/trust-store.ts:420-475 | a call that waits at the free gate and is not stopped comes out as one atomic ledger call, accepted or refused |
| `ReceiptStream.Wrapper.FlushPendingEvents` | src/routes/receipt-stream.ts:144-164 | the flush loop hashes and passes through every complete block and leaves the residual pending |
| `ReceiptStream.Wrapper.RollBlock` | src/routes/receipt-stream.ts:151-161 | one block advances tip and count exactly when it carries data, and is passed through with its delimiter |
| `ReceiptStream.Wrapper.PullChunk` | src/routes/receipt-stream.ts:184-185 | a chunk of bytes is decoded on its own, extends the pending text and flushes |
| `ReceiptStream.Wrapper.EmitCloseEvent` | src/routes/receipt-stream.ts:128-142 | the close event is emitted at most once, over the current tip and count |
| `ReceiptStream.Wrapper.PullDone` | src/routes/receipt-stream.ts:170-182 | the residual is passed through unhashed, then the close event |
| `ReceiptStream.Wrapper.Drive` | src/routes/receipt-stream.ts:166-190 | whatever the bytes and chunks, output before the close event is the decoded text encoded again, and tip and count are the batch fold of that text |
| `Utf8Decoder.FaithfulExactly` | src/routes/receipt-stream.ts:184 | a chunk comes out of decoding and encoding as it went in if and only if it is well-formed UTF-8 that does not start with a byte order mark |
| `Utf8Decoder.FaithfulText` | src/routes/receipt-stream.ts:184 | for a chunk cut between code points: if and only if its text does not start with U+FEFF |
| `Utf8Replacement.OneReplacementPerRun` | src/routes/receipt-stream.ts:184 | where no scalar value stands, the longest run of bytes one could have started with, or else a single byte, becomes one U+FFFD; a run cut off by the chunk's end gives nothing |
| `Utf8Decoder.StreamPassesExactly` | src/routes/receipt-stream.ts:166-185 | any byte stream comes out byte for byte if and only if no chunk starts with a byte order mark and every chunk is well-formed UTF-8 on its own, a U+FFFD cut after its second byte excepted |
| `Utf8Decoder.CutReplacementPasses` | src/routes/receipt-stream.ts:184 | such a cut: two bytes are lost with one chunk and put back by the next |
| `ReceiptStream.BytesPassExactly` | src/routes/receipt-stream.ts:116-190 | the consumer receives the upstream bytes unchanged if and only if the chunks are like that |
| `ReceiptStream.CutsDoNotMatter` | src/routes/receipt-stream.ts:116-190 | two such cuts of the same bytes end in the same state |
| `ReceiptStream.ChunkingInvariance` | src/routes/receipt-stream.ts:144-185 | pulling decoded pieces one by one ends in the same state as their whole text at once |
| `ReceiptStream.BlocksOfSplitText` | src/routes/receipt-stream.ts:144-164 | splitting resumes from the residual as if the text had come at once |
| `ReceiptStream.BlocksRebuildText` | src/routes/receipt-stream.ts:148-161 | blocks, delimiters and residual rebuild the text |
| `ReceiptStream.PassThrough` | src/routes/receipt-stream.ts:160-181 | what is enqueued block by block and the encoded residual together are the encoded text; tip and count fold the data-carrying blocks |
| `ReceiptStream.CarriesExactly` | src/routes/receipt-stream.ts:153-155 | a block is hashed exactly when some line starts with something other than a line feed or a colon |
| `ReceiptStream.TipDecidesEvents` | src/wire/receipts.ts:736-747 | under an injective step, equal tip and count mean the same open hash and the same event sequence, and conversely |
| `ReceiptStream.TipRecomputes` | src/routes/receipt-stream.ts:144-165 | from the decoded text alone: cut at its first blank lines, the blocks with a line that is neither empty nor a comment, hashed one on top of the other and numbered from zero, give the tip and the count |
| `ReceiptStream.CloseEventStandsAlone` | src/routes/receipt-stream.ts:174-180 | a consumer sees the close event as a block of its own exactly when the upstream ended with a blank line |
| `ReceiptStream.CloseBlockReadsBack` | src/routes/receipt-stream.ts:128-142 | the close event is two lines: its name, and the signed envelope in base64url behind "data: " |
| `CanonicalEncoder.StringifyValue` | src/storage/canonical.ts:68-96 | the recursive encoder with its loops computes the specified text or throws where it does |
| `CanonicalEncoder.PushElements` | src/storage/canonical.ts:81-83 | the array case: all elements in order, or a throw at the first that has no text |
| `CanonicalEncoder.PushMembers` | src/storage/canonical.ts:84-92 | the object case: sorted keys, undefined entries skipped |
| `CanonicalJson.DecodeOfStringify` | src/storage/canonical.ts:68-96 | canonical text decodes to the meaning of the value, objects as finite maps |
| `CanonicalJson.TextDecidesMeaning` | src/storage/canonical.ts:68-96 | two values have the same text if and only if they mean the same, whatever the key insertion order |
| `CanonicalJson.BytesDecideMeaning` | src/storage/canonical.ts:31-33 | the same for the UTF-8 bytes |
| `CanonicalJson.ThrowsExactly` | src/storage/canonical.ts:68-96 | encoding throws exactly on values with no canonical form |
| `CanonicalJson.LiveKeysIncrease` | src/storage/canonical.ts:85-90 | keys come out strictly increasing in UTF-16 code-unit order |
| `CodePointOrder.OrdersDisagreeExactly` | src/storage/canonical.ts:84-85 | ordering two well-formed texts by code unit and by code point disagrees if and only if they first differ where one has a surrogate and the other a unit from U+E000 up |
| `CodePointOrder.KeysInCodePointOrderExactly` | src/storage/canonical.ts:84-90 | the keys of a canonical object stand in code-point order if and only if no two of them differ like that |
| `CodePointOrder.AstralKeyComesFirst` | src/storage/canonical.ts:84-85 | U+1F600 and U+FF3A are two such keys |
| `CanonicalJson.ParseCharsOfQuote` | src/storage/canonical.ts:79 | string quoting, per section 25.5.2.3 of ECMA-262, is undone by reading escapes |
| `CanonicalJson.EscapesOnlyWhatItMust` | src/storage/canonical.ts:79 | only control characters, quotes, backslashes and unpaired surrogates are escaped, each in its shortest form |
| `CanonicalJson.StringifyWellFormed` | src/storage/canonical.ts:79 | canonical text holds no unpaired surrogate |
| `BeadCanonical.SortedLabelsAreTheBag` | src/storage/bead-canonical.ts:55 | sorted labels agree exactly when the labels agree as a bag |
| `BeadCanonical.BeadBytesDecideBead` | src/storage/bead-canonical.ts:47-64 | bead bytes agree if and only if every field agrees, labels as a bag |
| `BeadCanonical.BeadBytesSayTheBead` | src/storage/bead-canonical.ts:47-64 | for every bead the bytes decode to an object of exactly the thirteen members, each saying what the field of its name holds: version 1 and type "bead", null exactly for absent optional fields, the labels as a bag in code-unit order |
| `BeadCanonical.BeadDigestDecidesBead` | src/storage/bead-canonical.ts:73-75 | under collision freedom, equal bead digests mean the same bead |
| `GlobClosure.CompareBytes` | src/memoize/glob-closure.ts:62-68 | negative exactly for bytewise smaller, zero exactly for equal |
| `GlobClosure.BytesEqual` | src/memoize/glob-closure.ts:70-76 | byte equality |
| `GlobClosure.DedupeSorted` | src/memoize/glob-closure.ts:102-108 | runs of equal neighbours collapse to one |
| `GlobClosure.BuildParts` | src/memoize/glob-closure.ts:110-118 | the parts concatenate to count and length-prefixed frames |
| `GlobClosure.ConcatParts` | src/memoize/glob-closure.ts:119-123 | the output buffer is filled exactly |
| `GlobClosure.EncodeGlobClosureParams` | src/memoize/glob-closure.ts:97-124 | the buffer is the framing of the sorted, deduplicated byte forms |
| `GlobClosure.ListingIsTheSet` | src/memoize/glob-closure.ts:99-108 | the listing is strictly increasing and has the same members as the patterns |
| `GlobClosure.U64LeInjective` | src/memoize/glob-closure.ts:115-116 | little-endian u64 is injective below 2^64 |
| `GlobClosure.ParamsInjective` | src/memoize/glob-closure.ts:110-123 | the framing is unambiguous |
| `GlobClosure.ParamsDecideSet` | src/memoize/glob-closure.ts:97-124 | two lists encode alike if and only if they denote the same set of byte patterns |
| `GlobClosure.ParamsDecidePatterns` | src/memoize/glob-closure.ts:97-124 | for well-formed text, if and only if they denote the same set of patterns |
| `GlobClosure.ParamsReadBack` | src/memoize/glob-closure.ts:110-123 | the bytes read back, eight little-endian bytes of count and of each length, to the listing |
| `BundleCanonical.CompareKeys` | src/storage/bundle-canonical.ts:57-65 | the comparator is negative exactly for shorter-then-bytewise-smaller keys |
| `BundleCanonical.ShorterHeadFirst` | src/storage/bundle-canonical.ts:48-52 | a shorter CBOR text head sorts first across all five head sizes |
| `BundleCanonical.ComparatorIsCborOrder` | src/storage/bundle-canonical.ts:48-66 | the comparator is the bytewise order of deterministic CBOR encodings, per section 4.2.1 of RFC 8949 |
| `BundleCanonical.CborTextReadsBack` | src/storage/bundle-canonical.ts:48-68 | the encodings compared are CBOR text strings of major type 3 with the length in its shortest form, read back to the same bytes |
| `BundleCanonical.SortedInCborOrder` | src/storage/bundle-canonical.ts:53-66 | sorted keys increase in that order |
| `BundleCanonical.SortedKeysDependOnMapOnly` | src/storage/bundle-canonical.ts:53-66 | the sorted list is the same if and only if the key-to-value maps are |
| `BundleCanonical.CanonicalKeysIgnoreInsertionOrder` | src/storage/bundle-canonical.ts:88-92 | reordering the keys object changes neither the list nor whether decoding throws |
| `Base64Url.RoundTrip` | src/routes/lease-middleware.ts:581-594 | unpadded base64url round-trips every byte string, per section 5 of RFC 4648 |
| `Base64Url.Injective` | src/harness-shim/lease-signer.ts:125-129 | base64url texts are equal only for equal bytes |
| `Base64Url.EncodeSpells` | src/routes/lease-middleware.ts:581-585 | the text spells the bytes in the URL-safe alphabet, three bytes as four letters, most significant bits first, without padding |
| `Utf8.RoundTrip` | src/routes/lease-middleware.ts:178 | UTF-8 encoding of well-formed UTF-16 text can be undone |
| `Utf8.DecodeOfAnyText` | src/routes/lease-middleware.ts:178 | from the bytes of any text everything comes back but its unpaired surrogates, which become U+FFFD |
| `Decimal.TextInjective` | src/harness-shim/lease-signer.ts:81 | decimal text pins the number |
| `LeaseEnvelope.ParseOfSignedHeaders` | src/routes/lease-middleware.ts:113-145 | for every timestamp and nonce, what the middleware parses from the shim headers: the shim values, unless the timestamp is not positive or the nonce is empty |
| `LeaseEnvelope.VerifierSeesSignedBytes` | src/harness-shim/lease-signer.ts:76-95 | re-encoding the parsed headers gives the bytes the shim signed |
| `LeaseEnvelope.SignerTextInjective` | src/routes/lease-middleware.ts:164-178 | with no LF in method and URL, the signed text pins every field |
| `LeaseEnvelope.CanonicalBytesInjective` | src/routes/lease-middleware.ts:169-179 | with no LF in method and URL, the signed bytes pin every field |
| `LeaseEnvelope.CanonicalBytesSayTheRequest` | src/routes/lease-middleware.ts:169-179 | the signed bytes read back line by line: method, URL, decimal time, base64url nonce, and the body after the fourth line feed |
| `LeaseEnvelope.FirstBadHeaderDecides` | src/routes/lease-middleware.ts:113-145 | the headers are accepted exactly when all four are good, and the first bad one in the order certificate, signature, time, nonce names the error |
| `LeaseEnvelope.ParseIntReads` | src/routes/lease-middleware.ts:134 | white space, an optional sign and digits are read as that number whatever non-digit follows |
| `LeaseEnvelope.ParseIntRefuses` | src/routes/lease-middleware.ts:134 | text that starts with anything but white space, a sign or a digit is no number, and neither is white space alone |
| `LeaseEnvelope.LfInMethodIsAmbiguous` | src/routes/lease-middleware.ts:164-168 | the injectivity results need their condition: a line feed in the method, which no HTTP method holds, would make two requests share their bytes |
| `PercentEncoding.NormPctIdempotentExactly` | src/routes/lease-middleware.ts:708-721 | percent normalization is idempotent if and only if no stray percent sign is followed by two literal or encoded hex digits that make a triplet to normalize |
| `PercentEncoding.HarmlessStray` | src/routes/lease-middleware.ts:709 | "100%" has a stray percent sign and is left alone |
| `PercentEncoding.CatchingStray` | src/routes/lease-middleware.ts:709 | "%%341" becomes "%41" and then "A" |
| `PercentEncoding.NormPctOfJoined` | src/routes/lease-middleware.ts:708-721 | no triplet spans a delimiter: normalization works piece by piece |
| `PercentEncoding.TripletBecomes` | src/routes/lease-middleware.ts:708-721 | a triplet in either case becomes its character when that is a letter, a digit or one of "-._~", and otherwise itself in upper case |
| `PercentEncoding.OthersAreKept` | src/routes/lease-middleware.ts:708-721 | text without triplets is left as it is |
| `UrlCanonical.RemoveDotSegments` | src/routes/lease-middleware.ts:672-686 | the segment loop computes the resolved stack |
| `UrlCanonical.NormalizePath` | src/routes/lease-middleware.ts:665-702 | the five path steps in order |
| `UrlCanonical.PathShape` | src/routes/lease-middleware.ts:665-702 | the result is the surviving segments, each normalized on its own, or the bare root |
| `UrlCanonical.CanonicalPathShape` | src/routes/lease-middleware.ts:657-664 | no double slash, a trailing slash only on the root, and a dot segment exactly when decoding exposes one |
| `UrlCanonical.PathIdempotentExactly` | src/routes/lease-middleware.ts:665-702 | for every path: the path step is idempotent if and only if no surviving segment decodes to a dot segment and every one is percent-stable |
| `UrlCanonical.ReceivedPathIdempotentExactly` | src/routes/lease-middleware.ts:773-779 | for paths without encoded dot segments, which is what the URL parser delivers: if and only if every surviving segment is percent-stable |
| `UrlCanonical.ReceivedPathNotIdempotent` | src/routes/lease-middleware.ts:673-699 | "/%%32e" is such a path and takes three passes, through "/%2e" and "/.", to the root |
| `UrlCanonical.StackFollowsRfc3986` | src/routes/lease-middleware.ts:671-697 | for absolute paths the stack computes the two-buffer loop of section 5.2.4 of RFC 3986, up to the stripped trailing slash |
| `UrlCanonical.CollapseKeepsSegments` | src/routes/lease-middleware.ts:669 | collapsing slashes leaves no double slash and keeps every non-empty segment in its place |
| `UrlQuery.NormalizeQuery` | src/routes/lease-middleware.ts:727-755 | the pair loop, sort and join compute the query form |
| `UrlQuery.SortedIsStable` | src/routes/lease-middleware.ts:746-752 | the comparator yields a permutation ordered by key that keeps each key's values in original order |
| `UrlQuery.QueriesAgreeExactly` | src/routes/lease-middleware.ts:727-755 | two queries canonicalize alike if and only if every key carries the same values in the same order |
| `UrlQuery.QueryOfPairs` | src/routes/lease-middleware.ts:727-755 | the canonical query of any list of pairs is the text of the pairs with key and value normalized, in key order, those of one key in the order they came |
| `UrlQuery.BarePieceIsKey` | src/routes/lease-middleware.ts:732-736 | a piece without "=" is a key with an empty value |
| `UrlQuery.QueryIdempotentExactly` | src/routes/lease-middleware.ts:727-755 | for every query: the query step is idempotent if and only if the query is percent-stable |
| `UrlQuery.MountTransparent` | src/routes/lease-middleware.ts:648-653 | a route under a prefix canonicalizes as without it; a path that merely shares the prefix text is refused |
| `UrlQuery.SuffixDecidesPathAndQuery` | src/routes/lease-middleware.ts:778-783 | the suffix keeps path and query apart |
| `UrlQuery.SuffixIdempotentExactly` | src/routes/lease-middleware.ts:773-784 | the whole suffix is idempotent if and only if its path and its query are, by those conditions |
| `RegistryInvariant.NextKeeps` | src/routes/oci-registry.ts:353-457 | every step of every push and pull preserves the registry invariant and takes nothing back |
| `RegistryResults.PullsReturnPushedBytes` | src/routes/oci-registry.ts:392-455 | a 200 pull returns bytes that hash to the digest and were pushed into that repository under that kind; a tag pull returns the body of the last tag write completed when the tag was read |
| `RegistryResults.GatedPullSucceeds` | src/routes/oci-registry.ts:399-415 | membership implies the blob is stored, so a pull past the gate finds its bytes |
| `RegistryDelivery.UndisturbedPull` | src/routes/oci-registry.ts:392-455 | from every reachable state and for both kinds, a pull by digest that goes straight through is served the stored bytes if and only if the repository has that digest under that kind, and otherwise changes nothing |
| `RegistryDelivery.UndisturbedTagPull` | src/routes/oci-registry.ts:364-416 | a pull by tag that goes straight through is served the body of the last completed write of the tag, and nothing if there was none |
| `RegistryDelivery.ServedForever` | src/routes/oci-registry.ts:392-455 | whatever runs later, a pull of bytes the repository once had is served those bytes |
| `RegistryDelivery.UndisturbedMonolithicPush` | src/routes/oci-registry.ts:492-518 | a push of a body within the cap whose claim names one of its hashes leaves the repository with that blob |
| `RegistryDelivery.UndisturbedFinalize` | src/routes/oci-registry.ts:597-648 | a finalize whose claim names a hash of everything appended leaves the repository with the concatenation, the session closed and a record of the snapshot |
| `RegistryDelivery.UndisturbedUpload` | src/routes/oci-registry.ts:476-649 | a whole chunked upload, with any seed, chunks and trailing body within the cap, leaves the repository with their concatenation |
| `RegistryDelivery.UndisturbedManifestPut` | src/routes/oci-registry.ts:673-733 | a manifest put by one of its digests leaves the repository with that manifest |
| `RegistryDelivery.UndisturbedTagPut` | src/routes/oci-registry.ts:673-733 | a manifest put by tag leaves the repository with it under its SHA-256, and the next pull of the tag is served it |
| `RegistryDelivery.MonolithicAcceptedExactly` | src/routes/oci-registry.ts:492-508 | a monolithic push starts if and only if the body is within the cap and the claim names one of its hashes; refused, it leaves nothing |
| `RegistryDelivery.ManifestAcceptedExactly` | src/routes/oci-registry.ts:673-719 | a manifest put starts if and only if the body is non-empty and within the cap, the reference is a tag or names the body, and the digest header, when present, names it too |
| `RegistryDelivery.TagIsPattern` | src/routes/oci-registry.ts:148 | a tag is one word character and up to 127 word characters, dots and hyphens |
| `RegistryDelivery.DigestIsPattern` | src/storage/types.ts:28-30 | a digest is sixty-four lower-case hex digits |
| `RegistryDelivery.AcceptedPushesAreCapped` | src/routes/oci-registry.ts:499-500 | in every reachable state no accepted push, by any of the three routes, is larger than the cap |
| `RegistryDelivery.UndisturbedRefusal` | src/routes/oci-registry.ts:615-639 | a finalize whose claim names nothing appended keeps its body in the open session and pushes nothing |
| `RegistryDelivery.RestartEndsSessions` | src/routes/oci-registry.ts:173-177 | after a restart no earlier session takes another body, whatever follows, and everything stored stays |
| `RegistryResults.GateNeedsOwnPush` | src/routes/oci-registry.ts:436-442 | a membership exists only for bytes pushed into that very repository under that kind |
| `RegistryResults.FinalizeStoresConcatenation` | src/routes/oci-registry.ts:586-649 | a 201 finalize stored exactly the seed, chunks and trailing body appended up to its snapshot, in order, under a key they hash to |
| `RegistryResults.SessionsStayMeasured` | src/routes/oci-registry.ts:563-574 | each session size is the sum of its chunk lengths and at most the cap |
| `RegistryResults.ChunkStoredExactly` | src/routes/oci-registry.ts:620-649 | a chunk of a session is in the blob its finalize stored if and only if its index is below the snapshot: then in its place, otherwise the blob does not depend on it |
| `RegistryResults.LatePatchIsAcceptedButNotStored` | src/routes/oci-registry.ts:559-575 | a patch that found its session before a finalize closed it is accepted at an index not below the snapshot |
| `Uploads.ConcatChunks` | src/routes/oci-registry.ts:1029-1037 | the buffer is filled exactly with the chunks in order |
| `Uploads.ClaimAcceptedExactly` | src/routes/oci-registry.ts:955-1021 | a digest claim is accepted if and only if it is well formed and is the SHA-256 or BLAKE3 of the body |
| `Uploads.ExtendedKeeps` | src/routes/oci-registry.ts:565-574 | a body is accepted exactly when the total fits the cap, is appended whole, and the size stays exact |
| `Uploads.FinalizeExactly` | src/routes/oci-registry.ts:615-640 | a finalize succeeds if and only if the body fits and the claim is a hash of everything appended; refused for size it changes nothing, refused for its claim it keeps the body |
| `Uploads.RetryCountsBothBodies` | src/routes/oci-registry.ts:620-639 | after a refused claim, a retry claiming the bytes followed by a meant body is accepted if and only if the two bodies sent, one after the other, are that body and fit |
| `Uploads.RetrySucceedsExactlyWhenEmpty` | src/routes/oci-registry.ts:630-639 | so a retry with the right claim is accepted if and only if its own trailing body is empty |
| `Uploads.UploadSession.Append` | src/routes/oci-registry.ts:565-574 | one accepted or refused body |
| `Uploads.UploadSession.Seal` | src/routes/oci-registry.ts:615-640 | the shared session object computes the finalize step: append, concatenate, verify |
| `BlobStore.BlobStore.Put` | src/storage/workerd.ts:91-144 | stores under SHA-256 or a proven key, for any hashes; rows already there stay; a wrong key stores nothing; the contents gain exactly these bytes unless the key held other ones |
| `BlobStore.NoCollisionAgrees` | src/storage/workerd.ts:91-144 | without collisions a key never holds other bytes |
| `BlobStore.BlobStore.PutChunks` | src/storage/workerd.ts:133-141 | a large blob becomes its rows |
| `BlobStore.BlobStore.Get` | src/storage/workerd.ts:146-161 | reads exactly what was put, whichever table holds it |
| `BlobStore.BlobStore.GetChunked` | src/storage/workerd.ts:164-185 | rejoins the rows in order |
| `BlobStore.BlobStore.Has` | src/storage/workerd.ts:187-199 | true exactly for stored digests |
| `PreAuthBudget.PreAuthLimiter.PreAuthBurstLimit` | src/routes/pre-auth-budget.ts:82-121 | evict, refill, consume and store in order |
| `PreAuthBudget.PreAuthLimiter.EvictOldest` | src/routes/pre-auth-budget.ts:95-103 | at the cap the first thousand insertions go |
| `PreAuthBudget.AfterValid` | src/routes/pre-auth-budget.ts:95-117 | tokens stay within 0 and 300 and the map within 10,000 keys |
| `PreAuthBudget.TokenBound` | src/routes/pre-auth-budget.ts:129-157 | between evictions a source is accepted at most 300 + (t - s) / 100 times in [s, t] |
| `PreAuthBudget.TokenBoundIsAttained` | src/routes/pre-auth-budget.ts:129-157 | for every length some run without an eviction accepts exactly that many |
| `PreAuthBudget.RetryHintSuffices` | src/routes/pre-auth-budget.ts:145-151 | the hint is one second and a call that much later is accepted |
| `PreAuthBudget.SpacedCallIsAllowed` | src/routes/pre-auth-budget.ts:129-157 | a source whose last call is a tenth of a second ago, or that has no bucket, is let through; a clock that stands still or runs back gives no token; the other sources' buckets stay as they were |
| `PreAuthBudget.OwnBucketLostExactly` | src/routes/pre-auth-budget.ts:89-103 | a caller loses its own bucket exactly when the map is full and its key is among the thousand oldest insertions |
| `PreAuthBudget.UseDoesNotRefreshAge` | src/routes/pre-auth-budget.ts:117 | using a bucket that survives the eviction does not move it in the eviction order, map full or not |
| `RateWindow.RateLimiter.ConsumeRateBudget` | src/routes/vault-proxy.ts:190-202 | one decision of the fixed-window limiter |
| `RateWindow.WindowBound` | src/routes/vault-proxy.ts:187-202 | a closed interval of length L accepts at most m * (L / 60000 + 1) calls of one key when 60000 divides L, and at most m * (floor(L / 60000) + 2) - 1 otherwise |
| `RateWindow.BoundIsAttained` | src/routes/vault-proxy.ts:187-202 | for every limit and every length some run reaches that maximum |
| `RateWindow.RefusedOnlyWhenSpent` | src/routes/vault-proxy.ts:187-202 | a call is refused only after as many calls of its pair as the limit were accepted in the last minute; without a limit it never is and leaves no trace |
| `RateWindow.KeyInjective` | src/routes/vault-proxy.ts:192 | for peers without a colon the key identifies the (peer, service) pair |
| `RateWindow.SharesBucketExactly` | src/routes/vault-proxy.ts:192 | two pairs share a bucket if and only if they are equal or one peer is the other followed by a piece of separator and service that makes the keys the same text |
| `RateWindow.OtherPairsUntouched` | src/routes/vault-proxy.ts:190-202 | one pair's calls leave every other pair's bucket alone |
| `DisclosureCursor.CursorRoundTrip` | src/storage/disclosure-cursor.ts:47-109 | a signed cursor verifies back to exactly its payload |
| `DisclosureCursor.SignatureDecidesPayload` | src/storage/disclosure-cursor.ts:74-109 | under an injective MAC an accepted cursor carrying the MAC of a signed one has its payload |
| `DisclosureCursor.CursorSaysPayload` | src/storage/disclosure-cursor.ts:47-64 | between dots: the version, the base64url JSON of exactly peerFp, fromSeq and ts, and the MAC of both |
| `Disclosure.HmacCursorsRoundTrip` | src/storage/disclosure-cursor.ts:47-109 | signing and verifying under one key round-trip for every MAC |
| `Disclosure.CursorBelongsToPeer` | src/routes/disclosure.ts:197-206 | a cursor selects its position for its own peer and is refused for every other |
| `Disclosure.RefusedCursorGetsNothing` | src/routes/disclosure.ts:197-232 | a cursor that does not verify or was signed for another peer gets nothing |
| `Disclosure.ListFromIsSlice` | src/storage/peer-attestations.ts:301-323 | the fetched rows are a contiguous piece of the chain |
| `Disclosure.CheckCursor` | src/routes/disclosure.ts:197-206 | absent, accepted and refused cursors |
| `Disclosure.HandleRequest` | src/routes/disclosure.ts:197-298 | one page over three reads of the store: refusals before the lists are fetched, a refusal when both come back empty, else up to 100 rows, the pending rows and a cursor to the next |
| `Disclosure.PagesListPending` | src/storage/pending-attestations.ts:279-292 | every page comes with exactly the peer's pending rows at the third read, oldest first |
| `Disclosure.NextCursorSays` | src/routes/disclosure.ts:256-282 | the cursor of a full page is signed for this peer, continues after its last row and carries the read time |
| `Disclosure.WalkYieldsPrefix` | src/routes/disclosure.ts:243-282 | whatever is written between the reads, a walk not turned away at its first request never fails and yields a gap-free prefix of the current chain; when it ends it has yielded a whole chain |
| `Disclosure.WalkFailsExactly` | src/routes/disclosure.ts:220-254 | a walk is refused if and only if at its first request the probe found no row in either table, or the chain was empty at the attestation read and no row was pending at the pending read |
| `Disclosure.AttestedIsServed` | src/routes/disclosure.ts:220-254 | a peer with an attestation at the first read is never turned away |
| `Disclosure.DrainedBetweenTheLists` | src/routes/disclosure.ts:244-254 | a peer whose only row is pending passes the probe and is refused when a drain moves that row into the chain between the two lists; its next request is served |
| `Disclosure.StepsKeepChains` | src/trust-store.ts:512-736 | whatever statements and drain turns run between the reads, chains stay linked and only grow, as the walk results ask |
| `Disclosure.FixedChainWalkIsExact` | src/routes/disclosure.ts:243-282 | on a fixed chain the walk ends after exactly ceil(n / 100) pages, or one for an empty chain with pending rows, with every row once, in seq order |

## Left out

- Byte-copying loops of the base64 helpers are sequence expressions; the letters they produce are modelled.
- Cryptography: Ed25519, SHA-256, BLAKE3, HMAC and certificate verification are parameters.
- HTTP, URL parsing, service bindings, logging, metrics, generated schemas and discovery documents.
- The "rsry" bead backend and the fault-injection seams for tests.
- Request authentication, scope matching, epoch and certificate validity checks: each is one branch; the replay result needs only the skew check, and its second direction takes the certificate to be valid throughout.
- Direct operator use of `pruneSeenNonces`, `recordSeenNonce`, `upsertLeaseCounter` and `commitPendingAttestation`, which would break the run invariants by design.
- Column values that a retried attestation does not carry: drained rows have neither `bead_id` nor `origins`.
- Recomputing a bead digest from its row: row timestamps come from the table default, so it is not claimed.
- Repository-name validation and the early Content-Length refusal of the registry: both only refuse earlier.
- HEAD, catalog and tag-list requests of the registry.
- Manifest media type detection and response headers.
- CanonicalJson.DecodeOfStringify: numbers are integers below 1e21 in size, where the text has no exponent; other doubles are not modelled.
- LeaseEnvelope.ParseOfSignedHeaders: timestamps beyond 2^53 are read exactly, where the host would round.
- Stream cancellation and upstream errors of the receipt stream.
- UrlCanonical.StackFollowsRfc3986: stated for absolute paths, which is what the URL parser delivers.
- PreAuthBudget.TokenBound: tokens are exact hundredths where the code uses doubles, and the clock does not go back.
- RateWindow.WindowBound: the clock does not go back and a key's limit does not change within the run.
- BlobStore.BlobStore.Put: what a later read returns is not stated once two byte strings with one digest were stored.
- Disclosure.WalkYieldsPrefix: for chains below 2^53 rows; the two list calls of a request reach the store in the order they are issued.
- DisclosureCursor.CursorRoundTrip: payload numbers are integers below 1e21; JSON texts other than canonical ones are not parsed.
