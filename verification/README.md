# Cofre Soberano PQ: a verified model

Dafny model of the parts of Cofre Soberano PQ that carry its guarantees: the
signed, Merkle-chained audit log and its rotation chain, the gateway's audit
writer, admission control, the CSPQ-Transport-v1 handshake, SNI routing and its
configuration, and the JSON Lines export. `dafny verify dfyconfig.toml` checks
everything.

| file | models |
|---|---|
| `Bytes`, `Wrappers`, `Ordering` | byte strings, hex, BLAKE3 as an uninterpreted function; options and results; string order and BTreeMap iteration |
| `Merkle` | the Merkle Mountain Range and the recursive tree hash of section 2.1 of RFC 6962 |
| `Signing`, `Payload` | signers that may fail; the signed payload byte for byte |
| `LogModel`, `LogFile`, `RotationChain`, `AuditLog` | the log as a value, its file format, rotation chains, and the stateful log |
| `AuditWriter`, `WriterTraces`, `AuditTask` | the writer as a state machine, its runs seen from outside, and its flush and rotation routines |
| `TamperEvidence` | what was signed along the lives of the writer, and what can therefore verify |
| `RateLimiter`, `RateLimiterExact`, `Admission` | token buckets, their exact behaviour, and hot-swapped quotas |
| `Framing`, `Handshake`, `HandshakeRuns` | frames, the two ends of a handshake, and unboundedly many handshakes under attack |
| `SniRouting`, `GatewayConfig` | dispatch table, certificate resolver, validation and listener groups |
| `Jsonl` | the exporter and a reader that undoes it |

## Ideal primitives

BLAKE3, ML-DSA-87 verification, ML-KEM-1024, HKDF, the CBOR codecs and RFC 3339
formatting are constants without a value: every theorem holds for every
function in their place. What a theorem needs of them it asks for.

- Hash: freedom from collisions (and from the zero digest) on the finite set of
  inputs that were hashed, never globally.
- Signatures: a signer may fail at any call, and has then signed nothing; what
  it hands out verifies. Where unforgeability matters
  (`TamperEvidence.NotForged`, `HandshakeRuns.NotForged`) it is: what verifies
  under the key was signed with it. What was signed is tracked step by step,
  not assumed; a key may sign anything elsewhere except entries of the
  writer's own logs.
- Random log ids: a rotation draws an id nothing was signed under.
- Key derivation: where keys are told apart, it separates the inputs finished
  sessions fed to it.
- KEM: every secret key matching the public key decapsulates a ciphertext to
  the encapsulated secret; KEM keys and ciphertexts are fresh.
- CBOR items: decoding undoes encoding and looks at no byte beyond the item
  (section 3 of RFC 8949).
- Clock readings, random ids, signing calls and file-system outcomes are
  parameters.

`appended_at`, `label` and `created_at` are kept in the entities; no binding
claim speaks of them because no signature covers them.

## Where the code and its comments differ

- The sweep's comment says removing a full bucket loses no rate-limit state. On
  clocks finer than a second it loses the refill phase;
  `RateLimitsExact.EvictionInvisibleIff` gives the exact condition for a bucket,
  `RateLimitsExact.GcInvisibleIff` for the whole limiter, and
  `RateLimitsExact.GcShowsOnFineClocks` a run that shows it.
- A rotation signs its closing sentinel on a snapshot and may then fail, and the
  live log goes on from the same place; a crash can lose signed entries that
  were not saved. What was signed stays verifiable, so two logs with one header
  can verify and neither be a prefix of the other
  (`TamperEvidence.AbandonedRotationForks`, `TamperEvidence.LostEntriesFork`).
  `TamperEvidence.OnlyPrefixesIff` says exactly when this cannot happen.
- RFC 6962 hashes the empty string for the empty tree; the log uses the all-zero
  digest. The model follows the log.
- `SniDispatchTable::new` takes a stray asterisk as part of an exact name where
  `MultiSniCertResolver::new` rejects it. They agree on all names that pass
  validation (`SniRouting.TableBuildsIff`, `SniRouting.ResolverBuildsIff`).

## Model

| member | source | states |
|---|---|---|
| `Merkle.MerkleTree.Append` | crates/qaudit-core/src/merkle.rs:76-97 | appending one content hash extends the leaf history by it, keeps the frontier invariant, and returns the RFC 6962 tree hash of the whole history |
| `Merkle.MerkleTree.CarryIn` | crates/qaudit-core/src/merkle.rs:77-94 | the in-place carry loop computes the recursive insertion |
| `Merkle.MerkleTree.Root` | crates/qaudit-core/src/merkle.rs:103-118 | bagging the peaks yields the recursive tree hash of all leaves, all-zero for none |
| `Merkle.TreeHashLift` | crates/qaudit-core/src/merkle.rs:10-13 | the top-down recursive hash of section 2.1 of RFC 6962 equals the tree built level by level with the odd block promoted; this is what lets peaks be bagged |
| `Merkle.SplitPointIsPowerOfTwo` | crates/qaudit-core/src/merkle.rs:10-13 | the split point of the reference is a power of two, hence the largest below n |
| `Merkle.InsertExtends` | crates/qaudit-core/src/merkle.rs:79-94 | the carry chain takes the frontier of a level sequence to the frontier of that sequence with one more block |
| `Merkle.BagIsTreeHash` | crates/qaudit-core/src/merkle.rs:107-116 | folding peaks upward, higher peak on the left, gives the tree hash of the covered blocks followed by the accumulated right-hand tree |
| `Merkle.FrontierIsBinaryCounter` | crates/qaudit-core/src/merkle.rs:48-54 | for every history: level i exists iff 2^i leaves were appended, is occupied iff bit i of the count is set, and then holds the root of the perfect tree over its aligned 2^i block |
| `Merkle.RootsBind` | crates/qaudit-core/src/merkle.rs:25-39 | equal roots imply equal leaf sequences and lengths, given no collision and no zero digest among the inputs hashed; leaf/node domain separation is derived from the prefix bytes |
| `Merkle.SmallTrees` | crates/qaudit-core/src/merkle.rs:21-39 | the roots of zero to three leaves spelled out in bytes: leaves under 0x00, nodes under 0x01, left pair first |
| `Payload.PayloadInjective` | crates/qaudit-core/src/log.rs:180-215 | the CBOR bytes that are signed determine log id, index, both roots and the event hash |
| `Payload.UintInjective` | crates/qaudit-core/src/log.rs:189-189 | the shortest-form CBOR integer of the index is unambiguous for 64-bit values |
| `Payload.PayloadReads` | crates/qaudit-core/src/log.rs:180-215 | a CBOR reader (section 3 of RFC 8949) finds in the signed bytes a map of exactly the five named fields, in order, with their values, and nothing after it |
| `LogModel.NoFaultIffAccepted` | crates/qaudit-core/src/log.rs:423-463 | verification reports no fault exactly on logs with a valid header whose entry i declares index i, links the Merkle roots of the first i and i+1 event hashes, and is signed over its payload |
| `LogModel.AcceptedPrefix` | crates/qaudit-core/src/log.rs:423-463 | acceptance is prefix-closed |
| `LogModel.EqualRootsEqualHistories` | crates/qaudit-core/src/log.rs:17-31 | two accepted logs with equal final roots have equal event-hash sequences |
| `LogModel.EventHashesBind` | crates/qaudit-core/src/event.rs:48-53 | equal event hashes mean equal encoded events, given no collision among the encodings hashed |
| `LogModel.EverySignatureChecked` | crates/qaudit-core/src/signing.rs:300-320 | acceptance means the library verified each entry's own signature, of the right length, under the header's decodable key, on that entry's payload |
| `LogModel.EditIsReported` | crates/qaudit-core/src/log.rs:431-460 | which edit of an accepted log is reported as what, at the edited entry: a wrong index as invalid, a changed root or event as a broken chain, a signature that does not verify as bad; the append time is not covered |
| `LogModel.HeaderReported` | crates/qaudit-core/src/log.rs:127-144 | which header is reported as what: version, then suite, then key length |
| `LogModel.SignatureFault` | crates/qaudit-core/src/signing.rs:300-320 | signature verification reports lengths, then the key, then the signature, and reports nothing exactly when the signature verifies |
| `LogModel.AppendedAccepted` | crates/qaudit-core/src/log.rs:383-412 | an accepted log extended by one entry is accepted iff the new signature verifies on the next payload |
| `AuditLogs.AuditLog.Create` | crates/qaudit-core/src/log.rs:282-302 | a fresh log is empty, a chain root, open for its signer, and valid |
| `AuditLogs.AuditLog.Append` | crates/qaudit-core/src/log.rs:377-412 | append is all or nothing: read-only and failed-signing calls change nothing; success adds exactly the signed entry; the tree stays the replay of the entries and a log with a signer stays accepted |
| `AuditLogs.AuditLog.Verify` | crates/qaudit-core/src/log.rs:417-463 | returns the first fault in the order of the checks, none exactly when accepted |
| `AuditLogs.AuditLog.BindSigner` | crates/qaudit-core/src/log.rs:353-364 | a signer is attached only if its key is the header's and the whole history verifies |
| `AuditLogs.AuditLog.SaveTo` | crates/qaudit-core/src/log.rs:467-475 | writes magic, header and entries in the file format |
| `AuditLogs.AuditLog.ReadFrom` | crates/qaudit-core/src/log.rs:517-561 | parses exactly what the format function parses, reports its error otherwise, and rebuilds the tree |
| `AuditLogs.AuditLog.ReadEntries` | crates/qaudit-core/src/log.rs:532-546 | only end of input before the first byte of an entry ends the entry list cleanly |
| `AuditLogs.ReplayTree` | crates/qaudit-core/src/log.rs:548-553 | the rebuilt tree is the replay of the entries |
| `AuditLogs.AuditLog.RotateTo` | crates/qaudit-core/src/log.rs:581-665 | on success the old log is sealed by one close sentinel and loses its signer, the new one holds one open sentinel, both are accepted and linked; every error path is the source's |
| `AuditLogs.AuditLog.OpenSuccessor` | crates/qaudit-core/src/log.rs:625-658 | the successor's header and first entry refer to the sealed log's id and final root |
| `AuditLogs.ResolvesNamedId` | crates/qaudit-core/src/log.rs:592-612 | a caller's id text is accepted iff it is 32 hex digits, and the hex text of an id names that id; the empty text asks for the random one |
| `AuditLogs.VerifyChain` | crates/qaudit-core/src/log.rs:675-810 | accepts a list of logs exactly when the first is an accepted root and every neighbouring pair is accepted and linked |
| `AuditLogs.VerifyNext` | crates/qaudit-core/src/log.rs:696-807 | one turn of the pairwise loop: the next log is accepted and linked to the previous |
| `AuditLogs.CheckLink` | crates/qaudit-core/src/log.rs:708-807 | the pairwise link checks |
| `Bytes.HexRoundTrip` | crates/qaudit-core/src/log.rs:601-612 | decoding a hex log id undoes encoding it |
| `Bytes.HexText` | crates/qaudit-core/src/log.rs:601-612 | hex text is lower case, high digit first, byte after byte |
| `LogFile.ReadAfterSave` | crates/qaudit-core/src/log.rs:467-475 | reading a saved log restores header and entries exactly when the header is one the reader accepts, and otherwise fails with that header's fault |
| `LogFile.TruncatedFile` | crates/qaudit-core/src/log.rs:532-546 | a saved file cut short at any byte is rejected unless the cut is an entry boundary, and then reads back as the log with that prefix of entries; both directions |
| `LogFile.OnlyOwnFormat` | crates/qaudit-core/src/log.rs:517-531 | only a file with the magic bytes and a header of this version, suite and key length is read |
| `LogFile.CutItemFails` | crates/qaudit-core/src/log.rs:534-536 | no strict prefix of a self-delimiting item decodes |
| `RotationChain.RotationLinks` | crates/qaudit-core/src/log.rs:614-658 | sealing and opening under verifying signatures gives two accepted, linked logs |
| `RotationChain.EveryRunVerifies` | crates/qaudit-core/src/log.rs:567-665 | every chain grown by any appends and rotations, with any key per segment and signers failing anywhere, passes chain verification |
| `RotationChain.AcceptedListsArePrefixes` | crates/qaudit-core/src/log.rs:667-810 | the lists drawn from a chain with distinct ids that verification accepts are exactly its nonempty prefixes |
| `RotationChain.BuiltChainsVerifyByPrefix` | crates/qaudit-core/src/log.rs:581-810 | the same for every chain that can be built from a fresh root log |
| `RotationChain.SealNamesOneSuccessor` | crates/qaudit-core/src/log.rs:708-737 | all logs that verify as the continuation of a sealed log carry one log id |
| `RotationChain.SuccessorNamesOneHistory` | crates/qaudit-core/src/log.rs:739-774 | all logs that verify as the predecessor of a log have one id and one sequence of event hashes |
| `RotationChain.SignedStartNamesPredecessor` | crates/qaudit-core/src/log.rs:776-807 | the signed entries of a log link it to one predecessor id only, whatever its unsigned header says |
| `RotationChain.ForgedHeaderRejected` | crates/qaudit-core/src/log.rs:776-807 | a successor whose first entry is not the opening sentinel for this predecessor is rejected under any header |
| `RotationChain.SentinelsCrossReference` | crates/qaudit-core/src/log.rs:614-658 | what the two sentinels and the new header of a rotation say of the two files, field by field |
| `RotationChain.ChainHeaders` | crates/qaudit-core/src/log.rs:681-785 | a chain on its files: only the first log is a root, each later one carries the previous id and root and opens with a sentinel, each but the last closes with one |
| `AuditWriter.StepKeepsInv` | crates/qgateway-core/src/audit.rs:241-321 | every step (emit, close, rotation request, select arms, drains, flushes, rotations with any outcome, signatures elsewhere) keeps the accounting, chain and disk invariant |
| `AuditWriter.AcceptedEventsRecordedInOrder` | crates/qgateway-core/src/audit.rs:241-321 | over every interleaving with succeeding flushes, archives plus live log (sentinels dropped) plus batch plus queue are the accepted events, once each and in order, and the logs pass chain verification |
| `AuditWriter.EveryEventAccountedFor` | crates/qgateway-core/src/audit.rs:662-690 | with flushes failing anywhere: every accepted event is recorded, counted lost, pending or queued, and what is recorded keeps acceptance order |
| `AuditWriter.OnlySentinelsDropped` | crates/qaudit-core/src/log.rs:708-790 | what is left out of the record of a chain is its opening and closing sentinels and nothing else |
| `AuditWriter.NothingMissingAfterShutdown` | crates/qgateway-core/src/audit.rs:286-296 | after shutdown some list of files ending at the log path reads back as a verified chain recording every accepted event, also after a rotation whose switch reached the disk but was reported failed |
| `AuditWriter.AlwaysRecoverable` | crates/qgateway-core/src/audit.rs:584-690 | crash consistency: in every state of every run, whatever appends, saves and rotations failed, some list of files ending at the log path reads back as a verified chain recording a prefix of what the logs in memory record |
| `AuditWriter.RestartRecovers` | crates/qgateway/src/main.rs:374-396 | killed in any reachable state and started again from its file, the task is in a proper starting state and has a prefix of what it had recorded, all of it when the disk was up to date |
| `AuditWriter.DiskHoldsRecord` | crates/qaudit-core/src/log.rs:477-508 | the files that hold the record, and that they hold all of it whenever the disk is up to date |
| `AuditWriter.NothingElseOverwritten` | crates/qgateway-core/src/audit.rs:625-651 | in every run no file except the live log's own path is ever overwritten or removed |
| `AuditWriter.ShutdownTerminates` | crates/qgateway-core/src/audit.rs:419-440 | once senders are gone and no rotation is requested, the writer takes a bounded number of steps and stops only at its end |
| `AuditWriter.WriterNeverStuck` | crates/qgateway-core/src/audit.rs:244-320 | on a closed channel the writer always has a next step until done |
| `AuditWriter.FlushKeepsAccounts` | crates/qgateway-core/src/audit.rs:662-690 | a flush records the appended prefix of the batch and loses exactly the rest |
| `AuditWriter.RotationKeepsDisk` | crates/qgateway-core/src/audit.rs:625-654 | whatever step a rotation fails at, every committed archive stays on disk, and the log path holds the live log as last saved or, after a switch reported as failed, the successor of a sealed archive of it |
| `AuditWriter.IdleTaskShutsDown` | crates/qgateway-core/src/audit.rs:217-243 | the premises of the run theorems are satisfiable from any accepted root log on disk |
| `AuditTask.Flush` | crates/qgateway-core/src/audit.rs:662-690 | the batch loop and save take exactly the flush step of the state machine: each stamp is the signer's own answer to its append, the loop stops early only where signing fails, and with a signer that never fails and a save that succeeds the whole batch is appended and on disk |
| `AuditTask.PerformRotation` | crates/qgateway-core/src/audit.rs:584-660 | rotation is a transaction: unless it reports success the live log is the same object unchanged; every outcome has its exact condition on the path, the two signers, the log and the file operations; the rotation made is the one asked for; on success the live log is the one-entry successor linked to the sealed archive; disk effects are exactly the rotation step's |
| `AuditTask.Snapshot` | crates/qgateway-core/src/audit.rs:602-619 | a read-back copy with the factory's signer bound, possible iff there is one with the log's own key and the log verifies |
| `AuditTask.Prepare` | crates/qgateway-core/src/audit.rs:598-623 | succeeds iff both sentinels get signed, and then yields the sealed log and its linked successor for the rotation asked for; a failure after the closing sentinel was signed is told from one before, with its exact condition |
| `AuditTask.Disk.Save` | crates/qaudit-core/src/log.rs:477-508 | atomic replacement with three outcomes: not installed, installed but reported failed, installed |
| `AuditTask.Disk.PublishNoClobber` | crates/qgateway-core/src/audit.rs:633-644 | publication never clobbers an existing path |
| `WriterTraces.EmitsAccepted` | crates/qgateway-core/src/audit.rs:45-67 | over every run: every emitted event is accepted unless the queue was full or the task was done, and nothing else is |
| `WriterTraces.RequestsServedInOrder` | crates/qgateway-core/src/audit.rs:226-226 | over every run: rotation requests that found the slot empty are performed in order, none lost and none invented, and committed archives are at the requested paths in order |
| `WriterTraces.BatchesWrittenWhenFull` | crates/qgateway-core/src/audit.rs:307-319 | over every run: whenever the writer waits, less than a batch is pending; nothing is pending when a rotation runs |
| `WriterTraces.RotationSealsWhatCameBefore` | crates/qgateway-core/src/audit.rs:247-266 | events accepted before the writer takes up a rotation request are in the sealed archives once it commits, in order |
| `WriterTraces.TimerWritesPending` | crates/qgateway-core/src/audit.rs:298-304 | what is pending need not wait for a full batch: the timer can fire and write all of it |
| `WriterTraces.SelectArms` | crates/qgateway-core/src/audit.rs:245-304 | which arms of the select are ready when |
| `TamperEvidence.EveryAcceptedLogIsOnABranch` | crates/qgateway-core/src/audit.rs:584-690 | over any number of lives of the writer, with flushes and rotations failing and crashes anywhere, for every archived or live log: whatever verifies under its key and log id records a prefix of it or of a branch its signer left behind; only unforgeability is assumed of signatures |
| `TamperEvidence.AcceptedIsOnABranch` | crates/qaudit-core/src/log.rs:29-31 | the same for one log, given what was signed under its key and id: no edit, insertion, reordering or splice verifies, within a branch or between branches |
| `TamperEvidence.PrefixOrAbandonedSeal` | crates/qgateway-core/src/audit.rs:598-654 | within one life: what verifies is a prefix of the log, or such a prefix and the closing sentinel of a rotation signed and abandoned, with nothing after it |
| `TamperEvidence.OnlyPrefixesIff` | crates/qgateway-core/src/audit.rs:621-654 | everything that verifies is a prefix of the log if and only if the log has gone on to record every branch left behind |
| `TamperEvidence.OnlyPrefixesWithoutFailedRotations` | crates/qgateway-core/src/audit.rs:621-654 | in a life in which no rotation fails after signing, everything that verifies is a prefix, with no assumption on the hash |
| `TamperEvidence.AbandonedRotationForks` | crates/qgateway-core/src/audit.rs:633-651 | the first failing input: archive published, switch failed, another event recorded; the archive file and the live log are both accepted under one header and neither is a prefix of the other |
| `TamperEvidence.LostEntriesFork` | crates/qgateway-core/src/audit.rs:671-688 | the second failing input: entries signed and not saved, the task restarted from its file, another event recorded; both logs are accepted under one header and neither is a prefix of the other |
| `TamperEvidence.StepKeepsTrack` | crates/qgateway-core/src/audit.rs:598-679 | every step keeps: all that was signed under a log's key and id is an entry of one of its branches, and log ids stay distinct |
| `TamperEvidence.EverythingRecordedWasSigned` | crates/qgateway-core/src/audit.rs:598-679 | over any number of lives: every entry in the task's logs and in what it leaves behind is among what was signed, so nothing that verifies there is missed |
| `TamperEvidence.RestartKeepsTrack` | crates/qgateway/src/main.rs:374-396 | a restart from the file keeps the same, the log that was in memory becoming a branch |
| `TamperEvidence.LivesVerifyByPrefix` | crates/qaudit-core/src/log.rs:675-810 | over any number of lives with fresh ids, the lists drawn from archives and live log that chain verification accepts are exactly the nonempty prefixes |
| `TamperEvidence.FreshLogIsTracked` | crates/qaudit-core/src/log.rs:282-302 | the premise on what was signed before is met by a log under an unused id, whatever else the key has signed |
| `RateLimits.RateLimiter.TryTake` | crates/qgateway-core/src/admission.rs:223-261 | one request sweeps when the map is large, then refills and spends as the request function says |
| `RateLimits.RateLimiter.MaybeGc` | crates/qgateway-core/src/admission.rs:273-292 | the sweep drops exactly the buckets that would be full now and have idled past the limit |
| `RateLimits.RefillIsExact` | crates/qgateway-core/src/admission.rs:240-253 | the saturating 32/64-bit refill always equals min(capacity, tokens + secs * rate) |
| `RateLimits.SweepDropsIff` | crates/qgateway-core/src/admission.rs:273-304 | the sweep drops a bucket iff it has not been refilled for more than 300 seconds and would now be full; the others stay as they are |
| `RateLimits.SweepsOnlyWhenCrowded` | crates/qgateway-core/src/admission.rs:231-233 | a request sweeps iff the limiter holds more than 8192 sources |
| `RateLimits.WindowBound` | crates/qgateway-core/src/admission.rs:223-292 | in any run with a nondecreasing clock, any window admits at most capacity + rate * ceil(T) requests of one source, even across eviction and recreation of its bucket |
| `RateLimits.TicksRoundUp` | crates/qgateway-core/src/admission.rs:240-253 | the seconds in the bound are the window's length rounded up to whole seconds |
| `RateLimits.RequestPaid` | crates/qgateway-core/src/admission.rs:223-261 | every request of any source, with or without a sweep, keeps a source's tokens and admissions paid for by capacity and elapsed ticks |
| `RateLimitsExact.AdmitsExactlyWithinAllowance` | crates/qgateway-core/src/admission.rs:240-261 | a bucket admits a request iff every window ending at it stays within capacity + rate * ticks: never too much, never too little |
| `RateLimitsExact.FirstRequestAfterEviction` | crates/qgateway-core/src/admission.rs:263-267 | on any clock the first request after an eviction gets the same decision and leaves the same token count as with the bucket kept |
| `RateLimitsExact.EvictionInvisibleIff` | crates/qgateway-core/src/admission.rs:263-267 | an evicted full bucket answers all later requests like the kept one iff it is recreated on the old refill phase (or rate or capacity is zero); the comment's claim that no state is lost fails otherwise |
| `RateLimitsExact.PhaseShows` | crates/qgateway-core/src/admission.rs:250-252 | a concrete request sequence on which the kept and the recreated bucket answer differently, for every off-phase eviction |
| `RateLimitsExact.GcInvisibleOnWholeSeconds` | crates/qgateway-core/src/admission.rs:223-292 | on whole-second clocks the limiter with eviction answers every request sequence like one that never evicts |
| `RateLimitsExact.GcShowsOnFineClocks` | crates/qgateway-core/src/admission.rs:223-292 | for every configuration that refills, a run from the empty limiter past 8192 sources on a finer clock on which the limiter with the sweep and the one without decide differently |
| `RateLimitsExact.GcInvisibleIff` | crates/qgateway-core/src/admission.rs:263-292 | over all clocks: the sweep is invisible in every run iff the rate or the capacity is zero |
| `RateLimitsExact.SourcesIsolated` | crates/qgateway-core/src/admission.rs:198-204 | on whole-second clocks a source is answered as by a bucket of its own, whatever other sources send |
| `Admission.AdmissionController.Check` | crates/qgateway-core/src/admission.rs:165-185 | rejected for rate iff the limiter refuses; admitted iff it passes and there is no quota or a slot is free; a slot is taken only by an admission under a quota |
| `Admission.CheckLaw` | crates/qgateway-core/src/admission.rs:165-185 | the law of one check: rate first and its token spent, then quota; a rate rejection leaves the slots alone |
| `Admission.WithoutQuotaRateDecides` | crates/qgateway-core/src/admission.rs:165-185 | without a quota a controller answers every run exactly as its rate limiter decides, and admits everything without one |
| `Admission.RateHoldsOverRuns` | crates/qgateway-core/src/admission.rs:165-171 | over every run of loads, checks, ends and swaps, each generation opens in any window at most capacity + rate * ceil(T) sessions of one source |
| `Admission.OldGenerationsDrain` | crates/qgateway-core/src/admission.rs:136-147 | once no pending check has an older controller loaded, older generations serve no check and their held slots never grow |
| `Admission.FirstCheckAdmits` | crates/qgateway-core/src/admission.rs:165-185 | a run in which a fresh controller admits the first connection |
| `Admission.RunConserves` | crates/qgateway-core/src/admission.rs:107-186 | over every run of loads, checks, session ends and swaps, each generation keeps free + held slots = its quota |
| `Admission.SwapConserves` | crates/qgateway-core/src/admission.rs:136-147 | a swap leaves sessions, pending checks and every older generation as they are and starts the new generation full with nobody holding a slot; slots stay conserved |
| `Admission.LiveSessionsBounded` | crates/qgateway-core/src/admission.rs:92-102 | live sessions never exceed the quotas of the generations still holding permits, when every generation has one |
| `Framing.Pipe.WriteFrame` | crates/qtransport-cspq/src/framing.rs:14-29 | an oversize frame is refused untouched; otherwise prefix and body are appended |
| `Framing.Pipe.ReadFrame` | crates/qtransport-cspq/src/framing.rs:32-45 | reads one frame under the smaller of the caller's cap and the hard cap, and leaves the rest |
| `Framing.FrameRoundTrip` | crates/qtransport-cspq/src/framing.rs:13-45 | a frame within the cap comes out as it went in with the rest of the stream intact; a larger one is refused |
| `Framing.FrameLayout` | crates/qtransport-cspq/src/framing.rs:14-29 | four bytes of length, most significant first, then the body, 64 KiB at most |
| `Handshake.FinalInputInjective` | crates/qtransport-cspq/src/handshake.rs:142-156 | fixed field lengths make the concatenated transcript input unambiguous |
| `Handshake.WireLayout` | crates/qtransport-cspq/src/handshake.rs:142-156 | message types, suite and the place of every field on the wire and in the hashed transcripts |
| `Handshake.ReadClientHelloIff` | crates/qtransport-cspq/src/handshake.rs:187-205 | the server's first reader accepts exactly the encodings of usable KEM keys |
| `Handshake.ReadServerHelloIff` | crates/qtransport-cspq/src/handshake.rs:316-364 | the client's reader accepts exactly the encodings of a parsing ciphertext with a trusted key's verifying signature over this handshake |
| `Handshake.ReadClientFinishIff` | crates/qtransport-cspq/src/handshake.rs:245-282 | the server's second reader accepts exactly the encodings of a trusted key with its verifying signature over the full transcript |
| `Handshake.ConnectHello` | crates/qtransport-cspq/src/handshake.rs:297-314 | refuses an empty policy, otherwise sends one framed CLIENT_HELLO |
| `Handshake.AcceptHello` | crates/qtransport-cspq/src/handshake.rs:179-243 | every rejection branch in order, failing encapsulation and signing included; otherwise encapsulates to the received key and answers with the signature on that very transcript |
| `Handshake.ConnectFinish` | crates/qtransport-cspq/src/handshake.rs:316-391 | checks size, type, policy and signature, then decapsulates and signs the full transcript, either of which may fail before anything is sent; then sends CLIENT_FINISH and derives the keys from both |
| `Handshake.AcceptFinish` | crates/qtransport-cspq/src/handshake.rs:245-285 | checks size, type, policy and signature on the full transcript before deriving the keys |
| `Handshake.HonestPairCompletes` | crates/qtransport-cspq/src/handshake.rs:158-392 | every honest, mutually trusting pair completes: messages fit the caps and are read back as sent; both ends name each other and hold the two halves of HKDF over the encapsulated secret and the hash of suite, KEM key, ciphertext and both identities |
| `HandshakeRuns.RunKeepsInv` | crates/qtransport-cspq/src/handshake.rs:170-392 | what every step of unboundedly many interleaved sessions keeps, on a network that delivers arbitrary bytes |
| `HandshakeRuns.ServerAgreement` | crates/qtransport-cspq/src/handshake.rs:274-285 | if a server accepts an honest client key, a session of that client signed the same suite, KEM key, ciphertext and identities after checking this server's signature, and both derive the same directional keys, also when the client's write was reported failed after the bytes left |
| `HandshakeRuns.ClientAgreement` | crates/qtransport-cspq/src/handshake.rs:350-369 | if a client signs for an honest server key, a session of that server answered its KEM key with this ciphertext and holds the same secret |
| `HandshakeRuns.HonestRunAgrees` | crates/qtransport-cspq/src/handshake.rs:170-392 | honest, mutually trusting keys have a run in which client and server finish and agree |
| `HandshakeRuns.AgreementIsInjective` | crates/qtransport-cspq/src/handshake.rs:303-307 | with fresh KEM keys and ciphertexts the matching of client and server sessions is one to one |
| `HandshakeRuns.SameKeysIffSameHandshake` | crates/qtransport-cspq/src/handshake.rs:158-167 | over every run, with a hash and key derivation that separate what was fed to them: a finished client and a finished server hold the same keys iff they agree on identities, KEM key and ciphertext |
| `HandshakeRuns.ServerKeysDiffer` | crates/qtransport-cspq/src/handshake.rs:158-167 | no two finished server sessions share keys |
| `HandshakeRuns.ClientKeysDiffer` | crates/qtransport-cspq/src/handshake.rs:158-167 | no two finished client sessions share keys |
| `HandshakeRuns.DirectionsDiffer` | crates/qtransport-cspq/src/handshake.rs:163-167 | the two directions of a session use different keys whenever the halves of the derivation differ |
| `HandshakeRuns.SignedMessagesDisjoint` | crates/qtransport-cspq/src/handshake.rs:26-33 | server transcripts, client transcripts and audit payloads signed under one key and context never coincide |
| `SniRouting.MatchesIffTail` | crates/qgateway-core/src/gateway.rs:417-423 | a wildcard suffix matches a name iff it is the text from the name's first dot and a label precedes it (section 6.4.3 of RFC 6125) |
| `SniRouting.LookupIsKeyed` | crates/qgateway-core/src/gateway.rs:413-425 | in a table with distinct dotted suffixes at most one wildcard matches, so lookup equals exact lookup followed by one keyed lookup, whatever the scan order |
| `SniRouting.ReachableLookupIsKeyed` | crates/qgateway-core/src/gateway.rs:384-474 | the same in every table reachable by building, adding and removing tenants |
| `SniRouting.AddThenRemove` | crates/qgateway-core/src/gateway.rs:427-474 | adding a tenant with a new name and removing it gives back the same table |
| `SniRouting.RemovedIsGone` | crates/qgateway-core/src/gateway.rs:457-474 | a removed tenant is never chosen again, and every hostname that went to another tenant still does |
| `SniRouting.TableBuildsIff` | crates/qgateway-core/src/gateway.rs:384-408 | the dispatch table is built iff every context has an SNI and no two are equal |
| `SniRouting.NewTable` | crates/qgateway-core/src/gateway.rs:384-408 | the constructor loop computes the fold of additions with its errors |
| `SniRouting.Lookup` | crates/qgateway-core/src/gateway.rs:413-425 | exact match first, then the first matching wildcard |
| `SniRouting.BuiltTableRoutes` | crates/qgateway-core/src/gateway.rs:384-425 | from the configured names alone: whoever is chosen asked for this very name or, when nobody did, for the wildcard over it; if nobody is chosen, nobody asked |
| `SniRouting.NewResolver` | crates/qgateway-core/src/tls.rs:410-444 | the resolver constructor loop with its pattern and duplicate checks |
| `SniRouting.Resolve` | crates/qgateway-core/src/tls.rs:458-480 | no SNI gives none; exact match first, then the first matching wildcard |
| `SniRouting.ResolverBuildsIff` | crates/qgateway-core/src/tls.rs:410-444 | the resolver is built iff the list is nonempty and all patterns are well formed and different |
| `SniRouting.WellFormedPattern` | crates/qgateway-core/src/tls.rs:418-428 | a pattern is well formed iff every asterisk in it is its first character and a dot follows |
| `SniRouting.TableAndResolverAgree` | crates/qgateway-core/src/tls.rs:457-481 | from the same well-formed, different names both constructors succeed and choose the same tenant, or none, on every hostname |
| `GatewayConfig.Validate` | crates/qgateway-core/src/config.rs:538-604 | accepts exactly the valid configurations of either role |
| `GatewayConfig.ValidateSniGroups` | crates/qgateway-core/src/config.rs:614-728 | accepts exactly when every listener group is well formed and, for serve-tcp, every limit is nonzero; the visiting order of groups does not matter |
| `GatewayConfig.ValidateGroup` | crates/qgateway-core/src/config.rs:632-695 | a lone tenant has no SNI; siblings all have TLS and pairwise different well-formed patterns |
| `GatewayConfig.GroupByListen` | crates/qgateway-core/src/config.rs:628-631 | each listen address maps to its tenants in configuration order |
| `GatewayConfig.ResolveServeTcpGroups` | crates/qgateway-core/src/config.rs:738-807 | succeeds on every valid serve-tcp configuration; groups ascend by address, are complete, and dispatch by SNI iff they have more than one tenant |
| `GatewayConfig.GroupsPartition` | crates/qgateway-core/src/config.rs:788-807 | each tenant is in exactly one group, as often as configured |
| `GatewayConfig.SharedListenersRoute` | crates/qgateway-core/src/config.rs:644-694 | for every valid serve-tcp configuration both routing structures build for each shared listener and agree on every hostname |
| `GatewayConfig.RoutedToItsTenant` | crates/qgateway-core/src/config.rs:614-728 | end to end: in a valid serve-tcp configuration a hostname on a shared listener is routed to exactly one configured tenant, the one there that configured it by name or else by wildcard, and to none only if none did |
| `GatewayConfig.ValidLimitsAdmit` | crates/qgateway-core/src/config.rs:696-724 | the limits of a valid configuration admit the first connection of every source |
| `GatewayConfig.LoneTenantValidIff` | crates/qgateway-core/src/config.rs:538-604 | what it takes for one tenant alone to be a valid configuration of either role |
| `GatewayConfig.SharedPairValidIff` | crates/qgateway-core/src/config.rs:632-695 | what it takes for two tenants to share a listener: TLS, different well-formed names, nonzero limits |
| `GatewayConfig.InvalidShapes` | crates/qgateway-core/src/config.rs:538-560 | no configuration without tenants or with two tenants of one name is valid |
| `Ordering.LessMeans` | crates/qgateway-core/src/config.rs:790-793 | string order as BTreeMap iterates: equal up to the first difference, and there shorter or smaller |
| `Jsonl.JsonEscape` | crates/qaudit-core/src/export.rs:290-304 | the escaping loop computes the escape function |
| `Jsonl.ReadsEscaped` | crates/qaudit-core/src/export.rs:290-304 | a reader following section 7 of RFC 8259 gets every string back and stops at its closing quote |
| `Jsonl.ReadsValue` | crates/qaudit-core/src/export.rs:226-270 | the reader undoes the writer on numbers, strings and nested objects |
| `Jsonl.ExportLine` | crates/qaudit-core/src/export.rs:223-272 | the pushed text is the rendering of the entry's object, metadata keys ascending |
| `Jsonl.ExportJsonl` | crates/qaudit-core/src/export.rs:221-275 | one line per entry, in order |
| `Jsonl.ExportReadsBack` | crates/qaudit-core/src/export.rs:217-275 | an export splits at newlines into exactly one line per entry; a reader finds in line i, key by key, the index, time text and strings of entry i, hex text that decodes to its roots and signature, and its metadata map with each key once and ascending |

## Left out

- The internals of BLAKE3, ML-DSA-87, ML-KEM-1024, HKDF, CBOR and rustls: foreign code, kept as the uninterpreted constants above.
- The CSPQ record layer (nonces, EOF markers, partial frames): `transport.rs` is not part of this model.
- Secrecy of the derived keys: the handshake results are agreement and authentication.
- 64-bit wrap-around of the leaf counter and entry index: counts are unbounded; a log of 2^64 entries does not fit in memory. Payload injectivity is stated for 64-bit indices.
- Memory layout and sharing: vectors and hash maps are sequences and maps that methods reassign; a log replaces its tree by a fresh clone as the source does.
- Error message texts: errors keep their kind and index; handshake framing errors are one kind.
- Binding of a whole multi-file history by its last root: chain verification compares the unsigned header field with the previous root and does not compare the signed `prev_log_final_root` metadata.
- `override_pubkey`: its obligation lies with the caller.
- File permissions, symlink checks, fsync details and temporary files: a save is one of three outcomes.
- The rotation monitor, its thresholds, metrics counters and acknowledgements: they only decide when a rotation is requested or report what happened.
- The biased order of the writer's select: the model lets any ready arm run, which includes the source's order. A rotation channel whose senders are all gone is not modelled.
- Admission under a clock running backwards: requests are stated for nondecreasing clocks, as `Instant` guarantees; the functions themselves saturate like the source.
- RateLimitsExact.GcInvisibleOnWholeSeconds: stated for whole-second clocks because it is false on finer ones (`RateLimitsExact.GcInvisibleIff`).
- Input and output errors inside a handshake: pipes do not fail; in `HandshakeRuns` a session whose write is reported failed simply takes no further step.
- A signing call that reports failure after the device has signed: a failed call is taken to have signed nothing.
- The atomic pointer swaps (`ArcSwap`): a load and the check on what was loaded are two steps of the admission model; the hot dispatch table's swap adds nothing beyond replacing a value.
- Runtime mutation of certificate sets, SIGHUP convergence, proxy session pumps, PKCS#11, the XML export, the CLI and the portal: plumbing around the modelled core.
- Resolved tenant records: a resolved tenant is its configuration entry; paths and signer settings are carried, not interpreted.
