# An evidence pipeline, from the scale to the ledger

A collector's phone signs a weigh-in and queues it. The server ingests it once,
groups weigh-ins into batches, seals a batch under a Merkle root, anchors the
root on a ledger and registers the batch in an on-chain contract. A buyer later
checks an event against the root, and the root against the ledger. This project
models that pipeline and proves what its parts promise each other.

| file | what it holds |
|---|---|
| `Merkle.dfy` | the level-by-level tree, its proofs and verifier, and section 2.1 of RFC 6962 as the reference |
| `Canonical.dfy`, `JsonNumber.dfy`, `JsonString.dfy` | the sorted-key JSON printer, a parser for it, and what a value means |
| `WeighIn.dfy`, `Doubles.dfy` | the nine signed fields, weights quantised to grams; rounding to doubles and the shortest decimal that names one |
| `SignedText.dfy` | the signed string, character by character |
| `OfflineQueue.dfy` | the phone's queue |
| `Sync.dfy` | phone and server in small steps, over all runs |
| `SyncPass.dfy`, `PassVerdicts.dfy` | one `syncPending` pass, as a run of those steps and as the code; what it does to each record |
| `Ingest.dfy` | lookup and insert of concurrent submissions |
| `Batches.dfy`, `BatchEffects.dfy`, `Lifecycle.dfy`, `BatchesService.dfy` | batch calls and their invariant; each call spelled out; what follows over runs; the calls carried out |
| `Overlap.dfy` | `addEvents` calls that overlap: when sealed batches survive them |
| `AnchorBackoff.dfy` | the retry schedule and its bound over a history |
| `Registry.dfy` | the contract, specified by its event log |
| `LedgerVerification.dfy` | the tri-state ledger read, the confirmation cache and single flight |
| `RateLimit.dfy` | fixed-window buckets, eviction, and the bound on any window |
| `Csv.dfy`, `Reports.dfy` | the CSV export against a reader for section 2 of RFC 4180; the report's proof section |
| `Audit.dfy` | the report and the ledger's answer for the batches of every reachable state |
| `Sorting.dfy`, `Text.dfy`, `Times.dfy`, `Arithmetic.dfy`, `Wrappers.dfy` | shared definitions |

How the source's form is kept: a service whose methods update fields or tables is
a class, and each of its methods is proved to leave the state that a step function
on values says; the theorems over runs are about that step function. The Merkle
functions are loops proved against recursive definitions. The encoder, the CSV
writer, the report and the retry schedule are functions. The two halves of
`addEvents` that `Overlap` interleaves are `BatchesService.ChooseEvents` and
`BatchesService.BatchesService.MoveInto`.

What single steps do is also written out in literals, in lemmas that have no row
below because they read definitions back: `BatchEffects` (when each batch call is
accepted, why it is refused, every row it writes), `Ingest.LookupAnswers` and
`InsertAnswers`, `LedgerVerification.CallAnswers`, `ReadIsAnswered` and
`ReadAnswers`, `Registry.RefusalReasons`, `RateLimit.StepIs`, `OfflineQueue.PatchedIs`
and `PruneIs`, `SyncPass.OfflineDoesNothing`, `JsonString.ShortForms`,
`JsonNumber.PlainForm` and `ExponentForm`, `Csv.FileForm`.

Hashes are free terms, so equal hashes come from equal inputs in the same domain.
Payload hashes are injective names of payloads. Signatures are a set of signers,
and integrity checks are a verdict that comes with a submission. Weights are
integer grams, times are integer milliseconds. Database ids are positions or
numbers. The network's answers, the clock and random draws are parameters that
range over everything.

## What the proofs show about the code

- The Merkle verifier binds a proof to its data exactly when the leaf is recomputed
  from data, as `verifyEvent` and the report do. It takes any well-formed hex as
  a leaf, and what it accepts is exactly a node on the path of some leaf with the
  rest of that path; this is one of the leaves if and only if it is a leaf hash
  (`Merkle.AcceptedIsOnPath`, `Merkle.AcceptedIsLeafExactlyWhenHashed`).
- The rate limiter's window is fixed, not sliding as the comment beside
  `windowSeconds` says. For every limit, twice the limit less one calls can pass in
  one window length, and no more. The sliding promise holds exactly when windows
  are empty, or at least one call is allowed and either it is the only one or a
  window is one clock tick (`RateLimit.SlidingPromiseHoldsExactlyWhen`). A limit
  of 0 acts as a limit of 1 (`RateLimit.ZeroActsAsOne`).
- The cache key of a ledger confirmation has no place for the data-entry key. True
  answers are about the caller's own anchor in every run if and only if no two of
  the anchors asked about share a key (`LedgerVerification.CarriedExactlyWhen`).
  The service is asked about stored anchors only; a transaction is stored once, so
  they meet the condition in every reachable state
  (`Audit.AnchorsAreAnsweredForThemselves`). Two questions share a key without
  agreeing exactly when one transaction id continues the other by a colon and what
  the other's root begins with (`LedgerVerification.KeysCollideExactlyWhen`); ids
  and roots are hexadecimal.
- `addEvents` locks its batch and no event, and its update does not look again
  whether an event is unbatched. Two overlapping calls on different batches can
  choose one event; the batch that gets it first can be sealed and then lose it
  (`Overlap.OverlapTakesSealedMember`). Sealed batches survive if and only if no
  chosen event is claimed by a second batch, and beginning a call is safe if and
  only if it names no event that a call in progress has chosen
  (`Overlap.SealedSurvivesExactlyWhen`, `Overlap.ChoosingIsSafeExactlyWhenApart`);
  then all is as if the calls had been taken one after another.
- The rate limiter's bound rests on its clock: if the clock may step back, no
  number bounds the calls in a window length (`RateLimit.AnyClockBoundedExactlyWhen`).
- A CSV file whose last row is a single empty cell cannot be told from one
  without it. The event export has twelve columns and is always read back.
- A synced weigh-in can be quarantined on the server, when the reply to its first
  post was lost. The phone can tell: a record that is not refused is certain to be
  clean exactly when its reply is no duplicate
  (`Sync.CleanExactlyWhenNotDuplicate`).
- The phone's guarantees need fresh record ids: an update reaches every record
  that has the id (`SyncPass.SharedIdLosesWeighIn`).
- `pendingAnchor` offers sealed batches only: one that is advanced to processed
  before its anchor is written back is never offered again
  (`Lifecycle.ProcessedIsNotOffered`).

## Model

| member | source | states |
|---|---|---|
| Merkle.AssertLeaves | packages/shared/src/merkle.ts:49-58 | leaves pass exactly when there are some and all are well formed; otherwise the first bad one is named |
| Merkle.PairUp | packages/shared/src/merkle.ts:67-75 | the inner loop makes the next level: neighbours hashed together, a lone last node promoted |
| Merkle.BuildMerkleTree | packages/shared/src/merkle.ts:60-79 | the nested loops give all levels, and their root is the RFC 6962 tree hash |
| Merkle.MerkleRootHex | packages/shared/src/merkle.ts:81-83 | for every valid list the root is the RFC 6962 tree hash |
| Merkle.MerkleProof | packages/shared/src/merkle.ts:86-110 | for every valid list and index the proof is the RFC 6962 audit path, sides included; other inputs are refused |
| Merkle.VerifyMerkleProof | packages/shared/src/merkle.ts:113-126 | the loop accepts exactly when everything is well formed and the path folds to the root |
| Merkle.RootIsRfcRoot | packages/shared/src/merkle.ts:60-79 | pairing level by level with promotion builds the same term as splitting at the largest power of two below n |
| Merkle.PathIsRfcPath | packages/shared/src/merkle.ts:86-110 | the siblings read off the levels are the recursive audit path |
| Merkle.SplitPointIsPowerOfTwo | packages/shared/src/merkle.ts:60-79 | the split point is the largest power of two below n |
| Merkle.RootFringe | packages/shared/src/merkle.ts:66-78 | the leaves of the root term, left to right, are the input list |
| Merkle.RootCommits | packages/shared/src/merkle.ts:66-78 | roots of hashed leaves are equal exactly when the lists are, across all lengths |
| Merkle.ProofComplete | packages/shared/src/merkle.ts:86-126 | every proof handed out is accepted against the root |
| Merkle.ProofSize | packages/shared/src/merkle.ts:97-107 | a proof for at most 2^m leaves has at most m steps |
| Merkle.ProofSound | packages/shared/src/merkle.ts:113-126 | a leaf hash is accepted exactly when its data is at some index and the proof is the one built for that index |
| Merkle.AcceptedIsOnPath | packages/shared/src/merkle.ts:113-126 | for an arbitrary leaf argument: accepted exactly when it is a node on the path of some leaf and the proof is the rest of that path |
| Merkle.AcceptedIsLeafExactlyWhenHashed | packages/shared/src/merkle.ts:28-33 | what is accepted is one of the leaves if and only if it is the leaf hash of some data |
| Merkle.InnerHashPassesAsLeaf | packages/shared/src/merkle.ts:113-126 | every inner node on a path, offered as a leaf, is accepted and is none of the leaves |
| Merkle.LevelsAre | packages/shared/src/merkle.ts:60-79 | the levels start with the leaves, each is the one above the one before, and the last holds exactly the root |
| Canonical.EncodeOk | packages/shared/src/canonical-core.ts:22-56 | a value encodes exactly when no number in it is non-finite and nothing is undefined or of another type |
| Canonical.EncodeIsPrint | packages/shared/src/canonical-core.ts:39-53 | the encoding is the plain printing of the value with members sorted at every depth |
| Canonical.ParsePrint | packages/shared/src/canonical-core.ts:22-56 | a parser reads every printed value back, nested to any depth, and stops where it ends |
| Canonical.DecodeOfEncode | packages/shared/src/canonical-core.ts:18-56 | decoding the encoding gives the value back up to member order and the sign of zero |
| Canonical.MeanOfCanon | packages/shared/src/canonical-core.ts:43-53 | sorting members and dropping the sign of zero does not change what a value means |
| Canonical.EncodeDecidesMeaning | packages/shared/src/canonical-core.ts:18-56 | two values encode alike exactly when they mean the same, whatever the insertion order of keys |
| Canonical.PrintedText | packages/shared/src/canonical-core.ts:22-53 | the text character by character: the words, brackets, commas between items, a colon after each quoted key, no white space |
| Canonical.KeysAscend | packages/shared/src/canonical-core.ts:43-53 | in the encoding every key comes strictly before the next, code unit by code unit |
| Canonical.ObjectError | packages/shared/src/canonical-core.ts:43-53 | of an object's members that do not encode, one whose key comes first is complained about, whatever the insertion order |
| Canonical.ArrayError | packages/shared/src/canonical-core.ts:39-41 | of an array's items the first that does not encode is complained about |
| JsonString.ReadEscaped | packages/shared/src/canonical-core.ts:27-27 | every string, lone surrogates included, is read back from its quoted form |
| JsonNumber.ReadOfFormat | packages/shared/src/canonical-core.ts:30-37 | every finite number is read back from its printed form, in plain and exponent notation |
| JsonNumber.ExponentExactlyWhen | packages/shared/src/canonical-core.ts:30-37 | an exponent is written exactly outside the range from 10^-6 to 10^21 |
| JsonNumber.OfGramsInjective | packages/shared/src/canonical-core.ts:61-66 | different grams give different numbers |
| WeighIn.QuantiseAbsorbsNoise | packages/shared/src/canonical-core.ts:58-66 | noise below half a gram does not change the quantised weight |
| WeighIn.QuantiseIsNearest | packages/shared/src/canonical-core.ts:61-66 | the quantised weight is a nearest number of grams, and of two the one away from zero |
| WeighIn.PayloadEncoding | packages/shared/src/canonical-core.ts:73-86 | a payload encodes exactly when its weight is finite, and two encode alike exactly when all nine fields agree after quantisation; otherwise it is refused for its number |
| SignedText.SignedFields | packages/shared/src/canonical-core.ts:73-86 | a reader of the signed text finds nine names in ascending order, each with its own field, and under weightKg the number of thousandths that quantisation gives |
| SignedText.SignedTextIs | packages/shared/src/canonical-core.ts:73-86 | the signed text in full: every name, quote, colon and comma, and the weight in plain notation |
| SignedText.WeightIsPlain | packages/shared/src/canonical-core.ts:61-66 | below 10^12 kg a weight is written as whole kilograms and, after a point, its grams without trailing zeros, never with an exponent |
| WeighIn.SignedThroughDoubles | packages/shared/src/canonical-core.ts:61-86 | below 10^12 kg, rounding the quantised decimal to a double and printing the shortest decimal that names it signs the very same text |
| WeighIn.QuantiseAgain | packages/shared/src/canonical-core.ts:58-66 | quantising a quantised weight again, as the server does with what it parses, changes nothing |
| Doubles.DoublesPrintGrams | packages/shared/src/canonical-core.ts:61-66 | the shortest decimal that names the double nearest to a number of grams is that number of grams, and no other is as short |
| OfflineQueue.KeyValueStore.EnqueueRecord | apps/mobile/src/lib/queue.ts:62-65 | the record is appended and the rest is as it was |
| OfflineQueue.KeyValueStore.UpdateRecord | apps/mobile/src/lib/queue.ts:67-79 | the loop patches the records with the id and no others |
| OfflineQueue.KeyValueStore.ReadPending | apps/mobile/src/lib/queue.ts:87-92 | the records still to be delivered: queued and syncing ones, each once, oldest first, as many as those two counts say |
| OfflineQueue.KeyValueStore.ReadPendingPhotos | apps/mobile/src/lib/queue.ts:119-130 | the synced records that owe a photo, each once, oldest first |
| OfflineQueue.KeyValueStore.Counts | apps/mobile/src/lib/queue.ts:100-105 | the tally counts the records of each status |
| OfflineQueue.KeyValueStore.PruneSynced | apps/mobile/src/lib/queue.ts:137-154 | exactly the finished synced records before the cutoff are dropped, and their number is answered |
| OfflineQueue.PendingIs | apps/mobile/src/lib/queue.ts:87-92 | queued and syncing records, each once, oldest first, and in capture order where times are equal |
| OfflineQueue.PendingPhotosAre | apps/mobile/src/lib/queue.ts:119-130 | synced records with a photo not yet sent, each once, oldest first |
| Sync.StepKeepsInv | apps/mobile/src/lib/api.ts:172-226 | every queue write, request, stored photo and prune keeps: one event per hash, records that speak the truth, nothing lost |
| Sync.EveryRun | apps/mobile/src/lib/api.ts:138-230 | the same over every run, and the server forgets nothing, with lost replies, failed posts, crashes and overlapping passes |
| Sync.ExactlyOnceDelivery | apps/mobile/src/lib/api.ts:172-215 | a synced or rejected record has exactly one event and names it, a rejected one's is quarantined, a photo marked sent is held |
| Sync.NoWeighInLost | apps/mobile/src/lib/queue.ts:62-154 | from capture on a record is in the queue once and unaltered, or was pruned with its event and photo on the server and its time before a cutoff |
| SyncPass.PassIsRun | apps/mobile/src/lib/api.ts:138-230 | a whole pass is a run of the small steps and keeps their invariant |
| SyncPass.OutcomeIsWhatTheQueueShows | apps/mobile/src/lib/api.ts:147-230 | an uninterrupted pass tries each unfinished record once; its counters, photos sent included, are the change in the queue's counts, and none is left syncing |
| SyncPass.GoodNetworkDrains | apps/mobile/src/lib/api.ts:172-227 | one pass in which every post is taken and answered leaves nothing pending, and no photo owed if and only if each late photo was stored and that was answered |
| SyncPass.PhotosOwedAfterPass | apps/mobile/src/lib/api.ts:217-227 | after any pass the photos owed are exactly those that its second loop sent and that were not both stored and answered |
| PassVerdicts.RecordAfterTries | apps/mobile/src/lib/api.ts:172-215 | the k-th unfinished record, oldest first, ends as the k-th post and photo say: queued with one attempt more, rejected, or synced with its event, times and photo; nothing else of it changes |
| PassVerdicts.TryVerdict | apps/mobile/src/lib/api.ts:172-215 | one try touches no other record, and stores an event exactly when the post arrived, was fit, and its payload was new |
| PassVerdicts.SettledNotTried | apps/mobile/src/lib/queue.ts:87-92 | the first loop leaves settled records as they are |
| PassVerdicts.OwedAfterPass | apps/mobile/src/lib/api.ts:217-227 | a record that owed its photo has it marked sent, at the time of its turn, if that was stored and answered, and is otherwise unchanged |
| PassVerdicts.NotOwedNotTouched | apps/mobile/src/lib/api.ts:217-227 | the second loop leaves every other record as it is |
| Sync.FirstReplySettlesClean | apps/mobile/src/lib/api.ts:179-205 | over every run a record settled on a reply that is no duplicate has one event, and it is clean then and for ever |
| Sync.CleanExactlyWhenNotDuplicate | apps/mobile/src/lib/api.ts:179-205 | a record that is not refused is clean in every run if and only if its reply is no duplicate |
| Sync.DuplicateSettlement | apps/mobile/src/lib/api.ts:179-205 | after a lost first reply the record is synced by a duplicate, and its event is quarantined exactly when the first post failed its checks |
| SyncPass.SharedIdLosesWeighIn | apps/mobile/src/lib/queue.ts:67-79 | of two records with one id, settling the first marks the second synced: nothing is pending, the server has never had it, and pruning drops it |
| SyncPass.Session.PostWeighIn | apps/mobile/src/lib/api.ts:61-79 | a post reaches the server or not, and its reply the phone or not |
| SyncPass.Session.TryPhoto | apps/mobile/src/lib/api.ts:162-170 | sends a photo if there is one; a failure is an answer, not an error |
| SyncPass.Session.TryRecord | apps/mobile/src/lib/api.ts:172-215 | one record is marked, posted and given one verdict |
| SyncPass.Session.SyncPending | apps/mobile/src/lib/api.ts:138-230 | both loops leave the queue, the server and the counters as the pass function says, and keep the invariant; offline nothing changes and nothing is counted |
| Ingest.EventsService.LookupPart | apps/backend/src/events/events.service.ts:55-75 | the reads before an insert: unsupported schema and unknown material are refused first |
| Ingest.EventsService.InsertPart | apps/backend/src/events/events.service.ts:98-149 | a known payload is a duplicate of the stored event, unknown references are refused, and the insert fails exactly when the unique index is violated |
| Ingest.EventsService.RecoverPart | apps/backend/src/events/events.service.ts:150-165 | after a violation the row stored under the payload's hash is answered as the original |
| Ingest.RunKeepsInv | apps/backend/src/events/events.service.ts:55-167 | over every schedule rows are unique and permanent, and every accepted reply names the row of its payload |
| Ingest.SamePayloadSameEvent | apps/backend/src/events/events.service.ts:66-167 | submissions of one payload get one event id, and at most one of them is told it is new |
| Ingest.ConcurrentIngestConverges | apps/backend/src/events/events.service.ts:66-167 | a new payload submitted any number of times at once: one row, one id for all, exactly one not a duplicate |
| Ingest.UnfitIsRefused | apps/backend/src/events/events.service.ts:55-109 | over every schedule a submission is refused for its schema, then for its material, and a fit one only for unknown references; what is stored as new is quarantined exactly when its checks fail |
| Batches.StepKeepsInv | apps/backend/src/batches/batches.service.ts:169-507 | every call keeps totals and counts equal to membership, members clean and fitting, sealed roots the Merkle roots of ordered members, anchors and histories consistent |
| Batches.RunKeepsInv | apps/backend/src/batches/batches.service.ts:169-507 | the same over every run of serial calls |
| Batches.ChosenFits | apps/backend/src/batches/batches.service.ts:180-201 | an event that addEvents moves was unbatched, clean, at the hub and of the material |
| Batches.MoveElsewhere | apps/backend/src/batches/batches.service.ts:201-224 | adding to or removing from one batch leaves every other membership as it was |
| BatchEffects.OrderedIs | apps/backend/src/batches/batches.service.ts:120-125 | the leaves' order: by capture time, by id where times are equal |
| BatchEffects.SealAnswers | apps/backend/src/batches/batches.service.ts:253-281 | when a batch is sealed, and otherwise which refusal is given |
| BatchEffects.SealEffect | apps/backend/src/batches/batches.service.ts:283-296 | the sealed row in full: status, weight, number, root over the ordered members, time |
| Lifecycle.AddedExactly | apps/backend/src/batches/batches.service.ts:180-201 | an accepted addEvents makes members of exactly the events named, besides those there were |
| Lifecycle.RemovedExactly | apps/backend/src/batches/batches.service.ts:221-229 | an accepted removeEvent takes out exactly the event named |
| Lifecycle.RemoveUndoesAdd | apps/backend/src/batches/batches.service.ts:169-234 | removing an event that was just added restores every table, totals included |
| Batches.WeightPermuted | apps/backend/src/batches/batches.service.ts:236-246 | a total does not depend on the order of the rows |
| Lifecycle.SealedNeverChanges | apps/backend/src/batches/batches.service.ts:253-332 | over every run of calls taken one after another a batch that is not open keeps its ordered members, root, weight, count and seal time, and its status only moves on |
| Lifecycle.SealOrderIrrelevant | apps/backend/src/batches/batches.service.ts:115-125 | the sealed order does not depend on the order in which members were added |
| Lifecycle.MembersVerify | apps/backend/src/batches/batches.service.ts:513-540 | verifyEvent answers exactly for the members of sealed batches, always with a valid proof of that member's hash |
| Lifecycle.VerifyAnswers | apps/backend/src/batches/batches.service.ts:513-548 | the root answered is the batch's, the verdict is the verifier's on the leaf, proof and root answered, and the leaf is that member's; otherwise which refusal is given |
| Lifecycle.ProvableForever | apps/backend/src/batches/batches.service.ts:513-540 | after any later calls verifyEvent gives the same leaf, proof, root and verdict |
| Lifecycle.OnlyMembersProvable | apps/backend/src/batches/batches.service.ts:513-540 | whatever hash is accepted against a sealed root is a member's, with the proof verifyEvent hands out |
| Lifecycle.WeightConserved | apps/backend/src/batches/batches.service.ts:169-246 | batch totals plus unbatched weight equal all ingested weight |
| Lifecycle.OnlyIngestAddsWeight | apps/backend/src/batches/batches.service.ts:169-246 | no batch call adds or removes weight |
| Lifecycle.OneAnchorPerBatch | apps/backend/src/batches/batches.service.ts:422-507 | in every reachable state an anchored batch is sealed under its anchor's root; attempts run from 1 without a gap, with one success, the last, exactly when anchored |
| Lifecycle.AnchorIsFinal | apps/backend/src/batches/batches.service.ts:444-455 | after any later calls, the same write-back is accepted and changes nothing, another transaction or a failure is refused |
| Lifecycle.OfferedExactlyWhenDue | apps/backend/src/batches/batches.service.ts:342-367 | a batch is offered exactly when it is sealed, rooted, not anchored and its backoff has elapsed |
| Lifecycle.OfferedOnceOldestFirst | apps/backend/src/batches/batches.service.ts:342-367 | each offered batch comes once, oldest seal first |
| BatchEffects.OffersAre | apps/backend/src/batches/batches.service.ts:342-356 | the offers are the sealed, rooted, unanchored batches that are due, each once |
| BatchEffects.OffersInSealOrder | apps/backend/src/batches/batches.service.ts:342-352 | none is offered before one that was sealed earlier |
| Lifecycle.OfferedWithinTheHour | apps/backend/src/batches/anchor-backoff.ts:22-27 | a batch that awaits its anchor is offered as soon as every attempt at it is an hour old |
| Lifecycle.ProcessedIsNotOffered | apps/backend/src/batches/batches.service.ts:342-352 | a batch once processed or sold is never offered again, anchored or not |
| Lifecycle.OfferHolds | apps/backend/src/batches/batches.service.ts:342-367 | an attempt written back follows its offer whatever calls came between, short of another attempt at the batch |
| Lifecycle.OfferedCanBeAnchored | apps/backend/src/batches/batches.service.ts:422-477 | an offered batch's root in a fresh transaction is accepted, and the batch is not offered again |
| Lifecycle.LateFailuresAreRare | apps/backend/src/batches/anchor-backoff.ts:22-27 | over every run in which attempts written back follow an offer, even if the batch was advanced since, failures from the eighth on fall at most 24 times in any half-open 24 hours |
| Overlap.RunKeepsSound | apps/backend/src/batches/batches.service.ts:169-206 | over every interleaving of addEvents halves and other calls, members are clean and fit their batch and a held batch stays open |
| Overlap.ApartIsSerial | apps/backend/src/batches/batches.service.ts:169-206 | overlapping calls that name no event in common leave the tables of a run of calls taken one after another |
| Overlap.SealedSurvivesExactlyWhen | apps/backend/src/batches/batches.service.ts:180-201 | however the addEvents calls in progress end, sealed batches keep row and members if and only if no chosen event is in, or chosen for, a second batch |
| Overlap.ChoosingIsSafeExactlyWhenApart | apps/backend/src/batches/batches.service.ts:180-201 | one more addEvents keeps that if and only if it names no event that a call in progress has chosen |
| Overlap.OverlapTakesSealedMember | apps/backend/src/batches/batches.service.ts:180-201 | from any state in which two calls would choose one event, a schedule in which it verifies against a sealed batch and then is not in it, while the sealed row still counts it |
| Overlap.HalvesMakeOneCall | apps/backend/src/batches/batches.service.ts:169-206 | with no other call about the two halves are one addEvents call |
| BatchesService.BatchesService.CreateBatch | apps/backend/src/batches/batches.service.ts:131-148 | a new batch is open and empty, its material still offered |
| BatchesService.ChooseEvents | apps/backend/src/batches/batches.service.ts:180-199 | the ids to move are those of the eligible rows; a missing one or a wrong material refuses all |
| BatchesService.BatchesService.AddEventsCall | apps/backend/src/batches/batches.service.ts:169-206 | refused with nothing changed, or the events moved and the totals recomputed |
| BatchesService.BatchesService.RemoveEventCall | apps/backend/src/batches/batches.service.ts:208-234 | likewise for taking one event out of an open batch |
| BatchesService.Totals | apps/backend/src/batches/batches.service.ts:236-246 | the sum and number of the members |
| BatchesService.BatchesService.SealCall | apps/backend/src/batches/batches.service.ts:253-299 | refused, or sealed under the Merkle root of the members by capture time then id |
| BatchesService.BatchesService.AdvanceStatus | apps/backend/src/batches/batches.service.ts:301-332 | only the next status, never by this call to sealed, never processed without a root |
| BatchesService.BatchesService.RecordAttempt | apps/backend/src/batches/anchor-attempts.service.ts:60-83 | the attempt is appended to its batch's history and no other; a history numbered from 1 without a success stays so, or closes with this one |
| BatchesService.BatchesService.RecordAnchorCall | apps/backend/src/batches/batches.service.ts:422-477 | refused, repeated without effect, or anchored with the history closed |
| BatchesService.BatchesService.RecordAnchorFailure | apps/backend/src/batches/batches.service.ts:486-507 | refused for an unsealed or anchored batch, otherwise appended |
| BatchesService.BatchesService.PendingAnchorCall | apps/backend/src/batches/batches.service.ts:342-367 | the filtered query is the list of the lemmas on offers |
| BatchesService.BatchesService.VerifyEventCall | apps/backend/src/batches/batches.service.ts:513-540 | leaf, proof and verdict from the Merkle kernel, as in the lemmas on verification |
| AnchorBackoff.DelayShape | apps/backend/src/batches/anchor-backoff.ts:39-44 | thirty seconds, doubled with each failure up to the seventh, and one hour exactly from the eighth |
| AnchorBackoff.SummaryIs | apps/backend/src/batches/anchor-attempts.service.ts:100-131 | however the rows are stored: all attempts and all failures are counted, and no attempt is later than the last |
| AnchorBackoff.DueExactlyWhen | apps/backend/src/batches/anchor-backoff.ts:46-59 | due when never tried, when nothing failed, when the last attempt succeeded, or when the backoff of all failures has passed since it |
| AnchorBackoff.OfferedGaps | apps/backend/src/batches/anchor-backoff.ts:47-59 | attempts made when due are at least their backoff apart |
| AnchorBackoff.StuckAfterHalfAnHour | apps/backend/src/batches/anchor-backoff.ts:29-63 | a batch is stuck exactly from the sixth failure, and its seventh attempt comes at least half an hour after the first |
| AnchorBackoff.AtMostOncePerHour | apps/backend/src/batches/anchor-backoff.ts:22-27 | of such attempts those from the eighth on are at most 24 in any half-open 24 hours |
| Registry.RunReplays | contracts/batch-registry/src/lib.rs:63-197 | after every run of accepted and refused calls, replaying the published events gives the admin, issuers and batches |
| Registry.LogsAreValidLogs | contracts/batch-registry/src/lib.rs:63-197 | a log is the log of some run exactly when each event was admissible in the state before it |
| Registry.StoredExactlyAsPublished | contracts/batch-registry/src/lib.rs:122-197 | after every run a batch is stored with a record if and only if the log registered it with that root, weight, issuer and ledger, and credited it in that ledger or not at all |
| Registry.AcceptedExactlyWhen | contracts/batch-registry/src/lib.rs:63-221 | exactly which calls are accepted, and that each publishes its own arguments and the ledger it ran in |
| Registry.AllowListFromLog | contracts/batch-registry/src/lib.rs:81-114 | an issuer is on the allow-list exactly when the last word of the log on it was to add it |
| Registry.AdminGateFromLog | contracts/batch-registry/src/lib.rs:199-204 | after every run the admin gate passes exactly when the admin that the log announced has signed |
| Registry.IssuerGateFromLog | contracts/batch-registry/src/lib.rs:206-221 | after every run the issuer gate passes exactly when the contract is initialised, the issuer has signed, and the log last added it |
| Registry.OnceEach | contracts/batch-registry/src/lib.rs:122-197 | each batch is registered at most once and credited at most once, by any issuer, and flag and credited ledger agree |
| Registry.RunPreserves | contracts/batch-registry/src/lib.rs:93-197 | a registered batch keeps its root, weight, issuer and ledger for ever, a credited one is never written again, and the admin never changes |
| Registry.WeightConserved | contracts/batch-registry/src/lib.rs:122-197 | registered weight is credited weight plus that of the batches not yet credited |
| Registry.BatchRegistry.InitializeAdmin | contracts/batch-registry/src/lib.rs:63-72 | sets the admin once |
| Registry.BatchRegistry.AddIssuerCall | contracts/batch-registry/src/lib.rs:81-91 | storage and log change as the published event says, or not at all |
| Registry.BatchRegistry.RemoveIssuerCall | contracts/batch-registry/src/lib.rs:99-109 | likewise, and no batch is touched |
| Registry.BatchRegistry.RegisterCall | contracts/batch-registry/src/lib.rs:122-156 | likewise, with the checks in the contract's order |
| Registry.BatchRegistry.MarkCreditedCall | contracts/batch-registry/src/lib.rs:173-197 | likewise |
| Registry.BatchRegistry.RequireAdminAuth | contracts/batch-registry/src/lib.rs:201-204 | passes exactly when the announced admin has signed, and then and only then an unlisted issuer can be added |
| Registry.BatchRegistry.RequireIssuerAuth | contracts/batch-registry/src/lib.rs:210-221 | passes exactly when the issuer has signed and the log last added it, and then and only then it can register an unseen batch |
| LedgerVerification.KeysCollideExactlyWhen | apps/backend/src/ledger/ledger-verification.service.ts:85-87 | two questions share a key if and only if they agree, or one id is the other with a colon and x and the other root is x, a colon and the first |
| LedgerVerification.CacheKeyInjective | apps/backend/src/ledger/ledger-verification.service.ts:85-87 | without a colon in the roots, or in the transaction ids, a key stands for one transaction and one root |
| LedgerVerification.CacheKeyCollision | apps/backend/src/ledger/ledger-verification.service.ts:85-87 | every transaction id, root and x give such a pair |
| LedgerVerification.StepKeepsInv | apps/backend/src/ledger/ledger-verification.service.ts:89-116 | every caller, read completion and clean-up keeps the cache and single-flight invariant |
| LedgerVerification.EveryInterleaving | apps/backend/src/ledger/ledger-verification.service.ts:89-116 | over every interleaving: one outstanding read per key, in-flight keys are those with one, only confirmations cached and for good, no read after a confirmation |
| LedgerVerification.CleanUpFrees | apps/backend/src/ledger/ledger-verification.service.ts:108-112 | whatever the outcome of a read, after its clean-up its key is not in flight and the read is settled with that outcome |
| LedgerVerification.ReadAgainAfterCleanUp | apps/backend/src/ledger/ledger-verification.service.ts:89-115 | then the next call for a key that is not confirmed starts a new read |
| LedgerVerification.WaiterGetsItsRead | apps/backend/src/ledger/ledger-verification.service.ts:94-115 | a caller that waits on a settled read is delivered, however much later, the answer of that read, or is thrown to if it threw |
| LedgerVerification.TrueAnswersAreOnTheLedger | apps/backend/src/ledger/ledger-verification.service.ts:89-179 | every true answer follows a read that found that root for that transaction, and found it for the caller's own anchor if the memo matched or the entry keys agree |
| LedgerVerification.CarriedExactlyWhen | apps/backend/src/ledger/ledger-verification.service.ts:84-116 | for any set of anchors that may be asked about: true answers are about the caller's own anchor in every run if and only if no two of them share a cache key |
| LedgerVerification.OtherAnchorAnswered | apps/backend/src/ledger/ledger-verification.service.ts:84-116 | for any two anchors with one key, a run in which the second caller is answered true and nothing read carries the root for its anchor |
| Audit.AnchorsAreAnsweredForThemselves | apps/backend/src/batches/batches.service.ts:526-538 | in every reachable state the stored anchors, and those stored earlier, meet that condition, so an auditor's true answer is about that batch's anchor |
| LedgerVerification.LedgerVerificationService.VerifyCall | apps/backend/src/ledger/ledger-verification.service.ts:89-98 | cached, joined to the read in flight, or a new read |
| LedgerVerification.LedgerVerificationService.ThenCallback | apps/backend/src/ledger/ledger-verification.service.ts:99-107 | only a true answer is cached |
| LedgerVerification.LedgerVerificationService.FinallyCallback | apps/backend/src/ledger/ledger-verification.service.ts:108-112 | the key leaves the in-flight map whatever the outcome |
| RateLimit.EvictionInvisible | apps/backend/src/common/rate-limit.guard.ts:99-110 | evicting at any moments or never gives the same answers |
| RateLimit.BucketBound | apps/backend/src/common/rate-limit.guard.ts:82-96 | a bucket has admitted as many calls as it counts, and at most the limit |
| RateLimit.WindowBound | apps/backend/src/common/rate-limit.guard.ts:70-97 | in any half-open interval of one window length at most twice the limit less one calls for a key are accepted, and at most the limit when a window is one tick |
| RateLimit.WindowBoundTight | apps/backend/src/common/rate-limit.guard.ts:70-97 | for every limit, and every window of at least two clock ticks, a run reaches that bound |
| RateLimit.SlidingPromiseHoldsExactlyWhen | apps/backend/src/common/rate-limit.guard.ts:49-54 | the limit holds in every interval of one window length if and only if windows are empty, or the limit is 1, or it is at least 1 and a window is one tick |
| RateLimit.ZeroActsAsOne | apps/backend/src/common/rate-limit.guard.ts:82-93 | a limit of 0 gives the answers of a limit of 1 |
| RateLimit.AnyClockBoundedExactlyWhen | apps/backend/src/common/rate-limit.guard.ts:80-110 | over runs in which the clock may step back no number bounds the calls accepted in a window length, unless windows are empty |
| RateLimit.RefusedOnlyWhenFull | apps/backend/src/common/rate-limit.guard.ts:89-93 | a refused call falls in a window that has admitted its full limit |
| RateLimit.OtherKeysDoNotMatter | apps/backend/src/common/rate-limit.guard.ts:79-97 | the calls accepted for a key are those that would be without any other keys |
| RateLimit.RateLimitGuard.CanActivate | apps/backend/src/common/rate-limit.guard.ts:70-97 | answer and buckets are those of the step that the bounds are about |
| RateLimit.RateLimitGuard.MaybeEvictExpired | apps/backend/src/common/rate-limit.guard.ts:105-110 | the loop removes exactly the expired buckets, when there are many and the draw says so |
| Csv.CsvRoundTrip | apps/backend/src/reports/reports.service.ts:362-370 | a section 2 reader of RFC 4180 gets back exactly the rows written, whatever the cells, if and only if no last row of one empty cell follows another row |
| Csv.QuotedExactlyWhen | apps/backend/src/reports/reports.service.ts:367-370 | a cell is quoted exactly when it contains a quote, a comma or a line break character |
| Reports.ReportIsTamperEvident | apps/backend/src/reports/reports.service.ts:197-223 | all proofs of a non-empty report are valid, and the root matches exactly when the sealed hashes are listed in their order |
| Reports.SectionIs | apps/backend/src/reports/reports.service.ts:197-223 | the recomputed root, the proof of each event, and both verdicts, the empty report included |
| Audit.ReportMatchesExactlyWhenSealed | apps/backend/src/reports/reports.service.ts:171-223 | in every reachable state the report of a batch says that its root matches exactly when the batch is sealed, and that all proofs are valid exactly when it has events |
| Audit.ReportHoldsForever | apps/backend/src/reports/reports.service.ts:197-223 | after any later calls the report of a sealed batch has the same proofs, all valid, against the sealed root |
| Audit.ReportShowsTheProofs | apps/backend/src/reports/reports.service.ts:199-201 | the proofs in the report are those that verifyEvent hands out |
| Reports.FixedKgInjective | apps/backend/src/reports/reports.service.ts:351-351 | different grams print differently |
| Reports.FixedKgReads | apps/backend/src/reports/reports.service.ts:351-351 | read without its point, which is three places from the end, the weight is the grams |
| Reports.EventCsvRoundTrip | apps/backend/src/reports/reports.service.ts:325-363 | the export reads back as the header and twelve cells per event |
| Reports.ColumnsCarry | apps/backend/src/reports/reports.service.ts:328-359 | under each of the twelve headings a reader finds that field of each event |

## Left out

- SHA-256, ed25519, base64 and the host's authorisation: hashes are free terms, memos and data entries are taken as hex, a signer set stands for signatures.
- `evaluateIntegrity`: its verdict is part of a submission.
- Interleavings inside advanceStatus, recordAnchor, attempt numbering and the phone's read-then-write of its queue, and inside the second half of addEvents: each is one step. Ingest, the ledger read and the two halves of addEvents are interleaved.
- Lifecycle.SealedNeverChanges: is about calls taken one after another, as are the other results on runs of `Batches`; `Overlap` says exactly when overlapping addEvents calls leave them true.
- An ingest inside the sync model is one step; `Ingest` has its lookup, insert and recovery as separate steps, and shows that all schedules agree.
- Ids by random generation: record, event and batch ids are fresh numbers. An enqueue with an id already used is not a step of the sync model; `SyncPass.SharedIdLosesWeighIn` shows why.
- A corrupt queue blob, which the phone reads as an empty queue, and a failing store write: every queue write takes place or the pass ends before it.
- Queue views that only filter or add (recent, unsyncedWeightKg), the last error text, and the texts shown to the collector.
- Weights of 10^12 kg and more, where a double no longer holds grams and toFixed or the shortest decimal would show it: a weight is an exact real and a total an exact sum of grams.
- Array holes, objects with inherited or accessor properties, and values with toJSON in the canonical encoder.
- ISO strings: capture, creation and seal times are compared as milliseconds, which is the order of the strings the code writes.
- Equal seal times and equal attempt times come in insertion order; the database leaves that order open.
- RateLimit.WindowBound: is about a clock that does not step back; `RateLimit.AnyClockBoundedExactlyWhen` shows that without this there is no bound.
- Lifecycle.LateFailuresAreRare: is about attempts written back after an offer with no other attempt at the batch in between, as one worker makes them; the worker's poll loop is not part of this model.
- pendingAnchor's totals, failure counts and details, the operator's view of anchoring, event and batch listings, and the report's custody and per-collector sums: views of rows.
- The ledger answer that verifyEvent attaches to a proof: `LedgerVerification` covers it.
- The registry's storage lifetimes and rent, and its two reads.
- Photo bytes: the server holds a photo for an event or does not; what it checks before storing is the network's answer here.
- Controllers, configuration, materials administration, user interfaces, devices and the service worker.
