# DeskKin verification model

A Dafny model of the stateful cores of DeskKin and of its fixed-point drawing kernels, with proofs about every run
or every input of each. DeskKin is a small desk device (an ESP32-S3 with two CPUs) paired with a desktop host; the two
share a revocable trust relation, exchange availability results, and draw a small world on the device's screen.

One module models one part of the system.

| module | what it models |
|---|---|
| `Common` | the optional value and the integer ranges shared by the others |
| `Bytes`, `Crc32`, `RecordCodec` | byte layouts, the CRC of section 8 of RFC 1952, and the flash record format |
| `FlashStore`, `DeviceUnpair`, `DeviceIdentity` | the two-slot flash store with a crash allowed at every NVS call, interrupted revocation, and the device's identity operations |
| `HostIdentity`, `RevocationGate`, `SessionWriter` | the host's identity store, its concurrent users, and the session writer's queue |
| `Pairing`, `PairingProgress` | the two-party pairing protocol with failures everywhere, and without any |
| `Scanner` | the resynchronising reader of the control stream |
| `Seqlock`, `RingLog`, `TouchRing`, `DiagnosticRing`, `YawLimiter` | the channels between the two CPUs, and the yaw rate limit |
| `OwnerTable` | the owner's command table and the pairing decision channel |
| `ApplicationCore`, `Availability`, `SyntheticNotice`, `Application` | the two features and their transactional composition |
| `Rgb565`, `Compositing`, `SpanDrawing` | RGB565 words, the filtered compositing kernel, and span drawing, blits and cutouts |
| `Mipmap`, `MipChain` | mip reduction, the mip chain of a texture, and the choice of a level |

Protocols are step relations over arbitrary interleavings. Objects that the source updates in place are classes whose
methods are proved equal to functions on their abstract value; what the source promises is then proved about those
functions, over whole runs. Randomness, clocks and I/O results are parameters or nondeterministic choices.

Four things the proofs bring out about the code as it is, each with its exact condition:

- A running application cannot be stopped after a refresh timer failed to arm: `Application.StopsExactly`,
  `Application.GetsStuckExactly`, `Application.StuckForever` and `Application.StuckHappens` say exactly when.
- An interrupted unpair of the device can be finished by retrying if and only if no intent is left or the intent is
  whole and its slot holds a decodable record of its sequence (`DeviceUnpair.RetryFinishesExactly`). A publication
  leaves a store without that property exactly when it is cut after anything of its intent was written and before its
  record was complete (`DeviceUnpair.SticksExactly`); no torn write is needed, a reset between the two suffices
  (`DeviceUnpair.ResetBeforeRecordSticks`). Such a store keeps failing closed and no retry changes it
  (`DeviceUnpair.RetryFinishesOrStaysClosed`).
- A `CommandResult` query shows a command's own response if and only if no older record noted a decision under its id
  (`OwnerTable.LookUpShowsExactly`); `OwnerTable.DecisionHidesCommand` is a run in which it does not.
- `deskkin_diagnostic_read` by itself, given a cursor beyond the newest number, delivers a stale slot
  (`DiagnosticRing.DiagnosticEvents.Read`). The one caller in the repository, the streaming loop, starts at zero and
  passes only delivered numbers, so it never does (`DiagnosticRing.DiagnosticEvents.Stream`).

## Model

| member | source | states |
|---|---|---|
| `Crc32.Crc32Update` | crates/deskkin-core-s3/src/lib.rs:495-504 | the two nested loops with the subtracted mask compute the bit-serial remainder register, for every start and all data |
| `Crc32.MaskSelects` | crates/deskkin-core-s3/src/lib.rs:499-501 | the branch-free `0 - (crc & 1)` mask feeds back exactly when the low bit is set |
| `Crc32.Concatenation` | crates/deskkin-core-s3/src/lib.rs:495-504 | the register after two runs of bytes is the register after their concatenation |
| `Crc32.Linear` | crates/deskkin-core-s3/src/lib.rs:495-504 | the update is linear over GF(2), jointly in the register and the data |
| `Crc32.Injective` | crates/deskkin-core-s3/src/lib.rs:495-504 | for fixed data, different registers stay different |
| `Crc32.BurstDetected` | crates/deskkin-core-s3/src/lib.rs:495-504 | from one register, two different runs of up to four bytes never meet again |
| `Crc32.CheckValue` | crates/deskkin-core-s3/src/lib.rs:491-504 | the nine digits have the check value by which the CRC-32 of RFC 1952 is known |
| `RecordCodec.WireRoundTrip` | crates/deskkin-core-s3/src/lib.rs:232-274 | state bytes and record states correspond one to one, in both directions |
| `RecordCodec.EncodeRecord` | crates/deskkin-core-s3/src/lib.rs:307-328 | in-place encoding writes exactly the encoded record and leaves the rest of the buffer; an oversize payload or a short buffer is an error that writes nothing |
| `RecordCodec.DecodeUndoesEncode` | crates/deskkin-core-s3/src/lib.rs:307-361 | decoding an encoded record gives it back, for every valid record |
| `RecordCodec.EncodeUndoesDecode` | crates/deskkin-core-s3/src/lib.rs:330-361 | every accepted byte string is the encoding of what it decodes to |
| `RecordCodec.EncodedInjective` | crates/deskkin-core-s3/src/lib.rs:307-328 | different records have different encodings |
| `RecordCodec.BurstRejected` | crates/deskkin-core-s3/src/lib.rs:330-361 | any alteration within four consecutive bytes, wholly inside or wholly outside the CRC field, is rejected |
| `RecordCodec.PrefixRejected` | crates/deskkin-core-s3/src/lib.rs:330-361 | every proper prefix of a record, as an interrupted write leaves it, is rejected |
| `RecordCodec.WireLayout` | crates/deskkin-core-s3/src/lib.rs:307-328 | schema, state byte, length, sequence and generation lie where the format puts them, most significant byte first |
| `RecordCodec.RefusalsExactly` | crates/deskkin-core-s3/src/lib.rs:330-361 | each refusal has its exact condition on the input bytes, and the first that holds is the one reported |
| `FlashStore.Nvs.WriteReadback` | apps/core-s3-service/src/adapter.c:474-510 | write, check of the reported length, read back and compare: success implies that the whole value is stored, and everything else leaves the old value, the new one or a prefix of it and reports failure |
| `FlashStore.Nvs.PublishRecord` | apps/core-s3-service/src/lib.rs:196-223 | intent, record in the slot of the new sequence's parity, delete: whatever each call does and reports, the flash is the published prefix of those three steps and success means all of them; overflow and oversize change nothing |
| `FlashStore.PublishKeepsSound` | apps/core-s3-service/src/lib.rs:196-223 | an admissible publication cut anywhere keeps the store invariant: odd sequences in A, even in B, the previous record intact while an intent exists |
| `FlashStore.RollForwardKeepsSound` | apps/core-s3-service/src/lib.rs:352-421 | deleting the intent of a complete record makes that record the newest one and keeps the invariant |
| `FlashStore.HistoryKeepsSound` | apps/core-s3-service/src/lib.rs:180-223 | every history of publications and roll-forwards with faults anywhere keeps the invariant, and the newest completed sequence never falls |
| `FlashStore.SoundSelection` | crates/deskkin-core-s3/src/lib.rs:363-387 | in a sound store slot selection returns the newest completed record or fails; it fails while an intent exists and succeeds otherwise |
| `FlashStore.CrashConsistency` | apps/core-s3-service/src/lib.rs:180-223 | after any history from a blank store, `canonical_record` is an error or exactly the newest record whose intent was deleted, never an older or torn one |
| `FlashStore.SuccessIsCanonical` | apps/core-s3-service/src/lib.rs:196-223 | a publication that reports success is what is read from then on |
| `FlashStore.TornIsNeverSelected` | apps/core-s3-service/src/lib.rs:180-223 | a torn record is never returned and never rolled forward |
| `FlashStore.SelectsNewest` | crates/deskkin-core-s3/src/lib.rs:363-387 | of two readable slots the greater sequence is selected, in either place; different records of one sequence conflict, and an unreadable slot fails the selection |
| `FlashStore.ReadsExactly` | apps/core-s3-service/src/lib.rs:180-194 | a record is read exactly when there is no intent, every read works and fits, and the slots select; everything else is a store failure |
| `FlashStore.UndisturbedPublish` | apps/core-s3-service/src/lib.rs:196-223 | calls that write, report and read back everything publish the record whole in the slot of its parity, leave the other slot, and leave no intent |
| `DeviceUnpair.RecoverInPhase` | apps/core-s3-service/src/lib.rs:352-421 | recovery only rolls a complete pending stage forward; it finishes, refuses, or finds nothing to do, and never skips or repeats a stage |
| `DeviceUnpair.BeginInPhase` | apps/core-s3-service/src/lib.rs:433-501 | beginning leaves Revoking at the next generation, once, or stops within the phase it found |
| `DeviceUnpair.AttemptInPhase` | apps/core-s3-service/src/lib.rs:525-530 | a whole attempt stays within the three stages; success means the final one |
| `DeviceUnpair.AttemptsInPhase` | apps/core-s3-service/src/lib.rs:352-530 | so does any sequence of interrupted attempts, and a stuck store stays as it is |
| `DeviceUnpair.PublishKeepsOnlyMayHold` | apps/core-s3-service/src/lib.rs:196-223 | however a publication ends, its slot decodes to the new sequence only if it holds the new record |
| `DeviceUnpair.InterruptedUnpair` | apps/core-s3-service/src/lib.rs:352-530 | after any crash pattern a reader fails closed or sees the paired record, its Revoking successor, or Unpaired with the 64-byte local payload, the latter two exactly one generation up |
| `DeviceUnpair.SuccessMeansUnpaired` | apps/core-s3-service/src/lib.rs:503-530 | success is reported only when the Unpaired record at the next generation is durable |
| `DeviceUnpair.RetryFinishesOrStaysClosed` | apps/core-s3-service/src/lib.rs:352-530 | after any interruptions a fault-free retry ends Unpaired when no intent is left or its record is complete; otherwise it fails, and then every reader and every later retry fails and changes nothing |
| `DeviceUnpair.RetryFinishesExactly` | apps/core-s3-service/src/lib.rs:352-530 | some retries finish an interrupted unpair if and only if no intent is left or its record is complete |
| `DeviceUnpair.SticksExactly` | apps/core-s3-service/src/lib.rs:196-223 | publishing either stage leaves a store no retry can finish exactly when it is cut after anything of the intent and before the record is complete |
| `DeviceUnpair.ResetBeforeRecordSticks` | apps/core-s3-service/src/lib.rs:352-381 | an attempt reset between the intent and the record of its first stage leaves such a store, without any torn write |
| `DeviceUnpair.ForeignPeerChangesNothing` | apps/core-s3-service/src/lib.rs:352-501 | a request naming another peer than the stored one, or than the one whose stage is pending, changes nothing in the flash whatever fails, never reports success, and is answered PeerMismatch over a readable record |
| `DeviceUnpair.ForeignRequestsChangeNothing` | apps/core-s3-service/src/lib.rs:352-530 | nor does any sequence of such requests, each with faults of its own |
| `DeviceUnpair.QuietAnswers` | apps/core-s3-service/src/lib.rs:433-530 | an undisturbed request over a settled store succeeds if and only if it names the stored peer by its 32 bytes and both counters have room; each other answer has its exact condition |
| `DeviceUnpair.QuietUnpairs` | apps/core-s3-service/src/lib.rs:433-530 | and then the store holds the Unpaired record with the 64 local bytes, one generation after the pairing, also when an interrupted revocation is resumed |
| `DeviceIdentity.IdentityService.RecoverIdentityIntent` | apps/core-s3-service/src/lib.rs:352-421 | the in-memory peer and generation change only when recovery completes an unpair, to match the durable record |
| `DeviceIdentity.IdentityService.BeginIdentityUnpair` | apps/core-s3-service/src/lib.rs:433-501 | whatever the flash calls do, the flash and the answer are those of the begin step of the crash proofs; the shown state is Revoking at the new generation when it begins; a request that does not name the stored peer is a PeerMismatch that changes neither flash nor memory |
| `DeviceIdentity.IdentityService.FinishIdentityUnpair` | apps/core-s3-service/src/lib.rs:503-523 | on success the shown peer is cleared at the revoked generation, otherwise nothing shown changes |
| `DeviceIdentity.IdentityService.IdentityUnpair` | apps/core-s3-service/src/lib.rs:525-530 | begin followed by finish on the object is the attempt the crash proofs speak of; one that names another peer changes nothing |
| `DeviceIdentity.IdentityService.IdentityInit` | apps/core-s3-service/src/lib.rs:225-270 | a new identity is published only into a readable store without record or intent; every other case writes nothing |
| `DeviceIdentity.IdentityService.PublishPeer` | apps/core-s3-service/src/lib.rs:847-864 | a pairing stage is published under the cached sequence, which moves on only when the publication succeeded; the last sequence is refused and nothing is written |
| `HostIdentity.IdentityStore.PublishLocked` | apps/desktop-host/src/lib.rs:657-688 | at whichever step it fails, the identity file is the whole old or the whole new identity; it is the new one exactly when the hook ran, and success implies it |
| `HostIdentity.IdentityStore.SetPeer` | apps/desktop-host/src/lib.rs:423-434 | failures to open, lock or read come first; then only the three forward transitions of one remote key and one transaction are published, and the generation stays |
| `HostIdentity.IdentityStore.Unpair` | apps/desktop-host/src/lib.rs:468-557 | Revoking at the next generation first, unless already Revoking, then Unpaired; each error leaves the state its stage implies |
| `HostIdentity.GenerationCountsRevocations` | apps/desktop-host/src/lib.rs:499-556 | over any history of init, pairing, unpair and failures, the generation is the first one plus the number of revocations |
| `HostIdentity.PairedEpochsIncrease` | apps/desktop-host/src/lib.rs:423-556 | distinct Paired epochs have distinct, increasing generations |
| `HostIdentity.RetriedUnpairFinishes` | apps/desktop-host/src/lib.rs:468-557 | however often an unpair fails, an undisturbed retry ends Unpaired and the generation has risen exactly once |
| `HostIdentity.UnpairedStays` | apps/desktop-host/src/lib.rs:468-497 | an unpaired store refuses every further unpair and does not change |
| `HostIdentity.SetPeerStores` | apps/desktop-host/src/lib.rs:423-434 | success is reported exactly when the peer given is the next stage of the stored one and has been stored; a failure stores nothing or, after the rename, all of it |
| `HostIdentity.UnpairExactly` | apps/desktop-host/src/lib.rs:468-557 | success exactly when the named peer is stored, the generation has room, both publications work and the sessions have joined; the peer is given up only after they have, and once the revocation is renamed every failure leaves it to be resumed |
| `HostIdentity.LifeOfAPairing` | apps/desktop-host/src/lib.rs:423-557 | undisturbed, a new store goes through the three stages to Paired at generation 0 and by unpair of that key alone to Unpaired at generation 1 |
| `RevocationGate.LocksKept` | apps/desktop-host/src/lib.rs:405-545 | gate and file lock are held by exactly the thread whose position says so |
| `RevocationGate.DurableChanges` | apps/desktop-host/src/lib.rs:423-557 | the identity changes only under the file lock and leaves Paired only under the gate too |
| `RevocationGate.KnowledgeKept` | apps/desktop-host/src/lib.rs:405-422 | what a thread read under a lock stays true while it holds it, whatever the others do |
| `RevocationGate.StepKeepsInvariant` | apps/desktop-host/src/lib.rs:405-557 | every step of every thread, resets included, keeps the lock, knowledge and log invariants |
| `RevocationGate.RevocationSafety` | apps/desktop-host/src/lib.rs:2619-2630 | in every interleaving each frame or closure of generation g happens while the durable identity is Paired at g, and none of g follows the Revoking rename |
| `RevocationGate.LogsExactly` | apps/desktop-host/src/lib.rs:2619-2630 | a writer's step writes its frame exactly if it read its own generation, an unpair revokes exactly when it renames, and no other event does either |
| `RevocationGate.FramesAreWritten` | apps/desktop-host/src/lib.rs:2595-2645 | in every run, whatever the others do, a writer that is still there has written exactly the frames it no longer owes |
| `RevocationGate.UndisturbedWriter` | apps/desktop-host/src/lib.rs:2619-2630 | over a store Paired at its generation a writer of n frames writes exactly n and gives both locks back |
| `RevocationGate.OutdatedWriter` | apps/desktop-host/src/lib.rs:405-422 | over any other identity it ends without writing anything |
| `RevocationGate.UndisturbedUnpair` | apps/desktop-host/src/lib.rs:468-557 | an undisturbed unpair of the stored peer logs one revocation and leaves the store Unpaired one generation up, with both locks free |
| `RevocationGate.ResumedUnpair` | apps/desktop-host/src/lib.rs:468-557 | over a Revoking identity it completes the revocation at the same generation |
| `RevocationGate.ForeignUnpair` | apps/desktop-host/src/lib.rs:468-488 | naming another peer it ends with nothing changed |
| `RevocationGate.UndisturbedSetter` | apps/desktop-host/src/lib.rs:423-434 | an undisturbed pairing step stores its peer exactly if that is the next stage |
| `RevocationGate.FailureStoresNothing` | apps/desktop-host/src/lib.rs:405-557 | a step that fails or times out stores nothing and its thread ends holding no lock |
| `RevocationGate.StepUsesWork` | apps/desktop-host/src/lib.rs:468-557 | every step of a thread uses up some of its finite remaining work |
| `RevocationGate.NobodyHangs` | apps/desktop-host/src/lib.rs:1077-1091 | in every reachable state with work left some thread can move, despite the opposite lock orders |
| `RevocationGate.RunsEndFinished` | apps/desktop-host/src/lib.rs:1077-1091 | every run of a fixed set of threads is finite and one that cannot go on has finished them all |
| `RevocationGate.OnlyTheBoundResolves` | apps/desktop-host/src/lib.rs:1077-1091 | there is a reachable state in which only the lock timeout, or an error, moves anything |
| `SessionWriter.NothingIsLost` | apps/desktop-host/src/lib.rs:2421-2472 | in every run the accepted application messages are those written followed by those pending, in order, at most eight pending |
| `SessionWriter.PingsComeFromIdleness` | apps/desktop-host/src/lib.rs:2450-2472 | pings written and pending never outnumber the timer ticks that found the queue idle |
| `SessionWriter.ControlsAreConserved` | apps/desktop-host/src/lib.rs:2437-2472 | in every run the closes, pongs and pings written or still waiting are exactly those raised while none of their kind was waiting |
| `SessionWriter.PopTakesFirst` | apps/desktop-host/src/lib.rs:2455-2471 | a pop takes the first of what waits, in the order close, pong, ping, messages, and removes just that |
| `SessionWriter.CloseWaitsFirst` | apps/desktop-host/src/lib.rs:2444-2449 | a close waits in front of everything, once, with its latest reason |
| `SessionWriter.DrainsInOrder` | apps/desktop-host/src/lib.rs:2455-2471 | left alone, the queue writes out everything that waits in that order and is then empty |
| `SessionWriter.SessionWriteQueue.Enqueue` | apps/desktop-host/src/lib.rs:2437-2443 | a message is refused exactly when eight wait, and then nothing changes |
| `SessionWriter.SessionWriteQueue.PopMessage` | apps/desktop-host/src/lib.rs:2455-2471 | close overtakes pong, pong overtakes ping, ping overtakes messages; nothing is popped only from an empty queue |
| `Pairing.EffectOf` | apps/desktop-host/src/lib.rs:1467-2041 | a bound on every statement: whatever its outcome it moves only its own program, learns only from its own inbox and publishes only its own stage |
| `Pairing.EventKeepsInvariant` | apps/desktop-host/src/lib.rs:1467-2041 | every statement of either program, and every disturbance, keeps the joint invariant |
| `Pairing.FactsGrow` | apps/desktop-host/src/lib.rs:1467-2041 | confirmations and highest published stages are never taken back |
| `Pairing.InitiatorLearns` | apps/desktop-host/src/lib.rs:1816-2041 | what the initiator knows at each point of its program is true of the responder |
| `Pairing.ResponderLearns` | apps/desktop-host/src/lib.rs:1467-1737 | what the responder knows at each point of its program is true of the initiator |
| `Pairing.InitiatorSpeaksTruly` | apps/desktop-host/src/lib.rs:1816-2041 | every message the initiator sends is backed by what it has confirmed and published |
| `Pairing.ResponderSpeaksTruly` | apps/desktop-host/src/lib.rs:1467-1737 | every message the responder sends is backed by what it has confirmed and published |
| `Pairing.MessagesStayJustified` | apps/desktop-host/src/lib.rs:1467-2041 | a message in flight stays backed until it is read |
| `Pairing.StoresKept` | apps/desktop-host/src/lib.rs:3763-3788 | a store never shows a stage of the transaction that was not published, even across revocation and other pairings |
| `Pairing.PairingSafety` | apps/desktop-host/src/lib.rs:1467-2041 | in every run, for the host's and the device's initiator, the two highest stages differ by at most one; responder Paired implies initiator Paired, initiator Committing implies responder Committing, responder Pending implies initiator Pending, and no stage is published without both confirmations |
| `Pairing.StopsExactly` | apps/desktop-host/src/lib.rs:1467-2041 | a statement ends its program exactly when it is obstructed: a wrong message, a passed deadline, a reservation taken, a failed publication, a rejection, an incompatible or refused Hello; it then tells the other side why, and otherwise says exactly its own message |
| `Pairing.TakesExactly` | apps/desktop-host/src/lib.rs:1467-2041 | what a party holds afterwards is what its owner confirmed, what the other side decided, and what the store call left, also if that failed after its rename |
| `Pairing.ObstructedForGood` | apps/desktop-host/src/lib.rs:1739-1755 | from any state, an obstructed party has failed and told why, and in no further run does it move, confirm or publish anything |
| `Pairing.ExpiryStops` | apps/desktop-host/src/lib.rs:1515-1992 | at every deadline check a host whose deadline has passed sends Close(Expired) and fails before anything more is published |
| `Pairing.LateInitiatorPublishesNothing` | apps/desktop-host/src/lib.rs:1918-1926 | an initiator whose deadline passes before both decisions are in never publishes, in any run |
| `Pairing.LateResponderAsksNobody` | apps/desktop-host/src/lib.rs:1515-1523 | a responder whose deadline has passed before it reserves never asks its owner and never publishes, in any run |
| `Pairing.SuccessIsMutual` | apps/desktop-host/src/lib.rs:1467-2041 | in every run an initiator that reports success has a responder that did too; both have published Paired and the protocol was compatible |
| `Pairing.AnythingCanFail` | apps/desktop-host/src/lib.rs:1467-2041 | the environment of these runs may stop any running program, cut a channel after any of its messages, revoke any peer, and pair with somebody else first |
| `PairingProgress.SmoothSucceeds` | apps/desktop-host/src/lib.rs:1467-2041 | a statement that finds its message and meets no failure succeeds and moves on by one |
| `PairingProgress.InitiatorScript` | apps/desktop-host/src/lib.rs:1816-2041 | the initiator writes its six messages and reads the responder's five in the protocol's order |
| `PairingProgress.ResponderScript` | apps/desktop-host/src/lib.rs:1467-1737 | the responder writes its five messages and reads the initiator's six in the protocol's order |
| `PairingProgress.NoDeadlock` | apps/desktop-host/src/lib.rs:1509-2031 | the two programs never both wait on empty channels |
| `PairingProgress.ScheduleStaysOnTrack` | apps/desktop-host/src/lib.rs:1509-2031 | every failure-free schedule keeps the programs in step and uses one unit of the decreasing measure per turn |
| `PairingProgress.EveryScheduleEndsPaired` | apps/desktop-host/src/lib.rs:1509-2031 | every failure-free schedule is finite, and one that cannot go on has left both sides Paired on the same transaction |
| `Scanner.ScanBuffer` | scripts/phase3_device.py:326-341 | one pass finds the finished response at the first plausible offset, else that offset, else that no offset is plausible |
| `Scanner.TrimBuffer` | scripts/phase3_device.py:342-346 | what is dropped is exactly what the scan allows: up to the candidate, or all but the last 19 bytes |
| `Scanner.ScanDecides` | scripts/phase3_device.py:322-357 | the scan of the trimmed buffer decides for the whole stream; trimming never discards the answer and what is kept is shorter than one frame |
| `Scanner.RuledOutLater` | scripts/phase3_device.py:327-335 | an offset ruled out once stays ruled out as more bytes arrive |
| `Scanner.Shifted` | scripts/phase3_device.py:342-346 | an offset of the trimmed buffer means the same as the offset of the stream it stands for |
| `Scanner.FoundAnswers` | scripts/phase3_device.py:337-341 | a finished response at the first plausible offset is the one at the least matching offset of the stream |
| `Scanner.UnfinishedDoesNotAnswer` | scripts/phase3_device.py:337-338 | without one there is no answer in the stream yet |
| `Scanner.AnswerIsFinal` | scripts/phase3_device.py:322-357 | an answer does not depend on what arrives later |
| `Scanner.ReadControlResponse` | scripts/phase3_device.py:322-357 | for every stream and every chunking the payload returned is that of the least offset whose length, schema and full id match, as soon as it has arrived; a timeout means there is none; the length error is never raised |
| `Scanner.ChunkingDoesNotMatter` | scripts/phase3_device.py:347-356 | two ways of cutting one stream into reads cannot give different responses |
| `Seqlock.DecodeOfLayout` | crates/deskkin-core-s3/src/lib.rs:47-107 | a stable copy of a published snapshot decodes to its meaning exactly when its fields are meaningful |
| `Seqlock.PublisherKeeps` | apps/core-s3-amp/src/main.c:336-356 | every store and byte copy of the publisher keeps the memory in agreement with the publication word |
| `Seqlock.CopyingKeeps` | apps/core-s3-amp/shared.h:28-62 | every load and byte copy of the reader keeps its copy a prefix of the snapshot while the word stands still |
| `Seqlock.AcceptedIsPublished` | crates/deskkin-core-s3/src/lib.rs:47-66 | an accepted copy was taken while one completed publication stood still |
| `Seqlock.NoTornSnapshot` | apps/core-s3-amp/src/main.c:336-356 | in every interleaving each snapshot accepted is exactly one completed publication, and accepted generations never decrease |
| `Seqlock.QuietExchange` | apps/core-s3-amp/src/main.c:336-356 | publishing and then reading undisturbed, byte by byte, accepts exactly what was published, under the next generation |
| `Seqlock.QuietRead` | crates/deskkin-core-s3/src/lib.rs:47-107 | a read between publications accepts the last one exactly if it is meaningful, and otherwise nothing |
| `Seqlock.LayoutBytes` | apps/core-s3-amp/shared.h:150-161 | the fields lie little-endian where the shared structure puts them, with the filter flags in the top bits |
| `RingLog.SameSlotIsFar` | crates/deskkin-core-s3/src/lib.rs:141-174 | entries that share a slot are at least a whole capacity apart |
| `RingLog.PushRetains` | crates/deskkin-core-s3/src/lib.rs:141-153 | overwriting one slot keeps the newest capacity-many entries of the unbounded log |
| `RingLog.WantedIsFirstRetained` | crates/deskkin-core-s3/src/lib.rs:155-165 | what a reader gets next is the first entry after its cursor not yet overwritten: it skips exactly the overwritten ones |
| `RingLog.ReadersConserve` | crates/deskkin-core-s3/src/lib.rs:155-174 | across any reads a reader's delivered entries and drops account for every number up to its cursor, in strictly increasing order |
| `RingLog.Conservation` | crates/deskkin-core-s3/src/lib.rs:141-174 | for every interleaving of pushes and reads by a fresh reader, delivered plus drops equals the last delivered number |
| `RingLog.ReadersCatchUp` | crates/deskkin-core-s3/src/lib.rs:155-174 | a reader that keeps reading while nothing is pushed reaches the newest entry |
| `RingLog.FreshRingGivesLog` | crates/deskkin-core-s3/src/lib.rs:141-174 | in every run of pushes and reads of a fresh ring each entry given is the log entry of its number, the numbers increase, and given plus dropped is the last number given |
| `TouchRing.AmpTouchRing.Push` | crates/deskkin-core-s3/src/lib.rs:141-153 | a push appends one numbered sample to the log; a ring without slots ignores it |
| `TouchRing.AmpTouchRing.NextAfter` | crates/deskkin-core-s3/src/lib.rs:155-165 | the sample delivered is the wanted entry of the log, the oldest retained one for a lagging reader, and there is none exactly when nothing is newer |
| `TouchRing.AmpTouchRing.ReadAfter` | crates/deskkin-core-s3/src/lib.rs:167-174 | the drop counter grows by exactly the entries skipped, saturating; a cursor beyond the newest number gets nothing, and the largest one starts over |
| `TouchRing.DropsNeverSaturate` | crates/deskkin-core-s3/src/lib.rs:167-174 | a reader that starts fresh never reaches the saturation point |
| `DiagnosticRing.DiagnosticEvents.Record` | apps/core-s3-amp/src/main.c:131-150 | recording appends one numbered event to the log |
| `DiagnosticRing.DiagnosticEvents.Read` | apps/core-s3-amp/src/main.c:183-213 | a cursor behind the newest number gets the wanted entry and the exact count skipped; one at it gets nothing; one beyond it gets a stale entry; the largest one starts over at the oldest entry |
| `DiagnosticRing.DiagnosticEvents.Stream` | apps/core-s3-service/src/adapter.c:371-384 | the cursor loop sends everything retained, in order, and every number is either sent or counted as skipped |
| `YawLimiter.LimitSumExact` | apps/core-s3-amp/src/main.c:401-404 | from remainder r the limits of n ticks sum to (r + 32768 n) div 1000 and leave its remainder |
| `YawLimiter.HalfATurnPerSecond` | apps/core-s3-amp/src/main.c:401-404 | any 1000 consecutive ticks allow exactly 32768 |
| `YawLimiter.ApproachesExactly` | apps/core-s3-amp/src/main.c:405-408 | the distance to a fixed target shrinks by exactly the limits, never below zero, and the target is never overshot |
| `YawLimiter.ReachesInTime` | apps/core-s3-amp/src/main.c:401-408 | the target is reached within a 32nd of the distance, rounded up, in ticks, and then held |
| `YawLimiter.Supervisor.UpdateObservedYaw` | apps/core-s3-amp/src/main.c:387-409 | a target counts only if its publication stood still and matches, a stable malformed one is a fault, and the yaw moves by one limited tick |
| `OwnerTable.RunKeepsSound` | apps/desktop-host/src/owner_control.rs:443-779 | in every run the table holds at most sixteen records of distinct ids, a completion time exactly for terminal responses, and no channel carries more than one decision |
| `OwnerTable.OnlyOutdatedRecordsLeave` | apps/desktop-host/src/owner_control.rs:773-779 | no step removes a record without a terminal response or younger than ten minutes |
| `OwnerTable.OldRecordsLeave` | apps/desktop-host/src/owner_control.rs:773-779 | no command finds a response that became terminal ten minutes before it |
| `OwnerTable.LastUpdateShows` | apps/desktop-host/src/owner_control.rs:604-626 | the last update about a command is what its record shows, with its time if it is terminal, and other records are left alone |
| `OwnerTable.StartsNeedAbsence` | apps/desktop-host/src/owner_control.rs:628-771 | an operation starts only under a well-formed id without a record while there is room, and then has a record; no command starts more than one |
| `OwnerTable.StartsExactly` | apps/desktop-host/src/owner_control.rs:628-771 | a command starts its own operation, under its own id and on a channel of its own, if and only if its id is well formed and new, its owner current, and there is room and, for a pairing, a runtime; it is then answered as accepted |
| `OwnerTable.RefusalsAreTold` | apps/desktop-host/src/owner_control.rs:628-771 | every other new command is refused with the answer of its case; a runtime that has ended leaves a failed terminal record |
| `OwnerTable.RestartNeedsExpiry` | apps/desktop-host/src/owner_control.rs:628-779 | between two starts under one id, some command found the first one's record terminal for ten minutes |
| `OwnerTable.RepeatsAreAnswered` | apps/desktop-host/src/owner_control.rs:636-645 | a repeated command changes nothing and is answered with the current response of the first |
| `OwnerTable.RepeatedDecisionIsAnswered` | apps/desktop-host/src/owner_control.rs:688-695 | a repeated decision is answered as the first was, whatever it now says, and sends nothing |
| `OwnerTable.LookUpShows` | apps/desktop-host/src/owner_control.rs:478-500 | a result query shows a record's current response when no older record noted a decision under its id, and the noted decision otherwise |
| `OwnerTable.LookUpShowsExactly` | apps/desktop-host/src/owner_control.rs:478-500 | in every run whose updates carry only what workers and pairing tasks send, the query shows the command's own response if and only if no older record noted a decision under its id |
| `OwnerTable.UnknownExactly` | apps/desktop-host/src/owner_control.rs:478-500 | an id is answered as unknown exactly when it is neither a command's nor a noted decision's |
| `OwnerTable.DecisionHidesCommand` | apps/desktop-host/src/owner_control.rs:478-500 | a run in which a waiting command's query is answered with a decision noted under the same id |
| `OwnerTable.OnlyPromptedDecisionsAreSent` | apps/desktop-host/src/owner_control.rs:678-727 | a channel changes only by the current owner's decision on its own parent for the prompted transaction, and is then empty and open, so that the send cannot block |
| `OwnerTable.DecisionsAreFinal` | apps/desktop-host/src/owner_control.rs:678-727 | over any run a channel that has carried a decision carries that single one for ever |
| `OwnerTable.PromptedDecisionIsSent` | apps/desktop-host/src/owner_control.rs:711-726 | the first decision on a prompted pairing, confirming or rejecting, goes down its channel and no other and is answered as accepted; if nobody listens nothing is sent and it is answered as invalid |
| `OwnerTable.AcceptedExactlyIfSent` | apps/desktop-host/src/owner_control.rs:678-727 | in every run a decision under a new id is answered as accepted if and only if it went down a channel |
| `OwnerTable.NotedExactlyIfSent` | apps/desktop-host/src/owner_control.rs:678-727 | in every run a record notes an accepted decision if and only if its channel has carried one |
| `OwnerTable.ControlState.ApplyCompletions` | apps/desktop-host/src/owner_control.rs:604-626 | all waiting updates are applied in order, each to the record of its id, and ids without a record are ignored |
| `OwnerTable.ControlState.ExpireTerminal` | apps/desktop-host/src/owner_control.rs:773-779 | exactly the records not yet ten minutes past their completion stay, in order |
| `OwnerTable.ControlState.Accept` | apps/desktop-host/src/owner_control.rs:729-771 | invalid, repeated, full and fresh ids are answered and recorded as the run proofs assume |
| `OwnerTable.ControlState.AcceptPairingEvent` | apps/desktop-host/src/owner_control.rs:628-676 | as for other commands, and an event that cannot be sent leaves a failed terminal record without a channel |
| `OwnerTable.ControlState.AcceptPairingDecision` | apps/desktop-host/src/owner_control.rs:678-727 | the decision is sent and noted, or noted as refused, as `PromptedDecisionIsSent` and `AcceptedExactlyIfSent` say; the capacity-one channel has room whenever it is used |
| `OwnerTable.ControlState.HandleCommand` | apps/desktop-host/src/owner_control.rs:443-602 | completions and expiry come first, a stale owner generation changes nothing more, and the table stays sound |
| `Availability.AcceptedExactly` | crates/application-features/src/availability.rs:198-255 | an input is accepted exactly when the state waits for that kind under that identity and a needed new identity is left |
| `Availability.AppliedFollows` | crates/application-features/src/availability.rs:198-247 | every accepted input hands out the next identity or none, and leaves that identity outstanding |
| `Availability.CycledFollows` | crates/application-features/src/availability.rs:160-247 | so does every accepted lifecycle event, across stop and start |
| `Availability.SpentStays` | crates/application-features/src/availability.rs:160-247 | a completion that is no longer awaited is never awaited again |
| `Availability.RefreshesForever` | crates/application-features/src/availability.rs:198-247 | any number of refreshes are accepted, each with a read and a five-second timer requested, and the surface is what the last one read: available, unavailable, or unknown after a failed reading |
| `Availability.AvailabilityFeature.Apply` | crates/application-features/src/availability.rs:198-236 | a candidate ends in the accepted transition's state or the call reports its first error |
| `Availability.AvailabilityFeature.Transition` | crates/application-features/src/availability.rs:142-158 | the feature takes the whole transition or, on an error, stays as it was |
| `Availability.AvailabilityFeature.OnLifecycle` | crates/application-features/src/availability.rs:133-196 | the same for lifecycle events |
| `SyntheticNotice.AcceptedExactly` | crates/application-features/src/synthetic_notice.rs:176-209 | a timer completion is accepted exactly in the state that waits for it under its identity |
| `SyntheticNotice.AppliedFollows` | crates/application-features/src/synthetic_notice.rs:176-219 | every accepted input hands out the next identity or none, and leaves that identity outstanding |
| `SyntheticNotice.NoticeLives` | crates/application-features/src/synthetic_notice.rs:176-219 | a notice is shown at once under a new identity, its timer asked for two seconds, and it goes when the timer fires, cannot be armed, or the owner clears it |
| `SyntheticNotice.SyntheticNoticeFeature.Transition` | crates/application-features/src/synthetic_notice.rs:136-154 | the feature takes the whole transition or, on an error, stays as it was |
| `SyntheticNotice.SyntheticNoticeFeature.OnLifecycle` | crates/application-features/src/synthetic_notice.rs:127-174 | the same for lifecycle events |
| `Application.RunKeepsConsistent` | crates/deskkin-application/src/lib.rs:219-319 | in every run a stopped application has two stopped features, a running one a started notice feature, and the published view is the current one |
| `Application.StepKeeps` | crates/deskkin-application/src/lib.rs:219-304 | every transition requests at most one effect of each feature, so the batch of two never overflows, under identities that continue each feature's numbering |
| `Application.ExactlyOneFocus` | crates/deskkin-application/src/lib.rs:306-318 | whenever a board is visible exactly one is focused, the notice if there is one |
| `Application.LifecycleReachesBoth` | crates/deskkin-application/src/lib.rs:272-304 | starting asks for one reading and shows one focused board, stopping shows none, an invalidated session takes the notice away and forgets the surface; a second start and a stop while stopped are refused |
| `Application.RoutingReachesOne` | crates/deskkin-application/src/lib.rs:230-270 | every other input needs a running application, changes one feature as that feature alone would, and leaves the other |
| `Application.NoticeTakesFocus` | crates/deskkin-application/src/lib.rs:230-318 | a notice takes the focus from the availability board at once and gives it back when it is cleared |
| `Application.IdentitiesIncrease` | crates/deskkin-application/src/lib.rs:219-304 | over every run, across stop and start, each feature's effect identities strictly increase and are never reused |
| `Application.CompletedExactly` | crates/deskkin-application/src/lib.rs:230-270 | a completion succeeds exactly when it is outstanding and a needed identity is left |
| `Application.LateCompletionIsIgnored` | crates/deskkin-application/src/lib.rs:219-270 | once a later effect of a feature has been requested, a completion of an earlier one leaves the whole application unchanged |
| `Application.NoCompletionTwice` | crates/deskkin-application/src/lib.rs:219-270 | a completion that has had its effect is rejected for ever after |
| `Application.StopsExactly` | crates/deskkin-application/src/lib.rs:272-304 | stopping succeeds exactly while the application and its availability feature both run |
| `Application.GetsStuckExactly` | crates/application-features/src/availability.rs:217-223 | the one way to stop the availability feature under a running application is a failed arming of the outstanding refresh timer |
| `Application.StuckForever` | crates/deskkin-application/src/lib.rs:272-304 | from then on no input stops or restarts anything |
| `Application.StuckHappens` | crates/deskkin-application/src/lib.rs:272-304 | three inputs lead there |
| `Application.ApplicationObject.Apply` | crates/deskkin-application/src/lib.rs:230-304 | on a candidate, routing and validation lead to the routed change or its first error |
| `Application.ApplicationObject.Transition` | crates/deskkin-application/src/lib.rs:219-228 | both features and the view change together or, on an error, not at all |
| `Rgb565.MaskedFields` | crates/deskkin-presentation/src/blit.rs:163-169 | shifting and masking a 16-bit word takes the field of its value |
| `Rgb565.GatheredIsPacked` | crates/deskkin-presentation/src/blit.rs:162-173 | or-ing components that fit at their places never crosses fields, in either order |
| `Compositing.KernelFits` | crates/deskkin-presentation/src/blit.rs:147-170 | no intermediate value of the filtered kernel leaves u32, and 255 minus coverage never underflows |
| `Compositing.LerpCarries` | crates/deskkin-presentation/src/blit.rs:148-156 | one rounded interpolation keeps a premultiplied value between lo and hi times its coverage, up to half a unit of each |
| `Compositing.CompositeIsConvex` | crates/deskkin-presentation/src/blit.rs:147-170 | coverage is at most 255 and each component lies between the least and greatest of the background and the covered texels, in spite of three roundings |
| `Compositing.InterpolateIsAccurate` | crates/deskkin-presentation/src/blit.rs:147-156 | two levels of rounded interpolation stay within one of the exact interpolation |
| `Compositing.CompositeIsAccurate` | crates/deskkin-presentation/src/blit.rs:147-170 | each component stays within 191 255ths of the exact, unrounded premultiplied composition |
| `Compositing.FullCoverageHidesBackground` | crates/deskkin-presentation/src/blit.rs:157-170 | between fully covered texels the component lies among theirs, whatever the background |
| `Compositing.ClampIsIdle` | crates/deskkin-presentation/src/blit.rs:166-170 | each component fits its 5- or 6-bit field before the clamp |
| `Compositing.NoCoverageNoChange` | crates/deskkin-presentation/src/blit.rs:157-170 | coverage that rounds to nothing leaves the background as it was |
| `SpanDrawing.DrawKind` | crates/deskkin-presentation/src/blit.rs:178-216 | the unfiltered and opaque bilinear loop changes only its slice, each word to the color that `OpaquePixelIsAccurate` and `NearestPixel` describe from the texture |
| `SpanDrawing.FilteredColor` | crates/deskkin-presentation/src/blit.rs:162-173 | or-ing the clamped components into one word, field by field, gives a color with exactly the composited components |
| `SpanDrawing.DrawFilteredAlpha` | crates/deskkin-presentation/src/blit.rs:136-176 | the filtered loop changes only its slice, each word to the color that `FilteredPixelIsAccurate` describes from the texture |
| `SpanDrawing.Draw` | crates/deskkin-presentation/src/blit.rs:126-134 | every combination of filter and coverage draws the span that those three describe |
| `SpanDrawing.Blit` | crates/deskkin-presentation/src/blit.rs:54-69 | a blit skips, copies or blends each pixel by its alpha and touches nothing outside its slice |
| `SpanDrawing.CutoutInto` | crates/deskkin-presentation/src/blit.rs:6-22 | a cutout does exactly what a blit does with the 0 and 255 its bits denote, for every blend |
| `SpanDrawing.WireDrawingIsConjugate` | crates/deskkin-presentation/src/blit.rs:126-217 | drawing in wire order is native drawing between two byte swaps, on every path |
| `SpanDrawing.WireBlitIsConjugate` | crates/deskkin-presentation/src/blit.rs:54-69 | the same for blits |
| `SpanDrawing.SlicingDoesNotShow` | crates/deskkin-presentation/src/blit.rs:92-97 | drawing any consecutive slices of a span in turn is drawing the span |
| `SpanDrawing.NearestRowIsBlit` | crates/deskkin-presentation/src/blit.rs:178-216 | a nearest span that names the texels of a row in order is a blit of that row, on every kind of coverage |
| `SpanDrawing.FilteredPixelIsConvex` | crates/deskkin-presentation/src/blit.rs:136-176 | a drawn filtered pixel never leaves the range of the background and its covered texels in any field |
| `SpanDrawing.OpaquePixelIsAccurate` | crates/deskkin-presentation/src/blit.rs:192-209 | over an opaque texture each component of a drawn bilinear pixel is within one of the exact interpolation of the texels at its column and right of it in two rows, the last column repeated, and exactly the texel at fractions zero |
| `SpanDrawing.FilteredPixelIsAccurate` | crates/deskkin-presentation/src/blit.rs:136-176 | over a covered texture each component of a drawn pixel is within 191 255ths of the exact composition of those four texels by their own coverages over the background; without coverage the word stays |
| `SpanDrawing.NearestPixel` | crates/deskkin-presentation/src/blit.rs:178-216 | without filtering the texel at the column is skipped, copied or blended as its own coverage says |
| `SpanDrawing.BlitPixel` | crates/deskkin-presentation/src/blit.rs:54-69 | and so is each pixel of a blit by the alpha given for it |
| `Mipmap.Downsample` | crates/deskkin-presentation/src/mipmap.rs:7-53 | each error case leaves both buffers as they were; otherwise every output word is the reduction of its block and padding is transparent |
| `Mipmap.GatherColor` | crates/deskkin-presentation/src/mipmap.rs:41-48 | or-ing the three means into one word, from the lowest field up, gives the color with exactly those components |
| `Mipmap.EveryTexelIsReduced` | crates/deskkin-presentation/src/mipmap.rs:27-37 | every texel of the region is under the output that halves its coordinates |
| `Mipmap.ReductionIsConvex` | crates/deskkin-presentation/src/mipmap.rs:41-48 | a reduced component lies between the least and greatest of the covered texels of its block |
| `Mipmap.MeanIsNearest` | crates/deskkin-presentation/src/mipmap.rs:41-48 | a reduced component is the exact coverage-weighted mean rounded to the nearest integer |
| `Mipmap.ReducedTexel` | crates/deskkin-presentation/src/mipmap.rs:27-50 | each output word is, from the texture itself, the nearest integers to the mean coverage and to the coverage-weighted mean color of the texels at twice its coordinates, right of it, below it and both, an odd edge repeating its last |
| `Mipmap.ValidExactly` | crates/deskkin-presentation/src/lib.rs:428-444 | a region is taken exactly if it is not empty, has the rows of the texture, lies inside it to its last texel, and comes with a mask built for that size |
| `Mipmap.ReducedTexelIsConvex` | crates/deskkin-presentation/src/mipmap.rs:41-48 | so an output texel that shows at all stays within what its texture shows |
| `Mipmap.CoverageIsConvex` | crates/deskkin-presentation/src/mipmap.rs:34-37 | full coverage stays 255 and a block rounds to nothing exactly when its sum is at most one |
| `MipChain.BuildCutoutMask` | crates/deskkin-presentation/src/occlusion.rs:81-94 | exactly binary alpha of the right size is packed, one bit per texel and nothing after it; anything else writes nothing |
| `MipChain.WithAlpha` | apps/simulator/src/world.rs:50-74 | whichever of the three representations is chosen shows exactly the alpha plane given, and each is chosen exactly when it can |
| `MipChain.HalfOf` | apps/simulator/src/world.rs:82-103 | the level appended is the reduction of the whole level before it |
| `MipChain.OwnedTexture.PrepareMips` | apps/simulator/src/world.rs:76-106 | preparing ends, each level is half of the one before, and the last is a single texel |
| `MipChain.OwnedTexture.ForProjection` | apps/simulator/src/world.rs:108-119 | the level chosen is the last one that covers the rectangle in both directions, or the base when none does |
| `MipChain.LevelSize` | apps/simulator/src/world.rs:82-85 | level k is the base divided by the kth power of two, rounded up, in both directions |
| `MipChain.ChainLength` | apps/simulator/src/world.rs:76-106 | there are exactly as many levels as it takes a power of two to reach both sides |
| `MipChain.ChainIsConvex` | apps/simulator/src/world.rs:76-106 | no level shows a color component outside the range the base shows |
| `MipChain.ChainStaysOpaque` | apps/simulator/src/world.rs:76-106 | every level of an opaque texture is opaque |

## Left out

- Noise handshakes, key generation and authentication strings: the channels of `Pairing` are authenticated, in order, and may be cut at any point.
- Sockets, UART, Wi-Fi, threads, JSON, file permissions and the display: I/O; their results are nondeterministic choices or parameters.
- Time: deadlines, timeouts and the lock bound are choices that may fall at any step; `OwnerTable` takes the current time as a parameter of each command.
- Diagnostics, spans and the recorder: they do not affect outcomes.
- Wrap-around of the 32-bit publication, ring and world counters: the shared-memory modules cover fewer than 2^32 publications and pushes, where the C and Rust counters agree.
- Weak memory: `Seqlock` takes the loads and stores of shared memory as sequentially consistent; fences are not modelled.
- `FlashStore.Nvs.WriteReadback`: an interrupted write leaves the old value, the new one or a prefix of it, and a read that succeeds shows what is stored; flash that mixes old and new bytes or reads back wrongly is not modelled.
- `FlashStore.Nvs.DeleteIntent`: the source does not read a delete back; that one reported successful took effect is an assumption.
- `HostIdentity.IdentityStore.PublishLocked`: a failing rename has no effect, and a synced file keeps its contents, by assumption; the removal of a stale temporary file by a plain read is not modelled.
- `load_generation` and `store_generation`: the two halves of the 64-bit generation are one value here, and no atomicity of reading them is claimed.
- `RevocationGate.RevocationSafety`: the clones share one gate in one process; a second process with a gate of its own is not modelled.
- `DeviceIdentity.IdentityService.PublishPeer`: a session that goes on after a failed revocation with its cached sequence is covered for which record is read, not for the generation that record carries.
- `YawLimiter.Supervisor.UpdateObservedYaw`: int64 overflow of the target, the offset and their difference is not modelled.
- `SpanDrawing.Draw`: `blend_rgb565` is any pure function; a length mismatch, which panics, is a precondition, and so is the validation of the span by the rasterizer.
- `SpanDrawing.CutoutInto`: the range checks, which panic, are preconditions; `blit_from` is `SpanDrawing.Blit` on slices.
- `MipChain.OwnedTexture.constructor`: textures of no pixels, for which building the mask panics, are a precondition; the contents of the opaque-block mask are not modelled, only the size it was built for.
- `Application.ApplicationObject.Transition`: the effect batch is a sequence; that it never holds more than two effects is `Application.StepKeeps`.
- `OwnerTable.ControlState.HandleCommand`: worker threads are updates that may arrive at any time about any id; address parsing is one parameter; the identity actor and the event loop behind the channels are not modelled.
- `SessionWriter.SessionWriteQueue.PopMessage`: the writer's loop around the queue, its channels and the ping interval are not modelled here; its generation check is `RevocationGate`.
- `publish_touch`, the renderer's readers, `AmpLatestValue`, Wi-Fi configuration, the control frame decoder, status snapshots, host capabilities, profiles, `AxisStepper`, occlusion and the raster bands: they would add easy or repeated members.
