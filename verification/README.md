# A verified model of the woodshed log store

woodshed keeps an append-only log of `(id, payload)` entries in segment files, with one manifest file that
records which segments exist, which are sealed, where the log head is, and a small metadata map.  This project
models the store as memory plus an abstract disk (one byte string per segment file, one for the manifest) and
proves that it behaves like a plain ordered log: through batches, rollovers, truncations at both ends, deletions,
reopenings, crashes inside any of these, and power failures.

`dafny verify dfyconfig.toml` checks everything.

## How the project is laid out

| part | files |
|---|---|
| frames, manifest records, index, structural state | `Basics`, `Frames`, `Codec`, `State`, `Index` |
| what a record does to any state, and what it keeps of one in order | `Transitions`, `StateLaws` |
| the formats by their numbers | `WireNumbers` (records), `Layout` (frames and files) |
| the abstract disk and the store as a value: what each operation does, and its disk steps in order | `Disk`, `World` |
| the log as a list of segment bodies, and the invariant between operations | `Log`, `Invariant` |
| every operation keeps the invariant and has its intended effect | `Writing`, `TruncatingStart`, `TruncatingEnd`, `Housekeeping` |
| scanning, fix-ups, opening | `Recovery`, `Checkpoints`, `Reopening` |
| recovery on any disk, opening a disk it can bring back, recovery that is itself interrupted | `Mending`, `RecoveryLaws`, `Recovering`, `Restarting` |
| what opening and recovering answer on any disk, and damaged sealed segments | `Approvals` |
| crashes | `Crashes` (power failure, torn records), `CrashSteps` (a stop after or inside any disk step) |
| reading | `Reading` |
| whole runs: refinement, when segments are added, the index and exact scans, segment numbers and entry counts, what a sync protects, creation | `Runs`, `Rollovers`, `Indexing`, `Bookkeeping`, `Durability`, `Creating` |
| where the code falls short: conditions and runs | `Drifting`, `Misplaced`, `Counterexamples` |
| the objects that change in place, proved against the value-level functions | `Scanner`, `ScannerLaws`, `Devices`, `Manifests`, `Scanning`, `Stores`, `Readers` |

The source changes objects in place, so `StoreState`, `EntryIndex`, `FrameScanner`, `FrameReader`, `FrameCursor`,
`Store`, `StoreWriter` and `StoreReader` are classes here too, with the same loops.  Each method's postcondition
equates the new state with a function of the old one; the laws are proved about those functions.  The device object
under the store remembers every disk state it went through, and each store method's postcondition lists them
(`RollSteps`, `WriteSteps`, `EndSteps`, `DeleteSteps`), which is what the crash theorems quantify over.

`Invariant.Valid(w)` is the central notion.  It says, of a store and its disk: live ids are distinct, disjoint from
dead ones, the active segment is last and exactly the others are sealed; recorded first entries ascend; every live file
is its magic followed by whole frames with ascending ids; each seal agrees with its file, and the file's ids lie below
the next segment's first entry; the write cursor is at the end of the active file; the manifest replays to the
in-memory state and its cursor is at its end; the files on disk are exactly the live and dead segments, all below the
next id; and every index checkpoint names a live segment and the true start of the frame with its id.

The theorems take a valid store as their hypothesis; `Runs.FreshOpens` gives one, `Runs.StepRefines` shows that every
operation leads to another, and the histories in `Counterexamples` have several segments, pending rollovers and full
indexes.

Three things are left uninterpreted, as constants without a value: the checksum function, the byte layout of the
`yatlv` container (any layout whose parser undoes its writer will do), and the order in which a hash set is iterated.

## What the code does differently from its documentation

Each is proved as a law over all inputs, and most of them also as a concrete run or disk on which the store falls short.

- **`truncate_end` can cut at the wrong byte.**  The scanner gets a checkpoint's offset as its position while its
  reader stands behind the magic (src/store.rs:369-379, src/frame.rs:103-105).  The result is a valid store if and
  only if that offset is the first frame's (`TruncatingEnd.TruncateEndExact`).  After 66 empty entries and a reopening,
  `truncate_end(64)` leaves 2588 bytes instead of 1308 (`Counterexamples.TruncateEndDrifts`).  After the next open every
  whole frame before the wrong offset is back, entries that were rolled back included (`Drifting.CutBehindReopens`), and
  a batch pushed before that lands behind them (`Drifting.PushBehind`): of 200 entries ids 65 to 128 return, with a new
  65 behind 128 (`Counterexamples.RolledBackReturn`).
- **`scan(from)` can yield entries below `from`.**  Segments behind the start segment are read from their first frame,
  and segments added after opening are not in the index (src/store.rs:683-691).  It is exact if and only if the start
  segment holds an entry at or above the request, or what follows begins there, or there is nothing to show
  (`Reading.ScanExactIff`).  Right after opening it always is (`Reading.ScanExactAfterOpen`), and it stays so through
  any run until a batch begins a segment (`Indexing.ScansStayExact`); three one-entry batches give a run where it is not
  (`Counterexamples.ScanBelowRequest`).
- **Approved recovery of a damaged sealed segment does not bring the store back.**  src/store.rs:127-129
  promises that issues needing approval are fixable.  Opening asks for approval if and only if a sealed segment of recorded length
  no longer reads to its end; recovery then cuts the file behind its last whole frame, and the next scan reports a size
  mismatch, for which there is no fix-up (`Approvals.DamagedSealed`).
- **A rollover that is due can be forgotten.**  Reopening and an effective `truncate_end` clear the flag
  (src/store.rs:242, src/store.rs:402), so a file past the trigger goes on growing.  The next batch adds a segment if
  and only if the file was past the trigger after the last batch and since then no reopening, crash, power failure or
  effective cut came (`Rollovers.NextBatchRolls`, `Counterexamples.RolloverForgotten`).
- **`truncate_end` can miss an entry that is stored.**  When the process ends between a rollover and its batch, callers
  may go on with a smaller id than the one recorded, as src/store.rs:536-537 only asks for increasing ids.
  `truncate_end` on such an entry looks in the segment before and fails; it finds an entry of that batch if and only if
  its id is not below the recorded one, or there is no segment before (`Misplaced.BelowFirstNotFound`,
  `Counterexamples.SmallerIdNotFound`).
- **A torn manifest tail is not always tolerated.**  notes/design.md:213-214 says torn tails are; a record cut behind
  its 20-byte header makes replay fail and the store cannot be opened (`Crashes.TornRecordIff`,
  `Counterexamples.TornRecordFails`).
- **A lost tail of a sealed segment is fatal.**  A rollover does not sync the file it seals (src/store.rs:252-285), so
  a power failure can shorten it; the store then opens if and only if every sealed file is whole
  (`Crashes.PowerLoss`, `Counterexamples.SealedTailFails`).
- **`truncate_end` into a sealed segment is not crash-atomic.**  The file is shrunk before the record is written; a
  crash in between leaves a store that opens if and only if the target is the active segment or nothing was cut off
  (`CrashSteps.ShrunkNotRecorded`, `Counterexamples.CutIntoSealedFails`).  notes/design.md:152-155
  describes a recovery step that the code does not have.
- **Recreating a missing active segment fails when the file exists.**  A file without its magic is reported as
  missing, and creating it then refuses the existing file (`Crashes.BrokenActiveNeedsApproval`,
  `Counterexamples.EmptyActiveFails`).
- **Reading an empty payload leaves the scanner's position behind** (src/frame.rs:320-348): the position stays in step
  if and only if the payload is not empty (`ScannerLaws.ReadKeepsDriftIff`, `Counterexamples.EmptyReadFails`).
- **Creating a store is not crash-atomic.**  The manifest exists before its first record is in it, and that record is
  not synced (src/store.rs:108-117).  Until it is complete, the store can neither be opened nor recovered, and
  `open_or_create` does not start over (`Creating.CreationIsNotAtomic`).
- notes/design.md:226-228 says that truncating the active segment needs approval; the code does it without
  (src/recovery.rs:185-188), and the model follows the code.  notes/design.md:96-105 describes another record layout
  than the tagged fields the code writes (src/state.rs:292-387).

## Model

| member | source | states |
|---|---|---|
| Frames.ReadsBackAs | src/frame.rs:27-36 | whatever its payload length, a written frame reads back as a frame of that length modulo 2^32, good or corrupt as the checksum of what is left decides |
| Frames.FrameRoundTripIff | src/frame.rs:27-36 | a payload whose length fits the 32-bit field survives the round trip; a longer one reads back good or corrupt with an end before the written bytes end, and if good, shorter |
| Layout.FrameBytes | src/frame.rs:27-36 | a frame byte by byte: eight bytes of id, four of length, eight of checksum, most significant first, then the payload |
| Layout.FileBytes | src/files.rs:7-9 | in a valid store the manifest and every live segment file start with their magic numbers, and each frame stands right behind the one before it, up to the last byte |
| Frames.GoodIsEncoded | src/frame.rs:158-191 | the bytes of a frame that passes its check are the encoding of what was read |
| Frames.WalkRoundTrip | src/frame.rs:195-235 | any sequence of encoded frames reads back in full, cleanly, up to the last byte |
| Frames.WalkIsEncoding | src/frame.rs:195-235 | conversely, what a scan accepted is exactly the encoding of the frames it returned |
| Frames.TornPrefixes | src/frame.rs:195-235 | cutting a file of whole frames at any byte leaves exactly the whole frames before the cut; clean at a boundary, torn elsewhere |
| Scanner.FrameScanner.constructor | src/frame.rs:102-105 | a new scanner records a position and does not move its reader |
| Scanner.FrameScanner.PeekHeader | src/frame.rs:110-121 | header read ahead once, kept until consumed; end of file and cut headers told apart |
| Scanner.FrameScanner.ConsumePayload | src/frame.rs:123-132 | skips a payload and moves the position, or reports it cut short |
| Scanner.FrameScanner.Check | src/frame.rs:158-191 | the chunked hashing loop finds exactly what the frame format says at the reader's boundary, however the reads are split |
| Scanner.FrameScanner.ScanAll | src/frame.rs:195-235 | count, every stride-th checkpoint, last id, write frontier and status are those of the byte walk |
| Scanner.FrameScanner.SeekToId | src/frame.rs:262-276 | stops in front of the first frame at or above the target, leaving its header read ahead |
| Scanner.FrameScanner.ScanToAfter | src/frame.rs:281-295 | moves past the frame with the target id and reports the position, or fails at the end |
| Scanner.FrameScanner.Read | src/frame.rs:137-154 | hands out a payload reader without moving the position |
| Scanner.FrameReader.Read | src/frame.rs:332-348 | at most the requested bytes; the position moves only with the last byte of a non-empty payload |
| Scanner.FrameReader.Drop | src/frame.rs:320-330 | skips what is left of the payload and moves the position past it |
| ScannerLaws.RunDrift | src/frame.rs:110-295 | any run of checks, seeks and scans visits frames that depend on the reader only, and shifts every reported offset by one constant: how far the position was ahead at the start |
| ScannerLaws.AfterAgrees | src/frame.rs:281-295 | the reported offset is true exactly when the scanner started without drift |
| ScannerLaws.SeekAgrees | src/frame.rs:262-276 | seeking depends on the reader only, whatever the position says |
| ScannerLaws.ReadWhole | src/frame.rs:137-154 | reading a frame to its end returns its payload |
| ScannerLaws.ReadKeepsDriftIff | src/frame.rs:332-348 | reading keeps position and reader in step if and only if the payload is not empty |
| Devices.FrameCursor.Write | src/frame.rs:27-36 | the field-by-field buffer grows by exactly one encoded frame |
| Devices.FrameCursor.FlushToSegment | src/frame.rs:73-80 | the buffered bytes land at the position, which advances by their number |
| WireNumbers.WrittenByNumber | src/state.rs:255-340 | every record is written with the discriminator 1 to 7 of its operation and the tags 1 to 11 of its fields, in the order of the source |
| WireNumbers.ReadByNumber | src/state.rs:341-387 | a field list is read as a record if and only if it carries the record's numbers: discriminator, scalars, dropped ids and metadata, whatever else it holds and however the tags are mixed |
| WireNumbers.UnknownByNumber | src/state.rs:376-376 | an operation is unknown exactly when its discriminator is outside 1 to 7 |
| Codec.EncodeFields | src/state.rs:292-340 | the buffer filled field by field is the record's field list, whose numbers WrittenByNumber names |
| Codec.DecodeEncoded | src/state.rs:292-387 | decoding a record's fields returns it, order of dropped ids and metadata included, even with unknown tags inserted anywhere |
| Codec.DecodeIgnoresUnknown | src/state.rs:341-387 | a reader sees the same record, or the same error, with and without unknown fields |
| Codec.DecodeOfEncode | src/state.rs:292-387 | the byte round trip, for every lawful container |
| State.StoreState.Apply | src/state.rs:142-161 | applying a record in place gives the state it names, and on an error changes nothing |
| State.StoreState.TruncateEnd | src/state.rs:204-225 | accepted if and only if the target and every dropped id are live; then the target is active and unsealed, otherwise nothing has changed |
| Transitions.AcceptedIff | src/state.rs:163-237 | each operation is accepted exactly when the state meets its condition: no segments, the sealed id active, the head not moving back, target and dropped ids live, the id dead |
| Transitions.RefusedWith | src/state.rs:126-137 | the error of each refusal; `truncate_end` names the first id that is not live, dropped ones before the target |
| Transitions.AppliedTo | src/state.rs:142-237 | the state after each accepted operation, field by field, on any state |
| Transitions.KilledAtOnce | src/state.rs:226-230 | removing the dropped segments one after the other leaves what one pass over the list would |
| State.MetadataHistory | src/state.rs:142-161 | after any replayed history the metadata keys are unique, each bound to the last value written for it; the old keys have kept their places, and the new ones follow in the order of their first write |
| State.MergeOrder | src/state.rs:154-159 | the same order for one merge: rewriting a key leaves its place, a new key goes behind all others |
| State.MetadataDetermined | src/state.rs:154-159 | unique keys, that order and the last values leave only one possible list |
| StateLaws.RollKeeps | src/state.rs:174-192 | a rollover of the active segment is accepted and keeps the state in order |
| StateLaws.TruncateStartKeeps | src/state.rs:193-203 | dropping a leading run of segments is accepted and keeps the state in order |
| StateLaws.TruncateEndKeeps | src/state.rs:204-225 | dropping all segments behind one is accepted, makes that one active and keeps the state in order |
| Index.BinarySearch | src/index.rs:36-40 | the loop of `partition_point` finds the point its recursive form names |
| Index.PartitionPointSplits | src/index.rs:86-97 | it splits any sequence whose predicate is true-then-false from index 1 on, as after a trimmed first segment |
| Index.FloorIsGreatest | src/index.rs:86-97 | the two-level search gives the greatest checkpoint at or below the target over all segments, or none, even when the first segment has no checkpoints left |
| Index.TruncatedStartKeeps | src/index.rs:100-108 | trimming the start removes exactly the checkpoints below the new first entry and keeps the index in order |
| Index.TruncatedEndKeeps | src/index.rs:110-118 | trimming the end removes exactly the checkpoints above the last valid entry and keeps the index in order |
| Index.EntryIndex.Find | src/index.rs:86-97 | the search on the object is the one characterised above |
| Index.EntryIndex.TruncateStart | src/index.rs:100-108 | drains and trims in place to the trimmed index |
| Index.EntryIndex.TruncateEnd | src/index.rs:110-118 | truncates in place to the trimmed index |
| Checkpoints.CheckpointForm | src/frame.rs:195-217 | a fresh scan's checkpoints are exactly the frames at multiples of 64, at their true offsets |
| Checkpoints.CheckpointDensity | src/scan.rs:12 | the checkpoint found for any stored id lies fewer than 64 frames before it |
| Disk.ManifestAppend | src/manifest.rs:9-13 | appending an accepted record to a manifest that holds a state makes it hold the next state |
| Disk.ReplayOverWalk | src/manifest.rs:37-65 | replay, which ignores checksums, applies each record the checksum scan accepts once and in order |
| Manifests.WriteOp | src/manifest.rs:9-13 | one encoded record at the cursor, which advances by its length |
| Manifests.ReplayAll | src/manifest.rs:37-65 | the replay loop, on an object changed in place, gives the state, the next offset or the error of the byte-level replay |
| Invariant.ManifestIsTheState | src/manifest.rs:37-65 | in every valid store, replaying the manifest gives the in-memory state and the manifest cursor is at the end of the file |
| Invariant.EntriesIncrease | src/store.rs:538-544 | ids ascend strictly across all live segments |
| Writing.RollKeepsInv | src/store.rs:252-285 | a rollover keeps the invariant and adds an empty active segment |
| Writing.WriteKeepsInv | src/store.rs:549-592 | a batch keeps the invariant, with and without a pending rollover |
| Writing.WriteAppends | src/store.rs:549-592 | the log after a batch is the log before it followed by the batch |
| Writing.RolloverRule | src/store.rs:562-588 | one batch adds a segment if and only if a rollover was due before it, and afterwards one is due if and only if the active file has grown past the trigger |
| Rollovers.PendingIff | src/store.rs:585-587 | after any run a rollover is due if and only if the file was past the trigger after the last batch and nothing since made the store forget |
| Rollovers.NextBatchRolls | src/store.rs:562-588 | after any run from a new store, the next batch starts a segment, at its own first id, if and only if the file was past the trigger after the last batch and no reopening, crash, power failure or effective `truncate_end` came since |
| TruncatingStart.StartKeepsInv | src/store.rs:318-350 | refused exactly when the head would move back; otherwise the invariant holds and no entry at or above the new head is lost |
| TruncatingStart.EvictedSegments | src/store.rs:327-333 | the evicted segments are a leading run, never the active one, and hold only entries below the new head; every sealed segment that stays holds one at or above it |
| Indexing.IndexStep | src/store.rs:347-403 | after any step of a run, for every checkpoint: batches, deletions and metadata keep it, a head move keeps it if and only if it is at or above the new head, a cut if and only if it is at or below the given id, and after opening there is one for exactly every 64th frame of each segment |
| Indexing.ScansStayExact | src/store.rs:617-645 | over any run from a new store, unless a batch has begun a segment since the last opening, every scan is exact, through head moves, cuts, deletions, crashes and power failures |
| Indexing.ScanExactAfterHeadMove | src/store.rs:318-350 | a store just opened scans exactly after any accepted head move |
| Bookkeeping.NumberStep | src/store.rs:214-218 | opening sets the next id right behind the highest live or dead one, a rollover uses it for the new segment and moves on by one, nothing else changes it |
| Bookkeeping.FreshNumbers | src/store.rs:108-119 | a new store has segment 1, from entry 0, and 2 as its next id |
| Bookkeeping.CountedIff | src/store.rs:405-419 | after any run the entry count of the active segment is exact if and only if no entries have been cut off since it was opened or begun |
| Bookkeeping.SealedExactly | src/store.rs:252-271 | so unless entries were cut off, a seal's entry count is the number of frames in the sealed file, modulo 2^32 |
| TruncatingEnd.AfterInImage | src/frame.rs:281-295 | the scan over a segment's bytes ends right behind the frame with the wanted id, or fails when there is none |
| TruncatingEnd.TruncateEndExact | src/store.rs:354-422 | at or past the last id nothing changes; an id that is not stored is an error and nothing changes; otherwise the result is valid if and only if the scanner started without drift, and then holds exactly the entries up to the given id |
| TruncatingEnd.DriftedCut | src/store.rs:369-402 | with drift the file ends up longer than the frames kept, and the store is not valid |
| Drifting.CutBehindReopens | src/store.rs:369-402 | after a cut at a wrong offset inside the file, the next open gives a valid store with every entry up to the last whole frame before that offset; entries that were to go are back if and only if one of their frames lies before it |
| Drifting.PushBehind | src/store.rs:394-402 | a batch pushed before that open lands behind the entries that should be gone, and a first id at or below theirs leaves ids out of order |
| Misplaced.FirstStored | src/store.rs:549-592 | a batch with ascending ids above the last is stored whole behind the log, also when they lie below the first id of its segment |
| Misplaced.BelowFirstNotFound | src/store.rs:361-378 | of such a batch `truncate_end` finds an entry if and only if it is not below that first id, or there is no segment before |
| Housekeeping.DeadDeletedKeepsInv | src/store.rs:450-465 | afterwards no segment is dead, the files on disk are exactly the live ones, and nothing else has changed |
| Housekeeping.DeletionForgetsNothing | src/store.rs:454-462 | unlink first, record second: after every disk step of a deletion the manifest knows each file that is still there |
| Housekeeping.MetadataKeepsInv | src/store.rs:475-483 | a metadata write keeps the invariant and changes only the metadata |
| Reopening.ScanSettled | src/scan.rs:107-216 | a disk that is in order scans without issues; sealed sizes never mismatch |
| Reopening.OpenSettled | src/store.rs:191-244 | opening it changes nothing on disk and gives a valid store |
| Reopening.ReopenIsIdentity | src/store.rs:191-244 | closing and opening gives the same entries, head, visible last id, metadata, active segment, write offset and manifest cursor, for every valid store |
| Scanning.ScanSegmentFile | src/scan.rs:36-99 | size check, frame check and the issue each failure reports |
| Scanning.ScanStore | src/scan.rs:107-216 | the phases of the scan, in order, with their early returns |
| Scanning.PushMissing | src/scan.rs:218-235 | the filter loops report exactly the ids that are not in the known set, in order |
| Scanning.CollectFixUps | src/recovery.rs:53-64 | the first issue that cannot be fixed, or not without approval, decides; which issues those are is in OpenAnswers and RecoverAnswers |
| Scanning.PerformAction | src/recovery.rs:113-153 | each fix-up's effect on the disk; one that fails changes nothing |
| Scanning.Recover | src/recovery.rs:44-74 | fix-ups are applied in phase order until one fails |
| Mending.ByPhaseSorts | src/recovery.rs:66-66 | the sort orders any fix-ups by phase, keeps them all, and keeps the order inside each phase |
| RecoveryLaws.RecoveryConverges | src/recovery.rs:44-74 | on every disk whose scan reports nothing but a short manifest tail, damaged tails of unsealed segments, orphans and missing dead files, recovery needs no approval and succeeds; the next scan reports nothing; live segments, seals, head and metadata are unchanged, the dead set is (dead on disk) plus orphans, and only those tails are cut |
| RecoveryLaws.RecoversIffMinor | src/recovery.rs:44-74 | without approval recovery succeeds exactly on those disks |
| Approvals.OpenAnswers | src/store.rs:130-150 | on every disk: the first issue that is not fixed without approval decides between `ApprovedRecoveredRequired` and `RecoveryNotPossible`, with the disk left alone; without such an issue none is left afterwards, and `RecoveryFailed` never comes |
| Approvals.RecoverAnswers | src/store.rs:170-173 | on every disk: approved recovery is impossible exactly when some issue is hopeless, and then changes nothing; otherwise only an action itself can fail |
| Approvals.DamagedSealed | src/recovery.rs:165-172 | bytes changed in live files, lengths of sealed ones kept: opening asks for approval if and only if a sealed one stops early; approved recovery succeeds and leaves every file that stops early with its whole frames; the next scan reports exactly one size mismatch for each such sealed segment, and the store can then neither be opened nor recovered |
| Approvals.LostSealed | src/scan.rs:54-69 | a sealed segment without its file, its length or its magic: neither opening nor approved recovery does anything |
| Approvals.UnusableManifest | src/scan.rs:119-182 | the same for a manifest without magic, with a wrong checksum, with a record that cannot be read or applied, or without a segment |
| Recovering.OpenRecovers | src/store.rs:130-150 | opening a store in order but for such damage gives a valid store with exactly the readable entries and a next id above every live and dead one |
| Restarting.RecoveryRestarts | src/recovery.rs:44-74 | stopped after or inside any fix-up, recovery leaves a disk with only such issues, heading for the same state and the same files |
| Restarting.InterruptedConverges | src/recovery.rs:44-74 | so repeating an interrupted recovery ends where an undisturbed one does |
| Restarting.OpenAfterInterruptedRecovery | src/store.rs:130-150 | an open that is repeated after a stop anywhere in its recovery gives the state, entries and write position of an undisturbed one |
| Crashes.PowerLoss | src/scan.rs:54-98 | whatever tails the files lost, the store opens if and only if every sealed file is whole; then its log is the longest whole-frame prefix, contains every entry within the synced length, and the write position is at its end |
| Crashes.TornRecordIff | src/manifest.rs:37-65 | a manifest record cut after j bytes can be recovered from if and only if j is less than the header length |
| Crashes.BrokenActiveNeedsApproval | src/recovery.rs:165-168 | a missing active file needs approval and is then created anew; one without its magic cannot be recovered even with approval |
| CrashSteps.RollCrash | src/store.rs:252-285 | stopping a rollover after or inside any disk step and opening gives the same entries, head and metadata, and a next id above every live and dead one |
| CrashSteps.DeleteCrash | src/store.rs:450-465 | the same for deleting dead segments |
| CrashSteps.WriteCrash | src/store.rs:549-592 | the same for a batch, rollover included: the old log followed by some whole-frame prefix of the batch |
| CrashSteps.TruncateStartCrash | src/store.rs:318-350 | entries, head and metadata are all old or all new |
| CrashSteps.MetadataCrash | src/store.rs:475-483 | the metadata is all old or all new |
| CrashSteps.TruncateEndCrash | src/store.rs:379-392 | into the active segment: the old log, or exactly the entries up to the given id |
| CrashSteps.ShrunkNotRecorded | src/store.rs:379-392 | between shrinking and recording, the store opens if and only if the target is active or nothing was cut off |
| Reading.ScanNeverLoses | src/store.rs:617-645 | a scan yields a contiguous suffix of the stored log with every entry at or above the clamped request, and nothing when there is none |
| Reading.ScanExactIff | src/store.rs:617-645 | it yields exactly those entries if and only if its start segment holds one, or what follows begins at or above the request, or there is none |
| Reading.IndexedScansExactly | src/store.rs:617-645 | while every later segment has its first frame in the index, every scan is exact |
| Reading.ScanExactAfterOpen | src/store.rs:617-645 | right after opening every scan is exact |
| Reading.NothingToShow | src/store.rs:621-624 | the early return is taken exactly when no stored entry is at or above the request |
| Reading.LastVisibleIsLast | src/store.rs:185-189 | the reported last id is that of the last accessible entry, and absent exactly when none is accessible |
| Readers.StoreReader.constructor | src/store.rs:617-645 | the new reader is about to yield what the scan promises |
| Readers.StoreReader.Next | src/store.rs:664-694 | the next entry, moving on to later segments when one is exhausted, or the end, or an error |
| Readers.Collect | src/store.rs:664-694 | a caller that reads everything gets exactly the scan's entries, payloads included |
| Stores.Store.DoRollover | src/store.rs:252-285 | in memory and on disk the rollover that RollKeepsInv proves harmless, in the disk order that RollCrash proves crash-atomic; buffered frames stay buffered for the new segment; an existing file stops it with nothing changed |
| Stores.Store.TruncateStart | src/store.rs:318-350 | the head move of StartKeepsInv in one disk step, keeping exactly the checkpoints at or above the new head, or the error with nothing changed when the head would move back |
| Stores.Store.FindCut | src/store.rs:361-378 | target segment and byte offset as the drifting scanner reports it |
| Stores.Store.CutAt | src/store.rs:379-421 | file shrunk first, record second, then the target is active again, and exactly the checkpoints at or below the id stay: the two disk steps of TruncateEndCrash |
| Stores.Store.TruncateEnd | src/store.rs:354-422 | the three outcomes of TruncateEndExact: no-op, error of the named kind with memory, disk and history unchanged, or the cut |
| Stores.CutFailsAsNotStored | src/store.rs:375-378 | in a valid store the only such error is that of an entry that is not stored |
| Stores.Store.DeleteDeadSegments | src/store.rs:450-465 | every dead segment goes, an unlink and then a record for each, in the disk order of DeleteCrash; the count is that of the dead set |
| Stores.Store.WriteMetadata | src/store.rs:475-483 | the metadata merge of MetadataKeepsInv, in one disk step |
| Stores.Store.FirstEntryId | src/store.rs:176-178 | the log head |
| Stores.Store.LastEntryId | src/store.rs:185-189 | the last id, hidden once the head has passed it: that of the last accessible entry, as LastVisibleIsLast proves |
| Stores.StoreWriter.Push | src/store.rs:538-544 | the frame is appended to the store's own cursor |
| Stores.StoreWriter.Write | src/store.rs:549-592 | exactly the pushed frames are appended, after a rollover when one is pending, in the disk order of WriteCrash; it fails only when a file is missing or in the way |
| Stores.WriteFindsFiles | src/store.rs:549-573 | in a valid store a batch never fails to create or open its files |
| Stores.CreateFiles | src/store.rs:108-119 | the files of a new store, step by step |
| Stores.OpenStore | src/store.rs:130-150 | scan, recovery, second scan and construction give the store, the error and the disk of OpenRecovers and OpenSettled |
| Runs.FreshOpens | src/store.rs:108-123 | a new store opens, is valid, and is empty with head 0 and no metadata |
| Runs.StepRefines | src/store.rs:249-592 | every operation, reopening, crash inside an operation, and power failure before, inside or after one keeps the invariant and follows the abstract log, and every open in it succeeds |
| Runs.RunRefines | src/store.rs:249-592 | after any run from a new store the invariant holds, visible ids ascend strictly and none lies below the head, and the run is one of a plain ordered log with a head and metadata |
| Runs.HeadNeverDecreases | src/store.rs:318-325 | over any run the head never moves back |
| Durability.SafeSurvives | src/store.rs:494-505 | over any run with stops of process or power anywhere, the entries within the synced length at its start are still there at its end, in order, except those the head passed or a cut removed |
| Durability.SyncedSurvives | src/store.rs:494-505 | so every entry that was accessible at a sync survives |
| Creating.CreationIsNotAtomic | src/store.rs:106-121 | a stop inside creation, once the manifest file is there: the store opens, as a new one, if and only if the first record is complete; otherwise neither opening nor approved recovery can succeed |
| Creating.CreationCrash | src/store.rs:106-121 | a stop after or inside any disk step of creation leaves a store that opens if and only if creation was complete |
| Runs.NoExpectFails | src/store.rs:275-275 | in every valid store, each record about to be written is accepted by the state: no `expect` on applying one can fail |
| Counterexamples.ScanBelowRequest | src/store.rs:683-691 | a run after which `scan(3)` yields entries 2 and 3 |
| Counterexamples.TruncateEndDrifts | src/store.rs:369-379 | a run after which `truncate_end(64)` leaves 2588 bytes instead of 1308 and an invalid store |
| Counterexamples.RolledBackReturn | src/store.rs:369-402 | a run after which entries 65 to 128, rolled back, return with the next open, and a new entry 65 lands behind them |
| Counterexamples.RolloverForgotten | src/store.rs:242-242 | a run after which the active file is past the trigger and the next batch still goes to it |
| Counterexamples.SmallerIdNotFound | src/store.rs:361-378 | a run after which entry 3 is stored and `truncate_end(3)` fails |
| Counterexamples.TornRecordFails | src/manifest.rs:48-48 | a new store whose first metadata record was cut right behind its header cannot be opened |
| Counterexamples.SealedTailFails | src/scan.rs:54-61 | after three batches with rollovers, losing one byte of the first segment makes the store unopenable |
| Counterexamples.CutIntoSealedFails | src/store.rs:379-392 | a run after which stopping `truncate_end(1)` between its two disk steps makes the store unopenable |
| Counterexamples.EmptyActiveFails | src/recovery.rs:136-138 | a new store with an empty segment file cannot be recovered even with approval |
| Counterexamples.EmptyReadFails | src/frame.rs:332-348 | one empty frame read leaves the position a header behind |

## Left out

- Directories, permissions, file names, directory syncs and I/O errors in the middle of an operation: a disk step
  succeeds or the process stops.  A manifest that is absent is not told apart from one that is there, except when
  creating a store.
- The checksum algorithm: nothing is claimed about corruption being detected, or about tails filled with zeros.
- The byte layout inside the `yatlv` container, which is not part of the repository.
- The cache of open file handles, the `Commit` object, metrics, tracing, error texts, the serde feature and the lifetime
  cast in the reader.  A sync is an event of `Durability`'s runs.
- A writer that is dropped without `write`: its frames would stay in the store's cursor and go out with the next batch.
- Bookkeeping.SealedExactly: nothing is said of the count after a `truncate_end`, where the code itself gives it up.
- Runs.RunRefines: assumes what the source asks of callers (ids strictly ascending, every pushed batch written), segment
  ids below the 32-bit maximum and byte offsets below 2^64.  Three kinds of step are excluded, and their effects
  are proved apart: batches with an id below the active segment's recorded first one (`Misplaced`), `truncate_end` calls
  that start with drift (TruncatingEnd.DriftedCut, `Drifting`), and stops after which the store cannot be opened.
- Runs.StepRefines: the same steps are excluded.  A crash inside `truncate_end` is covered when the target is the active
  segment; the other case is CrashSteps.ShrunkNotRecorded.
- Drifting.CutBehindReopens: the wrong offset lies inside the file.  Past its end the file is filled with zeros, and how
  those read depends on the checksum.
- Durability.SyncedSurvives: sealed files are whole, as they must be for the store to open (Crashes.PowerLoss); nothing
  syncs them.
- CrashSteps.RollCrash: a manifest record torn behind its header is not among the stops that this and the other
  theorems of CrashSteps cover; the store then cannot be opened, as Crashes.TornRecordIff states.
- Crashes.PowerLoss: live files lose tails only, a lost tail never reaches into the magic, and the manifest, which is
  synced after every record but the first, still reads as the state, with at most a short tail.  An active file that lost
  its magic is Crashes.BrokenActiveNeedsApproval, a lost first record Creating.CreationIsNotAtomic.
- Scanning.ScanStore: the issues of a missing or unreadable directory and of an absent manifest.
- Stores.OpenStore: where src/store.rs:196-207 panics on a clean report without an active segment, the result is the extra
  error `Panics`, on the model's side only.  In a store that OpenSettled or OpenRecovers speaks of it never occurs.
- Approvals.DamagedSealed: the manifest is intact and the magic of live files too; the other cases are
  Approvals.UnusableManifest and Approvals.LostSealed.  Whether a changed byte makes a file stop early depends on the
  checksum.
- Devices.FrameCursor.FlushToSegment: the position is not wrapped at 2^64; the store's methods ask for file sizes below it.
