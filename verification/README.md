# Verification of Barme

Barme is a single-node, content-addressed object store. Objects are cut into
chunks, each stored once under the hash of its bytes; a manifest lists an
object's chunks and is itself stored under its hash; a pointer file per key
lists the manifests the key has named, oldest first. A mark-and-sweep collector
erases chunks no history leads to. The web console adds a QR encoder, the S3
door a SigV4 canonicaliser, and the engine a paged listing and Merkle proofs.

This project models those parts in Dafny 4.11 and proves what they promise.
`dafny verify dfyconfig.toml` checks all of it. Nothing was executed.

| module | what it models |
|---|---|
| `Protocol`, `Careless` | write, import, move, pin, commit and collect as a state machine of small steps, the mark walk key by key, with crashes anywhere; and the runs that lose data when one step is careless |
| `Sweeping`, `Collector` | what a collector pass decides, what passes do over time, and the mark and sweep loops |
| `Locks` | commits under the sharded key locks, interleaved read by read |
| `FileSystem`, `Durable`, `Recovery`, `PutOrder`, `Losses`, `Volumes` | a file system under power loss; `write_atomic` operation by operation; write-then-reference over whole runs, from durability and from what was seen; the runs that lose what they name; `sweep_temp` |
| `PointerText`, `Stores`, `Objects`, `Engines` | the stores and the engine's calls as classes, against lists of byte strings per key |
| `Merkle` | root, proof, verifier |
| `Sorting`, `Listing` | paged listing with prefix and delimiter |
| `Bits`, `Gf256`, `ReedSolomon`, `Interleave`, `Segment`, `QrGrid`, `QrSymbol`, `Scanning` | the QR encoder, its symbol module by module, and a scan of it |
| `SigV4` | percent codec and canonical query |
| `Common`, `Hashing` | shared notions; the hash is any total function to 32 bytes |

The hash is never assumed injective. A claim that needs distinct inputs either
holds or comes with two different byte strings of one digest: `Merkle` computes
the pair, the stores record it in a ghost field (`clash`), and the state machine
names the condition.

## Where the code and its own words part

The model follows the code.

* `write_atomic` promises that the file survives power loss once it returns. It
  does exactly when the write began *grounded* (`Durable.AckSurvivesExactly`). A
  call that makes the directory and then fails leaves that directory's name
  unsynced; later calls find the directory there and do not sync it either
  (`Losses.FailureAfterMkdirUngrounds`). Opening a store makes its directories and
  syncs none of their names (`Losses.OpenUngrounds`).
* Write-then-reference is said to make chunks durable before a pointer names them.
  In the first session of a store it does not: every call acknowledged and nothing
  failing, power loss can take the chunks' directory and leave the pointer
  (`Losses.FirstSessionLosesChunks`). References are safe from every power loss
  exactly when nothing in a directory made and not synced since is named from outside
  it (`PutOrder.LossIsSafeExactly`); power losses that spare such directories are
  always safe (`PutOrder.PutOrderIsEnough`), and so are all of them once the store has
  been found, directories and all, after a power loss (`PutOrder.ReopenedIsSafe`).
* A put that finds its file does nothing, and the file may be there from a put that
  failed between its rename and the sync of its directory: the manifest and the
  pointer are then written durably, and power loss takes the chunk alone
  (`Losses.SkippedPutLosesChunk`). A failed call is harmless exactly when it left
  nothing to see (`PutOrder.FailureKeepsFirmExactly`), and the results above are about
  runs whose failed calls did.
* Removals sync nothing, so a deleted pointer can come back after power loss
  without the chunk erased after it (`Losses.RemovedPointerDangles`). Erasing is safe
  exactly when no file seen names the chunk, and those that did have been settled
  since, by a power loss or a write in their directory
  (`Recovery.EraseKeepsBackedExactly`, `Recovery.AckSettles`).
* A corrupt line of a pointer file is said to cost that version alone. The file is
  read as UTF-8 or not at all: a line that is not text takes the whole history with
  it, the key can be neither read nor written, and the collector's mark fails from
  then on (`PointerText.CorruptLineIsSkippedExactly`,
  `PointerText.OneByteTakesThemAll`, `Stores.PointerStore.Set`,
  `Collector.Gc.Mark`). Of a file the store wrote, any byte whose top bit flips does
  it (`PointerText.DamagedByteReadsExactly`).
* A manifest of a newer form is said to be refused while the rest of the store still
  works. An import stores one all the same, and once a history lists it no sweep
  gets past its mark (`Engines.Engine.ImportObject`, `Collector.Gc.Sweep`).
* Losing the condemned file is said only to delay collection, by at most one grace
  period. It only delays exactly when no clock reading lies below both an earlier
  and a later one, with two provisos for a chunk that comes with a stamp
  (`Sweeping.LossOnlyDelaysExactly`, `Sweeping.LossHastensOnBackwardClock`). On a
  clock that never runs backwards the delay is within one grace exactly when the loss
  gives the chunk no new stamp, or some pass falls between a grace after the loss and
  a grace after the pass that would have erased (`Sweeping.WithinOneGraceExactly`,
  `Sweeping.SparsePassesDelayLonger`). A stamp left by a pass that erased its chunk
  and died before saving erases the chunk, stored again, at its first miss
  (`Sweeping.StaleStampErasesAtOnce`).
* The mark is said to start from a snapshot of the live pointers. It reads them one
  key after the other, and a key moved meanwhile to where it has been is missed,
  and its aged chunks are erased (`Careless.MoveDuringMarkLosesData`). The removal
  that ends the move is unsafe exactly as `Protocol.RemovalHides` says.
* `move_key` is said to keep the history. Moved onto itself, a key loses it
  (`Stores.PointerStore.MoveKey`).
* Pins are a set, not a count: one release drops another writer's protection
  (`Careless.SharedPinLosesData`, `Careless.SharedAbortLosesData`).
  `restore_version` checks the manifest and not its chunks
  (`Careless.UnlistedRestoreLosesData`, `Engines.Engine.RestoreVersion`);
  `import_object` checks the chunks, pins none of them
  (`Careless.SlowImportLosesData`) and does not look at what they decode to
  (`Engines.Engine.ImportObject`).
* `put_stream` is said to give the object id `put` gives the same bytes. The id
  covers the time of writing, as `tests/put_get.rs` says, so the two agree exactly
  when written at one time, or by a collision (`Engines.SameIdExactly`).
* `percent_decode` slices text at a byte position and stops the program exactly when
  some `%` is followed, three bytes on, by the inside of a character
  (`SigV4.DecodeAbortsExactly`, `SigV4.CanonicalAbortsExactly`,
  `SigV4.AbortHappens`); it also reads `%+5` as an escape, as `from_str_radix` does.
* A Merkle proof carries an index and a total that the verifier never reads; what
  it proves is membership (`Merkle.AcceptedProofsAreHonest`).

## Model

| member | source | states |
|---|---|---|
| `Protocol.StepKeepsInv` | crates/barme-engine/src/lib.rs:289-394 | from any sound state, each of the 30 kinds of step keeps the state sound exactly when it is careful: a chunk pinned while it is still kept, no id given to two manifests, no release of what another owner counts on, nothing adopted whose chunks are going, no history cut or removed that hides from the mark a chunk somebody relies on |
| `Protocol.CarefulRunIsSafe` | crates/barme-gc/src/lib.rs:50-109 | throughout every careful run, with marking of single keys, visits of single chunks and crashes between any two steps, every id in every history has its manifest and all of its chunks |
| `Protocol.DisciplinedRunIsSafe` | crates/barme-gc/src/lib.rs:81-109 | the same, from the discipline alone: put and pin in one step, collector passes in one step, none begun between the first look and the commit of an import, restore, copy or move, no chunk held by two owners when one lets go, only listed ids restored, ids that do not collide; any grace, crashes anywhere |
| `Protocol.DisciplinedStepIsCareful` | crates/barme-store/src/chunk_store.rs:39-66 | under that discipline every step is careful |
| `Protocol.PromptPinIsCareful` | crates/barme-engine/src/lib.rs:297-303 | a chunk pinned with no step since it was stored is pinned in time unless a running pass has already doomed it |
| `Protocol.ListedIsCareful` | crates/barme-engine/src/lib.rs:1129-1138 | an id still in some history may always be listed under another key at once |
| `Protocol.AdoptStep` | crates/barme-engine/src/lib.rs:1314-1341 | the commit of an import, restore, copy or move keeps the state sound exactly when the chunks of its ids are still there and not doomed, or there and the key still to be marked, and what it replaces hides nothing |
| `Protocol.OrderlyIsUndisturbed` | crates/barme-engine/src/lib.rs:1321-1339 | under the discipline what an import, restore, copy or move has looked at is still there when it commits |
| `Protocol.ExclusiveReleaseIsCareful` | crates/barme-store/src/chunk_store.rs:45-50 | when no two in-flight owners hold one chunk, letting go and aborting are careful |
| `Protocol.PinsNeverLeak` | crates/barme-engine/src/lib.rs:1486-1533 | in every run, careful or not, every pin is on record with a live guard or a staged upload, so none is left when nothing is in flight |
| `Protocol.ReleaseStep` | crates/barme-store/src/chunk_store.rs:45-50 | unpinning for one owner keeps the state sound exactly when no other owner counts on any of those pins |
| `Protocol.BeginSweepStep` | crates/barme-gc/src/lib.rs:50-72 | a pass that begins dooms nothing that a history, a guard or a staged upload needs |
| `Protocol.CollectorDoomsNoMore` | crates/barme-gc/src/lib.rs:58-69 | nor does any later step of it: a key read moves its chunks from those to come to those marked |
| `Protocol.RemovalHides` | crates/barme-store/src/pointer_store.rs:171-184 | taking a key away during the mark leaves a sound state unsound exactly when the walk has not come to it and it alone of the keys to come leads to an aged unmarked chunk that a key passed over, a guard or an upload relies on |
| `Protocol.HistoryIsLogged` | crates/barme-store/src/pointer_store.rs:28-34 | in every run, careful or not, a key lists the newest of the ids committed or adopted under it since its last removal or the last move onto it, in the order that happened: all of them unless it was trimmed, and never none when there is one |
| `Protocol.PartsInOrder` | crates/barme-engine/src/lib.rs:516-541 | a completed upload has the chunks of its parts in the order named |
| `Careless.SharedPinLosesData` | crates/barme-store/src/chunk_store.rs:39-50 | a run, careful but for one release of a shared pin, that commits an object without its bytes |
| `Careless.LatePinLosesData` | crates/barme-engine/src/lib.rs:297-303 | a run, careful but for a pin that comes two passes after its chunk was stored, that commits an object without its bytes |
| `Careless.UnlistedRestoreLosesData` | crates/barme-engine/src/lib.rs:1129-1138 | a run, careful but for listing a restored id that no history lists, that leaves a history naming erased chunks |
| `Careless.SlowImportLosesData` | crates/barme-engine/src/lib.rs:1314-1341 | a run, careful but for an import that commits two passes after it found its chunk, that commits an object without its bytes |
| `Careless.SharedAbortLosesData` | crates/barme-engine/src/lib.rs:582-587 | a run, careful but for aborting an upload that shares a chunk with a writer, that commits an object without its bytes |
| `Careless.CollidingManifestLosesData` | crates/barme-store/src/manifest_store.rs:26-36 | a run, careful but for a second manifest of one id, that lists the first, whose chunk is gone |
| `Careless.MoveDuringMarkLosesData` | crates/barme-gc/src/lib.rs:58-69 | a run, careful but for the removal that ends a move from a key not yet marked to one passed over, that loses the moved object |
| `Sweeping.ErasedExactlyWhenAged` | crates/barme-gc/src/lib.rs:81-109 | a pass erases a stored chunk exactly when it and every pass since the first of the current run of misses failed to mark it, and saturating time since the stamp is at least the grace; the stamp is of the first of the run, of the pass that last lost the file, or what the chunk came with |
| `Sweeping.StaleStampErasesAtOnce` | crates/barme-gc/src/lib.rs:94-99 | a chunk stored again under an aged stamp goes at its first miss |
| `Sweeping.StampIsRunStart` | crates/barme-gc/src/lib.rs:101-104 | a stored chunk is stamped exactly while it is being missed, with the time of the first miss of the run, or of its stamp on arrival; the file may be lost before any pass |
| `Sweeping.VisitingIsThePass` | crates/barme-gc/src/lib.rs:87-105 | visiting the stored chunks one by one, in any order, comes to the pass decided all at once |
| `Sweeping.LossOnlyDelays` | crates/barme-store/src/chunk_store.rs:158-174 | where no clock readings, stamp on arrival included, can hasten erasure, losing the file however often never erases a chunk that would have been kept |
| `Sweeping.LossOnlyDelaysExactly` | crates/barme-store/src/chunk_store.rs:158-174 | that condition is exact, over all marks, losses and graces, for a chunk that starts with any stamp or none: no reading lies below an earlier and a later one, not counting as the earlier, for a chunk that comes stamped, the first pass, nor the stamp where the first pass lies between and comes at least as long after it as the later reading comes after the low one |
| `Sweeping.OneLossDelaysExactly` | crates/barme-store/src/chunk_store.rs:158-174 | after one loss that gives the chunk a new stamp, a chunk that stays missed is gone by a given pass exactly when some pass before it, after the loss and from the pass that would have erased on, comes a grace after the loss |
| `Sweeping.WithinOneGraceExactly` | crates/barme-store/src/chunk_store.rs:158-174 | on a clock that never runs backwards, that is within a grace of the pass that would have erased exactly when the loss gives no new stamp or some pass falls in between |
| `Sweeping.SparsePassesDelayLonger` | crates/barme-store/src/chunk_store.rs:158-174 | three passes of which the last may be any time later, so that one loss delays by more than a grace |
| `Sweeping.LossHastensOnBackwardClock` | crates/barme-store/src/chunk_store.rs:158-174 | three passes whose middle reading is the lowest: losing the file there erases a chunk that would have been kept |
| `Collector.Gc.Mark` | crates/barme-gc/src/lib.rs:50-72 | the walk over buckets, keys, histories and manifests yields the pins and exactly the chunks of stored manifests listed in some history; it fails exactly when some key's file is not text or some listed manifest is of a newer form |
| `Collector.Gc.MarkKey` | crates/barme-gc/src/lib.rs:60-69 | one key's versions are added, a manifest seen before or missing adding nothing; it fails exactly when the key cannot be read or lists a manifest of a newer form |
| `Collector.Gc.Sweep` | crates/barme-gc/src/lib.rs:81-109 | files left, condemned file saved and the three counts are those of the pass decided at once; a sweep whose mark fails changes nothing; the counts are the numbers of files gone, of stamps that are new and of marked chunks on disk |
| `Collector.Gc.ReconcileAll` | crates/barme-gc/src/lib.rs:87-105 | the loop over all stored chunks, in whatever order they are listed, erases and stamps exactly the pass's sets and counts them |
| `Locks.HistoriesAreCommits` | crates/barme-engine/src/lib.rs:252-264 | for any pointers found at the start, any shard function, any calls and any interleaving with any operation failing, each key's history is the commits made to it in the order their threads got its lock, since the last removal, and before them, if there was none, what was found |
| `Locks.EffectiveIsOrdered` | crates/barme-engine/src/lib.rs:252-264 | every call that made its change stands in the lock order of each shard it needed |
| `Locks.DeleteIfEmptyWipesNothing` | crates/barme-engine/src/lib.rs:996-1008 | no step of a delete-if-empty ever removes a pointer |
| `Locks.SomeThreadCanStep` | crates/barme-engine/src/lib.rs:996-1008 | while a call is unfinished some thread can step, for waiting goes up the lock indices |
| `Locks.EveryScheduleFinishes` | crates/barme-engine/src/lib.rs:767-775 | no schedule runs for ever, and one that can go no further has finished every call |
| `Locks.StepKeepsLocks` | crates/barme-engine/src/lib.rs:252-264 | each lock is held by the one thread that thinks it holds it, and the last in its order |
| `Locks.OthersReadsStayFresh` | crates/barme-store/src/pointer_store.rs:28-34 | no write invalidates what another thread has read and not yet written back |
| `Locks.ReplayIsCommits` | crates/barme-store/src/pointer_store.rs:28-34 | replaying the holders of a shard in turn on the history found gives the commits since the last removal, after that history if there was none |
| `FileSystem.SurvivorRecovers` | crates/barme-store/src/lib.rs:219-227 | a file whose bytes, name and directories are all synced reads the same after any power loss |
| `FileSystem.LostUnlessSurvives` | crates/barme-store/src/lib.rs:189-199 | a file with anything pending is lost or changed by some power loss |
| `Durable.AdvanceKeepsMidway` | crates/barme-store/src/lib.rs:200-217 | after each file operation of a write: the target as before until it is whole and new, directories only added, other names untouched |
| `Durable.OldOrNew` | crates/barme-store/src/lib.rs:200-217 | power lost at any point of a write, every name that reads as a file reads whole: as it might have before, or, for the target alone, the new contents |
| `Durable.AckSurvivesExactly` | crates/barme-store/src/lib.rs:200-217 | an acknowledged write survives every power loss exactly when the directories above its own were durable and its own was durable or not there yet |
| `Durable.MidwayIsUntorn` | crates/barme-store/src/lib.rs:206-209 | a name the store reads never gets bytes that are not synced |
| `Durable.TempIsNamed` | crates/barme-store/src/lib.rs:192-192 | a temp file is one whose name starts with `.barme-tmp-` |
| `Recovery.FoundReferencesAreFound` | crates/barme-engine/src/lib.rs:685-689 | over whole runs of writes, failures, directories made, deletions and power losses in which every reference is to a file that survives, given some directories, every file found after a power loss that spares those finds all it names, byte for byte |
| `PutOrder.PutOrderIsEnough` | crates/barme-engine/src/lib.rs:685-689 | from a fresh or rested disk and from what a caller can see: everything named was found or written before by the same process and not deleted since, addresses stand for their bytes, failed calls left nothing to see but directories, and nothing a seen file still names was deleted; then every power loss that spares the directories made and not synced leaves every reference found |
| `PutOrder.LossIsSafeExactly` | crates/barme-store/src/lib.rs:155-179 | after any such run, no power loss at all leaves a reference dangling exactly when nothing in a directory made, its parent not synced since, is named by a file outside it |
| `PutOrder.ReopenedIsSafe` | crates/barme-store/src/chunk_store.rs:28-31 | a run that makes no directory but its writes' own is safe from every power loss, as of a store whose directories opening finds there |
| `Losses.FirstSessionLosesChunks` | crates/barme-store/src/lib.rs:155-179 | such a run from a blank disk: stores opened, chunk, manifest and pointer acknowledged, nothing failing, and power loss takes the chunk alone |
| `Losses.OpenedIsLostAlone` | crates/barme-store/src/chunk_store.rs:28-31 | in any run, a directory made and not synced since can be lost with all in it, everything else coming back |
| `PutOrder.OrderlyIsCareful` | crates/barme-store/src/lib.rs:8-10 | while whatever is there survives, existence is all a writer has to ask of what it names |
| `PutOrder.SeenStays` | crates/barme-store/src/chunk_store.rs:59-66 | a file found or written stays until it is unlinked or power is lost, whatever else is written |
| `Losses.SkippedPutLosesChunk` | crates/barme-store/src/chunk_store.rs:59-66 | a run: a put fails after its rename, its retry would skip, manifest and pointer are acknowledged, and power loss takes the chunk alone |
| `Losses.PendingIsLostAlone` | crates/barme-store/src/chunk_store.rs:59-66 | whatever is written in other directories after such a failure, some power loss brings all of it back but that file |
| `Losses.FailureAfterRenameIsPending` | crates/barme-store/src/lib.rs:209-216 | a write failing between rename and directory sync, with no file there before, leaves a file that is there and does not survive |
| `Recovery.StepKeepsInv` | crates/barme-engine/src/lib.rs:685-689 | each careful step keeps that so |
| `Recovery.EraseKeepsBackedExactly` | crates/barme-store/src/chunk_store.rs:91-97 | over runs, erasing a file keeps every reference backed exactly when no file seen names it, and each that did and was unlinked or replaced has been settled since |
| `Recovery.DiskIsRecalled` | crates/barme-store/src/lib.rs:219-227 | what the disk may hold under a name is exactly what was seen there, now or since its directory was last synced or power was lost |
| `Recovery.AckSettles` | crates/barme-store/src/lib.rs:209-216 | an acknowledged write settles every name in its directory |
| `PutOrder.AckKeepsFirmExactly` | crates/barme-store/src/lib.rs:200-217 | where whatever is there survives, given some directories, an acknowledged write keeps that so exactly when it had no other directory to make above its own |
| `PutOrder.MakesNoneExactly` | crates/barme-store/src/lib.rs:200-217 | with none given: when the directory above its own was there |
| `PutOrder.OpenKeepsFirmExactly` | crates/barme-store/src/chunk_store.rs:28-31 | a directory made on opening keeps it so exactly when it is given |
| `PutOrder.FailureKeepsFirmExactly` | crates/barme-store/src/lib.rs:200-217 | with none given, a failed write keeps it so exactly when it left nothing to see: no directory made, the target not yet replaced by other bytes |
| `PutOrder.FirmFilesSurvive` | crates/barme-store/src/lib.rs:8-10 | there, a file that exists survives with its bytes, its name and its directories |
| `Losses.OpenUngrounds` | crates/barme-store/src/chunk_store.rs:28-31 | a directory made on opening is not synced, and no acknowledgement below it survives |
| `Losses.FailureAfterMkdirUngrounds` | crates/barme-store/src/lib.rs:204-215 | a write that made its directory and failed at any later point leaves the target ungrounded, so later acknowledgements do not survive |
| `Losses.RemovedPointerDangles` | crates/barme-store/src/pointer_store.rs:107-113 | a pointer removed and its chunk erased: some power loss brings back the pointer alone |
| `Volumes.Volume.WriteAtomic` | crates/barme-store/src/lib.rs:200-217 | every state between its operations is one `OldOrNew` speaks of, whichever operation fails; with nothing failing or in the way it succeeds, and then the target has the new contents and survives exactly when it began grounded; however it ends, nothing else reads otherwise than before but directories that had to be made, and the temp file is gone |
| `Volumes.Volume.CreateDirAll` | crates/barme-store/src/lib.rs:205-205 | the missing directories are made from the top, each a step of the write |
| `Volumes.Volume.FillTemp` | crates/barme-store/src/lib.rs:206-208 | a temp file in the target's directory, written and synced, or dropped again |
| `Volumes.Volume.Replace` | crates/barme-store/src/lib.rs:209-216 | rename, then the directory synced, then its parent if it was new; the temp file is gone either way |
| `Volumes.Tree.SweepTemp` | crates/barme-store/src/lib.rs:238-263 | what is left is everything but the files with a temp name, at any depth, and the number returned is how many went |
| `Volumes.Tree.Walk` | crates/barme-store/src/lib.rs:239-259 | the same below one directory, in whatever order its entries come |
| `PointerText.SetAppendsExactly` | crates/barme-store/src/pointer_store.rs:28-34 | appending a line gives a file that reads as the versions before and the new one exactly when the file was UTF-8 and empty or ended its last line |
| `PointerText.HistoryOfJoined` | crates/barme-store/src/pointer_store.rs:51-61 | histories concatenate at line ends |
| `PointerText.CorruptLineIsSkippedExactly` | crates/barme-store/src/pointer_store.rs:41-61 | among text, a line that is no address takes no other version with it exactly when it is UTF-8; else nothing can be read |
| `PointerText.OneByteTakesThemAll` | crates/barme-store/src/pointer_store.rs:203-209 | two versions with the byte 0xff on a line between: both are listed, and neither reading nor appending works |
| `PointerText.DamagedByteReadsExactly` | crates/barme-store/src/pointer_store.rs:203-209 | a file as the store writes it, any one byte replaced, can be read exactly when the new byte is ASCII |
| `PointerText.Utf8Splits` | crates/barme-store/src/pointer_store.rs:203-209 | text is UTF-8 exactly when its lines are |
| `PointerText.Utf8Exactly` | crates/barme-store/src/pointer_store.rs:203-209 | a file can be read at all exactly when it is the UTF-8 forms of some characters, surrogates not among them, one after the other (section 3 of RFC 3629) |
| `PointerText.PrintReads` | crates/barme-core/src/hash.rs:43-70 | a printed address parses back to itself and holds no line break |
| `PointerText.ParseExactly` | crates/barme-core/src/hash.rs:56-70 | a line is read as an address exactly when it is `blake3:` and 64 hexadecimal digits of either case that spell its bytes, higher digit first |
| `PointerText.LineInText` | crates/barme-core/src/hash.rs:43-47 | the line the store writes is such a text of 71 characters, none upper-case, and a line feed |
| `PointerText.HistoryInLines` | crates/barme-store/src/pointer_store.rs:51-61 | a file is read line by line: a line feed ends a line, alone or after a carriage return, each line that spells an address adds it, any other nothing |
| `PointerText.ListingReads` | crates/barme-store/src/pointer_store.rs:162-167 | a rewritten file is UTF-8 and lists exactly the versions it was rewritten from |
| `Stores.ChunkStore.Put` | crates/barme-store/src/chunk_store.rs:59-66 | the address is the hash; an existing file is left alone; the bytes at the address are those given, unless two byte strings of one hash have come by |
| `Stores.ChunkStore.Get` | crates/barme-store/src/chunk_store.rs:70-83 | the file's bytes, nothing, or an error exactly when they do not hash to the address |
| `Stores.ChunkStore.Unpin` | crates/barme-store/src/chunk_store.rs:39-50 | the pin set loses exactly the hashes listed, however often each was pinned |
| `Stores.ChunkStore.All` | crates/barme-store/src/chunk_store.rs:101-126 | every stored chunk exactly once |
| `Stores.ChunkStore.SaveCondemned` | crates/barme-store/src/chunk_store.rs:177-179 | the stamps given are those loaded next |
| `Stores.ManifestStore.Put` | crates/barme-store/src/manifest_store.rs:26-36 | the id is the hash of the manifest without its id; no stored manifest changes; the one under the id is the one given with the id filled in, unless two JSON texts of one hash have come by |
| `Stores.ManifestStore.Get` | crates/barme-store/src/manifest_store.rs:38-62 | the manifest, nothing, an error when it is of a newer form than this build reads, or one when it does not hash to its id |
| `Stores.PointerStore.Set` | crates/barme-store/src/pointer_store.rs:28-34 | the key's history grows by the id exactly when its file was absent or ended its last line; a file that is not text, or a bad bucket name, is an error and changes nothing; no other key changes; the file is what it was with the line of the id at its end |
| `Stores.PointerStore.Remove` | crates/barme-store/src/pointer_store.rs:107-113 | the key's file goes, legible or not, and no other |
| `Stores.PointerStore.Trim` | crates/barme-store/src/pointer_store.rs:154-168 | the last `keep` versions stay, in order; all of them when `keep` is 0 or covers them; a file that is not text is an error |
| `Stores.PointerStore.Copy` | crates/barme-store/src/pointer_store.rs:144-150 | the source's last version is appended to the target; both files have to be text |
| `Stores.PointerStore.MoveKey` | crates/barme-store/src/pointer_store.rs:171-184 | the history replaces the target's, legible or not, exactly when the target is another key; moved onto itself it is lost; the source has to be text |
| `Stores.PointerStore.DeleteBucket` | crates/barme-store/src/pointer_store.rs:133-139 | every key of the bucket has no version, every other key's file is as it was; a bad bucket name is an error and changes nothing |
| `Stores.GoodBucketExactly` | crates/barme-store/src/pointer_store.rs:186-197 | a bucket may be named by any text but the empty one, `.` and `..` that has no slash and no backslash in it |
| `Stores.MovesExactly` | crates/barme-store/src/pointer_store.rs:144-184 | when a move and a copy go through, on their inputs, and which error stops them if not: the source's bucket, what cannot be read, the target's bucket |
| `Objects.GrownKeepsVersions` | crates/barme-engine/src/lib.rs:1378-1402 | storing more changes the bytes of no readable version |
| `Objects.ErasedKeepsVersions` | crates/barme-engine/src/lib.rs:1056-1065 | erasing chunks no listed manifest names changes the bytes of no version |
| `Objects.JoinedConcat` | crates/barme-engine/src/lib.rs:297-309 | pieces are joined in order |
| `Engines.Engine.StorePieces` | crates/barme-engine/src/lib.rs:359-372 | chunk addresses, sizes and digest of the pieces; fails exactly when what arrived is over the limit or the stream breaks, and then the pins taken come off |
| `Engines.Engine.Put` | crates/barme-engine/src/lib.rs:289-329 | the key's list of versions grows by the bytes written, no other key's changes; outcome, object id and pins released are exactly determined; the manifest stored under the id says, field by field, version 1, that id, the moment, the length and SHA-256 of the bytes, the content type, codec, fidelity and policy snapshot given, the addresses of the coded pieces in order, their length altogether, and the Merkle root over those addresses |
| `Engines.Engine.PutStream` | crates/barme-engine/src/lib.rs:340-394 | refused exactly when the stream breaks or exceeds the limit; else the key's list grows by the bytes under the id `Put` would give them at the same moment, and the manifest stored says what `Put`'s says |
| `Engines.CodedIsAddressed` | crates/barme-engine/src/lib.rs:297-309 | the addresses recorded are the hashes of the pieces as stored, each plain or compressed at the policy's level, in order, and the stored size is their length altogether |
| `Engines.WritesExactly` | crates/barme-engine/src/lib.rs:1541-1553 | when a write goes through: key not empty, twice the bytes of bucket and key and `_.json` at most 255, not locked, a codec this build has, a good bucket name; and which error it ends with, in that order, if not |
| `Engines.StreamEndsExactly` | crates/barme-engine/src/lib.rs:359-384 | a stream is too large exactly when some run of pieces from its start, come in before it broke, is over the limit, and else broken if it ever breaks |
| `Engines.AcceptedIsLongest` | crates/barme-engine/src/lib.rs:359-384 | what it has stored by then is the longest run from its start within the limit, come in before it broke |
| `Engines.SameIdExactly` | crates/barme-engine/src/lib.rs:336-339 | the same bytes under the same policy written at two moments get one id exactly when the moments are one or the two JSON texts collide |
| `Engines.Engine.StoreManifest` | crates/barme-engine/src/lib.rs:646-685 | the manifest under the returned id has every field spelled out: version, id, moment, size, digest, content type, codec, fidelity, policy snapshot, chunks, stored size and Merkle root, each of what was given for it; its chunks decode to the bytes, and no version changes |
| `Engines.Engine.SetPointer` | crates/barme-engine/src/lib.rs:685-691 | one more version for the key; all versions stay readable exactly when the new one is |
| `Engines.Engine.CreateMultipart` | crates/barme-engine/src/lib.rs:402-421 | a new upload id with no parts, or the refusal |
| `Engines.Engine.UploadPart` | crates/barme-engine/src/lib.rs:429-489 | the part stands for the bytes sent and replaces the one of its number, its pins pass to the upload; on failure nothing is staged and the pins come off; its chunks are the addresses of the coded pieces in order and its stored size their length |
| `Engines.Engine.CompleteMultipart` | crates/barme-engine/src/lib.rs:496-578 | the upload is gone and its pins are off however it ends; it fails exactly on the first part never uploaded or chunk gone, and else the key's new version is the parts named, in order, or all ascending if none is named; the manifest stored has the content type, codec, fidelity and policy given when the upload was created, the chunks of the parts in order, the sum of their stored sizes, and the length, digest and root of the whole |
| `Engines.CompletesExactly` | crates/barme-engine/src/lib.rs:496-578 | completing goes through exactly when every part used was uploaded, each of its chunks is still there, and the bucket's name is good |
| `Engines.TroubleIsFirst` | crates/barme-engine/src/lib.rs:522-541 | else it fails on the first part never uploaded or short of a chunk, by the first chunk it is short of |
| `Engines.PartsInOrder` | crates/barme-engine/src/lib.rs:522-541 | chunks, stored sizes and bytes of two runs of parts are those of the one and then the other |
| `Engines.PartAlone` | crates/barme-engine/src/lib.rs:522-541 | those of one part are its own |
| `Engines.Engine.GatherParts` | crates/barme-engine/src/lib.rs:522-541 | chunks, sizes and the one digest of the parts used, or the first trouble met |
| `Engines.PartsToUse` | crates/barme-engine/src/lib.rs:516-520 | the parts named, or every staged part ascending |
| `Engines.Engine.AbortMultipart` | crates/barme-engine/src/lib.rs:582-587 | the upload and its pins go, no version changes; an unknown upload changes nothing |
| `Engines.Engine.ReadObject` | crates/barme-engine/src/lib.rs:1378-1402 | the bytes the manifest stands for, or which manifest or first chunk is missing; a manifest of a newer form is refused; exact objects are only given out with the digest recorded |
| `Engines.Engine.ListedIsRead` | crates/barme-engine/src/lib.rs:719-721 | any version still listed reads back as its own bytes |
| `Engines.Engine.Get` | crates/barme-engine/src/lib.rs:694-699 | the last version committed, or nothing |
| `Engines.Engine.Delete` | crates/barme-engine/src/lib.rs:767-775 | the key has no versions, no other key changes; a locked one is refused |
| `Engines.Engine.RestoreVersion` | crates/barme-engine/src/lib.rs:1129-1138 | one more version with the old bytes; every version stays readable exactly when the restored manifest states what its chunks decode to and they are still there; a manifest of a newer form is refused |
| `Engines.Engine.ImportObject` | crates/barme-engine/src/lib.rs:1314-1341 | refused on the first chunk missing, a root or an id that does not fit; else one more version, and every version stays readable exactly when its chunks decode to the size and digest it states and this build reads its form, neither of which is checked |
| `Engines.ImportsExactly` | crates/barme-engine/src/lib.rs:1314-1341 | when an import goes through: not locked, every chunk there, no root or the fitting one, the id its JSON's hash, a good bucket name; and which error it ends with if not, a missing chunk being the first |
| `Engines.Engine.CopyObject` | crates/barme-engine/src/lib.rs:1019-1021 | the target's list grows by the source's last version |
| `Engines.Engine.MoveObject` | crates/barme-engine/src/lib.rs:1012-1014 | the source's list becomes the target's, unless they are one key |
| `Engines.Engine.GcSweep` | crates/barme-engine/src/lib.rs:1056-1065 | over readable versions a sweep with any clock and grace succeeds, erases and stamps exactly the pass's chunks, reports and adds up their numbers, and changes no version of any key |
| `Merkle.Root` | crates/barme-core/src/merkle.rs:57-66 | the level-by-level loop computes the top of the reduced levels; what that is in bytes, `Merkle.RootInBytes` says |
| `Merkle.RootIsTreeHead` | crates/barme-core/src/merkle.rs:41-66 | at every length that is the top-down tree that splits at the largest power of two below the length (section 2.1 of RFC 6962) |
| `Merkle.RootInBytes` | crates/barme-core/src/merkle.rs:21-66 | the root, byte for byte: the hash of 02 alone for no chunk, of 00 and the address for one, and else of 01, the root of the first k and the root of the rest, k the power of two below the length and at least half of it |
| `Merkle.SplitUnique` | crates/barme-core/src/merkle.rs:41-54 | that power of two is the only one |
| `Merkle.Prove` | crates/barme-core/src/merkle.rs:92-119 | a proof exactly for indices below the length, with the siblings level by level |
| `Merkle.ProofIsAuditPath` | crates/barme-core/src/merkle.rs:92-119 | those siblings are the audit path of the top-down tree |
| `Merkle.ProofsVerify` | crates/barme-core/src/merkle.rs:92-133 | every proof made verifies for its chunk, at any length, in at most ceil(log2 n) steps |
| `Merkle.Verify` | crates/barme-core/src/merkle.rs:124-133 | the fold of the steps from the leaf, compared with the root |
| `Merkle.VerifyInBytes` | crates/barme-core/src/merkle.rs:124-133 | a proof of no step is accepted for the hash of 00 and the chunk alone; one more step, for the hash of 01, the sibling and what was accepted so far, in the order of the side it names |
| `Merkle.ProofInRoots` | crates/barme-core/src/merkle.rs:92-119 | an honest proof is that of the chunk's half and then the root of the other half, on its side |
| `Merkle.AcceptedProofsAreHonest` | crates/barme-core/src/merkle.rs:124-133 | a proof is accepted exactly when its steps are the audit path of a position holding the chunk, or two explicit byte strings share a hash; nothing verifies against the empty list without one |
| `Merkle.RootBinds` | crates/barme-core/src/merkle.rs:21-66 | equal roots mean equal lists, of any lengths, or two explicit byte strings share a hash |
| `Sorting.SortSorts` | crates/barme-engine/src/lib.rs:855-855 | sorting gives a sorted list of the same elements |
| `Sorting.SortIgnoresOrder` | crates/barme-auth/src/sigv4.rs:270-270 | the sorted list does not depend on the order that came in |
| `Sorting.LessIsBefore` | crates/barme-engine/src/lib.rs:855-855 | one byte string sorts before another exactly when it is a proper prefix of it or has the smaller byte where they first differ |
| `Sorting.SortedAscends` | crates/barme-engine/src/lib.rs:855-855 | a sorted list ascends in that order |
| `Listing.FindIsFirst` | crates/barme-engine/src/lib.rs:869-869 | the search finds the first occurrence, or there is none |
| `Listing.GroupsContiguous` | crates/barme-engine/src/lib.rs:859-871 | in byte order the keys of one group are contiguous |
| `Listing.GroupsOrdered` | crates/barme-engine/src/lib.rs:859-871 | different groups are ordered as their keys are |
| `Listing.SelectPage` | crates/barme-engine/src/lib.rs:863-892 | the walk spends one unit an entry or new prefix and stops where the units run out |
| `Listing.ListObjects` | crates/barme-engine/src/lib.rs:839-914 | one page, described on the request alone: entries and common prefixes ascend in byte order, at most `max` of them; an entry is a key after the cursor with the prefix that holds no delimiter beyond it, with what its lookup found; a common prefix ends at the first delimiter of such a key; nothing up to the continuation is passed over but keys that are gone, the continuation is such a key, and more follow it; a missing manifest is an error |
| `Listing.PageIsPage` | crates/barme-engine/src/lib.rs:839-914 | the page the walk selects fits that description |
| `Listing.WholeIsPage` | crates/barme-engine/src/lib.rs:839-914 | and so does the one-shot listing |
| `Listing.CandidatesAreEverything` | crates/barme-engine/src/lib.rs:847-855 | taken at once, the keys give exactly the undelimited keys and the common prefixes, each once and in order |
| `Listing.EverythingUnique` | crates/barme-engine/src/lib.rs:839-914 | only one pair of lists is that listing |
| `Listing.ResumeAfter` | crates/barme-engine/src/lib.rs:894-898 | asking for what follows the last key of a page gives the rest of the keys |
| `Listing.PagesAddUp` | crates/barme-engine/src/lib.rs:839-914 | pages concatenate to the one-shot listing; every page but the last holds exactly `max` units |
| `Listing.PagesAreCeiling` | crates/barme-engine/src/lib.rs:876-881 | there are ceil(units / max) pages, and one for an empty listing |
| `Listing.FollowPages` | crates/barme-engine/src/lib.rs:839-914 | following the continuation from page to page ends and collects exactly the one-shot listing, ascending in byte order and complete by that description |
| `Gf256.ReedSolomonMultiply` | web/src/lib/qr.ts:71-78 | the shift-and-xor loop computes the field product |
| `Gf256.ProductIsRemainder` | web/src/lib/qr.ts:71-78 | that product is the carry-less product reduced by 0x11D |
| `Gf256.MulCommutes` | web/src/lib/qr.ts:71-78 | the product commutes |
| `Gf256.MulAssociates` | web/src/lib/qr.ts:71-78 | the product associates |
| `Gf256.MulDistributes` | web/src/lib/qr.ts:71-78 | the product distributes over exclusive or |
| `Gf256.MulUnits` | web/src/lib/qr.ts:71-78 | 1 is its unit and 0 annihilates |
| `ReedSolomon.ReedSolomonComputeDivisor` | web/src/lib/qr.ts:49-61 | the in-place loop builds the generator without its leading 1 |
| `ReedSolomon.GeneratorIsProduct` | web/src/lib/qr.ts:49-61 | the generator is the product of (x + 2^i) |
| `ReedSolomon.GeneratorVanishes` | web/src/lib/qr.ts:49-61 | it is zero at 2^0, ..., 2^(n-1) |
| `ReedSolomon.ReedSolomonComputeRemainder` | web/src/lib/qr.ts:62-70 | the loop computes the remainder of long division |
| `ReedSolomon.Division` | web/src/lib/qr.ts:62-70 | shifted data is factors times divisor plus that remainder, at every point |
| `ReedSolomon.CodewordVanishes` | web/src/lib/qr.ts:62-70 | data followed by its remainder vanishes wherever the divisor does |
| `ReedSolomon.CodewordHasRoots` | web/src/lib/qr.ts:49-78 | data followed by its remainder is zero at 2^0, ..., 2^(n-1), for every data and degree (section 7.5 of ISO/IEC 18004:2015) |
| `Interleave.AddEccAndInterleave` | web/src/lib/qr.ts:210-236 | cuts the data into blocks, appends each remainder and weaves the columns, passing over the pad slot; as many codewords as the version has |
| `Interleave.DataInText` | web/src/lib/qr.ts:210-236 | where each data codeword of each block stands in the stream and where it was in the data, as plain numbers |
| `Interleave.BlockInText` | web/src/lib/qr.ts:216-223 | which stretch of the data a block is |
| `Interleave.EccInText` | web/src/lib/qr.ts:224-235 | where each error-correction codeword stands, after all the data, and that with its own a block is zero at 2^0, ..., 2^(n-1) |
| `Interleave.WeaveRows` | web/src/lib/qr.ts:229-235 | the emission loop is that weave |
| `Interleave.Totals` | web/src/lib/qr.ts:211-217 | short and long blocks together take exactly the data, and the rows fill the total |
| `Interleave.BlocksComeBack` | web/src/lib/qr.ts:210-236 | reading the columns back gives every data block and its error correction whole (section 7.6 of ISO/IEC 18004:2015) |
| `Interleave.InterleaveRoundTrip` | web/src/lib/qr.ts:210-236 | de-interleaving returns the data |
| `Interleave.BlocksAreCodewords` | web/src/lib/qr.ts:210-236 | every block read back is a Reed-Solomon codeword |
| `Segment.EncodeByteSegment` | web/src/lib/qr.ts:353-373 | exactly the version's data codewords, carrying mode, count, bytes, terminator and alternating pads; the padding ends |
| `Segment.CodewordsInBytes` | web/src/lib/qr.ts:353-373 | the data codewords as numbers: 4 in the high half of the first, then count and bytes shifted by half a codeword, then 236 and 17 in turn |
| `Segment.PadToCapacity` | web/src/lib/qr.ts:365-368 | the pad loop ends exactly at the capacity with alternating 0xEC and 0x11 |
| `Segment.Pack` | web/src/lib/qr.ts:370-371 | eight bits to a codeword, most significant first |
| `Segment.SegmentReads` | web/src/lib/qr.ts:353-373 | a reader gets as many bytes back as the count field can express |
| `Segment.SegmentRoundTrip` | web/src/lib/qr.ts:353-373 | exactly the inputs whose length fits the count field come back whole, and that is all that fit a tabulated version (section 7.4 of ISO/IEC 18004:2015) |
| `QrGrid.QrCode.DrawCodewords` | web/src/lib/qr.ts:238-254 | the zigzag loop places the bits along the walk `QrSymbol.PathRuns` spells out, skipping reserved modules |
| `QrSymbol.PathRuns` | web/src/lib/qr.ts:240-253 | the walk in coordinates, for the sizes there are: column pairs from the right edge, the timing column passed over, the first pair upward and then in turn, right module before left |
| `QrSymbol.FreeByTurn` | web/src/lib/qr.ts:238-254 | a free module is the k-th of the walk, k being the number of free modules that come before it by those coordinates |
| `QrGrid.ZigzagIsComplete` | web/src/lib/qr.ts:240-253 | the walk visits no module twice and all but those of column 6 |
| `QrGrid.WalkPlaces` | web/src/lib/qr.ts:238-254 | bit k lands on the k-th unreserved module of a walk, and nothing else is touched |
| `QrGrid.QrCode.ApplyMask` | web/src/lib/qr.ts:256-274 | exactly the unreserved modules the mask names are flipped |
| `QrSymbol.MaskFlips` | web/src/lib/qr.ts:256-274 | which modules each of the eight masks flips, by column and row |
| `QrGrid.MaskTwice` | web/src/lib/qr.ts:108-116 | trying a mask and undoing it restores every module |
| `QrGrid.MaskKeepsReserved` | web/src/lib/qr.ts:256-274 | a mask touches no reserved module |
| `QrGrid.QrCode.DrawFormatBits` | web/src/lib/qr.ts:149-164 | both copies of the format word, and the dark module, are written and reserved, nothing else |
| `QrGrid.QrCode.FormatBitsOf` | web/src/lib/qr.ts:150-153 | the loop computes the fifteen format bits |
| `QrGrid.FormatWordIsCodeword` | web/src/lib/qr.ts:150-153 | before the final exclusive or they are a multiple of 0x537 that carries level and mask |
| `QrGrid.FormatReadsBack` | web/src/lib/qr.ts:149-164 | either copy of the format word in the finished symbol gives back the level and the mask |
| `QrGrid.Overwritten` | web/src/lib/qr.ts:108-118 | a later drawing of the format bits leaves nothing of an earlier one |
| `QrGrid.QrCode.Finish` | web/src/lib/qr.ts:98-120 | after the search the grid is the drawn one under one mask, the one asked for, or that of the eight whose symbol has the least penalty, the first of several, whatever the penalty |
| `QrGrid.SymbolShowsData` | web/src/lib/qr.ts:98-120 | for any reserved modules that include the format cells, the k-th free module in zigzag order shows codeword bit k xor the mask, and no module is on the walk twice (sections 7.7 and 7.8 of ISO/IEC 18004:2015) |
| `QrSymbol.ModuleTellsBit` | web/src/lib/qr.ts:98-120 | the finished symbol, module by module: the k-th free one, counted by coordinates, is dark exactly when bit 7 - k % 8 of codeword k / 8 is set or else the mask flips it |
| `QrSymbol.FormatModules` | web/src/lib/qr.ts:149-164 | in it the fifteen format bits stand at their cells, twice, the word they spell carries level and mask as a multiple of 0x537 under 0x5412, and the module at column 8, row size - 8 is dark |
| `Scanning.ScanGivesText` | web/src/lib/qr.ts:376-393 | reading the mask off either copy of the format word and the free modules of the finished symbol, unmasking, taking the blocks apart and decoding gives the text encoded |
| `SigV4.UriEncode` | crates/barme-auth/src/sigv4.rs:282-294 | the loop escapes byte by byte; what becomes of each, `SigV4.EscapeInText` says |
| `SigV4.EscapeInText` | crates/barme-auth/src/sigv4.rs:282-294 | letters, digits, `-`, `_`, `.`, `~` and, unless it is to be escaped, `/` stand for themselves; any other byte becomes `%` and its two upper-case hexadecimal digits (section 2.1 of RFC 3986) |
| `SigV4.EncodeConcat` | crates/barme-auth/src/sigv4.rs:282-294 | encoding goes byte by byte |
| `SigV4.PercentDecode` | crates/barme-auth/src/sigv4.rs:296-318 | the loop reads escapes, keeps what is none, and stops where a slice would cut a character |
| `SigV4.EscapeIsRead` | crates/barme-auth/src/sigv4.rs:296-318 | `%` and two digits of either case are read as that byte, `%`, a plus sign and a digit as that digit |
| `SigV4.LonePercentIsRead` | crates/barme-auth/src/sigv4.rs:308-309 | a `%` before anything else is read as itself |
| `SigV4.OtherIsRead` | crates/barme-auth/src/sigv4.rs:311-314 | and so is any other byte |
| `SigV4.DecodeEncode` | crates/barme-auth/src/sigv4.rs:282-318 | decoding undoes encoding for every byte string, and encoded text is ASCII |
| `SigV4.AsciiDecodes` | crates/barme-auth/src/sigv4.rs:296-318 | on ASCII text the decoder never stops |
| `SigV4.DecodeAbortsExactly` | crates/barme-auth/src/sigv4.rs:296-318 | the decoder stops the program exactly when some `%` has a byte of the inside of a character three places on |
| `SigV4.CanonicalAbortsExactly` | crates/barme-auth/src/sigv4.rs:260-280 | a canonical query stops it exactly when some name or value in the raw query has such a `%` |
| `SigV4.AbortHappens` | crates/barme-auth/src/sigv4.rs:301-306 | such a text |
| `SigV4.CanonicalDecides` | crates/barme-auth/src/sigv4.rs:260-280 | two queries have one canonical form exactly when they decode to the same multiset of pairs |
| `SigV4.PairsByAmpersand` | crates/barme-auth/src/sigv4.rs:260-280 | a query is its components divided by `&`, the empty ones left out |
| `SigV4.ComponentIsRead` | crates/barme-auth/src/sigv4.rs:260-280 | a component is a name and a value divided by its first `=`, or a name with an empty value |
| `SigV4.CanonicalInText` | crates/barme-auth/src/sigv4.rs:260-280 | the canonical query as text: the encoded pairs, ascending in byte order by name and then value, each as name, `=` and value, with `&` between them |
| `SigV4.CanonicalIsEscaped` | crates/barme-auth/src/sigv4.rs:260-280 | every byte of it is unreserved, `&`, `=` or part of an upper-case escape |
| `SigV4.OrderDoesNotMatter` | crates/barme-auth/src/sigv4.rs:260-280 | swapping two halves of a query does not change its canonical form, nor whether it has one |
| `SigV4.CanonicalIsIdempotent` | crates/barme-auth/src/sigv4.rs:260-280 | a canonical query is its own canonical form |

## Left out

* HTTP doors, routing, XML and JSON rendering, CORS, TLS, configuration, metrics, webhooks, semantic search: plumbing.
* The insides of FastCDC, zstd, blake3, SHA-256, HMAC, AES-GCM and serde: parameters with only their contract (pieces join, decode inverts encode, JSON tells manifests apart, 32-byte digests).
* Credentials, authorisation, presign expiry, object locks and annotations: a lock is a parameter of the calls it refuses.
* In `Protocol` one collector runs at a time, a pointer file is rewritten in one step, and the walk keeps no record of the ids it has seen (in a sound state none is missing when first seen); a bucket rename, which changes no history, is not a step, and a bucket goes key by key.
* `Locks` does not model a lock-free move, copy, lifecycle trim or forced bucket delete racing a commit, which may lose versions; in `Protocol`, which follows chunks, their steps fall anywhere.
* `Engines` starts from pointer files as the store wrote them; what a damaged one does is in `PointerText`, `Stores` and `Collector`.
* `Engines` takes one call at a time (interleavings are in `Protocol` and `Locks`) and numbers uploads instead of hashing a time and a counter.
* The data root is taken for durable: losing it loses everything with it, and leaves nothing dangling.
* `Recovery` has one writer at a time; a temp name is any unused one, and an entry not yet synced may come back with any value it has had.
* Manifest fields nothing modelled reads (route, tenant, quality metric).
* Bit rot, but for what it makes of pointer files, of the condemned file and of files that no longer hash to their address.
* The UTF-8 repair after percent-decoding is a parameter; keys and queries are byte strings.
* The listing is of keys that do not change while it is followed, but for keys that vanish before their manifest is read.
* QR version tables, function patterns, version bits and the penalty score: the reserved modules, block layout, capacity and penalty are arguments.
* The reverse index, diffs, deltas, range reads, statistics and bucket configuration: easy members.
* File modes, disk-full behaviour other than a failing operation, and Windows, where syncing a directory does nothing.
