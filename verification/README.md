# Engram kernel: a verified model

A Dafny 4.11 model of the parts of Engram that have to be right for a session to survive: the
durable checkpoint protocol of the kernel object, its staged file system, the SDK's socket
transport and the kernel's reply table, the socket shim's command loop, the REPL source rewriter,
the supervisor's idle sweep, and the base64 and SHA-256 the kernel carries. `dafny verify
dfyconfig.toml` checks all of it.

How the modules hang together:

- `W4Delta`, `SqlTable`, `Checkpoint`, `CheckpointSafety`, `CheckpointDurability`,
  `CheckpointFlush`, `CheckpointWake`, `CheckpointNumbers`, `CheckpointRemote`, `KernelObject`: heap
  images and their deltas, the tables, the protocol as steps between awaits with a crash or an evict
  allowed at each, its invariant over all runs, what committed means to a user, what a whole
  checkpoint, flush, wake and reset do, which numbers cells get, the same protocol when bucket
  requests land late, and the object whose methods are proved to be those steps.
- `StagedFs`, `FsObject`, `Paths`, `VfsTransfer`, `Base64`: the overlay computed three ways and the
  flush, the path resolver written twice, chunked upload and download, and the wire encoding.
- `EvalReplies`, `EvalBacking`, `WsTransport`: at-most-once evaluation, what stored answers claim
  against what the checkpoint protocol committed, and which reply settles which promise.
- `NetChain`, `NetSocket`, `NetSafety`, `NetHandles`, `NetRuns`, `NetSlots`, `NetResults`,
  `NetDrops`, `NetObject`: the promise chain of host calls, the socket shim as a machine of handlers,
  host calls and reactions, its invariants, which closes drop writes, and the object.
- `ReplTokens`, `ReplLexemes`, `ReplScan`, `ReplCompletion`, `ReplReading`, `ReplLoops`, `ReplEdits`, `ReplPlan`,
  `ReplPlanLoops`, `ReplCells`, `ReplSamples`: the scanners on remaining text and on a cursor, the
  two rewrites, and what they do told without a scanner, with cells written out.
- `Supervisor`, `Sha256`, `Prelude`.

A loop of the source is a loop here, proved against a function; what is proved about the function
are lemmas, and these say it in other terms than the function does: over whole runs, bit by bit, or on
texts written out. State machines take any sequence of events; an event that does not apply changes
nothing, so a statement about every sequence is a statement about every run.

Where the code does not keep a promise, the model follows the code, and a lemma gives the exact
condition or a run that shows it:

- a flush protects a path by the origin of its row, not by whether that path raced
  (`StagedFs.UnrelatedFrameDropsWrite`), and an acknowledged frame write loses to an eval that
  starts after it in a dirty session unless another frame follows, and to a reconcile
  (`StagedFs.FrameWriteSurvivesInHistory`, `StagedFs.WhoWinsTheFlush`);
- a delete whose object removal failed leaves the file readable (`StagedFs.FlushKeepsReads`,
  `StagedFs.FailedDeleteIsReadable`);
- a PUT answered with an error that lands later overwrites what was committed under its key since
  (`CheckpointRemote.CommittedObjectSurvivesIff`, `CheckpointRemote.ReusedKeyLosesTheCommit`);
- a frame write that cannot read the old body replaces it (`VfsTransfer.UnreadableBodyIsLost`), and
  a truncating upload at an offset puts its first frame at 0 (`VfsTransfer.UploadIsExactIff`),
  and whether an empty file can be read is R2's choice (`VfsTransfer.StreamReadFile`);
- the client retries ids the kernel ignores (`EvalReplies.RetriedButIgnored`), and a replayed
  reservation can claim a checkpoint that never happened (`EvalBacking.UnbackedClaimIff`);
- replacing a half-closed socket crosses replies (`WsTransport.ReplacingCrossesReplies`), and the
  keepalive refresh does not cover pings (`WsTransport.KeepRunsAreSafeIff`);
- connecting a destroyed socket again leaks a slot (`NetResults.ReuseLeaksASlot`); end without data
  on a socket that is neither connecting nor running its loop, and a remote end, drop whatever
  writes are queued, early ones included (`NetDrops.CloseDropsIff`); and a throwing listener loses a
  handle (`NetResults.ThrowLosesHandle`);
- a cell number is given again after an eager checkpoint fails (`CheckpointNumbers.StepKeepsNumbersIff`,
  `CheckpointNumbers.FailedNumberIsReused`);
- a cell is not left alone for an async function in it (`ReplCells.NeverGivesUpAtAsync`), and
  two adjacent classes in a cell are rewritten into broken text (`ReplPlan.TwoClassesGoWrong`);
- the sweep decides by rows it read before its awaits (`Supervisor.UsedDuringSweepIsEvicted`);
- the resolved form of a path under a second "/workspace" is not a fixed point
  (`Paths.StoredFormIsFixedIff`).

Comments in the source promise otherwise for several of these; the code was followed. The dump's
ceilings of 50 and 60 MB and its no-retain path above 63 MB never decide anything, since dumps of
55 MB or more are refused before (`CheckpointFlush.CheckpointBegins`).

## Model

| member | source | states |
|---|---|---|
| W4Delta.DiffGrains | apps/kernel/src/kernel-glue.ts:2699-2714 | the dump's page-grain diff returns exactly the ascending grains that reach past the base or differ from it |
| W4Delta.CopyGrains | apps/kernel/src/kernel-glue.ts:2724-2730 | the payload holds each changed grain in order, the last one zero-filled |
| W4Delta.CarriedIff | apps/kernel/src/kernel-glue.ts:2699-2714 | a delta carries a grain exactly when some byte of it is new or has changed |
| W4Delta.CarriedByte | apps/kernel/src/kernel-glue.ts:2724-2730 | byte by byte, what the payload holds of a carried grain |
| W4Delta.ApplyInPlace | apps/kernel/src/kernel-glue.ts:1449-1458 | applying one delta to the growing image in place is the sequential blit of its grains |
| W4Delta.RebuildImage | apps/kernel/src/kernel-glue.ts:1431-1458 | the restore loop sizes the image over the whole chain and rebuilds exactly the reconstruction |
| W4Delta.AppendRebuilds | apps/kernel/src/kernel-glue.ts:2698-2743 | chain theorem: if the stored chain rebuilds prev, appending the delta from prev to raw makes it rebuild raw, byte for byte and at raw's length |
| W4Delta.DeltaExtent | apps/kernel/src/kernel-glue.ts:1431-1448 | a delta reaches exactly to the end of a grown image, so the chain sizes itself |
| W4Delta.IndicesRoundTrip | apps/kernel/src/kernel-glue.ts:2731-2733 | the index blob decodes to the grain numbers that were encoded |
| SqlTable.InsertAppends | apps/kernel/src/lib.rs:3392-3453 | inserting at the next sequence number keeps the table dense and appends its row in ORDER BY order |
| Checkpoint.ChunksRejoin | apps/kernel/src/lib.rs:3525-3537 | the 64 KB chunk rows of a base rejoin to the base |
| CheckpointSafety.PutKeyIsFresh | apps/kernel/src/lib.rs:2264-2266 | the key of a full checkpoint's PUT is never the committed object's key |
| CheckpointSafety.DumpIsSound | apps/kernel/src/kernel-glue.ts:2654-2764 | a dump that passes the ceilings is a full image or a delta that applies to the committed image; it stages the image as the next base |
| CheckpointSafety.TransactionStores | apps/kernel/src/lib.rs:3392-3571 | each commit transaction, delta or full, leaves tables that rebuild exactly the dumped image, keep row numbers dense and oplog cells ascending |
| CheckpointSafety.ColdWakeIsExact | apps/kernel/src/lib.rs:3160-3294 | a byte restore yields the committed image and sets the live base to it |
| CheckpointSafety.EnsureGlueKeepsInv | apps/kernel/src/lib.rs:3160-3294 | whichever way a wake goes, the invariant survives it |
| CheckpointSafety.RemoteStepKeepsInv | apps/kernel/src/lib.rs:3476-3597 | bucket requests that take effect, or are lost, while their phase waits for them keep the invariant |
| CheckpointSafety.StepKeepsInv | apps/kernel/src/lib.rs:3315-3597 | every step between two awaits, crash and evict included, keeps the invariant: stored base plus deltas rebuild the manifest's image with its size and checksum, 0 <= delta_seq <= 19, oplog rows 0..delta_seq end at manifest.cell == committedCell, a live base equals the committed image |
| CheckpointSafety.RunKeepsInv | apps/kernel/src/lib.rs:3315-3597 | so does every run |
| CheckpointSafety.ReachableIsSafe | apps/kernel/src/lib.rs:3315-3597 | every state reachable from an empty session satisfies it |
| CheckpointSafety.CommittedObjectSurvives | apps/kernel/src/lib.rs:3476-3587 | no step of that machine, in which a request takes effect while it is waited for or never, removes or changes the object the committed manifest names while that manifest stays committed |
| CheckpointRemote.CleanRunsAreSound | apps/kernel/src/lib.rs:3480-3587 | PUTs and DELETEs that stay in flight across error replies, crashes and resets and land at any later time keep the invariant, in every run in which none of them lands on a guarded key with another body |
| CheckpointRemote.CleanRunsExtend | apps/kernel/src/lib.rs:3160-3294 | over such runs whose wakes restore bytes, without a reset, the committed history only grows by extension, and a byte restore brings all of it back |
| CheckpointRemote.ReachableIsSound | apps/kernel/src/lib.rs:1056-1058 | so every state reachable from an empty session is sound unless two PUTs of the session carried one key |
| CheckpointRemote.KeysDifferIff | apps/kernel/src/lib.rs:1056-1058 | two PUTs of a session carry one key if and only if one goes out under a key that an earlier checkpoint abandoned after its PUT |
| CheckpointRemote.AbandonedBy | apps/kernel/src/lib.rs:3489-3518 | a key is abandoned only by an error answer to its PUT or by a crash between the PUT and the transaction |
| CheckpointRemote.UnabandonedIsSound | apps/kernel/src/lib.rs:3480-3571 | so a run that abandons no PUT is sound, however late its requests land |
| CheckpointRemote.UploadSurvivesIff | apps/kernel/src/lib.rs:3489-3518 | an uploaded object that is not committed yet keeps its body until the transaction, whatever happens meanwhile, if and only if no PUT in flight carries its key with another body |
| CheckpointRemote.CommittedObjectSurvivesIff | apps/kernel/src/lib.rs:3480-3587 | the committed object survives every continuation that keeps naming it if and only if no PUT in flight carries its key with another body |
| CheckpointRemote.ReusedKeyLosesTheCommit | apps/kernel/src/lib.rs:3489-3518 | a run in which a PUT answered with an error is retried under the same key, the retry is committed and acknowledged, and the first PUT lands after all: the session can no longer be restored |
| CheckpointDurability.CommitExtends | apps/kernel/src/lib.rs:3392-3571 | a commit only extends the committed history, by cells numbered above the committed one |
| CheckpointDurability.RunExtends | apps/kernel/src/lib.rs:3277-3287 | over every run without a reset whose wakes restore bytes, the committed history only grows by extension |
| CheckpointDurability.ReachableMeaning | apps/kernel/src/lib.rs:3126-3294 | in every state reachable by wakes that restore bytes, resets included, the live heap holds the committed history and then only cells numbered above the committed one |
| CheckpointDurability.AcknowledgedIsCommitted | apps/kernel/src/lib.rs:2964-2995 | an acknowledged eager checkpoint has committed the acknowledged cell as the last of the history |
| CheckpointDurability.AcknowledgedSurvives | apps/kernel/src/lib.rs:2964-2995 | an acknowledged cell is in every heap any later byte restore produces |
| CheckpointDurability.CrashLosesASuffix | apps/kernel/src/lib.rs:1066-1153 | a crash loses a suffix of the live history, all of it numbered above committedCell |
| CheckpointFlush.CheckpointBegins | apps/kernel/src/lib.rs:3315-3392 | the first stretch of a checkpoint stores nothing; it dumps exactly when the used heap is under 24 MB and the buffer under 55 MB, as a delta exactly when not forced, fewer than 19 deltas are stored, a base is kept, under half of the image changed and both blobs fit a row, and it uploads exactly a base that compresses to more than 8 MB |
| CheckpointFlush.AnswersStore | apps/kernel/src/lib.rs:3392-3597 | once its waits are answered, the tables rebuild its image, one more log row holds its cell and source, the tier is R2 exactly for a large base whose read-back was answered, the session is clean, the next delta has its base, and the bucket has lost exactly the object that was replaced |
| CheckpointFlush.FlushStoresTheHeap | apps/kernel/src/lib.rs:1099-1153 | from every reachable state with deferred cells in a live heap, a flush under the ceilings whose requests are answered ends idle and clean with committedCell at the old live cell, the history equal to what the heap denoted, and one log row with the last deferred source; over the ceilings nothing changes and the session stays dirty |
| CheckpointFlush.EvalStoresItsCell | apps/kernel/src/lib.rs:2964-3000 | an eval that is not deferred, likewise: its own cell ends the committed history and the log; over the ceilings the cell stays in the heap alone |
| CheckpointFlush.DeferredCellIsFlushed | apps/kernel/src/lib.rs:1066-1153 | a deferred eval and a later flush commit the cell and everything deferred before it |
| CheckpointFlush.CleanMeansCommitted | apps/kernel/src/lib.rs:1060-1153 | while the heap lives, a step other than a reset that takes the dirty mark off leaves a committed history equal to what the heap holds |
| CheckpointWake.WakeOutcome | apps/kernel/src/lib.rs:3160-3294 | in every reachable state, whatever the environment answers: a wake restores the committed image exactly when the object can be read, the build is the one that wrote it and the probe passes; otherwise it takes what the fresh start or the replay gives, and keeps the committed image as its base only after a failed probe |
| CheckpointWake.WakeCleans | apps/kernel/src/lib.rs:3277-3287 | a wake that succeeds leaves a live and clean session and nothing stored changed |
| CheckpointWake.FlushWithoutHeap | apps/kernel/src/lib.rs:1116-1131 | a flush without a live heap gives the deferred cells up and keeps what is committed |
| CheckpointWake.BaseIsChecked | apps/kernel/src/kernel-glue.ts:1406-1510 | in any state, reachable or not, an image taken from the bytes has the recorded row counts, length and checksum, passed admission and was written by this build |
| CheckpointWake.MissingRowsFail | apps/kernel/src/lib.rs:3747-3776 | missing chunk or delta rows fail the frame, while an object that cannot be read, or an image that fails its checks, falls back to the replay |
| CheckpointWake.ResetForgets | apps/kernel/src/lib.rs:3126-3156 | a reset clears every table and counter, passes to the next epoch and removes the committed object if the bucket lets it |
| CheckpointNumbers.StepKeepsNumbersIff | apps/kernel/src/lib.rs:1048-1058 | cell numbers ascend through heap and history, below the next one planned; a step breaks that exactly when it is an eager checkpoint that the ceilings or the bucket refuse while the heap lives |
| CheckpointNumbers.ReachableIsNumbered | apps/kernel/src/lib.rs:1048-1058 | so they ascend in every state reached without such a failure |
| CheckpointNumbers.FailedNumberIsReused | apps/kernel/src/lib.rs:2964-2995 | after it, the next cell gets the number of the failed one, which is still in the heap, or a lower one |
| KernelObject.DumpImage | apps/kernel/src/kernel-glue.ts:2654-2752 | dumpW4's branches, thresholds and diff give the dump of the specification |
| KernelObject.DecodeChain | apps/kernel/src/kernel-glue.ts:1427-1443 | decoding the delta rows stops at the first that cannot be decoded |
| KernelObject.RestoreImage | apps/kernel/src/kernel-glue.ts:1406-1510 | restoreW4 returns the rebuilt image, and only when it decodes, is long enough, has the recorded checksum and passes admission |
| KernelObject.KernelDO.LoadChunks | apps/kernel/src/lib.rs:3747-3776 | reads the chunk rows or fails when their number differs |
| KernelObject.KernelDO.WakeGlue | apps/kernel/src/lib.rs:3160-3294 | ensure_glue is the wake step: R2, migration, restore, replay and fresh branches |
| KernelObject.KernelDO.PlanEval | apps/kernel/src/lib.rs:2731-2790 | the start of an eval |
| KernelObject.KernelDO.AfterEval | apps/kernel/src/lib.rs:2964-3000 | what follows the engine: mark dirty or start the eager checkpoint |
| KernelObject.KernelDO.Flush | apps/kernel/src/lib.rs:1099-1153 | flush_critical on a dirty or clean session |
| KernelObject.KernelDO.StartCheckpoint | apps/kernel/src/lib.rs:3315-3392 | choice of delta or full base, the ceilings, and the tier |
| KernelObject.KernelDO.AfterPut | apps/kernel/src/lib.rs:3489-3500 | the reply to the PUT |
| KernelObject.KernelDO.AfterVerify | apps/kernel/src/lib.rs:3500-3518 | the read-back of the object and the fallback to SQLite chunks |
| KernelObject.KernelDO.Commit | apps/kernel/src/lib.rs:3392-3571 | both transactions |
| KernelObject.KernelDO.WriteChunks | apps/kernel/src/lib.rs:3525-3537 | the chunk loop writes the base in rows of 64 KB |
| KernelObject.KernelDO.AfterExport | apps/kernel/src/lib.rs:3577-3587 | promotion of the staged base and the delete of the replaced object |
| KernelObject.KernelDO.Reset | apps/kernel/src/lib.rs:3126-3156 | reset up to its R2 delete |
| KernelObject.KernelDO.AfterResetDelete | apps/kernel/src/lib.rs:3144-3156 | and after it |
| StagedFs.LastOpsAreTheView | apps/kernel/src/lib.rs:1262-1265 | the flush's last operation per path is what staged_view finds by scanning backwards |
| StagedFs.EffectiveIsTheView | apps/kernel/src/lib.rs:4807-4818 | the listing's forward pass holds a path exactly when staged_view, else the committed rows, say it exists |
| StagedFs.StageWriteView | apps/kernel/src/lib.rs:4736-4773 | a staged write replaces or extends one path and leaves the view of every other |
| StagedFs.ChunkedWriteIsSeen | apps/kernel/src/lib.rs:4743-4766 | the chunks of a write assemble to the whole body, for any staged history before it |
| StagedFs.FlushAt | apps/kernel/src/lib.rs:1262-1321 | what a flush, in any path order, does at each path |
| StagedFs.FlushKeepsReads | apps/kernel/src/lib.rs:1262-1321 | unraced and with the PUT accepted, a path reads after the flush as the cell read it before, except exactly where a delete's object removal failed |
| StagedFs.FlushKeepsNames | apps/kernel/src/lib.rs:1294-1315 | under the same conditions the committed names are exactly those the cell listed |
| StagedFs.WriteLandsUnlessProtected | apps/kernel/src/lib.rs:1277-1307 | a staged write with an accepted PUT lands if and only if its path is not protected by the race rule |
| StagedFs.RefusedWriteIsLost | apps/kernel/src/lib.rs:1262-1307 | without a bucket, or when its PUT is refused, what was staged at a path is lost and the path is as before the cell |
| StagedFs.FlushDrains | apps/kernel/src/lib.rs:1240-1321 | a flush always empties the buffer, and counts as a change exactly when it had something to write to a bucket |
| StagedFs.ReadAgainstNames | apps/kernel/src/lib.rs:4612-4735 | a listed path reads, or is torn exactly when its row has no body; a path that is not listed reads only as a bare object |
| StagedFs.ReconcileLists | apps/kernel/src/lib.rs:2187-2260 | after a listing the rows are exactly those of the listed paths, with their sizes and old cells and no frame origin; stale rows are gone, and the version moves when there was anything to list or drop |
| StagedFs.FailedDeleteIsReadable | apps/kernel/src/lib.rs:1309-1315 | a reachable state in which the cell sees a file gone and the next one reads it |
| StagedFs.FrameWriteSurvivesIff | apps/kernel/src/lib.rs:1277-1293 | in any state, the frame-written row and body at a staged path survive a flush if and only if the version passed the eval's mark and the row still is a frame's |
| StagedFs.FrameWriteSurvivesInHistory | apps/kernel/src/lib.rs:1277-1293 | over any history of frames, evals, cell operations and reconciles: they survive if and only if no reconcile has listed the store since that frame and some frame, to whatever path, wrote after the latest eval began |
| StagedFs.WhoWinsTheFlush | apps/kernel/src/lib.rs:2187-2260 | a later eval loses the write, an unrelated frame after that eval saves it, and a reconcile loses it although the eval began before it |
| StagedFs.ThreeFlushes | apps/kernel/src/lib.rs:1240-1321 | all three happen, from no files and one staged path |
| StagedFs.UnrelatedFrameDropsWrite | apps/kernel/src/lib.rs:1280-1291 | a reachable flush that drops a write because another path was uploaded |
| FsObject.FirstSegmentSpec | apps/kernel/src/lib.rs:4822-4826 | the first segment behind a prefix, characterised |
| FsObject.FsSession.StagedView | apps/kernel/src/lib.rs:4593-4605 | the backward loop computes the view |
| FsObject.FsSession.Write | apps/kernel/src/lib.rs:4736-4773 | the in-place search for the last staged write of the path |
| FsObject.FsSession.EffectivePaths | apps/kernel/src/lib.rs:4807-4818 | the forward insert and remove loop |
| FsObject.FsSession.List | apps/kernel/src/lib.rs:4798-4831 | the names returned are exactly the direct children, without repetition |
| FsObject.FsSession.FlushStaged | apps/kernel/src/lib.rs:1240-1322 | the flush loop over the last operations in path order |
| FsObject.FsSession.FrameWriteBody | apps/kernel/src/lib.rs:1451-1490 | a frame write: body, then row, then version |
| Paths.ResolversAgree | apps/kernel/src/lib.rs:4492-4548 | for all paths and directories the one-pass Rust fold succeeds with "/" + r exactly when the two-pass TypeScript resolve returns r, and refuses alike |
| Paths.ResolvedIsClean | packages/engram-fs/src/keys.ts:67-94 | a resolved path has no empty, "." or ".." segment, no leading slash and no NUL |
| Paths.ResolveIsIdempotent | packages/engram-fs/src/keys.ts:67-94 | resolving a resolved path returns it |
| Paths.StoredFormIsFixedIff | packages/engram-fs/src/keys.ts:67-94 | the stored absolute form resolves to itself exactly when the resolved path does not itself begin with the root |
| Paths.NestedWorkspaceMoves | packages/engram-fs/src/keys.ts:67-94 | the stored form of "/workspace/workspace/x" resolves to another file |
| Paths.KeysAgree | apps/kernel/src/lib.rs:2208-2232 | stripping a live key's prefix and normalising gives back the row's path |
| Paths.KeysIsolate | packages/engram-fs/src/keys.ts:129-145 | two paths share a key if and only if they are the same resolved path of the same session |
| Paths.ChdirComposes | packages/engram-fs/src/keys.ts:117-122 | changing directory and then resolving is resolving the joined path |
| Paths.FoldResult | packages/engram-fs/src/keys.ts:39-65 | the fold leaves clean segments behind its floor |
| Paths.FoldRefusesIff | packages/engram-fs/src/keys.ts:39-65 | a path is refused exactly when, on its way, it has gone up more often than down from the root; otherwise it has as many segments as it went down |
| Paths.DotDotCancels | packages/engram-fs/src/keys.ts:39-65 | a name and the ".." behind it cancel, wherever they stand |
| Paths.DotIsDropped | packages/engram-fs/src/keys.ts:39-65 | empty segments and "." do not matter, wherever they stand |
| Paths.NormalizeSegments | packages/engram-fs/src/keys.ts:39-65 | the push and pop loop computes the fold |
| Paths.ResolvePath | packages/engram-fs/src/keys.ts:67-94 | resolve |
| Base64.EncodeBytes | apps/kernel/src/lib.rs:4425-4447 | the group loop computes the encoding, 4 * ceil(n / 3) symbols long |
| Base64.DecodeBytes | apps/kernel/src/lib.rs:4450-4477 | the accumulator loop computes the decoder |
| Base64.SymbolIsListed | apps/kernel/src/lib.rs:4422-4422 | the symbol of each value is the one in table 1 of section 4 of RFC 4648 |
| Base64.SkippedAre | apps/kernel/src/lib.rs:4455-4458 | what is passed over is the padding and the five white-space bytes of ASCII, none of them a symbol |
| Base64.AccumulatorRefinesBits | apps/kernel/src/lib.rs:4450-4477 | the wrapping 32-bit accumulator decodes as the pending-bits definition does |
| Base64.RoundTrip | apps/kernel/src/lib.rs:4420-4477 | decoding an encoding gives the bytes back, for every byte string |
| Base64.IgnoresSkipped | apps/kernel/src/lib.rs:4455-4465 | the decoder's result depends only on the bytes that are neither "=" nor ASCII white space |
| Base64.RefusesExactly | apps/kernel/src/lib.rs:4455-4470 | it refuses exactly when some other byte is no symbol |
| VfsTransfer.ResendIsIdempotent | apps/kernel/src/lib.rs:1416-1448 | sending a truncate=false frame again changes nothing |
| VfsTransfer.SpliceAppends | apps/kernel/src/lib.rs:1438-1448 | two adjacent splices are one |
| VfsTransfer.UnreadableBodyIsLost | apps/kernel/src/lib.rs:1420-1437 | a failed read of the old body loses it, exactly when there was something outside the written window |
| VfsTransfer.LostBody | apps/kernel/src/lib.rs:1420-1437 | two bytes and a failed read for which it is lost |
| VfsTransfer.UploadIsExactIff | packages/sdk/src/index.ts:1594-1656 | a truncating upload stores exactly the data if and only if its offset is 0 or its first frame is the whole of it |
| VfsTransfer.UploadWithGap | packages/sdk/src/index.ts:1594-1656 | two bytes in two frames at offset 1, stored with a gap |
| VfsTransfer.VfsServer.HandleWrite | apps/kernel/src/lib.rs:1380-1490 | a truncating frame replaces the body; any other has its data in the window, leaves every old byte before and behind it, and fills a gap with zeros |
| VfsTransfer.SpliceOverwrites | apps/kernel/src/lib.rs:1438-1448 | a splice is the one body of the right length that has the data in its window, every other old byte unchanged before and behind it, and zeros in a gap |
| VfsTransfer.OverwrittenBytes | apps/kernel/src/lib.rs:1380-1450 | one byte written over the middle, the front and past the end of small files, appended, and truncating |
| VfsTransfer.VfsServer.HandleRead | apps/kernel/src/lib.rs:1496-1576 | the ranged read and its eof flag; it reports a torn file exactly for a range that starts at the end of an object for which R2 has no body |
| VfsTransfer.SendChunk | packages/sdk/src/index.ts:1620-1650 | one part of the input in frames |
| VfsTransfer.WriteFile | packages/sdk/src/index.ts:1594-1656 | for every chunk size and every cut into parts, the file becomes the one upload, and written is its length |
| VfsTransfer.StreamReadFile | packages/sdk/src/index.ts:1530-1556 | terminates; its chunks are bounded, not empty, and concatenate to the file from the offset; it throws exactly when there is no file, or when it starts at or past the end and R2 has no body for such a range |
| VfsTransfer.ReadFile | packages/sdk/src/index.ts:1558-1574 | the whole file, and an error exactly for no file or, under that answer of R2, an empty one |
| VfsTransfer.UploadThenDownload | packages/sdk/src/index.ts:1530-1656 | upload then download gives the data back, whatever the two chunk sizes, except no data at all under that answer of R2 |
| EvalReplies.RetriedIdsAreHonoured | packages/sdk/src/index.ts:743-750 | the kernel honours exactly the ids the client retries whose UTF-8 length is at most 128: every ASCII one, and every one of at most 42 code units |
| EvalReplies.NewestRowsSurvive | apps/kernel/src/lib.rs:965-975 | pruning to the 256 newest rows cannot drop a row with fewer than 256 newer ones |
| EvalReplies.AtMostOnce | apps/kernel/src/lib.rs:2742-2760 | across retries, crashes, evictions and other traffic, the sources sent under an honoured id reach eval_code at most once while its row is retained |
| EvalReplies.FewOthersRunOnce | apps/kernel/src/lib.rs:965-975 | the same from the traffic alone: without a reset or a clock that goes back, an id is run at most once while fewer than 256 other ids are framed after its reservation or were written at the same reading |
| EvalReplies.RetriesNeverRunTwice | packages/sdk/src/index.ts:893-928 | so no retried ASCII id runs twice while its row is retained |
| EvalReplies.SecondDeliveryRunsIffIgnored | apps/kernel/src/lib.rs:2742-2760 | a second delivery runs the source again if and only if the kernel ignores the id |
| EvalReplies.RetriedButIgnored | packages/sdk/src/index.ts:743-750 | an id of 43 euro signs is retried by the client and ignored by the kernel |
| EvalReplies.StoredReplyIsReplayed | apps/kernel/src/lib.rs:2742-2760 | over runs: once a reply is stored, every later frame with its id gets exactly the stored ok and checkpoint and changes nothing, while the row is retained |
| EvalReplies.ReservationIsReplayed | apps/kernel/src/lib.rs:870-963 | until then it gets ok false for a long-running source, ok true for one that looks effectful, each with a checkpoint that went well, and the raw marker otherwise |
| EvalReplies.TableIsBounded | apps/kernel/src/lib.rs:964-975 | the table never holds more than 256 rows |
| EvalBacking.UnbackedClaimIff | apps/kernel/src/lib.rs:2964-3063 | with eval_critical driving the checkpoint protocol and the table: in every reachable state, the answer an id replays claims a checkpoint, not a deferred one, that no transaction backs if and only if its row is still a reservation, for a source that looks long-running or effectful, and the latest serving of the id is before its transaction or ended before it |
| EvalBacking.CutShortBy | apps/kernel/src/lib.rs:2742-2995 | what ends a serving before its transaction: a crash, an evict, a failed wake, a deferred or refused dump, an error answer to the PUT, a failed transaction |
| EvalBacking.BackingIsCommitted | apps/kernel/src/lib.rs:2964-3063 | while wakes restore bytes, resets included, the cell a transaction committed for an id stays in the committed history |
| EvalBacking.FinalClaimsAreTrue | apps/kernel/src/lib.rs:3057-3063 | so a stored final answer that claims a checkpoint names a cell of the committed history |
| EvalBacking.CrashLeavesUnbackedClaim | apps/kernel/src/lib.rs:878-963 | a crash before the transaction leaves such an unbacked claim |
| EvalBacking.RunsAreReplyRuns | apps/kernel/src/lib.rs:2742-2760 | the table moves only as its own machine does, so at-most-once holds here too |
| EvalReplies.ReplyDesk.AdmitEval | apps/kernel/src/lib.rs:2742-2760 | a stored final reply is given back with its ok and checkpoint, a reserved one as what its source looked like, and the table is untouched; an unknown id is reserved before anything runs |
| EvalReplies.ReplyDesk.AnswerAgain | apps/kernel/src/lib.rs:2742-2760 | a reply that was stored and lost on the way is answered again as it was |
| EvalReplies.ReplyDesk.StoreReply | apps/kernel/src/lib.rs:965-975 | store and prune |
| WsTransport.StepKeepsInv | packages/sdk/src/index.ts:638-943 | a step that replaces no half-closed socket keeps replies with their requests |
| WsTransport.RunsKeepRepliesApart | packages/sdk/src/index.ts:638-943 | over every such run the invariant holds: each promise that resolves names its own attempt and socket, each attempt settles once and in order, and only the socket in place can be heard |
| WsTransport.StepSettles | packages/sdk/src/index.ts:638-943 | what is awaited settles when, and only when, its timer fires or an answer or refusal arrives while it is pending: with that very answer if it is a well-formed reply off a listening socket that owes it, and rejected otherwise; no attempt is skipped |
| WsTransport.SettlementsHaveCauses | packages/sdk/src/index.ts:638-943 | over every run from a new transport: each resolution was made by a well-formed reply to the attempt it names, off an attached and live socket that owed it, and each rejection by a timeout, a close, a malformed reply or a failed send |
| WsTransport.ResolvedWasAnswered | packages/sdk/src/index.ts:638-943 | with no socket replaced, a promise that resolved had its own reply arrive off its own socket |
| WsTransport.SilenceResolvesNothing | packages/sdk/src/index.ts:872-881 | without a reply nothing resolves |
| WsTransport.StepMovesSockets | packages/sdk/src/index.ts:660-760 | only open puts a socket in place, and only a drop, a timeout or a close that counts takes it away |
| WsTransport.ClosedStaysDeaf | packages/sdk/src/index.ts:938-942 | after close, until a request is made again, nothing is opened, heard or resolved |
| WsTransport.ReplacingCrossesReplies | packages/sdk/src/index.ts:791-848 | from every state in which open() replaces a half-closed socket, a later request can resolve with another request's reply |
| WsTransport.ReplacementIsReachable | packages/sdk/src/index.ts:791-848 | such a state is reachable |
| WsTransport.KeepRunsAreSafeIff | packages/sdk/src/index.ts:855-862 | a run of a keepalive transport never replaces a half-closed socket if and only if no ping, and no request after close(), starts on one; then every reply is the request's own |
| WsTransport.UserFramesNeverReplace | packages/sdk/src/index.ts:893-928 | with user frames only, on a transport not closed, it never happens |
| WsTransport.PingReplaces | packages/sdk/src/index.ts:855-862 | a ping on a socket that has begun to close replaces it |
| WsTransport.Transport.OpenSocket | packages/sdk/src/index.ts:791-848 | open |
| WsTransport.Transport.RawRequest | packages/sdk/src/index.ts:869-891 | rawRequest up to its promise |
| WsTransport.Transport.OnReply | packages/sdk/src/index.ts:638-676 | onMessage for a reply |
| WsTransport.Transport.OnClose | packages/sdk/src/index.ts:677-703 | onClose |
| WsTransport.Transport.OnTimer | packages/sdk/src/index.ts:872-881 | the timeout rejects the attempt that was awaited, forgets what was pending and drops the socket |
| WsTransport.Transport.DropCurrent | packages/sdk/src/index.ts:705-726 | dropSocket |
| NetChain.OneCallAtATime | apps/kernel/stdlib-src/shims/net.js:78-88 | over every run of the promises chained on _hostTail, at most one host call is unsettled and begun, in the order asked for |
| NetChain.GuardIsTheChain | apps/kernel/stdlib-src/shims/net.js:78-88 | a call begins only where the guard of the socket machine lets it, and where the guard does, it begins at once or after the one reaction due on the call before, failed or not |
| NetChain.RunsOnChain | apps/kernel/stdlib-src/shims/net.js:78-88 | every run of the socket machine is a run of the promise chain: the same calls in the same states |
| NetResults.SingleFlight | apps/kernel/stdlib-src/shims/net.js:79-88 | under that guard, over every run of the sockets: one host call at a time, and none before all issued earlier have settled |
| NetResults.OneLoop | apps/kernel/stdlib-src/shims/net.js:313-377 | without _startTls a socket has at most one command loop and at most one unanswered write or read |
| NetResults.WritesArePrefix | apps/kernel/stdlib-src/shims/net.js:313-377 | the payloads passed to socket.write are a prefix of those write and end accepted, in order |
| NetResults.LoopClosesAfterFlush | apps/kernel/stdlib-src/shims/net.js:350-352 | when the loop itself closes, everything accepted has been passed on |
| NetResults.HandlesAreConserved | apps/kernel/stdlib-src/shims/net.js:257-290 | without a throwing listener every handle a socket was given is in use or has a close issued |
| NetResults.CountIsExact | apps/kernel/stdlib-src/shims/net.js:292-294 | unless a destroyed socket is connected again, the open count is the number of sockets holding a slot, in 0..6, and the clamp never acts |
| NetSlots.CountedThroughoutIff | apps/kernel/stdlib-src/shims/net.js:221-256 | the count is right all along a run if and only if no step of it connects a socket that still holds a slot |
| NetResults.ReuseLeaksASlot | apps/kernel/stdlib-src/shims/net.js:221-256 | a run that leaves the count at 1 with no socket holding a slot |
| NetDrops.CloseDropsIff | apps/kernel/stdlib-src/shims/net.js:434-475 | in every reachable state: end without data, the end of the stream and the loop's own close drop accepted writes, for good, if and only if, for end, the socket is neither connecting nor running its loop and something is queued; for the end of the stream, half-open is not allowed and something is queued; for the loop never. End with data never closes at once |
| NetDrops.ClosedForGood | apps/kernel/stdlib-src/shims/net.js:303-330 | a closed socket accepts nothing and passes nothing on in any continuation |
| NetResults.EndInConnectDropsWrites | apps/kernel/stdlib-src/shims/net.js:450-475 | a run in which end inside the connect listener drops an accepted write |
| NetDrops.EndBeforeConnectDrops | apps/kernel/stdlib-src/shims/net.js:450-475 | a run in which a write and an end before connect drop it |
| NetDrops.RemoteEndDrops | apps/kernel/stdlib-src/shims/net.js:355-367 | a run in which the peer ends the stream while a write waits for the read to return |
| NetDrops.EndAsks | apps/kernel/stdlib-src/shims/net.js:450-475 | end asks for the close, and puts its data behind what is queued |
| NetDrops.MoveStaysAsked | apps/kernel/stdlib-src/shims/net.js:313-475 | nothing takes that request back |
| NetDrops.OpenHandsOver | apps/kernel/stdlib-src/shims/net.js:262-290 | a request made before the connection reaches the loop that the connection starts |
| NetDrops.TurnCloses | apps/kernel/stdlib-src/shims/net.js:330-352 | and the loop closes the handle in its first turn with nothing to write, not before |
| NetDrops.ConnectAsks | apps/kernel/stdlib-src/shims/net.js:225-262 | connect asks the host exactly below six open sockets, and keeps allowHalfOpen unless told otherwise |
| NetDrops.CountIsNatural | apps/kernel/stdlib-src/shims/net.js:292-297 | the open count is never negative |
| NetHandles.ThrowLosesHandleIff | apps/kernel/stdlib-src/shims/net.js:287-290 | a throwing connect listener loses the handle exactly when the socket was left open |
| NetResults.ThrowLosesHandle | apps/kernel/stdlib-src/shims/net.js:287-290 | a run in which it does |
| NetHandles.MoveKeepsHandles | apps/kernel/stdlib-src/shims/net.js:402-492 | every other step keeps each handle in use or closed |
| NetHandles.ReactKeepsHandles | apps/kernel/stdlib-src/shims/net.js:257-290 | every reaction does; a handle that arrives too late is closed at once |
| NetSlots.StepCountsIff | apps/kernel/stdlib-src/shims/net.js:237-256 | a step keeps the count right exactly when it does not take a second slot for one socket |
| NetSlots.ConnectCountsIff | apps/kernel/stdlib-src/shims/net.js:218-256 | connect keeps the count with the flag exactly when the socket held no slot |
| NetSlots.RunCounts | apps/kernel/stdlib-src/shims/net.js:237-294 | runs that connect no destroyed socket keep the count |
| NetSafety.MoveKeepsShape | apps/kernel/stdlib-src/shims/net.js:313-492 | every call and turn keeps the flags of a socket and its one loop in step |
| NetSafety.MoveKeepsOrder | apps/kernel/stdlib-src/shims/net.js:419-475 | and nothing accepted is lost, repeated or reordered |
| NetSafety.ReactKeepsOrder | apps/kernel/stdlib-src/shims/net.js:257-290 | nor by a reaction: writes from before the connection go first |
| NetSafety.MoveKeepsAwaited | apps/kernel/stdlib-src/shims/net.js:322-377 | an unfinished write or read is the one the loop waits for |
| NetRuns.StepKeepsInv | apps/kernel/stdlib-src/shims/net.js:79-492 | every step of the sockets keeps all of this |
| NetRuns.RunKeepsInv | apps/kernel/stdlib-src/shims/net.js:79-492 | and every run |
| NetObject.Socket.Connect | apps/kernel/stdlib-src/shims/net.js:218-256 | connect up to its host call; it throws exactly when connecting, connected or given a bad port |
| NetObject.Socket.OnOpen | apps/kernel/stdlib-src/shims/net.js:260-281 | the reaction to socket.open, with the loop that moves the early writes |
| NetObject.Socket.AfterListeners | apps/kernel/stdlib-src/shims/net.js:279-290 | the rest of it, and its catch |
| NetObject.Socket.TakeTurn | apps/kernel/stdlib-src/shims/net.js:322-357 | one turn of the loop |
| NetObject.Socket.OnWritten | apps/kernel/stdlib-src/shims/net.js:332-347 | the reaction to a write |
| NetObject.Socket.OnRead | apps/kernel/stdlib-src/shims/net.js:357-375 | the reaction to a read |
| NetObject.Socket.Write | apps/kernel/stdlib-src/shims/net.js:419-432 | write |
| NetObject.Socket.End | apps/kernel/stdlib-src/shims/net.js:450-475 | end |
| NetObject.Socket.DoClose | apps/kernel/stdlib-src/shims/net.js:434-448 | _doClose |
| NetObject.Socket.Teardown | apps/kernel/stdlib-src/shims/net.js:402-414 | _teardown |
| NetObject.Socket.Destroy | apps/kernel/stdlib-src/shims/net.js:477-492 | destroy |
| NetObject.Socket.StartLoop | apps/kernel/stdlib-src/shims/net.js:313-318 | _startLoop |
| ReplCompletion.WrapIsIdempotent | apps/kernel/src/repl-transform.ts:425-450 | rewriting the completion twice is rewriting it once, for every source text |
| ReplReading.ScanIsLastEnd | apps/kernel/src/repl-transform.ts:453-490 | the scan succeeds exactly on the texts whose tokens balance, and finds the end of the last statement at depth 0, both told from the whole list of tokens |
| ReplReading.CompletionIff | apps/kernel/src/repl-transform.ts:425-450 | a cell is rewritten if and only if it uses await as a word, balances, and has only an expression behind its last statement; it then becomes everything before, the inserted return, the trimmed expression and the closing text |
| ReplReading.AwaitedCellReturns | apps/kernel/src/repl-transform.ts:425-450 | "await f();x" becomes "await f();;return (\nx\n);" |
| ReplReading.OtherCellsStay | apps/kernel/src/repl-transform.ts:425-428 | "f();x" and "awaits;x" stay as they are |
| ReplCompletion.NextLexes | apps/kernel/src/repl-transform.ts:453-490 | the scanner's tokens have the locality the proof rests on |
| ReplScan.BoundarySplits | apps/kernel/src/repl-transform.ts:453-490 | past the last boundary the scan is at depth 0, and gets there whatever follows |
| ReplScan.TailMirrors | apps/kernel/src/repl-transform.ts:453-490 | a tail scanned one level deeper and closed is unbalanced or ends with a boundary at its very end |
| ReplScan.RewrittenRescans | apps/kernel/src/repl-transform.ts:425-450 | a rewritten cell rescans as null or with its last boundary at its end |
| ReplTokens.NextIsLocal | apps/kernel/src/repl-transform.ts:453-543 | a token that ends before the text does depends only on itself and the next character |
| ReplTokens.StringIsLocal | apps/kernel/src/repl-transform.ts:493-523 | a string literal, template holes included, is recognised from its own characters and ends with its quote |
| ReplTokens.RegexIsLocal | apps/kernel/src/repl-transform.ts:525-543 | so is a closed regular expression |
| ReplTokens.EdgeToken | apps/kernel/src/repl-transform.ts:453-543 | how the last token of a tail is read once the closing text follows it |
| ReplLexemes.StringEndsIff | apps/kernel/src/repl-transform.ts:493-523 | a quoted string ends with its first quote that is not escaped, and is none if the line ends before |
| ReplLexemes.RegexClosesIff | apps/kernel/src/repl-transform.ts:525-541 | a regular expression closes at the first slash that is neither escaped nor in a class, and is none if the line ends before |
| ReplLexemes.LineEndsAt | apps/kernel/src/repl-transform.ts:148-156 | a line comment goes up to the end of its line |
| ReplLexemes.BlockEndsAt | apps/kernel/src/repl-transform.ts:148-156 | a block comment goes up to the first star and slash, or takes everything |
| ReplLoops.SkipStringFrom | apps/kernel/src/repl-transform.ts:493-523 | the string loop with its recursive holes terminates, advances the cursor and finds the end |
| ReplLoops.SkipHoleFrom | apps/kernel/src/repl-transform.ts:504-515 | the loop inside a hole |
| ReplLoops.SkipRegexFrom | apps/kernel/src/repl-transform.ts:525-543 | the regular-expression loop |
| ReplLoops.StringEndConsumes | apps/kernel/src/repl-transform.ts:493-523 | on cursors and on the remaining text the string skipper is the same |
| ReplLoops.ReadToken | apps/kernel/src/repl-transform.ts:460-488 | the dispatch on one character |
| ReplLoops.ScanTopLevel | apps/kernel/src/repl-transform.ts:453-490 | the scan loop with its depth, previous token and last boundary |
| ReplLoops.LoopsRefineScan | apps/kernel/src/repl-transform.ts:453-490 | that loop computes the scan the idempotence proof is about |
| ReplLoops.RewriteCompletion | apps/kernel/src/repl-transform.ts:425-450 | the loops rewrite exactly those cells, to exactly that text |
| ReplEdits.SortSorts | apps/kernel/src/repl-transform.ts:126-126 | the sort orders the edits and permutes them |
| ReplEdits.SortIsFromTheBack | apps/kernel/src/repl-transform.ts:124-130 | sorting and applying takes the edits from the back, ties in pushing order |
| ReplEdits.AppliedIff | apps/kernel/src/repl-transform.ts:124-131 | applied one at a time the edits are the simultaneous replacement behind the hoisted text exactly when no two spans touch |
| ReplPlan.PlanIsPlaced | apps/kernel/src/repl-transform.ts:134-231 | the scan finds its declarations in order and apart |
| ReplPlan.HandledOk | apps/kernel/src/repl-transform.ts:235-318 | a handled declaration's edits lie within it, from its keyword to its end |
| ReplPlan.TransformIff | apps/kernel/src/repl-transform.ts:111-132 | transformCell leaves a cell alone, or is the simultaneous replacement behind the hoists, failing exactly when a class body ends where the next rewritten declaration begins |
| ReplCells.PlanIffPieces | apps/kernel/src/repl-transform.ts:134-228 | planEdits finds the declarations that stand at depth 0 at the start of a statement, told from the list of pieces of the cell, and gives up exactly when there is no such list |
| ReplCells.CellBecomes | apps/kernel/src/repl-transform.ts:111-132 | the new cell, character by character: hoisted functions in front, classes assigned, lists rewritten, functions left as a semicolon, everything else untouched, whenever no class body meets the next rewritten declaration |
| ReplCells.ListBecomes | apps/kernel/src/repl-transform.ts:276-316 | a pattern goes into parentheses, a list with a value loses its keyword only, and bare names are each defined unless they are |
| ReplCells.NeverGivesUpAtAsync | apps/kernel/src/repl-transform.ts:190-209 | the bail on a declaration behind async or export is never reached: such a word is read as any other |
| ReplCells.RegexMayStartIff | apps/kernel/src/repl-transform.ts:356-379 | a slash in an initializer opens a regular expression exactly behind an operator or at the start |
| ReplCells.InitializerStops | apps/kernel/src/repl-transform.ts:356-374 | an initializer ends at a comma, semicolon or closing bracket outside its own brackets |
| ReplSamples.LetCell | apps/kernel/src/repl-transform.ts:310-316 | "let x=1;" becomes "x=1;" |
| ReplSamples.BareCell | apps/kernel/src/repl-transform.ts:289-302 | "let a,b" becomes void of two definitions |
| ReplSamples.PatternCell | apps/kernel/src/repl-transform.ts:304-309 | "const {a}=use" becomes "({a}=use)" although use is a name of the host |
| ReplSamples.HostPatternStays | apps/kernel/src/repl-transform.ts:66-81 | "let {a=use}=o" stays as it is |
| ReplSamples.HostVariableStays | apps/kernel/src/repl-transform.ts:82-87 | "let use=1" stays as it is |
| ReplSamples.ClassCell | apps/kernel/src/repl-transform.ts:262-268 | "class A{}" is assigned where it stands |
| ReplSamples.FunctionCell | apps/kernel/src/repl-transform.ts:199-204 | "function f(){}" moves to the front and leaves a semicolon |
| ReplSamples.FunctionsThatStay | apps/kernel/src/repl-transform.ts:247-258 | a generator, and a function with a name of the host, stay as they are |
| ReplPlan.TwoClassesGoWrong | apps/kernel/src/repl-transform.ts:111-132 | a cell of two adjacent classes for which it fails |
| ReplPlanLoops.SkipInitializer | apps/kernel/src/repl-transform.ts:356-379 | the loop over an initializer |
| ReplPlanLoops.SkipBalanced | apps/kernel/src/repl-transform.ts:343-355 | the loop over a pattern |
| ReplPlanLoops.SkipToBlockEnd | apps/kernel/src/repl-transform.ts:380-400 | the two loops over a function or class body |
| ReplPlanLoops.ValidateDeclaratorList | apps/kernel/src/repl-transform.ts:320-342 | the loop over a declarator list |
| ReplPlanLoops.HandleLetOrConst | apps/kernel/src/repl-transform.ts:274-318 | handleDeclaration for let and const |
| ReplPlanLoops.HandleFunctionOrClass | apps/kernel/src/repl-transform.ts:249-272 | and for functions and classes |
| ReplPlanLoops.ReadTurn | apps/kernel/src/repl-transform.ts:158-216 | planEdits on one token |
| ReplPlanLoops.PlanEdits | apps/kernel/src/repl-transform.ts:134-231 | planEdits: the edits in pushing order and the hoists |
| ReplPlanLoops.Transform | apps/kernel/src/repl-transform.ts:111-132 | transformCell |
| Supervisor.TouchKeepsBetween | apps/cloud/src/supervisor.ts:590-601 | once a gap is recorded the rounded average stays between the smallest and the largest gap |
| Supervisor.TouchRecords | apps/cloud/src/supervisor.ts:590-601 | a use records the gap since the last one and an average weighted two to three, rounded half up, and changes nothing else |
| Supervisor.WarmWindow | apps/cloud/src/supervisor.ts:622-637 | when a session is kept warm: on request, or for 2.5 average gaps when these are under 90 s, it was used twice and its snapshot is at most 512 KB; a count of 2^31 uses or more counts as none |
| Supervisor.SweepDecides | apps/cloud/src/supervisor.ts:640-661 | a sweep renews, evicts or leaves a row by what it read of it, and touches no other |
| Supervisor.RequestsDecide | apps/cloud/src/supervisor.ts:606-618 | what an eviction, a size or a flag leaves of a row, and that the first use after an eviction records no gap |
| Supervisor.SweepEndsArmed | apps/cloud/src/supervisor.ts:662-671 | a sweep sets the next alarm exactly when a session is active |
| Supervisor.ShardIsBounded | apps/cloud/src/supervisor.ts:577-589 | a shard never holds more than 128 rows |
| Supervisor.RunKeepsInv | apps/cloud/src/supervisor.ts:577-671 | in every run: times lie in the past, heartbeats reach one horizon ahead, and no active session is without an alarm or a sweep |
| Supervisor.EvictedByBound | apps/cloud/src/supervisor.ts:622-661 | a session last used at T, not kept warm on request and left alone, is evicted by the first sweep that starts at T + 464.997 s or later, whatever else happens before and during it |
| Supervisor.BoundIsExact | apps/cloud/src/supervisor.ts:202-210 | a run in which a sweep one millisecond earlier leaves it alone |
| Supervisor.EvictedEarlyIff | apps/cloud/src/supervisor.ts:640-661 | a sweep evicts a session idle for less than 300 s exactly when it was used during that sweep |
| Supervisor.UsedDuringSweepIsEvicted | apps/cloud/src/supervisor.ts:640-661 | a run in which that happens |
| Supervisor.SupervisorDO.TouchSession | apps/cloud/src/supervisor.ts:577-604 | _touch, refusing exactly a new session on a full shard |
| Supervisor.SupervisorDO.ArmAlarm | apps/cloud/src/supervisor.ts:615-618 | _armAlarm |
| Supervisor.SupervisorDO.SetLatencySensitive | apps/cloud/src/supervisor.ts:606-609 | _setLatencySensitive |
| Supervisor.SupervisorDO.RecordSizeGz | apps/cloud/src/supervisor.ts:610-614 | _recordSize |
| Supervisor.SupervisorDO.Alarm | apps/cloud/src/supervisor.ts:640-671 | the uninterrupted sweep is a run of the machine and deals with every active row |
| Sha256.PrimesAreTheFirst | apps/kernel/src/lib.rs:4338-4347 | the table the roots are taken of holds exactly the first sixty-four primes, in order |
| Sha256.ConstantsAreCubeRoots | apps/kernel/src/lib.rs:4338-4347 | each round constant is the first 32 bits of the fractional part of its prime's cube root (section 4.2.2 of FIPS 180-4) |
| Sha256.InitialIsSquareRoots | apps/kernel/src/lib.rs:4350-4353 | the initial value, likewise from square roots (section 5.3.3) |
| Sha256.PadIsThePadding | apps/kernel/src/lib.rs:4354-4360 | bit by bit, the padded message is the message, a one bit, zero bits and the length in bits (section 5.1.1) |
| Sha256.FewestZeros | apps/kernel/src/lib.rs:4357-4359 | those zero bits are the fewest that leave 64 bits to a multiple of 512 |
| Sha256.PadIsInjective | apps/kernel/src/lib.rs:4354-4360 | below 2^61 bytes two messages with the same padding are the same |
| Sha256.PadMessage | apps/kernel/src/lib.rs:4354-4360 | the padding loop stops where the definition does |
| Sha256.BitwiseBits | apps/kernel/src/lib.rs:4373-4392 | and and xor act bit by bit |
| Sha256.NotBits | apps/kernel/src/lib.rs:4385-4385 | the complement flips every bit |
| Sha256.RotrBits | apps/kernel/src/lib.rs:4373-4392 | a rotation moves the last n bits to the front |
| Sha256.ShrBits | apps/kernel/src/lib.rs:4374-4375 | a shift drops the last n bits and puts zeros in front |
| Sha256.ChoosesAndMajority | apps/kernel/src/lib.rs:4383-4392 | equations 4.2 and 4.3: choice by the first word, and majority, bit by bit |
| Sha256.BigSigmaBits | apps/kernel/src/lib.rs:4384-4389 | equations 4.4 and 4.5, bit by bit |
| Sha256.SmallSigmaBits | apps/kernel/src/lib.rs:4373-4376 | equations 4.6 and 4.7, bit by bit |
| Sha256.RoundSums | apps/kernel/src/lib.rs:4383-4402 | one round of section 6.2.2 as sums of whole numbers modulo 2^32 |
| Sha256.RoundIsInjective | apps/kernel/src/lib.rs:4383-4402 | a round loses nothing |
| Sha256.ScheduleStarts | apps/kernel/src/lib.rs:4364-4371 | the first sixteen words of the schedule are the block read as big-endian numbers |
| Sha256.ScheduleSums | apps/kernel/src/lib.rs:4372-4379 | and the others sums of whole numbers modulo 2^32 (section 6.2.2) |
| Sha256.RoundsFollow | apps/kernel/src/lib.rs:4383-4402 | the rounds take the constants and the words in order |
| Sha256.BlockAdds | apps/kernel/src/lib.rs:4403-4411 | each block adds its 64 rounds to the hash value, from the initial value on |
| Sha256.LoadBlock | apps/kernel/src/lib.rs:4364-4371 | the first sixteen words of the schedule are the block's big-endian words |
| Sha256.ExtendSchedule | apps/kernel/src/lib.rs:4372-4379 | the in-place schedule is the recursive W of section 6.2.2 |
| Sha256.Compress | apps/kernel/src/lib.rs:4383-4402 | the rolling registers are 64 rounds of section 6.2.2 |
| Sha256.HashBlocks | apps/kernel/src/lib.rs:4362-4411 | the loop over the blocks computes the hash value |
| Sha256.HexReads | apps/kernel/src/lib.rs:4413-4417 | the output's eight digits per word read back as the word |
| Sha256.TextReads | apps/kernel/src/lib.rs:4413-4417 | the 64 digits give the eight registers back, from a to h |
| Sha256.Sha256Hex | apps/kernel/src/lib.rs:4349-4418 | sha256_hex is the 64-digit text of the digest of the padded message |

## Left out

- Oplog replay as a faithful restore: it is best effort by design, and is one opaque alternative wake that the durability theorems exclude.
- Checkpoint.DecodeRow: a stored delta whose payload is not one grain per index counts as undecodable, because no reachable state stores one.
- The engine, zstd, gzip, the checksum function and compaction: arbitrary functions, with decompression inverting compression by tag; the engine always returns.
- Interleaving inside flush_staged_fs and vfs_write across their R2 awaits: each is one step, and their R2 requests do not land late. What a reconcile lists is arbitrary.
- CheckpointSafety.RemoteStepKeepsInv: requests land while their phase waits, never after an error reply or a crash; late landings are those of CheckpointRemote, over a machine of its own.
- CheckpointSafety.CommittedObjectSurvives: under the same assumption; without it the exact condition is CheckpointRemote.CommittedObjectSurvivesIff.
- EvalBacking and the acknowledgements of CheckpointDurability are about the machine without late landings; CheckpointRemote.CleanRunsExtend carries the growth of the history over to those that do not clash.
- Checkpoint.Enabled: the compaction before a dump keeps the length of the memory buffer (`|raw| == |image|`), because it zeroes slack the engine has freed; growth while it runs is not modelled.
- SQL transactions are atomic and durable at the next await; the config copy in the manifest row and the clamps on long sources of oplog rows and deferred cells are not modelled.
- R2 keys are pairs of epoch and cell, not their printed form; the circuit breaker and retry timing of R2 requests only decide which reply arrives.
- A crash during reset's R2 delete leaves epoch and counters as they were; the model has that step, and nothing is claimed about a reset cut there beyond the invariant.
- Heap and files after a failed eager checkpoint: the next eager cell clears the staged buffer while the heap keeps its effects, so no agreement is claimed.
- VfsTransfer.StreamReadFile: the file does not change while it is read, because concurrent writers are outside the transfer's promise.
- EvalReplies.AtMostOnce: says nothing once the row is pruned or the session reset, because the source keeps no other record.
- JSON framing, JavaScript strings as UTF-16 (characters are Dafny's), Unicode normalisation, and the order of a BTreeMap where the result does not depend on it.
- WsTransport: reply contents, the ten-second connect timer and the HTTP transport.
- Net sockets: _startTls, in which the old loop's stop clears the new loop's flag; data delivery and backpressure; a listener that throws other than in the connect reaction; argument parsing.
- NetSocket: a host reply arrives only after queued microtasks have run, and handles are never reused by the host.
- Supervisor: metering, other requests' content, floating-point rounding in the average (it is the exact rational, rounded), and the await inside _armAlarm.
- ReplLoops.ReadToken: the dispatch on a character is one method rather than the body of the scan loop; transformCell's own dispatch is ReplPlanLoops.ReadTurn.
- The JavaScript meaning of rewritten cells: both rewrites are heuristic by intent.
- Sha256.Sha256Hex: the length field is taken modulo 2^64 as in the code; messages of 2^61 bytes or more are hashed as the code does, not as the standard would refuse them.
- Authentication, permissions, metering, worker loading, the sandbox, the user interface, the EngramFs class: plumbing, or simpler versions of what is here.
- Fault-injection hooks: they exist for tests and bypass the mutex.
