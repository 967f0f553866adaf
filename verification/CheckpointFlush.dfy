/**
 * What a checkpoint is for: over the waits of checkpoint_impl (apps/kernel/src/lib.rs), the eager
 * one of an eval and the forced one of flush_critical store exactly what the heap holds, and
 * nothing else takes the dirty mark off a live session.
 */
module CheckpointFlush {
  import opened Prelude
  import opened SqlTable
  import opened W4Delta
  import opened Checkpoint
  import opened CheckpointSafety
  import opened CheckpointDurability

  /** The waits of a checkpoint, each answered; those that do not apply are passed over. */
  function Answers(read: R2Read, deleted: bool): seq<Event> {
    [PutReply(true), VerifyReply(read), FsStaged, ManifestExported, OldDeleteReply(deleted)]
  }

  /** When a heap is dumped at all: the ceilings of 50 MB and 60 MB are never the ones that bite. */
  predicate Fits(heap: bytes, usedHeap: nat) {
    usedHeap < 24 * 1024 * 1024 && |heap| < 55 * 1024 * 1024
  }

  /** When a checkpoint that is not forced appends to the chain instead of writing a new base. */
  ghost predicate Appends(w: World, s: State, raw: Image)
    requires s.glue.Some?
  {
    && s.db.manifest.Some? && s.db.manifest.value.deltaSeq < 19
    && s.glue.value.base.Some?
    && var base := s.glue.value.base.value;
       && |base| <= |raw| < TWO32
       && 2 * |MakeDelta(base, raw).payload| < |raw|
       && |w.compress(s.build.snapCodec, MakeDelta(base, raw).payload)| <= 1_400_000
       && (IndicesFit(base, raw);
           |w.compress(s.build.snapCodec, EncodeIndices(MakeDelta(base, raw).indices))| <= 1_400_000)
  }

  /** What a checkpoint is asked to store. */
  datatype Job = Job(cell: int, src: string, eager: bool, delta: bool, image: Image)

  ghost predicate Large(w: World, s: State, j: Job) {
    !j.delta && |w.compress(s.build.snapCodec, j.image)| > 8 * 1024 * 1024
  }

  /** What the next delta can start from: nothing after a base of more than 16 MB. */
  predicate Retains(j: Job) {
    j.delta || |j.image| <= 16 * 1024 * 1024
  }

  ghost predicate Carries(w: World, s: State, j: Job, ck: Ck) {
    && ck.cell == j.cell && ck.src == j.src && ck.eager == j.eager && ck.image == j.image && ck.dump.delta == j.delta
    && ck.epoch == s.db.epoch && ck.prev == s.db.manifest
    && (!j.delta ==> ck.dump.codec == s.build.snapCodec && ck.dump.gz == w.compress(s.build.snapCodec, j.image))
  }

  /** The job has been dumped in s and not committed in t. */
  ghost predicate Begun(w: World, s: State, j: Job, t: State) {
    && Inv(w, t) && Meaning(w, t)
    && t.db == s.db && t.build == s.build
    && t.glue.Some? && t.glue.value.heap == j.image
    && t.glue.value.pending == (if Retains(j) then Some(j.image) else None)
    && (t.phase.Putting? || t.phase.Verifying? || t.phase.Staging?) && Carries(w, s, j, t.phase.ck)
  }

  /**
   * The tables of t hold the job on top of those of s: its image, a row of the log with its cell
   * and source, and one more delta or a base in one piece.
   */
  ghost predicate Stored(w: World, s: State, j: Job, inR2: bool, t: State) {
    && t.glue.Some? && t.glue.value.heap == j.image
    && t.db.committedCell == j.cell
    && StoredImage(w, t.db, t.bucket) == Some(j.image)
    && t.db.manifest.Some?
    && if j.delta then
         && s.db.manifest.Some? && t.db.manifest.value.tier == s.db.manifest.value.tier && t.db.chunks == s.db.chunks
         && |t.db.deltas| == |s.db.deltas| + 1 && t.db.deltas[..|s.db.deltas|] == s.db.deltas
         && t.db.oplog == s.db.oplog + [Row(|s.db.oplog|, OplogRow(j.cell, j.src))]
       else
         && t.db.oplog == [Row(0, OplogRow(j.cell, j.src))] && t.db.deltas == []
         && (t.db.manifest.value.tier == R2 <==> inR2)
         && Concat(Rows(t.db.chunks)) == if inR2 then [] else w.compress(s.build.snapCodec, j.image)
  }

  /** The object that a new base makes stale. */
  function StaleKey(s: State, j: Job): Option<Key> {
    if j.delta || s.db.manifest.None? then None else s.db.manifest.value.r2Key
  }

  /** The objects after a checkpoint: its own base is put, and the stale one removed. */
  ghost function BucketAfter(w: World, s: State, j: Job, deleted: bool): Bucket {
    var key, body := Key(s.db.epoch, j.cell), w.compress(s.build.snapCodec, j.image);
    var put := if Large(w, s, j) then s.bucket[key := body] else s.bucket;
    if deleted && StaleKey(s, j).Some? then put - {StaleKey(s, j).value} else put
  }

  /** Clean and idle, with what the next delta starts from. */
  ghost predicate Settled(w: World, s: State, j: Job, deleted: bool, t: State) {
    && t.phase.Idle? && ReadLive(t.db) == t.db.committedCell && t.db.lastDirtySrc == Some("")
    && t.glue == Some(Glue(j.image, if Retains(j) then Some(j.image) else None, None))
    && t.bucket == BucketAfter(w, s, j, deleted)
  }

  // ---- the steps of a checkpoint -------------------------------------------------------------

  /** The first stretch: over the ceilings nothing happens, under them the job is under way. */
  lemma CheckpointBegins(w: World, s: State, cell: int, src: string, eager: bool, raw: Image, usedHeap: nat)
    requires s.glue.Some? && ManifestOk(w, s) && GlueOk(w, s) && (s.phase.Idle? || s.phase.Evaluating?)
    requires |raw| == |s.glue.value.heap|
    ensures var t := BeginCheckpoint(w, s, cell, src, eager, raw, usedHeap);
      var j := Job(cell, src, eager, eager && Appends(w, s, raw), raw);
      if Fits(s.glue.value.heap, usedHeap) then
        && t.db == s.db && t.build == s.build && t.bucket == s.bucket && t.glue.Some? && t.glue.value.heap == raw
        && t.glue.value.pending == (if Retains(j) then Some(raw) else None)
        && (if Large(w, s, j) then t.phase.Putting? else t.phase.Staging? && t.phase.tier == Sqlite)
        && Carries(w, s, j, t.phase.ck)
      else t == s.(phase := Idle)
  {
  }

  /** The two waits of a large base end in the transaction, in the tier the read-back chose. */
  lemma BaseIsUploaded(w: World, s: State, j: Job, t: State, read: R2Read)
    requires Begun(w, s, j, t) && (t.phase.Putting? || (t.phase.Staging? && t.phase.tier == Sqlite))
    ensures var u := Step(w, Step(w, t, PutReply(true)), VerifyReply(read));
      && Begun(w, s, j, u) && u.phase.Staging?
      && (u.phase.tier == R2 <==> t.phase.Putting? && read == Got)
      && u.bucket == (if t.phase.Putting? then t.bucket[Key(s.db.epoch, j.cell) := t.phase.ck.dump.gz] else t.bucket)
  {
    hide DumpW4, ColdWake, StoredImage, DecodeRow, Inv, Meaning;
    StepKeepsInv(w, t, PutReply(true));
    StepExtends(w, t, PutReply(true));
    StepKeepsInv(w, Step(w, t, PutReply(true)), VerifyReply(read));
    StepExtends(w, Step(w, t, PutReply(true)), VerifyReply(read));
  }

  lemma DeltaIsCommitted(w: World, s: State, j: Job, t: State)
    requires Begun(w, s, j, t) && t.phase.Staging? && j.delta
    ensures var u := Step(w, t, FsStaged);
      u == t.(db := u.db, phase := Exporting(t.phase.ck, t.phase.tier)) && Stored(w, s, j, t.phase.tier == R2, u)
  {
    hide DumpW4, ColdWake, StoredImage, DecodeRow;
    TransactionStores(w, t);
    var pm := s.db.manifest.value;
    var dump := t.phase.ck.dump;
    InsertAppends(s.db.deltas, pm.deltaSeq, DeltaRow(dump.gz, dump.indicesGz, dump.codec));
    InsertAppends(s.db.oplog, pm.deltaSeq + 1, OplogRow(j.cell, j.src));
  }

  lemma BaseIsCommitted(w: World, s: State, j: Job, t: State)
    requires Begun(w, s, j, t) && t.phase.Staging? && !j.delta
    ensures var u := Step(w, t, FsStaged);
      u == t.(db := u.db, phase := Exporting(t.phase.ck, t.phase.tier)) && Stored(w, s, j, t.phase.tier == R2, u)
  {
    hide DumpW4, ColdWake, StoredImage, DecodeRow, Chunks;
    TransactionStores(w, t);
    ChunksRejoin(t.phase.ck.dump.gz);
    assert Step(w, t, FsStaged).db == CommitFull(s.db, s.build, t.phase.ck, t.phase.tier);
  }

  /** What follows the transaction: the manifest is exported, and a stale object is found. */
  lemma ManifestIsExported(w: World, s: State, j: Job, inR2: bool, t: State)
    requires Inv(w, t) && t.phase.Exporting? && Carries(w, s, j, t.phase.ck) && Stored(w, s, j, inR2, t)
    requires t.glue.value.pending == (if Retains(j) then Some(j.image) else None)
    requires ManifestOk(w, s) && s.db.committedCell < j.cell
    ensures var u := Step(w, t, ManifestExported);
      && Inv(w, u) && Stored(w, s, j, inR2, u) && u.bucket == t.bucket
      && u.glue == Some(Glue(j.image, if Retains(j) then Some(j.image) else None, None))
      && if StaleKey(s, j).None? then u.phase.Idle? && ReadLive(u.db) == j.cell && u.db.lastDirtySrc == Some("")
         else u.phase == Deleting(t.phase.ck, StaleKey(s, j).value)
  {
    hide DumpW4, ColdWake, StoredImage, DecodeRow, Chunks;
    StepKeepsInv(w, t, ManifestExported);
    SameTables(w, t.db, Step(w, t, ManifestExported).db, t.bucket);
    if s.db.manifest.Some? && s.db.manifest.value.r2Key.Some? { OldKeyIsOlder(w, s); }
  }

  /** The committed object was written by a cell that is committed. */
  lemma OldKeyIsOlder(w: World, s: State)
    requires ManifestOk(w, s) && s.db.manifest.Some? && s.db.manifest.value.r2Key.Some?
    ensures s.db.manifest.value.tier == R2 && s.db.manifest.value.r2Key.value.cell <= s.db.committedCell
  {
    assert s.db.oplog[0].value.cell <= s.db.oplog[s.db.manifest.value.deltaSeq].value.cell;
  }

  /** And the object a new base replaces is removed. */
  lemma OldIsDeleted(w: World, s: State, j: Job, inR2: bool, t: State, deleted: bool)
    requires Inv(w, t) && t.phase.Deleting? && t.phase.ck.cell == j.cell && Stored(w, s, j, inR2, t)
    ensures var u := Step(w, t, OldDeleteReply(deleted));
      && u.phase.Idle? && ReadLive(u.db) == j.cell && u.db.lastDirtySrc == Some("") && Stored(w, s, j, inR2, u)
      && u.glue == t.glue && u.bucket == if deleted then t.bucket - {t.phase.stale} else t.bucket
  {
    hide DumpW4, ColdWake, StoredImage, DecodeRow, Chunks;
    var u := Step(w, t, OldDeleteReply(deleted));
    BucketFrame(w, t.db, t.bucket, u.bucket);
    SameTables(w, t.db, u.db, u.bucket);
  }

  lemma RunAnswers(w: World, s: State, read: R2Read, deleted: bool)
    ensures Run(w, s, Answers(read, deleted))
         == var u := Step(w, Step(w, Step(w, s, PutReply(true)), VerifyReply(read)), FsStaged);
            Step(w, Step(w, u, ManifestExported), OldDeleteReply(deleted))
  {
    hide Step;
    var es := Answers(read, deleted);
    var s1 := Step(w, s, es[0]);
    var s2 := Step(w, s1, es[1]);
    var s3 := Step(w, s2, es[2]);
    RunSplits(w, s, es);
    RunSplits(w, s1, es[1..]);
    RunSplits(w, s2, es[2..]);
    RunSplits(w, s3, es[3..]);
    RunSplits(w, Step(w, s3, es[3]), es[4..]);
  }

  lemma RunSplits(w: World, s: State, es: seq<Event>)
    requires es != []
    ensures Run(w, s, es) == Run(w, Step(w, s, es[0]), es[1..])
    ensures |es| == 1 ==> Run(w, s, es) == Step(w, s, es[0])
    ensures forall k :: 0 < k <= |es| ==> es[1..][k - 1..] == es[k..]
  {
    hide Step;
    if |es| == 1 { assert es[1..] == []; }
  }

  /** No answer reaches an idle session. */
  lemma IdlePassesOver(w: World, s: State, read: R2Read, deleted: bool)
    requires s.phase.Idle?
    ensures Run(w, s, Answers(read, deleted)) == s
  {
    hide DumpW4, ColdWake;
    RunAnswers(w, s, read, deleted);
  }

  lemma BegunOnTop(w: World, s: State, j: Job, t: State)
    requires Begun(w, s, j, t) && t.bucket == s.bucket
    ensures ManifestOk(w, s) && s.db.committedCell < j.cell && (t.phase.Putting? ==> !j.delta)
  {
    hide DumpW4, ColdWake, DecodeRow;
  }

  /**
   * A checkpoint under way whose waits are answered stores its job, leaves the session clean, and
   * leaves in the bucket its own base and not the one it replaces.
   */
  lemma AnswersStore(w: World, s: State, j: Job, t: State, read: R2Read, deleted: bool)
    requires Begun(w, s, j, t) && t.bucket == s.bucket
    requires if Large(w, s, j) then t.phase.Putting? else t.phase.Staging? && t.phase.tier == Sqlite
    ensures var u := Run(w, t, Answers(read, deleted));
      && Settled(w, s, j, deleted, u) && !IsDirty(u.db)
      && Stored(w, s, j, Large(w, s, j) && read == Got, u)
  {
    hide Step, DumpW4, Inv, Meaning, StoredImage, ManifestOk;
    RunAnswers(w, t, read, deleted);
    BegunOnTop(w, s, j, t);
    BaseIsUploaded(w, s, j, t, read);
    var t2 := Step(w, Step(w, t, PutReply(true)), VerifyReply(read));
    if j.delta { DeltaIsCommitted(w, s, j, t2); } else { BaseIsCommitted(w, s, j, t2); }
    var t3 := Step(w, t2, FsStaged);
    StepKeepsInv(w, t2, FsStaged);
    ManifestIsExported(w, s, j, t2.phase.tier == R2, t3);
    var t4 := Step(w, t3, ManifestExported);
    if t4.phase.Deleting? { OldIsDeleted(w, s, j, t2.phase.tier == R2, t4, deleted); }
    else { IdleStays(w, t4, deleted); }
  }

  lemma IdleStays(w: World, s: State, deleted: bool)
    requires s.phase.Idle?
    ensures Step(w, s, OldDeleteReply(deleted)) == s
  {
    hide DumpW4, ColdWake;
  }

  // ---- flush ---------------------------------------------------------------------------------

  /** Idle, with deferred cells in a live heap: the states a flush is for. */
  ghost predicate Deferred(w: World, s: State) {
    Inv(w, s) && Meaning(w, s) && s.phase.Idle? && s.glue.Some? && IsDirty(s.db)
  }

  /** The source a flush logs: that of the last deferred cell. */
  function FlushedSrc(db: Durable): string {
    if db.lastDirtySrc.Some? then db.lastDirtySrc.value else "/* engram warmBuffered flush */"
  }

  /** What a flush is to store: everything, as the last live cell, in one piece. */
  function FlushJob(db: Durable, raw: Image): Job {
    Job(ReadLive(db), FlushedSrc(db), false, false, raw)
  }

  lemma FlushBegins(w: World, s: State, raw: Image, usedHeap: nat)
    requires Deferred(w, s) && Enabled(w, s, StartFlush(raw, usedHeap))
    ensures var t := Step(w, s, StartFlush(raw, usedHeap));
      var j := FlushJob(s.db, raw);
      if Fits(s.glue.value.heap, usedHeap) then
        && Begun(w, s, j, t) && t.bucket == s.bucket
        && if Large(w, s, j) then t.phase.Putting? else t.phase.Staging? && t.phase.tier == Sqlite
      else t == s
  {
    hide ColdWake, StoredImage, DecodeRow, DumpW4, BeginCheckpoint;
    StartFlushKeepsInv(w, s, StartFlush(raw, usedHeap));
    FlushKeepsMeaning(w, s, StartFlush(raw, usedHeap));
    CheckpointBegins(w, s, ReadLive(s.db), FlushedSrc(s.db), false, raw, usedHeap);
  }

  /**
   * From every reachable state with deferred cells in a live heap: when the used heap is under
   * 24 MB and the buffer under 55 MB, a flush whose requests are answered commits exactly what the
   * heap holds as the last live cell, and leaves nothing dirty; when not, it changes nothing. The
   * base is in R2 when it compresses to more than 8 MB and the read-back found it, and otherwise
   * whole in the chunk rows.
   */
  lemma FlushStoresTheHeap(w: World, s: State, raw: Image, usedHeap: nat, read: R2Read, deleted: bool)
    requires Deferred(w, s) && Enabled(w, s, StartFlush(raw, usedHeap))
    ensures var t := Run(w, s, [StartFlush(raw, usedHeap)] + Answers(read, deleted));
      if Fits(s.glue.value.heap, usedHeap) then
        && Settled(w, s, FlushJob(s.db, raw), deleted, t) && !IsDirty(t.db) && t.db.committedCell == ReadLive(s.db)
        && History(w, t) == w.denotes(s.glue.value.heap)
        && Stored(w, s, FlushJob(s.db, raw), Large(w, s, FlushJob(s.db, raw)) && read == Got, t)
      else t == s && IsDirty(t.db)
  {
    hide Step, DumpW4, Inv, Meaning, StoredImage;
    var t := Step(w, s, StartFlush(raw, usedHeap));
    var es := [StartFlush(raw, usedHeap)] + Answers(read, deleted);
    assert es[1..] == Answers(read, deleted);
    RunSplits(w, s, es);
    FlushBegins(w, s, raw, usedHeap);
    if Fits(s.glue.value.heap, usedHeap) { AnswersStore(w, s, FlushJob(s.db, raw), t, read, deleted); }
    else { IdlePassesOver(w, s, read, deleted); }
  }

  // ---- eval ----------------------------------------------------------------------------------

  /** The state of the evaluated heap, before anything is done about it. */
  function Ran(s: State, image: Image): State
    requires s.glue.Some?
  {
    s.(glue := Some(s.glue.value.(heap := image)))
  }

  function EvalJob(s: State, raw: Image, delta: bool): Job
    requires s.phase.Evaluating?
  {
    Job(s.phase.cell, s.phase.src, true, delta, raw)
  }

  lemma EvalBegins(w: World, s: State, e: Event)
    requires Inv(w, s) && Meaning(w, s) && Enabled(w, s, e) && e.EvalDone? && (!s.phase.buffered || e.artifacts)
    ensures var t := Step(w, s, e);
      var j := EvalJob(s, e.raw, Appends(w, Ran(s, e.image), e.raw));
      if Fits(e.image, e.usedHeap) then
        && Begun(w, s, j, t) && t.bucket == s.bucket
        && if Large(w, s, j) then t.phase.Putting? else t.phase.Staging? && t.phase.tier == Sqlite
      else t == Ran(s, e.image).(phase := Idle)
  {
    hide ColdWake, StoredImage, DecodeRow, DumpW4, BeginCheckpoint;
    EvalDoneKeepsInv(w, s, e);
    EvalKeepsMeaning(w, s, e);
    CheckpointBegins(w, Ran(s, e.image), s.phase.cell, s.phase.src, true, e.raw, e.usedHeap);
  }

  /**
   * An eval that is not deferred, under the same ceilings and with its requests answered, commits
   * the heap with its own cell as the last one; over them the cell stays in the heap alone.
   */
  lemma EvalStoresItsCell(w: World, s: State, e: Event, read: R2Read, deleted: bool)
    requires Inv(w, s) && Meaning(w, s) && Enabled(w, s, e) && e.EvalDone? && (!s.phase.buffered || e.artifacts)
    ensures var t := Run(w, s, [e] + Answers(read, deleted));
      var j := EvalJob(s, e.raw, Appends(w, Ran(s, e.image), e.raw));
      if Fits(e.image, e.usedHeap) then
        && Settled(w, s, j, deleted, t) && !IsDirty(t.db) && t.db.committedCell == s.phase.cell
        && History(w, t) == w.denotes(s.glue.value.heap) + [Cell(s.phase.cell, s.phase.src)]
        && Stored(w, s, j, Large(w, s, j) && read == Got, t)
      else t == Ran(s, e.image).(phase := Idle)
  {
    hide Step, DumpW4, Inv, Meaning, StoredImage;
    var es := [e] + Answers(read, deleted);
    assert es[1..] == Answers(read, deleted);
    RunSplits(w, s, es);
    EvalBegins(w, s, e);
    var j := EvalJob(s, e.raw, Appends(w, Ran(s, e.image), e.raw));
    if Fits(e.image, e.usedHeap) { AnswersStore(w, s, j, Step(w, s, e), read, deleted); }
    else { IdlePassesOver(w, Step(w, s, e), read, deleted); }
  }

  /** A deferred eval touches nothing stored, and is what the next flush will log. */
  lemma EvalDefers(w: World, s: State, e: Event)
    requires Inv(w, s) && Meaning(w, s) && Enabled(w, s, e) && e.EvalDone? && s.phase.buffered && !e.artifacts
    ensures var t := Step(w, s, e);
      && Deferred(w, t) && t.bucket == s.bucket
      && t.db == s.db.(liveCell := Some(s.phase.cell), lastDirtySrc := Some(s.phase.src))
      && History(w, t) == History(w, s) && StoredImage(w, t.db, t.bucket) == StoredImage(w, s.db, s.bucket)
      && ReadLive(t.db) == s.phase.cell && FlushedSrc(t.db) == s.phase.src
      && w.denotes(t.glue.value.heap) == w.denotes(s.glue.value.heap) + [Cell(s.phase.cell, s.phase.src)]
  {
    hide DumpW4, ColdWake, StoredImage, DecodeRow;
    EvalDoneKeepsInv(w, s, e);
    EvalKeepsMeaning(w, s, e);
    SameTables(w, s.db, Step(w, s, e).db, s.bucket);
  }

  /** Deferring a cell and flushing later commits it and everything deferred before it. */
  lemma DeferredCellIsFlushed(w: World, s: State, e: Event, raw: Image, usedHeap: nat, read: R2Read, deleted: bool)
    requires Inv(w, s) && Meaning(w, s) && Enabled(w, s, e) && e.EvalDone? && s.phase.buffered && !e.artifacts
    requires Enabled(w, Step(w, s, e), StartFlush(raw, usedHeap)) && Fits(e.image, usedHeap)
    ensures var t := Run(w, Step(w, s, e), [StartFlush(raw, usedHeap)] + Answers(read, deleted));
      && t.phase.Idle? && !IsDirty(t.db) && t.db.committedCell == s.phase.cell
      && History(w, t) == w.denotes(s.glue.value.heap) + [Cell(s.phase.cell, s.phase.src)]
      && t.db.oplog == [Row(0, OplogRow(s.phase.cell, s.phase.src))]
  {
    hide DumpW4, ColdWake, StoredImage, DecodeRow, BeginCheckpoint, Inv, Meaning;
    EvalDefers(w, s, e);
    FlushStoresTheHeap(w, Step(w, s, e), raw, usedHeap, read, deleted);
  }

  // ---- what takes the dirty mark off ---------------------------------------------------------

  /**
   * As long as the heap lives, only a commit of what it holds takes the dirty mark off: a step
   * after which the session is no longer dirty has the heap's cells as its committed history, or
   * is a reset.
   */
  lemma CleanMeansCommitted(w: World, s: State, e: Event)
    requires Inv(w, s) && Meaning(w, s) && s.glue.Some? && IsDirty(s.db) && !IsReset(e)
    ensures IsDirty(Step(w, s, e).db) || History(w, Step(w, s, e)) == w.denotes(s.glue.value.heap)
  {
    hide DumpW4, ColdWake, StoredImage, DecodeRow;
    if Enabled(w, s, e) {
      if e.FsStaged? { CommitExtends(w, s); }
      else if e.ManifestExported? { ExportKeepsMeaning(w, s); }
      else if e.OldDeleteReply? { BucketStepKeepsHistory(w, s, e); }
    }
  }
}
