/**
 * The durable checkpoint protocol of KernelDO (apps/kernel/src/lib.rs) with the dump and restore
 * half of the glue (apps/kernel/src/kernel-glue.ts), as a state machine. One event is one stretch
 * of code between two awaits, or the arrival of something that needs no mutex: a crash, an evict,
 * a remote request taking effect. Events that do not apply leave the state alone, so every
 * sequence of events is a run.
 */
module Checkpoint {
  import opened Prelude
  import opened W4Delta
  import opened SqlTable

  const BASE_EVERY: int := 20
  const MB: nat := 1024 * 1024
  const SQLITE_HOT_MAX: nat := 8 * MB
  const CHUNK_BYTES: nat := 64 * 1024
  const RAW_CEILING: nat := 60 * MB
  const USED_CEILING: nat := 50 * MB
  const INCOMPRESSIBLE_CEILING: nat := 24 * MB
  const SCRATCH_DELTA: nat := 31 * MB
  const NO_RETAIN_ALWAYS: nat := 63 * MB
  const NO_RETAIN_FULL: nat := 16 * MB
  const DELTA_MAX_BLOB: nat := 1_400_000

  // ---- what the kernel is built on -----------------------------------------------------------

  datatype Codec = Gzip | Zstd

  /** One executed cell: its number and its source. */
  datatype Cell = Cell(number: int, src: string)

  /**
   * The foreign parts, as arbitrary functions: compression by tag, the image checksum, and which
   * cells have run in the heap a memory image holds.
   */
  datatype WorldFns = WorldFns(
    compress: (Codec, bytes) -> bytes,
    decompress: (Codec, bytes) -> Option<bytes>,
    crc: bytes -> int,
    denotes: bytes -> seq<Cell>)

  ghost predicate CodecsInvert(w: WorldFns) {
    forall c, x :: w.decompress(c, w.compress(c, x)) == Some(x)
  }

  type World = w: WorldFns | CodecsInvert(w)
    ghost witness WorldFns((c, x) => x, (c, x) => Some(x), x => 0, x => [])

  /** The code that is deployed: its engine hash, and the codec its dumps use. */
  datatype Build = Build(engineHash: nat, snapCodec: Codec)

  // ---- durable state -------------------------------------------------------------------------

  datatype Tier = Sqlite | R2

  /** An R2 snapshot key; the source prints it as e<epoch>-c<cell>. */
  datatype Key = Key(epoch: int, cell: int)

  type Bucket = map<Key, bytes>

  datatype DeltaRow = DeltaRow(payload: bytes, indices: bytes, codec: Codec)

  datatype OplogRow = OplogRow(cell: int, src: string)

  datatype Manifest = Manifest(
    cell: int, epoch: int, nChunks: int, sizeRaw: int, finalCrc: int, usedHeap: int,
    tier: Tier, r2Key: Option<Key>, deltaSeq: int, snapCodec: Codec, engineHash: nat)

  datatype Durable = Durable(
    chunks: Table<bytes>,
    deltas: Table<DeltaRow>,
    oplog: Table<OplogRow>,
    manifest: Option<Manifest>,
    epoch: int,
    committedCell: int,
    liveCell: Option<int>,
    lastDirtySrc: Option<string>)

  // ---- volatile state ------------------------------------------------------------------------

  /** A live kernel: its memory, the image its next delta starts from, and the staged image. */
  datatype Glue = Glue(heap: bytes, base: Option<bytes>, pending: Option<bytes>)

  datatype Dump = Dump(
    delta: bool, gz: bytes, indicesGz: bytes, codec: Codec, sizeRaw: nat, crc: int, usedHeap: nat)

  /** A checkpoint in progress. The image is carried for the specification only. */
  datatype Ck = Ck(
    cell: int, epoch: int, src: string, eager: bool, prev: Option<Manifest>, dump: Dump, image: bytes)

  /** Where the one mutex holder is suspended. */
  datatype Phase =
    | Idle
    | Waking(cell: int, src: string, buffered: bool)      // ensure_glue inside eval_critical
    | Evaluating(cell: int, src: string, buffered: bool)  // eval_code
    | Putting(ck: Ck)                                     // PUT of a large base
    | Verifying(ck: Ck)                                   // GET after the PUT
    | Staging(ck: Ck, tier: Tier)                         // flush_staged_fs, then the transaction
    | Exporting(ck: Ck, tier: Tier)                       // export_manifest, after the transaction
    | Deleting(ck: Ck, stale: Key)                        // removal of the replaced object
    | Resetting(stale: Key)                               // removal of the object reset forgot

  datatype State = State(db: Durable, bucket: Bucket, build: Build, glue: Option<Glue>, phase: Phase)

  function Init(build: Build): State {
    State(Durable([], [], [], None, 0, -1, None, None), map[], build, None, Idle)
  }

  // ---- cell counters -------------------------------------------------------------------------

  function ReadLive(db: Durable): int {
    if db.liveCell.Some? then db.liveCell.value else db.committedCell
  }

  function NextCell(db: Durable): int {
    Max(db.committedCell, ReadLive(db)) + 1
  }

  predicate IsDirty(db: Durable) {
    ReadLive(db) > db.committedCell
  }

  function MarkClean(db: Durable, cell: int): Durable {
    db.(liveCell := Some(cell), lastDirtySrc := Some(""))
  }

  function MarkDirty(db: Durable, cell: int, src: string): Durable {
    db.(liveCell := Some(cell), lastDirtySrc := Some(src))
  }

  // ---- the stored blob and its chunks --------------------------------------------------------

  /** bytes.chunks(CHUNK_BYTES) */
  function Chunks(b: bytes): (r: seq<bytes>)
    ensures forall c | c in r :: 0 < |c| <= CHUNK_BYTES
  {
    if |b| <= CHUNK_BYTES then (if b == [] then [] else [b])
    else [b[..CHUNK_BYTES]] + Chunks(b[CHUNK_BYTES..])
  }

  lemma {:induction false} ChunksRejoin(b: bytes)
    ensures Concat(Chunks(b)) == b
  {
    if |b| <= CHUNK_BYTES {
      if b != [] { assert Concat([b]) == b + Concat([]); }
    } else {
      ChunksRejoin(b[CHUNK_BYTES..]);
      assert Chunks(b)[1..] == Chunks(b[CHUNK_BYTES..]);
    }
  }

  function Numbered<T>(values: seq<T>): (r: Table<T>)
    ensures Rows(r) == values && Dense(r, |values|)
  {
    seq(|values|, i requires 0 <= i < |values| => Row(i, values[i]))
  }

  datatype LoadError = ChunkCountMismatch | DeltaCountMismatch | ObjectMissing

  /** read_chunks */
  function ReadChunks(db: Durable, nChunks: int): Result<bytes, LoadError> {
    if |db.chunks| != nChunks then Err(ChunkCountMismatch) else Ok(Concat(Rows(db.chunks)))
  }

  /** read_delta_chain: an empty chain is not read at all. */
  function ReadDeltaChain(db: Durable, deltaSeq: int): Result<seq<DeltaRow>, LoadError> {
    if deltaSeq <= 0 then Ok([])
    else if |db.deltas| != deltaSeq then Err(DeltaCountMismatch)
    else Ok(Rows(db.deltas))
  }

  function BaseBlob(db: Durable, bucket: Bucket, m: Manifest): Result<bytes, LoadError> {
    if m.tier == R2 then
      if m.r2Key.Some? && m.r2Key.value in bucket then Ok(bucket[m.r2Key.value]) else Err(ObjectMissing)
    else ReadChunks(db, m.nChunks)
  }

  // ---- restore_w4 ----------------------------------------------------------------------------

  /** A delta row, each blob opened with the row's own codec tag. */
  function DecodeRow(w: World, row: DeltaRow): (r: Option<Delta>)
    ensures r.Some? ==> WellFormed(r.value)
  {
    var payload := w.decompress(row.codec, row.payload);
    var indices := w.decompress(row.codec, row.indices);
    if payload.None? || indices.None? then None
    else
      var d := Delta(DecodeIndices(indices.value), payload.value);
      if |d.payload| == |d.indices| * GRAIN then Some(d) else None
  }

  function DecodeRows(w: World, rows: seq<DeltaRow>): (r: Option<seq<Delta>>)
    ensures r.Some? ==> AllWellFormed(r.value)
  {
    if rows == [] then Some([])
    else
      var front := DecodeRows(w, rows[..|rows| - 1]);
      var last := DecodeRow(w, rows[|rows| - 1]);
      if front.None? || last.None? then None else Some(front.value + [last.value])
  }

  /** restore_w4 up to the live instance: rebuild, then check length, checksum and admission. */
  ghost function RestoreW4(w: World, m: Manifest, blob: bytes, rows: seq<DeltaRow>): Option<bytes> {
    var base := w.decompress(m.snapCodec, blob);
    var ds := DecodeRows(w, rows);
    if base.None? || ds.None? then None
    else
      var image := Reconstruct(base.value, ds.value);
      if m.sizeRaw > 0 && m.finalCrc != 0
         && (|image| < m.sizeRaw || w.crc(image[..m.sizeRaw]) != m.finalCrc) then None
      else if m.usedHeap > USED_CEILING || |image| > RAW_CEILING then None
      else Some(image)
  }

  /** What the stored tables rebuild, when everything they name can be read. */
  ghost function StoredImage(w: World, db: Durable, bucket: Bucket): Option<bytes> {
    if db.manifest.None? then None
    else
      var m := db.manifest.value;
      var blob := BaseBlob(db, bucket, m);
      var rows := ReadDeltaChain(db, m.deltaSeq);
      if blob.Err? || rows.Err? then None else RestoreW4(w, m, blob.value, rows.value)
  }

  // ---- dump_w4 and commit_dump ---------------------------------------------------------------

  ghost function DumpFull(w: World, codec: Codec, g: Glue, raw: bytes, usedHeap: nat): (Glue, Dump) {
    var dump := Dump(false, w.compress(codec, raw), [], codec, |raw|, w.crc(raw), usedHeap);
    if |raw| > NO_RETAIN_FULL then (Glue(raw, None, None), dump)
    else (Glue(raw, g.base, Some(raw)), dump)
  }

  /**
   * dumpW4: admission on the buffer and the used heap, then a delta when there is a base, nothing
   * forces a full image, few enough grains changed and both blobs fit a row. `raw` is memory
   * after the compaction that serialization may run.
   */
  ghost function DumpW4(w: World, codec: Codec, g: Glue, force: bool, raw: Image, usedHeap: nat)
    : Option<(Glue, Dump)>
  {
    if |g.heap| > RAW_CEILING || usedHeap > USED_CEILING
       || Max(usedHeap, |g.heap| - SCRATCH_DELTA) >= INCOMPRESSIBLE_CEILING then None
    else if |raw| > NO_RETAIN_ALWAYS then
      Some((Glue(raw, None, None), DumpFull(w, codec, g, raw, usedHeap).1))
    else if !force && g.base.Some? && |raw| >= |g.base.value| && |raw| < TWO32 then
      var d := MakeDelta(g.base.value, raw);
      if |d.indices| * GRAIN * 2 >= |raw| then Some(DumpFull(w, codec, g, raw, usedHeap))
      else
        var payload := w.compress(codec, d.payload);
        IndicesFit(g.base.value, raw);
        var indices := w.compress(codec, EncodeIndices(d.indices));
        if |payload| <= DELTA_MAX_BLOB && |indices| <= DELTA_MAX_BLOB then
          Some((Glue(raw, g.base, Some(raw)),
                Dump(true, payload, indices, codec, |raw|, w.crc(raw), usedHeap)))
        else Some(DumpFull(w, codec, g, raw, usedHeap))
    else Some(DumpFull(w, codec, g, raw, usedHeap))
  }

  lemma IndicesFit(prev: bytes, raw: bytes)
    requires |prev| <= |raw| < TWO32
    ensures AllU32(MakeDelta(prev, raw).indices)
  {
    ChangedBelowSpec(prev, raw, GrainCount(|raw|));
    var changed := Changed(prev, raw);
    assert forall k :: 0 <= k < |changed| ==> changed[k] in changed;
  }

  function CommitDump(g: Glue): Glue {
    if g.pending.Some? then g.(base := g.pending, pending := None) else g
  }

  // ---- ensure_glue ---------------------------------------------------------------------------

  datatype R2Read = Got | Unavailable

  /**
   * What the environment decides during a wake: whether R2 answers, whether the sanity probe
   * passes, and the memory a fresh or replayed kernel ends up with (None when that fails).
   */
  datatype Wake = Wake(r2: R2Read, probeOk: bool, other: Option<Image>)

  function Replay(s: State, c: Wake, keptBase: Option<bytes>): Option<Glue> {
    if c.other.None? then None else Some(Glue(c.other.value, keptBase, None))
  }

  /** The kernel a cold wake ends with, or None when the frame fails. */
  ghost function ColdWake(w: World, s: State, c: Wake): Option<Glue> {
    if s.db.manifest.None? then Replay(s, c, None)
    else
      var m := s.db.manifest.value;
      var blob := BaseBlob(s.db, s.bucket, m);
      if m.tier == R2 && (c.r2 != Got || blob.Err?) then Replay(s, c, None)
      else if blob.Err? then None
      else if m.engineHash != s.build.engineHash then Replay(s, c, None)
      else
        var rows := ReadDeltaChain(s.db, m.deltaSeq);
        if rows.Err? then None
        else
          var image := RestoreW4(w, m, blob.value, rows.value);
          if image.None? then Replay(s, c, None)
          else if !c.probeOk then Replay(s, c, image)  // the glue kept the image it rebuilt
          else Some(Glue(image.value, image, None))
  }

  ghost function EnsureGlue(w: World, s: State, c: Wake): Option<State> {
    if s.glue.Some? then Some(s)
    else
      var g := ColdWake(w, s, c);
      if g.None? then None
      else Some(s.(glue := g, db := if IsDirty(s.db) then MarkClean(s.db, s.db.committedCell) else s.db))
  }

  // ---- checkpoint_impl -----------------------------------------------------------------------

  function NewKey(ck: Ck): Key { Key(ck.epoch, ck.cell) }

  /** The first stretch: read the manifest, decide force_full, dump, choose the path. */
  ghost function BeginCheckpoint(
    w: World, s: State, cell: int, src: string, eager: bool, raw: Image, usedHeap: nat): State
    requires s.glue.Some?
  {
    var prev := s.db.manifest;
    var force := !eager || prev.None? || prev.value.deltaSeq + 1 >= BASE_EVERY;
    match DumpW4(w, s.build.snapCodec, s.glue.value, force, raw, usedHeap)
    case None => s.(phase := Idle)
    case Some((g, dump)) =>
      var d := dump.(delta := dump.delta && prev.Some?);
      var ck := Ck(cell, s.db.epoch, src, eager, prev, d, raw);
      s.(glue := Some(g),
         phase := if !d.delta && |d.gz| > SQLITE_HOT_MAX then Putting(ck) else Staging(ck, Sqlite))
  }

  /** The delta transaction, from the manifest captured before the dump. */
  function CommitDelta(db: Durable, ck: Ck): Option<Durable>
    requires ck.prev.Some?
  {
    var pm := ck.prev.value;
    var deltas := Insert(db.deltas, pm.deltaSeq, DeltaRow(ck.dump.gz, ck.dump.indicesGz, ck.dump.codec));
    var oplog := Insert(db.oplog, pm.deltaSeq + 1, OplogRow(ck.cell, ck.src));
    if deltas.None? || oplog.None? then None
    else Some(db.(
      deltas := deltas.value,
      oplog := oplog.value,
      manifest := Some(Manifest(ck.cell, ck.epoch, pm.nChunks, ck.dump.sizeRaw, ck.dump.crc, ck.dump.usedHeap,
                                pm.tier, pm.r2Key, pm.deltaSeq + 1, pm.snapCodec, pm.engineHash)),
      committedCell := ck.cell))
  }

  /** The full transaction: a new base, an empty chain, and an oplog of this cell alone. */
  function CommitFull(db: Durable, build: Build, ck: Ck, tier: Tier): Durable {
    var chunks := if tier == R2 then [] else Chunks(ck.dump.gz);
    db.(
      chunks := Numbered(chunks),
      deltas := [],
      oplog := [Row(0, OplogRow(ck.cell, ck.src))],
      manifest := Some(Manifest(ck.cell, ck.epoch, |chunks|, ck.dump.sizeRaw, ck.dump.crc, ck.dump.usedHeap,
                                tier, if tier == R2 then Some(NewKey(ck)) else None, 0,
                                ck.dump.codec, build.engineHash)),
      committedCell := ck.cell)
  }

  function Transact(db: Durable, build: Build, ck: Ck, tier: Tier): Option<Durable> {
    if ck.dump.delta && ck.prev.Some? then CommitDelta(db, ck) else Some(CommitFull(db, build, ck, tier))
  }

  /** The object a full checkpoint replaces, when it is not the one just written. */
  function Replaced(ck: Ck, tier: Tier): Option<Key> {
    if ck.dump.delta || ck.prev.None? || ck.prev.value.tier != R2 || ck.prev.value.r2Key.None? then None
    else if tier == R2 && ck.prev.value.r2Key.value == NewKey(ck) then None
    else ck.prev.value.r2Key
  }

  /** The tail shared by eval and flush: the checkpoint succeeded. */
  function Finish(s: State, ck: Ck): State {
    s.(db := MarkClean(s.db, ck.cell), phase := Idle)
  }

  // ---- reset_critical ------------------------------------------------------------------------

  function ClearTables(db: Durable): Durable {
    db.(chunks := [], deltas := [], oplog := [], manifest := None)
  }

  function FinishResetOf(s: State): State {
    s.(db := MarkClean(s.db.(epoch := s.db.epoch + 1, committedCell := -1), -1), phase := Idle)
  }

  // ---- events and steps ----------------------------------------------------------------------

  datatype Event =
    | Crash(build: Build)
    | EvictFrame
    | CreateFrame(wake: Wake)
    | StartEval(src: string, buffered: bool)
    | WakeForEval(wake: Wake)
    | EvalDone(image: Image, raw: Image, usedHeap: nat, artifacts: bool)
    | StartFlush(raw: Image, usedHeap: nat)
    | PutLands
    | PutReply(ok: bool)
    | VerifyReply(read: R2Read)
    | FsStaged
    | ManifestExported
    | OldDeleteLands
    | OldDeleteReply(ok: bool)
    | StartReset
    | ResetDeleteLands
    | FinishReset(ok: bool)

  /**
   * When an event can happen. Evaluation may only grow memory and adds exactly its cell to what
   * the memory holds; the compaction before a dump changes neither size nor meaning.
   */
  predicate Enabled(w: World, s: State, e: Event) {
    match e
    case Crash(_) => true
    case EvictFrame => true
    case CreateFrame(_) => s.phase.Idle?
    case StartEval(_, _) => s.phase.Idle?
    case WakeForEval(_) => s.phase.Waking?
    case EvalDone(image, raw, _, _) =>
      && s.phase.Evaluating? && s.glue.Some?
      && |image| >= |s.glue.value.heap| && |raw| == |image|
      && w.denotes(image) == w.denotes(s.glue.value.heap) + [Cell(s.phase.cell, s.phase.src)]
      && w.denotes(raw) == w.denotes(image)
    case StartFlush(raw, _) =>
      && s.phase.Idle?
      && (s.glue.Some? ==> |raw| == |s.glue.value.heap| && w.denotes(raw) == w.denotes(s.glue.value.heap))
    case PutLands => s.phase.Putting?
    case PutReply(_) => s.phase.Putting?
    case VerifyReply(_) => s.phase.Verifying?
    case FsStaged => s.phase.Staging?
    case ManifestExported => s.phase.Exporting?
    case OldDeleteLands => s.phase.Deleting?
    case OldDeleteReply(_) => s.phase.Deleting?
    case StartReset => s.phase.Idle?
    case ResetDeleteLands => s.phase.Resetting?
    case FinishReset(_) => s.phase.Resetting?
  }

  ghost function Step(w: World, s: State, e: Event): State {
    if !Enabled(w, s, e) then s
    else match e
    case Crash(build) => s.(build := build, glue := None, phase := Idle)
    case EvictFrame => s.(glue := None, phase := if s.phase.Evaluating? then Idle else s.phase)
    case CreateFrame(c) =>
      var r := EnsureGlue(w, s, c);
      if r.None? then s else r.value
    case StartEval(src, buffered) => s.(phase := Waking(NextCell(s.db), src, buffered))
    case WakeForEval(c) =>
      var r := EnsureGlue(w, s, c);
      if r.None? then s.(phase := Idle)
      else r.value.(phase := Evaluating(s.phase.cell, s.phase.src, s.phase.buffered))
    case EvalDone(image, raw, usedHeap, artifacts) =>
      var ran := s.(glue := Some(s.glue.value.(heap := image)));
      if s.phase.buffered && !artifacts then
        ran.(db := MarkDirty(s.db, s.phase.cell, s.phase.src), phase := Idle)
      else BeginCheckpoint(w, ran, s.phase.cell, s.phase.src, true, raw, usedHeap)
    case StartFlush(raw, usedHeap) =>
      if !IsDirty(s.db) then s
      else if s.glue.None? then s.(db := MarkClean(s.db, s.db.committedCell))
      else
        var src := if s.db.lastDirtySrc.Some? then s.db.lastDirtySrc.value else "/* engram warmBuffered flush */";
        BeginCheckpoint(w, s, ReadLive(s.db), src, false, raw, usedHeap)
    case PutLands => s.(bucket := s.bucket[NewKey(s.phase.ck) := s.phase.ck.dump.gz])
    case PutReply(ok) =>
      if ok then s.(bucket := s.bucket[NewKey(s.phase.ck) := s.phase.ck.dump.gz], phase := Verifying(s.phase.ck))
      else s.(phase := Idle)
    case VerifyReply(r) => s.(phase := Staging(s.phase.ck, if r == Got then R2 else Sqlite))
    case FsStaged =>
      var db := Transact(s.db, s.build, s.phase.ck, s.phase.tier);
      if db.None? then s.(phase := Idle)
      else s.(db := db.value, phase := Exporting(s.phase.ck, s.phase.tier))
    case ManifestExported =>
      var t := s.(glue := if s.glue.Some? then Some(CommitDump(s.glue.value)) else None);
      var stale := Replaced(s.phase.ck, s.phase.tier);
      if stale.Some? then t.(phase := Deleting(s.phase.ck, stale.value)) else Finish(t, s.phase.ck)
    case OldDeleteLands => s.(bucket := s.bucket - {s.phase.stale})
    case OldDeleteReply(ok) =>
      Finish(if ok then s.(bucket := s.bucket - {s.phase.stale}) else s, s.phase.ck)
    case StartReset =>
      var t := s.(db := ClearTables(s.db), glue := None);
      if s.db.manifest.Some? && s.db.manifest.value.tier == R2 && s.db.manifest.value.r2Key.Some?
      then t.(phase := Resetting(s.db.manifest.value.r2Key.value))
      else FinishResetOf(t)
    case ResetDeleteLands => s.(bucket := s.bucket - {s.phase.stale})
    case FinishReset(ok) => FinishResetOf(if ok then s.(bucket := s.bucket - {s.phase.stale}) else s)
  }

  ghost function Run(w: World, s: State, es: seq<Event>): State
    decreases |es|
  {
    if es == [] then s else Run(w, Step(w, s, es[0]), es[1..])
  }
}
