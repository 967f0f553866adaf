/**
 * KernelDO as the source has it: an object whose methods update SQLite tables, meta counters, the
 * R2 bucket and the live kernel. Each method is the code between two awaits and is proved to take
 * exactly the protocol step of its event.
 */
module KernelObject {
  import opened Prelude
  import opened W4Delta
  import opened SqlTable
  import opened Checkpoint
  import opened CheckpointSafety
  import opened CheckpointFlush

  /** dumpW4's full branch. */
  method EmitFull(w: World, codec: Codec, g: Glue, raw: Image, usedHeap: nat) returns (g': Glue, dump: Dump)
    ensures (g', dump) == DumpFull(w, codec, g, raw, usedHeap)
  {
    var gz := w.compress(codec, raw);
    var imageCrc := w.crc(raw);
    g' := g.(heap := raw);
    if |raw| > NO_RETAIN_FULL {
      g' := g'.(base := None, pending := None);
    } else {
      g' := g'.(pending := Some(raw));
    }
    dump := Dump(false, gz, [], codec, |raw|, imageCrc, usedHeap);
  }

  /** dumpW4 */
  method DumpImage(w: World, codec: Codec, g: Glue, force: bool, raw: Image, usedHeap: nat)
    returns (r: Option<(Glue, Dump)>)
    ensures r == DumpW4(w, codec, g, force, raw, usedHeap)
  {
    if |g.heap| > RAW_CEILING || usedHeap > USED_CEILING {
      return None;
    }
    if Max(usedHeap, |g.heap| - SCRATCH_DELTA) >= INCOMPRESSIBLE_CEILING {
      return None;
    }
    if |raw| > NO_RETAIN_ALWAYS {
      var _, full := EmitFull(w, codec, g, raw, usedHeap);
      return Some((Glue(raw, None, None), full));
    }
    if !force && g.base.Some? && |raw| >= |g.base.value| && |raw| < TWO32 {
      var prev := g.base.value;
      var changed := DiffGrains(prev, raw);
      IndicesFit(prev, raw);
      ChangedBelowSpec(prev, raw, GrainCount(|raw|));
      var dense := |changed| * GRAIN * 2 >= |raw|;
      if !dense {
        var buffer := CopyGrains(raw, changed);
        var payload := w.compress(codec, buffer[..]);
        var indices := w.compress(codec, EncodeIndices(changed));
        if |payload| <= DELTA_MAX_BLOB && |indices| <= DELTA_MAX_BLOB {
          return Some((Glue(raw, g.base, Some(raw)),
                       Dump(true, payload, indices, codec, |raw|, w.crc(raw), usedHeap)));
        }
      }
    }
    var g', full := EmitFull(w, codec, g, raw, usedHeap);
    r := Some((g', full));
  }

  /** restoreW4's decode loop over the stored rows. */
  method DecodeChain(w: World, rows: seq<DeltaRow>) returns (r: Option<seq<Delta>>)
    ensures r == DecodeRows(w, rows)
  {
    var ds: seq<Delta> := [];
    for i := 0 to |rows|
      invariant DecodeRows(w, rows[..i]) == Some(ds)
    {
      assert rows[..i + 1][..i] == rows[..i];
      var d := DecodeRow(w, rows[i]);
      if d.None? {
        NoneIsFinal(w, rows, i + 1);
        return None;
      }
      ds := ds + [d.value];
    }
    assert rows[..|rows|] == rows;
    r := Some(ds);
  }

  lemma {:induction false} NoneIsFinal(w: World, rows: seq<DeltaRow>, n: nat)
    requires n <= |rows| && DecodeRows(w, rows[..n]).None?
    ensures DecodeRows(w, rows).None?
    decreases |rows|
  {
    if n == |rows| {
      assert rows[..n] == rows;
    } else {
      var front := rows[..|rows| - 1];
      assert front[..n] == rows[..n];
      NoneIsFinal(w, front, n);
    }
  }

  /** restoreW4 */
  method RestoreImage(w: World, m: Manifest, blob: bytes, rows: seq<DeltaRow>) returns (r: Option<bytes>)
    ensures r == RestoreW4(w, m, blob, rows)
  {
    var base := w.decompress(m.snapCodec, blob);
    if base.None? { return None; }
    var ds := DecodeChain(w, rows);
    if ds.None? { return None; }
    var rebuilt := RebuildImage(base.value, ds.value);
    var image := rebuilt[..];
    if m.sizeRaw > 0 && m.finalCrc != 0 {
      if |image| < m.sizeRaw { return None; }
      var got := w.crc(image[..m.sizeRaw]);
      if got != m.finalCrc { return None; }
    }
    if m.usedHeap > USED_CEILING || |image| > RAW_CEILING { return None; }
    r := Some(image);
  }

  // ---- what the longer methods have to reach -------------------------------------------------

  /** The step that commits. */
  lemma CommitStep(w: World, s: State)
    requires Inv(w, s) && s.phase.Staging?
    ensures var ck, db := s.phase.ck, Transact(s.db, s.build, s.phase.ck, s.phase.tier);
      && db.Some? && Step(w, s, FsStaged) == s.(db := db.value, phase := Exporting(ck, s.phase.tier))
      && Inv(w, Step(w, s, FsStaged)) && StoredImage(w, db.value, s.bucket) == Some(ck.image)
  {
    FsStagedKeepsInv(w, s);
    TransactionStores(w, s);
  }

  lemma ResetStep(w: World, s: State)
    requires s.phase.Idle?
    ensures var t := s.(db := ClearTables(s.db), glue := None);
      Step(w, s, StartReset)
      == if s.db.manifest.Some? && s.db.manifest.value.tier == R2 && s.db.manifest.value.r2Key.Some?
         then t.(phase := Resetting(s.db.manifest.value.r2Key.value)) else FinishResetOf(t)
  {
  }

  /** The chunk at the loop's position is the next one. */
  lemma NextChunk(blob: bytes, at: nat, n: nat)
    requires at < |blob| && n <= |Chunks(blob)| && Chunks(blob)[n..] == Chunks(blob[at..])
    ensures var end := Min(at + CHUNK_BYTES, |blob|);
      && n < |Chunks(blob)| && Chunks(blob)[n] == blob[at..end] && Chunks(blob)[n + 1..] == Chunks(blob[end..])
  {
    var rest, end := blob[at..], Min(at + CHUNK_BYTES, |blob|);
    assert rest[..end - at] == blob[at..end] && rest[end - at..] == blob[end..] && rest[..|rest|] == rest;
    assert Chunks(rest) == [blob[at..end]] + Chunks(blob[end..]);
    assert Chunks(blob)[n] == Chunks(blob)[n..][0];
    assert Chunks(blob)[n + 1..] == Chunks(blob)[n..][1..];
  }

  class KernelDO {
    const w: World

    // SQLite
    var chunks: Table<bytes>
    var deltas: Table<DeltaRow>
    var oplog: Table<OplogRow>
    var manifest: Option<Manifest>
    // meta
    var epoch: int
    var committedCell: int
    var liveCell: Option<int>
    var lastDirtySrc: Option<string>
    // R2
    var bucket: Bucket
    // in memory only
    var build: Build
    var glue: Option<Glue>
    var phase: Phase

    constructor (w: World, build: Build)
      ensures this.w == w && Snapshot() == Init(build) && Inv(w, Snapshot())
    {
      this.w := w;
      chunks, deltas, oplog, manifest := [], [], [], None;
      epoch, committedCell, liveCell, lastDirtySrc := 0, -1, None, None;
      bucket, this.build, glue, phase := map[], build, None, Idle;
    }

    function Db(): Durable
      reads this
    {
      Durable(chunks, deltas, oplog, manifest, epoch, committedCell, liveCell, lastDirtySrc)
    }

    function Snapshot(): State
      reads this
    {
      State(Db(), bucket, build, glue, phase)
    }

    /** read_chunks */
    method LoadChunks(nChunks: int) returns (r: Result<bytes, LoadError>)
      ensures r == ReadChunks(Db(), nChunks)
    {
      var blobs := Rows(chunks);
      if |blobs| != nChunks { return Err(ChunkCountMismatch); }
      var out: bytes := [];
      for i := 0 to |blobs|
        invariant out == Concat(blobs[..i])
      {
        assert blobs[..i + 1] == blobs[..i] + [blobs[i]];
        ConcatAppend(blobs[..i], blobs[i]);
        out := out + blobs[i];
      }
      assert blobs[..|blobs|] == blobs;
      r := Ok(out);
    }

    method WriteMarkClean(cell: int)
      modifies this`liveCell, this`lastDirtySrc
      ensures Db() == MarkClean(old(Db()), cell)
    {
      liveCell := Some(cell);
      lastDirtySrc := Some("");
    }

    /** ensure_glue, with what the environment decides while it is awaited. */
    method WakeGlue(c: Wake) returns (ok: bool)
      modifies this`glue, this`liveCell, this`lastDirtySrc
      ensures var r := EnsureGlue(w, old(Snapshot()), c);
        ok == r.Some? && Snapshot() == if r.Some? then r.value else old(Snapshot())
    {
      hide RestoreW4, Reconstruct;
      if glue.Some? { return true; }
      var g: Option<Glue> := None;
      if manifest.None? {
        g := Replay(Snapshot(), c, None);
      } else {
        var m := manifest.value;
        var blob: Result<bytes, LoadError>;
        if m.tier == R2 {
          blob := if c.r2 == Got && m.r2Key.Some? && m.r2Key.value in bucket
                  then Ok(bucket[m.r2Key.value]) else Err(ObjectMissing);
        } else {
          blob := LoadChunks(m.nChunks);
          if blob.Err? { return false; }
        }
        if blob.Err? {
          g := Replay(Snapshot(), c, None);
        } else if m.engineHash != build.engineHash {
          g := Replay(Snapshot(), c, None);
        } else {
          var rows := ReadDeltaChain(Db(), m.deltaSeq);
          if rows.Err? { return false; }
          var image := RestoreImage(w, m, blob.value, rows.value);
          if image.None? {
            g := Replay(Snapshot(), c, None);
          } else if !c.probeOk {
            g := Replay(Snapshot(), c, image);
          } else {
            g := Some(Glue(image.value, image, None));
          }
        }
      }
      if g.None? { return false; }
      var live := if liveCell.Some? then liveCell.value else committedCell;
      if live > committedCell {
        WriteMarkClean(committedCell);
      }
      glue := g;
      ok := true;
    }

    /** eval_critical up to its first await: plan the cell. */
    method PlanEval(src: string, buffered: bool)
      requires phase.Idle?
      modifies this`phase
      ensures Snapshot() == Step(w, old(Snapshot()), StartEval(src, buffered))
    {
      var live := if liveCell.Some? then liveCell.value else committedCell;
      phase := Waking(Max(committedCell, live) + 1, src, buffered);
    }

    /** eval_critical from ensure_glue to eval_code. */
    method WakeThenEval(c: Wake)
      requires phase.Waking?
      modifies this`phase, this`glue, this`liveCell, this`lastDirtySrc
      ensures Snapshot() == Step(w, old(Snapshot()), WakeForEval(c))
    {
      var ok := WakeGlue(c);
      phase := if ok then Evaluating(phase.cell, phase.src, phase.buffered) else Idle;
    }

    /** checkpoint_impl up to its first wait on a remote write. */
    method StartCheckpoint(cell: int, src: string, eager: bool, raw: Image, usedHeap: nat)
      requires glue.Some?
      modifies this`glue, this`phase
      ensures Snapshot() == BeginCheckpoint(w, old(Snapshot()), cell, src, eager, raw, usedHeap)
    {
      var prev := manifest;
      var forceFull := !eager || prev.None? || prev.value.deltaSeq + 1 >= BASE_EVERY;
      var r := DumpImage(w, build.snapCodec, glue.value, forceFull, raw, usedHeap);
      if r.None? {
        phase := Idle;
        return;
      }
      var (g, dump) := r.value;
      glue := Some(g);
      var isDelta := dump.delta && prev.Some?;
      var ck := Ck(cell, epoch, src, eager, prev, dump.(delta := isDelta), raw);
      if !isDelta && |dump.gz| > SQLITE_HOT_MAX {
        phase := Putting(ck);
      } else {
        phase := Staging(ck, Sqlite);
      }
    }

    /** eval_critical after eval_code: defer the cell, or start its checkpoint. */
    method AfterEval(image: Image, raw: Image, usedHeap: nat, artifacts: bool)
      requires Enabled(w, Snapshot(), EvalDone(image, raw, usedHeap, artifacts))
      modifies this`glue, this`phase, this`liveCell, this`lastDirtySrc
      ensures Snapshot() == Step(w, old(Snapshot()), EvalDone(image, raw, usedHeap, artifacts))
    {
      var cell, src := phase.cell, phase.src;
      glue := Some(glue.value.(heap := image));
      if phase.buffered && !artifacts {
        liveCell := Some(cell);
        lastDirtySrc := Some(src);
        phase := Idle;
      } else {
        StartCheckpoint(cell, src, true, raw, usedHeap);
      }
    }

    /** flush_critical up to its first wait. */
    method Flush(raw: Image, usedHeap: nat)
      requires Enabled(w, Snapshot(), StartFlush(raw, usedHeap))
      modifies this`glue, this`phase, this`liveCell, this`lastDirtySrc
      ensures Snapshot() == Step(w, old(Snapshot()), StartFlush(raw, usedHeap))
      ensures old(IsDirty(Db())) && old(glue).Some? ==>
        Db() == old(Db()) && (phase.Idle? <==> !Fits(old(glue).value.heap, usedHeap))
    {
      var live := if liveCell.Some? then liveCell.value else committedCell;
      if live <= committedCell { return; }
      if glue.None? {
        WriteMarkClean(committedCell);
        return;
      }
      var src := if lastDirtySrc.Some? then lastDirtySrc.value else "/* engram warmBuffered flush */";
      StartCheckpoint(live, src, false, raw, usedHeap);
    }

    /** The full path after its PUT: verify before anything is truncated. */
    method AfterPut(ok: bool)
      requires phase.Putting?
      modifies this`bucket, this`phase
      ensures Snapshot() == Step(w, old(Snapshot()), PutReply(ok))
    {
      var ck := phase.ck;
      if ok {
        bucket := bucket[NewKey(ck) := ck.dump.gz];
        phase := Verifying(ck);
      } else {
        phase := Idle;
      }
    }

    method AfterVerify(read: R2Read)
      requires phase.Verifying?
      modifies this`phase
      ensures Snapshot() == Step(w, old(Snapshot()), VerifyReply(read))
    {
      phase := Staging(phase.ck, if read == Got then R2 else Sqlite);
    }

    /** The delta transaction: one delta row, one oplog row, the manifest. */
    method CommitDeltaRow(ck: Ck)
      requires ck.prev.Some? && CommitDelta(Db(), ck).Some?
      modifies this`deltas, this`oplog, this`manifest, this`committedCell
      ensures Some(Db()) == CommitDelta(old(Db()), ck)
    {
      var pm := ck.prev.value;
      deltas := Insert(deltas, pm.deltaSeq, DeltaRow(ck.dump.gz, ck.dump.indicesGz, ck.dump.codec)).value;
      oplog := Insert(oplog, pm.deltaSeq + 1, OplogRow(ck.cell, ck.src)).value;
      manifest := Some(pm.(cell := ck.cell, epoch := ck.epoch, sizeRaw := ck.dump.sizeRaw,
                           finalCrc := ck.dump.crc, usedHeap := ck.dump.usedHeap,
                           deltaSeq := pm.deltaSeq + 1));
      committedCell := ck.cell;
    }

    /** The full transaction: drop every table, write the base, seed the oplog with this cell. */
    method CommitBase(ck: Ck, tier: Tier)
      modifies this`chunks, this`deltas, this`oplog, this`manifest, this`committedCell
      ensures Db() == CommitFull(old(Db()), build, ck, tier)
    {
      chunks, deltas, oplog, manifest := [], [], [], None;
      var nChunks := 0;
      if tier != R2 {
        nChunks := WriteChunks(ck.dump.gz);
      }
      oplog := Insert(oplog, 0, OplogRow(ck.cell, ck.src)).value;
      manifest := Some(Manifest(ck.cell, ck.epoch, nChunks, ck.dump.sizeRaw, ck.dump.crc, ck.dump.usedHeap,
                                tier, if tier == R2 then Some(NewKey(ck)) else None, 0,
                                ck.dump.codec, build.engineHash));
      committedCell := ck.cell;
    }

    /** The transaction of checkpoint_impl, after flush_staged_fs. */
    method Commit()
      requires Inv(w, Snapshot()) && phase.Staging?
      modifies this`chunks, this`deltas, this`oplog, this`manifest, this`committedCell, this`phase
      ensures Snapshot() == Step(w, old(Snapshot()), FsStaged)
      ensures Inv(w, Snapshot()) && StoredImage(w, Db(), bucket) == Some(old(phase.ck.image))
    {
      CommitStep(w, Snapshot());
      hide Inv, Step, StoredImage, CommitDelta, CommitFull;
      var ck, tier := phase.ck, phase.tier;
      if ck.dump.delta && ck.prev.Some? {
        CommitDeltaRow(ck);
      } else {
        CommitBase(ck, tier);
      }
      phase := Exporting(ck, tier);
    }

    /** The chunk loop of the full transaction. */
    method WriteChunks(blob: bytes) returns (n: nat)
      requires chunks == []
      modifies this`chunks
      ensures chunks == Numbered(Chunks(blob)) && n == |Chunks(blob)|
    {
      var at := 0;
      n := 0;
      while at < |blob|
        invariant at <= |blob|
        invariant n <= |Chunks(blob)| && |chunks| == n
        invariant Chunks(blob)[n..] == Chunks(blob[at..])
        invariant chunks == Numbered(Chunks(blob)[..n])
        decreases |blob| - at
      {
        var end := Min(at + CHUNK_BYTES, |blob|);
        var chunk := blob[at..end];
        NextChunk(blob, at, n);
        InsertAppends(chunks, n, chunk);
        chunks := Insert(chunks, n, chunk).value;
        n, at := n + 1, end;
      }
      assert Chunks(blob)[n..] == [];
      assert Chunks(blob)[..n] == Chunks(blob);
    }

    /** After export_manifest: promote the staged image, then drop a replaced object. */
    method AfterExport()
      requires phase.Exporting?
      modifies this`glue, this`phase, this`liveCell, this`lastDirtySrc
      ensures Snapshot() == Step(w, old(Snapshot()), ManifestExported)
    {
      var ck, tier := phase.ck, phase.tier;
      if glue.Some? {
        glue := Some(CommitDump(glue.value));
      }
      var stale := Replaced(ck, tier);
      if stale.Some? {
        phase := Deleting(ck, stale.value);
      } else {
        WriteMarkClean(ck.cell);
        phase := Idle;
      }
    }

    method AfterDelete(ok: bool)
      requires phase.Deleting?
      modifies this`bucket, this`phase, this`liveCell, this`lastDirtySrc
      ensures Snapshot() == Step(w, old(Snapshot()), OldDeleteReply(ok))
    {
      if ok {
        bucket := bucket - {phase.stale};
      }
      WriteMarkClean(phase.ck.cell);
      phase := Idle;
    }

    /** reset_critical up to its R2 delete, or to its end when nothing is in R2. */
    method Reset()
      requires phase.Idle?
      modifies this
      ensures Snapshot() == Step(w, old(Snapshot()), StartReset)
    {
      ghost var s := Snapshot();
      ResetStep(w, s);
      hide Step;
      glue := None;
      var r2Key := if manifest.Some? && manifest.value.tier == R2 then manifest.value.r2Key else None;
      chunks, deltas, oplog, manifest := [], [], [], None;
      assert Snapshot() == s.(db := ClearTables(s.db), glue := None);
      if r2Key.Some? {
        phase := Resetting(r2Key.value);
      } else {
        ForgetEpoch();
      }
    }

    method AfterResetDelete(ok: bool)
      requires phase.Resetting?
      modifies this
      ensures Snapshot() == Step(w, old(Snapshot()), FinishReset(ok))
    {
      if ok {
        bucket := bucket - {phase.stale};
      }
      ForgetEpoch();
    }

    method ForgetEpoch()
      modifies this`epoch, this`committedCell, this`liveCell, this`lastDirtySrc, this`phase
      ensures Snapshot() == FinishResetOf(old(Snapshot()))
    {
      epoch := epoch + 1;
      committedCell := -1;
      WriteMarkClean(-1);
      phase := Idle;
    }

    /** An evict frame takes no mutex: it can arrive in any phase. */
    method Evict()
      modifies this`glue, this`phase
      ensures Snapshot() == Step(w, old(Snapshot()), EvictFrame)
    {
      glue := None;
      if phase.Evaluating? {
        phase := Idle;
      }
    }
  }
}
