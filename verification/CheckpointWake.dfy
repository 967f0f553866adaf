/**
 * What a wake comes up with in every reachable state, and what a reset leaves
 * (ensure_glue and reset_critical in apps/kernel/src/lib.rs).
 */
module CheckpointWake {
  import opened Prelude
  import opened SqlTable
  import opened W4Delta
  import opened Checkpoint
  import opened CheckpointSafety
  import opened CheckpointDurability
  import opened CheckpointFlush

  /** The bytes are tried at all: their object can be read and the build that wrote them runs. */
  predicate Readable(s: State, c: Wake) {
    && s.db.manifest.Some?
    && (s.db.manifest.value.tier == R2 ==> c.r2 == Got)
    && s.db.manifest.value.engineHash == s.build.engineHash
  }

  /**
   * In every reachable state without a live heap: a wake restores the committed image if the
   * bytes can be tried and the probe passes; otherwise it takes what a fresh start or a replay
   * comes up with, and fails with it; and only a failed probe leaves the committed image to start
   * the next delta from.
   */
  lemma WakeOutcome(w: World, s: State, c: Wake)
    requires Inv(w, s) && s.glue.None?
    ensures var image := StoredImage(w, s.db, s.bucket);
      ColdWake(w, s, c) ==
        if Readable(s, c) && c.probeOk then Some(Glue(image.value, image, None))
        else if c.other.None? then None
        else Some(Glue(c.other.value, if Readable(s, c) then image else None, None))
  {
    hide RestoreW4, DecodeRow, ReadChunks, ReadDeltaChain;
    if s.db.manifest.Some? { StoredParts(w, s); }
  }

  /** What a readable image is made of. */
  lemma StoredParts(w: World, s: State)
    requires ManifestOk(w, s) && s.db.manifest.Some?
    ensures var m := s.db.manifest.value;
      var blob, rows := BaseBlob(s.db, s.bucket, m), ReadDeltaChain(s.db, m.deltaSeq);
      && blob.Ok? && rows.Ok?
      && StoredImage(w, s.db, s.bucket).Some?
      && RestoreW4(w, m, blob.value, rows.value) == StoredImage(w, s.db, s.bucket)
  {
  }

  /** A wake that succeeds leaves a live heap and a clean session, and touches nothing stored. */
  lemma WakeCleans(w: World, s: State, c: Wake)
    requires Inv(w, s)
    ensures var r := EnsureGlue(w, s, c);
      if s.glue.Some? then r == Some(s)
      else if r.None? then ColdWake(w, s, c).None?
      else
        && r.value.glue == ColdWake(w, s, c) && r.value.glue.Some? && r.value.phase == s.phase
        && r.value.bucket == s.bucket && r.value.build == s.build
        && !IsDirty(r.value.db) && NextCell(r.value.db) == s.db.committedCell + 1
        && r.value.db == s.db.(liveCell := r.value.db.liveCell, lastDirtySrc := r.value.db.lastDirtySrc)
        && (!IsDirty(s.db) ==> r.value.db == s.db)
        && History(w, r.value) == History(w, s)
  {
    hide ColdWake, DumpW4, StoredImage, DecodeRow;
    var r := EnsureGlue(w, s, c);
    if s.glue.None? && r.Some? { SameTables(w, s.db, r.value.db, s.bucket); }
  }

  /** A flush that finds no live heap gives the deferred cells up, and keeps what is committed. */
  lemma FlushWithoutHeap(w: World, s: State, raw: Image, usedHeap: nat)
    requires Inv(w, s) && s.phase.Idle? && s.glue.None?
    ensures var t := Step(w, s, StartFlush(raw, usedHeap));
      && t == s.(db := t.db) && !IsDirty(t.db) && NextCell(t.db) == NextCell(s.db.(liveCell := None))
      && t.db == s.db.(liveCell := t.db.liveCell, lastDirtySrc := t.db.lastDirtySrc)
      && History(w, t) == History(w, s)
  {
    hide ColdWake, DumpW4, StoredImage, DecodeRow;
    SameTables(w, s.db, Step(w, s, StartFlush(raw, usedHeap)).db, s.bucket);
  }

  // ---- tables that are not what they should be -----------------------------------------------

  /** In any state at all: an image that a wake takes from the bytes has passed every check. */
  lemma BaseIsChecked(w: World, s: State, c: Wake)
    requires ColdWake(w, s, c).Some? && ColdWake(w, s, c).value.base.Some?
    ensures s.db.manifest.Some?
    ensures var m, image := s.db.manifest.value, ColdWake(w, s, c).value.base.value;
      && m.engineHash == s.build.engineHash
      && (m.tier == Sqlite ==> |s.db.chunks| == m.nChunks) && (m.deltaSeq > 0 ==> |s.db.deltas| == m.deltaSeq)
      && (m.sizeRaw > 0 && m.finalCrc != 0 ==> m.sizeRaw <= |image| && w.crc(image[..m.sizeRaw]) == m.finalCrc)
      && m.usedHeap <= 50 * 1024 * 1024 && |image| <= 60 * 1024 * 1024
      && (c.probeOk ==> ColdWake(w, s, c).value.heap == image)
  {
    hide DecodeRow, DecodeRows, Reconstruct;
  }

  /**
   * Rows missing from the local tables fail the frame; an object that cannot be read, or an image
   * that does not pass its checks, only sends the wake to the replay.
   */
  lemma MissingRowsFail(w: World, s: State, c: Wake)
    requires s.db.manifest.Some?
    ensures var m := s.db.manifest.value; m.tier == Sqlite && |s.db.chunks| != m.nChunks ==> ColdWake(w, s, c).None?
    ensures var m := s.db.manifest.value;
      Readable(s, c) && BaseBlob(s.db, s.bucket, m).Ok? && m.deltaSeq > 0 && |s.db.deltas| != m.deltaSeq ==>
        ColdWake(w, s, c).None?
    ensures var m := s.db.manifest.value;
      m.tier == R2 && (m.r2Key.None? || m.r2Key.value !in s.bucket || c.r2 != Got) ==>
        ColdWake(w, s, c) == Replay(s, c, None)
    ensures var m := s.db.manifest.value;
      Readable(s, c) && BaseBlob(s.db, s.bucket, m).Ok? && ReadDeltaChain(s.db, m.deltaSeq).Ok? ==>
        StoredImage(w, s.db, s.bucket).None? ==> ColdWake(w, s, c) == Replay(s, c, None)
  {
    hide RestoreW4;
  }

  // ---- reset ---------------------------------------------------------------------------------

  /** A reset that runs through forgets everything but the epoch, which it passes. */
  lemma ResetForgets(w: World, s: State, deleted: bool)
    requires Inv(w, s) && s.phase.Idle?
    ensures var t := Run(w, s, [StartReset, FinishReset(deleted)]);
      && t.phase.Idle? && t.glue.None? && t.build == s.build
      && t.db.manifest.None? && t.db.chunks == [] && t.db.deltas == [] && t.db.oplog == []
      && t.db.epoch == s.db.epoch + 1 && t.db.committedCell == -1 && NextCell(t.db) == 0 && !IsDirty(t.db)
      && History(w, t) == []
      && t.bucket == (if deleted && s.db.manifest.Some? && s.db.manifest.value.r2Key.Some?
                      then s.bucket - {s.db.manifest.value.r2Key.value} else s.bucket)
  {
    hide ColdWake, DumpW4, StoredImage, DecodeRow;
    var es := [StartReset, FinishReset(deleted)];
    RunSplits(w, s, es);
    RunSplits(w, Step(w, s, es[0]), es[1..]);
    NothingStored(w, Run(w, s, es));
  }

  lemma NothingStored(w: World, s: State)
    requires s.db.manifest.None?
    ensures History(w, s) == []
  {
  }
}
