/** What every reachable state of the checkpoint protocol satisfies, wherever a run is cut. */
module CheckpointSafety {
  import opened Prelude
  import opened W4Delta
  import opened SqlTable
  import opened Checkpoint

  // ---- the invariant -------------------------------------------------------------------------

  /** The oplog tail: keys 0..deltaSeq, strictly increasing cells, ending at the manifest's cell. */
  ghost predicate OplogOk(db: Durable, m: Manifest) {
    && Dense(db.oplog, m.deltaSeq + 1)
    && (forall i, j :: 0 <= i < j < |db.oplog| ==> db.oplog[i].value.cell < db.oplog[j].value.cell)
    && 0 <= m.deltaSeq
    && db.oplog[m.deltaSeq].value.cell == m.cell == db.committedCell
  }

  /** The stored tables rebuild an image of the recorded size and checksum, and are in shape. */
  ghost predicate ManifestOk(w: World, s: State) {
    s.db.manifest.Some? ==>
      var m := s.db.manifest.value;
      var image := StoredImage(w, s.db, s.bucket);
      && image.Some?
      && |image.value| % PAGE == 0
      && m.sizeRaw == |image.value| <= RAW_CEILING
      && m.finalCrc == w.crc(image.value)
      && 0 <= m.deltaSeq < BASE_EVERY
      && Dense(s.db.deltas, m.deltaSeq)
      && OplogOk(s.db, m)
      && m.epoch == s.db.epoch
      && (m.r2Key.Some? <==> m.tier == R2)
      && (m.tier == R2 ==> m.r2Key.value == Key(m.epoch, s.db.oplog[0].value.cell))
  }

  /** The committed image is v and was written by the build that is running. */
  ghost predicate Commits(w: World, s: State, v: bytes) {
    && s.db.manifest.Some?
    && s.db.manifest.value.engineHash == s.build.engineHash
    && StoredImage(w, s.db, s.bucket) == Some(v)
  }

  /** A live kernel with a base holds exactly the committed image, except between the transaction
      and commit_dump, when it is the staged image that does. */
  ghost predicate GlueOk(w: World, s: State) {
    s.glue.Some? ==>
      if s.phase.Exporting? then
        && (s.glue.value.pending.Some? ==> Commits(w, s, s.glue.value.pending.value))
        && (s.glue.value.pending.None? ==> s.glue.value.base.None?)
      else s.glue.value.base.Some? ==> Commits(w, s, s.glue.value.base.value)
  }

  ghost predicate DumpOk(w: World, s: State, ck: Ck) {
    && |ck.image| % PAGE == 0
    && ck.dump.sizeRaw == |ck.image| <= RAW_CEILING
    && ck.dump.crc == w.crc(ck.image)
    && ck.dump.usedHeap <= USED_CEILING
    && if ck.dump.delta then
         var image := StoredImage(w, s.db, s.bucket);
         && ck.prev.Some? && image.Some? && |image.value| <= |ck.image|
         && ck.prev.value.deltaSeq + 1 < BASE_EVERY
         && ck.prev.value.engineHash == s.build.engineHash
         && DecodeRow(w, DeltaRow(ck.dump.gz, ck.dump.indicesGz, ck.dump.codec))
            == Some(MakeDelta(image.value, ck.image))
       else w.decompress(ck.dump.codec, ck.dump.gz) == Some(ck.image)
  }

  /** A checkpoint that has dumped but not committed. */
  ghost predicate Uncommitted(w: World, s: State, ck: Ck) {
    && ck.cell > s.db.committedCell
    && ck.epoch == s.db.epoch
    && ck.prev == s.db.manifest
    && DumpOk(w, s, ck)
    && (s.glue.Some? ==>
          || s.glue.value.pending == Some(ck.image)
          || (s.glue.value.pending.None? && s.glue.value.base.None?))
  }

  ghost predicate Uploaded(s: State, ck: Ck) {
    NewKey(ck) in s.bucket && s.bucket[NewKey(ck)] == ck.dump.gz
  }

  ghost predicate PhaseOk(w: World, s: State) {
    match s.phase
    case Idle => true
    case Waking(cell, _, _) => cell > s.db.committedCell
    case Evaluating(cell, _, _) => cell > s.db.committedCell
    case Putting(ck) => Uncommitted(w, s, ck) && !ck.dump.delta
    case Verifying(ck) => Uncommitted(w, s, ck) && !ck.dump.delta && Uploaded(s, ck)
    case Staging(ck, tier) => Uncommitted(w, s, ck) && (tier == R2 ==> !ck.dump.delta && Uploaded(s, ck))
    case Exporting(ck, tier) =>
      && Commits(w, s, ck.image)
      && s.db.committedCell == ck.cell
      && (!ck.dump.delta ==> s.db.manifest.value.r2Key == if tier == R2 then Some(NewKey(ck)) else None)
    case Deleting(ck, stale) =>
      && Commits(w, s, ck.image)
      && s.db.committedCell == ck.cell
      && s.db.manifest.value.r2Key != Some(stale)
    case Resetting(_) => s.db.manifest.None?
  }

  ghost predicate Inv(w: World, s: State) {
    ManifestOk(w, s) && GlueOk(w, s) && PhaseOk(w, s)
  }

  // ---- frames --------------------------------------------------------------------------------

  /** Replacing objects other than the committed one leaves what the tables rebuild alone. */
  lemma BucketFrame(w: World, db: Durable, a: Bucket, b: Bucket)
    requires db.manifest.Some? && db.manifest.value.r2Key.Some? ==>
               var k := db.manifest.value.r2Key.value;
               (k in a <==> k in b) && (k in a ==> a[k] == b[k])
    ensures StoredImage(w, db, a) == StoredImage(w, db, b)
  {
  }

  /** What is stored does not depend on the counters or the oplog. */
  lemma SameTables(w: World, a: Durable, b: Durable, bucket: Bucket)
    requires a.manifest == b.manifest && a.chunks == b.chunks && a.deltas == b.deltas
    ensures StoredImage(w, a, bucket) == StoredImage(w, b, bucket)
  {
  }

  /** A PUT never touches the object the manifest names. */
  lemma PutKeyIsFresh(w: World, s: State, ck: Ck)
    requires ManifestOk(w, s) && Uncommitted(w, s, ck)
    ensures s.db.manifest.Some? ==> s.db.manifest.value.r2Key != Some(NewKey(ck))
  {
    if s.db.manifest.Some? {
      var m := s.db.manifest.value;
      assert s.db.oplog[0].value.cell <= s.db.oplog[m.deltaSeq].value.cell;
    }
  }

  // ---- the dump ------------------------------------------------------------------------------

  /** Opening a delta row gives back the delta it was made from. */
  lemma RowDecodes(w: World, codec: Codec, prev: bytes, raw: bytes)
    requires |prev| <= |raw| < TWO32
    requires AllU32(MakeDelta(prev, raw).indices)
    ensures var d := MakeDelta(prev, raw);
      DecodeRow(w, DeltaRow(w.compress(codec, d.payload), w.compress(codec, EncodeIndices(d.indices)), codec))
      == Some(d)
  {
    IndicesRoundTrip(MakeDelta(prev, raw).indices);
  }

  lemma DumpIsSound(w: World, s: State, force: bool, raw: Image, usedHeap: nat)
    requires s.glue.Some? && GlueOk(w, s) && !s.phase.Exporting? && |raw| == |s.glue.value.heap|
    requires s.db.manifest.Some? && !force ==> s.db.manifest.value.deltaSeq + 1 < BASE_EVERY
    requires s.db.manifest.None? ==> force
    ensures var r := DumpW4(w, s.build.snapCodec, s.glue.value, force, raw, usedHeap);
      r.Some? ==>
        var (g, dump) := r.value;
        && g.heap == raw
        && (g.pending == Some(raw) || (g.pending.None? && g.base.None?))
        && (g.base.Some? ==> g.base == s.glue.value.base)
        && (dump.delta ==> s.db.manifest.Some?)
        && DumpOk(w, s, Ck(0, 0, "", true, s.db.manifest, dump, raw))
  {
    var g := s.glue.value;
    var r := DumpW4(w, s.build.snapCodec, g, force, raw, usedHeap);
    if r.Some? && r.value.1.delta {
      IndicesFit(g.base.value, raw);
      RowDecodes(w, s.build.snapCodec, g.base.value, raw);
    }
  }

  lemma BeginCheckpointKeepsInv(
    w: World, s: State, cell: int, src: string, eager: bool, raw: Image, usedHeap: nat)
    requires s.glue.Some? && ManifestOk(w, s) && GlueOk(w, s) && !s.phase.Exporting?
    requires |raw| == |s.glue.value.heap| && cell > s.db.committedCell
    ensures Inv(w, BeginCheckpoint(w, s, cell, src, eager, raw, usedHeap))
  {
    var prev := s.db.manifest;
    var force := !eager || prev.None? || prev.value.deltaSeq + 1 >= BASE_EVERY;
    DumpIsSound(w, s, force, raw, usedHeap);
  }

  // ---- the transaction -----------------------------------------------------------------------

  lemma FullCommitStores(w: World, s: State, ck: Ck, tier: Tier)
    requires ManifestOk(w, s) && Uncommitted(w, s, ck) && !ck.dump.delta
    requires tier == R2 ==> Uploaded(s, ck)
    ensures var t := s.(db := CommitFull(s.db, s.build, ck, tier));
      ManifestOk(w, t) && Commits(w, t, ck.image)
  {
    hide Chunks, Concat, DecodeRow;
    var db := CommitFull(s.db, s.build, ck, tier);
    var m := db.manifest.value;
    ChunksRejoin(ck.dump.gz);
    assert BaseBlob(db, s.bucket, m) == Ok(ck.dump.gz);
    assert Reconstruct(ck.image, []) == ck.image;
    assert ck.image[..m.sizeRaw] == ck.image;
  }

  lemma DeltaCommitStores(w: World, s: State, ck: Ck)
    requires ManifestOk(w, s) && Uncommitted(w, s, ck) && ck.dump.delta
    ensures var db := CommitDelta(s.db, ck);
      db.Some? && ManifestOk(w, s.(db := db.value)) && Commits(w, s.(db := db.value), ck.image)
  {
    hide GlueOk, MakeDelta;
    var pm := ck.prev.value;
    var row := DeltaRow(ck.dump.gz, ck.dump.indicesGz, ck.dump.codec);
    InsertAppends(s.db.deltas, pm.deltaSeq, row);
    InsertAppends(s.db.oplog, pm.deltaSeq + 1, OplogRow(ck.cell, ck.src));
    var db := CommitDelta(s.db, ck).value;
    var m := db.manifest.value;
    var rows := Rows(s.db.deltas);
    var prev := StoredImage(w, s.db, s.bucket).value;
    assert ReadDeltaChain(s.db, pm.deltaSeq) == Ok(rows);
    assert ReadDeltaChain(db, m.deltaSeq) == Ok(rows + [row]);
    assert (rows + [row])[..|rows|] == rows;
    assert BaseBlob(db, s.bucket, m) == BaseBlob(s.db, s.bucket, pm);
    var base := w.decompress(pm.snapCodec, BaseBlob(s.db, s.bucket, pm).value).value;
    var ds := DecodeRows(w, rows).value;
    AppendRebuilds(base, ds, prev, ck.image);
    assert DecodeRows(w, rows + [row]) == Some(ds + [MakeDelta(prev, ck.image)]);
    assert ck.image[..m.sizeRaw] == ck.image;
    assert RestoreW4(w, m, BaseBlob(db, s.bucket, m).value, rows + [row]) == Some(ck.image);
  }

  lemma TransactionStores(w: World, s: State)
    requires Inv(w, s) && s.phase.Staging?
    ensures var ck, tier := s.phase.ck, s.phase.tier;
      var db := Transact(s.db, s.build, ck, tier);
      db.Some? && ManifestOk(w, s.(db := db.value)) && Commits(w, s.(db := db.value), ck.image)
  {
    if s.phase.ck.dump.delta {
      DeltaCommitStores(w, s, s.phase.ck);
    } else {
      FullCommitStores(w, s, s.phase.ck, s.phase.tier);
    }
  }

  // ---- waking --------------------------------------------------------------------------------

  /** In every reachable state the byte restore of a readable session succeeds and is exact. */
  lemma ColdWakeIsExact(w: World, s: State, c: Wake)
    requires ManifestOk(w, s) && s.db.manifest.Some?
    requires s.db.manifest.value.engineHash == s.build.engineHash && c.probeOk
    requires s.db.manifest.value.tier == R2 ==> c.r2 == Got
    ensures var image := StoredImage(w, s.db, s.bucket);
      image.Some? && ColdWake(w, s, c) == Some(Glue(image.value, image, None))
  {
  }

  /** Whatever a cold wake ends with, its base is the committed image. */
  lemma ColdWakeIsBased(w: World, s: State, c: Wake)
    requires ManifestOk(w, s)
    ensures var g := ColdWake(w, s, c);
      g.Some? ==> g.value.pending.None? && (g.value.base.Some? ==> Commits(w, s, g.value.base.value))
  {
  }

  /** A wake that could not use the bytes never leaves a base that is not the committed image. */
  lemma EnsureGlueKeepsInv(w: World, s: State, c: Wake)
    requires Inv(w, s) && (s.phase.Idle? || s.phase.Waking?)
    ensures var r := EnsureGlue(w, s, c);
      r.Some? ==>
        Inv(w, r.value) && r.value.glue.Some? && r.value.phase == s.phase
        && r.value.db.committedCell == s.db.committedCell
  {
    if s.glue.None? {
      ColdWakeIsBased(w, s, c);
      var t := s.(glue := ColdWake(w, s, c), db := if IsDirty(s.db) then MarkClean(s.db, s.db.committedCell) else s.db);
      assert StoredImage(w, t.db, t.bucket) == StoredImage(w, s.db, s.bucket);
    }
  }

  // ---- one step, every run -------------------------------------------------------------------

  predicate OfRemote(e: Event) {
    e.PutLands? || e.PutReply? || e.VerifyReply? || e.OldDeleteLands? || e.OldDeleteReply?
    || e.ResetDeleteLands? || e.FinishReset?
  }

  lemma PutStepKeepsInv(w: World, s: State, e: Event)
    requires Inv(w, s) && Enabled(w, s, e) && (e.PutLands? || e.PutReply?)
    ensures Inv(w, Step(w, s, e))
  {
    hide DumpW4, ColdWake, StoredImage, DecodeRow;
    PutKeyIsFresh(w, s, s.phase.ck);
    BucketFrame(w, s.db, s.bucket, Step(w, s, e).bucket);
  }

  lemma DeleteStepKeepsInv(w: World, s: State, e: Event)
    requires Inv(w, s) && Enabled(w, s, e) && (e.OldDeleteLands? || e.OldDeleteReply?)
    ensures Inv(w, Step(w, s, e))
  {
    hide DumpW4, ColdWake, StoredImage, DecodeRow;
    var t := Step(w, s, e);
    BucketFrame(w, s.db, s.bucket, t.bucket);
    SameTables(w, s.db, t.db, t.bucket);
  }

  lemma AnswerStepKeepsInv(w: World, s: State, e: Event)
    requires Inv(w, s) && Enabled(w, s, e) && (e.VerifyReply? || e.ResetDeleteLands? || e.FinishReset?)
    ensures Inv(w, Step(w, s, e))
  {
    hide DumpW4, ColdWake, StoredImage, DecodeRow;
  }

  lemma RemoteStepKeepsInv(w: World, s: State, e: Event)
    requires Inv(w, s) && Enabled(w, s, e) && OfRemote(e)
    ensures Inv(w, Step(w, s, e))
  {
    hide Inv, Step;
    if e.PutLands? || e.PutReply? { PutStepKeepsInv(w, s, e); }
    else if e.OldDeleteLands? || e.OldDeleteReply? { DeleteStepKeepsInv(w, s, e); }
    else { AnswerStepKeepsInv(w, s, e); }
  }

  lemma EvalDoneKeepsInv(w: World, s: State, e: Event)
    requires Inv(w, s) && Enabled(w, s, e) && e.EvalDone?
    ensures Inv(w, Step(w, s, e))
  {
    var ran := s.(glue := Some(s.glue.value.(heap := e.image)));
    if !s.phase.buffered || e.artifacts {
      BeginCheckpointKeepsInv(w, ran, s.phase.cell, s.phase.src, true, e.raw, e.usedHeap);
    }
  }

  lemma StartFlushKeepsInv(w: World, s: State, e: Event)
    requires Inv(w, s) && Enabled(w, s, e) && e.StartFlush?
    ensures Inv(w, Step(w, s, e))
  {
    if IsDirty(s.db) && s.glue.Some? {
      var src := if s.db.lastDirtySrc.Some? then s.db.lastDirtySrc.value else "/* engram warmBuffered flush */";
      BeginCheckpointKeepsInv(w, s, ReadLive(s.db), src, false, e.raw, e.usedHeap);
    }
  }

  lemma FsStagedKeepsInv(w: World, s: State)
    requires Inv(w, s) && s.phase.Staging?
    ensures Inv(w, Step(w, s, FsStaged))
  {
    TransactionStores(w, s);
  }

  lemma WakeStepKeepsInv(w: World, s: State, e: Event)
    requires Inv(w, s) && Enabled(w, s, e) && (e.CreateFrame? || e.WakeForEval?)
    ensures Inv(w, Step(w, s, e))
  {
    hide DumpW4, ColdWake;
    EnsureGlueKeepsInv(w, s, e.wake);
  }

  lemma QuietStepKeepsInv(w: World, s: State, e: Event)
    requires Inv(w, s) && Enabled(w, s, e) && (e.Crash? || e.EvictFrame? || e.StartEval?)
    ensures Inv(w, Step(w, s, e))
  {
    hide DumpW4, ColdWake, DecodeRow;
  }

  lemma ExportStepKeepsInv(w: World, s: State)
    requires Inv(w, s) && s.phase.Exporting?
    ensures Inv(w, Step(w, s, ManifestExported))
  {
    hide DumpW4, ColdWake, StoredImage, DecodeRow;
    SameTables(w, s.db, Step(w, s, ManifestExported).db, s.bucket);
  }

  lemma ResetStepKeepsInv(w: World, s: State)
    requires Inv(w, s) && s.phase.Idle?
    ensures Inv(w, Step(w, s, StartReset))
  {
    hide DumpW4, ColdWake, StoredImage, DecodeRow;
  }

  lemma LocalStepKeepsInv(w: World, s: State, e: Event)
    requires Inv(w, s) && Enabled(w, s, e)
    requires e.Crash? || e.EvictFrame? || e.CreateFrame? || e.StartEval? || e.WakeForEval?
             || e.ManifestExported? || e.StartReset?
    ensures Inv(w, Step(w, s, e))
  {
    hide Inv, Step;
    if e.CreateFrame? || e.WakeForEval? { WakeStepKeepsInv(w, s, e); }
    else if e.ManifestExported? { ExportStepKeepsInv(w, s); }
    else if e.StartReset? { ResetStepKeepsInv(w, s); }
    else { QuietStepKeepsInv(w, s, e); }
  }

  lemma StepKeepsInv(w: World, s: State, e: Event)
    requires Inv(w, s)
    ensures Inv(w, Step(w, s, e))
  {
    if Enabled(w, s, e) {
      if OfRemote(e) {
        RemoteStepKeepsInv(w, s, e);
      } else if e.EvalDone? {
        EvalDoneKeepsInv(w, s, e);
      } else if e.StartFlush? {
        StartFlushKeepsInv(w, s, e);
      } else if e.FsStaged? {
        FsStagedKeepsInv(w, s);
      } else {
        LocalStepKeepsInv(w, s, e);
      }
    }
  }

  /** Every run from a new session, cut and interleaved in any way, keeps the invariant. */
  lemma {:induction false} RunKeepsInv(w: World, s: State, es: seq<Event>)
    requires Inv(w, s)
    ensures Inv(w, Run(w, s, es))
    decreases |es|
  {
    if es != [] {
      StepKeepsInv(w, s, es[0]);
      RunKeepsInv(w, Step(w, s, es[0]), es[1..]);
    }
  }

  /** A new session satisfies the invariant, so every state it can reach does. */
  lemma ReachableIsSafe(w: World, build: Build, es: seq<Event>)
    ensures Inv(w, Run(w, Init(build), es))
  {
    RunKeepsInv(w, Init(build), es);
  }

  /** No step that leaves the manifest standing changes or removes the object it names. */
  lemma CommittedObjectSurvives(w: World, s: State, e: Event)
    requires Inv(w, s) && s.db.manifest.Some? && s.db.manifest.value.tier == R2
    requires Step(w, s, e).db.manifest.Some?
    requires Step(w, s, e).db.manifest.value.r2Key == s.db.manifest.value.r2Key
    ensures var k := s.db.manifest.value.r2Key.value;
      k in s.bucket && k in Step(w, s, e).bucket && Step(w, s, e).bucket[k] == s.bucket[k]
  {
    hide DumpW4, ColdWake;
    if Enabled(w, s, e) && (e.PutLands? || e.PutReply?) {
      PutKeyIsFresh(w, s, s.phase.ck);
    }
  }
}
