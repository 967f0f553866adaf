/**
 * What committed means to a user: over runs whose wakes restore bytes, the committed history only
 * grows, an acknowledged cell is in every later heap, and a crash loses a suffix.
 */
module CheckpointDurability {
  import opened Prelude
  import opened W4Delta
  import opened SqlTable
  import opened Checkpoint
  import opened CheckpointSafety

  /** The cells whose effects are in the committed image. */
  ghost function History(w: World, s: State): seq<Cell> {
    var image := StoredImage(w, s.db, s.bucket);
    if image.None? then [] else w.denotes(image.value)
  }

  /** h is the committed history and then only cells numbered above the committed one. */
  ghost predicate Continues(w: World, s: State, h: seq<Cell>) {
    && History(w, s) <= h
    && forall i :: |History(w, s)| <= i < |h| ==> h[i].number > s.db.committedCell
  }

  ghost predicate EndsWithItsCell(w: World, ck: Ck) {
    ck.eager ==>
      var h := w.denotes(ck.image);
      h != [] && h[|h| - 1] == Cell(ck.cell, ck.src)
  }

  ghost predicate Meaning(w: World, s: State) {
    && (s.glue.Some? ==> Continues(w, s, w.denotes(s.glue.value.heap)))
    && match s.phase
       case Putting(ck) => CkMeaning(w, s, ck)
       case Verifying(ck) => CkMeaning(w, s, ck)
       case Staging(ck, _) => CkMeaning(w, s, ck)
       case Exporting(ck, _) => CkMeaning(w, s, ck)
       case Deleting(ck, _) => CkMeaning(w, s, ck)
       case Resetting(_) => s.glue.None?
       case _ => true
  }

  ghost predicate CkMeaning(w: World, s: State, ck: Ck) {
    && Continues(w, s, w.denotes(ck.image))
    && EndsWithItsCell(w, ck)
    && (s.glue.Some? ==> w.denotes(s.glue.value.heap) == w.denotes(ck.image))
  }

  /** A wake that reads the stored bytes, or starts empty because nothing is stored. */
  ghost predicate RestoresBytes(w: World, s: State, c: Wake) {
    s.glue.None? ==>
      if s.db.manifest.None? then c.other.Some? ==> w.denotes(c.other.value) == []
      else
        var m := s.db.manifest.value;
        m.engineHash == s.build.engineHash && c.probeOk && (m.tier == R2 ==> c.r2 == Got)
  }

  ghost predicate Faithful(w: World, s: State, e: Event) {
    match e
    case CreateFrame(c) => RestoresBytes(w, s, c)
    case WakeForEval(c) => RestoresBytes(w, s, c)
    case _ => true
  }

  ghost predicate IsReset(e: Event) {
    e.StartReset? || e.ResetDeleteLands? || e.FinishReset?
  }

  ghost predicate FaithfulRun(w: World, s: State, es: seq<Event>)
    decreases |es|
  {
    es != [] ==> Faithful(w, s, es[0]) && !IsReset(es[0]) && FaithfulRun(w, Step(w, s, es[0]), es[1..])
  }

  // ---- one step ------------------------------------------------------------------------------

  lemma WakeKeepsMeaning(w: World, s: State, c: Wake)
    requires Inv(w, s) && Meaning(w, s) && (s.phase.Idle? || s.phase.Waking?) && RestoresBytes(w, s, c)
    ensures var r := EnsureGlue(w, s, c);
      r.Some? ==> Meaning(w, r.value) && History(w, r.value) == History(w, s)
  {
    if s.glue.None? && s.db.manifest.Some? {
      ColdWakeIsExact(w, s, c);
    }
  }

  lemma DumpKeepsMeaning(
    w: World, s: State, cell: int, src: string, eager: bool, raw: Image, usedHeap: nat)
    requires Inv(w, s) && s.glue.Some? && (s.phase.Idle? || s.phase.Evaluating?)
    requires |raw| == |s.glue.value.heap| && w.denotes(raw) == w.denotes(s.glue.value.heap)
    requires Continues(w, s, w.denotes(raw))
    requires eager ==> w.denotes(raw) != [] && w.denotes(raw)[|w.denotes(raw)| - 1] == Cell(cell, src)
    ensures var t := BeginCheckpoint(w, s, cell, src, eager, raw, usedHeap);
      Meaning(w, t) && History(w, t) == History(w, s)
  {
    hide DumpW4, ColdWake, StoredImage, DecodeRow;
    var prev := s.db.manifest;
    DumpIsSound(w, s, !eager || prev.None? || prev.value.deltaSeq + 1 >= BASE_EVERY, raw, usedHeap);
  }

  lemma BucketStepKeepsHistory(w: World, s: State, e: Event)
    requires Inv(w, s) && Enabled(w, s, e)
    requires e.PutLands? || e.PutReply? || e.OldDeleteLands? || e.OldDeleteReply?
    ensures History(w, Step(w, s, e)) == History(w, s)
  {
    hide DumpW4, ColdWake, StoredImage, DecodeRow;
    var t := Step(w, s, e);
    if e.PutLands? || e.PutReply? {
      PutKeyIsFresh(w, s, s.phase.ck);
    }
    BucketFrame(w, s.db, s.bucket, t.bucket);
    SameTables(w, s.db, t.db, t.bucket);
  }

  lemma BucketStepKeepsMeaning(w: World, s: State, e: Event)
    requires Inv(w, s) && Meaning(w, s) && Enabled(w, s, e)
    requires e.PutLands? || e.PutReply? || e.OldDeleteLands? || e.OldDeleteReply?
    ensures Meaning(w, Step(w, s, e)) && History(w, Step(w, s, e)) == History(w, s)
  {
    BucketStepKeepsHistory(w, s, e);
  }

  lemma EvalKeepsMeaning(w: World, s: State, e: Event)
    requires Inv(w, s) && Meaning(w, s) && Enabled(w, s, e) && e.EvalDone?
    ensures Meaning(w, Step(w, s, e)) && History(w, Step(w, s, e)) == History(w, s)
  {
    var ran := s.(glue := Some(s.glue.value.(heap := e.image)));
    if !s.phase.buffered || e.artifacts {
      DumpKeepsMeaning(w, ran, s.phase.cell, s.phase.src, true, e.raw, e.usedHeap);
    }
  }

  lemma FlushKeepsMeaning(w: World, s: State, e: Event)
    requires Inv(w, s) && Meaning(w, s) && Enabled(w, s, e) && e.StartFlush?
    ensures Meaning(w, Step(w, s, e)) && History(w, Step(w, s, e)) == History(w, s)
  {
    if IsDirty(s.db) && s.glue.Some? {
      var src := if s.db.lastDirtySrc.Some? then s.db.lastDirtySrc.value else "/* engram warmBuffered flush */";
      DumpKeepsMeaning(w, s, ReadLive(s.db), src, false, e.raw, e.usedHeap);
    }
  }

  /** The transaction replaces the committed history by the dumped one, which continues it. */
  lemma CommitExtends(w: World, s: State)
    requires Inv(w, s) && Meaning(w, s) && s.phase.Staging?
    ensures var t := Step(w, s, FsStaged);
      Meaning(w, t) && History(w, t) == w.denotes(s.phase.ck.image) && History(w, s) <= History(w, t)
  {
    hide DumpW4, ColdWake, StoredImage;
    TransactionStores(w, s);
  }

  lemma ExportKeepsMeaning(w: World, s: State)
    requires Inv(w, s) && Meaning(w, s) && s.phase.Exporting?
    ensures var t := Step(w, s, ManifestExported); Meaning(w, t) && History(w, t) == History(w, s)
  {
    var t := Step(w, s, ManifestExported);
    assert t.bucket == s.bucket && t.db.committedCell == s.db.committedCell && t.glue.Some? == s.glue.Some?;
    assert s.glue.Some? ==> t.glue.value.heap == s.glue.value.heap;
    SameTables(w, s.db, t.db, s.bucket);
  }

  /** Steps that leave the tables and the bucket as they are. */
  lemma OtherStepKeepsMeaning(w: World, s: State, e: Event)
    requires Inv(w, s) && Meaning(w, s) && Enabled(w, s, e)
    requires e.Crash? || e.EvictFrame? || e.StartEval? || e.VerifyReply?
    ensures Meaning(w, Step(w, s, e)) && History(w, Step(w, s, e)) == History(w, s)
  {
  }

  lemma ResetKeepsMeaning(w: World, s: State, e: Event)
    requires Inv(w, s) && Meaning(w, s) && Enabled(w, s, e) && IsReset(e)
    ensures Meaning(w, Step(w, s, e))
  {
  }

  ghost predicate Extends(w: World, s: State, e: Event) {
    Meaning(w, Step(w, s, e)) && (!IsReset(e) ==> History(w, s) <= History(w, Step(w, s, e)))
  }

  lemma HeapStepExtends(w: World, s: State, e: Event)
    requires Inv(w, s) && Meaning(w, s) && Faithful(w, s, e) && Enabled(w, s, e)
    requires e.CreateFrame? || e.WakeForEval? || e.EvalDone? || e.StartFlush?
    ensures Extends(w, s, e)
  {
    hide DumpW4, ColdWake;
    match e
    case CreateFrame(c) => WakeKeepsMeaning(w, s, c);
    case WakeForEval(c) => WakeKeepsMeaning(w, s, c);
    case EvalDone(_, _, _, _) => EvalKeepsMeaning(w, s, e);
    case StartFlush(_, _) => FlushKeepsMeaning(w, s, e);
  }

  predicate OfObjects(e: Event) {
    e.PutLands? || e.PutReply? || e.OldDeleteLands? || e.OldDeleteReply?
  }

  lemma StoreStepExtends(w: World, s: State, e: Event)
    requires Inv(w, s) && Meaning(w, s) && Enabled(w, s, e)
    requires !e.CreateFrame? && !e.WakeForEval? && !e.EvalDone? && !e.StartFlush?
    ensures Extends(w, s, e)
  {
    hide Step, Meaning, History, Inv;
    if OfObjects(e) { BucketStepKeepsMeaning(w, s, e); }
    else if e.FsStaged? { CommitExtends(w, s); }
    else if e.ManifestExported? { ExportKeepsMeaning(w, s); }
    else if IsReset(e) { ResetKeepsMeaning(w, s, e); }
    else { OtherStepKeepsMeaning(w, s, e); }
  }

  lemma StepExtends(w: World, s: State, e: Event)
    requires Inv(w, s) && Meaning(w, s) && Faithful(w, s, e)
    ensures Meaning(w, Step(w, s, e))
    ensures !IsReset(e) ==> History(w, s) <= History(w, Step(w, s, e))
  {
    if Enabled(w, s, e) {
      if e.CreateFrame? || e.WakeForEval? || e.EvalDone? || e.StartFlush? { HeapStepExtends(w, s, e); }
      else { StoreStepExtends(w, s, e); }
    }
  }

  /** Without a reset, the committed history of a session only ever grows by extension. */
  lemma {:induction false} RunExtends(w: World, s: State, es: seq<Event>)
    requires Inv(w, s) && Meaning(w, s) && FaithfulRun(w, s, es)
    ensures var t := Run(w, s, es);
      Inv(w, t) && Meaning(w, t) && History(w, s) <= History(w, t)
    decreases |es|
  {
    if es != [] {
      StepKeepsInv(w, s, es[0]);
      StepExtends(w, s, es[0]);
      RunExtends(w, Step(w, s, es[0]), es[1..]);
    }
  }

  /** Every wake along the run restores bytes; resets are allowed. */
  ghost predicate RestoringRun(w: World, s: State, es: seq<Event>)
    decreases |es|
  {
    es != [] ==> Faithful(w, s, es[0]) && RestoringRun(w, Step(w, s, es[0]), es[1..])
  }

  lemma {:induction false} RunKeepsMeaning(w: World, s: State, es: seq<Event>)
    requires Inv(w, s) && Meaning(w, s) && RestoringRun(w, s, es)
    ensures Inv(w, Run(w, s, es)) && Meaning(w, Run(w, s, es))
    decreases |es|
  {
    if es != [] {
      StepKeepsInv(w, s, es[0]);
      StepExtends(w, s, es[0]);
      RunKeepsMeaning(w, Step(w, s, es[0]), es[1..]);
    }
  }

  /**
   * In every state reachable from a new session, resets included: the live heap holds the
   * committed history and then only cells numbered above the committed one, and an eager
   * checkpoint under way ends with its own cell.
   */
  lemma ReachableMeaning(w: World, build: Build, es: seq<Event>)
    requires RestoringRun(w, Init(build), es)
    ensures Inv(w, Run(w, Init(build), es)) && Meaning(w, Run(w, Init(build), es))
  {
    RunKeepsMeaning(w, Init(build), es);
  }

  // ---- what a user is promised ---------------------------------------------------------------

  /** The eval whose eager checkpoint the step e reports as ok. */
  ghost predicate Acknowledges(w: World, s: State, e: Event, cell: Cell) {
    && (e.ManifestExported? || e.OldDeleteReply?) && Enabled(w, s, e)
    && s.phase.ck.eager && Step(w, s, e).phase.Idle?
    && cell == Cell(s.phase.ck.cell, s.phase.ck.src)
  }

  lemma AcknowledgedIsCommitted(w: World, s: State, e: Event, cell: Cell)
    requires Inv(w, s) && Meaning(w, s) && Acknowledges(w, s, e, cell)
    ensures var h := History(w, Step(w, s, e));
      h != [] && h[|h| - 1] == cell && Step(w, s, e).db.committedCell == cell.number
  {
    hide DumpW4, ColdWake, StoredImage;
    if e.OldDeleteReply? { BucketStepKeepsHistory(w, s, e); } else { ExportKeepsMeaning(w, s); }
  }

  /**
   * Durability: once a checkpoint is acknowledged, its cell is in every heap that any later
   * byte restore produces, after any further evals, flushes, evictions and crashes.
   */
  lemma AcknowledgedSurvives(w: World, s: State, e: Event, cell: Cell, es: seq<Event>, c: Wake)
    requires Inv(w, s) && Meaning(w, s) && Acknowledges(w, s, e, cell)
    requires FaithfulRun(w, Step(w, s, e), es)
    requires var t := Run(w, Step(w, s, e), es); t.glue.None? && RestoresBytes(w, t, c)
    ensures var woken := EnsureGlue(w, Run(w, Step(w, s, e), es), c);
      woken.Some? && woken.value.glue.Some? && cell in w.denotes(woken.value.glue.value.heap)
  {
    var t0 := Step(w, s, e);
    var t := Run(w, t0, es);
    StepKeepsInv(w, s, e);
    StepExtends(w, s, e);
    AcknowledgedIsCommitted(w, s, e, cell);
    RunExtends(w, t0, es);
    var h := History(w, t0);
    assert h[|h| - 1] == History(w, t)[|h| - 1];
    assert t.db.manifest.Some?;
    ColdWakeIsExact(w, t, c);
  }

  /**
   * A crash loses exactly a suffix: the heap a byte restore brings back is a prefix of the heap
   * that was lost, and every lost cell is numbered above committedCell.
   */
  lemma CrashLosesASuffix(w: World, s: State, build: Build, c: Wake)
    requires Inv(w, s) && Meaning(w, s) && s.glue.Some?
    requires RestoresBytes(w, Step(w, s, Crash(build)), c)
    requires s.db.manifest.None? ==> c.other.Some?
    ensures var woken := EnsureGlue(w, Step(w, s, Crash(build)), c);
      && woken.Some? && woken.value.glue.Some?
      && var before, after := w.denotes(s.glue.value.heap), w.denotes(woken.value.glue.value.heap);
         after <= before && forall i :: |after| <= i < |before| ==> before[i].number > s.db.committedCell
  {
    StepKeepsInv(w, s, Crash(build));
    if s.db.manifest.Some? {
      ColdWakeIsExact(w, Step(w, s, Crash(build)), c);
    }
  }
}
