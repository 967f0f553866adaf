/**
 * Cell numbers (next_cell in apps/kernel/src/lib.rs): in a heap and in the committed history they
 * ascend, over every run in which no eager checkpoint fails; after one that fails they need not.
 */
module CheckpointNumbers {
  import opened Prelude
  import opened SqlTable
  import opened W4Delta
  import opened Checkpoint
  import opened CheckpointSafety
  import opened CheckpointDurability
  import opened CheckpointFlush
  import opened CheckpointWake

  /** Strictly ascending numbers, all below the bound. */
  predicate Ascends(h: seq<Cell>, bound: int) {
    && (forall i, j :: 0 <= i < j < |h| ==> h[i].number < h[j].number)
    && (forall i :: 0 <= i < |h| ==> h[i].number < bound)
  }

  /** The lowest number the next cell can get. */
  function Bound(s: State): int {
    match s.phase
    case Waking(cell, _, _) => cell
    case Evaluating(cell, _, _) => cell
    case Putting(ck) => ck.cell + 1
    case Verifying(ck) => ck.cell + 1
    case Staging(ck, _) => ck.cell + 1
    case Exporting(ck, _) => ck.cell + 1
    case Deleting(ck, _) => ck.cell + 1
    case _ => NextCell(s.db)
  }

  predicate Uncommitted(s: State) {
    s.phase.Putting? || s.phase.Verifying? || s.phase.Staging?
  }

  predicate Dumped(s: State) {
    Uncommitted(s) || s.phase.Exporting? || s.phase.Deleting?
  }

  ghost predicate Numbered(w: World, s: State) {
    && Ascends(History(w, s), s.db.committedCell + 1)
    && (s.glue.Some? ==> Ascends(w.denotes(s.glue.value.heap), Bound(s)))
    && (Dumped(s) ==> Ascends(w.denotes(s.phase.ck.image), Bound(s)))
    && ReadLive(s.db) < Bound(s) && s.db.committedCell < Bound(s)
    && (Uncommitted(s) && s.phase.ck.eager ==> s.phase.ck.cell > ReadLive(s.db))
    && (Uncommitted(s) && !s.phase.ck.eager ==> s.phase.ck.cell == ReadLive(s.db))
  }

  /** An eager checkpoint that the ceilings or the bucket refuse while the heap lives on. */
  predicate Fails(s: State, e: Event) {
    && s.glue.Some?
    && match e
       case EvalDone(image, _, usedHeap, artifacts) =>
         s.phase.Evaluating? && (!s.phase.buffered || artifacts) && !Fits(image, usedHeap)
       case PutReply(ok) => s.phase.Putting? && s.phase.ck.eager && !ok
       case _ => false
  }

  lemma EvalKeepsNumbers(w: World, s: State, e: Event)
    requires Inv(w, s) && Meaning(w, s) && Numbered(w, s) && Enabled(w, s, e) && e.EvalDone?
    ensures Numbered(w, Step(w, s, e)) <==> !Fails(s, e)
  {
    hide DumpW4, ColdWake, StoredImage, DecodeRow, BeginCheckpoint;
    EvalKeepsMeaning(w, s, e);
    var h := w.denotes(e.raw);
    assert h[|h| - 1].number == s.phase.cell;
    if s.phase.buffered && !e.artifacts { EvalDefers(w, s, e); } else { EvalBegins(w, s, e); }
  }

  lemma FlushKeepsNumbers(w: World, s: State, e: Event)
    requires Inv(w, s) && Meaning(w, s) && Numbered(w, s) && Enabled(w, s, e) && e.StartFlush?
    ensures Numbered(w, Step(w, s, e))
  {
    hide DumpW4, ColdWake, StoredImage, DecodeRow, BeginCheckpoint;
    FlushKeepsMeaning(w, s, e);
    if s.glue.Some? && IsDirty(s.db) { FlushBegins(w, s, e.raw, e.usedHeap); }
  }

  lemma PutKeepsNumbers(w: World, s: State, e: Event)
    requires Inv(w, s) && Meaning(w, s) && Numbered(w, s) && Enabled(w, s, e) && (e.PutLands? || e.PutReply?)
    ensures Numbered(w, Step(w, s, e)) <==> !Fails(s, e)
  {
    hide DumpW4, ColdWake, StoredImage, DecodeRow, History;
    BucketStepKeepsMeaning(w, s, e);
    if Fails(s, e) {
      var h := w.denotes(s.glue.value.heap);
      assert h[|h| - 1].number == s.phase.ck.cell;
    }
  }

  lemma DeleteKeepsNumbers(w: World, s: State, e: Event)
    requires Inv(w, s) && Meaning(w, s) && Numbered(w, s) && Enabled(w, s, e)
    requires e.OldDeleteLands? || e.OldDeleteReply?
    ensures Numbered(w, Step(w, s, e)) && !Fails(s, e)
  {
    hide DumpW4, ColdWake, StoredImage, DecodeRow, History;
    BucketStepKeepsMeaning(w, s, e);
  }

  lemma WakeKeepsNumbers(w: World, s: State, e: Event)
    requires Inv(w, s) && Meaning(w, s) && Numbered(w, s) && Enabled(w, s, e) && Faithful(w, s, e)
    requires e.CreateFrame? || e.WakeForEval?
    ensures Numbered(w, Step(w, s, e))
  {
    hide DumpW4, ColdWake, StoredImage, DecodeRow;
    WakeKeepsMeaning(w, s, e.wake);
    if s.glue.None? {
      if s.db.manifest.Some? { ColdWakeIsExact(w, s, e.wake); } else { FreshWake(w, s, e.wake); }
    }
  }

  lemma FreshWake(w: World, s: State, c: Wake)
    requires s.db.manifest.None?
    ensures ColdWake(w, s, c) == Replay(s, c, None)
  {
  }

  lemma CommitKeepsNumbers(w: World, s: State)
    requires Inv(w, s) && Meaning(w, s) && Numbered(w, s) && s.phase.Staging?
    ensures Numbered(w, Step(w, s, FsStaged))
  {
    hide DumpW4, ColdWake, StoredImage, DecodeRow;
    CommitExtends(w, s);
    TransactionStores(w, s);
  }

  lemma ExportKeepsNumbers(w: World, s: State)
    requires Inv(w, s) && Meaning(w, s) && Numbered(w, s) && s.phase.Exporting?
    ensures Numbered(w, Step(w, s, ManifestExported))
  {
    hide DumpW4, ColdWake, StoredImage, DecodeRow, History;
    ExportKeepsMeaning(w, s);
  }


  lemma ResetKeepsNumbers(w: World, s: State, e: Event)
    requires Inv(w, s) && Meaning(w, s) && Numbered(w, s) && Enabled(w, s, e) && IsReset(e)
    ensures Numbered(w, Step(w, s, e))
  {
    hide DumpW4, ColdWake, DecodeRow, StoredImage, History;
    NothingStored(w, Step(w, s, e));
  }

  lemma QuietStepKeepsNumbers(w: World, s: State, e: Event)
    requires Inv(w, s) && Meaning(w, s) && Numbered(w, s) && Enabled(w, s, e)
    requires e.Crash? || e.EvictFrame? || e.StartEval? || e.VerifyReply?
    ensures Numbered(w, Step(w, s, e))
  {
    hide DumpW4, ColdWake, StoredImage, DecodeRow, History;
    OtherStepKeepsMeaning(w, s, e);
  }

  /** A step breaks the numbering exactly when it is the failure of an eager checkpoint. */
  lemma StepKeepsNumbersIff(w: World, s: State, e: Event)
    requires Inv(w, s) && Meaning(w, s) && Numbered(w, s) && Faithful(w, s, e)
    ensures Numbered(w, Step(w, s, e)) <==> !(Enabled(w, s, e) && Fails(s, e))
  {
    hide Numbered, Step, Inv, Meaning;
    if !Enabled(w, s, e) { Disabled(w, s, e); }
    else if e.EvalDone? { EvalKeepsNumbers(w, s, e); }
    else if e.StartFlush? { FlushKeepsNumbers(w, s, e); }
    else if e.PutLands? || e.PutReply? { PutKeepsNumbers(w, s, e); }
    else if OfObjects(e) { DeleteKeepsNumbers(w, s, e); }
    else if e.CreateFrame? || e.WakeForEval? { WakeKeepsNumbers(w, s, e); }
    else if e.FsStaged? { CommitKeepsNumbers(w, s); }
    else if e.ManifestExported? { ExportKeepsNumbers(w, s); }
    else if IsReset(e) { ResetKeepsNumbers(w, s, e); }
    else { QuietStepKeepsNumbers(w, s, e); }
  }

  lemma Disabled(w: World, s: State, e: Event)
    requires !Enabled(w, s, e)
    ensures Step(w, s, e) == s
  {
  }

  ghost predicate NeverFails(w: World, s: State, es: seq<Event>)
    decreases |es|
  {
    es != [] ==> !(Enabled(w, s, es[0]) && Fails(s, es[0])) && NeverFails(w, Step(w, s, es[0]), es[1..])
  }

  /**
   * From a new session, over every run whose wakes restore bytes and in which no eager checkpoint
   * fails: the cells of the heap and of the committed history have ascending numbers, and the
   * next cell's number is above them all.
   */
  lemma {:induction false} RunKeepsNumbers(w: World, s: State, es: seq<Event>)
    requires Inv(w, s) && Meaning(w, s) && Numbered(w, s) && RestoringRun(w, s, es) && NeverFails(w, s, es)
    ensures Numbered(w, Run(w, s, es))
    decreases |es|
  {
    hide Numbered, Step, Inv, Meaning;
    if es != [] {
      StepKeepsInv(w, s, es[0]);
      StepExtends(w, s, es[0]);
      StepKeepsNumbersIff(w, s, es[0]);
      RunKeepsNumbers(w, Step(w, s, es[0]), es[1..]);
    }
  }

  lemma ReachableIsNumbered(w: World, build: Build, es: seq<Event>)
    requires RestoringRun(w, Init(build), es) && NeverFails(w, Init(build), es)
    ensures var t := Run(w, Init(build), es);
      && Ascends(History(w, t), t.db.committedCell + 1)
      && (t.phase.Idle? && t.glue.Some? ==> Ascends(w.denotes(t.glue.value.heap), NextCell(t.db)))
  {
    hide DumpW4, ColdWake, DecodeRow;
    RunKeepsNumbers(w, Init(build), es);
  }

  /**
   * After a failure the number is planned again, or a lower one: the next cell is not above the
   * cell that failed, which is still the last one in the heap.
   */
  lemma FailedNumberIsReused(w: World, s: State, e: Event, src: string, buffered: bool)
    requires Inv(w, s) && Meaning(w, s) && Numbered(w, s) && Enabled(w, s, e) && Fails(s, e)
    ensures var t := Step(w, Step(w, s, e), StartEval(src, buffered));
      var h := w.denotes(t.glue.value.heap);
      && t.phase.Waking? && h != [] && t.phase.cell <= h[|h| - 1].number
      && (s.phase.Putting? ==> t.phase.cell > s.db.committedCell)
  {
    hide DumpW4, ColdWake, StoredImage, DecodeRow, History, BeginCheckpoint;
    if e.EvalDone? { EvalBegins(w, s, e); }
    var h := w.denotes(Step(w, s, e).glue.value.heap);
    assert e.EvalDone? ==> h == w.denotes(s.glue.value.heap) + [Cell(s.phase.cell, s.phase.src)];
  }
}
