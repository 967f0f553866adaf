/**
 * The reservation table beside the checkpoint protocol: eval_critical of apps/kernel/src/lib.rs
 * drives both. What a stored or replayed answer says about its checkpoint is compared with what
 * the protocol's transactions committed.
 */
module EvalBacking {
  import opened Prelude
  import opened Checkpoint
  import opened CheckpointSafety
  import opened CheckpointDurability
  import R = EvalReplies

  /**
   * The history beside the two machines: the source each id was last reserved with, and the cell
   * that a transaction committed while that id's eval was being served.
   */
  datatype Joint = Joint(
    replies: R.State,
    kernel: State,
    sent: map<R.ReqId, string>,
    backed: map<R.ReqId, Cell>)

  /** The moment and the outcome of a write to eval_replies. */
  datatype Storing = Storing(ok: bool, now: int, fits: bool, kept: set<R.ReqId>)

  datatype JointEvent =
    | Serve(id: Option<R.ReqId>, src: string, buffered: bool, now: int, kept: set<R.ReqId>)
    | Kernel(e: Event, storing: Storing)

  function JointInit(build: Build): Joint {
    Joint(R.Init, Init(build), map[], map[])
  }

  /** The checkpoint field of the reply, when event e ends the eval and one is composed. */
  function Composed(s: State, e: Event, t: State): Option<R.Claim>
    requires e.EvalDone? ==> s.phase.Evaluating?
  {
    if !t.phase.Idle? then None
    else match e
    case EvalDone(_, _, _, artifacts) =>
      Some(if s.phase.buffered && !artifacts then R.Claim(true, true) else R.Claim(false, false))
    case PutReply(_) => Some(R.Claim(false, false))
    case FsStaged => Some(R.Claim(false, false))
    case ManifestExported => Some(R.Claim(true, false))
    case OldDeleteReply(_) => Some(R.Claim(true, false))
    case _ => None
  }

  /** What the kernel's event is to the reply table. */
  function ReplyEvent(running: bool, s: State, e: Event, t: State, st: Storing): Option<R.Event>
    requires e.EvalDone? ==> s.phase.Evaluating?
  {
    if e.Crash? then Some(R.Crash)
    else if e.StartReset? then Some(R.Reset)
    else if !running then None
    else if e.WakeForEval? then Some(if t.phase.Evaluating? then R.EvalCode else R.Rejected)
    else if e.EvictFrame? then (if s.phase.Evaluating? then Some(R.Crash) else None)
    else
      var claim := Composed(s, e, t);
      if claim.None? then None else Some(R.Replied(st.ok, claim.value, st.now, st.fits, st.kept))
  }

  function ServedId(r: R.State): Option<R.ReqId> {
    if r.phase.Running? then r.phase.id else None
  }

  /** A frame is answered from the table, or starts an eval under a reservation of its own. */
  ghost function ServeStep(w: World, j: Joint, e: JointEvent): Joint
    requires e.Serve?
  {
    var frame := R.Frame(e.id, e.src, NextCell(j.kernel.db), e.now, e.kept);
    var r := R.Step(j.replies, frame);
    if !j.kernel.phase.Idle? || !r.phase.Running? then j
    else
      var id := R.IdOf(e.id);
      Joint(r, Step(w, j.kernel, StartEval(e.src, e.buffered)),
            if id.Some? then j.sent[id.value := e.src] else j.sent,
            if id.Some? then j.backed - {id.value} else j.backed)
  }

  function Backing(j: Joint, e: Event, t: State): map<R.ReqId, Cell>
    requires e.FsStaged? ==> j.kernel.phase.Staging?
  {
    var id := ServedId(j.replies);
    if e.StartReset? then map[]
    else if e.FsStaged? && t.phase.Exporting? && id.Some? then
      j.backed[id.value := Cell(j.kernel.phase.ck.cell, j.kernel.phase.ck.src)]
    else j.backed
  }

  /** Both machines and the history, once the kernel's event has led it to t. */
  ghost function Advance(j: Joint, e: Event, t: State, st: Storing): Joint
    requires Applies(j.kernel, e)
  {
    var re := ReplyEvent(j.replies.phase.Running?, j.kernel, e, t, st);
    if re.Some? && !R.Enabled(j.replies, re.value) then j
    else Joint(if re.Some? then R.Step(j.replies, re.value) else j.replies, t, j.sent, Backing(j, e, t))
  }

  predicate Applies(s: State, e: Event) {
    (e.EvalDone? ==> s.phase.Evaluating?) && (e.FsStaged? ==> s.phase.Staging?) && (e.StartReset? ==> s.phase.Idle?)
  }

  ghost function KernelStep(w: World, j: Joint, e: Event, st: Storing): Joint {
    if e.StartEval? || !Enabled(w, j.kernel, e) then j else Advance(j, e, Step(w, j.kernel, e), st)
  }

  ghost function JointStep(w: World, j: Joint, e: JointEvent): Joint {
    if e.Serve? then ServeStep(w, j, e) else KernelStep(w, j, e.e, e.storing)
  }

  ghost function JointRun(w: World, j: Joint, es: seq<JointEvent>): Joint
    decreases |es|
  {
    if es == [] then j else JointRun(w, JointStep(w, j, es[0]), es[1..])
  }

  // ---- the two machines in step --------------------------------------------------------------

  /** Whether the mutex holder is an eval, and which cell of which source. */
  function Evaluated(p: Phase): Option<Cell> {
    match p
    case Idle => None
    case Waking(cell, src, _) => Some(Cell(cell, src))
    case Evaluating(cell, src, _) => Some(Cell(cell, src))
    case Putting(ck) => OfEval(ck)
    case Verifying(ck) => OfEval(ck)
    case Staging(ck, _) => OfEval(ck)
    case Exporting(ck, _) => OfEval(ck)
    case Deleting(ck, _) => OfEval(ck)
    case Resetting(_) => None
  }

  function OfEval(ck: Ck): Option<Cell> {
    if ck.eager then Some(Cell(ck.cell, ck.src)) else None
  }

  predicate InStep(j: Joint) {
    match j.replies.phase
    case Idle => Evaluated(j.kernel.phase).None?
    case Running(id, src, cell, evaluated) =>
      && Evaluated(j.kernel.phase) == Some(Cell(cell, src))
      && evaluated == !j.kernel.phase.Waking?
      && (id.Some? ==> id.value in j.sent && j.sent[id.value] == src)
      && (id.Some? && id.value in j.replies.table ==> j.replies.table[id.value].reply.Pending?)
  }

  /** After its transaction, the served id is backed by the cell it committed. */
  predicate ServedIsBacked(j: Joint) {
    var id := ServedId(j.replies);
    id.Some? && (j.kernel.phase.Exporting? || j.kernel.phase.Deleting?) ==>
      id.value in j.backed && Some(j.backed[id.value]) == Evaluated(j.kernel.phase)
  }

  predicate RowOk(j: Joint, id: R.ReqId)
    requires id in j.replies.table
  {
    && id in j.sent
    && match j.replies.table[id].reply
       case Pending(cell, _, _) => j.replies.table[id].reply == R.PendingFor(cell, j.sent[id])
       case Final(cell, _, claim) =>
         claim == R.Claim(true, false) ==> id in j.backed && j.backed[id] == Cell(cell, j.sent[id])
  }

  predicate RowsOk(j: Joint) {
    forall id :: id in j.replies.table ==> RowOk(j, id)
  }

  predicate Coupled(j: Joint) {
    InStep(j) && ServedIsBacked(j) && RowsOk(j)
  }

  lemma ServeKeepsRows(w: World, j: Joint, e: JointEvent)
    requires e.Serve? && Coupled(j)
    ensures RowsOk(ServeStep(w, j, e))
  {
    hide Step;
    var k := ServeStep(w, j, e);
    forall id | id in k.replies.table ensures RowOk(k, id) {
      if id in j.replies.table { assert RowOk(j, id); }
    }
  }

  lemma ServeKeepsCoupled(w: World, j: Joint, e: JointEvent)
    requires e.Serve? && Coupled(j)
    ensures Coupled(ServeStep(w, j, e))
  {
    hide RowsOk, DumpW4, ColdWake, EnsureGlue, BeginCheckpoint;
    ServeKeepsRows(w, j, e);
  }

  /** The transaction is done, and the checkpoint not yet reported. */
  predicate Committing(k: State) {
    k.phase.Exporting? || k.phase.Deleting?
  }

  /** What an event leaves of the eval that is being served. */
  predicate Follows(s: State, e: Event, t: State) {
    && (t.phase.Idle? || t.phase.Resetting? || e.StartFlush? || Evaluated(t.phase) == Evaluated(s.phase))
    && (e.StartFlush? ==> s.phase.Idle? && Evaluated(t.phase).None?)
    && (t.phase.Resetting? ==> s.phase.Resetting? || e.StartReset?)
    && (t.phase.Idle? && s.phase.Waking? ==> e.Crash? || e.WakeForEval?)
    && (t.phase.Waking? ==> s.phase.Waking?)
    && (s.phase.Waking? && !t.phase.Waking? ==> e.Crash? || e.WakeForEval?)
    && (e.WakeForEval? ==> s.phase.Waking? && (t.phase.Idle? || t.phase.Evaluating?))
    && (e.EvictFrame? ==> t.phase == if s.phase.Evaluating? then Idle else s.phase)
    && (e.Crash? ==> t.phase.Idle?)
    && (t.phase.Idle? && !s.phase.Idle? && Evaluated(s.phase).Some? ==>
          e.Crash? || e.WakeForEval? || e.EvictFrame? || e.EvalDone? || e.PutReply? || e.FsStaged?
          || e.ManifestExported? || e.OldDeleteReply?)
    && (t.phase.Exporting? && !s.phase.Exporting? ==> e.FsStaged? && s.phase.Staging? && t.phase.ck == s.phase.ck)
    && (t.phase.Deleting? && !s.phase.Deleting? ==> s.phase.Exporting?)
    && (Committing(s) ==> Committing(t) || t.phase.Idle?)
    && (t.phase.Idle? && (e.ManifestExported? || e.OldDeleteReply?) ==> s.phase.Exporting? || s.phase.Deleting?)
  }

  lemma EventFollows(w: World, s: State, e: Event)
    requires Enabled(w, s, e) && !e.StartEval?
    ensures Applies(s, e) && Follows(s, e, Step(w, s, e))
  {
    hide DumpW4, ColdWake;
  }

  lemma AdvanceKeepsInStep(j: Joint, e: Event, t: State, st: Storing)
    requires Coupled(j) && Applies(j.kernel, e) && Follows(j.kernel, e, t)
    ensures InStep(Advance(j, e, t, st))
  {
  }

  lemma AdvanceKeepsServed(j: Joint, e: Event, t: State, st: Storing)
    requires Coupled(j) && Applies(j.kernel, e) && Follows(j.kernel, e, t)
    ensures ServedIsBacked(Advance(j, e, t, st))
  {
  }

  /** The served row is a reservation, so backing its id leaves every final row as it is. */
  lemma BackingKeepsRows(j: Joint, e: Event, t: State)
    requires Coupled(j) && Applies(j.kernel, e) && Follows(j.kernel, e, t) && !e.StartReset?
    ensures RowsOk(j.(kernel := t, backed := Backing(j, e, t)))
  {
    forall id | id in j.replies.table ensures RowOk(j.(kernel := t, backed := Backing(j, e, t)), id) {
      assert RowOk(j, id);
    }
  }

  /** Storing the reply of the served eval. */
  lemma StoringKeepsRows(j: Joint, re: R.Event)
    requires RowsOk(j) && re.Replied? && R.Enabled(j.replies, re)
    requires ServedId(j.replies).Some? ==>
      var id := ServedId(j.replies).value;
      && id in j.sent
      && (re.checkpoint == R.Claim(true, false) ==>
            id in j.backed && j.backed[id] == Cell(j.replies.phase.cell, j.sent[id]))
    ensures RowsOk(j.(replies := R.Step(j.replies, re)))
  {
    var k := j.(replies := R.Step(j.replies, re));
    forall id | id in k.replies.table ensures RowOk(k, id) {
      if id in j.replies.table { assert RowOk(j, id); }
    }
  }

  lemma AdvanceKeepsRows(j: Joint, e: Event, t: State, st: Storing)
    requires Coupled(j) && Applies(j.kernel, e) && Follows(j.kernel, e, t)
    ensures RowsOk(Advance(j, e, t, st))
  {
    var re := ReplyEvent(j.replies.phase.Running?, j.kernel, e, t, st);
    if !e.StartReset? {
      BackingKeepsRows(j, e, t);
      if re.Some? && re.value.Replied? && R.Enabled(j.replies, re.value) {
        StoringKeepsRows(j.(kernel := t, backed := Backing(j, e, t)), re.value);
      }
    }
  }

  lemma KernelKeepsCoupled(w: World, j: Joint, e: Event, st: Storing)
    requires Coupled(j)
    ensures Coupled(KernelStep(w, j, e, st))
  {
    if !e.StartEval? && Enabled(w, j.kernel, e) {
      var t := Step(w, j.kernel, e);
      EventFollows(w, j.kernel, e);
      AdvanceKeepsInStep(j, e, t, st);
      AdvanceKeepsServed(j, e, t, st);
      AdvanceKeepsRows(j, e, t, st);
    }
  }

  lemma StepKeepsCoupled(w: World, j: Joint, e: JointEvent)
    requires Coupled(j)
    ensures Coupled(JointStep(w, j, e))
  {
    if e.Serve? {
      ServeKeepsCoupled(w, j, e);
    } else {
      KernelKeepsCoupled(w, j, e.e, e.storing);
    }
  }

  lemma {:induction false} RunKeepsCoupled(w: World, j: Joint, es: seq<JointEvent>)
    requires Coupled(j)
    ensures Coupled(JointRun(w, j, es))
    decreases |es|
  {
    if es != [] {
      StepKeepsCoupled(w, j, es[0]);
      RunKeepsCoupled(w, JointStep(w, j, es[0]), es[1..]);
    }
  }

  // ---- what answers claim --------------------------------------------------------------------

  /** The answer says that a checkpoint happened, not that one is to come. */
  predicate ClaimsCommit(a: R.Answer) {
    a.Answer? && a.checkpoint == R.Claim(true, false)
  }

  /** How far the latest serving of an id has come. */
  datatype Serving = Unserved | BeforeCommit | AfterCommit | CutShort

  /** What one event does to it: a serving starts, commits, or ends before its transaction. */
  ghost function Progressed(w: World, j: Joint, e: JointEvent, id: R.ReqId, p: Serving): Serving {
    var k := JointStep(w, j, e);
    var now := ServedId(k.replies) == Some(id);
    if e.Serve? then if ServedId(j.replies).None? && now then BeforeCommit else p
    else if e.e.StartReset? && Enabled(w, j.kernel, e.e) then Unserved
    else if !p.BeforeCommit? then p
    else if k.kernel.phase.Exporting? then AfterCommit
    else if now then p else CutShort
  }

  ghost function Progress(w: World, j: Joint, es: seq<JointEvent>, id: R.ReqId, p: Serving): Serving
    decreases |es|
  {
    if es == [] then p else Progress(w, JointStep(w, j, es[0]), es[1..], id, Progressed(w, j, es[0], id, p))
  }

  predicate Tracks(j: Joint, id: R.ReqId, p: Serving) {
    && (id in j.backed <==> p.AfterCommit?)
    && (p.BeforeCommit? <==> ServedId(j.replies) == Some(id) && !Committing(j.kernel))
    && (id in j.replies.table ==> !p.Unserved?)
  }

  lemma ServeTracks(w: World, j: Joint, e: JointEvent, id: R.ReqId, p: Serving)
    requires e.Serve? && Coupled(j) && Tracks(j, id, p)
    ensures Tracks(ServeStep(w, j, e), id, Progressed(w, j, e, id, p))
  {
    hide RowsOk, DumpW4, ColdWake, EnsureGlue, BeginCheckpoint;
  }

  lemma AdvanceTracks(j: Joint, e: Event, t: State, st: Storing, id: R.ReqId, p: Serving, q: Serving)
    requires Coupled(j) && Applies(j.kernel, e) && Follows(j.kernel, e, t) && Tracks(j, id, p)
    requires var k := Advance(j, e, t, st);
      q == if e.StartReset? then Unserved
           else if !p.BeforeCommit? then p
           else if k.kernel.phase.Exporting? then AfterCommit
           else if ServedId(k.replies) == Some(id) then p else CutShort
    ensures Tracks(Advance(j, e, t, st), id, q)
  {
    hide RowsOk;
  }

  lemma StepTracks(w: World, j: Joint, e: JointEvent, id: R.ReqId, p: Serving)
    requires Coupled(j) && Tracks(j, id, p)
    ensures Tracks(JointStep(w, j, e), id, Progressed(w, j, e, id, p))
  {
    if e.Serve? {
      ServeTracks(w, j, e, id, p);
    } else if !e.e.StartEval? && Enabled(w, j.kernel, e.e) {
      EventFollows(w, j.kernel, e.e);
      hide Step, Advance, Coupled, Tracks;
      AdvanceTracks(j, e.e, Step(w, j.kernel, e.e), e.storing, id, p, Progressed(w, j, e, id, p));
    }
  }

  lemma {:induction false} RunTracks(w: World, j: Joint, es: seq<JointEvent>, id: R.ReqId, p: Serving)
    requires Coupled(j) && Tracks(j, id, p)
    ensures Tracks(JointRun(w, j, es), id, Progress(w, j, es, id, p))
    decreases |es|
  {
    if es != [] {
      hide JointStep, Coupled, Tracks, Progressed;
      StepTracks(w, j, es[0], id, p);
      StepKeepsCoupled(w, j, es[0]);
      RunTracks(w, JointStep(w, j, es[0]), es[1..], id, Progressed(w, j, es[0], id, p));
    }
  }

  /** What ends a serving before its transaction. */
  lemma CutShortBy(w: World, j: Joint, e: JointEvent, id: R.ReqId, p: Serving)
    requires Coupled(j) && Tracks(j, id, p) && p.BeforeCommit? && Progressed(w, j, e, id, p).CutShort?
    ensures e.Kernel? && Enabled(w, j.kernel, e.e)
    ensures e.e.Crash? || e.e.EvictFrame? || e.e.WakeForEval? || e.e.EvalDone? || e.e.PutReply? || e.e.FsStaged?
  {
    if e.Kernel? && !e.e.StartEval? && Enabled(w, j.kernel, e.e) {
      EventFollows(w, j.kernel, e.e);
      hide Step, RowsOk;
    }
  }

  /**
   * In every reachable state, for every id in the table: the answer it replays claims a commit
   * that no transaction made exactly when its row is still a reservation, for a source that looks
   * long-running or effectful, and the latest serving of the id is still before its transaction
   * or ended before it. A stored final answer that claims a commit names the cell committed for it.
   */
  lemma UnbackedClaimIff(w: World, build: Build, es: seq<JointEvent>, id: R.ReqId)
    requires id in JointRun(w, JointInit(build), es).replies.table
    ensures var j, p := JointRun(w, JointInit(build), es), Progress(w, JointInit(build), es, id, Unserved);
      var reply := j.replies.table[id].reply;
      && id in j.sent
      && (ClaimsCommit(R.Replayed(reply)) && id !in j.backed
          <==> reply.Pending? && (R.LooksLong(j.sent[id]) || R.LooksEffectful(j.sent[id]))
               && (p.BeforeCommit? || p.CutShort?))
      && (reply.Final? && ClaimsCommit(R.Replayed(reply)) ==>
            id in j.backed && j.backed[id] == Cell(reply.cell, j.sent[id]))
  {
    RunKeepsCoupled(w, JointInit(build), es);
    RunTracks(w, JointInit(build), es, id, Unserved);
    hide JointRun, Progress;
    assert RowOk(JointRun(w, JointInit(build), es), id);
  }

  /** A reservation left behind by a crash is such a row. */
  lemma CrashLeavesUnbackedClaim(w: World, build: Build, id: R.ReqId, src: string, st: Storing)
    requires R.Honoured(id) && (R.LooksLong(src) || R.LooksEffectful(src))
    ensures var j := JointRun(w, JointInit(build), [Serve(Some(id), src, false, 1, {id}), Kernel(Crash(build), st)]);
      && id in j.replies.table && id !in j.backed && j.replies.ran == []
      && ClaimsCommit(R.Replayed(j.replies.table[id].reply))
  {
    var first, second := Serve(Some(id), src, false, 1, {id}), Kernel(Crash(build), st);
    FirstServing(w, build, id, src);
    var j1 := JointStep(w, JointInit(build), first);
    hide ServeStep, R.Step, Step;
    assert [first, second][1..] == [second] && [second][1..] == [];
    assert JointRun(w, JointInit(build), [first, second]) == JointRun(w, j1, [second]);
    assert JointRun(w, j1, [second]) == JointRun(w, JointStep(w, j1, second), []);
    CrashKeepsRow(w, j1, build, st);
  }

  lemma FirstServing(w: World, build: Build, id: R.ReqId, src: string)
    requires R.Honoured(id)
    ensures var j := ServeStep(w, JointInit(build), Serve(Some(id), src, false, 1, {id}));
      && j.replies.table == map[id := R.Row(R.PendingFor(0, src), 1)] && j.replies.ran == [] && j.backed == map[]
  {
    hide DumpW4, ColdWake, EnsureGlue, Transact;
    var t := map[id := R.Row(R.PendingFor(0, src), 1)];
    assert R.Init.table[id := R.Row(R.PendingFor(0, src), 1)] == t && t.Keys == {id};
    assert R.Prunes(t, {id}) && R.Restrict(t, {id}) == t;
    assert NextCell(Init(build).db) == 0;
  }

  lemma CrashKeepsRow(w: World, j: Joint, build: Build, st: Storing)
    ensures var k := KernelStep(w, j, Crash(build), st);
      k.replies.table == j.replies.table && k.replies.ran == j.replies.ran && k.backed == j.backed
  {
    hide DumpW4, ColdWake, EnsureGlue, Transact;
  }

  // ---- and what backs them -------------------------------------------------------------------

  ghost predicate FaithfulWakes(w: World, j: Joint, es: seq<JointEvent>)
    decreases |es|
  {
    es != [] ==> (es[0].Kernel? ==> Faithful(w, j.kernel, es[0].e)) && FaithfulWakes(w, JointStep(w, j, es[0]), es[1..])
  }

  /** The cells that back answers are in the committed history. */
  ghost predicate InHistory(w: World, j: Joint) {
    && (forall id :: id in j.backed ==> j.backed[id] in History(w, j.kernel))
    && (j.kernel.phase.Resetting? ==> j.backed == map[])
  }

  ghost predicate Backed(w: World, j: Joint) {
    Inv(w, j.kernel) && Meaning(w, j.kernel) && Coupled(j) && InHistory(w, j)
  }

  lemma LongerHolds(h: seq<Cell>, longer: seq<Cell>, cell: Cell)
    requires h <= longer && cell in h
    ensures cell in longer
  {
    var i :| 0 <= i < |h| && h[i] == cell;
    assert longer[i] == cell;
  }

  lemma ServeKeepsHistory(w: World, j: Joint, e: JointEvent)
    requires Backed(w, j) && e.Serve?
    ensures var k := ServeStep(w, j, e); Inv(w, k.kernel) && Meaning(w, k.kernel) && InHistory(w, k)
  {
    StepKeepsInv(w, j.kernel, StartEval(e.src, e.buffered));
    StepExtends(w, j.kernel, StartEval(e.src, e.buffered));
    var k := ServeStep(w, j, e);
    forall id | id in k.backed ensures k.backed[id] in History(w, k.kernel) {
      if k != j { LongerHolds(History(w, j.kernel), History(w, k.kernel), j.backed[id]); }
    }
  }

  lemma CommitBacks(w: World, s: State)
    requires Inv(w, s) && Meaning(w, s) && s.phase.Staging? && s.phase.ck.eager
    ensures Cell(s.phase.ck.cell, s.phase.ck.src) in History(w, Step(w, s, FsStaged))
  {
    CommitExtends(w, s);
    var h := w.denotes(s.phase.ck.image);
    assert h[|h| - 1] in h;
  }

  lemma BackingHolds(j: Joint, e: Event, t: State, before: seq<Cell>, after: seq<Cell>)
    requires InStep(j) && Applies(j.kernel, e) && Follows(j.kernel, e, t)
    requires forall id :: id in j.backed ==> j.backed[id] in before
    requires j.kernel.phase.Resetting? ==> j.backed == map[]
    requires IsReset(e) ==> e.StartReset? || j.kernel.phase.Resetting?
    requires !IsReset(e) ==> before <= after
    requires e.FsStaged? && t.phase.Exporting? && j.kernel.phase.ck.eager ==>
               Cell(j.kernel.phase.ck.cell, j.kernel.phase.ck.src) in after
    ensures forall id :: id in Backing(j, e, t) ==> Backing(j, e, t)[id] in after
    ensures t.phase.Resetting? ==> Backing(j, e, t) == map[]
  {
    forall id | id in Backing(j, e, t) ensures Backing(j, e, t)[id] in after {
      if id in j.backed && !IsReset(e) { LongerHolds(before, after, j.backed[id]); }
    }
  }

  lemma AdvanceIsInHistory(w: World, j: Joint, e: Event, t: State, st: Storing)
    requires InHistory(w, j) && Applies(j.kernel, e)
    requires forall id :: id in Backing(j, e, t) ==> Backing(j, e, t)[id] in History(w, t)
    requires t.phase.Resetting? ==> Backing(j, e, t) == map[]
    ensures InHistory(w, Advance(j, e, t, st))
  {
  }

  lemma AdvanceKeepsHistory(w: World, j: Joint, e: Event, st: Storing)
    requires Backed(w, j) && Faithful(w, j.kernel, e) && !e.StartEval? && Enabled(w, j.kernel, e)
    ensures InHistory(w, Advance(j, e, Step(w, j.kernel, e), st))
  {
    hide Inv, Meaning, Step, History;
    var t := Step(w, j.kernel, e);
    EventFollows(w, j.kernel, e);
    StepExtends(w, j.kernel, e);
    if e.FsStaged? && j.kernel.phase.ck.eager { CommitBacks(w, j.kernel); }
    BackingHolds(j, e, t, History(w, j.kernel), History(w, t));
    AdvanceIsInHistory(w, j, e, t, st);
  }

  /**
   * While wakes restore bytes, resets included: every cell that backs an answer is in the
   * committed history, so a final answer that claims a commit is true of every later state.
   */
  lemma {:induction false} BackingIsCommitted(w: World, j: Joint, es: seq<JointEvent>)
    requires Backed(w, j) && FaithfulWakes(w, j, es)
    ensures Backed(w, JointRun(w, j, es))
    decreases |es|
  {
    hide Inv, Meaning, Step, History;
    if es != [] {
      var e, k := es[0], JointStep(w, j, es[0]);
      StepKeepsCoupled(w, j, e);
      if e.Serve? {
        ServeKeepsHistory(w, j, e);
      } else if !e.e.StartEval? && Enabled(w, j.kernel, e.e) {
        StepKeepsInv(w, j.kernel, e.e);
        StepExtends(w, j.kernel, e.e);
        AdvanceKeepsHistory(w, j, e.e, e.storing);
      }
      BackingIsCommitted(w, k, es[1..]);
    }
  }

  /** A final answer that claims a commit names a cell of the committed history. */
  lemma FinalClaimsAreTrue(w: World, build: Build, es: seq<JointEvent>, id: R.ReqId)
    requires FaithfulWakes(w, JointInit(build), es)
    requires id in JointRun(w, JointInit(build), es).replies.table
    requires var reply := JointRun(w, JointInit(build), es).replies.table[id].reply;
      reply.Final? && ClaimsCommit(R.Replayed(reply))
    ensures var j := JointRun(w, JointInit(build), es);
      id in j.sent && Cell(j.replies.table[id].reply.cell, j.sent[id]) in History(w, j.kernel)
  {
    BackingIsCommitted(w, JointInit(build), es);
    UnbackedClaimIff(w, build, es, id);
  }

  // ---- the table's own machine ---------------------------------------------------------------

  /** Every run of the two is a run of the reply table, so what holds of its runs holds here. */
  lemma {:induction false} RunsAreReplyRuns(w: World, j: Joint, es: seq<JointEvent>) returns (rs: seq<R.Event>)
    ensures R.Run(j.replies, rs) == JointRun(w, j, es).replies
    decreases |es|
  {
    if es == [] { rs := []; }
    else {
      var k := JointStep(w, j, es[0]);
      rs := RunsAreReplyRuns(w, k, es[1..]);
      var first := if es[0].Serve? then Some(R.Frame(es[0].id, es[0].src, NextCell(j.kernel.db), es[0].now, es[0].kept))
                   else if es[0].e.StartEval? || !Enabled(w, j.kernel, es[0].e) then None
                   else ReplyEvent(j.replies.phase.Running?, j.kernel, es[0].e, Step(w, j.kernel, es[0].e),
                                   es[0].storing);
      if k.replies != j.replies {
        rs := [first.value] + rs;
        R.UnrollRun(j.replies, rs);
      }
    }
  }
}
