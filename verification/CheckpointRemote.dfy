/**
 * The same protocol over a bucket whose requests outlive their answers: a PUT or a DELETE stays in
 * flight across an error reply, a crash and a reset, and takes effect once, whenever it likes.
 * Which late requests can reach the committed object is decided here.
 */
module CheckpointRemote {
  import opened Prelude
  import opened W4Delta
  import opened SqlTable
  import opened Checkpoint
  import opened CheckpointSafety
  import opened CheckpointDurability

  datatype Request = Put(key: Key, body: bytes) | Remove(key: Key)

  /** The session, every request it ever sent, and the numbers of those that have not landed. */
  datatype Session = Session(k: State, log: seq<Request>, flight: set<nat>)

  datatype Move =
    | Local(e: Event)       // any event but those of the bucket
    | Land(n: nat)          // request n takes effect
    | Answer(ok: bool)      // the reply to the request being waited for

  function Start(build: Build): Session {
    Session(Init(build), [], {})
  }

  predicate OfBucket(e: Event) {
    e.PutLands? || e.PutReply? || e.OldDeleteLands? || e.OldDeleteReply? || e.ResetDeleteLands? || e.FinishReset?
  }

  /** The request a phase waits for. */
  function Outgoing(p: Phase): Option<Request> {
    match p
    case Putting(ck) => Some(Put(NewKey(ck), ck.dump.gz))
    case Deleting(_, stale) => Some(Remove(stale))
    case Resetting(stale) => Some(Remove(stale))
    case _ => None
  }

  /** Entering such a phase sends its request. */
  function Send(s: Session, t: State): Session {
    if t.phase == s.k.phase || Outgoing(t.phase).None? then s.(k := t)
    else Session(t, s.log + [Outgoing(t.phase).value], s.flight + {|s.log|})
  }

  function Applied(bucket: Bucket, r: Request): Bucket {
    match r
    case Put(key, body) => bucket[key := body]
    case Remove(key) => bucket - {key}
  }

  /** The request being waited for has landed. */
  predicate Landed(s: Session) {
    |s.log| - 1 !in s.flight
  }

  /** A request answered with success has landed; one answered with an error may still land. */
  predicate Possible(w: World, s: Session, m: Move) {
    match m
    case Local(e) => !OfBucket(e)
    case Land(n) => n in s.flight && n < |s.log|
    case Answer(ok) => Outgoing(s.k.phase).Some? && (ok ==> Landed(s))
  }

  function Answered(k: State, ok: bool): State
    requires Outgoing(k.phase).Some?
  {
    match k.phase
    case Putting(ck) => k.(phase := if ok then Verifying(ck) else Idle)
    case Deleting(ck, _) => Finish(k, ck)
    case Resetting(_) => FinishResetOf(k)
  }

  ghost function Go(w: World, s: Session, m: Move): Session {
    if !Possible(w, s, m) then s
    else match m
    case Local(e) => Send(s, Step(w, s.k, e))
    case Land(n) => Session(s.k.(bucket := Applied(s.k.bucket, s.log[n])), s.log, s.flight - {n})
    case Answer(ok) => s.(k := Answered(s.k, ok))
  }

  ghost function GoAll(w: World, s: Session, ms: seq<Move>): Session
    decreases |ms|
  {
    if ms == [] then s else GoAll(w, Go(w, s, ms[0]), ms[1..])
  }

  // ---- what is kept while no late PUT hits a guarded object ----------------------------------

  /** A key of an earlier epoch, or of a cell that is committed or older. */
  predicate Past(db: Durable, key: Key) {
    key.epoch < db.epoch || (key.epoch == db.epoch && key.cell <= db.committedCell)
  }

  predicate Names(k: State, key: Key) {
    k.db.manifest.Some? && k.db.manifest.value.r2Key == Some(key)
  }

  /** Objects that must not change: the committed one, and the uploaded one about to be. */
  predicate Guarded(s: Session, key: Key) {
    || Names(s.k, key)
    || match s.k.phase
       case Putting(ck) => NewKey(ck) == key && Landed(s)
       case Verifying(ck) => NewKey(ck) == key
       case Staging(ck, tier) => tier == R2 && NewKey(ck) == key
       case _ => false
  }

  predicate Holds(bucket: Bucket, key: Key, body: bytes) {
    key in bucket && bucket[key] == body
  }

  /** Landing it now would change a guarded object. */
  predicate Clashes(s: Session, n: nat) {
    && n in s.flight && n < |s.log| && s.log[n].Put?
    && Guarded(s, s.log[n].key) && !Holds(s.k.bucket, s.log[n].key, s.log[n].body)
  }

  ghost predicate Requests(s: Session) {
    && (forall n :: n in s.flight ==> n < |s.log|)
    && (forall n :: n in s.flight && s.log[n].Remove? ==> Past(s.k.db, s.log[n].key) && !Names(s.k, s.log[n].key))
    && (s.k.phase.Putting? ==>
          && s.log != [] && s.log[|s.log| - 1] == Outgoing(s.k.phase).value
          && (Landed(s) ==> Uploaded(s.k, s.k.phase.ck)))
    && (s.k.phase.Exporting? && Replaced(s.k.phase.ck, s.k.phase.tier).Some? ==>
          Past(s.k.db, Replaced(s.k.phase.ck, s.k.phase.tier).value))
  }

  ghost predicate Sound(w: World, s: Session) {
    Inv(w, s.k) && Requests(s)
  }

  /** The committed object's key is past. */
  lemma CommittedKeyIsPast(w: World, k: State)
    requires ManifestOk(w, k) && k.db.manifest.Some? && k.db.manifest.value.r2Key.Some?
    ensures Past(k.db, k.db.manifest.value.r2Key.value)
  {
    assert k.db.oplog[0].value.cell <= k.db.oplog[k.db.manifest.value.deltaSeq].value.cell;
  }

  lemma OtherLands(w: World, s: Session, n: nat)
    requires Sound(w, s) && Possible(w, s, Land(n)) && (s.log[n].Put? ==> !Guarded(s, s.log[n].key))
    ensures Sound(w, Go(w, s, Land(n)))
  {
    hide StoredImage, DecodeRow;
    BucketFrame(w, s.k.db, s.k.bucket, Go(w, s, Land(n)).k.bucket);
  }

  lemma LandKeepsSound(w: World, s: Session, n: nat)
    requires Sound(w, s) && Possible(w, s, Land(n)) && !Clashes(s, n)
    ensures Sound(w, Go(w, s, Land(n)))
  {
    if s.log[n].Put? && Guarded(s, s.log[n].key) {
      hide StoredImage, DecodeRow, ManifestOk, GlueOk, DumpOk;
      assert Go(w, s, Land(n)).k == s.k by { assert Applied(s.k.bucket, s.log[n]) == s.k.bucket; }
    } else {
      OtherLands(w, s, n);
    }
  }

  lemma AnswerKeepsSound(w: World, s: Session, ok: bool)
    requires Sound(w, s) && Possible(w, s, Answer(ok))
    ensures Sound(w, Go(w, s, Answer(ok)))
  {
    hide DumpW4, ColdWake, StoredImage, DecodeRow;
    match s.k.phase {
      case Putting(ck) =>
      case Deleting(_, _) => StepKeepsInv(w, s.k, OldDeleteReply(false));
      case Resetting(_) => StepKeepsInv(w, s.k, FinishReset(false));
    }
  }

  /** What a step away from the bucket does to keys and requests. */
  ghost predicate Effects(s: State, t: State) {
    && t.bucket == s.bucket
    && (t.db.epoch > s.db.epoch || (t.db.epoch == s.db.epoch && t.db.committedCell >= s.db.committedCell))
    && (forall key :: Names(t, key) && !Names(s, key) ==> s.phase.Staging? && key == NewKey(s.phase.ck))
    && (t.phase.Exporting? && t.phase != s.phase ==>
          s.phase.Staging? && t.phase.ck == s.phase.ck && t.db.epoch == s.db.epoch)
    && (t.phase.Deleting? && t.phase != s.phase ==>
          s.phase.Exporting? && Replaced(s.phase.ck, s.phase.tier) == Some(t.phase.stale))
    && (t.phase.Resetting? && t.phase != s.phase ==> Names(s, t.phase.stale))
  }

  lemma HeapStepHasEffects(w: World, s: State, e: Event)
    requires Enabled(w, s, e) && (e.EvalDone? || e.StartFlush? || e.CreateFrame? || e.WakeForEval?)
    ensures Effects(s, Step(w, s, e))
  {
    hide DumpW4, ColdWake;
  }

  lemma StoreStepHasEffects(w: World, s: State, e: Event)
    requires Inv(w, s) && Enabled(w, s, e) && !OfBucket(e)
    requires !e.EvalDone? && !e.StartFlush? && !e.CreateFrame? && !e.WakeForEval?
    ensures Effects(s, Step(w, s, e))
  {
    hide DumpW4, ColdWake, EnsureGlue, BeginCheckpoint, ManifestOk, GlueOk, DumpOk, StoredImage, DecodeRow;
    if e.FsStaged? { TransactionStores(w, s); }
  }

  lemma StepHasEffects(w: World, s: State, e: Event)
    requires Inv(w, s) && Enabled(w, s, e) && !OfBucket(e)
    ensures Effects(s, Step(w, s, e))
  {
    hide Inv, Step, Effects;
    if e.EvalDone? || e.StartFlush? || e.CreateFrame? || e.WakeForEval? { HeapStepHasEffects(w, s, e); }
    else { StoreStepHasEffects(w, s, e); }
  }

  lemma SendKeepsRequests(w: World, s: Session, t: State)
    requires Sound(w, s) && Inv(w, t) && Effects(s.k, t)
    ensures Requests(Send(s, t))
  {
    hide ManifestOk, GlueOk, DumpOk, StoredImage;
    var r := Send(s, t);
    if s.k.db.manifest.Some? && s.k.db.manifest.value.r2Key.Some? { CommittedKeyIsPast(w, s.k); }
    forall n | n in r.flight && r.log[n].Remove? ensures Past(t.db, r.log[n].key) && !Names(t, r.log[n].key) {
      if n < |s.log| { assert r.log[n] == s.log[n] && Past(s.k.db, s.log[n].key); }
    }
  }

  lemma LocalKeepsSound(w: World, s: Session, e: Event)
    requires Sound(w, s) && !OfBucket(e)
    ensures Sound(w, Go(w, s, Local(e)))
  {
    StepKeepsInv(w, s.k, e);
    if Enabled(w, s.k, e) {
      StepHasEffects(w, s.k, e);
      SendKeepsRequests(w, s, Step(w, s.k, e));
    }
  }

  /** No landing along the run changes a guarded object. */
  ghost predicate Clean(w: World, s: Session, ms: seq<Move>)
    decreases |ms|
  {
    ms != [] ==> !(ms[0].Land? && Clashes(s, ms[0].n)) && Clean(w, Go(w, s, ms[0]), ms[1..])
  }

  lemma MoveKeepsSound(w: World, s: Session, m: Move)
    requires Sound(w, s) && !(m.Land? && Clashes(s, m.n))
    ensures Sound(w, Go(w, s, m))
  {
    if Possible(w, s, m) {
      match m
      case Local(e) => LocalKeepsSound(w, s, e);
      case Land(n) => LandKeepsSound(w, s, n);
      case Answer(ok) => AnswerKeepsSound(w, s, ok);
    }
  }

  /** Whatever lands late, the invariant of the protocol holds as long as nothing clashes. */
  lemma {:induction false} CleanRunsAreSound(w: World, s: Session, ms: seq<Move>)
    requires Sound(w, s) && Clean(w, s, ms)
    ensures Sound(w, GoAll(w, s, ms))
    decreases |ms|
  {
    if ms != [] {
      MoveKeepsSound(w, s, ms[0]);
      CleanRunsAreSound(w, Go(w, s, ms[0]), ms[1..]);
    }
  }

  // ---- durability under late landings --------------------------------------------------------

  /** A wake restores bytes, and no reset is under way. */
  ghost predicate Ordinary(w: World, s: Session, m: Move) {
    !s.k.phase.Resetting? && (m.Local? ==> Faithful(w, s.k, m.e) && !IsReset(m.e))
  }

  lemma LandKeepsMeaning(w: World, s: Session, n: nat)
    requires Sound(w, s) && Meaning(w, s.k) && Possible(w, s, Land(n)) && !Clashes(s, n)
    ensures var t := Go(w, s, Land(n)); Meaning(w, t.k) && History(w, t.k) == History(w, s.k)
  {
    hide Step, StoredImage;
    var t := Go(w, s, Land(n));
    if s.log[n].Put? && Holds(s.k.bucket, s.log[n].key, s.log[n].body) {
      assert t.k.bucket == s.k.bucket;
    } else {
      BucketFrame(w, s.k.db, s.k.bucket, t.k.bucket);
    }
  }

  lemma MoveExtends(w: World, s: Session, m: Move)
    requires Sound(w, s) && Meaning(w, s.k) && Ordinary(w, s, m) && !(m.Land? && Clashes(s, m.n))
    ensures Meaning(w, Go(w, s, m).k) && History(w, s.k) <= History(w, Go(w, s, m).k)
  {
    hide DumpW4, ColdWake, StoredImage;
    if Possible(w, s, m) {
      match m
      case Local(e) => StepExtends(w, s.k, e);
      case Land(n) => LandKeepsMeaning(w, s, n);
      case Answer(ok) => if s.k.phase.Deleting? { StepExtends(w, s.k, OldDeleteReply(false)); }
    }
  }

  ghost predicate OrdinaryRun(w: World, s: Session, ms: seq<Move>)
    decreases |ms|
  {
    ms != [] ==> Ordinary(w, s, ms[0]) && OrdinaryRun(w, Go(w, s, ms[0]), ms[1..])
  }

  /**
   * Whatever lands late without a clash: over runs whose wakes restore bytes, without a reset, the
   * committed history only grows by extension, and a byte restore at the end brings all of it back.
   */
  lemma {:induction false} CleanRunsExtend(w: World, s: Session, ms: seq<Move>)
    requires Sound(w, s) && Meaning(w, s.k) && Clean(w, s, ms) && OrdinaryRun(w, s, ms)
    ensures var t := GoAll(w, s, ms);
      && Sound(w, t) && Meaning(w, t.k) && History(w, s.k) <= History(w, t.k)
      && forall c :: t.k.db.manifest.Some? && t.k.glue.None? && RestoresBytes(w, t.k, c) ==>
           var g := ColdWake(w, t.k, c); g.Some? && w.denotes(g.value.heap) == History(w, t.k)
    decreases |ms|
  {
    if ms != [] {
      MoveKeepsSound(w, s, ms[0]);
      MoveExtends(w, s, ms[0]);
      CleanRunsExtend(w, Go(w, s, ms[0]), ms[1..]);
    } else {
      forall c | s.k.db.manifest.Some? && s.k.glue.None? && RestoresBytes(w, s.k, c)
        ensures var g := ColdWake(w, s.k, c); g.Some? && w.denotes(g.value.heap) == History(w, s.k)
      {
        ColdWakeIsExact(w, s.k, c);
      }
    }
  }

  // ---- no key twice, no clash ----------------------------------------------------------------

  /** No two PUTs of the session carry one key. */
  predicate KeysDiffer(log: seq<Request>) {
    forall i, j :: 0 <= i < j < |log| && log[i].Put? && log[j].Put? ==> log[i].key != log[j].key
  }

  /** Every object was put there by a request of the session. */
  ghost predicate FromLog(s: Session) {
    && (forall n :: n in s.flight ==> n < |s.log|)
    && forall key :: key in s.k.bucket ==> exists n :: 0 <= n < |s.log| && s.log[n] == Put(key, s.k.bucket[key])
  }

  /** Landings and sends leave the rest of the log as it is. */
  lemma MoveKeepsLog(w: World, s: Session, m: Move)
    requires FromLog(s)
    ensures FromLog(Go(w, s, m)) && s.log <= Go(w, s, m).log
  {
    var t := Go(w, s, m);
    if Possible(w, s, m) && m.Local? { StepLeavesBucket(w, s.k, m.e); }
    forall key | key in t.k.bucket ensures exists n :: 0 <= n < |t.log| && t.log[n] == Put(key, t.k.bucket[key]) {
      if key in s.k.bucket && s.k.bucket[key] == t.k.bucket[key] {
        var n :| 0 <= n < |s.log| && s.log[n] == Put(key, s.k.bucket[key]);
        assert t.log[n] == Put(key, t.k.bucket[key]);
      } else {
        assert t.log[m.n] == Put(key, t.k.bucket[key]);
      }
    }
  }

  lemma StepLeavesBucket(w: World, k: State, e: Event)
    requires !OfBucket(e)
    ensures Step(w, k, e).bucket == k.bucket
  {
  }

  lemma DifferingKeysDoNotClash(w: World, s: Session, n: nat)
    requires Sound(w, s) && FromLog(s) && KeysDiffer(s.log)
    ensures !Clashes(s, n)
  {
    if n in s.flight && s.log[n].Put? && Guarded(s, s.log[n].key) {
      var key := s.log[n].key;
      GuardedIsStored(w, s, key);
      var i :| 0 <= i < |s.log| && s.log[i] == Put(key, s.k.bucket[key]);
      assert i == n;
    }
  }

  lemma GuardedIsStored(w: World, s: Session, key: Key)
    requires Sound(w, s) && Guarded(s, key)
    ensures key in s.k.bucket
  {
  }

  lemma {:induction false} LogGrows(w: World, s: Session, ms: seq<Move>)
    requires FromLog(s)
    ensures s.log <= GoAll(w, s, ms).log
    decreases |ms|
  {
    if ms != [] {
      MoveKeepsLog(w, s, ms[0]);
      LogGrows(w, Go(w, s, ms[0]), ms[1..]);
    }
  }

  lemma {:induction false} DifferingKeysAreClean(w: World, s: Session, ms: seq<Move>)
    requires Sound(w, s) && FromLog(s) && KeysDiffer(GoAll(w, s, ms).log)
    ensures Clean(w, s, ms)
    decreases |ms|
  {
    if ms != [] {
      LogGrows(w, s, ms);
      if ms[0].Land? { DifferingKeysDoNotClash(w, s, ms[0].n); }
      MoveKeepsSound(w, s, ms[0]);
      MoveKeepsLog(w, s, ms[0]);
      DifferingKeysAreClean(w, Go(w, s, ms[0]), ms[1..]);
    }
  }

  /** From a new session, however late its requests land: unless a key is PUT twice, all is sound. */
  lemma ReachableIsSound(w: World, build: Build, ms: seq<Move>)
    requires KeysDiffer(GoAll(w, Start(build), ms).log)
    ensures Sound(w, GoAll(w, Start(build), ms))
  {
    DifferingKeysAreClean(w, Start(build), ms);
    CleanRunsAreSound(w, Start(build), ms);
  }

  // ---- which events make a key come twice ----------------------------------------------------

  /** This checkpoint has sent a PUT. */
  predicate SendsPut(ck: Ck) {
    !ck.dump.delta && |ck.dump.gz| > SQLITE_HOT_MAX
  }

  /** The key of the PUT that a checkpoint under way has sent and not committed. */
  function Uncertain(p: Phase): Option<Key> {
    match p
    case Putting(ck) => Some(NewKey(ck))
    case Verifying(ck) => Some(NewKey(ck))
    case Staging(ck, _) => if SendsPut(ck) then Some(NewKey(ck)) else None
    case _ => None
  }

  /** The key that a move abandons: its PUT was sent, and its transaction will not come. */
  ghost function Abandons(w: World, s: Session, m: Move): set<Key> {
    var key, t := Uncertain(s.k.phase), Go(w, s, m);
    if key.Some? && Uncertain(t.k.phase) != key && !t.k.phase.Exporting? then {key.value} else {}
  }

  /** A PUT goes out under a key that was abandoned. */
  ghost predicate Reuses(w: World, s: Session, m: Move, abandoned: set<Key>) {
    var t := Go(w, s, m);
    |t.log| > |s.log| && t.log[|s.log|].Put? && t.log[|s.log|].key in abandoned
  }

  ghost predicate NeverReuses(w: World, s: Session, ms: seq<Move>, abandoned: set<Key>)
    decreases |ms|
  {
    ms != [] ==>
      !Reuses(w, s, ms[0], abandoned) && NeverReuses(w, Go(w, s, ms[0]), ms[1..], abandoned + Abandons(w, s, ms[0]))
  }

  predicate HasPut(log: seq<Request>, key: Key) {
    exists i :: 0 <= i < |log| && log[i].Put? && log[i].key == key
  }

  predicate PutSettled(s: Session, key: Key, abandoned: set<Key>) {
    Past(s.k.db, key) || Uncertain(s.k.phase) == Some(key) || key in abandoned
  }

  /** Every key PUT so far is past, abandoned, or that of the checkpoint under way. */
  ghost predicate KeysKnown(s: Session, abandoned: set<Key>) {
    && (forall i :: 0 <= i < |s.log| && s.log[i].Put? ==> PutSettled(s, s.log[i].key, abandoned))
    && (forall key :: key in abandoned ==> HasPut(s.log, key))
    && (Uncertain(s.k.phase).Some? ==> HasPut(s.log, Uncertain(s.k.phase).value))
    && (s.k.phase.Putting? || s.k.phase.Verifying? ==> SendsPut(s.k.phase.ck))
  }

  /** What a move does to the log and the phase, as far as PUTs are concerned. */
  ghost predicate PutEffects(s: Session, t: Session) {
    && (t.log == s.log || |t.log| == |s.log| + 1) && s.log <= t.log
    && (forall key :: Past(s.k.db, key) ==> Past(t.k.db, key))
    && (t.k.phase.Putting? && t.k.phase != s.k.phase ==>
          && Uncertain(s.k.phase).None? && SendsPut(t.k.phase.ck) && |t.log| > |s.log|
          && t.log[|s.log|] == Put(NewKey(t.k.phase.ck), t.k.phase.ck.dump.gz))
    && (|t.log| > |s.log| && t.log[|s.log|].Put? ==> t.k.phase.Putting? && t.k.phase != s.k.phase)
    && (t.k.phase.Verifying? && t.k.phase != s.k.phase ==> s.k.phase.Putting? && t.k.phase.ck == s.k.phase.ck)
    && (Uncertain(t.k.phase).Some? && !t.k.phase.Putting? ==> Uncertain(s.k.phase) == Uncertain(t.k.phase))
    && (t.k.phase.Exporting? && Uncertain(s.k.phase).Some? ==> Past(t.k.db, Uncertain(s.k.phase).value))
  }

  /** A local step, and the request it sends. */
  ghost predicate PhaseEffects(s: State, t: State) {
    && (forall key :: Past(s.db, key) ==> Past(t.db, key))
    && (t.phase.Putting? && t.phase != s.phase ==> Uncertain(s.phase).None? && SendsPut(t.phase.ck))
    && (t.phase.Verifying? ==> t.phase == s.phase)
    && (Uncertain(t.phase).Some? && !t.phase.Putting? ==> Uncertain(s.phase) == Uncertain(t.phase))
    && (t.phase.Exporting? && Uncertain(s.phase).Some? ==> Past(t.db, Uncertain(s.phase).value))
  }

  lemma HeapStepPhases(w: World, s: State, e: Event)
    requires Inv(w, s) && Enabled(w, s, e) && (e.EvalDone? || e.StartFlush? || e.CreateFrame? || e.WakeForEval?)
    ensures PhaseEffects(s, Step(w, s, e))
  {
    hide DumpW4, ColdWake, ManifestOk, GlueOk, DumpOk, StoredImage, DecodeRow;
  }

  lemma StoreStepPhases(w: World, s: State, e: Event)
    requires Inv(w, s) && Enabled(w, s, e) && !OfBucket(e)
    requires !e.EvalDone? && !e.StartFlush? && !e.CreateFrame? && !e.WakeForEval?
    requires s.phase.Verifying? ==> SendsPut(s.phase.ck)
    ensures PhaseEffects(s, Step(w, s, e))
  {
    hide DumpW4, ColdWake, EnsureGlue, BeginCheckpoint, ManifestOk, GlueOk, DumpOk, StoredImage, DecodeRow;
    if e.FsStaged? { TransactionStores(w, s); }
  }

  lemma SendPhases(s: Session, t: State)
    requires PhaseEffects(s.k, t) && (s.k.phase.Putting? ==> SendsPut(s.k.phase.ck))
    ensures PutEffects(s, Send(s, t))
  {
  }

  lemma DisabledStays(w: World, k: State, e: Event)
    requires !Enabled(w, k, e)
    ensures Step(w, k, e) == k
  {
  }

  lemma MoveHasPutEffects(w: World, s: Session, m: Move)
    requires Sound(w, s) && (s.k.phase.Putting? || s.k.phase.Verifying? ==> SendsPut(s.k.phase.ck))
    ensures PutEffects(s, Go(w, s, m))
  {
    if m.Local? && !Enabled(w, s.k, m.e) { DisabledStays(w, s.k, m.e); }
    hide Inv, Step, PhaseEffects;
    if Possible(w, s, m) && m.Local? && Enabled(w, s.k, m.e) {
      var e := m.e;
      if e.EvalDone? || e.StartFlush? || e.CreateFrame? || e.WakeForEval? { HeapStepPhases(w, s.k, e); }
      else { StoreStepPhases(w, s.k, e); }
      SendPhases(s, Step(w, s.k, e));
    }
  }

  /** A PUT of a new key keeps the keys apart; one of an abandoned key does not. */
  lemma MoveKeepsKeys(w: World, s: Session, m: Move, abandoned: set<Key>)
    requires Sound(w, s) && Sound(w, Go(w, s, m)) && KeysDiffer(s.log) && KeysKnown(s, abandoned)
    ensures KeysDiffer(Go(w, s, m).log) <==> !Reuses(w, s, m, abandoned)
    ensures KeysKnown(Go(w, s, m), abandoned + Abandons(w, s, m))
  {
    MoveHasPutEffects(w, s, m);
    var t := Go(w, s, m);
    NewPutIsNotPast(w, t);
    hide Sound, Go;
    KeysGrow(s, t, abandoned);
    KnownGrow(s, t, abandoned, abandoned + Abandons(w, s, m));
  }

  lemma NewPutIsNotPast(w: World, t: Session)
    requires Sound(w, t)
    ensures t.k.phase.Putting? ==> !Past(t.k.db, NewKey(t.k.phase.ck))
  {
  }

  lemma KeysGrow(s: Session, t: Session, abandoned: set<Key>)
    requires PutEffects(s, t) && KeysDiffer(s.log) && KeysKnown(s, abandoned)
    requires t.k.phase.Putting? ==> !Past(t.k.db, NewKey(t.k.phase.ck))
    ensures KeysDiffer(t.log) <==> !(|t.log| > |s.log| && t.log[|s.log|].Put? && t.log[|s.log|].key in abandoned)
  {
    if |t.log| > |s.log| && t.log[|s.log|].Put? {
      var key := t.log[|s.log|].key;
      if key in abandoned {
        var i :| 0 <= i < |s.log| && s.log[i].Put? && s.log[i].key == key;
        assert t.log[i] == s.log[i];
      } else {
        forall i | 0 <= i < |s.log| && s.log[i].Put? ensures s.log[i].key != key {
          assert PutSettled(s, s.log[i].key, abandoned);
        }
      }
    }
  }

  lemma KnownGrow(s: Session, t: Session, abandoned: set<Key>, more: set<Key>)
    requires PutEffects(s, t) && KeysKnown(s, abandoned) && abandoned <= more
    requires forall key :: key in more && key !in abandoned ==> Uncertain(s.k.phase) == Some(key)
    requires var key := Uncertain(s.k.phase);
      key.Some? && Uncertain(t.k.phase) != key && !t.k.phase.Exporting? ==> key.value in more
    ensures KeysKnown(t, more)
  {
    forall i | 0 <= i < |t.log| && t.log[i].Put? ensures PutSettled(t, t.log[i].key, more) {
      if i < |s.log| { assert PutSettled(s, s.log[i].key, abandoned); }
    }
    forall key | HasPut(s.log, key) ensures HasPut(t.log, key) {
      var i :| 0 <= i < |s.log| && s.log[i].Put? && s.log[i].key == key;
      assert t.log[i] == s.log[i];
    }
    if Uncertain(t.k.phase).Some? && t.k.phase.Putting? && t.k.phase != s.k.phase {
      assert t.log[|s.log|].key == NewKey(t.k.phase.ck);
    }
  }

  lemma {:induction false} KeysDifferFrom(w: World, s: Session, ms: seq<Move>, abandoned: set<Key>)
    requires Sound(w, s) && FromLog(s) && KeysDiffer(s.log) && KeysKnown(s, abandoned)
    ensures KeysDiffer(GoAll(w, s, ms).log) <==> NeverReuses(w, s, ms, abandoned)
    decreases |ms|
  {
    if ms != [] {
      var m, t := ms[0], Go(w, s, ms[0]);
      if m.Land? { DifferingKeysDoNotClash(w, s, m.n); }
      MoveKeepsSound(w, s, m);
      MoveKeepsLog(w, s, m);
      MoveKeepsKeys(w, s, m, abandoned);
      if Reuses(w, s, m, abandoned) { LogGrows(w, t, ms[1..]); }
      else { KeysDifferFrom(w, t, ms[1..], abandoned + Abandons(w, s, m)); }
    }
  }

  /** From a new session: two PUTs carry one key exactly when one goes out under an abandoned key. */
  lemma KeysDifferIff(w: World, build: Build, ms: seq<Move>)
    ensures KeysDiffer(GoAll(w, Start(build), ms).log) <==> NeverReuses(w, Start(build), ms, {})
  {
    KeysDifferFrom(w, Start(build), ms, {});
  }

  /** A key is abandoned only by an error answer to its PUT, or by a crash before its commit. */
  lemma AbandonedBy(w: World, s: Session, m: Move)
    requires Sound(w, s) && (s.k.phase.Putting? || s.k.phase.Verifying? ==> SendsPut(s.k.phase.ck))
    ensures Abandons(w, s, m) != {} ==> (s.k.phase.Putting? && m == Answer(false)) || (m.Local? && m.e.Crash?)
  {
    hide DumpW4, ColdWake, EnsureGlue, BeginCheckpoint, ManifestOk, GlueOk, DumpOk, StoredImage, DecodeRow;
    if s.k.phase.Staging? { TransactionStores(w, s.k); }
  }

  ghost predicate NothingAbandoned(w: World, s: Session, ms: seq<Move>)
    decreases |ms|
  {
    ms != [] ==> Abandons(w, s, ms[0]) == {} && NothingAbandoned(w, Go(w, s, ms[0]), ms[1..])
  }

  lemma {:induction false} NothingAbandonedNothingReused(w: World, s: Session, ms: seq<Move>)
    requires NothingAbandoned(w, s, ms)
    ensures NeverReuses(w, s, ms, {})
    decreases |ms|
  {
    if ms != [] {
      NothingAbandonedNothingReused(w, Go(w, s, ms[0]), ms[1..]);
      assert {} + Abandons(w, s, ms[0]) == {};
    }
  }

  /** So a run that abandons no PUT is sound, however late its requests land. */
  lemma UnabandonedIsSound(w: World, build: Build, ms: seq<Move>)
    requires NothingAbandoned(w, Start(build), ms)
    ensures Sound(w, GoAll(w, Start(build), ms))
  {
    NothingAbandonedNothingReused(w, Start(build), ms);
    KeysDifferIff(w, build, ms);
    ReachableIsSound(w, build, ms);
  }

  // ---- the committed object ------------------------------------------------------------------

  /** A PUT in flight would replace this object by another body. */
  ghost predicate Threatened(s: Session, key: Key) {
    exists n :: n in s.flight && n < |s.log| && s.log[n].Put? && s.log[n].key == key
             && !Holds(s.k.bucket, key, s.log[n].body)
  }

  /** The manifest names this object throughout. */
  ghost predicate NamedThroughout(w: World, s: Session, ms: seq<Move>, key: Key)
    decreases |ms|
  {
    Names(s.k, key) && (ms != [] ==> NamedThroughout(w, Go(w, s, ms[0]), ms[1..], key))
  }

  predicate Newer(k: State, ck: Ck) {
    ck.epoch == k.db.epoch && ck.cell > k.db.committedCell && ck.prev == k.db.manifest
  }

  /** What protects a named object: later keys are new, and nothing in flight touches it. */
  ghost predicate Safe(s: Session, key: Key, body: bytes) {
    && Names(s.k, key) && Holds(s.k.bucket, key, body) && Past(s.k.db, key)
    && (forall n :: n in s.flight ==> n < |s.log| && (s.log[n].key == key ==> s.log[n] == Put(key, body)))
    && match s.k.phase
       case Waking(cell, _, _) => cell > s.k.db.committedCell
       case Evaluating(cell, _, _) => cell > s.k.db.committedCell
       case Putting(ck) => Newer(s.k, ck)
       case Verifying(ck) => Newer(s.k, ck)
       case Staging(ck, _) => Newer(s.k, ck)
       case Exporting(ck, tier) => Replaced(ck, tier) != Some(key)
       case _ => true
  }

  /** What a step that leaves the manifest's key alone keeps of it. */
  ghost predicate StaysSafe(k: State, t: State, key: Key) {
    && t.bucket == k.bucket && (Names(t, key) ==> Past(t.db, key))
    && match t.phase
       case Waking(cell, _, _) => cell > t.db.committedCell
       case Evaluating(cell, _, _) => cell > t.db.committedCell
       case Putting(ck) => Newer(t, ck)
       case Verifying(ck) => Newer(t, ck)
       case Staging(ck, _) => Newer(t, ck)
       case Exporting(ck, tier) => Names(t, key) ==> Replaced(ck, tier) != Some(key)
       case Deleting(_, stale) => k.phase == t.phase || stale != key
       case Resetting(stale) => k.phase == t.phase || stale != key
       case Idle => true
  }

  lemma HeapStepStaysSafe(w: World, s: Session, e: Event, key: Key, body: bytes)
    requires Safe(s, key, body) && Enabled(w, s.k, e)
    requires e.EvalDone? || e.StartFlush? || e.CreateFrame? || e.WakeForEval?
    ensures StaysSafe(s.k, Step(w, s.k, e), key)
  {
    hide DumpW4, ColdWake;
  }

  lemma StoreStepStaysSafe(w: World, s: Session, e: Event, key: Key, body: bytes)
    requires Safe(s, key, body) && Enabled(w, s.k, e) && !OfBucket(e)
    requires !e.EvalDone? && !e.StartFlush? && !e.CreateFrame? && !e.WakeForEval?
    requires Names(Step(w, s.k, e), key)
    ensures StaysSafe(s.k, Step(w, s.k, e), key)
  {
    hide DumpW4, ColdWake, EnsureGlue, BeginCheckpoint;
  }

  lemma StepStaysSafe(w: World, s: Session, e: Event, key: Key, body: bytes)
    requires Safe(s, key, body) && Enabled(w, s.k, e) && !OfBucket(e)
    requires Names(Step(w, s.k, e), key)
    ensures StaysSafe(s.k, Step(w, s.k, e), key)
  {
    hide Step, Safe, StaysSafe;
    if e.EvalDone? || e.StartFlush? || e.CreateFrame? || e.WakeForEval? { HeapStepStaysSafe(w, s, e, key, body); }
    else { StoreStepStaysSafe(w, s, e, key, body); }
  }

  lemma SendStaysSafe(s: Session, t: State, key: Key, body: bytes)
    requires Safe(s, key, body) && Names(t, key) && StaysSafe(s.k, t, key)
    ensures Safe(Send(s, t), key, body)
  {
  }

  lemma LandStaysSafe(w: World, s: Session, n: nat, key: Key, body: bytes)
    requires Safe(s, key, body) && Possible(w, s, Land(n))
    ensures Safe(Go(w, s, Land(n)), key, body)
  {
  }

  lemma AnswerStaysSafe(w: World, s: Session, ok: bool, key: Key, body: bytes)
    requires Safe(s, key, body) && Possible(w, s, Answer(ok)) && Names(Go(w, s, Answer(ok)).k, key)
    ensures Safe(Go(w, s, Answer(ok)), key, body)
  {
  }

  lemma MoveKeepsSafe(w: World, s: Session, m: Move, key: Key, body: bytes)
    requires Safe(s, key, body) && Names(Go(w, s, m).k, key)
    ensures Safe(Go(w, s, m), key, body)
  {
    if Possible(w, s, m) {
      match m
      case Local(e) =>
        if Enabled(w, s.k, e) {
          StepStaysSafe(w, s, e, key, body);
          SendStaysSafe(s, Step(w, s.k, e), key, body);
        }
      case Land(n) => LandStaysSafe(w, s, n, key, body);
      case Answer(ok) => AnswerStaysSafe(w, s, ok, key, body);
    }
  }

  lemma {:induction false} RunsKeepSafe(w: World, s: Session, ms: seq<Move>, key: Key, body: bytes)
    requires Safe(s, key, body) && NamedThroughout(w, s, ms, key)
    ensures Holds(GoAll(w, s, ms).k.bucket, key, body)
    decreases |ms|
  {
    if ms != [] {
      MoveKeepsSafe(w, s, ms[0], key, body);
      RunsKeepSafe(w, Go(w, s, ms[0]), ms[1..], key, body);
    }
  }

  lemma UnthreatenedIsSafe(w: World, s: Session, key: Key)
    requires Sound(w, s) && Names(s.k, key) && !Threatened(s, key)
    ensures key in s.k.bucket && Safe(s, key, s.k.bucket[key])
  {
    CommittedKeyIsPast(w, s.k);
  }

  lemma OneMove(w: World, s: Session, m: Move, key: Key)
    ensures GoAll(w, s, [m]) == Go(w, s, m)
    ensures Names(s.k, key) && Names(Go(w, s, m).k, key) ==> NamedThroughout(w, s, [m], key)
  {
    assert [m][1..] == [];
    assert GoAll(w, s, [m]) == GoAll(w, Go(w, s, m), []);
    assert NamedThroughout(w, Go(w, s, m), [], key) <==> Names(Go(w, s, m).k, key);
  }

  /**
   * The committed object survives whatever follows, for as long as the manifest names it, if and
   * only if no PUT in flight carries its key with another body.
   */
  lemma CommittedObjectSurvivesIff(w: World, s: Session, key: Key)
    requires Sound(w, s) && Names(s.k, key)
    ensures key in s.k.bucket
    ensures (forall ms :: NamedThroughout(w, s, ms, key) ==> Holds(GoAll(w, s, ms).k.bucket, key, s.k.bucket[key]))
       <==> !Threatened(s, key)
  {
    GuardedIsStored(w, s, key);
    if Threatened(s, key) {
      var n :| n in s.flight && n < |s.log| && s.log[n].Put? && s.log[n].key == key
            && !Holds(s.k.bucket, key, s.log[n].body);
      OneMove(w, s, Land(n), key);
      assert !Holds(GoAll(w, s, [Land(n)]).k.bucket, key, s.k.bucket[key]);
    } else {
      UnthreatenedIsSafe(w, s, key);
      forall ms | NamedThroughout(w, s, ms, key) ensures Holds(GoAll(w, s, ms).k.bucket, key, s.k.bucket[key]) {
        RunsKeepSafe(w, s, ms, key, s.k.bucket[key]);
      }
    }
  }

  // ---- the object about to be committed ------------------------------------------------------

  /** The checkpoint waits between its PUT's success and its transaction. */
  predicate Awaits(k: State, ck: Ck) {
    k.phase == Verifying(ck) || (k.phase.Staging? && k.phase.ck == ck)
  }

  ghost predicate AwaitsThroughout(w: World, s: Session, ms: seq<Move>, ck: Ck)
    decreases |ms|
  {
    Awaits(s.k, ck) && (ms != [] ==> AwaitsThroughout(w, Go(w, s, ms[0]), ms[1..], ck))
  }

  ghost predicate UploadSafe(s: Session, ck: Ck) {
    && Awaits(s.k, ck) && Uploaded(s.k, ck)
    && forall n :: n in s.flight ==>
         n < |s.log| && (s.log[n].key == NewKey(ck) ==> s.log[n] == Put(NewKey(ck), ck.dump.gz))
  }

  lemma MoveKeepsUpload(w: World, s: Session, m: Move, ck: Ck)
    requires UploadSafe(s, ck) && Awaits(Go(w, s, m).k, ck)
    ensures UploadSafe(Go(w, s, m), ck)
  {
    if m.Local? && !OfBucket(m.e) { StepLeavesBucket(w, s.k, m.e); }
    hide Step;
  }

  lemma {:induction false} RunsKeepUpload(w: World, s: Session, ms: seq<Move>, ck: Ck)
    requires UploadSafe(s, ck) && AwaitsThroughout(w, s, ms, ck)
    ensures Uploaded(GoAll(w, s, ms).k, ck)
    decreases |ms|
  {
    if ms != [] {
      MoveKeepsUpload(w, s, ms[0], ck);
      RunsKeepUpload(w, Go(w, s, ms[0]), ms[1..], ck);
    }
  }

  /**
   * An uploaded object that is not committed yet keeps its body until the transaction, whatever
   * happens meanwhile, if and only if no PUT in flight carries its key with another body.
   */
  lemma UploadSurvivesIff(w: World, s: Session, ck: Ck)
    requires Sound(w, s) && (s.k.phase == Verifying(ck) || s.k.phase == Staging(ck, R2))
    ensures (forall ms :: AwaitsThroughout(w, s, ms, ck) ==> Uploaded(GoAll(w, s, ms).k, ck))
       <==> !Threatened(s, NewKey(ck))
  {
    var key := NewKey(ck);
    if Threatened(s, key) {
      var n :| n in s.flight && n < |s.log| && s.log[n].Put? && s.log[n].key == key
            && !Holds(s.k.bucket, key, s.log[n].body);
      OneMove(w, s, Land(n), key);
      OneWait(w, s, Land(n), ck);
      assert !Uploaded(GoAll(w, s, [Land(n)]).k, ck);
    } else {
      assert UploadSafe(s, ck);
      forall ms | AwaitsThroughout(w, s, ms, ck) ensures Uploaded(GoAll(w, s, ms).k, ck) {
        RunsKeepUpload(w, s, ms, ck);
      }
    }
  }

  lemma OneWait(w: World, s: Session, m: Move, ck: Ck)
    ensures Awaits(s.k, ck) && Awaits(Go(w, s, m).k, ck) ==> AwaitsThroughout(w, s, [m], ck)
  {
    assert [m][1..] == [];
    assert AwaitsThroughout(w, Go(w, s, m), [], ck) <==> Awaits(Go(w, s, m).k, ck);
  }

  // ---- a key used twice ----------------------------------------------------------------------

  const BIG: nat := 9 * MB

  /** Memory of nine megabytes, all of one byte: 0 before any cell, 1 after "x", 2 after "x" and "y". */
  function Filled(v: byte): (image: Image)
    ensures |image| == BIG && image[0] == v
  {
    seq(BIG, _ => v)
  }

  function FirstByte(x: bytes): int {
    if x == [] then -1 else x[0]
  }

  /** A world that stores images as they are. */
  ghost function Plain(): (w: World)
    ensures forall c, x :: w.compress(c, x) == x && w.decompress(c, x) == Some(x)
    ensures forall x :: w.crc(x) == FirstByte(x) + 1
    ensures w.denotes(Filled(0)) == [] && w.denotes(Filled(1)) == [Cell(0, "x")]
    ensures w.denotes(Filled(2)) == [Cell(0, "x"), Cell(0, "y")]
  {
    WorldFns((c, x) => x, (c, x) => Some(x), x => FirstByte(x) + 1,
             x => if FirstByte(x) == 1 then [Cell(0, "x")]
                  else if FirstByte(x) == 2 then [Cell(0, "x"), Cell(0, "y")] else [])
  }

  /** The PUT of that memory by the first cell of a session. */
  function FirstPut(build: Build, v: byte, src: string): Ck {
    Ck(0, 0, src, true, None, Dump(false, Filled(v), [], build.snapCodec, BIG, v as int + 1, 0), Filled(v))
  }

  function Dumped(v: byte): Glue {
    Glue(Filled(v), None, Some(Filled(v)))
  }

  const COLD: Wake := Wake(Got, true, Some(Filled(0)))

  lemma GoTwo(w: World, s: Session, m: Move, ms: seq<Move>)
    ensures GoAll(w, s, [m] + ms) == GoAll(w, Go(w, s, m), ms)
    ensures !m.Land? && Clean(w, Go(w, s, m), ms) ==> Clean(w, s, [m] + ms)
  {
    assert ([m] + ms)[1..] == ms;
  }

  /** One eval of a session with nothing committed, up to its PUT. */
  lemma Attempt(build: Build, s: Session, v: byte, src: string, rest: seq<Move>) returns (ms: seq<Move>)
    requires v <= 1 && src == (if v == 0 then "x" else "y")
    requires s.k == Init(build).(glue := if v == 0 then None else Some(Dumped(v)))
    ensures var t := Session(s.k.(glue := Some(Dumped(v + 1)), phase := Putting(FirstPut(build, v + 1, src))),
                             s.log + [Put(Key(0, 0), Filled(v + 1))], s.flight + {|s.log|});
      GoAll(Plain(), s, ms) == GoAll(Plain(), t, rest) && (Clean(Plain(), t, rest) ==> Clean(Plain(), s, ms))
  {
    var w := Plain();
    var g := Glue(Filled(v), None, if v == 0 then None else Some(Filled(v)));
    var s1 := s.(k := s.k.(phase := Waking(0, src, false)));
    var s2 := s.(k := s.k.(glue := Some(g), phase := Evaluating(0, src, false)));
    var done := Local(EvalDone(Filled(v + 1), Filled(v + 1), 0, false));
    assert Go(w, s, Local(StartEval(src, false))) == s1;
    assert Go(w, s1, Local(WakeForEval(COLD))) == s2;
    AttemptDumps(build, s2, v, src);
    GoTwo(w, s2, done, rest);
    GoTwo(w, s1, Local(WakeForEval(COLD)), [done] + rest);
    GoTwo(w, s, Local(StartEval(src, false)), [Local(WakeForEval(COLD))] + ([done] + rest));
    ms := [Local(StartEval(src, false))] + ([Local(WakeForEval(COLD))] + ([done] + rest));
  }

  lemma AttemptDumps(build: Build, s: Session, v: byte, src: string)
    requires v <= 1 && src == (if v == 0 then "x" else "y")
    requires s.k.db == Init(build).db && s.k.build == build && s.k.phase == Evaluating(0, src, false)
    requires s.k.glue == Some(Glue(Filled(v), None, if v == 0 then None else Some(Filled(v))))
    ensures Go(Plain(), s, Local(EvalDone(Filled(v + 1), Filled(v + 1), 0, false)))
         == Session(s.k.(glue := Some(Dumped(v + 1)), phase := Putting(FirstPut(build, v + 1, src))),
                    s.log + [Put(Key(0, 0), Filled(v + 1))], s.flight + {|s.log|})
  {
    var w := Plain();
    var e := EvalDone(Filled(v + 1), Filled(v + 1), 0, false);
    assert Enabled(w, s.k, e);
    var ran := s.k.(glue := Some(s.k.glue.value.(heap := Filled(v + 1))));
    assert DumpW4(w, build.snapCodec, ran.glue.value, true, Filled(v + 1), 0)
        == Some((Dumped(v + 1), FirstPut(build, v + 1, src).dump));
  }

  /** What the tables say once the second attempt has committed. */
  function Committed(build: Build): Durable {
    var m := Manifest(0, 0, 0, BIG, 3, 0, R2, Some(Key(0, 0)), 0, build.snapCodec, build.engineHash);
    Durable([], [], [Row(0, OplogRow(0, "y"))], Some(m), 0, 0, Some(0), Some(""))
  }

  const BOTH: seq<Request> := [Put(Key(0, 0), Filled(1)), Put(Key(0, 0), Filled(2))]

  /** Where the session stands then: idle, and the first PUT still in flight. */
  function Late(build: Build): Session {
    Session(State(Committed(build), map[Key(0, 0) := Filled(2)], build,
                  Some(Glue(Filled(2), Some(Filled(2)), None)), Idle), BOTH, {0})
  }

  /** From the second PUT to the acknowledged checkpoint; the first PUT stays in flight. */
  lemma Acknowledged(build: Build, s: Session, rest: seq<Move>) returns (ms: seq<Move>)
    requires s.k == Init(build).(glue := Some(Dumped(2)), phase := Putting(FirstPut(build, 2, "y")))
    requires s.log == BOTH && s.flight == {0, 1}
    ensures GoAll(Plain(), s, ms) == GoAll(Plain(), Late(build), rest)
    ensures Clean(Plain(), Late(build), rest) ==> Clean(Plain(), s, ms)
  {
    var w, ck := Plain(), FirstPut(build, 2, "y");
    var b := map[Key(0, 0) := Filled(2)];
    var s1 := Session(s.k.(bucket := b), s.log, {0});
    var s2 := s1.(k := s1.k.(phase := Verifying(ck)));
    var s3 := s1.(k := s1.k.(phase := Staging(ck, R2)));
    var db := CommitFull(s.k.db, build, ck, R2);
    var s4 := s1.(k := s1.k.(db := db, phase := Exporting(ck, R2)));
    var t := Late(build);
    assert Go(w, s, Land(1)) == s1 by { assert {0, 1} - {1} == {0}; }
    assert Go(w, s1, Answer(true)) == s2;
    assert Go(w, s2, Local(VerifyReply(Got))) == s3;
    assert Go(w, s3, Local(FsStaged)) == s4;
    assert Go(w, s4, Local(ManifestExported)) == t by { assert MarkClean(db, 0) == Committed(build); }
    var m4 := [Local(ManifestExported)] + rest;
    GoTwo(w, s4, Local(ManifestExported), rest);
    var m3 := [Local(FsStaged)] + m4;
    GoTwo(w, s3, Local(FsStaged), m4);
    var m2 := [Local(VerifyReply(Got))] + m3;
    GoTwo(w, s2, Local(VerifyReply(Got)), m3);
    var m1 := [Answer(true)] + m2;
    GoTwo(w, s1, Answer(true), m2);
    ms := [Land(1)] + m1;
    GoTwo(w, s, Land(1), m1);
    assert !Clashes(s, 1);
    assert ms[1..] == m1;
  }

  /** The whole run, ending there without a clash. */
  lemma TwoAttempts(build: Build) returns (ms: seq<Move>)
    ensures GoAll(Plain(), Start(build), ms) == Late(build) && Clean(Plain(), Start(build), ms)
  {
    var w := Plain();
    var p1 := Session(Init(build).(glue := Some(Dumped(1)), phase := Putting(FirstPut(build, 1, "x"))),
                      [Put(Key(0, 0), Filled(1))], {0});
    var idle := p1.(k := Init(build).(glue := Some(Dumped(1))));
    var p2 := Session(Init(build).(glue := Some(Dumped(2)), phase := Putting(FirstPut(build, 2, "y"))), BOTH, {0, 1});
    var m3 := Acknowledged(build, p2, []);
    assert idle.log + [Put(Key(0, 0), Filled(2))] == p2.log && idle.flight + {1} == p2.flight;
    var m2 := Attempt(build, idle, 1, "y", m3);
    assert Go(w, p1, Answer(false)) == idle;
    GoTwo(w, p1, Answer(false), m2);
    assert Start(build).log + [Put(Key(0, 0), Filled(1))] == p1.log && Start(build).flight + {0} == p1.flight;
    ms := Attempt(build, Start(build), 0, "x", [Answer(false)] + m2);
  }

  /**
   * A PUT answered with an error leaves both counters alone, so the next eval's PUT has its key.
   * That one commits and is acknowledged, in a sound state; when the first PUT lands after all,
   * the committed session can no longer be restored.
   */
  lemma ReusedKeyLosesTheCommit(build: Build) returns (w: World, ms: seq<Move>)
    ensures var s := GoAll(w, Start(build), ms); var t := Go(w, s, Land(0));
      && Sound(w, s) && s.k.phase.Idle? && s.k.db.committedCell == 0
      && Names(s.k, Key(0, 0)) && Threatened(s, Key(0, 0))
      && StoredImage(w, s.k.db, s.k.bucket).Some? && StoredImage(w, t.k.db, t.k.bucket).None?
  {
    w := Plain();
    ms := TwoAttempts(build);
    CleanRunsAreSound(w, Start(build), ms);
    LateLanding(build);
  }

  lemma LateLanding(build: Build)
    ensures var w, s, t := Plain(), Late(build), Go(Plain(), Late(build), Land(0));
      && StoredImage(w, s.k.db, s.k.bucket).Some? && StoredImage(w, t.k.db, t.k.bucket).None?
      && Threatened(s, Key(0, 0))
  {
    var s := Late(build);
    assert Filled(1)[..BIG] == Filled(1) && Filled(2)[..BIG] == Filled(2);
    assert Reconstruct(Filled(1), []) == Filled(1) && Reconstruct(Filled(2), []) == Filled(2);
    assert !Holds(s.k.bucket, Key(0, 0), s.log[0].body) by { assert Filled(1)[0] != Filled(2)[0]; }
  }
}
