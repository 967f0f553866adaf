/**
 * At-most-once evaluation: the reservation table of KernelDO (apps/kernel/src/lib.rs) against the
 * retries of the SDK's socket transport (packages/sdk/src/index.ts). A row is written before
 * eval_code runs and answers every later frame with the same request id.
 */
module EvalReplies {
  import opened Prelude

  const MAX_ID_BYTES: nat := 128
  const RETAINED_ROWS: nat := 256

  // ---- request ids ---------------------------------------------------------------------------

  /** A request id as Unicode scalar values. */
  type Scalar = c: int | 0 <= c < 0xD800 || 0xE000 <= c < 0x11_0000

  type ReqId = seq<Scalar>

  /** Length as Rust counts it. */
  function Utf8Len(id: ReqId): nat {
    if id == [] then 0
    else (if id[0] < 0x80 then 1 else if id[0] < 0x800 then 2 else if id[0] < 0x1_0000 then 3 else 4) + Utf8Len(id[1..])
  }

  /** Length as JavaScript counts it. */
  function Utf16Len(id: ReqId): nat {
    if id == [] then 0 else (if id[0] < 0x1_0000 then 1 else 2) + Utf16Len(id[1..])
  }

  /** canRetryFrame, for an eval frame that carries a request id. */
  predicate ClientRetries(id: ReqId) {
    0 < Utf16Len(id) <= MAX_ID_BYTES
  }

  /** The filter of eval_critical: any other id is treated as absent. */
  predicate Honoured(id: ReqId) {
    0 < Utf8Len(id) <= MAX_ID_BYTES
  }

  lemma {:induction false} LengthsCompare(id: ReqId)
    ensures Utf16Len(id) <= Utf8Len(id) <= 3 * Utf16Len(id)
    ensures (forall c | c in id :: c < 0x80) <==> Utf8Len(id) == Utf16Len(id)
  {
    if id != [] {
      LengthsCompare(id[1..]);
      assert id[0] in id && forall c :: c in id <==> c == id[0] || c in id[1..];
    }
  }

  /**
   * The client retries every id the kernel honours; of those it retries, the kernel honours the
   * ones of at most 128 bytes, so every ASCII id and every id of at most 42 code units.
   */
  lemma RetriedIdsAreHonoured(id: ReqId)
    ensures Honoured(id) <==> ClientRetries(id) && Utf8Len(id) <= MAX_ID_BYTES
    ensures ClientRetries(id) && ((forall c | c in id :: c < 0x80) || Utf16Len(id) <= 42) ==> Honoured(id)
  {
    LengthsCompare(id);
  }

  // ---- the table -----------------------------------------------------------------------------

  /** The checkpoint field of a reply: its ok, and whether it says that the commit is still to come. */
  datatype Claim = Claim(ok: bool, deferred: bool)

  datatype Reply =
    | Pending(cell: int, timeoutLike: bool, sideEffectLike: bool)
    | Final(cell: int, ok: bool, checkpoint: Claim)

  datatype Row = Row(reply: Reply, created: int)

  type Table = map<ReqId, Row>

  predicate HasText(src: string, text: string) {
    exists i :: 0 <= i <= |src| && text <= src[i..]
  }

  predicate LooksLong(src: string) {
    HasText(src, "while (true)") || HasText(src, "__timeoutSpin")
  }

  predicate LooksEffectful(src: string) {
    || HasText(src, "=") || HasText(src, "++") || HasText(src, "--") || HasText(src, ".push(")
    || HasText(src, ".splice(") || HasText(src, ".set(") || HasText(src, "delete ")
  }

  /** pending_eval_reply */
  function PendingFor(cell: int, src: string): Reply {
    Pending(cell, LooksLong(src), LooksEffectful(src))
  }

  /** What a client sees: ok and the checkpoint field, or the raw reservation marker. */
  datatype Answer = Answer(ok: bool, checkpoint: Claim) | Marker

  /** The answer a present row gives, without running anything. */
  function Replayed(reply: Reply): Answer {
    match reply
    case Final(_, ok, checkpoint) => Answer(ok, checkpoint)
    case Pending(_, timeoutLike, sideEffectLike) =>
      if timeoutLike then Answer(false, Claim(true, false))
      else if sideEffectLike then Answer(true, Claim(true, false))
      else Marker
  }

  /** The answer carries the stored ok and checkpoint, or what stands in for them while there are none. */
  predicate GivesBack(reply: Reply, answer: Answer) {
    && (reply.Final? ==> answer.Answer? && answer.ok == reply.ok && answer.checkpoint == reply.checkpoint)
    && (reply.Pending? && answer.Answer? ==>
          && (reply.timeoutLike || reply.sideEffectLike)
          && answer.ok == !reply.timeoutLike && answer.checkpoint == Claim(true, false))
    && (reply.Pending? && (reply.timeoutLike || reply.sideEffectLike) ==> answer.Answer?)
  }

  /** Rows kept by the prune: all of them, or any 256 that no dropped row is newer than. */
  ghost predicate Prunes(t: Table, kept: set<ReqId>) {
    && kept <= t.Keys
    && (|t| <= RETAINED_ROWS ==> kept == t.Keys)
    && (|t| > RETAINED_ROWS ==>
          && |kept| == RETAINED_ROWS
          && forall a, b :: a in kept && b in t && b !in kept ==> t[a].created >= t[b].created)
  }

  function Restrict(t: Table, kept: set<ReqId>): Table {
    map id | id in t && id in kept :: t[id]
  }

  /** write_eval_reply: upsert, then prune. */
  function Write(t: Table, id: ReqId, reply: Reply, now: int, kept: set<ReqId>): Table {
    Restrict(t[id := Row(reply, now)], kept)
  }

  /** A row outlives a prune when fewer than 256 other rows are as new as it is. */
  lemma NewestRowsSurvive(t: Table, kept: set<ReqId>, id: ReqId)
    requires Prunes(t, kept) && id in t
    requires |set k | k in t && k != id && t[k].created >= t[id].created| < RETAINED_ROWS
    ensures id in kept
  {
    if id !in kept {
      var newer := set k | k in t && k != id && t[k].created >= t[id].created;
      assert kept <= newer;
      SubsetSize(kept, newer);
    }
  }

  lemma {:induction false} SubsetSize<T>(a: set<T>, b: set<T>)
    requires a <= b
    ensures |a| <= |b|
  {
    if a != {} {
      var x :| x in a;
      SubsetSize(a - {x}, b - {x});
    }
  }

  // ---- the kernel ----------------------------------------------------------------------------

  /** One evaluation that reached eval_code. */
  datatype Ran = Ran(id: Option<ReqId>, src: string)

  datatype Phase =
    | Idle
    | Running(id: Option<ReqId>, src: string, cell: int, evaluated: bool)

  datatype State = State(table: Table, phase: Phase, ran: seq<Ran>)

  datatype Event =
    | Frame(id: Option<ReqId>, src: string, cell: int, now: int, kept: set<ReqId>)
    | Rejected                                             // a bad config or a failed wake, before eval_code
    | EvalCode
    | Replied(ok: bool, checkpoint: Claim, now: int, fits: bool, kept: set<ReqId>)
    | Crash
    | Reset

  function IdOf(id: Option<ReqId>): Option<ReqId> {
    if id.Some? && Honoured(id.value) then id else None
  }

  ghost predicate Enabled(s: State, e: Event) {
    match e
    case Frame(id, src, cell, now, kept) =>
      && s.phase.Idle?
      && (IdOf(id).Some? && id.value !in s.table ==>
            Prunes(s.table[id.value := Row(PendingFor(cell, src), now)], kept))
    case Rejected => s.phase.Running? && !s.phase.evaluated
    case EvalCode => s.phase.Running? && !s.phase.evaluated
    case Replied(ok, checkpoint, now, fits, kept) =>
      && s.phase.Running? && s.phase.evaluated
      && (fits && s.phase.id.Some? ==>
            Prunes(s.table[s.phase.id.value := Row(Final(s.phase.cell, ok, checkpoint), now)], kept))
    case Crash => true
    case Reset => s.phase.Idle?
  }

  ghost function Step(s: State, e: Event): State {
    if !Enabled(s, e) then s
    else match e
    case Frame(id, src, cell, now, kept) =>
      var honoured := IdOf(id);
      if honoured.Some? && honoured.value in s.table then s
      else if honoured.Some? then
        s.(table := Write(s.table, honoured.value, PendingFor(cell, src), now, kept),
           phase := Running(honoured, src, cell, false))
      else s.(phase := Running(None, src, cell, false))
    case Rejected => s.(phase := Idle)
    case EvalCode =>
      s.(ran := s.ran + [Ran(s.phase.id, s.phase.src)], phase := s.phase.(evaluated := true))
    case Replied(ok, checkpoint, now, fits, kept) =>
      var done := s.(phase := Idle);
      if fits && s.phase.id.Some? then
        done.(table := Write(s.table, s.phase.id.value, Final(s.phase.cell, ok, checkpoint), now, kept))
      else done
    case Crash => s.(phase := Idle)
    case Reset => s.(table := map[])
  }

  const Init: State := State(map[], Idle, [])

  ghost function Run(s: State, es: seq<Event>): State
    decreases |es|
  {
    if es == [] then s else Run(Step(s, es[0]), es[1..])
  }

  /** How often the sources sent under an id have reached eval_code. */
  function Runs(ran: seq<Ran>, id: ReqId): nat {
    if ran == [] then 0
    else (if ran[|ran| - 1].id == Some(id) then 1 else 0) + Runs(ran[..|ran| - 1], id)
  }

  /** The row of an id is there after its reservation and after every step since. */
  ghost predicate RetainedBy(s: State, e: Event, id: ReqId) {
    var reserves := e.Frame? && IdOf(e.id) == Some(id) && Enabled(s, e);
    id in s.table || reserves ==> id in Step(s, e).table
  }

  ghost predicate Retained(s: State, es: seq<Event>, id: ReqId)
    decreases |es|
  {
    es != [] ==> RetainedBy(s, es[0], id) && Retained(Step(s, es[0]), es[1..], id)
  }

  lemma StepBounds(s: State, e: Event)
    requires |s.table| <= RETAINED_ROWS
    ensures |Step(s, e).table| <= RETAINED_ROWS
  {
    if Enabled(s, e) {
      match e
      case Frame(id, src, cell, now, kept) =>
        if IdOf(id).Some? && id.value !in s.table { WriteBounds(s.table, id.value, PendingFor(cell, src), now, kept); }
      case Replied(ok, checkpoint, now, fits, kept) =>
        if fits && s.phase.id.Some? {
          WriteBounds(s.table, s.phase.id.value, Final(s.phase.cell, ok, checkpoint), now, kept);
        }
      case _ =>
    }
  }

  lemma WriteBounds(t: Table, id: ReqId, reply: Reply, now: int, kept: set<ReqId>)
    requires Prunes(t[id := Row(reply, now)], kept)
    ensures |Write(t, id, reply, now, kept)| <= RETAINED_ROWS
  {
    var u := Write(t, id, reply, now, kept);
    assert u.Keys == kept && |u| == |u.Keys|;
    assert kept == t[id := Row(reply, now)].Keys ==> |kept| == |t[id := Row(reply, now)]|;
  }

  /** The table never holds more than 256 rows. */
  lemma {:induction false} TableIsBounded(s: State, es: seq<Event>)
    requires |s.table| <= 256
    ensures |Run(s, es).table| <= 256
    decreases |es|
  {
    if es != [] {
      StepBounds(s, es[0]);
      TableIsBounded(Step(s, es[0]), es[1..]);
    }
  }

  // ---- at most once --------------------------------------------------------------------------

  ghost predicate Once(s: State, id: ReqId) {
    && Runs(s.ran, id) <= 1
    && (Runs(s.ran, id) == 1 ==> id in s.table)
    && (s.phase.Running? && s.phase.id == Some(id) ==>
          id in s.table && (!s.phase.evaluated ==> Runs(s.ran, id) == 0))
  }

  lemma StepKeepsOnce(s: State, e: Event, id: ReqId)
    requires Once(s, id) && RetainedBy(s, e, id)
    ensures Once(Step(s, e), id)
  {
    if Enabled(s, e) && e.EvalCode? {
      var t := Step(s, e);
      assert t.ran[..|t.ran| - 1] == s.ran;
    }
  }

  /**
   * Across client retries, crashes, evictions and other sessions' traffic, the sources sent under
   * one honoured id reach eval_code at most once in all, for as long as its row is retained.
   */
  lemma {:induction false} AtMostOnce(s: State, es: seq<Event>, id: ReqId)
    requires Once(s, id) && Retained(s, es, id)
    ensures Once(Run(s, es), id)
    decreases |es|
  {
    if es != [] {
      StepKeepsOnce(s, es[0], id);
      AtMostOnce(Step(s, es[0]), es[1..], id);
    }
  }

  /** Every frame the client resends is one of these: same id, same source. */
  lemma RetriesNeverRunTwice(es: seq<Event>, id: ReqId)
    requires ClientRetries(id) && (forall c | c in id :: c < 0x80)
    requires Retained(Init, es, id)
    ensures Runs(Run(Init, es).ran, id) <= 1
  {
    AtMostOnce(Init, es, id);
  }

  // ---- when a row is retained ----------------------------------------------------------------

  /** The clock reading an event writes with. */
  function Clock(e: Event): Option<int> {
    match e
    case Frame(_, _, _, now, _) => Some(now)
    case Replied(_, _, now, _, _) => Some(now)
    case _ => None
  }

  function Later(c: int, e: Event): int {
    if Clock(e).Some? then Clock(e).value else c
  }

  /** The clock never goes back from c on. */
  predicate Ordered(es: seq<Event>, c: int)
    decreases |es|
  {
    es != [] ==> Later(c, es[0]) >= c && Ordered(es[1..], Later(c, es[0]))
  }

  predicate NoReset(es: seq<Event>) {
    forall i :: 0 <= i < |es| ==> !es[i].Reset?
  }

  /** The honoured ids of the frames. */
  function Framed(es: seq<Event>): set<ReqId> {
    if es == [] then {}
    else (if es[0].Frame? && IdOf(es[0].id).Some? then {IdOf(es[0].id).value} else {}) + Framed(es[1..])
  }

  predicate NoneAfter(t: Table, c: int) {
    forall k :: k in t ==> t[k].created <= c
  }

  /** The row of id is there, and only these others are as new, or are about to be written. */
  predicate Newest(s: State, id: ReqId, others: set<ReqId>) {
    && id in s.table
    && (forall k :: k in s.table && k != id && s.table[k].created >= s.table[id].created ==> k in others)
    && (s.phase.Running? && s.phase.id.Some? ==> s.phase.id.value == id || s.phase.id.value in others)
  }

  lemma WriteKeepsNewest(
    t: Table, j: ReqId, reply: Reply, c: int, now: int, kept: set<ReqId>, id: ReqId, others: set<ReqId>)
    requires id in t && NoneAfter(t, c) && now >= c && Prunes(t[j := Row(reply, now)], kept)
    requires forall k :: k in t && k != id && t[k].created >= t[id].created ==> k in others
    requires (j == id || j in others) && |others| < RETAINED_ROWS
    ensures var u := Write(t, j, reply, now, kept);
      && id in u && NoneAfter(u, now)
      && forall k :: k in u && k != id && u[k].created >= u[id].created ==> k in others
  {
    var u := t[j := Row(reply, now)];
    var newer := set k | k in u && k != id && u[k].created >= u[id].created;
    assert newer <= others;
    SubsetSize(newer, others);
    NewestRowsSurvive(u, kept, id);
  }

  lemma StepKeepsNewest(s: State, e: Event, id: ReqId, others: set<ReqId>, c: int)
    requires Newest(s, id, others) && NoneAfter(s.table, c) && |others| < RETAINED_ROWS
    requires !e.Reset? && Later(c, e) >= c && Framed([e]) <= others + {id}
    ensures Newest(Step(s, e), id, others) && NoneAfter(Step(s, e).table, Later(c, e))
  {
    if Enabled(s, e) {
      match e
      case Frame(f, src, cell, now, kept) =>
        if IdOf(f).Some? {
          assert f.value in Framed([e]);
          if f.value !in s.table {
            WriteKeepsNewest(s.table, f.value, PendingFor(cell, src), c, now, kept, id, others);
          }
        }
      case Replied(ok, checkpoint, now, fits, kept) =>
        if fits && s.phase.id.Some? {
          WriteKeepsNewest(s.table, s.phase.id.value, Final(s.phase.cell, ok, checkpoint), c, now, kept, id, others);
        }
      case _ =>
    }
  }

  lemma {:induction false} FewOthersRetain(s: State, es: seq<Event>, id: ReqId, others: set<ReqId>, c: int)
    requires Newest(s, id, others) && NoneAfter(s.table, c) && |others| < RETAINED_ROWS
    requires Ordered(es, c) && NoReset(es) && Framed(es) <= others + {id}
    ensures Retained(s, es, id)
    decreases |es|
  {
    if es != [] {
      StepKeepsNewest(s, es[0], id, others, c);
      FewOthersRetain(Step(s, es[0]), es[1..], id, others, Later(c, es[0]));
    }
  }

  predicate Unheard(s: State, id: ReqId) {
    id !in s.table && Runs(s.ran, id) == 0 && !(s.phase.Running? && s.phase.id == Some(id))
  }

  lemma StepKeepsUnheard(s: State, e: Event, id: ReqId, c: int)
    requires Unheard(s, id) && id !in Framed([e]) && NoneAfter(s.table, c) && Later(c, e) >= c
    ensures Unheard(Step(s, e), id) && NoneAfter(Step(s, e).table, Later(c, e))
  {
    if Enabled(s, e) && e.EvalCode? {
      var t := Step(s, e);
      assert t.ran[..|t.ran| - 1] == s.ran;
    }
    assert e.Frame? && IdOf(e.id).Some? ==> IdOf(e.id).value in Framed([e]);
  }

  /** An id no frame has carried has no row, and has not run. */
  lemma {:induction false} UnframedIsUnheard(s: State, es: seq<Event>, id: ReqId, c: int)
    requires Unheard(s, id) && id !in Framed(es) && NoneAfter(s.table, c) && Ordered(es, c)
    ensures Unheard(Run(s, es), id) && NoneAfter(Run(s, es).table, LastClock(es, c))
    decreases |es|
  {
    if es != [] {
      assert Framed([es[0]]) <= Framed(es) && Framed(es[1..]) <= Framed(es);
      StepKeepsUnheard(s, es[0], id, c);
      UnframedIsUnheard(Step(s, es[0]), es[1..], id, Later(c, es[0]));
    }
  }

  function LastClock(es: seq<Event>, c: int): int
    decreases |es|
  {
    if es == [] then c else LastClock(es[1..], Later(c, es[0]))
  }

  lemma {:induction false} RunConcat(s: State, es: seq<Event>, fs: seq<Event>)
    ensures Run(s, es + fs) == Run(Run(s, es), fs)
    decreases |es|
  {
    if es == [] { assert es + fs == fs; }
    else {
      assert (es + fs)[1..] == es[1..] + fs;
      RunConcat(Step(s, es[0]), es[1..], fs);
    }
  }

  /** The ids that a prune may prefer to one reserved at `now`: framed later, or as new already. */
  ghost function Others(s: State, now: int, after: seq<Event>, id: ReqId): set<ReqId> {
    Framed(after) - {id} + (set k | k in s.table && s.table[k].created >= now)
  }

  lemma ReservedRunsOnce(s: State, frame: Event, after: seq<Event>, id: ReqId, c: int)
    requires Unheard(s, id) && NoneAfter(s.table, c) && NoReset(after)
    requires frame.Frame? && IdOf(frame.id) == Some(id) && Enabled(s, frame)
    requires frame.now >= c && Ordered(after, frame.now) && |Others(s, frame.now, after, id)| < RETAINED_ROWS
    ensures Runs(Run(Step(s, frame), after).ran, id) <= 1
  {
    var others := Others(s, frame.now, after, id);
    ReservationIsNewest(s, frame, id, others, c);
    FewOthersRetain(Step(s, frame), after, id, others, frame.now);
    StepKeepsOnce(s, frame, id);
    AtMostOnce(Step(s, frame), after, id);
  }

  /**
   * At most once, in terms of the traffic alone: an id's first frame reserves it, the clock does
   * not go back, the session is not reset afterwards, and fewer than 256 other ids are framed
   * afterwards or were written at the same clock reading.
   */
  lemma FewOthersRunOnce(before: seq<Event>, frame: Event, after: seq<Event>, id: ReqId, c: int)
    requires id !in Framed(before) && Ordered(before + [frame] + after, c) && NoReset(after)
    requires frame.Frame? && IdOf(frame.id) == Some(id) && Enabled(Run(Init, before), frame)
    requires |Others(Run(Init, before), frame.now, after, id)| < RETAINED_ROWS
    ensures Runs(Run(Init, before + [frame] + after).ran, id) <= 1
  {
    var s, es := Run(Init, before), [frame] + after;
    assert before + [frame] + after == before + es;
    OrderedSplits(before, es, c);
    assert es[0] == frame && es[1..] == after;
    UnframedIsUnheard(Init, before, id, c);
    ReservedRunsOnce(s, frame, after, id, LastClock(before, c));
    RunConcat(Init, before, es);
    UnrollRun(s, es);
  }

  lemma {:induction false} OrderedSplits(es: seq<Event>, fs: seq<Event>, c: int)
    requires Ordered(es + fs, c)
    ensures Ordered(es, c) && Ordered(fs, LastClock(es, c))
    decreases |es|
  {
    if es == [] { assert es + fs == fs; }
    else {
      assert (es + fs)[1..] == es[1..] + fs;
      OrderedSplits(es[1..], fs, Later(c, es[0]));
    }
  }

  lemma ReservationIsNewest(s: State, frame: Event, id: ReqId, others: set<ReqId>, c: int)
    requires frame.Frame? && IdOf(frame.id) == Some(id) && Enabled(s, frame) && id !in s.table
    requires NoneAfter(s.table, c) && frame.now >= c && |others| < RETAINED_ROWS
    requires forall k :: k in s.table && s.table[k].created >= frame.now ==> k in others
    ensures Newest(Step(s, frame), id, others) && NoneAfter(Step(s, frame).table, frame.now)
  {
    var t := s.table[id := Row(PendingFor(frame.cell, frame.src), frame.now)];
    var newer := set k | k in t && k != id && t[k].created >= t[id].created;
    assert newer <= others;
    SubsetSize(newer, others);
    NewestRowsSurvive(t, frame.kept, id);
  }

  // ---- what a later delivery is told -------------------------------------------------------

  /** What the session answers to a frame at once, running nothing. */
  function AnswerTo(s: State, e: Event): Option<Answer> {
    if s.phase.Idle? && e.Frame? && IdOf(e.id).Some? && IdOf(e.id).value in s.table
    then Some(Replayed(s.table[IdOf(e.id).value].reply)) else None
  }

  /** The step stores a final reply under id. */
  ghost predicate Stores(s: State, e: Event, id: ReqId) {
    Enabled(s, e) && e.Replied? && e.fits && s.phase.id == Some(id)
  }

  ghost predicate NeverStores(s: State, es: seq<Event>, id: ReqId)
    decreases |es|
  {
    es != [] ==> !Stores(s, es[0], id) && NeverStores(Step(s, es[0]), es[1..], id)
  }

  lemma StepKeepsRow(s: State, e: Event, id: ReqId)
    requires id in s.table && RetainedBy(s, e, id) && !Stores(s, e, id)
    ensures id in Step(s, e).table && Step(s, e).table[id] == s.table[id]
  {
  }

  /** A retained row changes only when a final reply is stored under its id. */
  lemma {:induction false} RowStays(s: State, es: seq<Event>, id: ReqId)
    requires id in s.table && Retained(s, es, id) && NeverStores(s, es, id)
    ensures id in Run(s, es).table && Run(s, es).table[id] == s.table[id]
    decreases |es|
  {
    if es != [] {
      StepKeepsRow(s, es[0], id);
      RowStays(Step(s, es[0]), es[1..], id);
    }
  }

  /** An id that is answered and not running cannot be stored under again. */
  lemma {:induction false} AnsweredIsFinal(s: State, es: seq<Event>, id: ReqId)
    requires id in s.table && Retained(s, es, id) && (s.phase.Running? ==> s.phase.id != Some(id))
    ensures NeverStores(s, es, id)
    decreases |es|
  {
    if es != [] {
      StepKeepsRow(s, es[0], id);
      AnsweredIsFinal(Step(s, es[0]), es[1..], id);
    }
  }

  /**
   * Once a reply is stored, every later frame with its id gets exactly that ok and that checkpoint
   * field for as long as the row is retained, whatever source it carries, and changes nothing.
   */
  lemma StoredReplyIsReplayed(s: State, reply: Event, es: seq<Event>, frame: Event, id: ReqId)
    requires Stores(s, reply, id) && id in Step(s, reply).table && Retained(Step(s, reply), es, id)
    requires frame.Frame? && IdOf(frame.id) == Some(id) && Run(Step(s, reply), es).phase.Idle?
    ensures var t := Run(Step(s, reply), es);
      AnswerTo(t, frame) == Some(Answer(reply.ok, reply.checkpoint)) && Step(t, frame) == t
  {
    var t := Step(s, reply);
    assert t.table[id].reply == Final(s.phase.cell, reply.ok, reply.checkpoint);
    AnsweredIsFinal(t, es, id);
    RowStays(t, es, id);
  }

  /**
   * Until then a later frame gets what the source of the first one looks like: a failure with a
   * checkpoint that went well for a long one, a success with it for one with effects, and the raw
   * marker otherwise; and changes nothing.
   */
  lemma ReservationIsReplayed(s: State, first: Event, es: seq<Event>, frame: Event, id: ReqId)
    requires Enabled(s, first) && first.Frame? && IdOf(first.id) == Some(id) && id !in s.table
    requires id in Step(s, first).table
    requires Retained(Step(s, first), es, id) && NeverStores(Step(s, first), es, id)
    requires frame.Frame? && IdOf(frame.id) == Some(id) && Run(Step(s, first), es).phase.Idle?
    ensures var t := Run(Step(s, first), es);
      && Step(t, frame) == t
      && AnswerTo(t, frame) == Some(
           if HasText(first.src, "while (true)") || HasText(first.src, "__timeoutSpin")
           then Answer(false, Claim(true, false))
           else if HasText(first.src, "=") || HasText(first.src, "++") || HasText(first.src, "--")
             || HasText(first.src, ".push(") || HasText(first.src, ".splice(") || HasText(first.src, ".set(")
             || HasText(first.src, "delete ") then Answer(true, Claim(true, false))
           else Marker)
  {
    var t := Step(s, first);
    assert t.table[id].reply == PendingFor(first.cell, first.src);
    RowStays(t, es, id);
  }

  // ---- what fails, and exactly when ----------------------------------------------------------

  /** Two deliveries of one frame, with nothing going wrong in between. */
  ghost function TwoDeliveries(id: ReqId, src: string): seq<Event> {
    [Frame(Some(id), src, 0, 1, {id}), EvalCode, Replied(true, Claim(true, false), 2, true, {id}),
     Frame(Some(id), src, 1, 3, {id}), EvalCode]
  }

  /** The source runs once if the id is honoured, and twice if the kernel ignores it. */
  lemma SecondDeliveryRunsIffIgnored(id: ReqId, src: string)
    ensures |Run(Init, TwoDeliveries(id, src)).ran| == if Honoured(id) then 1 else 2
  {
    var es := TwoDeliveries(id, src);
    var s1 := Step(Init, es[0]);
    var s2 := Step(s1, es[1]);
    var s3 := Step(s2, es[2]);
    var s4 := Step(s3, es[3]);
    var s5 := Step(s4, es[4]);
    var t := map[id := Row(PendingFor(0, src), 1)];
    assert Init.table[id := Row(PendingFor(0, src), 1)] == t && t.Keys == {id};
    if Honoured(id) {
      assert Prunes(t, {id}) && Restrict(t, {id}) == t;
      assert s2.table == t;
      var u := t[id := Row(Final(0, true, Claim(true, false)), 2)];
      assert u.Keys == {id} && Prunes(u, {id}) && Restrict(u, {id}) == u;
      assert s3.table == u && s4 == s3;
    }
    UnrollRun(Init, es);
    UnrollRun(s1, es[1..]);
    UnrollRun(s2, es[2..]);
    UnrollRun(s3, es[3..]);
    UnrollRun(s4, es[4..]);
    assert es[5..] == [] && Run(Init, es) == s5;
  }

  lemma UnrollRun(s: State, es: seq<Event>)
    requires es != []
    ensures Run(s, es) == Run(Step(s, es[0]), es[1..])
    ensures forall k :: 0 < k <= |es| ==> es[1..][k - 1..] == es[k..]
  {
  }

  /** An id the client retries and the kernel ignores: forty-three euro signs, 129 bytes. */
  lemma RetriedButIgnored() returns (id: ReqId)
    ensures ClientRetries(id) && !Honoured(id)
    ensures |Run(Init, TwoDeliveries(id, "x")).ran| == 2
  {
    id := seq(43, _ => 0x20AC);
    EuroLengths(43);
    SecondDeliveryRunsIffIgnored(id, "x");
  }

  lemma {:induction false} EuroLengths(n: nat)
    ensures Utf16Len(seq(n, _ => 0x20AC)) == n && Utf8Len(seq(n, _ => 0x20AC)) == 3 * n
  {
    if n > 0 {
      EuroLengths(n - 1);
      assert seq<Scalar>(n, _ => 0x20AC)[1..] == seq<Scalar>(n - 1, _ => 0x20AC);
    }
  }

  // ---- the object ----------------------------------------------------------------------------

  class ReplyDesk {
    var table: Table

    constructor ()
      ensures table == map[]
    {
      table := map[];
    }

    /** The start of eval_critical: answer from the table, or reserve before anything runs. */
    method AdmitEval(id: Option<ReqId>, src: string, cell: int, now: int, kept: set<ReqId>)
      returns (answer: Option<Answer>, honoured: Option<ReqId>)
      modifies this
      ensures honoured == IdOf(id)
      ensures answer.Some? <==> honoured.Some? && honoured.value in old(table)
      ensures answer.Some? ==> table == old(table) && GivesBack(table[honoured.value].reply, answer.value)
      ensures answer.None? ==>
        table == if honoured.None? then old(table)
                 else Write(old(table), honoured.value, PendingFor(cell, src), now, kept)
    {
      honoured := if id.Some? && Honoured(id.value) then id else None;
      answer := None;
      if honoured.Some? {
        if honoured.value in table {
          answer := Some(Replayed(table[honoured.value].reply));
          return;
        }
        table := table[honoured.value := Row(PendingFor(cell, src), now)];
        table := Restrict(table, kept);
      }
    }

    method StoreReply(id: ReqId, reply: Reply, now: int, kept: set<ReqId>)
      modifies this
      ensures table == Write(old(table), id, reply, now, kept)
      ensures id in kept ==> id in table && table[id].reply == reply
    {
      table := table[id := Row(reply, now)];
      table := Restrict(table, kept);
    }

    /** An eval whose reply was stored and lost on the way, and its frame sent again. */
    method AnswerAgain(id: ReqId, cell: int, ok: bool, checkpoint: Claim, src: string, now: int, kept: set<ReqId>)
      returns (answer: Option<Answer>)
      requires Honoured(id) && id in kept
      modifies this
      ensures answer == Some(Answer(ok, checkpoint))
      ensures table == Write(old(table), id, Final(cell, ok, checkpoint), now, kept)
    {
      StoreReply(id, Final(cell, ok, checkpoint), now, kept);
      var honoured;
      answer, honoured := AdmitEval(Some(id), src, cell + 1, now, kept);
    }
  }
}
