/**
 * The supervisor's session registry and its keep-warm sweep (apps/cloud/src/supervisor.ts): how
 * long an idle session stays, over every interleaving of requests with a sweep that gives up
 * control while it sends heartbeats. Times are in milliseconds.
 */
module Supervisor {
  import opened Prelude

  const MAX_FACETS: nat := 128
  const IDLE_TTL: nat := 300000
  const SWEEP_INTERVAL: nat := 30000
  const MIN_EVALS: nat := 2
  const MAX_EWMA: nat := 90000
  const HORIZON: nat := 240000
  const MAX_SIZE: nat := 524288

  /**
   * Two and a half times a cadence just below MAX_EWMA, rounded down to a sweep's millisecond,
   * and one heartbeat's horizon: 3 ms less than 465 s.
   */
  const EVICT_BOUND: nat := 464997

  type Facet = string

  /** A row of the sessions table. `gaps` is the history of the recorded gaps. */
  datatype Row = Row(last: nat, warmUntil: nat, evals: nat, ewma: nat, gap: nat, sensitive: bool, size: int,
                     gaps: seq<nat>)

  /** A running sweep: its time, and the rows read at its start that it has not dealt with. */
  datatype Sweep = Sweep(now: nat, todo: map<Facet, Row>)

  datatype State = State(rows: map<Facet, Row>, clock: nat, alarm: Option<nat>, sweep: Option<Sweep>)

  const Init: State := State(map[], 1, None, None)

  // ---- the functions of the source -----------------------------------------------------------

  /** x | 0 */
  function Int32(x: int): int {
    (x + 0x8000_0000) % 0x1_0000_0000 - 0x8000_0000
  }

  /** Math.round of 0.4 * gap + 0.6 * ewma. */
  function Smooth(gap: nat, ewma: nat): nat {
    (4 * gap + 6 * ewma + 5) / 10
  }

  const Fresh: Row := Row(0, 0, 1, 0, 0, false, 0, [])

  /** _touch on an existing row; a row with last 0 was evicted, and no gap is recorded. */
  function Touched(row: Row, now: nat): Row {
    var r := row.(last := now, evals := row.evals + 1);
    if row.last == 0 then r
    else
      var gap := if now > row.last then now - row.last else 0;
      r.(gap := gap, ewma := if row.ewma > 0 then Smooth(gap, row.ewma) else gap, gaps := row.gaps + [gap])
  }

  predicate ShouldWarm(row: Row, now: nat) {
    row.last > 0 && (row.sensitive || (
      && Int32(row.evals) >= MIN_EVALS
      && 0 < row.ewma < MAX_EWMA
      && 2 * (now - row.last) <= 5 * row.ewma
      && Int32(row.size) <= MAX_SIZE))
  }

  predicate ShouldEvict(row: Row, now: nat) {
    !ShouldWarm(row, now) && now - row.last >= IDLE_TTL && row.warmUntil <= now
  }

  /** What the sweep does to the row now, having read `seen` at its start. */
  function Swept(row: Row, seen: Row, now: nat): Row {
    if ShouldWarm(seen, now) then row.(warmUntil := now + HORIZON)
    else if ShouldEvict(seen, now) then row.(last := 0, warmUntil := 0)
    else row
  }

  function Active(rows: map<Facet, Row>): set<Facet> {
    set f | f in rows && rows[f].last > 0
  }

  function Arm(s: State): State {
    if s.alarm.None? then s.(alarm := Some(s.clock + SWEEP_INTERVAL)) else s
  }

  // ---- the machine ---------------------------------------------------------------------------

  datatype Event =
    | Tick(now: nat)
    | Touch(f: Facet)
    | SetSensitive(f: Facet, on: bool)
    | RecordSize(f: Facet, size: int)
    | Evict(f: Facet)                 // the /evict route
    | StartSweep
    | SweepRow(f: Facet)              // one row, up to the sweep's next await
    | EndSweep

  function Step(s: State, e: Event): State {
    match e
    case Tick(now) => if now >= s.clock then s.(clock := now) else s
    case Touch(f) =>
      if f in s.rows then Arm(s.(rows := s.rows[f := Touched(s.rows[f], s.clock)]))
      else if |s.rows| >= MAX_FACETS then s
      else Arm(s.(rows := s.rows[f := Fresh.(last := s.clock)]))
    case SetSensitive(f, on) => if f in s.rows then s.(rows := s.rows[f := s.rows[f].(sensitive := on)]) else s
    case RecordSize(f, size) =>
      if f in s.rows && size > 0 then s.(rows := s.rows[f := s.rows[f].(size := Int32(size))]) else s
    case Evict(f) => if f in s.rows then s.(rows := s.rows[f := s.rows[f].(last := 0, warmUntil := 0)]) else s
    case StartSweep =>
      if s.sweep.Some? || s.alarm.None? || s.alarm.value > s.clock then s
      else s.(alarm := None, sweep := Some(Sweep(s.clock, map f | f in Active(s.rows) :: s.rows[f])))
    case SweepRow(f) =>
      if s.sweep.None? || f !in s.sweep.value.todo || f !in s.rows then s
      else
        var w := s.sweep.value;
        s.(rows := s.rows[f := Swept(s.rows[f], w.todo[f], w.now)], sweep := Some(w.(todo := w.todo - {f})))
    case EndSweep =>
      if s.sweep.None? || s.sweep.value.todo != map[] then s
      else
        s.(sweep := None, alarm := if Active(s.rows) == {} then s.alarm else Some(s.sweep.value.now + SWEEP_INTERVAL))
  }

  function Run(s: State, run: seq<Event>): State
    decreases |run|
  {
    if run == [] then s else Run(Step(s, run[0]), run[1..])
  }

  // ---- the smoothed gap ----------------------------------------------------------------------

  function Least(gaps: seq<nat>): (m: nat)
    requires gaps != []
    ensures m in gaps && forall g :: g in gaps ==> m <= g
  {
    if |gaps| == 1 then gaps[0]
    else
      var n := |gaps| - 1;
      assert gaps == gaps[..n] + [gaps[n]];
      Min(Least(gaps[..n]), gaps[n])
  }

  function Most(gaps: seq<nat>): (m: nat)
    requires gaps != []
    ensures m in gaps && forall g :: g in gaps ==> g <= m
  {
    if |gaps| == 1 then gaps[0]
    else
      var n := |gaps| - 1;
      assert gaps == gaps[..n] + [gaps[n]];
      Max(Most(gaps[..n]), gaps[n])
  }

  predicate Between(row: Row) {
    if row.gaps == [] then row.ewma == 0 else Least(row.gaps) <= row.ewma <= Most(row.gaps)
  }

  /** Once a gap is recorded the rounded average stays between the smallest and the largest gap. */
  lemma TouchKeepsBetween(row: Row, now: nat)
    requires Between(row)
    ensures Between(Touched(row, now))
  {
    var r := Touched(row, now);
    if row.last > 0 {
      assert r.gaps[..|row.gaps|] == row.gaps;
    }
  }

  /** What one use records: the gap as it was, and an average weighted two to three, rounded half up. */
  lemma TouchRecords(row: Row, now: nat)
    requires row.last <= now
    ensures var r, gap := Touched(row, now), now - row.last;
      && r.last == now && r.evals == row.evals + 1
      && r.warmUntil == row.warmUntil && r.sensitive == row.sensitive && r.size == row.size
      && (row.last == 0 ==> r.gap == row.gap && r.ewma == row.ewma && r.gaps == row.gaps)
      && (row.last > 0 ==> r.gap == gap && r.gaps == row.gaps + [gap])
      && (row.last > 0 && row.ewma == 0 ==> r.ewma == gap)
      && (row.last > 0 && row.ewma > 0 ==>
            -5 <= 4 * gap + 6 * row.ewma - 10 * r.ewma < 5)
  {
  }

  /** The integer a 32-bit register keeps. */
  lemma Int32Wraps(x: int)
    ensures -0x8000_0000 <= Int32(x) < 0x8000_0000 && (x - Int32(x)) % 0x1_0000_0000 == 0
    ensures -0x8000_0000 <= x < 0x8000_0000 ==> Int32(x) == x
  {
  }

  /**
   * When a sweep keeps a session warm: always on request, and otherwise for two and a half times
   * its average gap, if that is under 90 s, the session has been used twice and its snapshot is
   * at most 512 KB. A count of uses past the 32-bit range counts as none.
   */
  lemma WarmWindow(row: Row, now: nat)
    requires 0 < row.last <= now
    ensures row.sensitive ==> ShouldWarm(row, now)
    ensures !row.sensitive && row.evals < 0x8000_0000 && 0 <= row.size < 0x8000_0000 ==>
      (ShouldWarm(row, now) <==>
         row.evals >= 2 && row.size <= 512 * 1024 && 0 < row.ewma < 90_000 && now <= row.last + 5 * row.ewma / 2)
    ensures !row.sensitive && 0x8000_0000 <= row.evals <= 0x1_0000_0001 ==> !ShouldWarm(row, now)
  {
  }

  /** A sweep decides a row by what it read of it, and leaves every other row alone. */
  lemma SweepDecides(s: State, f: Facet, g: Facet)
    requires Inv(s) && s.sweep.Some? && f in s.sweep.value.todo && g in s.rows
    ensures var seen, now, t := s.sweep.value.todo[f], s.sweep.value.now, Step(s, SweepRow(f));
      && g in t.rows && (g != f ==> t.rows[g] == s.rows[g])
      && (ShouldWarm(seen, now) ==> t.rows[f] == s.rows[f].(warmUntil := now + 240_000))
      && (!ShouldWarm(seen, now) && now >= seen.last + 300_000 && now >= seen.warmUntil ==>
            t.rows[f] == s.rows[f].(last := 0, warmUntil := 0))
      && (!ShouldWarm(seen, now) && (now < seen.last + 300_000 || now < seen.warmUntil) ==> t.rows == s.rows)
      && t.sweep == Some(s.sweep.value.(todo := s.sweep.value.todo - {f}))
  {
    assert s.rows[f := s.rows[f]] == s.rows;
  }

  // ---- every run -----------------------------------------------------------------------------

  /** Times in rows and in a running sweep lie in the past; heartbeats reach one horizon ahead. */
  predicate RowOk(row: Row, clock: nat) {
    row.last <= clock && row.warmUntil <= clock + HORIZON && Between(row)
  }

  ghost predicate SweepOk(s: State) {
    s.sweep.Some? ==>
      && s.sweep.value.now <= s.clock
      && forall f :: f in s.sweep.value.todo ==> f in s.rows && s.sweep.value.todo[f].last > 0
  }

  /** As long as a session is active, a sweep is under way or will come. */
  ghost predicate AlarmOk(s: State) {
    Active(s.rows) != {} ==> s.alarm.Some? || s.sweep.Some?
  }

  ghost predicate Inv(s: State) {
    s.clock > 0 && (forall f :: f in s.rows ==> RowOk(s.rows[f], s.clock)) && SweepOk(s) && AlarmOk(s)
  }

  lemma TouchKeepsInv(s: State, f: Facet)
    requires Inv(s)
    ensures Inv(Step(s, Touch(f)))
  {
    if f in s.rows { TouchKeepsBetween(s.rows[f], s.clock); }
  }

  /** Replacing a row by one that is no more active. */
  lemma PutKeepsInv(s: State, f: Facet, row: Row)
    requires Inv(s) && f in s.rows && RowOk(row, s.clock) && (row.last > 0 ==> s.rows[f].last > 0)
    ensures Inv(s.(rows := s.rows[f := row]))
  {
    assert Active(s.rows[f := row]) <= Active(s.rows);
  }

  lemma SweepKeepsInv(s: State, e: Event)
    requires Inv(s) && (e.StartSweep? || e.SweepRow? || e.EndSweep?)
    ensures Inv(Step(s, e))
  {
    if e.SweepRow? && s.sweep.Some? && e.f in s.sweep.value.todo && e.f in s.rows {
      var w := s.sweep.value;
      PutKeepsInv(s, e.f, Swept(s.rows[e.f], w.todo[e.f], w.now));
    }
  }

  lemma StepKeepsInv(s: State, e: Event)
    requires Inv(s)
    ensures Inv(Step(s, e))
  {
    match e {
      case Touch(f) => TouchKeepsInv(s, f);
      case Evict(f) => if f in s.rows { PutKeepsInv(s, f, s.rows[f].(last := 0, warmUntil := 0)); }
      case SetSensitive(f, on) => if f in s.rows { PutKeepsInv(s, f, s.rows[f].(sensitive := on)); }
      case RecordSize(f, size) => if f in s.rows { PutKeepsInv(s, f, s.rows[f].(size := Int32(size))); }
      case Tick(_) =>
      case _ => SweepKeepsInv(s, e);
    }
  }

  lemma {:induction false} RunKeepsInv(s: State, run: seq<Event>)
    requires Inv(s)
    ensures Inv(Run(s, run))
    decreases |run|
  {
    if run != [] {
      StepKeepsInv(s, run[0]);
      RunKeepsInv(Step(s, run[0]), run[1..]);
    }
  }

  /** The shard never holds more than its 128 rows; a full one refuses a new session and nothing else. */
  lemma {:induction false} ShardIsBounded(s: State, run: seq<Event>)
    requires |s.rows| <= 128
    ensures |Run(s, run).rows| <= 128
    ensures forall f :: f !in s.rows && |s.rows| == 128 ==> Step(s, Touch(f)) == s
    decreases |run|
  {
    if run != [] {
      StepIsBounded(s, run[0]);
      ShardIsBounded(Step(s, run[0]), run[1..]);
    }
  }

  /** Only the first use of a session adds a row, and nothing removes one. */
  lemma SameNames(s: State, e: Event)
    ensures Step(s, e).rows.Keys == if e.Touch? && |s.rows| < 128 then s.rows.Keys + {e.f} else s.rows.Keys
  {
    hide Step;
    if e.Touch? { TouchNames(s, e.f); }
    else if e.StartSweep? || e.EndSweep? || e.Tick? { SweepNames(s, e); }
    else { RowNames(s, e); }
  }

  lemma TouchNames(s: State, f: Facet)
    ensures Step(s, Touch(f)).rows.Keys == if |s.rows| < 128 then s.rows.Keys + {f} else s.rows.Keys
  {
    hide Touched, Arm;
    TouchPuts(s, f);
    if f in s.rows { assert s.rows.Keys + {f} == s.rows.Keys; }
  }

  lemma TouchPuts(s: State, f: Facet)
    ensures f in s.rows || |s.rows| < 128 ==> Step(s, Touch(f)).rows.Keys == s.rows.Keys + {f}
    ensures f !in s.rows && |s.rows| >= 128 ==> Step(s, Touch(f)) == s
  {
    hide Touched;
    PutNames(s.rows, f, Fresh.(last := s.clock));
    if f in s.rows { PutNames(s.rows, f, Touched(s.rows[f], s.clock)); }
  }

  lemma PutNames(rows: map<Facet, Row>, f: Facet, row: Row)
    ensures rows[f := row].Keys == rows.Keys + {f}
  {
  }

  lemma SweepNames(s: State, e: Event)
    requires e.StartSweep? || e.EndSweep? || e.Tick?
    ensures Step(s, e).rows == s.rows
  {
    hide Active;
  }

  lemma RowNames(s: State, e: Event)
    requires e.SweepRow? || e.Evict? || e.RecordSize? || e.SetSensitive?
    ensures Step(s, e).rows.Keys == s.rows.Keys
  {
    hide Swept, Int32;
  }

  lemma StepIsBounded(s: State, e: Event)
    requires |s.rows| <= 128
    ensures |Step(s, e).rows| <= 128
  {
    hide Step;
    SameNames(s, e);
    assert |Step(s, e).rows| == |Step(s, e).rows.Keys| && |s.rows| == |s.rows.Keys|;
  }

  /** What the other requests leave of a session: its size, its flag, or nothing to keep warm. */
  lemma RequestsDecide(s: State, f: Facet, size: int, on: bool)
    requires f in s.rows
    ensures Step(s, RecordSize(f, size)).rows[f]
         == if size <= 0 then s.rows[f] else s.rows[f].(size := Int32(size))
    ensures Step(s, SetSensitive(f, on)).rows[f] == s.rows[f].(sensitive := on)
    ensures var t := Step(s, Evict(f)).rows;
      && f !in Active(t) && t[f].evals == s.rows[f].evals && t[f].sensitive == s.rows[f].sensitive
      && forall now :: !ShouldWarm(t[f], now)
    ensures var t := Step(Step(s, Evict(f)), Touch(f)).rows[f];
      t.last == s.clock && t.ewma == s.rows[f].ewma && t.gaps == s.rows[f].gaps && t.warmUntil == 0
  {
  }

  /** A sweep that ends with no active session leaves the alarm as it finds it, and sets it otherwise. */
  lemma SweepEndsArmed(s: State)
    requires s.sweep.Some? && s.sweep.value.todo == map[]
    ensures var t := Step(s, EndSweep);
      && t == s.(sweep := None, alarm := t.alarm)
      && (Active(s.rows) == {} ==> t.alarm == s.alarm)
      && (Active(s.rows) != {} ==> t.alarm == Some(s.sweep.value.now + 30_000))
  {
  }

  // ---- no eviction too late ------------------------------------------------------------------

  /** Nobody uses f or asks for it to be kept warm. */
  predicate Quiet(f: Facet, e: Event) {
    e != Touch(f) && e != SetSensitive(f, true)
  }

  /** What is left of a session last used at T: its row, or what a sweep read of it. */
  predicate IdleRow(row: Row, T: nat) {
    (row.last == T || row.last == 0) && !row.sensitive && row.warmUntil <= T + EVICT_BOUND
  }

  ghost predicate Idle(s: State, f: Facet, T: nat) {
    && T > 0 && f in s.rows && IdleRow(s.rows[f], T)
    && (s.sweep.Some? && f in s.sweep.value.todo && s.sweep.value.now > T ==> IdleRow(s.sweep.value.todo[f], T))
  }

  lemma QuietKeepsIdle(s: State, f: Facet, T: nat, e: Event)
    requires Inv(s) && T <= s.clock && Idle(s, f, T) && Quiet(f, e)
    ensures Idle(Step(s, e), f, T)
  {
  }

  /** Evicted, or about to be by a sweep that began after the bound. */
  ghost predicate Going(s: State, f: Facet, T: nat) {
    || (f in s.rows && s.rows[f].last == 0)
    || (s.sweep.Some? && f in s.sweep.value.todo && s.sweep.value.now >= T + EVICT_BOUND)
  }

  lemma QuietKeepsGoing(s: State, f: Facet, T: nat, e: Event)
    requires Inv(s) && T <= s.clock && Idle(s, f, T) && Going(s, f, T) && Quiet(f, e)
    ensures Going(Step(s, e), f, T)
  {
  }

  lemma {:induction false} QuietRun(s: State, f: Facet, T: nat, run: seq<Event>)
    requires Inv(s) && T <= s.clock && Idle(s, f, T) && (forall i :: 0 <= i < |run| ==> Quiet(f, run[i]))
    ensures var r := Run(s, run); Inv(r) && T <= r.clock && Idle(r, f, T) && (Going(s, f, T) ==> Going(r, f, T))
    decreases |run|
  {
    if run != [] {
      StepKeepsInv(s, run[0]);
      QuietKeepsIdle(s, f, T, run[0]);
      if Going(s, f, T) { QuietKeepsGoing(s, f, T, run[0]); }
      QuietRun(Step(s, run[0]), f, T, run[1..]);
    }
  }

  /**
   * A session used last at s, not kept warm on request, and left alone since, is evicted by the
   * first sweep that starts EVICT_BOUND or more after that, whatever else goes on before and
   * during the sweep.
   */
  lemma EvictedByBound(s: State, f: Facet, before: seq<Event>, during: seq<Event>)
    requires Inv(s) && f in s.rows && s.rows[f].last == s.clock && !s.rows[f].sensitive
    requires forall i :: 0 <= i < |before| ==> Quiet(f, before[i])
    requires forall i :: 0 <= i < |during| ==> Quiet(f, during[i])
    requires var m := Run(s, before);
      m.sweep.None? && m.alarm.Some? && m.alarm.value <= m.clock && m.clock >= s.clock + EVICT_BOUND
    requires Run(Step(Run(s, before), StartSweep), during).sweep.None?
    ensures var r := Run(Step(Run(s, before), StartSweep), during); f in r.rows && r.rows[f].last == 0
  {
    QuietRun(s, f, s.clock, before);
    SweepEvicts(Run(s, before), f, s.clock, during);
  }

  lemma SweepEvicts(m: State, f: Facet, T: nat, during: seq<Event>)
    requires Inv(m) && T <= m.clock && Idle(m, f, T) && m.clock >= T + EVICT_BOUND
    requires m.sweep.None? && m.alarm.Some? && m.alarm.value <= m.clock
    requires (forall i :: 0 <= i < |during| ==> Quiet(f, during[i])) && Run(Step(m, StartSweep), during).sweep.None?
    ensures var r := Run(Step(m, StartSweep), during); f in r.rows && r.rows[f].last == 0
  {
    StepKeepsInv(m, StartSweep);
    QuietKeepsIdle(m, f, T, StartSweep);
    QuietRun(Step(m, StartSweep), f, T, during);
  }

  // ---- no eviction too early -----------------------------------------------------------------

  /** What a step leaves of f's last use: the time it had, the time of the step, or 0. */
  lemma LastUseStep(s: State, f: Facet, e: Event)
    requires f in s.rows
    ensures var r := Step(s, e);
      && f in r.rows && r.clock >= s.clock
      && (r.rows[f].last == 0 || r.rows[f].last == if e == Touch(f) then s.clock else s.rows[f].last)
  {
  }

  lemma {:induction false} LastUse(s: State, f: Facet, run: seq<Event>, T: nat)
    requires f in s.rows && T <= s.clock
    ensures var r := Run(s, run);
      && f in r.rows && r.clock >= s.clock
      && (Touch(f) in run || s.rows[f].last >= T ==> r.rows[f].last == 0 || r.rows[f].last >= T)
      && (Touch(f) !in run ==> r.rows[f].last == 0 || r.rows[f].last == s.rows[f].last)
    decreases |run|
  {
    if run != [] {
      var e, rest := run[0], run[1..];
      assert Touch(f) in run <==> e == Touch(f) || Touch(f) in rest;
      LastUseStep(s, f, e);
      LastUse(Step(s, e), f, rest, T);
    }
  }

  /** A sweep's rows stay as it read them until it deals with them. */
  lemma {:induction false} SeenStays(s: State, f: Facet, run: seq<Event>)
    requires s.sweep.Some? && f in s.sweep.value.todo
    requires forall i :: 0 <= i < |run| ==> run[i] != SweepRow(f)
    ensures var r := Run(s, run);
      r.sweep.Some? && r.sweep.value.now == s.sweep.value.now
      && f in r.sweep.value.todo && r.sweep.value.todo[f] == s.sweep.value.todo[f]
    decreases |run|
  {
    if run != [] { SeenStays(Step(s, run[0]), f, run[1..]); }
  }

  /**
   * The sweep decides by what it read at its start. A session it evicts, in a sweep shorter than
   * the idle time, was idle for less than that exactly when it was used during the sweep.
   */
  lemma EvictedEarlyIff(s: State, f: Facet, run: seq<Event>)
    requires Inv(s) && f in s.rows && s.rows[f].last > 0
    requires s.sweep.None? && s.alarm.Some? && s.alarm.value <= s.clock
    requires forall i :: 0 <= i < |run| ==> run[i] != SweepRow(f)
    requires var r := Run(Step(s, StartSweep), run);
      f in r.rows && r.rows[f].last > 0 && r.clock < s.clock + IDLE_TTL
      && f in Step(r, SweepRow(f)).rows && Step(r, SweepRow(f)).rows[f].last == 0
    ensures var r := Run(Step(s, StartSweep), run);
      r.clock - r.rows[f].last < IDLE_TTL <==> Touch(f) in run
  {
    hide Run, Inv;
    var u := Step(s, StartSweep);
    SeenStays(u, f, run);
    LastUse(u, f, run, s.clock);
  }

  // ---- runs that reach the limits ------------------------------------------------------------

  lemma RunStep(s: State, e: Event, m: State, rest: seq<Event>)
    requires Step(s, e) == m
    ensures Run(s, [e] + rest) == Run(m, rest)
  {
    assert ([e] + rest)[1..] == rest;
  }

  /** One session, and a sweep that runs through. */
  function One(f: Facet, row: Row, clock: nat, alarm: nat): State {
    State(map[f := row], clock, Some(alarm), None)
  }

  lemma WholeSweep(f: Facet, row: Row, clock: nat, alarm: nat, rest: seq<Event>) returns (run: seq<Event>)
    requires row.last > 0 && alarm <= clock && Swept(row, row, clock).last > 0
    ensures Run(One(f, row, clock, alarm), run)
         == Run(One(f, Swept(row, row, clock), clock, clock + SWEEP_INTERVAL), rest)
  {
    var s, after := One(f, row, clock, alarm), Swept(row, row, clock);
    var s1 := State(map[f := row], clock, None, Some(Sweep(clock, map[f := row])));
    var s2 := State(map[f := after], clock, None, Some(Sweep(clock, map[])));
    assert Active(s.rows) == {f} && Step(s, StartSweep).sweep.value.todo == map[f := row];
    assert f in Active(s2.rows);
    RunStep(s2, EndSweep, One(f, after, clock, clock + SWEEP_INTERVAL), rest);
    assert Step(s1, SweepRow(f)) == s2 by {
      assert map[f := row] - {f} == map[] && map[f := row][f := after] == map[f := after];
    }
    RunStep(s1, SweepRow(f), s2, [EndSweep] + rest);
    RunStep(s, StartSweep, s1, [SweepRow(f)] + ([EndSweep] + rest));
    run := [StartSweep] + ([SweepRow(f)] + ([EndSweep] + rest));
  }

  /** Two uses, 89999 ms apart, the second at 90000. */
  const Slow: Row := Row(90000, 0, 2, 89999, 89999, false, 0, [89999])

  lemma SlowSession(f: Facet, rest: seq<Event>) returns (run: seq<Event>)
    ensures Run(Init, run) == Run(One(f, Slow, 90000, 30001), rest)
  {
    var s1 := One(f, Fresh.(last := 1), 1, 30001);
    var s2 := One(f, Fresh.(last := 1), 90000, 30001);
    assert Touched(Fresh.(last := 1), 90000) == Slow by { assert [] + [89999] == [89999]; }
    assert map[f := Fresh.(last := 1)][f := Slow] == map[f := Slow];
    RunStep(s2, Touch(f), One(f, Slow, 90000, 30001), rest);
    var r2 := [Touch(f)] + rest;
    RunStep(s1, Tick(90000), s2, r2);
    var r1 := [Tick(90000)] + r2;
    assert Step(Init, Touch(f)) == s1 by { assert map[][f := Fresh.(last := 1)] == map[f := Fresh.(last := 1)]; }
    RunStep(Init, Touch(f), s1, r1);
    run := [Touch(f)] + r1;
  }

  /** The bound is exact: a sweep one millisecond before it can leave the session alone. */
  lemma BoundIsExact(f: Facet) returns (run: seq<Event>)
    ensures var r := Run(Init, run);
      f in r.rows && r.rows[f].last == 90000 && !r.rows[f].sensitive
      && r.clock == 90000 + EVICT_BOUND - 1 && r.alarm == Some(r.clock + SWEEP_INTERVAL) && r.sweep.None?
  {
    var t1, t2 := 90000 + 224997, 90000 + EVICT_BOUND - 1;
    var warm := Slow.(warmUntil := t1 + HORIZON);
    var r2 := WholeSweep(f, warm, t2, t1 + SWEEP_INTERVAL, []);
    var s1 := One(f, warm, t1, t1 + SWEEP_INTERVAL);
    RunStep(s1, Tick(t2), One(f, warm, t2, t1 + SWEEP_INTERVAL), r2);
    var r1 := WholeSweep(f, Slow, t1, 30001, [Tick(t2)] + r2);
    RunStep(One(f, Slow, 90000, 30001), Tick(t1), One(f, Slow, t1, 30001), r1);
    run := SlowSession(f, [Tick(t1)] + r1);
  }

  /** A session kept warm on request, created a millisecond after f's last use. */
  const Kept: Row := Fresh.(last := 90001, sensitive := true)

  lemma TwoSessions(f: Facet, g: Facet, rest: seq<Event>) returns (run: seq<Event>)
    requires f != g
    ensures Run(Init, run) == Run(State(map[f := Slow, g := Kept], 90001, Some(30001), None), rest)
  {
    var plain := Fresh.(last := 90001);
    var s1, s2 := One(f, Slow, 90001, 30001), State(map[f := Slow, g := plain], 90001, Some(30001), None);
    assert s2.rows[g := Kept] == map[f := Slow, g := Kept];
    RunStep(s2, SetSensitive(g, true), s2.(rows := map[f := Slow, g := Kept]), rest);
    var r2 := [SetSensitive(g, true)] + rest;
    assert s1.rows[g := plain] == s2.rows && s1.rows.Keys == {f};
    RunStep(s1, Touch(g), s2, r2);
    var r1 := [Touch(g)] + r2;
    RunStep(One(f, Slow, 90000, 30001), Tick(90001), s1, r1);
    run := SlowSession(f, [Tick(90001)] + r1);
  }

  /**
   * A session used while a sweep waits for another one's heartbeat can be evicted within the
   * same millisecond.
   */
  lemma UsedDuringSweepIsEvicted(f: Facet, g: Facet) returns (run: seq<Event>, used: State)
    requires f != g
    ensures used == Run(Init, run) && f in used.rows && used.rows[f].last == used.clock
    ensures used.sweep.Some? && g in used.sweep.value.todo && ShouldWarm(used.sweep.value.todo[g], used.sweep.value.now)
    ensures var r := Step(Step(used, SweepRow(g)), SweepRow(f)); f in r.rows && r.rows[f].last == 0
  {
    hide Smooth, Int32;
    var t, todo := 90001 + EVICT_BOUND, map[f := Slow, g := Kept];
    var s2, s3 := State(todo, t, Some(30001), None), State(todo, t, None, Some(Sweep(t, todo)));
    used := State(todo[f := Touched(Slow, t)], t, Some(t + SWEEP_INTERVAL), Some(Sweep(t, todo)));
    RunStep(s3, Touch(f), used, []);
    assert Active(s2.rows) == {f, g} && Step(s2, StartSweep).sweep.value.todo == todo;
    RunStep(s2, StartSweep, s3, [Touch(f)] + []);
    var r1 := [StartSweep] + ([Touch(f)] + []);
    RunStep(State(todo, 90001, Some(30001), None), Tick(t), s2, r1);
    run := TwoSessions(f, g, [Tick(t)] + r1);
    assert Step(used, SweepRow(g)).rows[f] == used.rows[f];
  }

  // ---- the object ----------------------------------------------------------------------------

  class SupervisorDO {
    var sessions: map<Facet, Row>
    var clock: nat
    var alarmAt: Option<nat>

    ghost function Snapshot(): State
      reads this
    {
      State(sessions, clock, alarmAt, None)
    }

    constructor ()
      ensures Snapshot() == Init
    {
      sessions, clock, alarmAt := map[], 1, None;
    }

    method ArmAlarm()
      modifies this`alarmAt
      ensures Snapshot() == Arm(old(Snapshot()))
    {
      if alarmAt.None? { alarmAt := Some(clock + SWEEP_INTERVAL); }
    }

    /** _touch; false where it throws because the shard is full. */
    method TouchSession(f: Facet) returns (ok: bool)
      modifies this
      ensures Snapshot() == Step(old(Snapshot()), Touch(f))
      ensures ok <==> f in old(sessions) || |old(sessions)| < MAX_FACETS
    {
      if f !in sessions {
        if |sessions| >= MAX_FACETS { return false; }
        sessions := sessions[f := Row(clock, 0, 1, 0, 0, false, 0, [])];
      } else {
        var row := sessions[f];
        var ewma, gap, gaps := row.ewma, row.gap, row.gaps;
        if row.last > 0 {
          gap := Max(0, clock - row.last);
          ewma := if ewma > 0 then Smooth(gap, ewma) else gap;
          gaps := gaps + [gap];
        }
        sessions := sessions[f := row.(last := clock, evals := row.evals + 1, ewma := ewma, gap := gap, gaps := gaps)];
      }
      ArmAlarm();
      return true;
    }

    method SetLatencySensitive(f: Facet, on: bool)
      modifies this`sessions
      ensures Snapshot() == Step(old(Snapshot()), SetSensitive(f, on))
    {
      if f in sessions { sessions := sessions[f := sessions[f].(sensitive := on)]; }
    }

    method RecordSizeGz(f: Facet, size: int)
      modifies this`sessions
      ensures Snapshot() == Step(old(Snapshot()), RecordSize(f, size))
    {
      if size <= 0 { return; }
      if f in sessions { sessions := sessions[f := sessions[f].(size := Int32(size))]; }
    }

    /** What alarm does with one row. */
    method SweepOne(f: Facet, row: Row, now: nat)
      requires f in sessions && row.last > 0
      modifies this`sessions
      ensures sessions == old(sessions)[f := Swept(old(sessions)[f], row, now)]
    {
      var idle, insideHorizon := now - row.last, row.warmUntil > now;
      if ShouldWarm(row, now) {
        sessions := sessions[f := sessions[f].(warmUntil := now + HORIZON)];
      } else if idle >= IDLE_TTL && !insideHorizon {
        sessions := sessions[f := sessions[f].(last := 0, warmUntil := 0)];
      }
    }

    /** The loop of alarm over the rows it read. */
    method SweepAll(rows: map<Facet, Row>, now: nat, ghost was: State) returns (ghost trace: seq<Event>)
      requires sessions == was.rows
      requires Run(was, [StartSweep]) == State(sessions, now, None, Some(Sweep(now, rows)))
      requires forall f :: f in rows ==> f in was.rows && rows[f] == was.rows[f] && rows[f].last > 0
      requires forall f :: f in was.rows && was.rows[f].last > 0 ==> f in rows
      modifies this`sessions
      ensures Run(was, trace) == State(sessions, now, None, Some(Sweep(now, map[])))
      ensures SweptRows(was.rows, {}, sessions, now)
    {
      var todo := rows;
      trace := [StartSweep];
      while todo != map[]
        invariant Run(was, trace) == State(sessions, now, None, Some(Sweep(now, todo)))
        invariant SweptRows(was.rows, todo.Keys, sessions, now)
        invariant forall f :: f in todo ==> f in was.rows && todo[f] == was.rows[f] && todo[f].last > 0
        decreases todo.Keys
      {
        var f :| f in todo;
        ghost var before := sessions;
        SweepOne(f, todo[f], now);
        SweepTurn(was, trace, before, now, todo, f);
        SweptTurn(was.rows, todo, before, now, f);
        trace := trace + [SweepRow(f)];
        todo := todo - {f};
      }
    }

    /** alarm, when nothing else runs while it waits: a run of the machine's sweep. */
    method Alarm() returns (ghost trace: seq<Event>)
      requires alarmAt.Some? && alarmAt.value <= clock
      modifies this
      ensures Snapshot() == Run(old(Snapshot()), trace)
      ensures SweptRows(old(sessions), {}, sessions, clock) && clock == old(clock)
    {
      hide Swept, SweptRows;
      ghost var was := Snapshot();
      var now := clock;
      alarmAt := None;
      var rows := map f | f in sessions && sessions[f].last > 0 :: sessions[f];
      assert rows == Step(was, StartSweep).sweep.value.todo;
      trace := SweepAll(rows, now, was);
      RunAppend(was, trace, EndSweep);
      trace := trace + [EndSweep];
      if exists f :: f in sessions && sessions[f].last > 0 {
        alarmAt := Some(now + SWEEP_INTERVAL);
      }
    }
  }

  /** Of the rows that were active, those not in `todo` are swept; the others are as they were. */
  predicate SweptRows(was: map<Facet, Row>, todo: set<Facet>, rows: map<Facet, Row>, now: nat) {
    rows.Keys == was.Keys
    && forall f :: f in was ==>
      rows[f] == if was[f].last > 0 && f !in todo then Swept(was[f], was[f], now) else was[f]
  }

  lemma SweptTurn(was: map<Facet, Row>, todo: map<Facet, Row>, rows: map<Facet, Row>, now: nat, f: Facet)
    requires SweptRows(was, todo.Keys, rows, now) && f in todo && f in was && todo[f] == was[f] && was[f].last > 0
    ensures SweptRows(was, (todo - {f}).Keys, rows[f := Swept(rows[f], todo[f], now)], now)
  {
  }

  lemma SweepTurn(was: State, trace: seq<Event>, rows: map<Facet, Row>, now: nat, todo: map<Facet, Row>, f: Facet)
    requires Run(was, trace) == State(rows, now, None, Some(Sweep(now, todo))) && f in todo && f in rows
    ensures Run(was, trace + [SweepRow(f)])
         == State(rows[f := Swept(rows[f], todo[f], now)], now, None, Some(Sweep(now, todo - {f})))
  {
    RunAppend(was, trace, SweepRow(f));
  }

  lemma {:induction false} RunAppend(s: State, run: seq<Event>, e: Event)
    ensures Run(s, run + [e]) == Step(Run(s, run), e)
    decreases |run|
  {
    if run == [] {
      assert (run + [e])[1..] == [];
    } else {
      assert (run + [e])[1..] == run[1..] + [e];
      RunAppend(Step(s, run[0]), run[1..], e);
    }
  }
}
