/**
 * The socket transport of the SDK (packages/sdk/src/index.ts). Replies carry no request number:
 * whichever message arrives next settles whatever is pending. What keeps a reply with its own
 * request is which sockets still have listeners, and that is what is proved here.
 */
module WsTransport {
  import opened Prelude

  /** One rawRequest call. */
  type Attempt = nat

  type SockId = nat

  /**
   * A socket as the transport sees it. `live` ends with the close event; `open` is readyState 1;
   * `owed` holds the attempts on the wire that the server has not answered.
   */
  datatype Sock = Sock(attached: bool, live: bool, open: bool, owed: set<Attempt>)

  datatype Outcome =
    | Resolved(replyTo: Attempt, replyOn: SockId)
    | Rejected

  /** How an attempt ended, and the socket its frame went out on. */
  datatype Settled = Settled(attempt: Attempt, sentOn: Option<SockId>, outcome: Outcome)

  datatype Pending = Pending(attempt: Attempt, sentOn: SockId)

  /**
   * `awaiting` is the attempt whose promise the single running request is suspended on; the queue
   * lets nothing else start while there is one.
   */
  datatype State = State(
    ws: Option<SockId>,
    pending: Option<Pending>,
    awaiting: Option<Pending>,
    socks: seq<Sock>,
    nextAttempt: Attempt,
    log: seq<Settled>)

  const Init: State := State(None, None, None, [], 0, [])

  datatype SendResult = OnWire | Lost | Throws

  datatype Event =
    | Open                                      // open() mints a socket and attaches the listeners
    | Drop                                      // dropSocket: detach, close, forget
    | Send(result: SendResult)                  // rawRequest
    | TimerFires                                // the timer of the pending attempt
    | Reply(sock: SockId, to: Attempt, wellFormed: bool)
    | Aside(sock: SockId)                       // pong, keepalive echo, host call
    | StartClosing(sock: SockId)                // readyState leaves 1
    | CloseEvent(sock: SockId, ignored: bool)   // onClose, inside ignoreCloseUntil or not

  function Settle(s: State, outcome: Outcome): State {
    match s.awaiting
    case None => s
    case Some(p) => s.(awaiting := None, log := s.log + [Settled(p.attempt, Some(p.sentOn), outcome)])
  }

  function DropSocket(s: State): State {
    if s.ws.None? || s.ws.value >= |s.socks| then s.(ws := None)
    else
      var k := s.ws.value;
      s.(ws := None, socks := s.socks[k := s.socks[k].(attached := false, open := false)])
  }

  /** open() returns at once on a socket that is still open, and runs only between attempts. */
  predicate OpensNew(s: State) {
    s.awaiting.None? && !(s.ws.Some? && s.ws.value < |s.socks| && s.socks[s.ws.value].open)
  }

  predicate Enabled(s: State, e: Event) {
    match e
    case Open => OpensNew(s)
    case Drop => true
    case Send(_) => s.awaiting.None?
    case TimerFires => s.awaiting.Some?
    case Reply(k, to, _) => k < |s.socks| && s.socks[k].live && to in s.socks[k].owed
    case Aside(k) => k < |s.socks|
    case StartClosing(k) => k < |s.socks|
    case CloseEvent(k, _) => k < |s.socks| && s.socks[k].live
  }

  function Step(s: State, e: Event): State {
    if !Enabled(s, e) then s
    else match e
    case Open => s.(ws := Some(|s.socks|), socks := s.socks + [Sock(true, true, true, {})])
    case Drop => DropSocket(s)
    case Send(result) =>
      var n := s.nextAttempt;
      var t := s.(nextAttempt := n + 1);
      if s.ws.None? || s.ws.value >= |s.socks| || result.Throws? then
        t.(pending := None, log := s.log + [Settled(n, None, Rejected)])
      else
        var k := s.ws.value;
        t.(pending := Some(Pending(n, k)), awaiting := Some(Pending(n, k)),
           socks := if result.OnWire? then s.socks[k := s.socks[k].(owed := s.socks[k].owed + {n})] else s.socks)
    case TimerFires => Settle(DropSocket(s.(pending := None)), Rejected)
    case Reply(k, to, wellFormed) =>
      var t := s.(socks := s.socks[k := s.socks[k].(owed := s.socks[k].owed - {to})]);
      if !s.socks[k].attached || s.pending.None? then t
      else Settle(t.(pending := None), if wellFormed then Resolved(to, k) else Rejected)
    case Aside(_) => s
    case StartClosing(k) => s.(socks := s.socks[k := s.socks[k].(open := false)])
    case CloseEvent(k, ignored) =>
      var t := s.(socks := s.socks[k := s.socks[k].(live := false, open := false)]);
      if !s.socks[k].attached || ignored then t
      else if s.pending.None? then t.(ws := None)
      else Settle(t.(ws := None, pending := None), Rejected)
  }

  function Run(s: State, es: seq<Event>): State
    decreases |es|
  {
    if es == [] then s else Run(Step(s, es[0]), es[1..])
  }

  // ---- the property --------------------------------------------------------------------------

  /** Every attempt that resolved did so with the reply to itself, from the socket it used. */
  predicate OwnReplies(log: seq<Settled>) {
    forall i :: 0 <= i < |log| && log[i].outcome.Resolved?
      ==> log[i].sentOn == Some(log[i].outcome.replyOn) && log[i].outcome.replyTo == log[i].attempt
  }

  /** Each attempt settles at most once, in the order the attempts were made. */
  predicate SettledOnce(s: State) {
    && (forall i, j :: 0 <= i < j < |s.log| ==> s.log[i].attempt < s.log[j].attempt)
    && (forall i :: 0 <= i < |s.log| ==>
          s.log[i].attempt < if s.awaiting.Some? then s.awaiting.value.attempt else s.nextAttempt)
    && (s.awaiting.Some? ==> s.awaiting.value.attempt < s.nextAttempt)
  }

  /** Only the current socket can still be heard, and it owes at most the pending attempt. */
  predicate Quiet(s: State) {
    && (s.ws.Some? ==> s.ws.value < |s.socks|)
    && (s.pending.Some? ==> s.pending == s.awaiting)
    && (forall k :: 0 <= k < |s.socks| && s.socks[k].attached && s.socks[k].live ==>
          && s.ws == Some(k)
          && (forall n :: n in s.socks[k].owed ==> s.pending == Some(Pending(n, k))))
  }

  predicate Inv(s: State) {
    Quiet(s) && SettledOnce(s) && OwnReplies(s.log)
  }

  /** open() while a socket whose listeners are still attached has not fired its close event. */
  predicate Replaces(s: State, e: Event) {
    && e.Open? && OpensNew(s)
    && s.ws.Some? && s.ws.value < |s.socks|
    && s.socks[s.ws.value].attached && s.socks[s.ws.value].live
  }

  predicate NeverReplaces(s: State, es: seq<Event>)
    decreases |es|
  {
    es != [] ==> !Replaces(s, es[0]) && NeverReplaces(Step(s, es[0]), es[1..])
  }

  /** A socket that owes an attempt and is heard: the one in place, and the attempt is pending. */
  lemma ReplyKeepsInv(s: State, k: SockId, to: Attempt, wellFormed: bool)
    requires Inv(s) && Enabled(s, Reply(k, to, wellFormed))
    ensures Inv(Step(s, Reply(k, to, wellFormed)))
  {
  }

  lemma CloseKeepsInv(s: State, k: SockId, ignored: bool)
    requires Inv(s) && Enabled(s, CloseEvent(k, ignored))
    ensures Inv(Step(s, CloseEvent(k, ignored)))
  {
  }

  lemma TimerKeepsInv(s: State)
    requires Inv(s) && Enabled(s, TimerFires)
    ensures Inv(Step(s, TimerFires))
  {
  }

  lemma OpenKeepsInv(s: State)
    requires Inv(s) && Enabled(s, Open) && !Replaces(s, Open)
    ensures Inv(Step(s, Open))
  {
  }

  lemma SendKeepsInv(s: State, result: SendResult)
    requires Inv(s) && Enabled(s, Send(result))
    ensures Inv(Step(s, Send(result)))
  {
  }

  lemma StepKeepsInv(s: State, e: Event)
    requires Inv(s) && !Replaces(s, e)
    ensures Inv(Step(s, e))
  {
    if Enabled(s, e) {
      match e
      case Reply(k, to, wellFormed) => ReplyKeepsInv(s, k, to, wellFormed);
      case CloseEvent(k, ignored) => CloseKeepsInv(s, k, ignored);
      case TimerFires => TimerKeepsInv(s);
      case Open => OpenKeepsInv(s);
      case Send(result) => SendKeepsInv(s, result);
      case Drop =>
      case Aside(_) =>
      case StartClosing(_) =>
    }
  }

  /**
   * Over every interleaving of timeouts, drops, reconnects, retries, keepalive traffic and host
   * calls in which open() finds no half-closed socket in place, each promise that resolves does so
   * with its own reply, from its own socket, once.
   */
  lemma {:induction false} RunsKeepRepliesApart(s: State, es: seq<Event>)
    requires Inv(s) && NeverReplaces(s, es)
    ensures Inv(Run(s, es)) && OwnReplies(Run(s, es).log)
    decreases |es|
  {
    if es != [] {
      StepKeepsInv(s, es[0]);
      RunsKeepRepliesApart(Step(s, es[0]), es[1..]);
    }
  }

  // ---- what settles a promise ----------------------------------------------------------------

  /** A well-formed reply to n, off a socket the transport listens to and that owes it. */
  predicate Answers(s: State, e: Event, n: Attempt, k: SockId) {
    && e == Reply(k, n, true)
    && k < |s.socks| && s.socks[k].attached && s.socks[k].live && n in s.socks[k].owed
  }

  /** The timer, a close that is not ignored, a reply that does not parse, or a frame that cannot go out. */
  predicate Refuses(s: State, e: Event) {
    match e
    case TimerFires => true
    case CloseEvent(k, ignored) => k < |s.socks| && s.socks[k].attached && s.socks[k].live && !ignored
    case Reply(k, n, wellFormed) =>
      k < |s.socks| && s.socks[k].attached && s.socks[k].live && n in s.socks[k].owed && !wellFormed
    case Send(result) => s.ws.None? || s.ws.value >= |s.socks| || result.Throws?
    case _ => false
  }

  predicate Answered(s: State, e: Event) {
    e.Reply? && Answers(s, e, e.to, e.sock)
  }

  /** One request at a time: what is pending is what is awaited, and no attempt is skipped. */
  predicate Single(s: State) {
    && (s.ws.Some? ==> s.ws.value < |s.socks|)
    && (s.pending.Some? ==> s.pending == s.awaiting)
    && (forall i :: 0 <= i < |s.log| ==> s.log[i].attempt == i)
    && (if s.awaiting.Some? then s.awaiting.value.attempt == |s.log| && s.nextAttempt == |s.log| + 1
        else s.nextAttempt == |s.log|)
  }

  /**
   * A step settles at most one promise. What was awaited is settled when, and only when, the timer
   * fires or an answer or a refusal arrives while it is pending: it resolves with that very answer,
   * and everything else rejects it. A frame that cannot go out rejects its own attempt.
   */
  lemma StepSettles(s: State, e: Event)
    requires Single(s)
    ensures Single(Step(s, e))
    ensures var t := Step(s, e);
      if s.awaiting.Some? && e.TimerFires? then
        && t.log == s.log + [Settled(s.awaiting.value.attempt, Some(s.awaiting.value.sentOn), Rejected)]
        && t.awaiting.None? && t.pending.None? && t.ws.None?
      else if s.pending.Some? && (Answered(s, e) || (Refuses(s, e) && !e.Send?)) then
        && t.log == s.log + [Settled(s.awaiting.value.attempt, Some(s.awaiting.value.sentOn),
                                     if Answered(s, e) then Resolved(e.to, e.sock) else Rejected)]
        && t.awaiting.None? && t.pending.None?
      else if e.Send? && s.awaiting.None? && Refuses(s, e) then
        t.log == s.log + [Settled(s.nextAttempt, None, Rejected)] && t.awaiting.None?
      else
        && t.log == s.log
        && (s.awaiting.Some? ==> t.awaiting == s.awaiting)
        && (t.awaiting != s.awaiting ==> e.Send? && t.awaiting == Some(Pending(s.nextAttempt, s.ws.value)))
  {
  }

  /**
   * The transport changes sockets in three ways only: open() puts a new one in place, listened to,
   * open and owing nothing; a drop or a timeout forgets the one in place and detaches it; and a
   * close that is not ignored, of any socket still listened to, forgets whichever is in place.
   */
  lemma StepMovesSockets(s: State, e: Event)
    requires Single(s) && Enabled(s, e)
    ensures var t := Step(s, e);
      if e.Open? then t.ws == Some(|s.socks|) && t.socks == s.socks + [Sock(true, true, true, {})]
      else if e.Drop? || e.TimerFires? then
        && t.ws.None? && |t.socks| == |s.socks|
        && forall k :: 0 <= k < |s.socks| ==> if s.ws == Some(k) then !t.socks[k].attached else t.socks[k] == s.socks[k]
      else if e.CloseEvent? && s.socks[e.sock].attached && !e.ignored then t.ws.None? && !t.socks[e.sock].live
      else t.ws == s.ws
  {
  }

  /** The step of the run es that settles attempt n, and what it was. */
  ghost predicate SettledAt(es: seq<Event>, j: nat, x: Settled) {
    && j < |es|
    && var s := Run(Init, es[..j]);
       && Step(s, es[j]).log == s.log + [x]
       && if x.outcome.Resolved? then Answers(s, es[j], x.outcome.replyTo, x.outcome.replyOn) else Refuses(s, es[j])
  }

  ghost predicate HasCause(es: seq<Event>, x: Settled) {
    exists j: nat :: SettledAt(es, j, x)
  }

  lemma CauseStays(es: seq<Event>, e: Event, x: Settled)
    requires HasCause(es, x)
    ensures HasCause(es + [e], x)
  {
    var j: nat :| SettledAt(es, j, x);
    assert (es + [e])[..j] == es[..j];
    assert SettledAt(es + [e], j, x);
  }

  lemma StepIsCause(es: seq<Event>, e: Event)
    requires Single(Run(Init, es))
    ensures Run(Init, es + [e]) == Step(Run(Init, es), e)
    ensures var s, t := Run(Init, es), Run(Init, es + [e]);
      t.log == s.log || (|t.log| == |s.log| + 1 && t.log[..|s.log|] == s.log && HasCause(es + [e], t.log[|s.log|]))
  {
    var s := Run(Init, es);
    StepSettles(s, e);
    RunConcat(Init, es, [e]);
    assert Run(s, [e]) == Step(s, e) by { assert [e][1..] == []; }
    if Step(s, e).log != s.log {
      assert (es + [e])[..|es|] == es;
      assert SettledAt(es + [e], |es|, Step(s, e).log[|s.log|]);
    }
  }

  /**
   * Over every run from a new transport, replacements included: each attempt that is over settled
   * exactly once, in order; one that resolved did so in a step whose event was a well-formed reply
   * to the attempt it names, off an attached and live socket that owed it; and one that was
   * rejected, in a step that was a timeout, a close, a reply that did not parse, or a failed send.
   */
  lemma {:induction false} SettlementsHaveCauses(es: seq<Event>)
    ensures Single(Run(Init, es))
    ensures forall i :: 0 <= i < |Run(Init, es).log| ==> HasCause(es, Run(Init, es).log[i])
    decreases |es|
  {
    if es != [] {
      var pre, e := es[..|es| - 1], es[|es| - 1];
      assert es == pre + [e];
      SettlementsHaveCauses(pre);
      StepIsCause(pre, e);
      StepSettles(Run(Init, pre), e);
      var s, t := Run(Init, pre), Run(Init, es);
      forall i | 0 <= i < |t.log| ensures HasCause(es, t.log[i]) {
        if i < |s.log| {
          assert t.log[i] == s.log[i];
          CauseStays(pre, e, s.log[i]);
        }
      }
    }
  }

  /** Without any reply, nothing resolves, whatever timers, closes and sends do. */
  lemma SilenceResolvesNothing(es: seq<Event>, i: nat)
    requires i < |Run(Init, es).log| && forall j :: 0 <= j < |es| ==> !es[j].Reply?
    ensures Run(Init, es).log[i].outcome == Rejected
  {
    SettlementsHaveCauses(es);
    var j: nat :| SettledAt(es, j, Run(Init, es).log[i]);
  }

  /** The reply to attempt i itself arrives in the run, off the socket its frame went out on. */
  ghost predicate ReplyArrives(es: seq<Event>, i: Attempt, k: SockId) {
    exists j: nat :: j < |es| && Answers(Run(Init, es[..j]), es[j], i, k)
  }

  /**
   * From a new transport, with no socket replaced: a promise that resolved had its own reply
   * arrive, off its own socket, which owed it at that moment.
   */
  lemma ResolvedWasAnswered(es: seq<Event>, i: nat)
    requires NeverReplaces(Init, es) && i < |Run(Init, es).log| && Run(Init, es).log[i].outcome.Resolved?
    ensures Run(Init, es).log[i].sentOn.Some? && ReplyArrives(es, i, Run(Init, es).log[i].sentOn.value)
  {
    RunsKeepRepliesApart(Init, es);
    SettlementsHaveCauses(es);
    var x := Run(Init, es).log[i];
    var j: nat :| SettledAt(es, j, x);
    assert Answers(Run(Init, es[..j]), es[j], i, x.sentOn.value);
  }

  // ---- and exactly when it fails -------------------------------------------------------------

  /**
   * What can follow a replacement: the old socket's close event disowns the new socket, whose
   * late reply then settles the next attempt.
   */
  function Disowning(stale: SockId): seq<Event> {
    [Open, Send(OnWire), CloseEvent(stale, false)]
  }

  function CrossSettling(sock: SockId, attempt: Attempt): seq<Event> {
    [Open, Send(OnWire), Reply(sock, attempt, true)]
  }

  lemma RunThree(s: State, a: Event, b: Event, c: Event)
    ensures Run(s, [a, b, c]) == Step(Step(Step(s, a), b), c)
  {
    assert [a, b, c][1..] == [b, c] && [b, c][1..] == [c] && [c][1..] == [];
    assert Run(s, [a, b, c]) == Run(Step(s, a), [b, c]) == Run(Step(Step(s, a), b), [c]);
  }

  lemma {:induction false} RunConcat(s: State, es: seq<Event>, fs: seq<Event>)
    ensures Run(s, es + fs) == Run(Run(s, es), fs)
    decreases |es|
  {
    if es == [] { assert es + fs == fs; }
    else {
      assert (es + fs)[1..] == es[1..] + fs;
      RunConcat(Step(s, es[0]), es[1..], fs);
    }
  }

  lemma ReplacementIsDisowned(s: State)
    requires Inv(s) && Replaces(s, Open)
    ensures var t := Run(s, Disowning(s.ws.value));
      && t.ws.None? && t.awaiting.None? && |t.socks| == |s.socks| + 1 && t.nextAttempt == s.nextAttempt + 1
      && t.socks[|s.socks|] == Sock(true, true, true, {s.nextAttempt})
  {
    var stale := s.ws.value;
    RunThree(s, Open, Send(OnWire), CloseEvent(stale, false));
    var s1 := Step(s, Open);
    var s2 := Step(s1, Send(OnWire));
    assert s2.socks[|s.socks|].owed == {s.nextAttempt};
    assert s2.socks[stale] == s.socks[stale];
  }

  lemma DisownedSocketSettles(s: State, k: SockId, n: Attempt)
    requires s.ws.None? && s.awaiting.None? && k < |s.socks| && n < s.nextAttempt
    requires s.socks[k].attached && s.socks[k].live && n in s.socks[k].owed
    ensures var t := Run(s, CrossSettling(k, n));
      t.log == s.log + [Settled(s.nextAttempt, Some(|s.socks|), Resolved(n, k))]
  {
    RunThree(s, Open, Send(OnWire), Reply(k, n, true));
    var s1 := Step(s, Open);
    var s2 := Step(s1, Send(OnWire));
    assert s2.socks[k] == s.socks[k];
    assert s2.awaiting == Some(Pending(s.nextAttempt, |s.socks|));
  }

  /**
   * From every state the transport can be in, replacing a half-closed socket lets a later request
   * resolve with another request's reply; without a replacement none does.
   */
  lemma ReplacingCrossesReplies(s: State)
    requires Inv(s) && Replaces(s, Open)
    ensures var n, k := s.nextAttempt, |s.socks|;
      var t := Run(s, Disowning(s.ws.value) + CrossSettling(k, n));
      && t.log != [] && t.log[|t.log| - 1] == Settled(n + 1, Some(k + 1), Resolved(n, k))
      && !OwnReplies(t.log)
  {
    var n, k := s.nextAttempt, |s.socks|;
    ReplacementIsDisowned(s);
    RunConcat(s, Disowning(s.ws.value), CrossSettling(k, n));
    DisownedSocketSettles(Run(s, Disowning(s.ws.value)), k, n);
  }

  /** The replacement is reachable: a socket that has begun to close when the next request starts. */
  lemma ReplacementIsReachable()
    ensures Inv(Run(Init, [Open, StartClosing(0)])) && Replaces(Run(Init, [Open, StartClosing(0)]), Open)
  {
    assert [Open, StartClosing(0)][1..] == [StartClosing(0)] && [StartClosing(0)][1..] == [];
    assert Run(Init, [Open, StartClosing(0)]) == Step(Step(Init, Open), StartClosing(0));
  }

  /**
   * The keepalive path avoids it: when a socket is not open, refreshSocketBeforeUserFrame drops it
   * before open() runs, and then open() replaces nothing.
   */
  function Refresh(s: State): State {
    if s.ws.Some? && s.ws.value < |s.socks| && !s.socks[s.ws.value].open then Step(s, Drop) else s
  }

  /**
   * A transport with keepalive: request() as it goes through the queue, its one retry, close(),
   * and everything that happens around them. A ping, or any request once close() was called, is
   * not refreshed.
   */
  datatype Keep = Keep(s: State, closed: bool)

  datatype KeepEvent =
    | Request(ping: bool)      // refreshSocketBeforeUserFrame, then open()
    | Retry                    // dropSocket, then open(), after a failure
    | Close                    // close()
    | Around(e: Event)         // any event but open()

  predicate Refreshed(k: Keep, e: KeepEvent) {
    e.Request? && !e.ping && !k.closed
  }

  /** The state that open() finds, if the event runs it. */
  function AtOpen(k: Keep, e: KeepEvent): Option<State> {
    if k.s.awaiting.Some? then None
    else match e
    case Request(_) => Some(if Refreshed(k, e) then Refresh(k.s) else k.s)
    case Retry => if k.closed then None else Some(Step(k.s, Drop))
    case _ => None
  }

  function KeepStep(k: Keep, e: KeepEvent): Keep {
    var s := AtOpen(k, e);
    if s.Some? then k.(s := Step(s.value, Open))
    else match e
    case Close => Keep(Step(k.s, Drop), true)
    case Around(a) => if a.Open? then k else k.(s := Step(k.s, a))
    case _ => k
  }

  function KeepRun(k: Keep, es: seq<KeepEvent>): Keep
    decreases |es|
  {
    if es == [] then k else KeepRun(KeepStep(k, es[0]), es[1..])
  }

  predicate ReplacesIn(k: Keep, e: KeepEvent) {
    AtOpen(k, e).Some? && Replaces(AtOpen(k, e).value, Open)
  }

  /** Only a request that is not refreshed can replace a half-closed socket, and then it does. */
  lemma KeepReplacesIff(k: Keep, e: KeepEvent)
    requires Inv(k.s)
    ensures ReplacesIn(k, e) <==> e.Request? && (e.ping || k.closed) && Replaces(k.s, Open)
  {
  }

  lemma KeepStepKeepsInv(k: Keep, e: KeepEvent)
    requires Inv(k.s) && !ReplacesIn(k, e)
    ensures Inv(KeepStep(k, e).s)
  {
    if AtOpen(k, e).Some? { StepKeepsInv(AtOpen(k, e).value, Open); }
    else if e.Around? && !e.e.Open? { StepKeepsInv(k.s, e.e); }
    else if e.Close? { StepKeepsInv(k.s, Drop); }
  }

  predicate NeverBare(k: Keep, es: seq<KeepEvent>)
    decreases |es|
  {
    es != [] ==>
      && !(es[0].Request? && (es[0].ping || k.closed) && Replaces(k.s, Open))
      && NeverBare(KeepStep(k, es[0]), es[1..])
  }

  predicate NeverReplacesIn(k: Keep, es: seq<KeepEvent>)
    decreases |es|
  {
    es != [] ==> !ReplacesIn(k, es[0]) && NeverReplacesIn(KeepStep(k, es[0]), es[1..])
  }

  /**
   * Over every run of a keepalive transport: no open() replaces a half-closed socket if and only
   * if no ping, and no request after close(), starts on one; every promise that resolves then
   * has its own reply.
   */
  lemma {:induction false} KeepRunsAreSafeIff(k: Keep, es: seq<KeepEvent>)
    requires Inv(k.s)
    ensures NeverReplacesIn(k, es) <==> NeverBare(k, es)
    ensures NeverBare(k, es) ==> Inv(KeepRun(k, es).s) && OwnReplies(KeepRun(k, es).s.log)
    decreases |es|
  {
    if es != [] {
      KeepReplacesIff(k, es[0]);
      if !ReplacesIn(k, es[0]) {
        KeepStepKeepsInv(k, es[0]);
        KeepRunsAreSafeIff(KeepStep(k, es[0]), es[1..]);
      }
    }
  }

  /** With user frames only, on a transport that is not closed, it never happens. */
  lemma {:induction false} UserFramesNeverReplace(k: Keep, es: seq<KeepEvent>)
    requires Inv(k.s) && !k.closed
    requires forall i :: 0 <= i < |es| ==> !es[i].Close? && (es[i].Request? ==> !es[i].ping)
    ensures NeverReplacesIn(k, es) && OwnReplies(KeepRun(k, es).s.log)
    decreases |es|
  {
    if es != [] {
      KeepReplacesIff(k, es[0]);
      KeepStepKeepsInv(k, es[0]);
      UserFramesNeverReplace(KeepStep(k, es[0]), es[1..]);
    }
  }

  /** Nothing can be heard any more. */
  predicate Deaf(s: State) {
    Single(s) && s.ws.None? && forall k :: 0 <= k < |s.socks| ==> !(s.socks[k].attached && s.socks[k].live)
  }

  lemma CloseDeafens(k: Keep)
    requires Inv(k.s) && Single(k.s)
    ensures Deaf(KeepStep(k, Close).s) && KeepStep(k, Close).closed
  {
  }

  /**
   * After close(), unless a request is made again: no retry opens a socket, and no promise
   * resolves any more.
   */
  lemma {:induction false} ClosedStaysDeaf(k: Keep, es: seq<KeepEvent>)
    requires Deaf(k.s) && k.closed && forall i :: 0 <= i < |es| ==> !es[i].Request?
    ensures var t := KeepRun(k, es);
      && Deaf(t.s) && t.closed && |t.s.socks| == |k.s.socks| && k.s.log <= t.s.log
      && forall i :: |k.s.log| <= i < |t.s.log| ==> t.s.log[i].outcome == Rejected
    decreases |es|
  {
    if es != [] {
      var next := KeepStep(k, es[0]);
      DeafStep(k, es[0]);
      ClosedStaysDeaf(next, es[1..]);
      var t := KeepRun(next, es[1..]);
      assert forall i :: |k.s.log| <= i < |next.s.log| ==> t.s.log[i] == next.s.log[i];
    }
  }

  lemma DeafStep(k: Keep, e: KeepEvent)
    requires Deaf(k.s) && k.closed && !e.Request?
    ensures var t := KeepStep(k, e);
      && Deaf(t.s) && t.closed && |t.s.socks| == |k.s.socks|
      && k.s.log <= t.s.log && forall i :: |k.s.log| <= i < |t.s.log| ==> t.s.log[i].outcome == Rejected
  {
    if e.Around? && !e.e.Open? { StepSettles(k.s, e.e); }
  }

  /** A ping on a socket that has begun to close does replace it. */
  lemma PingReplaces()
    ensures !NeverReplacesIn(Keep(Init, false), [Request(false), Around(StartClosing(0)), Request(true)])
  {
    var es := [Request(false), Around(StartClosing(0)), Request(true)];
    var k1 := KeepStep(Keep(Init, false), es[0]);
    var k2 := KeepStep(k1, es[1]);
    assert es[1..][0] == es[1] && es[1..][1..] == [es[2]];
    assert k1.s == Step(Init, Open) && k2.s == Step(k1.s, StartClosing(0));
    assert ReplacesIn(k2, es[2]) && !NeverReplacesIn(k2, [es[2]]);
  }

  // ---- the object ----------------------------------------------------------------------------

  class Transport {
    var ws: Option<SockId>
    var pending: Option<Pending>
    var awaiting: Option<Pending>
    var socks: seq<Sock>
    var nextAttempt: Attempt
    var log: seq<Settled>

    constructor ()
      ensures Snapshot() == Init && Inv(Snapshot())
    {
      ws, pending, awaiting, socks, nextAttempt, log := None, None, None, [], 0, [];
    }

    function Snapshot(): State
      reads this
    {
      State(ws, pending, awaiting, socks, nextAttempt, log)
    }

    method FinishAwait(outcome: Outcome)
      modifies this`awaiting, this`log
      ensures Snapshot() == Settle(old(Snapshot()), outcome)
    {
      if awaiting.Some? {
        log := log + [Settled(awaiting.value.attempt, Some(awaiting.value.sentOn), outcome)];
        awaiting := None;
      }
    }

    method DropCurrent()
      modifies this`ws, this`socks
      ensures Snapshot() == DropSocket(old(Snapshot()))
    {
      var k := ws;
      ws := None;
      if k.None? || k.value >= |socks| { return; }
      socks := socks[k.value := socks[k.value].(attached := false, open := false)];
    }

    method OpenSocket()
      requires awaiting.None?
      modifies this`ws, this`socks
      ensures Snapshot() == Step(old(Snapshot()), Open)
    {
      if ws.Some? && ws.value < |socks| && socks[ws.value].open { return; }
      ws := Some(|socks|);
      socks := socks + [Sock(true, true, true, {})];
    }

    /** rawRequest up to the point where its promise is awaited. */
    method RawRequest(result: SendResult)
      requires awaiting.None?
      modifies this
      ensures Snapshot() == Step(old(Snapshot()), Send(result))
      ensures forall i :: |old(log)| <= i < |log| ==> log[i].outcome == Rejected
    {
      var n := nextAttempt;
      nextAttempt := n + 1;
      if ws.None? || ws.value >= |socks| || result.Throws? {
        pending := None;
        log := log + [Settled(n, None, Rejected)];
        return;
      }
      var k := ws.value;
      pending := Some(Pending(n, k));
      awaiting := pending;
      if result.OnWire? {
        socks := socks[k := socks[k].(owed := socks[k].owed + {n})];
      }
    }

    method OnTimer()
      requires awaiting.Some?
      modifies this
      ensures Snapshot() == Step(old(Snapshot()), TimerFires)
      ensures log == old(log) + [Settled(old(awaiting).value.attempt, Some(old(awaiting).value.sentOn), Rejected)]
      ensures awaiting.None? && pending.None?
    {
      pending := None;
      DropCurrent();
      FinishAwait(Rejected);
    }

    /** onMessage for a frame that is neither a pong, a keepalive echo nor a host call. */
    method OnReply(k: SockId, to: Attempt, wellFormed: bool)
      requires Enabled(Snapshot(), Reply(k, to, wellFormed))
      modifies this
      ensures Snapshot() == Step(old(Snapshot()), Reply(k, to, wellFormed))
      ensures forall i :: |old(log)| <= i < |log| ==> log[i].outcome == if wellFormed then Resolved(to, k) else Rejected
    {
      socks := socks[k := socks[k].(owed := socks[k].owed - {to})];
      if socks[k].attached && pending.Some? {
        pending := None;
        FinishAwait(if wellFormed then Resolved(to, k) else Rejected);
      }
    }

    method OnClose(k: SockId, ignored: bool)
      requires Enabled(Snapshot(), CloseEvent(k, ignored))
      modifies this
      ensures Snapshot() == Step(old(Snapshot()), CloseEvent(k, ignored))
      ensures forall i :: |old(log)| <= i < |log| ==> log[i].outcome == Rejected
    {
      socks := socks[k := socks[k].(live := false, open := false)];
      if socks[k].attached && !ignored {
        ws := None;
        if pending.Some? {
          pending := None;
          FinishAwait(Rejected);
        }
      }
    }
  }
}
