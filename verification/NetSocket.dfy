/**
 * The outbound sockets of apps/kernel/stdlib-src/shims/net.js as a state machine. Every handler
 * that runs without giving up control is one step; what a handler leaves behind for later (a
 * promise reaction, a microtask) is part of the state.
 */
module NetSocket {
  import opened Prelude

  /** A command loop between two turns, or waiting for host call number `call`; id is its handle. */
  datatype Loop = Turn(id: nat) | Writing(id: nat, call: nat) | Reading(id: nat, call: nat)

  datatype Call =
    | OpenCall(sock: nat)
    | WriteCall(sock: nat, id: nat, data: bytes)
    | ReadCall(sock: nat, id: nat)
    | CloseCall(sock: nat, id: nat, notify: bool)   // notify: a reaction emits 'close'

  datatype Reply = Opened(id: nat) | Wrote | Chunk(done: bool) | Closed | Failed

  /** Settled: the reply has arrived; Done: the reaction to it has run too. */
  datatype Status = Waiting | Running | Settled(reply: Reply) | Done(reply: Reply)

  datatype Entry = Entry(call: Call, status: Status)

  /**
   * One socket. `loops`, `failing` (deferred _fail microtasks), `afterOpen` and `afterEnd` (open
   * and end-of-stream reactions inside their listeners) are pending work; `accepted` is the
   * history of the payloads write and end took.
   */
  datatype Sock = Sock(
    handle: Option<nat>, preQ: seq<bytes>, writeQ: seq<bytes>,
    loopRunning: bool, wantClose: bool, endAfterFlush: bool,
    closed: bool, counted: bool, connecting: bool, destroyed: bool, allowHalfOpen: bool,
    loops: seq<Loop>, failing: nat, afterOpen: nat, afterEnd: nat, accepted: seq<bytes>)

  /** What the sockets share: the open count, and every host call ever issued, in issue order. */
  datatype Shared = Shared(count: int, log: seq<Entry>)

  /** One socket beside the shared state. */
  datatype Local = Local(s: Sock, h: Shared)

  const MAX_SOCKETS: int := 6

  const NewSock: Sock :=
    Sock(None, [], [], false, false, false, false, false, false, false, false, [], 0, 0, 0, [])

  // ---- the methods of Socket -----------------------------------------------------------------

  /** _hostCall: the call goes behind every call issued before it. */
  function Issue(h: Shared, call: Call): Shared {
    h.(log := h.log + [Entry(call, Waiting)])
  }

  /** _uncount: the open count once a socket has given back the slot it holds, if any. */
  function Uncounted(count: int, counted: bool): int {
    if counted then Max(0, count - 1) else count
  }

  function Fail(s: Sock): Sock {
    s.(connecting := false, closed := true, destroyed := true)
  }

  function StartLoop(s: Sock): Sock {
    if s.loopRunning || s.handle.None? || s.destroyed || s.closed then s
    else s.(loopRunning := true, loops := s.loops + [Turn(s.handle.value)])
  }

  /** The calls once a close has been issued for a handle, if there is one. */
  function Closing(log: seq<Entry>, me: nat, handle: Option<nat>, notify: bool): seq<Entry> {
    if handle.Some? then log + [Entry(CloseCall(me, handle.value, notify), Waiting)] else log
  }

  /** The shared state once a socket has given back its slot and issued a close for its handle. */
  function Freed(h: Shared, counted: bool, handle: Option<nat>, me: nat, notify: bool): Shared {
    Shared(Uncounted(h.count, counted), Closing(h.log, me, handle, notify))
  }

  function DoClose(l: Local, me: nat): Local {
    if l.s.closed then l
    else Local(l.s.(loopRunning := false, closed := true, counted := false,
                    destroyed := l.s.destroyed || l.s.handle.None?),
               Freed(l.h, l.s.counted, l.s.handle, me, true))
  }

  function Teardown(l: Local, me: nat): Local {
    if l.s.destroyed then l
    else Local(l.s.(loopRunning := false, closed := true, counted := false, handle := None, destroyed := true),
               Freed(l.h, l.s.counted, l.s.handle, me, false))
  }

  function Destroy(l: Local, me: nat): Local {
    if l.s.destroyed then l
    else Local(l.s.(destroyed := true, connecting := false, loopRunning := false, closed := true, counted := false),
               Freed(l.h, l.s.counted, l.s.handle, me, false))
  }

  /** What connect was given: a path, a port out of range, or a port and maybe allowHalfOpen. */
  datatype Target = Path | BadPort | Port(halfOpen: Option<bool>)

  function Connect(l: Local, me: nat, target: Target): Local {
    if l.s.connecting || l.s.handle.Some? || target.BadPort? then l            // throws
    else if target.Path? then l.(s := l.s.(failing := l.s.failing + 1))
    else
      var half := if target.halfOpen.Some? then target.halfOpen.value else l.s.allowHalfOpen;
      if l.h.count >= MAX_SOCKETS then l.(s := l.s.(allowHalfOpen := half, failing := l.s.failing + 1))
      else
        Local(l.s.(allowHalfOpen := half, connecting := true, counted := true),
              Shared(l.h.count + 1, l.h.log + [Entry(OpenCall(me), Waiting)]))
  }

  function Write(l: Local, data: bytes): Local {
    var s := l.s;
    if s.destroyed || s.closed then l                                          // throws, or calls back
    else if s.handle.None? then l.(s := s.(preQ := s.preQ + [data], accepted := s.accepted + [data]))
    else l.(s := StartLoop(s.(writeQ := s.writeQ + [data], accepted := s.accepted + [data])))
  }

  function Finish(l: Local, me: nat): Local {
    if l.s.connecting then l.(s := l.s.(endAfterFlush := true))
    else if l.s.loopRunning then l.(s := l.s.(wantClose := true))
    else DoClose(l, me)
  }

  function End(l: Local, me: nat, data: Option<bytes>): Local {
    var s := l.s;
    if data.None? || s.destroyed || s.closed then Finish(l, me)
    else if s.handle.None? then
      l.(s := s.(preQ := s.preQ + [data.value], accepted := s.accepted + [data.value], endAfterFlush := true))
    else
      l.(s := StartLoop(s.(writeQ := s.writeQ + [data.value], accepted := s.accepted + [data.value],
                           wantClose := true)))
  }

  // ---- the reactions -------------------------------------------------------------------------

  /** A loop's stop(), and its end. */
  function Stop(s: Sock, j: nat): Sock
    requires j < |s.loops|
  {
    s.(loops := s.loops[..j] + s.loops[j + 1..], loopRunning := false)
  }

  /** turn(): one write, or the close asked for, or one read. */
  function TakeTurn(l: Local, me: nat, j: nat): Local
    requires j < |l.s.loops|
  {
    var s, id := l.s, l.s.loops[j].id;
    if s.destroyed || s.closed || s.handle != Some(id) then l.(s := Stop(s, j))
    else if s.writeQ != [] then
      Local(s.(writeQ := s.writeQ[1..], loops := s.loops[j := Writing(id, |l.h.log|)]),
            Issue(l.h, WriteCall(me, id, s.writeQ[0])))
    else if s.wantClose then DoClose(l.(s := Stop(s, j)), me)
    else Local(s.(loops := s.loops[j := Reading(id, |l.h.log|)]), Issue(l.h, ReadCall(me, id)))
  }

  /** The reaction to a loop's host call. */
  function LoopReaction(l: Local, me: nat, j: nat, reply: Reply): Local
    requires j < |l.s.loops|
  {
    var s, loop := l.s, l.s.loops[j];
    if s.handle != Some(loop.id) || s.destroyed then l.(s := Stop(s, j))
    else if loop.Reading? && reply.Failed? then Teardown(l.(s := Stop(s, j)), me)
    else if loop.Reading? && reply == Chunk(true) then l.(s := Stop(s, j).(afterEnd := s.afterEnd + 1))
    else l.(s := s.(loops := s.loops[j := Turn(loop.id)]))
  }

  /** The reaction to socket.open, up to its 'connect' listeners. */
  function OpenReaction(l: Local, me: nat, reply: Reply): Local {
    if !reply.Opened? then
      Local(l.s.(counted := false, connecting := false, closed := true, destroyed := true),
            Shared(Uncounted(l.h.count, l.s.counted), l.h.log))
    else if l.s.destroyed then
      Local(l.s.(counted := false),
            Shared(Uncounted(l.h.count, l.s.counted), l.h.log + [Entry(CloseCall(me, reply.id, false), Waiting)]))
    else
      l.(s := l.s.(handle := Some(reply.id), connecting := false,
                   writeQ := l.s.writeQ + l.s.preQ, preQ := [], afterOpen := l.s.afterOpen + 1))
  }

  /** The rest of that reaction, or its catch when a listener threw. */
  function AfterOpen(l: Local, threw: bool): Local
    requires l.s.afterOpen > 0
  {
    var left := l.s.afterOpen - 1;
    if threw then
      Local(l.s.(afterOpen := left, counted := false, connecting := false, closed := true, destroyed := true),
            Shared(Uncounted(l.h.count, l.s.counted), l.h.log))
    else l.(s := StartLoop(l.s.(afterOpen := left, wantClose := l.s.wantClose || l.s.endAfterFlush)))
  }

  function AfterEnd(l: Local, me: nat): Local
    requires l.s.afterEnd > 0
  {
    var u := l.(s := l.s.(afterEnd := l.s.afterEnd - 1));
    if u.s.allowHalfOpen then u else DoClose(u, me)
  }

  // ---- the machine ---------------------------------------------------------------------------

  datatype Net = Net(socks: seq<Sock>, h: Shared)

  const Init: Net := Net([], Shared(0, []))

  /** A step of one socket. */
  datatype Move =
    | Connecting(target: Target)
    | Writes(data: bytes)
    | Ends(last: Option<bytes>)
    | Destroys
    | DeferredFail
    | OpenFinishes(threw: bool)
    | EndFinishes
    | Turns(loop: nat)

  datatype Action =
    | Create(halfOpen: bool)
    | Do(sock: nat, move: Move)
    | Start(call: nat)                     // the host begins call k
    | Settle(call: nat, reply: Reply)      // its promise settles
    | React(call: nat)                     // and what was chained on it runs

  predicate Settles(st: Status) {
    st.Settled? || st.Done?
  }

  predicate Fits(call: Call, reply: Reply) {
    match call
    case OpenCall(_) => reply.Opened? || reply.Failed?
    case WriteCall(_, _, _) => reply.Wrote? || reply.Failed?
    case ReadCall(_, _) => reply.Chunk? || reply.Failed?
    case CloseCall(_, _, _) => reply.Closed? || reply.Failed?
  }

  /** The host never hands out a handle twice. */
  predicate IsFresh(log: seq<Entry>, reply: Reply) {
    reply.Opened? ==> forall k :: 0 <= k < |log| && Settles(log[k].status) ==> log[k].status.reply != reply
  }

  /** The call chained behind the ones before it can begin. */
  predicate CanStart(log: seq<Entry>, k: nat) {
    k < |log| && log[k].status.Waiting? && (k == 0 || Settles(log[k - 1].status))
  }

  /** A host reply arrives once the microtasks have run. */
  predicate CanSettle(n: Net, k: nat, reply: Reply) {
    && k < |n.h.log| && n.h.log[k].status.Running? && Fits(n.h.log[k].call, reply) && IsFresh(n.h.log, reply)
    && forall i :: 0 <= i < |n.socks| ==> n.socks[i].failing == 0
  }

  predicate CanMove(s: Sock, m: Move) {
    match m
    case DeferredFail => s.failing > 0
    case OpenFinishes(_) => s.afterOpen > 0
    case EndFinishes => s.afterEnd > 0
    case Turns(j) => j < |s.loops| && s.loops[j].Turn?
    case _ => true
  }

  function MoveSock(l: Local, me: nat, m: Move): Local
    requires CanMove(l.s, m)
  {
    match m
    case Connecting(target) => Connect(l, me, target)
    case Writes(data) => Write(l, data)
    case Ends(last) => End(l, me, last)
    case Destroys => Destroy(l, me)
    case DeferredFail => l.(s := Fail(l.s.(failing := l.s.failing - 1)))
    case OpenFinishes(threw) => AfterOpen(l, threw)
    case EndFinishes => AfterEnd(l, me)
    case Turns(j) => TakeTurn(l, me, j)
  }

  /** The loop that waits for call k. */
  predicate WaitsFor(loop: Loop, k: nat) {
    !loop.Turn? && loop.call == k
  }

  function WaitingLoop(loops: seq<Loop>, k: nat): (j: nat)
    ensures j < |loops| ==> WaitsFor(loops[j], k)
  {
    if loops == [] || WaitsFor(loops[0], k) then 0 else 1 + WaitingLoop(loops[1..], k)
  }

  /** The reaction to a settled call of this socket. */
  function ReactSock(l: Local, me: nat, k: nat, call: Call, reply: Reply): Local {
    match call
    case OpenCall(_) => OpenReaction(l, me, reply)
    case CloseCall(_, _, notify) => if notify then l.(s := l.s.(destroyed := true)) else l
    case _ =>
      var j := WaitingLoop(l.s.loops, k);
      if j < |l.s.loops| then LoopReaction(l, me, j, reply) else l
  }

  function SetStatus(h: Shared, k: nat, st: Status): Shared
    requires k < |h.log|
  {
    h.(log := h.log[k := h.log[k].(status := st)])
  }

  function Put(n: Net, i: nat, l: Local): Net
    requires i < |n.socks|
  {
    Net(n.socks[i := l.s], l.h)
  }

  function Step(n: Net, a: Action): Net {
    match a
    case Create(halfOpen) => n.(socks := n.socks + [NewSock.(allowHalfOpen := halfOpen)])
    case Do(i, m) =>
      if i < |n.socks| && CanMove(n.socks[i], m) then Put(n, i, MoveSock(Local(n.socks[i], n.h), i, m)) else n
    case Start(k) => if CanStart(n.h.log, k) then n.(h := SetStatus(n.h, k, Running)) else n
    case Settle(k, reply) => if CanSettle(n, k, reply) then n.(h := SetStatus(n.h, k, Settled(reply))) else n
    case React(k) =>
      if k < |n.h.log| && n.h.log[k].status.Settled? && n.h.log[k].call.sock < |n.socks| then
        var i, reply := n.h.log[k].call.sock, n.h.log[k].status.reply;
        Put(n, i, ReactSock(Local(n.socks[i], SetStatus(n.h, k, Done(reply))), i, k, n.h.log[k].call, reply))
      else n
  }

  function Run(n: Net, run: seq<Action>): Net
    decreases |run|
  {
    if run == [] then n else Run(Step(n, run[0]), run[1..])
  }
}
