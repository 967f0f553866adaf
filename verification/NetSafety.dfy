/** What every run of the sockets keeps, and the runs that break what they should keep. */
module NetSafety {
  import opened Prelude
  import opened NetSocket

  // ---- what is kept --------------------------------------------------------------------------

  /** The flags of one socket, and its one loop. */
  predicate Shape(s: Sock) {
    && (s.destroyed ==> s.closed)
    && (s.closed && !s.destroyed ==> s.handle.Some?)
    && |s.loops| <= 1
    && (s.loopRunning ==> s.loops != [])
    && (s.loops != [] && !s.closed ==> s.loopRunning && s.handle == Some(s.loops[0].id))
    && (s.handle.Some? ==> s.preQ == [])
    && (s.handle.None? && !s.closed ==> s.writeQ == [])
    && (s.connecting ==> s.handle.None?)
    && (s.failing > 0 && !s.destroyed ==> s.handle.None?)
  }

  /** The payloads this socket has issued socket.write for, in issue order. */
  function Passed(log: seq<Entry>, me: nat): seq<bytes> {
    if log == [] then []
    else
      var before, call := Passed(log[..|log| - 1], me), log[|log| - 1].call;
      if call.WriteCall? && call.sock == me then before + [call.data] else before
  }

  /** Nothing accepted is lost, repeated or reordered. */
  predicate InOrder(s: Sock, log: seq<Entry>, me: nat) {
    s.accepted == Passed(log, me) + s.writeQ + s.preQ
  }

  predicate OpenPending(log: seq<Entry>, k: int, me: nat) {
    0 <= k < |log| && log[k].call == OpenCall(me) && !log[k].status.Done?
  }

  /** A socket that is not destroyed has at most one open under way, and is connecting then. */
  ghost predicate Opens(s: Sock, log: seq<Entry>, me: nat) {
    !s.destroyed ==>
      && (forall k :: OpenPending(log, k, me) ==> s.connecting && (s.failing > 0 ==> !log[k].status.Settled?))
      && (forall j, k :: OpenPending(log, j, me) && OpenPending(log, k, me) ==> j == k)
  }

  predicate LoopCall(log: seq<Entry>, k: int, me: nat) {
    0 <= k < |log| && log[k].call.sock == me && (log[k].call.WriteCall? || log[k].call.ReadCall?)
    && !log[k].status.Done?
  }

  /** An unfinished write or read is the one the socket's loop waits for. */
  ghost predicate Awaited(s: Sock, log: seq<Entry>, me: nat) {
    forall k :: LoopCall(log, k, me) ==> |s.loops| == 1 && WaitsFor(s.loops[0], k)
  }

  ghost predicate SockInv(s: Sock, log: seq<Entry>, me: nat) {
    Shape(s) && InOrder(s, log, me) && Opens(s, log, me) && Awaited(s, log, me)
  }

  /** The chain of host calls: settled ones, then at most one that runs, then waiting ones. */
  predicate Chained(log: seq<Entry>) {
    forall j, k :: 0 <= j < k < |log| && !Settles(log[j].status) ==> log[k].status.Waiting?
  }

  // ---- one socket's steps --------------------------------------------------------------------

  /** What a step of socket me does to the log: at most one call of its own. */
  predicate Grows(before: seq<Entry>, after: seq<Entry>, me: nat) {
    || after == before
    || (|after| == |before| + 1 && after[..|before|] == before
        && after[|before|].status.Waiting? && after[|before|].call.sock == me)
  }

  lemma MoveGrows(l: Local, me: nat, m: Move)
    requires CanMove(l.s, m)
    ensures Grows(l.h.log, MoveSock(l, me, m).h.log, me)
  {
  }

  lemma ReactGrows(l: Local, me: nat, k: nat, call: Call, reply: Reply)
    ensures Grows(l.h.log, ReactSock(l, me, k, call, reply).h.log, me)
  {
  }

  lemma DoCloseKeepsShape(l: Local, me: nat)
    requires Shape(l.s)
    ensures Shape(DoClose(l, me).s)
  {
  }

  lemma ConnectKeepsShape(l: Local, me: nat, target: Target)
    requires Shape(l.s)
    ensures Shape(Connect(l, me, target).s)
  {
  }

  lemma WriteKeepsShape(l: Local, data: bytes)
    requires Shape(l.s)
    ensures Shape(Write(l, data).s)
  {
  }

  lemma EndKeepsShape(l: Local, me: nat, data: Option<bytes>)
    requires Shape(l.s)
    ensures Shape(End(l, me, data).s)
  {
  }

  lemma DestroyKeepsShape(l: Local, me: nat)
    requires Shape(l.s)
    ensures Shape(Destroy(l, me).s)
  {
  }

  lemma OpenFinishKeepsShape(l: Local, threw: bool)
    requires Shape(l.s) && l.s.afterOpen > 0
    ensures Shape(AfterOpen(l, threw).s)
  {
  }

  lemma TurnKeepsShape(l: Local, me: nat, j: nat)
    requires Shape(l.s) && j < |l.s.loops| && l.s.loops[j].Turn?
    ensures Shape(TakeTurn(l, me, j).s)
  {
  }

  lemma MoveKeepsShape(l: Local, me: nat, m: Move)
    requires CanMove(l.s, m) && Shape(l.s)
    ensures Shape(MoveSock(l, me, m).s)
  {
    match m {
      case Connecting(target) => ConnectKeepsShape(l, me, target);
      case Writes(data) => WriteKeepsShape(l, data);
      case Ends(last) => EndKeepsShape(l, me, last);
      case Destroys => DestroyKeepsShape(l, me);
      case OpenFinishes(threw) => OpenFinishKeepsShape(l, threw);
      case Turns(j) => TurnKeepsShape(l, me, j);
      case DeferredFail =>
      case EndFinishes => DoCloseKeepsShape(l.(s := l.s.(afterEnd := l.s.afterEnd - 1)), me);
    }
  }

  lemma OpenReactionKeepsShape(l: Local, me: nat, reply: Reply)
    requires Shape(l.s) && (!l.s.destroyed ==> l.s.connecting && l.s.failing == 0)
    ensures Shape(OpenReaction(l, me, reply).s)
  {
  }

  lemma TeardownKeepsShape(l: Local, me: nat)
    requires Shape(l.s)
    ensures Shape(Teardown(l, me).s)
  {
  }

  lemma StopKeepsShape(s: Sock, j: nat)
    requires Shape(s) && j < |s.loops|
    ensures Shape(Stop(s, j)) && Stop(s, j).loops == []
  {
  }

  lemma LoopReactionKeepsShape(l: Local, me: nat, j: nat, reply: Reply)
    requires Shape(l.s) && j < |l.s.loops|
    ensures Shape(LoopReaction(l, me, j, reply).s)
  {
    var s, loop := l.s, l.s.loops[j];
    StopKeepsShape(s, j);
    if s.handle != Some(loop.id) || s.destroyed {
    } else if loop.Reading? && reply.Failed? {
      TeardownKeepsShape(l.(s := Stop(s, j)), me);
    } else if loop.Reading? && reply == Chunk(true) {
      assert Stop(s, j).(afterEnd := s.afterEnd + 1) == Stop(s.(afterEnd := s.afterEnd + 1), j);
      StopKeepsShape(s.(afterEnd := s.afterEnd + 1), j);
    }
  }

  lemma ReactKeepsShape(l: Local, me: nat, k: nat, call: Call, reply: Reply)
    requires Shape(l.s) && (call.OpenCall? && !l.s.destroyed ==> l.s.connecting && l.s.failing == 0)
    requires call.CloseCall? && call.notify ==> l.s.closed
    ensures Shape(ReactSock(l, me, k, call, reply).s)
  {
    match call {
      case OpenCall(_) => OpenReactionKeepsShape(l, me, reply);
      case CloseCall(_, _, _) =>
      case _ =>
        var j := WaitingLoop(l.s.loops, k);
        if j < |l.s.loops| { LoopReactionKeepsShape(l, me, j, reply); }
    }
  }

  // ---- the order of writes -------------------------------------------------------------------

  lemma IssuePasses(h: Shared, call: Call, me: nat)
    ensures Passed(Issue(h, call).log, me)
         == if call.WriteCall? && call.sock == me then Passed(h.log, me) + [call.data] else Passed(h.log, me)
  {
    assert Issue(h, call).log[..|h.log|] == h.log;
  }

  /** A step that leaves the queues alone and issues at most an open or a close. */
  predicate Quiet(l: Local, r: Local, me: nat) {
    && r.s.accepted == l.s.accepted && r.s.writeQ == l.s.writeQ && r.s.preQ == l.s.preQ
    && Grows(l.h.log, r.h.log, me)
    && (|r.h.log| > |l.h.log| ==> var c := r.h.log[|l.h.log|].call; c.OpenCall? || c.CloseCall?)
  }

  lemma QuietKeepsOrder(l: Local, r: Local, me: nat)
    requires InOrder(l.s, l.h.log, me) && Quiet(l, r, me)
    ensures InOrder(r.s, r.h.log, me)
  {
    if |r.h.log| > |l.h.log| {
      assert r.h.log == l.h.log + [r.h.log[|l.h.log|]];
      assert r.h.log[..|r.h.log| - 1] == l.h.log;
    }
  }

  lemma ClosingIsQuiet(l: Local, me: nat)
    ensures Quiet(l, DoClose(l, me), me)
    ensures Quiet(l, Destroy(l, me), me)
    ensures Quiet(l, Teardown(l, me), me)
  {
  }

  lemma StopLeavesQueues(s: Sock, j: nat)
    requires j < |s.loops|
    ensures Stop(s, j).accepted == s.accepted && Stop(s, j).writeQ == s.writeQ && Stop(s, j).preQ == s.preQ
  {
  }

  /** What is quiet after the loop stopped is quiet. */
  lemma StopThenQuiet(l: Local, j: nat, r: Local, me: nat)
    requires j < |l.s.loops| && Quiet(l.(s := Stop(l.s, j)), r, me)
    ensures Quiet(l, r, me)
  {
    StopLeavesQueues(l.s, j);
  }

  lemma LoopReactionIsQuiet(l: Local, me: nat, j: nat, reply: Reply)
    requires j < |l.s.loops|
    ensures Quiet(l, LoopReaction(l, me, j, reply), me)
  {
    var s, loop, r := l.s, l.s.loops[j], LoopReaction(l, me, j, reply);
    if s.handle != Some(loop.id) || s.destroyed {
      StopLeavesQueues(s, j);
    } else if loop.Reading? && reply.Failed? {
      ClosingIsQuiet(l.(s := Stop(s, j)), me);
      StopThenQuiet(l, j, r, me);
    } else if loop.Reading? && reply == Chunk(true) {
      StopLeavesQueues(s, j);
    }
  }

  lemma WriteKeepsOrder(l: Local, me: nat, data: bytes)
    requires Shape(l.s) && InOrder(l.s, l.h.log, me)
    ensures InOrder(Write(l, data).s, Write(l, data).h.log, me)
  {
  }

  lemma EndKeepsOrder(l: Local, me: nat, data: Option<bytes>)
    requires Shape(l.s) && InOrder(l.s, l.h.log, me)
    ensures InOrder(End(l, me, data).s, End(l, me, data).h.log, me)
  {
    if data.None? || l.s.destroyed || l.s.closed { QuietKeepsOrder(l, End(l, me, data), me); }
  }

  lemma TurnWritesInOrder(l: Local, me: nat, j: nat, id: nat)
    requires InOrder(l.s, l.h.log, me) && j < |l.s.loops| && l.s.writeQ != []
    ensures InOrder(l.s.(writeQ := l.s.writeQ[1..], loops := l.s.loops[j := Writing(id, |l.h.log|)]),
                    Issue(l.h, WriteCall(me, id, l.s.writeQ[0])).log, me)
  {
    IssuePasses(l.h, WriteCall(me, id, l.s.writeQ[0]), me);
    assert l.s.writeQ == [l.s.writeQ[0]] + l.s.writeQ[1..];
  }

  lemma TurnReadsInOrder(l: Local, me: nat, j: nat, id: nat)
    requires InOrder(l.s, l.h.log, me) && j < |l.s.loops|
    ensures InOrder(l.s.(loops := l.s.loops[j := Reading(id, |l.h.log|)]), Issue(l.h, ReadCall(me, id)).log, me)
  {
    IssuePasses(l.h, ReadCall(me, id), me);
  }

  lemma TurnKeepsOrder(l: Local, me: nat, j: nat)
    requires InOrder(l.s, l.h.log, me) && j < |l.s.loops| && l.s.loops[j].Turn?
    ensures InOrder(TakeTurn(l, me, j).s, TakeTurn(l, me, j).h.log, me)
  {
    var s, id := l.s, l.s.loops[j].id;
    if s.destroyed || s.closed || s.handle != Some(id) {
      StopLeavesQueues(s, j);
    } else if s.writeQ != [] {
      TurnWritesInOrder(l, me, j, id);
    } else if s.wantClose {
      var u := l.(s := Stop(l.s, j));
      ClosingIsQuiet(u, me);
      StopThenQuiet(l, j, DoClose(u, me), me);
      QuietKeepsOrder(l, DoClose(u, me), me);
    } else {
      TurnReadsInOrder(l, me, j, id);
    }
  }

  lemma ConnectIsQuiet(l: Local, me: nat, target: Target)
    ensures Quiet(l, Connect(l, me, target), me)
  {
  }

  lemma AfterOpenIsQuiet(l: Local, me: nat, threw: bool)
    requires l.s.afterOpen > 0
    ensures Quiet(l, AfterOpen(l, threw), me)
  {
  }

  lemma OtherMovesAreQuiet(l: Local, me: nat, m: Move)
    requires CanMove(l.s, m) && !m.Writes? && !m.Ends? && !m.Turns?
    ensures Quiet(l, MoveSock(l, me, m), me)
  {
    match m {
      case EndFinishes => ClosingIsQuiet(l.(s := l.s.(afterEnd := l.s.afterEnd - 1)), me);
      case Destroys => ClosingIsQuiet(l, me);
      case Connecting(target) => ConnectIsQuiet(l, me, target);
      case OpenFinishes(threw) => AfterOpenIsQuiet(l, me, threw);
      case DeferredFail =>
    }
  }

  lemma MoveKeepsOrder(l: Local, me: nat, m: Move)
    requires CanMove(l.s, m) && Shape(l.s) && InOrder(l.s, l.h.log, me)
    ensures InOrder(MoveSock(l, me, m).s, MoveSock(l, me, m).h.log, me)
  {
    match m {
      case Writes(data) => WriteKeepsOrder(l, me, data);
      case Ends(last) => EndKeepsOrder(l, me, last);
      case Turns(j) => TurnKeepsOrder(l, me, j);
      case _ =>
        OtherMovesAreQuiet(l, me, m);
        QuietKeepsOrder(l, MoveSock(l, me, m), me);
    }
  }

  lemma OpenReactionKeepsOrder(l: Local, me: nat, reply: Reply)
    requires Shape(l.s) && InOrder(l.s, l.h.log, me) && (!l.s.destroyed ==> l.s.connecting)
    ensures InOrder(OpenReaction(l, me, reply).s, OpenReaction(l, me, reply).h.log, me)
  {
    if !reply.Opened? || l.s.destroyed { QuietKeepsOrder(l, OpenReaction(l, me, reply), me); }
  }

  lemma ReactKeepsOrder(l: Local, me: nat, k: nat, call: Call, reply: Reply)
    requires Shape(l.s) && InOrder(l.s, l.h.log, me)
    requires call.OpenCall? && !l.s.destroyed ==> l.s.connecting
    ensures InOrder(ReactSock(l, me, k, call, reply).s, ReactSock(l, me, k, call, reply).h.log, me)
  {
    match call {
      case OpenCall(_) => OpenReactionKeepsOrder(l, me, reply);
      case CloseCall(_, _, _) =>
      case _ =>
        var j := WaitingLoop(l.s.loops, k);
        if j < |l.s.loops| {
          LoopReactionIsQuiet(l, me, j, reply);
          QuietKeepsOrder(l, LoopReaction(l, me, j, reply), me);
        }
    }
  }

  // ---- pending opens, writes and reads -------------------------------------------------------

  lemma ConnectKeepsOpens(l: Local, me: nat, target: Target)
    requires Shape(l.s) && Opens(l.s, l.h.log, me)
    ensures Opens(Connect(l, me, target).s, Connect(l, me, target).h.log, me)
  {
  }

  /** A step after which the socket is destroyed, or that leaves what Opens looks at. */
  lemma QuietKeepsOpens(l: Local, r: Local, me: nat)
    requires Opens(l.s, l.h.log, me) && Grows(l.h.log, r.h.log, me)
    requires |r.h.log| > |l.h.log| ==> !r.h.log[|l.h.log|].call.OpenCall?
    requires r.s.destroyed || (!l.s.destroyed && r.s.connecting == l.s.connecting && r.s.failing <= l.s.failing)
    ensures Opens(r.s, r.h.log, me)
  {
    forall k | OpenPending(r.h.log, k, me) ensures OpenPending(l.h.log, k, me) && r.h.log[k] == l.h.log[k] {
    }
  }

  lemma MoveKeepsOpens(l: Local, me: nat, m: Move)
    requires CanMove(l.s, m) && Shape(l.s) && Opens(l.s, l.h.log, me)
    ensures Opens(MoveSock(l, me, m).s, MoveSock(l, me, m).h.log, me)
  {
    MoveGrows(l, me, m);
    match m {
      case Connecting(target) => ConnectKeepsOpens(l, me, target);
      case Turns(j) => TurnKeepsOpens(l, me, j);
      case _ => QuietKeepsOpens(l, MoveSock(l, me, m), me);
    }
  }

  lemma CloseLeavesOpens(l: Local, me: nat)
    ensures LeavesOpens(l, DoClose(l, me))
  {
  }

  lemma TurnLeavesOpens(l: Local, me: nat, j: nat)
    requires j < |l.s.loops| && l.s.loops[j].Turn?
    ensures var r := TakeTurn(l, me, j);
      && (r.s.destroyed || (!l.s.destroyed && r.s.connecting == l.s.connecting && r.s.failing <= l.s.failing))
      && (|r.h.log| > |l.h.log| ==> !r.h.log[|l.h.log|].call.OpenCall?)
  {
    hide DoClose;
    CloseLeavesOpens(l.(s := Stop(l.s, j)), me);
  }

  lemma TurnKeepsOpens(l: Local, me: nat, j: nat)
    requires Opens(l.s, l.h.log, me) && j < |l.s.loops| && l.s.loops[j].Turn?
    ensures Opens(TakeTurn(l, me, j).s, TakeTurn(l, me, j).h.log, me)
  {
    MoveGrows(l, me, Turns(j));
    TurnLeavesOpens(l, me, j);
    QuietKeepsOpens(l, TakeTurn(l, me, j), me);
  }

  /** A step that issues no write or read, and keeps the loop or ends one that waits for nothing. */
  lemma QuietKeepsAwaited(l: Local, r: Local, me: nat)
    requires Awaited(l.s, l.h.log, me) && Grows(l.h.log, r.h.log, me)
    requires |r.h.log| > |l.h.log| ==> var c := r.h.log[|l.h.log|].call; c.OpenCall? || c.CloseCall?
    requires r.s.loops == l.s.loops || |l.s.loops| != 1 || l.s.loops[0].Turn?
    ensures Awaited(r.s, r.h.log, me)
  {
    forall k | LoopCall(r.h.log, k, me) ensures LoopCall(l.h.log, k, me) {
    }
  }

  lemma TurnKeepsAwaited(l: Local, me: nat, j: nat)
    requires Shape(l.s) && Awaited(l.s, l.h.log, me) && j < |l.s.loops| && l.s.loops[j].Turn?
    ensures Awaited(TakeTurn(l, me, j).s, TakeTurn(l, me, j).h.log, me)
  {
    MoveGrows(l, me, Turns(j));
    var r := TakeTurn(l, me, j);
    forall k | LoopCall(r.h.log, k, me) ensures k == |l.h.log| {
      if k < |l.h.log| { assert LoopCall(l.h.log, k, me); }
    }
  }

  lemma MoveKeepsAwaited(l: Local, me: nat, m: Move)
    requires CanMove(l.s, m) && Shape(l.s) && Awaited(l.s, l.h.log, me)
    ensures Awaited(MoveSock(l, me, m).s, MoveSock(l, me, m).h.log, me)
  {
    MoveGrows(l, me, m);
    match m {
      case Turns(j) => TurnKeepsAwaited(l, me, j);
      case _ => QuietKeepsAwaited(l, MoveSock(l, me, m), me);
    }
  }

  // ---- the reactions -------------------------------------------------------------------------

  /** Marking call k done, when it is this socket's and its reply has arrived. */
  predicate Reacting(h: Shared, k: nat, me: nat, call: Call, reply: Reply) {
    && k < |h.log| && h.log[k] == Entry(call, Settled(reply)) && call.sock == me && Fits(call, reply)
  }

  lemma {:induction false} StatusKeepsPassed(log: seq<Entry>, k: nat, st: Status, me: nat)
    requires k < |log|
    ensures Passed(log[k := log[k].(status := st)], me) == Passed(log, me)
    decreases |log|
  {
    var n, after := |log| - 1, log[k := log[k].(status := st)];
    if k < n {
      assert after[..n] == log[..n][k := log[k].(status := st)];
      StatusKeepsPassed(log[..n], k, st, me);
    } else {
      assert after[..n] == log[..n];
    }
  }

  lemma OpenReactionKeepsOpens(l: Local, h: Shared, me: nat, k: nat, reply: Reply)
    requires Opens(l.s, h.log, me) && Reacting(h, k, me, OpenCall(me), reply) && l.h == SetStatus(h, k, Done(reply))
    ensures Opens(OpenReaction(l, me, reply).s, OpenReaction(l, me, reply).h.log, me)
  {
    var r := OpenReaction(l, me, reply);
    assert OpenPending(h.log, k, me);
    forall j | OpenPending(r.h.log, j, me) ensures OpenPending(h.log, j, me) && j != k {
    }
  }

  /** A reaction to anything else. */
  lemma OtherReactionKeepsOpens(l: Local, h: Shared, r: Local, me: nat, k: nat, reply: Reply)
    requires Opens(l.s, h.log, me) && k < |h.log| && !h.log[k].call.OpenCall? && l.h == SetStatus(h, k, Done(reply))
    requires Grows(l.h.log, r.h.log, me) && (|r.h.log| > |l.h.log| ==> !r.h.log[|l.h.log|].call.OpenCall?)
    requires r.s.destroyed || (!l.s.destroyed && r.s.connecting == l.s.connecting && r.s.failing <= l.s.failing)
    ensures Opens(r.s, r.h.log, me)
  {
    forall j | OpenPending(r.h.log, j, me) ensures OpenPending(h.log, j, me) && r.h.log[j] == h.log[j] {
    }
  }

  /** What Opens looks at is left alone, or the socket ends destroyed; no open is issued. */
  predicate LeavesOpens(l: Local, r: Local) {
    && (r.s.destroyed || (!l.s.destroyed && r.s.connecting == l.s.connecting && r.s.failing == l.s.failing))
    && (|r.h.log| > |l.h.log| ==> r.h.log[|l.h.log|].call.CloseCall?)
  }

  lemma TeardownLeavesOpens(l: Local, me: nat)
    ensures LeavesOpens(l, Teardown(l, me))
  {
  }

  lemma StopLeavesOpens(l: Local, j: nat, r: Local)
    requires j < |l.s.loops| && LeavesOpens(l.(s := Stop(l.s, j)), r)
    ensures LeavesOpens(l, r)
  {
  }

  lemma LoopReactionLeavesOpens(l: Local, me: nat, j: nat, reply: Reply)
    requires j < |l.s.loops|
    ensures LeavesOpens(l, LoopReaction(l, me, j, reply))
  {
    var s, loop, r := l.s, l.s.loops[j], LoopReaction(l, me, j, reply);
    var u := l.(s := Stop(s, j));
    if s.handle != Some(loop.id) || s.destroyed {
      StopLeavesOpens(l, j, u);
    } else if loop.Reading? && reply.Failed? {
      TeardownLeavesOpens(u, me);
      StopLeavesOpens(l, j, r);
    } else if loop.Reading? && reply == Chunk(true) {
      StopLeavesOpens(l, j, r);
    }
  }

  lemma ReactKeepsOpens(l: Local, h: Shared, me: nat, k: nat, call: Call, reply: Reply)
    requires Opens(l.s, h.log, me) && Reacting(h, k, me, call, reply) && l.h == SetStatus(h, k, Done(reply))
    ensures Opens(ReactSock(l, me, k, call, reply).s, ReactSock(l, me, k, call, reply).h.log, me)
  {
    ReactGrows(l, me, k, call, reply);
    if call.OpenCall? {
      OpenReactionKeepsOpens(l, h, me, k, reply);
    } else {
      var j := WaitingLoop(l.s.loops, k);
      if !call.CloseCall? && j < |l.s.loops| { LoopReactionLeavesOpens(l, me, j, reply); }
      OtherReactionKeepsOpens(l, h, ReactSock(l, me, k, call, reply), me, k, reply);
    }
  }

  lemma WaitingLoopIs(loops: seq<Loop>, k: nat)
    requires |loops| == 1 && WaitsFor(loops[0], k)
    ensures WaitingLoop(loops, k) == 0
  {
  }

  /** The one unfinished write or read is the one reacted to; nothing of the kind is pending after. */
  lemma LoopReactionKeepsAwaited(l: Local, h: Shared, me: nat, k: nat, reply: Reply)
    requires Shape(l.s) && Awaited(l.s, h.log, me) && LoopCall(h.log, k, me)
    requires Reacting(h, k, me, h.log[k].call, reply) && l.h == SetStatus(h, k, Done(reply))
    ensures var r := LoopReaction(l, me, 0, reply); Awaited(r.s, r.h.log, me)
  {
    var r := LoopReaction(l, me, 0, reply);
    LoopReactionIsQuiet(l, me, 0, reply);
    forall j | LoopCall(r.h.log, j, me) ensures false {
      assert j != k && LoopCall(h.log, j, me);
      assert false;
    }
  }

  lemma ReactKeepsAwaited(l: Local, h: Shared, me: nat, k: nat, call: Call, reply: Reply)
    requires Shape(l.s) && Awaited(l.s, h.log, me) && Reacting(h, k, me, call, reply)
    requires l.h == SetStatus(h, k, Done(reply))
    ensures Awaited(ReactSock(l, me, k, call, reply).s, ReactSock(l, me, k, call, reply).h.log, me)
  {
    if call.WriteCall? || call.ReadCall? {
      assert LoopCall(h.log, k, me);
      WaitingLoopIs(l.s.loops, k);
      LoopReactionKeepsAwaited(l, h, me, k, reply);
    } else {
      var r := ReactSock(l, me, k, call, reply);
      ReactGrows(l, me, k, call, reply);
      assert r.s.loops == l.s.loops;
      forall j | LoopCall(r.h.log, j, me) ensures LoopCall(h.log, j, me) {
      }
    }
  }
}
