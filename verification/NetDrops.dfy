/** Which closes drop accepted writes for good: the exact condition in every reachable state. */
module NetDrops {
  import opened Prelude
  import opened NetSocket
  import opened NetSafety
  import opened NetHandles
  import opened NetRuns
  import opened NetResults

  // ---- closed is for good --------------------------------------------------------------------

  /** A step after which a closed socket is closed still, and has accepted and passed nothing more. */
  predicate Sealed(l: Local, r: Local, me: nat) {
    r.s.closed && r.s.accepted == l.s.accepted && Passed(r.h.log, me) == Passed(l.h.log, me)
  }

  lemma QuietSeals(l: Local, r: Local, me: nat)
    requires Quiet(l, r, me) && r.s.closed
    ensures Sealed(l, r, me)
  {
    if |r.h.log| > |l.h.log| {
      assert r.h.log[..|r.h.log| - 1] == l.h.log;
    }
  }

  lemma ClosedMoveSeals(l: Local, me: nat, m: Move)
    requires CanMove(l.s, m) && Shape(l.s) && l.s.closed
    ensures Sealed(l, MoveSock(l, me, m), me)
  {
    MoveTakesNone(l, me, m);
    match m {
      case Writes(_) =>
      case Ends(_) => ClosingIsQuiet(l, me); QuietSeals(l, MoveSock(l, me, m), me);
      case Turns(j) => StopLeavesQueues(l.s, j);
      case _ => OtherMovesAreQuiet(l, me, m); QuietSeals(l, MoveSock(l, me, m), me);
    }
  }

  lemma ClosedReactionSeals(l: Local, me: nat, k: nat, call: Call, reply: Reply)
    requires Shape(l.s) && l.s.closed && (call.OpenCall? && !l.s.destroyed ==> l.s.connecting)
    ensures Sealed(l, ReactSock(l, me, k, call, reply), me)
  {
    var r := ReactSock(l, me, k, call, reply);
    ReactStaysClosed(l, me, k, call, reply);
    match call {
      case OpenCall(_) => QuietSeals(l, r, me);
      case CloseCall(_, _, _) =>
      case _ =>
        var j := WaitingLoop(l.s.loops, k);
        if j < |l.s.loops| {
          LoopReactionIsQuiet(l, me, j, reply);
          QuietSeals(l, r, me);
        }
    }
  }

  lemma OtherPasses(before: seq<Entry>, after: seq<Entry>, i: nat, me: nat)
    requires i != me && Grows(before, after, i)
    ensures Passed(after, me) == Passed(before, me)
  {
    if |after| > |before| { assert after[..|after| - 1] == before; }
  }

  lemma ClosedReactKeeps(n: Net, k: nat, i: nat)
    requires Inv(n) && i < |n.socks| && n.socks[i].closed && k < |n.h.log| && n.h.log[k].status.Settled?
    ensures var m := Step(n, React(k));
      && |m.socks| == |n.socks| && m.socks[i].closed && m.socks[i].accepted == n.socks[i].accepted
      && Passed(m.h.log, i) == Passed(n.h.log, i)
  {
    var j, call, reply := n.h.log[k].call.sock, n.h.log[k].call, n.h.log[k].status.reply;
    var l := Local(n.socks[j], SetStatus(n.h, k, Done(reply)));
    StatusKeepsPassed(n.h.log, k, Done(reply), i);
    assert SockOk(n.socks[j], n.h.log, j);
    if j == i {
      if call.OpenCall? { assert OpenPending(n.h.log, k, i); }
      ClosedReactionSeals(l, i, k, call, reply);
    } else {
      ReactGrows(l, j, k, call, reply);
      OtherPasses(l.h.log, ReactSock(l, j, k, call, reply).h.log, j, i);
    }
  }

  lemma ClosedStepKeeps(n: Net, a: Action, i: nat)
    requires Inv(n) && i < |n.socks| && n.socks[i].closed
    ensures var m := Step(n, a);
      && i < |m.socks| && m.socks[i].closed && m.socks[i].accepted == n.socks[i].accepted
      && Passed(m.h.log, i) == Passed(n.h.log, i)
  {
    assert SockOk(n.socks[i], n.h.log, i);
    match a {
      case Create(_) =>
      case Do(j, m) =>
        if j < |n.socks| && CanMove(n.socks[j], m) {
          var l := Local(n.socks[j], n.h);
          if j == i { ClosedMoveSeals(l, i, m); }
          else {
            MoveGrows(l, j, m);
            OtherPasses(n.h.log, MoveSock(l, j, m).h.log, j, i);
          }
        }
      case Start(k) => if CanStart(n.h.log, k) { StatusKeepsPassed(n.h.log, k, Running, i); }
      case Settle(k, reply) => if CanSettle(n, k, reply) { StatusKeepsPassed(n.h.log, k, Settled(reply), i); }
      case React(k) => if k < |n.h.log| && n.h.log[k].status.Settled? { ClosedReactKeeps(n, k, i); }
    }
  }

  /** Whatever follows, a closed socket accepts and passes on nothing more. */
  lemma {:induction false} ClosedForGood(n: Net, rest: seq<Action>, i: nat)
    requires Inv(n) && i < |n.socks| && n.socks[i].closed
    ensures var m := Run(n, rest);
      && i < |m.socks| && m.socks[i].closed && m.socks[i].accepted == n.socks[i].accepted
      && Passed(m.h.log, i) == Passed(n.h.log, i)
    decreases |rest|
  {
    if rest != [] {
      ClosedStepKeeps(n, rest[0], i);
      StepKeepsInv(n, rest[0]);
      ClosedForGood(Step(n, rest[0]), rest[1..], i);
    }
  }

  // ---- the closes that drop writes -----------------------------------------------------------

  /** After this run socket i is closed and has accepted payloads that were never passed on. */
  predicate Dropped(n: Net, i: nat)
    requires i < |n.socks|
  {
    n.socks[i].closed && n.socks[i].accepted != Passed(n.h.log, i)
  }

  /** Something accepted is still queued. */
  predicate Queued(s: Sock) {
    s.writeQ != [] || s.preQ != []
  }

  lemma QueuedIsUnpassed(s: Sock, log: seq<Entry>, me: nat)
    requires InOrder(s, log, me)
    ensures s.accepted != Passed(log, me) <==> Queued(s)
  {
    assert |s.accepted| == |Passed(log, me)| + |s.writeQ| + |s.preQ|;
    if !Queued(s) { assert Passed(log, me) + [] + [] == Passed(log, me); }
  }

  /** The graceful closes: end, the end of the stream, and the loop's own. */
  predicate Graceful(m: Move) {
    m.Ends? || m.EndFinishes? || m.Turns?
  }

  /** When a graceful close drops writes: by the state and the call alone. */
  predicate DropsWrites(s: Sock, m: Move) {
    match m
    case Ends(last) => last.None? && !s.connecting && !s.loopRunning && Queued(s)
    case EndFinishes => !s.allowHalfOpen && Queued(s)
    case _ => false
  }

  lemma EndLeavesQueued(l: Local, me: nat, last: Option<bytes>)
    requires Shape(l.s) && !l.s.closed
    ensures var r := End(l, me, last).s;
      && (r.closed <==> last.None? && !l.s.connecting && !l.s.loopRunning)
      && (last.None? ==> r.writeQ == l.s.writeQ && r.preQ == l.s.preQ)
  {
  }

  lemma TurnClosesEmpty(l: Local, me: nat, j: nat)
    requires Shape(l.s) && !l.s.closed && j < |l.s.loops| && l.s.loops[j].Turn?
    ensures var r := TakeTurn(l, me, j).s; r.closed ==> !Queued(r)
  {
  }

  lemma MoveDropsIff(l: Local, me: nat, m: Move)
    requires SockInv(l.s, l.h.log, me) && !l.s.closed && CanMove(l.s, m) && Graceful(m)
    ensures var r := MoveSock(l, me, m);
      r.s.closed && r.s.accepted != Passed(r.h.log, me) <==> DropsWrites(l.s, m)
  {
    var r := MoveSock(l, me, m);
    MoveKeepsOrder(l, me, m);
    QueuedIsUnpassed(r.s, r.h.log, me);
    match m {
      case Ends(last) => EndLeavesQueued(l, me, last);
      case EndFinishes =>
      case Turns(j) => TurnClosesEmpty(l, me, j);
    }
  }

  /**
   * In every reachable state: end without data, the end of the stream and the loop's own close
   * drop accepted writes, whatever happens afterwards, exactly when the predicate says; end with
   * data never closes at once.
   */
  lemma CloseDropsIff(run: seq<Action>, i: nat, m: Move, rest: seq<Action>)
    requires var n := Run(Init, run); i < |n.socks| && !n.socks[i].closed && CanMove(n.socks[i], m) && Graceful(m)
    ensures var n := Run(Init, run); var t := Step(n, Do(i, m));
      && |t.socks| == |n.socks|
      && (Dropped(t, i) <==> DropsWrites(n.socks[i], m))
      && (DropsWrites(n.socks[i], m) ==> i < |Run(t, rest).socks| && Dropped(Run(t, rest), i))
      && (m.Ends? && m.last.Some? ==> !t.socks[i].closed)
  {
    var n := Run(Init, run);
    InitOk();
    RunKeepsInv(Init, run);
    assert SockOk(n.socks[i], n.h.log, i);
    MoveDropsIff(Local(n.socks[i], n.h), i, m);
    StepKeepsInv(n, Do(i, m));
    if DropsWrites(n.socks[i], m) { ClosedForGood(Step(n, Do(i, m)), rest, i); }
  }

  // ---- runs that meet the condition ----------------------------------------------------------

  /** Written and ended before it was connected. */
  lemma EndBeforeConnectDrops()
    ensures var n := Run(Init, [Create(false), Do(0, Writes(Payload)), Do(0, Ends(None))]);
      |n.socks| == 1 && n.socks[0].accepted == [Payload] && Dropped(n, 0)
  {
    var s0, s1 := NewSock, NewSock.(preQ := [Payload], accepted := [Payload]);
    var s2 := s1.(closed := true, destroyed := true);
    assert [] + [Payload] == [Payload];
    RunStep(Net([s1], Shared(0, [])), Do(0, Ends(None)), Net([s2], Shared(0, [])), []);
    RunStep(Net([s0], Shared(0, [])), Do(0, Writes(Payload)), Net([s1], Shared(0, [])), [Do(0, Ends(None))] + []);
    RunStep(Init, Create(false), Net([s0], Shared(0, [])), [Do(0, Writes(Payload))] + ([Do(0, Ends(None))] + []));
    assert [Create(false)] + ([Do(0, Writes(Payload))] + ([Do(0, Ends(None))] + []))
        == [Create(false), Do(0, Writes(Payload)), Do(0, Ends(None))];
  }

  /** A connected socket whose loop waits for a read, with a write queued behind it. */
  const Waits: Sock := NewSock.(handle := Some(1), counted := true, loopRunning := true, loops := [Reading(1, 1)],
                                writeQ := [Payload], accepted := [Payload])

  /** The two calls of such a socket, the read in some state. */
  function ReadIn(st: Status): Shared {
    Shared(1, [Open1, Entry(ReadCall(0, 1), st)])
  }

  const Ended: Sock := Waits.(loopRunning := false, loops := [], afterEnd := 1)

  /** The read returns with the end of the stream. */
  lemma ReadEnds(rest: seq<Action>) returns (run: seq<Action>)
    ensures Run(Net([Waits], ReadIn(Waiting)), run) == Run(Net([Ended], ReadIn(Done(Chunk(true)))), rest)
  {
    var n1 := Net([Waits], ReadIn(Settled(Chunk(true))));
    assert Step(n1, React(1)) == Net([Ended], ReadIn(Done(Chunk(true)))) by {
      assert Step(n1, React(1)).h.log == ReadIn(Done(Chunk(true))).log;
      assert Step(n1, React(1)).socks[0].loops == [];
    }
    RunStep(n1, React(1), Net([Ended], ReadIn(Done(Chunk(true)))), rest);
    var r2 := [React(1)] + rest;
    assert Step(Net([Waits], ReadIn(Running)), Settle(1, Chunk(true))).h.log == n1.h.log;
    RunStep(Net([Waits], ReadIn(Running)), Settle(1, Chunk(true)), n1, r2);
    var r3 := [Settle(1, Chunk(true))] + r2;
    assert Step(Net([Waits], ReadIn(Waiting)), Start(1)).h.log == ReadIn(Running).log;
    RunStep(Net([Waits], ReadIn(Waiting)), Start(1), Net([Waits], ReadIn(Running)), r3);
    run := [Start(1)] + r3;
  }

  /** The peer ends the stream while a write waits for the read to return. */
  lemma RemoteEndDrops() returns (run: seq<Action>)
    ensures var n := Run(Init, run);
      |n.socks| == 1 && n.socks[0].accepted == [Payload] && Dropped(n, 0) && Passed(n.h.log, 0) == []
  {
    var closed := Ended.(afterEnd := 0, closed := true, counted := false);
    var h := Shared(0, ReadIn(Done(Chunk(true))).log + [Entry(CloseCall(0, 1, true), Waiting)]);
    OneSock(Ended, ReadIn(Done(Chunk(true))), EndFinishes, closed, h, []);
    var last := ReadEnds([Do(0, EndFinishes)] + []);
    run := ReadsWithWrite(last);
    NothingPassed(h.log, 0);
  }

  const Joined: Sock := NewSock.(handle := Some(1), counted := true, afterOpen := 1)

  const Reads: Sock := Waits.(writeQ := [], accepted := [])

  /** Connect. */
  lemma Connects(rest: seq<Action>) returns (run: seq<Action>)
    ensures Run(Init, run) == Run(Net([Joined], Shared(1, [Open1])), rest)
  {
    var s0 := NewSock.(connecting := true, counted := true);
    var n5, n6 := Opening(s0, 1, [Settled(Opened(1))]), Net([Joined], Shared(1, [Open1]));
    var none: seq<bytes> := [];
    assert none + none == none;
    assert Step(n5, React(0)) == n6 by {
      assert Step(n5, React(0)).h.log == n6.h.log;
      assert Step(n5, React(0)).socks[0] == Joined;
    }
    RunStep(n5, React(0), n6, rest);
    var r4 := [React(0)] + rest;
    RunStep(Opening(s0, 1, [Running]), Settle(0, Opened(1)), n5, r4);
    var r5 := [Settle(0, Opened(1))] + r4;
    RunStep(Opening(s0, 1, [Waiting]), Start(0), Opening(s0, 1, [Running]), r5);
    var r6 := [Start(0)] + r5;
    RunStep(Net([NewSock], Shared(0, [])), Do(0, ToPort), Opening(s0, 1, [Waiting]), r6);
    var r7 := [Do(0, ToPort)] + r6;
    RunStep(Init, Create(false), Net([NewSock], Shared(0, [])), r7);
    run := [Create(false)] + r7;
  }

  /** Connect, start to read, then write. */
  lemma ReadsWithWrite(rest: seq<Action>) returns (run: seq<Action>)
    ensures Run(Init, run) == Run(Net([Waits], ReadIn(Waiting)), rest)
  {
    var h0, h := Shared(1, [Open1]), ReadIn(Waiting);
    var s2 := Reads.(loops := [Turn(1)]);
    assert [] + [Payload] == [Payload] && [] + [Turn(1)] == [Turn(1)] && s2.loops[0 := Reading(1, 1)] == Reads.loops;
    assert Issue(h0, ReadCall(0, 1)) == h;
    assert Write(Local(Reads, h), Payload) == Local(Waits, h);
    assert TakeTurn(Local(s2, h0), 0, 0) == Local(Reads, h);
    assert AfterOpen(Local(Joined, h0), false) == Local(s2, h0);
    OneSock(Reads, h, Writes(Payload), Waits, h, rest);
    var r1 := [Do(0, Writes(Payload))] + rest;
    OneSock(s2, h0, Turns(0), Reads, h, r1);
    var r2 := [Do(0, Turns(0))] + r1;
    OneSock(Joined, h0, OpenFinishes(false), s2, h0, r2);
    run := Connects([Do(0, OpenFinishes(false))] + r2);
  }

  /** One move of the only socket. */
  lemma OneSock(s: Sock, h: Shared, m: Move, t: Sock, g: Shared, rest: seq<Action>)
    requires CanMove(s, m) && MoveSock(Local(s, h), 0, m) == Local(t, g)
    ensures Run(Net([s], h), [Do(0, m)] + rest) == Run(Net([t], g), rest)
  {
    RunStep(Net([s], h), Do(0, m), Net([t], g), rest);
  }

  // ---- a close that was asked for comes --------------------------------------------------------

  /** The socket is closed, or will be once its loop finds nothing more to write. */
  predicate Asked(s: Sock) {
    s.closed || s.wantClose || s.endAfterFlush
  }

  /** end() asks, whatever it is given; with data on an open socket the data goes first. */
  lemma EndAsks(l: Local, me: nat, data: Option<bytes>)
    ensures Asked(End(l, me, data).s)
    ensures data.Some? && !l.s.destroyed && !l.s.closed ==>
      var r := End(l, me, data);
      && !r.s.closed && r.s.accepted == l.s.accepted + [data.value]
      && (if l.s.handle.None? then r.s.preQ == l.s.preQ + [data.value] && r.s.endAfterFlush
          else r.s.writeQ == l.s.writeQ + [data.value] && r.s.wantClose)
  {
  }

  /** Nothing takes the request back. */
  lemma MoveStaysAsked(l: Local, me: nat, m: Move)
    requires CanMove(l.s, m) && Asked(l.s)
    ensures Asked(MoveSock(l, me, m).s)
  {
    hide End, TakeTurn;
    if m.Ends? { EndAsks(l, me, m.last); } else if m.Turns? { TurnStaysAsked(l, me, m.loop); }
  }

  lemma TurnStaysAsked(l: Local, me: nat, j: nat)
    requires j < |l.s.loops| && Asked(l.s)
    ensures Asked(TakeTurn(l, me, j).s)
  {
  }

  lemma ReactionStaysAsked(l: Local, me: nat, k: nat, call: Call, reply: Reply)
    requires Asked(l.s)
    ensures Asked(ReactSock(l, me, k, call, reply).s)
  {
  }

  /** After the connection a request made before it reaches the loop, which is started. */
  lemma OpenHandsOver(l: Local)
    requires l.s.afterOpen > 0 && l.s.endAfterFlush && l.s.handle.Some? && !l.s.closed && !l.s.destroyed
    ensures var r := AfterOpen(l, false).s;
      r.wantClose && r.loopRunning && (!l.s.loopRunning ==> |r.loops| == |l.s.loops| + 1)
  {
  }

  /** And the loop closes the handle in its first turn with nothing to write, not before. */
  lemma TurnCloses(l: Local, me: nat, j: nat)
    requires j < |l.s.loops| && l.s.loops[j].Turn? && l.s.handle == Some(l.s.loops[j].id)
    requires !l.s.closed && !l.s.destroyed && l.s.wantClose
    ensures var r := TakeTurn(l, me, j);
      if l.s.writeQ != [] then
        && !r.s.closed && r.s.wantClose && r.s.writeQ == l.s.writeQ[1..]
        && r.h.log == l.h.log + [Entry(WriteCall(me, l.s.loops[j].id, l.s.writeQ[0]), Waiting)]
      else
        && r.s.closed && !r.s.loopRunning && |r.s.loops| == |l.s.loops| - 1
        && r.h.log == l.h.log + [Entry(CloseCall(me, l.s.loops[j].id, true), Waiting)]
  {
  }

  /** What connect keeps of its options, and when it asks the host at all. */
  lemma ConnectAsks(l: Local, me: nat, halfOpen: Option<bool>)
    requires !l.s.connecting && l.s.handle.None?
    ensures var r := Connect(l, me, Port(halfOpen));
      && r.s.allowHalfOpen == (if halfOpen.Some? then halfOpen.value else l.s.allowHalfOpen)
      && (l.h.count >= 6 <==> !r.s.connecting)
      && r.s.failing == l.s.failing + if r.s.connecting then 0 else 1
    ensures l.h.count >= 6 ==> Connect(l, me, Port(halfOpen)).h == l.h
    ensures l.h.count < 6 ==>
      var r := Connect(l, me, Port(halfOpen));
      r.s.counted && r.h == Shared(l.h.count + 1, l.h.log + [Entry(OpenCall(me), Waiting)])
  {
  }

  /** The open count is never negative, whatever is reused. */
  lemma {:induction false} CountIsNatural(n: Net, run: seq<Action>)
    requires n.h.count >= 0
    ensures Run(n, run).h.count >= 0
    decreases |run|
  {
    if run != [] {
      StepIsNatural(n, run[0]);
      CountIsNatural(Step(n, run[0]), run[1..]);
    }
  }

  lemma StepIsNatural(n: Net, a: Action)
    requires n.h.count >= 0
    ensures Step(n, a).h.count >= 0
  {
    hide WaitingLoop, IsFresh;
  }
}
