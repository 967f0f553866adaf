/** The shared slot count, and the properties of every run of the sockets. */
module NetSlots {
  import opened Prelude
  import opened NetSocket
  import opened NetSafety
  import opened NetHandles
  import opened NetRuns

  // ---- the slot count ------------------------------------------------------------------------

  function Slot(s: Sock): nat {
    if s.counted then 1 else 0
  }

  function NumCounted(socks: seq<Sock>): nat {
    if socks == [] then 0 else NumCounted(socks[..|socks| - 1]) + Slot(socks[|socks| - 1])
  }

  lemma {:induction false} CountUpdate(socks: seq<Sock>, i: nat, s: Sock)
    requires i < |socks|
    ensures NumCounted(socks[i := s]) == NumCounted(socks) - Slot(socks[i]) + Slot(s)
    ensures socks[i].counted ==> NumCounted(socks) > 0
  {
    var n, after := |socks| - 1, socks[i := s];
    if i < n {
      assert after[..n] == socks[..n][i := s];
      CountUpdate(socks[..n], i, s);
    } else {
      assert after[..n] == socks[..n];
    }
  }

  /** A socket that holds a slot is connecting, connected or destroyed. */
  predicate SlotShape(s: Sock) {
    s.counted && !s.destroyed ==> s.connecting || s.handle.Some?
  }

  ghost predicate CountOk(n: Net) {
    && n.h.count == NumCounted(n.socks) && n.h.count <= MAX_SOCKETS
    && forall i :: 0 <= i < |n.socks| ==> SlotShape(n.socks[i])
  }

  /** This connect gets as far as taking a slot. */
  predicate TakesSlot(l: Local, m: Move) {
    m.Connecting? && m.target.Port? && !l.s.connecting && l.s.handle.None? && l.h.count < MAX_SOCKETS
  }

  /** What a step of a socket does to the count: it follows the socket's own flag. */
  predicate Counts(l: Local, r: Local) {
    r.h.count - l.h.count == Slot(r.s) - Slot(l.s) && r.h.count <= Max(l.h.count, MAX_SOCKETS) && SlotShape(r.s)
  }

  lemma ClosingCounts(l: Local, me: nat)
    requires (l.s.counted ==> l.h.count > 0) && SlotShape(l.s)
    ensures Counts(l, DoClose(l, me)) && Counts(l, Destroy(l, me)) && Counts(l, Teardown(l, me))
  {
  }

  lemma StopCounts(l: Local, j: nat, r: Local)
    requires j < |l.s.loops| && Counts(l.(s := Stop(l.s, j)), r)
    ensures Counts(l, r)
  {
  }

  lemma StopKeepsSlot(s: Sock, j: nat)
    requires j < |s.loops| && SlotShape(s)
    ensures SlotShape(Stop(s, j)) && Stop(s, j).counted == s.counted
  {
  }

  lemma TurnCounts(l: Local, me: nat, j: nat)
    requires (l.s.counted ==> l.h.count > 0) && SlotShape(l.s) && j < |l.s.loops| && l.h.count <= MAX_SOCKETS
    ensures Counts(l, TakeTurn(l, me, j))
  {
    var s, r := l.s, TakeTurn(l, me, j);
    if s.destroyed || s.closed || s.handle != Some(s.loops[j].id) || (s.writeQ == [] && s.wantClose) {
      StopKeepsSlot(s, j);
      ClosingCounts(l.(s := Stop(s, j)), me);
      StopCounts(l, j, r);
    }
  }

  lemma LoopsDoNotCount(l: Local, r: Local)
    requires SlotShape(l.s) && r.h.count == l.h.count
    requires r.s.counted == l.s.counted && r.s.destroyed == l.s.destroyed && r.s.connecting == l.s.connecting
    requires r.s.handle == l.s.handle
    ensures Counts(l, r)
  {
  }

  lemma LoopReactionCounts(l: Local, me: nat, j: nat, reply: Reply)
    requires (l.s.counted ==> l.h.count > 0) && SlotShape(l.s) && j < |l.s.loops| && l.h.count <= MAX_SOCKETS
    ensures Counts(l, LoopReaction(l, me, j, reply))
  {
    hide Counts, Teardown;
    var s, loop, r := l.s, l.s.loops[j], LoopReaction(l, me, j, reply);
    var u := l.(s := Stop(s, j));
    if s.handle != Some(loop.id) || s.destroyed {
      LoopsDoNotCount(l, u);
    } else if loop.Reading? && reply.Failed? {
      StopKeepsSlot(s, j);
      ClosingCounts(u, me);
      StopCounts(l, j, r);
    } else {
      LoopsDoNotCount(l, r);
    }
  }

  lemma WriteCounts(l: Local, data: bytes)
    requires SlotShape(l.s) && l.h.count <= MAX_SOCKETS
    ensures Counts(l, Write(l, data))
  {
  }

  lemma EndCounts(l: Local, me: nat, data: Option<bytes>)
    requires (l.s.counted ==> l.h.count > 0) && SlotShape(l.s) && l.h.count <= MAX_SOCKETS
    ensures Counts(l, End(l, me, data))
  {
    ClosingCounts(l, me);
  }

  /** connect follows the flag exactly when the socket did not hold a slot already. */
  lemma ConnectCountsIff(l: Local, me: nat, target: Target)
    requires SlotShape(l.s) && l.h.count <= MAX_SOCKETS
    ensures Counts(l, Connect(l, me, target)) <==> !(TakesSlot(l, Connecting(target)) && l.s.counted)
  {
  }

  lemma AfterOpenCounts(l: Local, threw: bool)
    requires (l.s.counted ==> l.h.count > 0) && SlotShape(l.s) && l.s.afterOpen > 0 && l.h.count <= MAX_SOCKETS
    ensures Counts(l, AfterOpen(l, threw))
  {
  }

  lemma MoveCounts(l: Local, me: nat, m: Move)
    requires CanMove(l.s, m) && (l.s.counted ==> l.h.count > 0) && SlotShape(l.s) && l.h.count <= MAX_SOCKETS
    ensures Counts(l, MoveSock(l, me, m)) <==> !(TakesSlot(l, m) && l.s.counted)
  {
    match m {
      case Connecting(target) => ConnectCountsIff(l, me, target);
      case Writes(data) => WriteCounts(l, data);
      case Ends(last) => EndCounts(l, me, last);
      case Destroys => ClosingCounts(l, me);
      case DeferredFail =>
      case OpenFinishes(threw) => AfterOpenCounts(l, threw);
      case EndFinishes => ClosingCounts(l.(s := l.s.(afterEnd := l.s.afterEnd - 1)), me);
      case Turns(j) => TurnCounts(l, me, j);
    }
  }

  lemma ReactCounts(l: Local, me: nat, k: nat, call: Call, reply: Reply)
    requires (l.s.counted ==> l.h.count > 0) && SlotShape(l.s) && l.h.count <= MAX_SOCKETS
    ensures Counts(l, ReactSock(l, me, k, call, reply))
  {
    if call.WriteCall? || call.ReadCall? {
      var j := WaitingLoop(l.s.loops, k);
      if j < |l.s.loops| { LoopReactionCounts(l, me, j, reply); }
    }
  }

  /** connect on a socket that still holds a slot. */
  predicate Recounts(n: Net, a: Action) {
    a.Do? && a.sock < |n.socks| && TakesSlot(Local(n.socks[a.sock], n.h), a.move) && n.socks[a.sock].counted
  }

  lemma PutCounts(n: Net, i: nat, l: Local, r: Local)
    requires CountOk(n) && i < |n.socks| && l.s == n.socks[i] && l.h.count == n.h.count
    ensures Counts(l, r) ==> CountOk(Put(n, i, r))
    ensures CountOk(Put(n, i, r)) ==> r.h.count - l.h.count == Slot(r.s) - Slot(l.s)
  {
    CountUpdate(n.socks, i, r.s);
  }

  /** A step keeps the count right exactly when it does not take a second slot for a socket. */
  lemma StepCountsIff(n: Net, a: Action)
    requires CountOk(n)
    ensures CountOk(Step(n, a)) <==> !Recounts(n, a)
  {
    match a {
      case Create(halfOpen) =>
        assert Step(n, a).socks[..|n.socks|] == n.socks;
      case Do(i, m) =>
        if i < |n.socks| && CanMove(n.socks[i], m) {
          var l := Local(n.socks[i], n.h);
          CountUpdate(n.socks, i, n.socks[i]);
          MoveCounts(l, i, m);
          PutCounts(n, i, l, MoveSock(l, i, m));
        }
      case React(k) =>
        if k < |n.h.log| && n.h.log[k].status.Settled? && n.h.log[k].call.sock < |n.socks| {
          var i, reply := n.h.log[k].call.sock, n.h.log[k].status.reply;
          var l := Local(n.socks[i], SetStatus(n.h, k, Done(reply)));
          CountUpdate(n.socks, i, n.socks[i]);
          ReactCounts(l, i, k, n.h.log[k].call, reply);
          PutCounts(n, i, l, ReactSock(l, i, k, n.h.log[k].call, reply));
        }
      case _ =>
    }
  }

  /** connect is only called on sockets that are not destroyed. */
  predicate NoReuse(n: Net, run: seq<Action>)
    decreases |run|
  {
    run == [] || (
      && (run[0].Do? && run[0].move.Connecting? && run[0].sock < |n.socks| ==> !n.socks[run[0].sock].destroyed)
      && NoReuse(Step(n, run[0]), run[1..]))
  }

  /** Then the count stays the number of sockets that hold a slot, between 0 and the limit. */
  lemma {:induction false} RunCounts(n: Net, run: seq<Action>)
    requires CountOk(n) && NoReuse(n, run)
    ensures CountOk(Run(n, run))
    decreases |run|
  {
    if run != [] {
      StepCountsIff(n, run[0]);
      RunCounts(Step(n, run[0]), run[1..]);
    }
  }

  predicate NeverRecounts(n: Net, run: seq<Action>)
    decreases |run|
  {
    run == [] || (!Recounts(n, run[0]) && NeverRecounts(Step(n, run[0]), run[1..]))
  }

  ghost predicate CountedThroughout(n: Net, run: seq<Action>)
    decreases |run|
  {
    CountOk(n) && (run != [] ==> CountedThroughout(Step(n, run[0]), run[1..]))
  }

  /** The count is right all along a run exactly when no step of it connects a socket that holds a slot. */
  lemma {:induction false} CountedThroughoutIff(n: Net, run: seq<Action>)
    requires CountOk(n)
    ensures CountedThroughout(n, run) <==> NeverRecounts(n, run)
    decreases |run|
  {
    if run != [] {
      StepCountsIff(n, run[0]);
      if !Recounts(n, run[0]) {
        CountedThroughoutIff(Step(n, run[0]), run[1..]);
      } else {
        assert !CountedThroughout(Step(n, run[0]), run[1..]);
      }
    }
  }
}
