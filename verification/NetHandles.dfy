/** No handle is lost: each is in use, or its close has been issued. */
module NetHandles {
  import opened Prelude
  import opened NetSocket
  import opened NetSafety

  predicate CloseIssued(log: seq<Entry>, me: nat, id: int) {
    exists k :: 0 <= k < |log| && IsCloseOf(log[k].call, me, id)
  }

  predicate IsCloseOf(call: Call, me: nat, id: int) {
    call.CloseCall? && call.sock == me && call.id == id
  }

  predicate Held(s: Sock, id: nat) {
    s.handle == Some(id) && !s.closed
  }

  /** The host opened handle id for this socket, and the socket has seen it. */
  predicate HandleSeen(log: seq<Entry>, k: int, me: nat) {
    0 <= k < |log| && log[k].call == OpenCall(me) && log[k].status.Done? && log[k].status.reply.Opened?
  }

  /** Every handle is in use by an unclosed socket, or its close has been issued. */
  ghost predicate Conserved(s: Sock, log: seq<Entry>, me: nat) {
    forall k :: HandleSeen(log, k, me) ==>
      Held(s, log[k].status.reply.id) || CloseIssued(log, me, log[k].status.reply.id)
  }

  ghost predicate Seen(log: seq<Entry>, me: nat, id: nat) {
    exists k :: HandleSeen(log, k, me) && log[k].status.reply.id == id
  }

  /** Closes are only issued for handles the socket was given, and not for the one in use. */
  ghost predicate Owned(s: Sock, log: seq<Entry>, me: nat) {
    && (forall c :: 0 <= c < |log| && log[c].call.CloseCall? && log[c].call.sock == me ==>
          Seen(log, me, log[c].call.id))
    && (s.handle.Some? ==> Seen(log, me, s.handle.value))
    && (s.handle.Some? && !s.closed ==> !CloseIssued(log, me, s.handle.value))
  }

  /** A step that takes no handle, and closes at most its own, then for good. */
  predicate TakesNone(l: Local, r: Local, me: nat) {
    && (l.s.closed ==> r.s.closed) && (r.s.handle == l.s.handle || r.s.handle == None)
    && (|r.h.log| > |l.h.log| && r.h.log[|l.h.log|].call.CloseCall? ==>
          r.s.closed && l.s.handle == Some(r.h.log[|l.h.log|].call.id))
  }

  /** A step that keeps an open handle, or gives it up with a close issued for it. */
  predicate LetsGo(l: Local, r: Local, me: nat) {
    || l.s.closed || l.s.handle.None? || (r.s.handle == l.s.handle && !r.s.closed)
    || CloseIssued(r.h.log, me, l.s.handle.value)
  }

  lemma GrownCloseIssued(before: seq<Entry>, after: seq<Entry>, me: nat, id: nat)
    requires Grows(before, after, me)
    ensures CloseIssued(before, me, id) ==> CloseIssued(after, me, id)
    ensures Seen(before, me, id) ==> Seen(after, me, id)
    ensures CloseIssued(after, me, id) ==>
      CloseIssued(before, me, id) || (|after| > |before| && IsCloseOf(after[|before|].call, me, id))
  {
    if CloseIssued(before, me, id) {
      var c :| 0 <= c < |before| && IsCloseOf(before[c].call, me, id);
      assert IsCloseOf(after[c].call, me, id);
    }
    if Seen(before, me, id) {
      var k :| HandleSeen(before, k, me) && before[k].status.reply.id == id;
      assert HandleSeen(after, k, me);
    }
    if CloseIssued(after, me, id) {
      var c :| 0 <= c < |after| && IsCloseOf(after[c].call, me, id);
      if c < |before| { assert IsCloseOf(before[c].call, me, id); }
    }
  }

  lemma LettingGoConserves(l: Local, r: Local, me: nat)
    requires Conserved(l.s, l.h.log, me) && Grows(l.h.log, r.h.log, me)
    requires TakesNone(l, r, me) && LetsGo(l, r, me)
    ensures Conserved(r.s, r.h.log, me)
  {
    forall k | HandleSeen(r.h.log, k, me)
      ensures Held(r.s, r.h.log[k].status.reply.id) || CloseIssued(r.h.log, me, r.h.log[k].status.reply.id)
    {
      assert HandleSeen(l.h.log, k, me);
      GrownCloseIssued(l.h.log, r.h.log, me, r.h.log[k].status.reply.id);
    }
  }

  lemma TakingNoneKeepsOwned(l: Local, r: Local, me: nat)
    requires Owned(l.s, l.h.log, me) && Grows(l.h.log, r.h.log, me) && TakesNone(l, r, me)
    ensures Owned(r.s, r.h.log, me)
  {
    forall c | 0 <= c < |r.h.log| && r.h.log[c].call.CloseCall? && r.h.log[c].call.sock == me
      ensures Seen(r.h.log, me, r.h.log[c].call.id)
    {
      if c < |l.h.log| { assert r.h.log[c] == l.h.log[c]; }
      GrownCloseIssued(l.h.log, r.h.log, me, r.h.log[c].call.id);
    }
    if r.s.handle.Some? { GrownCloseIssued(l.h.log, r.h.log, me, r.s.handle.value); }
  }

  lemma IssuedClose(h: Shared, me: nat, id: nat, notify: bool)
    ensures CloseIssued(Issue(h, CloseCall(me, id, notify)).log, me, id)
  {
    assert IsCloseOf(Issue(h, CloseCall(me, id, notify)).log[|h.log|].call, me, id);
  }

  lemma ClosingLetsGo(l: Local, me: nat)
    requires l.s.destroyed ==> l.s.closed
    ensures TakesNone(l, DoClose(l, me), me) && LetsGo(l, DoClose(l, me), me)
    ensures TakesNone(l, Destroy(l, me), me) && LetsGo(l, Destroy(l, me), me)
    ensures TakesNone(l, Teardown(l, me), me) && LetsGo(l, Teardown(l, me), me)
  {
    if l.s.handle.Some? {
      IssuedClose(l.h, me, l.s.handle.value, true);
      IssuedClose(l.h, me, l.s.handle.value, false);
    }
  }

  lemma StopThenLetsGo(l: Local, j: nat, r: Local, me: nat)
    requires j < |l.s.loops|
    requires TakesNone(l.(s := Stop(l.s, j)), r, me) && LetsGo(l.(s := Stop(l.s, j)), r, me)
    ensures TakesNone(l, r, me) && LetsGo(l, r, me)
  {
  }

  lemma TurnLetsGo(l: Local, me: nat, j: nat)
    requires Shape(l.s) && j < |l.s.loops| && l.s.loops[j].Turn?
    ensures TakesNone(l, TakeTurn(l, me, j), me) && LetsGo(l, TakeTurn(l, me, j), me)
  {
    var s, id := l.s, l.s.loops[j].id;
    if !s.destroyed && !s.closed && s.handle == Some(id) && s.writeQ == [] && s.wantClose {
      StopKeepsShape(s, j);
      ClosingLetsGo(l.(s := Stop(s, j)), me);
      StopThenLetsGo(l, j, TakeTurn(l, me, j), me);
    }
  }

  lemma LoopReactionLetsGo(l: Local, me: nat, j: nat, reply: Reply)
    requires Shape(l.s) && j < |l.s.loops|
    ensures TakesNone(l, LoopReaction(l, me, j, reply), me) && LetsGo(l, LoopReaction(l, me, j, reply), me)
  {
    var s, loop := l.s, l.s.loops[j];
    if s.handle == Some(loop.id) && !s.destroyed && loop.Reading? && reply.Failed? {
      StopKeepsShape(s, j);
      ClosingLetsGo(l.(s := Stop(s, j)), me);
      StopThenLetsGo(l, j, LoopReaction(l, me, j, reply), me);
    }
  }

  lemma EndLetsGo(l: Local, me: nat, data: Option<bytes>)
    requires Shape(l.s)
    ensures TakesNone(l, End(l, me, data), me) && LetsGo(l, End(l, me, data), me)
  {
    ClosingLetsGo(l, me);
  }

  lemma ConnectLetsGo(l: Local, me: nat, target: Target)
    ensures TakesNone(l, Connect(l, me, target), me) && LetsGo(l, Connect(l, me, target), me)
  {
  }

  lemma WriteLetsGo(l: Local, me: nat, data: bytes)
    ensures TakesNone(l, Write(l, data), me) && LetsGo(l, Write(l, data), me)
  {
  }

  lemma AfterOpenTakesNone(l: Local, me: nat, threw: bool)
    requires l.s.afterOpen > 0
    ensures TakesNone(l, AfterOpen(l, threw), me) && (!threw ==> LetsGo(l, AfterOpen(l, threw), me))
  {
  }

  lemma MoveTakesNone(l: Local, me: nat, m: Move)
    requires CanMove(l.s, m) && Shape(l.s)
    ensures TakesNone(l, MoveSock(l, me, m), me)
    ensures m != OpenFinishes(true) ==> LetsGo(l, MoveSock(l, me, m), me)
  {
    match m {
      case Connecting(target) => ConnectLetsGo(l, me, target);
      case Writes(data) => WriteLetsGo(l, me, data);
      case Turns(j) => TurnLetsGo(l, me, j);
      case Ends(last) => EndLetsGo(l, me, last);
      case Destroys => ClosingLetsGo(l, me);
      case OpenFinishes(threw) => AfterOpenTakesNone(l, me, threw);
      case EndFinishes => ClosingLetsGo(l.(s := l.s.(afterEnd := l.s.afterEnd - 1)), me);
      case DeferredFail =>
    }
  }

  /** No two settled opens gave the same handle. */
  predicate Unique(log: seq<Entry>) {
    forall j, k :: 0 <= j < k < |log| && Settles(log[j].status) && Settles(log[k].status) && log[j].status.reply.Opened?
      ==> log[j].status.reply != log[k].status.reply
  }

  /** Marking a call done that opened nothing leaves what is known of handles. */
  lemma DoneKeepsHandles(s: Sock, h: Shared, me: nat, k: nat, call: Call, reply: Reply)
    requires k < |h.log| && h.log[k] == Entry(call, Settled(reply)) && (call != OpenCall(me) || !reply.Opened?)
    ensures var log := SetStatus(h, k, Done(reply)).log;
      && (Conserved(s, h.log, me) ==> Conserved(s, log, me))
      && (Owned(s, h.log, me) ==> Owned(s, log, me))
  {
    var log := SetStatus(h, k, Done(reply)).log;
    forall id: nat
      ensures Seen(log, me, id) == Seen(h.log, me, id) && CloseIssued(log, me, id) == CloseIssued(h.log, me, id)
    {
      DoneKeepsSeen(h, me, k, reply, id);
      assert forall c :: 0 <= c < |log| ==> IsCloseOf(log[c].call, me, id) == IsCloseOf(h.log[c].call, me, id);
    }
    forall j | HandleSeen(log, j, me)
      ensures HandleSeen(h.log, j, me) && log[j].status == h.log[j].status {
    }
  }

  lemma DoneKeepsSeen(h: Shared, me: nat, k: nat, reply: Reply, id: nat)
    requires k < |h.log| && h.log[k].status == Settled(reply)
    ensures Seen(h.log, me, id) ==> Seen(SetStatus(h, k, Done(reply)).log, me, id)
    ensures Seen(SetStatus(h, k, Done(reply)).log, me, id) ==>
      Seen(h.log, me, id) || (h.log[k].call == OpenCall(me) && reply == Opened(id))
  {
    var log := SetStatus(h, k, Done(reply)).log;
    if Seen(h.log, me, id) {
      var j :| HandleSeen(h.log, j, me) && h.log[j].status.reply.id == id;
      assert HandleSeen(log, j, me);
    }
    if Seen(log, me, id) {
      var j :| HandleSeen(log, j, me) && log[j].status.reply.id == id;
      if j != k { assert HandleSeen(h.log, j, me); }
    }
  }

  // ---- the reaction to socket.open -----------------------------------------------------------

  lemma DoneKeepsCloses(h: Shared, me: nat, k: nat, reply: Reply, id: nat)
    requires k < |h.log|
    ensures CloseIssued(SetStatus(h, k, Done(reply)).log, me, id) == CloseIssued(h.log, me, id)
  {
    var log := SetStatus(h, k, Done(reply)).log;
    assert forall c :: 0 <= c < |log| ==> IsCloseOf(log[c].call, me, id) == IsCloseOf(h.log[c].call, me, id);
  }

  /** An open that arrives at a live socket becomes its handle, and nobody has closed it. */
  lemma HandleTaken(l: Local, h: Shared, me: nat, k: nat, reply: Reply)
    requires Shape(l.s) && !l.s.destroyed && l.s.connecting && reply.Opened? && Unique(h.log)
    requires Conserved(l.s, h.log, me) && Owned(l.s, h.log, me)
    requires Reacting(h, k, me, OpenCall(me), reply) && l.h == SetStatus(h, k, Done(reply))
    ensures var r := OpenReaction(l, me, reply); Conserved(r.s, r.h.log, me) && Owned(r.s, r.h.log, me)
  {
    var r := OpenReaction(l, me, reply);
    assert HandleSeen(r.h.log, k, me);
    forall j | HandleSeen(r.h.log, j, me)
      ensures Held(r.s, r.h.log[j].status.reply.id) || CloseIssued(r.h.log, me, r.h.log[j].status.reply.id)
    {
      if j != k {
        assert HandleSeen(h.log, j, me);
        DoneKeepsCloses(h, me, k, reply, r.h.log[j].status.reply.id);
      }
    }
    forall c | 0 <= c < |r.h.log| && r.h.log[c].call.CloseCall? && r.h.log[c].call.sock == me
      ensures Seen(r.h.log, me, r.h.log[c].call.id)
    {
      DoneKeepsSeen(h, me, k, reply, h.log[c].call.id);
    }
    DoneKeepsCloses(h, me, k, reply, reply.id);
  }

  /** An open that arrives too late is closed at once. */
  lemma HandleReturned(l: Local, h: Shared, me: nat, k: nat, reply: Reply)
    requires Shape(l.s) && l.s.destroyed && reply.Opened?
    requires Conserved(l.s, h.log, me) && Owned(l.s, h.log, me)
    requires Reacting(h, k, me, OpenCall(me), reply) && l.h == SetStatus(h, k, Done(reply))
    ensures var r := OpenReaction(l, me, reply); Conserved(r.s, r.h.log, me) && Owned(r.s, r.h.log, me)
  {
    var r := OpenReaction(l, me, reply);
    IssuedClose(Shared(Uncounted(l.h.count, l.s.counted), l.h.log), me, reply.id, false);
    assert HandleSeen(r.h.log, k, me);
    forall j | HandleSeen(r.h.log, j, me)
      ensures Held(r.s, r.h.log[j].status.reply.id) || CloseIssued(r.h.log, me, r.h.log[j].status.reply.id)
    {
      if j != k {
        assert HandleSeen(h.log, j, me);
        DoneKeepsCloses(h, me, k, reply, r.h.log[j].status.reply.id);
        GrownCloseIssued(l.h.log, r.h.log, me, r.h.log[j].status.reply.id);
      }
    }
    forall id: nat | Seen(h.log, me, id) ensures Seen(r.h.log, me, id) {
      DoneKeepsSeen(h, me, k, reply, id);
      GrownCloseIssued(l.h.log, r.h.log, me, id);
    }
    forall c | 0 <= c < |r.h.log| && r.h.log[c].call.CloseCall? && r.h.log[c].call.sock == me
      ensures Seen(r.h.log, me, r.h.log[c].call.id)
    {
      if c < |h.log| { assert r.h.log[c].call == h.log[c].call; }
    }
  }

  ghost predicate HandleInv(s: Sock, log: seq<Entry>, me: nat) {
    Conserved(s, log, me) && Owned(s, log, me)
  }

  lemma MoveKeepsHandles(l: Local, me: nat, m: Move)
    requires CanMove(l.s, m) && Shape(l.s) && HandleInv(l.s, l.h.log, me) && m != OpenFinishes(true)
    ensures HandleInv(MoveSock(l, me, m).s, MoveSock(l, me, m).h.log, me)
  {
    MoveGrows(l, me, m);
    MoveTakesNone(l, me, m);
    LettingGoConserves(l, MoveSock(l, me, m), me);
    TakingNoneKeepsOwned(l, MoveSock(l, me, m), me);
  }

  lemma OtherReactionLetsGo(l: Local, me: nat, k: nat, call: Call, reply: Reply)
    requires Shape(l.s) && (call.CloseCall? && call.notify ==> l.s.closed)
    requires call.OpenCall? ==> !reply.Opened? && (!l.s.destroyed ==> l.s.connecting)
    ensures var r := ReactSock(l, me, k, call, reply); TakesNone(l, r, me) && LetsGo(l, r, me)
  {
    if call.WriteCall? || call.ReadCall? {
      var j := WaitingLoop(l.s.loops, k);
      if j < |l.s.loops| { LoopReactionLetsGo(l, me, j, reply); }
    }
  }

  lemma ReactKeepsHandles(l: Local, h: Shared, me: nat, k: nat, call: Call, reply: Reply)
    requires Shape(l.s) && HandleInv(l.s, h.log, me) && Unique(h.log)
    requires Reacting(h, k, me, call, reply) && l.h == SetStatus(h, k, Done(reply))
    requires call.OpenCall? && !l.s.destroyed ==> l.s.connecting
    requires call.CloseCall? && call.notify ==> l.s.closed
    ensures var r := ReactSock(l, me, k, call, reply); HandleInv(r.s, r.h.log, me)
  {
    var r := ReactSock(l, me, k, call, reply);
    if call.OpenCall? && reply.Opened? {
      if l.s.destroyed { HandleReturned(l, h, me, k, reply); } else { HandleTaken(l, h, me, k, reply); }
    } else {
      DoneKeepsHandles(l.s, h, me, k, call, reply);
      ReactGrows(l, me, k, call, reply);
      OtherReactionLetsGo(l, me, k, call, reply);
      LettingGoConserves(l, r, me);
      TakingNoneKeepsOwned(l, r, me);
    }
  }

  /** A throwing 'connect' listener loses the handle exactly when it left the socket open. */
  lemma ThrowLosesHandleIff(l: Local, me: nat)
    requires Shape(l.s) && HandleInv(l.s, l.h.log, me) && l.s.afterOpen > 0
    ensures var r := AfterOpen(l, true); Conserved(r.s, r.h.log, me) <==> l.s.closed || l.s.handle.None?
  {
    var r := AfterOpen(l, true);
    AfterOpenTakesNone(l, me, true);
    if l.s.closed || l.s.handle.None? {
      LettingGoConserves(l, r, me);
    } else {
      var k :| HandleSeen(l.h.log, k, me) && l.h.log[k].status.reply.id == l.s.handle.value;
      assert HandleSeen(r.h.log, k, me);
    }
  }
}
