/** Whole runs of the sockets: what every reachable state satisfies, and what breaks the slot count. */
module NetRuns {
  import opened Prelude
  import opened NetSocket
  import opened NetSafety
  import opened NetHandles

  /** A close whose reaction emits 'close' belongs to a closed socket. */
  predicate NotifiesClosed(s: Sock, log: seq<Entry>, me: nat) {
    forall k :: 0 <= k < |log| && log[k].call.CloseCall? && log[k].call.sock == me && log[k].call.notify ==> s.closed
  }

  ghost predicate SockOk(s: Sock, log: seq<Entry>, me: nat) {
    SockInv(s, log, me) && NotifiesClosed(s, log, me)
  }

  predicate Known(log: seq<Entry>, n: nat) {
    forall k :: 0 <= k < |log| ==>
      log[k].call.sock < n && (Settles(log[k].status) ==> Fits(log[k].call, log[k].status.reply))
  }

  ghost predicate AllOk(n: Net) {
    forall i :: 0 <= i < |n.socks| ==> SockOk(n.socks[i], n.h.log, i)
  }

  ghost predicate Inv(n: Net) {
    AllOk(n) && Known(n.h.log, |n.socks|) && Chained(n.h.log) && Unique(n.h.log)
  }

  ghost predicate HandlesOk(n: Net) {
    forall i :: 0 <= i < |n.socks| ==> HandleInv(n.socks[i], n.h.log, i)
  }

  // ---- what other steps leave alone ----------------------------------------------------------

  /** Another socket's call leaves this one as it is. */
  lemma OthersGrow(s: Sock, before: seq<Entry>, after: seq<Entry>, i: nat, me: nat)
    requires i != me && Grows(before, after, i)
    ensures SockOk(s, before, me) ==> SockOk(s, after, me)
    ensures HandleInv(s, before, me) ==> HandleInv(s, after, me)
  {
    if |after| > |before| {
      assert after[..|after| - 1] == before;
    }
    assert Passed(after, me) == Passed(before, me);
    forall id: nat
      ensures CloseIssued(after, me, id) == CloseIssued(before, me, id)
           && (Seen(before, me, id) ==> Seen(after, me, id))
    {
      GrownOther(before, after, i, me, id);
    }
    forall k | OpenPending(after, k, me) ensures OpenPending(before, k, me) && after[k] == before[k] {}
    forall k | LoopCall(after, k, me) ensures LoopCall(before, k, me) {}
    forall k | HandleSeen(after, k, me) ensures HandleSeen(before, k, me) && after[k] == before[k] {}
  }

  lemma GrownOther(before: seq<Entry>, after: seq<Entry>, i: nat, me: nat, id: nat)
    requires i != me && Grows(before, after, i)
    ensures CloseIssued(after, me, id) == CloseIssued(before, me, id)
    ensures Seen(before, me, id) ==> Seen(after, me, id)
  {
    if CloseIssued(before, me, id) {
      var c :| 0 <= c < |before| && IsCloseOf(before[c].call, me, id);
      assert IsCloseOf(after[c].call, me, id);
    }
    if CloseIssued(after, me, id) {
      var c :| 0 <= c < |after| && IsCloseOf(after[c].call, me, id);
      assert IsCloseOf(before[c].call, me, id);
    }
    if Seen(before, me, id) {
      var k :| HandleSeen(before, k, me) && before[k].status.reply.id == id;
      assert HandleSeen(after, k, me);
    }
  }

  /** A status change that is not this socket's reaction leaves it as it is. */
  lemma OtherStatus(s: Sock, h: Shared, k: nat, st: Status, me: nat)
    requires k < |h.log| && !h.log[k].status.Done? && (st.Done? ==> h.log[k].call.sock != me)
    requires st.Settled? ==> s.failing == 0
    ensures SockOk(s, h.log, me) ==> SockOk(s, SetStatus(h, k, st).log, me)
    ensures HandleInv(s, h.log, me) ==> HandleInv(s, SetStatus(h, k, st).log, me)
  {
    var log := SetStatus(h, k, st).log;
    StatusKeepsPassed(h.log, k, st, me);
    forall id: nat
      ensures CloseIssued(log, me, id) == CloseIssued(h.log, me, id) && (Seen(h.log, me, id) ==> Seen(log, me, id))
    {
      StatusKeepsIssued(h, k, st, me, id);
    }
    forall j | OpenPending(log, j, me) ensures OpenPending(h.log, j, me) && (j != k ==> log[j] == h.log[j]) {}
    forall j | LoopCall(log, j, me) ensures LoopCall(h.log, j, me) {}
    forall j | HandleSeen(log, j, me) ensures HandleSeen(h.log, j, me) && log[j] == h.log[j] {}
  }

  lemma StatusKeepsIssued(h: Shared, k: nat, st: Status, me: nat, id: nat)
    requires k < |h.log| && !h.log[k].status.Done?
    ensures CloseIssued(SetStatus(h, k, st).log, me, id) == CloseIssued(h.log, me, id)
    ensures Seen(h.log, me, id) ==> Seen(SetStatus(h, k, st).log, me, id)
  {
    var log := SetStatus(h, k, st).log;
    assert forall c :: 0 <= c < |log| ==> IsCloseOf(log[c].call, me, id) == IsCloseOf(h.log[c].call, me, id);
    if Seen(h.log, me, id) {
      var j :| HandleSeen(h.log, j, me) && h.log[j].status.reply.id == id;
      assert HandleSeen(log, j, me);
    }
  }

  // ---- one step of the machine ---------------------------------------------------------------

  lemma MoveKeepsSock(l: Local, me: nat, m: Move)
    requires CanMove(l.s, m) && SockOk(l.s, l.h.log, me)
    ensures SockOk(MoveSock(l, me, m).s, MoveSock(l, me, m).h.log, me)
  {
    MoveKeepsShape(l, me, m);
    MoveKeepsOrder(l, me, m);
    MoveKeepsOpens(l, me, m);
    MoveKeepsAwaited(l, me, m);
    MoveGrows(l, me, m);
    MoveTakesNone(l, me, m);
  }

  lemma ReactKeepsSock(l: Local, h: Shared, me: nat, k: nat, call: Call, reply: Reply)
    requires SockOk(l.s, h.log, me) && Reacting(h, k, me, call, reply) && l.h == SetStatus(h, k, Done(reply))
    ensures var r := ReactSock(l, me, k, call, reply); SockOk(r.s, r.h.log, me)
  {
    var r := ReactSock(l, me, k, call, reply);
    if call.OpenCall? { assert OpenPending(h.log, k, me); }
    StatusKeepsPassed(h.log, k, Done(reply), me);
    ReactKeepsShape(l, me, k, call, reply);
    ReactKeepsOrder(l, me, k, call, reply);
    ReactKeepsOpens(l, h, me, k, call, reply);
    ReactKeepsAwaited(l, h, me, k, call, reply);
    ReactGrows(l, me, k, call, reply);
    ReactStaysClosed(l, me, k, call, reply);
  }

  lemma ReactStaysClosed(l: Local, me: nat, k: nat, call: Call, reply: Reply)
    requires Shape(l.s)
    ensures var r := ReactSock(l, me, k, call, reply);
      (l.s.closed ==> r.s.closed) && (|r.h.log| > |l.h.log| && r.h.log[|l.h.log|].call.CloseCall? ==> r.s.closed)
  {
    if call.WriteCall? || call.ReadCall? {
      var j := WaitingLoop(l.s.loops, k);
      if j < |l.s.loops| { LoopReactionLetsGo(l, me, j, reply); }
    }
  }

  /** Where a log grows or one status changes, the chain stays a chain. */
  lemma GrowthKeepsChain(before: seq<Entry>, after: seq<Entry>, i: nat, n: nat)
    requires Grows(before, after, i) && i < n && Known(before, n) && Chained(before) && Unique(before)
    ensures Known(after, n) && Chained(after) && Unique(after)
  {
  }

  lemma StatusKeepsChain(h: Shared, k: nat, st: Status, n: nat)
    requires k < |h.log| && Known(h.log, n) && Chained(h.log) && Unique(h.log)
    requires || (st.Running? && CanStart(h.log, k))
             || (st.Settled? && h.log[k].status.Running? && Fits(h.log[k].call, st.reply) && IsFresh(h.log, st.reply))
             || (st.Done? && h.log[k].status == Settled(st.reply))
    ensures var log := SetStatus(h, k, st).log; Known(log, n) && Chained(log) && Unique(log)
  {
    var log := SetStatus(h, k, st).log;
    if st.Running? {
      forall j | 0 <= j < k ensures Settles(log[j].status) {
        if j < k - 1 { assert Settles(h.log[j].status); }
      }
    }
  }

  lemma DoKeepsInv(n: Net, i: nat, m: Move)
    requires Inv(n) && i < |n.socks| && CanMove(n.socks[i], m)
    ensures Inv(Step(n, Do(i, m)))
    ensures HandlesOk(n) && m != OpenFinishes(true) ==> HandlesOk(Step(n, Do(i, m)))
  {
    var l := Local(n.socks[i], n.h);
    var r := MoveSock(l, i, m);
    MoveGrows(l, i, m);
    MoveKeepsSock(l, i, m);
    GrowthKeepsChain(n.h.log, r.h.log, i, |n.socks|);
    if HandlesOk(n) && m != OpenFinishes(true) { MoveKeepsHandles(l, i, m); }
    forall j | 0 <= j < |n.socks| && j != i
      ensures SockOk(n.socks[j], r.h.log, j) && (HandlesOk(n) ==> HandleInv(n.socks[j], r.h.log, j))
    {
      OthersGrow(n.socks[j], n.h.log, r.h.log, i, j);
    }
  }

  lemma ReactKeepsInv(n: Net, k: nat)
    requires Inv(n) && k < |n.h.log| && n.h.log[k].status.Settled?
    ensures Inv(Step(n, React(k)))
    ensures HandlesOk(n) ==> HandlesOk(Step(n, React(k)))
  {
    var i, call, reply := n.h.log[k].call.sock, n.h.log[k].call, n.h.log[k].status.reply;
    var l := Local(n.socks[i], SetStatus(n.h, k, Done(reply)));
    var r := ReactSock(l, i, k, call, reply);
    StatusKeepsChain(n.h, k, Done(reply), |n.socks|);
    ReactGrows(l, i, k, call, reply);
    ReactKeepsSock(l, n.h, i, k, call, reply);
    GrowthKeepsChain(l.h.log, r.h.log, i, |n.socks|);
    if HandlesOk(n) {
      if call.OpenCall? { assert OpenPending(n.h.log, k, i); }
      ReactKeepsHandles(l, n.h, i, k, call, reply);
    }
    forall j | 0 <= j < |n.socks| && j != i
      ensures SockOk(n.socks[j], r.h.log, j) && (HandlesOk(n) ==> HandleInv(n.socks[j], r.h.log, j))
    {
      OtherStatus(n.socks[j], n.h, k, Done(reply), j);
      OthersGrow(n.socks[j], l.h.log, r.h.log, i, j);
    }
  }

  lemma StatusKeepsInv(n: Net, k: nat, st: Status)
    requires Inv(n) && k < |n.h.log|
    requires (st.Running? && CanStart(n.h.log, k)) || (st.Settled? && CanSettle(n, k, st.reply))
    ensures Inv(n.(h := SetStatus(n.h, k, st)))
    ensures HandlesOk(n) ==> HandlesOk(n.(h := SetStatus(n.h, k, st)))
  {
    StatusKeepsChain(n.h, k, st, |n.socks|);
    forall j | 0 <= j < |n.socks|
      ensures SockOk(n.socks[j], SetStatus(n.h, k, st).log, j)
           && (HandlesOk(n) ==> HandleInv(n.socks[j], SetStatus(n.h, k, st).log, j))
    {
      OtherStatus(n.socks[j], n.h, k, st, j);
    }
  }

  lemma {:induction false} NothingPassed(log: seq<Entry>, me: nat)
    requires forall k :: 0 <= k < |log| ==> log[k].call.sock != me || !log[k].call.WriteCall?
    ensures Passed(log, me) == []
  {
    if log != [] { NothingPassed(log[..|log| - 1], me); }
  }

  lemma CreateKeepsInv(n: Net, halfOpen: bool)
    requires Inv(n)
    ensures Inv(Step(n, Create(halfOpen))) && (HandlesOk(n) ==> HandlesOk(Step(n, Create(halfOpen))))
  {
    NothingPassed(n.h.log, |n.socks|);
    var s := NewSock.(allowHalfOpen := halfOpen);
    assert forall k :: 0 <= k < |n.h.log| ==> n.h.log[k].call.sock != |n.socks|;
    assert SockOk(s, n.h.log, |n.socks|) && HandleInv(s, n.h.log, |n.socks|);
  }

  predicate Throws(a: Action) {
    a.Do? && a.move == OpenFinishes(true)
  }

  lemma StepKeepsInv(n: Net, a: Action)
    requires Inv(n)
    ensures Inv(Step(n, a)) && (HandlesOk(n) && !Throws(a) ==> HandlesOk(Step(n, a)))
  {
    match a {
      case Create(halfOpen) => CreateKeepsInv(n, halfOpen);
      case Do(i, m) => if i < |n.socks| && CanMove(n.socks[i], m) { DoKeepsInv(n, i, m); }
      case Start(k) => if CanStart(n.h.log, k) { StatusKeepsInv(n, k, Running); }
      case Settle(k, reply) => if CanSettle(n, k, reply) { StatusKeepsInv(n, k, Settled(reply)); }
      case React(k) => if k < |n.h.log| && n.h.log[k].status.Settled? { ReactKeepsInv(n, k); }
    }
  }

  lemma {:induction false} RunKeepsInv(n: Net, run: seq<Action>)
    requires Inv(n)
    ensures Inv(Run(n, run))
    ensures HandlesOk(n) && (forall i :: 0 <= i < |run| ==> !Throws(run[i])) ==> HandlesOk(Run(n, run))
    decreases |run|
  {
    if run != [] {
      StepKeepsInv(n, run[0]);
      RunKeepsInv(Step(n, run[0]), run[1..]);
    }
  }
}
