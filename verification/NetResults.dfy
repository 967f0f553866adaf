/** The promises of the socket loop, over every run, and the runs that show where they end. */
module NetResults {
  import opened Prelude
  import opened NetSocket
  import opened NetSafety
  import opened NetHandles
  import opened NetRuns
  import opened NetSlots

  lemma InitOk()
    ensures Inv(Init) && HandlesOk(Init) && CountOk(Init)
  {
  }

  /** At most one socket call runs at any time, and a call begins only after all issued before it settled. */
  lemma SingleFlight(run: seq<Action>, j: nat, k: nat)
    requires j < k < |Run(Init, run).h.log| && !Run(Init, run).h.log[k].status.Waiting?
    ensures Settles(Run(Init, run).h.log[j].status)
  {
    InitOk();
    RunKeepsInv(Init, run);
  }

  /** A socket has at most one command loop, and at most one write or read not yet answered. */
  lemma OneLoop(run: seq<Action>, i: nat)
    requires i < |Run(Init, run).socks|
    ensures var n := Run(Init, run);
      && |n.socks[i].loops| <= 1
      && forall j, k :: LoopCall(n.h.log, j, i) && LoopCall(n.h.log, k, i) ==> j == k
  {
    InitOk();
    RunKeepsInv(Init, run);
    var n := Run(Init, run);
    assert SockOk(n.socks[i], n.h.log, i);
  }

  /** The payloads passed to socket.write are a prefix of those write and end accepted, in order. */
  lemma WritesArePrefix(run: seq<Action>, i: nat)
    requires i < |Run(Init, run).socks|
    ensures var n := Run(Init, run); Passed(n.h.log, i) <= n.socks[i].accepted
  {
    InitOk();
    RunKeepsInv(Init, run);
    var n := Run(Init, run);
    assert SockOk(n.socks[i], n.h.log, i);
  }

  /** When the loop itself closes, everything accepted has been passed on. */
  lemma LoopClosesAfterFlush(run: seq<Action>, i: nat, j: nat)
    requires i < |Run(Init, run).socks| && CanMove(Run(Init, run).socks[i], Turns(j))
    requires !Run(Init, run).socks[i].closed && Step(Run(Init, run), Do(i, Turns(j))).socks[i].closed
    ensures Passed(Run(Init, run).h.log, i) == Run(Init, run).socks[i].accepted
  {
    InitOk();
    RunKeepsInv(Init, run);
    var n := Run(Init, run);
    assert SockOk(n.socks[i], n.h.log, i);
  }

  /** Without a throwing listener every handle a socket was given is in use or has a close issued. */
  lemma HandlesAreConserved(run: seq<Action>, i: nat, k: nat)
    requires (forall a :: a in run ==> !Throws(a)) && i < |Run(Init, run).socks|
    requires HandleSeen(Run(Init, run).h.log, k, i)
    ensures var n := Run(Init, run); var id := n.h.log[k].status.reply.id;
      Held(n.socks[i], id) || CloseIssued(n.h.log, i, id)
  {
    InitOk();
    RunKeepsInv(Init, run);
    var n := Run(Init, run);
    assert HandleInv(n.socks[i], n.h.log, i);
  }

  /** Unless a destroyed socket is connected again, the clamp in _uncount never acts. */
  lemma CountIsExact(run: seq<Action>, i: nat)
    requires NoReuse(Init, run) && i < |Run(Init, run).socks|
    ensures var n := Run(Init, run);
      && n.h.count == NumCounted(n.socks) && 0 <= n.h.count <= MAX_SOCKETS
      && (n.socks[i].counted ==> n.h.count > 0)
  {
    InitOk();
    RunCounts(Init, run);
    CountUpdate(Run(Init, run).socks, i, Run(Init, run).socks[i]);
  }

  // ---- where the promises end ----------------------------------------------------------------

  lemma RunStep(n: Net, a: Action, m: Net, rest: seq<Action>)
    requires Step(n, a) == m
    ensures Run(n, [a] + rest) == Run(m, rest)
  {
    assert ([a] + rest)[1..] == rest;
  }

  const ToPort: Move := Connecting(Port(None))

  /** The sockets' side of a run of one socket and its opens. */
  function Opening(s: Sock, count: int, statuses: seq<Status>): Net {
    Net([s], Shared(count, seq(|statuses|, i requires 0 <= i < |statuses| => Entry(OpenCall(0), statuses[i]))))
  }

  const Reused: Sock := NewSock.(closed := true, destroyed := true, counted := true)

  /** A path and then a port, given in one go: the socket is destroyed but holds a slot. */
  lemma DestroyedWithSlot(rest: seq<Action>) returns (run: seq<Action>)
    ensures Run(Init, run) == Run(Opening(Reused, 1, [Waiting]), rest)
  {
    var n2 := Net([NewSock.(failing := 1)], Shared(0, []));
    var n3 := Opening(NewSock.(failing := 1, connecting := true, counted := true), 1, [Waiting]);
    var r3 := [Do(0, DeferredFail)] + rest;
    RunStep(n3, Do(0, DeferredFail), Opening(Reused, 1, [Waiting]), rest);
    var r2 := [Do(0, ToPort)] + r3;
    RunStep(n2, Do(0, ToPort), n3, r3);
    var r1 := [Do(0, Connecting(Path))] + r2;
    RunStep(Net([NewSock], Shared(0, [])), Do(0, Connecting(Path)), n2, r2);
    run := [Create(false)] + r1;
    RunStep(Init, Create(false), Net([NewSock], Shared(0, [])), r1);
  }

  /** One open of two, from waiting to failed. */
  lemma OpenFails(s: Sock, count: int, k: nat, before: seq<Status>, rest: seq<Action>) returns (run: seq<Action>)
    requires k < |before| && CanStart(Opening(s, count, before).h.log, k) && s.failing == 0
    ensures Run(Opening(s, count, before), run)
         == Run(Opening(Fail(s.(counted := false)), Uncounted(count, s.counted), before[k := Done(Failed)]),
                rest)
  {
    var n1, n2 := Opening(s, count, before[k := Running]), Opening(s, count, before[k := Settled(Failed)]);
    var left := Uncounted(count, s.counted);
    var n3 := Opening(Fail(s.(counted := false)), left, before[k := Done(Failed)]);
    assert Step(Opening(s, count, before), Start(k)).h.log == n1.h.log;
    assert Step(n1, Settle(k, Failed)).h.log == n2.h.log;
    assert Step(n2, React(k)).h.log == n3.h.log && Step(n2, React(k)).socks == n3.socks;
    RunStep(n2, React(k), n3, rest);
    RunStep(n1, Settle(k, Failed), n2, [React(k)] + rest);
    RunStep(Opening(s, count, before), Start(k), n1, [Settle(k, Failed)] + ([React(k)] + rest));
    run := [Start(k)] + ([Settle(k, Failed)] + ([React(k)] + rest));
  }

  /** Connecting such a socket again takes a second slot, of which only one is ever given back. */
  lemma ReuseLeaksASlot() returns (run: seq<Action>)
    ensures var n := Run(Init, run);
      && n.h.count == 1 && NumCounted(n.socks) == 0
      && forall k :: 0 <= k < |n.h.log| ==> n.h.log[k].status == Done(Failed)
  {
    var s := Reused.(connecting := true);
    var done := Fail(s.(counted := false));
    var last := OpenFails(done, 1, 1, [Done(Failed), Waiting], []);
    var first := OpenFails(s, 2, 0, [Waiting, Waiting], last);
    assert [Waiting, Waiting][0 := Done(Failed)] == [Done(Failed), Waiting];
    RunStep(Opening(Reused, 1, [Waiting]), Do(0, ToPort), Opening(s, 2, [Waiting, Waiting]), first);
    run := DestroyedWithSlot([Do(0, ToPort)] + first);
    var n := Run(Init, run);
    assert n == Opening(done, 1, [Done(Failed), Done(Failed)]);
    assert n.socks[..0] == [];
  }

  const Payload: bytes := [7]

  /** A socket whose one write was accepted before it connected, inside its 'connect' listeners. */
  const Listening: Sock := NewSock.(handle := Some(1), writeQ := [Payload], accepted := [Payload], counted := true,
                                    afterOpen := 1)

  const Open1: Entry := Entry(OpenCall(0), Done(Opened(1)))

  lemma OpensWithWrite(rest: seq<Action>) returns (run: seq<Action>)
    ensures Run(Init, run) == Run(Net([Listening], Shared(1, [Open1])), rest)
  {
    var s1 := NewSock.(preQ := [Payload], accepted := [Payload]);
    var s2 := s1.(connecting := true, counted := true);
    var n5, n6 := Opening(s2, 1, [Settled(Opened(1))]), Net([Listening], Shared(1, [Open1]));
    assert Step(n5, React(0)) == n6 by {
      assert [] + [Payload] == [Payload];
      assert Step(n5, React(0)).h.log == n6.h.log && Step(n5, React(0)).socks == n6.socks;
    }
    RunStep(n5, React(0), n6, rest);
    var r5 := [React(0)] + rest;
    RunStep(Opening(s2, 1, [Running]), Settle(0, Opened(1)), n5, r5);
    var r4 := [Settle(0, Opened(1))] + r5;
    RunStep(Opening(s2, 1, [Waiting]), Start(0), Opening(s2, 1, [Running]), r4);
    var r3 := [Start(0)] + r4;
    RunStep(Net([s1], Shared(0, [])), Do(0, ToPort), Opening(s2, 1, [Waiting]), r3);
    var r2 := [Do(0, ToPort)] + r3;
    RunStep(Net([NewSock], Shared(0, [])), Do(0, Writes(Payload)), Net([s1], Shared(0, [])), r2);
    var r1 := [Do(0, Writes(Payload))] + r2;
    RunStep(Init, Create(false), Net([NewSock], Shared(0, [])), r1);
    run := [Create(false)] + r1;
  }

  /** A listener that throws on an open socket: its handle is neither in use nor closed. */
  lemma ThrowLosesHandle() returns (run: seq<Action>)
    ensures var n := Run(Init, run);
      && |n.socks| == 1 && HandleSeen(n.h.log, 0, 0) && n.h.log[0].status.reply.id == 1
      && !Held(n.socks[0], 1) && !CloseIssued(n.h.log, 0, 1)
  {
    var s := Listening.(afterOpen := 0, closed := true, destroyed := true, counted := false);
    RunStep(Net([Listening], Shared(1, [Open1])), Do(0, OpenFinishes(true)), Net([s], Shared(0, [Open1])), []);
    run := OpensWithWrite([Do(0, OpenFinishes(true))] + []);
  }

  /**
   * Calling end inside the 'connect' listener closes the socket at once: no loop runs yet, and
   * what was written before the connection is accepted and never passed on.
   */
  lemma EndInConnectDropsWrites() returns (run: seq<Action>)
    ensures var n := Run(Init, run);
      |n.socks| == 1 && n.socks[0].accepted == [Payload] && Passed(n.h.log, 0) == []
      && n.socks[0].closed && n.socks[0].loops == [] && n.socks[0].afterOpen == 0
  {
    var s := Listening.(closed := true, counted := false);
    var h := Shared(0, [Open1, Entry(CloseCall(0, 1, true), Waiting)]);
    RunStep(Net([s], h), Do(0, OpenFinishes(false)), Net([s.(afterOpen := 0)], h), []);
    var rest := [Do(0, OpenFinishes(false))] + [];
    RunStep(Net([Listening], Shared(1, [Open1])), Do(0, Ends(None)), Net([s], h), rest);
    run := OpensWithWrite([Do(0, Ends(None))] + rest);
    NothingPassed(h.log, 0);
  }
}
