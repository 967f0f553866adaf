/**
 * net.js's Socket as an object beside the state its module shares. Every method, and every
 * reaction to a host call, is proved to be its step in NetSocket.
 */
module NetObject {
  import opened Prelude
  import Spec = NetSocket
  import opened NetSocket

  /** _openCount and the calls chained on _hostTail. */
  class Host {
    var openCount: int
    var calls: seq<Entry>

    constructor ()
      ensures openCount == 0 && calls == []
    {
      openCount, calls := 0, [];
    }

    /** _hostCall */
    method HostCall(call: Call) returns (k: nat)
      modifies this`calls
      ensures k == |old(calls)| && calls == old(calls) + [Entry(call, Waiting)]
    {
      k := |calls|;
      calls := calls + [Entry(call, Waiting)];
    }
  }

  class Socket {
    const me: nat
    const host: Host
    var handleId: Option<nat>
    var preQ: seq<bytes>
    var writeQ: seq<bytes>
    var loopRunning: bool
    var wantClose: bool
    var endAfterFlush: bool
    var closed: bool
    var counted: bool
    var connecting: bool
    var destroyed: bool
    var allowHalfOpen: bool
    var loops: seq<Loop>
    var failing: nat
    var afterOpen: nat
    var afterEnd: nat
    ghost var accepted: seq<bytes>

    ghost function Fields(): Sock
      reads this
    {
      Sock(handleId, preQ, writeQ, loopRunning, wantClose, endAfterFlush, closed, counted, connecting,
           destroyed, allowHalfOpen, loops, failing, afterOpen, afterEnd, accepted)
    }

    ghost function Snapshot(): Local
      reads this, host
    {
      Local(Fields(), Shared(host.openCount, host.calls))
    }

    constructor (me: nat, host: Host, allowHalfOpen: bool)
      ensures this.me == me && this.host == host && Fields() == NewSock.(allowHalfOpen := allowHalfOpen)
    {
      this.me, this.host := me, host;
      handleId, preQ, writeQ := None, [], [];
      loopRunning, wantClose, endAfterFlush, closed, counted := false, false, false, false, false;
      connecting, destroyed, this.allowHalfOpen := false, false, allowHalfOpen;
      loops, failing, afterOpen, afterEnd, accepted := [], 0, 0, 0, [];
    }

    method Uncount()
      modifies this`counted, host`openCount
      ensures Fields() == old(Fields()).(counted := false)
      ensures host.openCount == Uncounted(old(host.openCount), old(counted))
    {
      if counted {
        counted := false;
        host.openCount := Max(0, host.openCount - 1);
      }
    }

    method Fail()
      modifies this`connecting, this`closed, this`destroyed
      ensures Fields() == old(Fields()).(connecting := false, closed := true, destroyed := true)
    {
      connecting := false;
      closed := true;
      if !destroyed { destroyed := true; }
    }

    method StartLoop()
      modifies this`loopRunning, this`loops
      ensures Fields() == Spec.StartLoop(old(Fields()))
    {
      if loopRunning { return; }
      if handleId.None? || destroyed || closed { return; }
      loopRunning := true;
      loops := loops + [Turn(handleId.value)];
    }

    /** The end of connect: take a slot and ask the host. */
    method Dial()
      modifies this`connecting, this`counted, host
      ensures Fields() == old(Fields()).(connecting := true, counted := true)
      ensures Shared(host.openCount, host.calls)
           == Shared(old(host.openCount) + 1, old(host.calls) + [Entry(OpenCall(me), Waiting)])
    {
      connecting := true;
      host.openCount := host.openCount + 1;
      counted := true;
      var _ := host.HostCall(OpenCall(me));
    }

    /** What connect leaves to a microtask: _fail, for a path or beyond the sixth socket. */
    method FailLater()
      modifies this`failing
      ensures Fields() == old(Fields()).(failing := old(failing) + 1)
    {
      failing := failing + 1;
    }

    /** connect after its arguments are sorted out; threw where the source throws. */
    method Connect(target: Target) returns (threw: bool)
      modifies this, host
      ensures Snapshot() == Spec.Connect(old(Snapshot()), me, target)
      ensures threw <==> old(connecting) || old(handleId).Some? || target.BadPort?
    {
      if connecting || handleId.Some? || target.BadPort? { return true; }
      threw := false;
      if target.Path? {
        FailLater();
        return;
      }
      ConnectPort(target.halfOpen);
    }

    /** connect from its allowHalfOpen option on. */
    method ConnectPort(halfOpen: Option<bool>)
      requires !connecting && handleId.None?
      modifies this, host
      ensures Snapshot() == Spec.Connect(old(Snapshot()), me, Port(halfOpen))
    {
      allowHalfOpen := if halfOpen.Some? then halfOpen.value else allowHalfOpen;
      if host.openCount >= MAX_SOCKETS {
        FailLater();
      } else {
        Dial();
      }
    }

    method CloseHandle(id: Option<nat>, notify: bool)
      modifies host`calls
      ensures host.calls == Closing(old(host.calls), me, id, notify)
    {
      if id.Some? { var _ := host.HostCall(CloseCall(me, id.value, notify)); }
    }

    /** _uncount, and the close of the handle if there is one: the end of every way to close. */
    method GiveBack(notify: bool)
      modifies this`counted, host
      ensures Fields() == old(Fields()).(counted := false)
      ensures Shared(host.openCount, host.calls)
           == Freed(old(Shared(host.openCount, host.calls)), old(counted), handleId, me, notify)
    {
      Uncount();
      CloseHandle(handleId, notify);
    }

    method StopAndShut()
      modifies this`loopRunning, this`closed
      ensures Fields() == old(Fields()).(loopRunning := false, closed := true)
    {
      loopRunning := false;
      closed := true;
    }

    method DoClose()
      modifies this, host
      ensures Snapshot() == Spec.DoClose(old(Snapshot()), me)
    {
      hide Freed;
      if closed { return; }
      StopAndShut();
      GiveBack(true);
      if handleId.None? && !destroyed { destroyed := true; }
    }

    method Teardown()
      modifies this, host
      ensures Snapshot() == Spec.Teardown(old(Snapshot()), me)
    {
      hide Freed;
      if destroyed { return; }
      StopAndShut();
      GiveBack(false);
      handleId := None;
      destroyed := true;
    }

    method Destroy()
      modifies this, host
      ensures Snapshot() == Spec.Destroy(old(Snapshot()), me)
    {
      hide Freed;
      if destroyed { return; }
      destroyed := true;
      connecting := false;
      StopAndShut();
      GiveBack(false);
    }

    method Write(data: bytes) returns (taken: bool)
      modifies this
      ensures Snapshot() == Spec.Write(old(Snapshot()), data)
      ensures taken <==> !old(destroyed) && !old(closed)
    {
      if destroyed || closed { return false; }
      accepted := accepted + [data];
      if handleId.None? {
        preQ := preQ + [data];
        return true;
      }
      writeQ := writeQ + [data];
      StartLoop();
      return true;
    }

    /** end's last payload, before the connection: the open reaction will ask for the close. */
    method QueueEarly(data: bytes)
      modifies this`preQ, this`accepted, this`endAfterFlush
      ensures Fields()
           == old(Fields()).(preQ := old(preQ) + [data], accepted := old(accepted) + [data], endAfterFlush := true)
    {
      accepted := accepted + [data];
      preQ := preQ + [data];
      endAfterFlush := true;
    }

    /** And after it: the loop will close behind it. */
    method QueueLast(data: bytes)
      modifies this`writeQ, this`accepted, this`wantClose
      ensures Fields()
           == old(Fields()).(writeQ := old(writeQ) + [data], accepted := old(accepted) + [data], wantClose := true)
    {
      accepted := accepted + [data];
      writeQ := writeQ + [data];
      wantClose := true;
    }

    /** end's fin */
    method Finish()
      modifies this, host
      ensures Snapshot() == Spec.Finish(old(Snapshot()), me)
    {
      if connecting {
        endAfterFlush := true;
      } else if loopRunning {
        wantClose := true;
      } else {
        DoClose();
      }
    }

    method End(data: Option<bytes>)
      modifies this, host
      ensures Snapshot() == Spec.End(old(Snapshot()), me, data)
    {
      if data.Some? && !destroyed && !closed {
        if handleId.None? {
          QueueEarly(data.value);
        } else {
          QueueLast(data.value);
          StartLoop();
        }
      } else {
        Finish();
      }
    }

    method StopLoop(j: nat)
      requires j < |loops|
      modifies this`loops, this`loopRunning
      ensures Fields() == Spec.Stop(old(Fields()), j)
    {
      loops := loops[..j] + loops[j + 1..];
      loopRunning := false;
    }

    /** turn() of loop j. */
    method TakeTurn(j: nat)
      requires j < |loops|
      modifies this, host
      ensures Snapshot() == Spec.TakeTurn(old(Snapshot()), me, j)
    {
      var id := loops[j].id;
      if destroyed || closed || handleId != Some(id) {
        StopLoop(j);
        return;
      }
      if |writeQ| > 0 {
        var job := writeQ[0];
        writeQ := writeQ[1..];
        var k := host.HostCall(WriteCall(me, id, job));
        loops := loops[j := Writing(id, k)];
        return;
      }
      if wantClose {
        StopLoop(j);
        DoClose();
        return;
      }
      var k := host.HostCall(ReadCall(me, id));
      loops := loops[j := Reading(id, k)];
    }

    /** What a loop chained on its write: both outcomes go on with the next turn. */
    method OnWritten(j: nat, reply: Reply)
      requires j < |loops| && loops[j].Writing?
      modifies this
      ensures Snapshot() == LoopReaction(old(Snapshot()), me, j, reply)
    {
      var id := loops[j].id;
      if handleId != Some(id) || destroyed {
        StopLoop(j);
        return;
      }
      loops := loops[j := Turn(id)];
    }

    /** What a loop chained on its read, up to the end-of-stream listeners. */
    method OnRead(j: nat, reply: Reply)
      requires j < |loops| && loops[j].Reading? && (reply.Chunk? || reply.Failed?)
      modifies this, host
      ensures Snapshot() == LoopReaction(old(Snapshot()), me, j, reply)
    {
      var id := loops[j].id;
      if handleId != Some(id) || destroyed {
        StopLoop(j);
        return;
      }
      if reply.Failed? {
        StopLoop(j);
        Teardown();
        return;
      }
      if reply.done {
        StopLoop(j);
        afterEnd := afterEnd + 1;
        return;
      }
      loops := loops[j := Turn(id)];
    }

    /** The loop over the writes from before the connection. */
    method QueuePreWrites()
      modifies this`preQ, this`writeQ
      ensures preQ == [] && writeQ == old(writeQ) + old(preQ)
    {
      var q := preQ;
      preQ := [];
      for i := 0 to |q|
        invariant preQ == [] && writeQ == old(writeQ) + q[..i]
      {
        writeQ := writeQ + [q[i]];
      }
    }

    /** An open that failed, or whose listeners threw: _uncount, then _fail. */
    method Abandon()
      modifies this`counted, this`connecting, this`closed, this`destroyed, host`openCount
      ensures Fields() == old(Fields()).(counted := false, connecting := false, closed := true, destroyed := true)
      ensures host.openCount == Uncounted(old(host.openCount), old(counted))
    {
      Uncount();
      Fail();
    }

    /** The handle, and the writes from before the connection behind those already queued. */
    method TakeHandle(id: nat)
      modifies this`handleId, this`connecting, this`preQ, this`writeQ, this`afterOpen
      ensures Fields() == old(Fields()).(handle := Some(id), connecting := false, writeQ := old(writeQ + preQ),
                                         preQ := [], afterOpen := old(afterOpen) + 1)
    {
      handleId := Some(id);
      connecting := false;
      QueuePreWrites();
      afterOpen := afterOpen + 1;
    }

    /** What connect chained on its open, up to the 'connect' listeners. */
    method OnOpen(reply: Reply)
      modifies this, host
      ensures Snapshot() == OpenReaction(old(Snapshot()), me, reply)
    {
      if !reply.Opened? {
        Abandon();
      } else if destroyed {
        Uncount();
        CloseHandle(Some(reply.id), false);
      } else {
        TakeHandle(reply.id);
      }
    }

    /** The rest of it, or its catch. */
    method AfterListeners(threw: bool)
      requires afterOpen > 0
      modifies this, host
      ensures Snapshot() == AfterOpen(old(Snapshot()), threw)
    {
      afterOpen := afterOpen - 1;
      if threw {
        Abandon();
      } else {
        if endAfterFlush { wantClose := true; }
        StartLoop();
      }
    }

    method AfterRemoteEnd()
      requires afterEnd > 0
      modifies this, host
      ensures Snapshot() == AfterEnd(old(Snapshot()), me)
    {
      afterEnd := afterEnd - 1;
      if !allowHalfOpen { DoClose(); }
    }
  }
}
