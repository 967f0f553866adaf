/**
 * _hostCall of net.js: every host call hangs on the promise tail, and the tail is replaced by a
 * promise that settles once the call has. The guard under which NetSocket lets a call begin, and
 * the single flight of host calls, are derived from it here.
 */
module NetChain {
  import opened Prelude
  import opened NetSocket
  import opened NetSafety

  /**
   * Call k's own promise is log[k]. Link k is the promise that `_hostTail` was set to by call k:
   * fulfilled once the reaction to call k's promise has run. after[k] is the link call k was
   * chained on (None: the promise the module started with, which is fulfilled), and tail is the
   * current `_hostTail`.
   */
  datatype Chain = Chain(log: seq<Entry>, after: seq<Option<nat>>, links: seq<bool>, tail: Option<nat>)

  const Fresh: Chain := Chain([], [], [], None)

  datatype Event =
    | HostCall(call: Call)             // _hostCall: p := tail.then(run, run); tail := p.then(noop, noop)
    | Begin(k: nat)                    // the link call k hangs on has settled: run
    | Reply(k: nat, reply: Reply)      // the host's promise settles, and p with it, either way
    | Release(k: nat)                  // the noop on call k's promise: link k is fulfilled
    | Reacts(k: nat)                   // what else hangs on call k's promise: its caller's reaction

  predicate Fulfilled(c: Chain, link: Option<nat>) {
    link.Some? ==> link.value < |c.links| && c.links[link.value]
  }

  predicate Enabled(c: Chain, e: Event) {
    match e
    case HostCall(_) => true
    case Begin(k) => k < |c.log| && k < |c.after| && c.log[k].status.Waiting? && Fulfilled(c, c.after[k])
    case Reply(k, _) => k < |c.log| && c.log[k].status.Running?
    case Release(k) => k < |c.log| && k < |c.links| && Settles(c.log[k].status) && !c.links[k]
    case Reacts(k) => k < |c.log| && c.log[k].status.Settled?
  }

  function Step(c: Chain, e: Event): Chain {
    if !Enabled(c, e) then c
    else match e
    case HostCall(call) =>
      Chain(c.log + [Entry(call, Waiting)], c.after + [c.tail], c.links + [false], Some(|c.log|))
    case Begin(k) => c.(log := c.log[k := c.log[k].(status := Running)])
    case Reply(k, reply) => c.(log := c.log[k := c.log[k].(status := Settled(reply))])
    case Release(k) => c.(links := c.links[k := true])
    case Reacts(k) => c.(log := c.log[k := c.log[k].(status := Done(c.log[k].status.reply))])
  }

  function Run(c: Chain, es: seq<Event>): Chain
    decreases |es|
  {
    if es == [] then c else Run(Step(c, es[0]), es[1..])
  }

  /** Each call hangs on the link of the call before it, and a fulfilled link means a settled call. */
  predicate Linked(c: Chain) {
    && |c.after| == |c.links| == |c.log|
    && c.tail == (if c.log == [] then None else Some(|c.log| - 1))
    && (forall k :: 0 <= k < |c.log| ==> c.after[k] == if k == 0 then None else Some(k - 1))
    && (forall k :: 0 <= k < |c.log| && c.links[k] ==> Settles(c.log[k].status))
    && forall k :: 0 < k < |c.log| && !c.log[k].status.Waiting? ==> Settles(c.log[k - 1].status)
  }

  lemma HostCallKeepsLinked(c: Chain, call: Call)
    requires Linked(c)
    ensures Linked(Step(c, HostCall(call)))
  {
  }

  lemma BeginKeepsLinked(c: Chain, k: nat)
    requires Linked(c)
    ensures Linked(Step(c, Begin(k)))
  {
  }

  lemma StepKeepsLinked(c: Chain, e: Event)
    requires Linked(c)
    ensures Linked(Step(c, e))
  {
    if e.HostCall? { HostCallKeepsLinked(c, e.call); }
    else if e.Begin? { BeginKeepsLinked(c, e.k); }
  }

  lemma {:induction false} RunKeepsLinked(c: Chain, es: seq<Event>)
    requires Linked(c)
    ensures Linked(Run(c, es))
    decreases |es|
  {
    if es != [] {
      StepKeepsLinked(c, es[0]);
      RunKeepsLinked(Step(c, es[0]), es[1..]);
    }
  }

  /** Where each call was begun by the one before, all before it have settled. */
  lemma {:induction false} AllBeforeSettled(c: Chain, j: nat, k: nat)
    requires Linked(c) && j < k < |c.log| && !c.log[k].status.Waiting?
    ensures Settles(c.log[j].status)
    decreases k
  {
    if j < k - 1 { AllBeforeSettled(c, j, k - 1); }
  }

  /** Over every run of the promises: one call at a time, in the order they were asked for. */
  lemma OneCallAtATime(es: seq<Event>)
    ensures NetSafety.Chained(Run(Fresh, es).log)
  {
    var c := Run(Fresh, es);
    RunKeepsLinked(Fresh, es);
    forall j, k | 0 <= j < k < |c.log| && !Settles(c.log[j].status) ensures c.log[k].status.Waiting? {
      if !c.log[k].status.Waiting? { AllBeforeSettled(c, j, k); }
    }
  }

  /**
   * The guard of the socket machine is the chain's: whatever begins there could begin by the
   * guard; and a call the guard admits begins at once, or after the one reaction that is due on
   * the call before it, even when that call failed.
   */
  lemma GuardIsTheChain(es: seq<Event>, k: nat)
    ensures var c := Run(Fresh, es);
      && (Enabled(c, Begin(k)) ==> CanStart(c.log, k))
      && (CanStart(c.log, k) ==>
            Enabled(c, Begin(k)) || (k > 0 && Enabled(c, Release(k - 1)) && Enabled(Step(c, Release(k - 1)), Begin(k))))
  {
    RunKeepsLinked(Fresh, es);
  }

  // ---- the sockets run on the chain ----------------------------------------------------------

  lemma RunFirst(c: Chain, e: Event, rest: seq<Event>)
    ensures Run(c, [e] + rest) == Run(Step(c, e), rest)
  {
    assert ([e] + rest)[1..] == rest;
  }

  lemma RunOne(c: Chain, e: Event)
    ensures Run(c, [e]) == Step(c, e)
  {
    RunFirst(c, e, []);
    assert [e] + [] == [e];
  }

  lemma {:induction false} RunConcat(c: Chain, x: seq<Event>, y: seq<Event>)
    ensures Run(c, x + y) == Run(Run(c, x), y)
    decreases |x|
  {
    if x == [] {
      assert x + y == y;
    } else {
      assert (x + y)[1..] == x[1..] + y;
      RunConcat(Step(c, x[0]), x[1..], y);
    }
  }

  /** At most one host call is made where a log grows. */
  lemma GrowsOnChain(c: Chain, after: seq<Entry>, me: nat) returns (es: seq<Event>)
    requires Linked(c) && Grows(c.log, after, me)
    ensures Run(c, es).log == after && Linked(Run(c, es))
  {
    if after == c.log {
      es := [];
    } else {
      es := [HostCall(after[|c.log|].call)];
      RunOne(c, es[0]);
      assert after == c.log + [after[|c.log|]];
    }
    RunKeepsLinked(c, es);
  }

  /** What the guard admits begins on the chain. */
  lemma StartsOnChain(c: Chain, k: nat) returns (es: seq<Event>)
    requires Linked(c) && CanStart(c.log, k)
    ensures Run(c, es).log == c.log[k := c.log[k].(status := Running)] && Linked(Run(c, es))
  {
    if k == 0 || c.links[k - 1] {
      es := [Begin(k)];
      RunOne(c, Begin(k));
    } else {
      es := [Release(k - 1)] + [Begin(k)];
      RunFirst(c, Release(k - 1), [Begin(k)]);
      RunOne(Step(c, Release(k - 1)), Begin(k));
    }
    RunKeepsLinked(c, es);
  }

  lemma ReactsOnChain(c: Chain, n: Net, k: nat) returns (es: seq<Event>)
    requires Linked(c) && c.log == n.h.log && k < |n.h.log| && n.h.log[k].status.Settled?
    ensures Run(c, es).log == NetSocket.Step(n, React(k)).h.log && Linked(Run(c, es))
  {
    var i, reply := n.h.log[k].call.sock, n.h.log[k].status.reply;
    if i >= |n.socks| {
      es := [];
    } else {
      var l := Local(n.socks[i], SetStatus(n.h, k, Done(reply)));
      ReactGrows(l, i, k, n.h.log[k].call, reply);
      StepKeepsLinked(c, Reacts(k));
      var rest := GrowsOnChain(Step(c, Reacts(k)), NetSocket.Step(n, React(k)).h.log, i);
      es := [Reacts(k)] + rest;
      RunFirst(c, Reacts(k), rest);
    }
  }

  lemma StepOnChain(c: Chain, n: Net, a: Action) returns (es: seq<Event>)
    requires Linked(c) && c.log == n.h.log
    ensures Run(c, es).log == NetSocket.Step(n, a).h.log && Linked(Run(c, es))
  {
    es := [];
    match a {
      case Create(_) =>
      case Do(i, m) =>
        if i < |n.socks| && CanMove(n.socks[i], m) {
          MoveGrows(Local(n.socks[i], n.h), i, m);
          es := GrowsOnChain(c, NetSocket.Step(n, a).h.log, i);
        }
      case Start(k) => if CanStart(n.h.log, k) { es := StartsOnChain(c, k); }
      case Settle(k, reply) =>
        if CanSettle(n, k, reply) {
          es := [Reply(k, reply)];
          RunOne(c, Reply(k, reply));
          RunKeepsLinked(c, es);
        }
      case React(k) => if k < |n.h.log| && n.h.log[k].status.Settled? { es := ReactsOnChain(c, n, k); }
    }
  }

  /** Every run of the socket machine is a run of the promise chain: the same calls, in the same states. */
  lemma {:induction false} RunsOnChain(c: Chain, n: Net, run: seq<Action>) returns (es: seq<Event>)
    requires Linked(c) && c.log == n.h.log
    ensures Run(c, es).log == NetSocket.Run(n, run).h.log
    decreases |run|
  {
    if run == [] {
      es := [];
    } else {
      var first := StepOnChain(c, n, run[0]);
      var rest := RunsOnChain(Run(c, first), NetSocket.Step(n, run[0]), run[1..]);
      RunConcat(c, first, rest);
      es := first + rest;
    }
  }
}
