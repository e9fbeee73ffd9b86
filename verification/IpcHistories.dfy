/**
 Properties of whole IPC histories: first-in-first-out pairing of senders with
 receivers, and when exactly a caller can lose its reply.
 */
module IpcHistories {
  import opened Common
  import opened IpcModel
  import opened IpcTheorems

  // ---------------------------------------------------------------------
  // What an observer of the calls and their answers sees at each endpoint
  // ---------------------------------------------------------------------

  datatype Sent = Sent(thread: nat, message: Message)

  /** A rendezvous; `message` is what is found in the receiver's inbox right after it. */
  datatype Delivery = Delivery(sender: nat, receiver: nat, message: Option<Message>)

  datatype Log = Log(sent: seq<Sent>, received: seq<nat>, deliveries: seq<Delivery>)

  function Inbox(s: Ipc, t: nat): Option<Message> {
    if t < |s.threads| then s.threads[t].inbox else None
  }

  /** The log of endpoint `e` after `op` was answered and left the state `s'`. */
  function Observe(log: Log, e: nat, op: Op, answer: Answer, s': Ipc): Log {
    if !answer.Answer? || answer.result.Err? then log else
    match op
    case OpSend(t, d, m) => if d == e then ObserveOffer(log, t, m, answer.result.value, s') else log
    case OpCall(t, d, m) => if d == e then ObserveOffer(log, t, m, answer.result.value, s') else log
    case OpReceive(r, d) => if d == e then ObserveReceive(log, r, answer.result.value, s') else log
    case OpReply(_, _) => log
    case OpTake(_) => log
  }

  function ObserveOffer(log: Log, t: nat, m: Message, o: Outcome, s': Ipc): Log {
    var sent := log.(sent := log.sent + [Sent(t, m)]);
    if o.Blocked? then sent
    else sent.(deliveries := log.deliveries + [Delivery(t, o.peer, Inbox(s', o.peer))])
  }

  function ObserveReceive(log: Log, r: nat, o: Outcome, s': Ipc): Log {
    var received := log.(received := log.received + [r]);
    if o.Blocked? then received
    else received.(deliveries := log.deliveries + [Delivery(o.peer, r, Inbox(s', r))])
  }

  function LogOf(s: Ipc, ops: seq<Op>, e: nat): Log
    requires WellFormed(s)
  {
    if ops == [] then Log([], [], []) else
    var before, op := Run(s, ops[..|ops| - 1]), ops[|ops| - 1];
    Observe(LogOf(s, ops[..|ops| - 1], e), e, op, Step(before, op).1, Run(s, ops))
  }

  /** The first |deliveries| of each side are paired in order and with the right message. */
  ghost predicate PairedInOrder(log: Log) {
    && |log.deliveries| <= |log.sent| && |log.deliveries| <= |log.received|
    && (|log.deliveries| == |log.sent| || |log.deliveries| == |log.received|)
    && forall k :: 0 <= k < |log.deliveries| ==>
         log.deliveries[k] == Delivery(log.sent[k].thread, log.received[k], Some(log.sent[k].message))
  }

  /** The unpaired rest of each side is what the endpoint has queued, in order, messages kept by the senders. */
  ghost predicate RestQueued(s: Ipc, log: Log, e: nat)
    requires WellFormed(s) && e < |s.senders|
  {
    var n := |log.deliveries|;
    && n <= |log.sent| && n <= |log.received|
    && |s.senders[e]| == |log.sent| - n
    && (forall k :: 0 <= k < |s.senders[e]| ==>
          && s.senders[e][k] == log.sent[n + k].thread
          && s.threads[s.senders[e][k]].outgoing == log.sent[n + k].message)
    && s.receivers[e] == log.received[n..]
  }

  ghost predicate Fifo(s: Ipc, log: Log, e: nat)
    requires WellFormed(s) && e < |s.senders|
  {
    PairedInOrder(log) && RestQueued(s, log, e)
  }

  lemma QueuedIsSending(s: Ipc, e: nat, k: nat)
    requires QueuesCoherent(s) && e < |s.senders| && k < |s.senders[e]|
    ensures s.threads[s.senders[e][k]].state == Sending(e)
  {
    assert EndpointCoherent(s, e);
    assert s.senders[e][k] in s.senders[e];
  }

  /** An operation that leaves the queues of `e` and the messages kept by its senders alone. */
  lemma Unrelated(s: Ipc, s': Ipc, log: Log, e: nat)
    requires WellFormed(s) && WellFormed(s') && e < |s.senders| == |s'.senders| && Fifo(s, log, e)
    requires s'.senders[e] == s.senders[e] && s'.receivers[e] == s.receivers[e]
    requires |s'.threads| == |s.threads|
    requires forall k :: 0 <= k < |s.senders[e]| ==>
      s'.threads[s.senders[e][k]].outgoing == s.threads[s.senders[e][k]].outgoing
    ensures Fifo(s', log, e)
  {
  }

  lemma OfferFifo(s: Ipc, log: Log, t: nat, e: nat, m: Message, isCall: bool)
    requires Coherent(s) && e < |s.senders| && Fifo(s, log, e)
    requires Offer(s, t, e, m, isCall).1.Ok?
    ensures var (s', r) := Offer(s, t, e, m, isCall);
      WellFormed(s') && |s'.senders| == |s.senders| && Fifo(s', ObserveOffer(log, t, m, r.value, s'), e)
  {
    hide WaitsAcyclic, StatesInRange, RepliesSound;
    var (s', r) := Offer(s, t, e, m, isCall);
    OfferWellFormed(s, t, e, m, isCall);
    var log' := ObserveOffer(log, t, m, r.value, s');
    assert EndpointCoherent(s, e);
    if s.receivers[e] != [] {
      assert s.receivers[e][0] in s.receivers[e];
      assert log.received[|log.deliveries|] == s.receivers[e][0];
      assert log'.received[|log'.deliveries|..] == s.receivers[e][1..];
      assert PairedInOrder(log');
    } else {
      forall k | 0 <= k < |s.senders[e]| ensures s.senders[e][k] != t {
        QueuedIsSending(s, e, k);
      }
    }
  }

  lemma ReceiveFifo(s: Ipc, log: Log, r: nat, e: nat)
    requires Coherent(s) && e < |s.senders| && Fifo(s, log, e)
    requires Receive(s, r, e).1.Ok?
    ensures var (s', o) := Receive(s, r, e);
      WellFormed(s') && |s'.senders| == |s.senders| && Fifo(s', ObserveReceive(log, r, o.value, s'), e)
  {
    hide WaitsAcyclic, StatesInRange, RepliesSound;
    var (s', o) := Receive(s, r, e);
    ReceiveWellFormed(s, r, e);
    var log' := ObserveReceive(log, r, o.value, s');
    assert EndpointCoherent(s, e);
    if s.senders[e] != [] {
      QueuedIsSending(s, e, 0);
      assert log.sent[|log.deliveries|].thread == s.senders[e][0];
      assert log'.received[|log'.deliveries|..] == s.receivers[e];
      assert PairedInOrder(log');
    } else {
      assert log'.received[|log'.deliveries|..] == s.receivers[e] + [r];
    }
  }

  /** Operations on other endpoints, failing operations, replies and inbox reads do not disturb `e`. */
  lemma ElsewhereFifo(s: Ipc, log: Log, e: nat, op: Op)
    requires Coherent(s) && e < |s.senders| && Fifo(s, log, e)
    requires op.OpSend? || op.OpCall? || op.OpReceive? ==> op.endpoint != e || Step(s, op).1.result.Err?
    ensures WellFormed(Step(s, op).0) && |Step(s, op).0.senders| == |s.senders| && Fifo(Step(s, op).0, log, e)
  {
    var s' := Step(s, op).0;
    StepWellFormed(s, op);
    StepCoherent(s, op);
    ElsewhereQueues(s, e, op);
    forall k | 0 <= k < |s.senders[e]|
      ensures s'.threads[s.senders[e][k]].outgoing == s.threads[s.senders[e][k]].outgoing
    {
      hide Step;
      QueuedIsSending(s, e, k);
      OutgoingKept(s, op, s.senders[e][k]);
    }
    hide Step;
    Unrelated(s, s', log, e);
  }

  lemma ElsewhereQueues(s: Ipc, e: nat, op: Op)
    requires WellFormed(s) && e < |s.senders| && Step(s, op).1 != Answer(Err(QueueFull))
    requires op.OpSend? || op.OpCall? || op.OpReceive? ==> op.endpoint != e || Step(s, op).1.result.Err?
    ensures Step(s, op).0.senders[e] == s.senders[e] && Step(s, op).0.receivers[e] == s.receivers[e]
  {
  }

  /** A blocked sender's message stays where it is. */
  lemma OutgoingKept(s: Ipc, op: Op, t: nat)
    requires WellFormed(s) && t < |s.threads| && s.threads[t].state.Sending?
    ensures Step(s, op).0.threads[t].outgoing == s.threads[t].outgoing
  {
  }

  lemma StepFifo(s: Ipc, log: Log, e: nat, op: Op)
    requires Coherent(s) && e < |s.senders| && Fifo(s, log, e)
    ensures var (s', answer) := Step(s, op);
      WellFormed(s') && |s'.senders| == |s.senders| && Fifo(s', Observe(log, e, op, answer, s'), e)
  {
    var answer := Step(s, op).1;
    if op.OpSend? && op.endpoint == e && answer.result.Ok? {
      OfferFifo(s, log, op.thread, e, op.message, false);
    } else if op.OpCall? && op.endpoint == e && answer.result.Ok? {
      OfferFifo(s, log, op.thread, e, op.message, true);
    } else if op.OpReceive? && op.endpoint == e && answer.result.Ok? {
      ReceiveFifo(s, log, op.thread, e);
    } else {
      ElsewhereFifo(s, log, e, op);
    }
  }

  /**
   In every run, the k-th accepted send or call on an endpoint meets the k-th
   accepted receive on it and delivers exactly its message; the surplus side is
   what is queued.
   */
  lemma {:induction false} FifoPairing(threads: nat, endpoints: nat, ops: seq<Op>, e: nat)
    requires e < endpoints
    ensures Fifo(Run(New(threads, endpoints), ops), LogOf(New(threads, endpoints), ops, e), e)
  {
    if ops != [] {
      var s := New(threads, endpoints);
      FifoPairing(threads, endpoints, ops[..|ops| - 1], e);
      NewCoherent(threads, endpoints);
      RunCoherent(s, ops[..|ops| - 1]);
      StepFifo(Run(s, ops[..|ops| - 1]), LogOf(s, ops[..|ops| - 1], e), e, ops[|ops| - 1]);
    }
  }

  // ---------------------------------------------------------------------
  // Reply authority
  // ---------------------------------------------------------------------

  /** Caller `c` waits for server `v`, which no longer knows it. */
  predicate Orphan(threads: seq<Thread>, c: nat, v: nat) {
    c < |threads| && v < |threads| && threads[c].state == ReplyBlocked(v) && threads[v].replyTarget != Some(c)
  }

  /** Every waiting caller is the recorded reply target of its server. */
  ghost predicate AllNamed(threads: seq<Thread>) {
    forall c, v :: !Orphan(threads, c, v)
  }

  /** The call would be delivered to a thread that still owes a reply: checkable before the operation. */
  predicate Overwrites(s: Ipc, op: Op)
    requires WellFormed(s)
  {
    match op
    case OpCall(t, e, _) =>
      && EnsureRunnable(s.threads, t).None? && e < |s.receivers| && s.receivers[e] != []
      && s.threads[s.receivers[e][0]].replyTarget.Some?
    case OpReceive(r, e) =>
      && EnsureRunnable(s.threads, r).None? && e < |s.senders| && s.senders[e] != []
      && s.threads[s.senders[e][0]].isCall && s.threads[r].replyTarget.Some?
    case _ => false
  }

  /** One caller is named by one server only. */
  lemma NamedOnce(s: Ipc, v: nat, w: nat)
    requires Coherent(s) && v < |s.threads| && w < |s.threads|
    requires s.threads[v].replyTarget.Some? && s.threads[v].replyTarget == s.threads[w].replyTarget
    ensures v == w
  {
    assert s.threads[s.threads[v].replyTarget.value].state == ReplyBlocked(v);
  }

  lemma OfferOrphan(s: Ipc, t: nat, e: nat, m: Message, isCall: bool, c: nat, v: nat)
    requires Coherent(s) && Orphan(s.threads, c, v)
    ensures Orphan(Offer(s, t, e, m, isCall).0.threads, c, v)
  {
    if EnsureRunnable(s.threads, t).None? && e < |s.senders| && s.receivers[e] != [] {
      assert EndpointCoherent(s, e);
      assert s.receivers[e][0] in s.receivers[e];
    }
  }

  lemma ReceiveOrphan(s: Ipc, r: nat, e: nat, c: nat, v: nat)
    requires Coherent(s) && Orphan(s.threads, c, v)
    ensures Orphan(Receive(s, r, e).0.threads, c, v)
  {
    if EnsureRunnable(s.threads, r).None? && e < |s.senders| && s.senders[e] != [] {
      QueuedIsSending(s, e, 0);
    }
  }

  lemma StepOrphan(s: Ipc, op: Op, c: nat, v: nat)
    requires Coherent(s) && Orphan(s.threads, c, v)
    ensures Orphan(Step(s, op).0.threads, c, v)
  {
    match op
    case OpSend(t, e, m) => OfferOrphan(s, t, e, m, false, c, v);
    case OpCall(t, e, m) => OfferOrphan(s, t, e, m, true, c, v);
    case OpReceive(t, e) => ReceiveOrphan(s, t, e, c, v);
    case OpReply(t, m) =>
    case OpTake(t) =>
  }

  /** A caller whose server has forgotten it stays blocked in every continuation. */
  lemma {:induction false} OrphanForever(s: Ipc, ops: seq<Op>, c: nat, v: nat)
    requires Coherent(s) && Orphan(s.threads, c, v)
    ensures Orphan(Run(s, ops).threads, c, v)
  {
    if ops != [] {
      OrphanForever(s, ops[..|ops| - 1], c, v);
      RunCoherent(s, ops[..|ops| - 1]);
      StepOrphan(Run(s, ops[..|ops| - 1]), ops[|ops| - 1], c, v);
    }
  }

  lemma OfferNamed(s: Ipc, t: nat, e: nat, m: Message, isCall: bool)
    requires Coherent(s) && AllNamed(s.threads)
    requires isCall ==> !Overwrites(s, OpCall(t, e, m))
    ensures AllNamed(Offer(s, t, e, m, isCall).0.threads)
  {
    var s' := Offer(s, t, e, m, isCall).0;
    if EnsureRunnable(s.threads, t).None? && e < |s.senders| && s.receivers[e] != [] {
      assert EndpointCoherent(s, e);
      assert s.receivers[e][0] in s.receivers[e];
    }
    forall c, v ensures !Orphan(s'.threads, c, v) {
      assert !Orphan(s.threads, c, v);
    }
  }

  lemma ReceiveNamed(s: Ipc, r: nat, e: nat)
    requires Coherent(s) && AllNamed(s.threads) && !Overwrites(s, OpReceive(r, e))
    ensures AllNamed(Receive(s, r, e).0.threads)
  {
    var s' := Receive(s, r, e).0;
    if EnsureRunnable(s.threads, r).None? && e < |s.senders| && s.senders[e] != [] {
      QueuedIsSending(s, e, 0);
    }
    forall c, v ensures !Orphan(s'.threads, c, v) {
      assert !Orphan(s.threads, c, v);
    }
  }

  lemma ReplyNamed(s: Ipc, v: nat, m: Message)
    requires Coherent(s) && AllNamed(s.threads)
    ensures AllNamed(Reply(s, v, m).0.threads)
  {
    var s' := Reply(s, v, m).0;
    forall c, w ensures !Orphan(s'.threads, c, w) {
      assert !Orphan(s.threads, c, w);
    }
  }

  lemma OverwriteOrphans(s: Ipc, op: Op) returns (c: nat, v: nat)
    requires Coherent(s) && Overwrites(s, op)
    ensures Orphan(Step(s, op).0.threads, c, v)
  {
    if op.OpCall? {
      v := s.receivers[op.endpoint][0];
      assert EndpointCoherent(s, op.endpoint);
      assert v in s.receivers[op.endpoint];
    } else {
      v := op.thread;
      QueuedIsSending(s, op.endpoint, 0);
    }
    c := s.threads[v].replyTarget.value;
  }

  /** One operation: the callers stay named exactly when it does not overwrite a reply target. */
  lemma StepNamed(s: Ipc, op: Op)
    requires Coherent(s) && AllNamed(s.threads)
    ensures AllNamed(Step(s, op).0.threads) <==> !Overwrites(s, op)
  {
    if Overwrites(s, op) {
      var c, v := OverwriteOrphans(s, op);
    } else {
      match op
      case OpSend(t, e, m) => OfferNamed(s, t, e, m, false);
      case OpCall(t, e, m) => OfferNamed(s, t, e, m, true);
      case OpReceive(t, e) => ReceiveNamed(s, t, e);
      case OpReply(t, m) => ReplyNamed(s, t, m);
      case OpTake(t) =>
        forall c, v ensures !Orphan(Step(s, op).0.threads, c, v) {
          assert !Orphan(s.threads, c, v);
        }
    }
  }

  lemma RunUnfold(s: Ipc, ops: seq<Op>)
    requires WellFormed(s)
    ensures Run(s, ops) == if ops == [] then s else Step(Run(s, ops[..|ops| - 1]), ops[|ops| - 1]).0
  {
  }

  /**
   Over a whole run every waiting caller is still named by its server if and only
   if no call was ever delivered to a thread that owed a reply.
   */
  lemma {:induction false} NamedExactly(s: Ipc, ops: seq<Op>)
    requires Coherent(s) && AllNamed(s.threads)
    ensures AllNamed(Run(s, ops).threads) <==>
      forall k :: 0 <= k < |ops| ==> !Overwrites(Run(s, ops[..k]), ops[k])
  {
    hide Run, Step, Overwrites, Orphan, WaitsAcyclic, RepliesSound, StatesInRange, EndpointCoherent;
    RunUnfold(s, ops);
    if ops != [] {
      var before, op := ops[..|ops| - 1], ops[|ops| - 1];
      var mid := Run(s, before);
      NamedExactly(s, before);
      RunCoherent(s, before);
      forall k | 0 <= k < |before| ensures Run(s, before[..k]) == Run(s, ops[..k]) {
        assert before[..k] == ops[..k];
      }
      if AllNamed(mid.threads) {
        StepNamed(mid, op);
      } else {
        var c, v :| Orphan(mid.threads, c, v);
        StepOrphan(mid, op, c, v);
        var k :| 0 <= k < |before| && Overwrites(Run(s, before[..k]), before[k]);
        assert Overwrites(Run(s, ops[..k]), ops[k]);
      }
    }
  }

  /** Threads that are waiting to receive owe no reply. */
  ghost predicate ReceiversFree(threads: seq<Thread>) {
    forall t :: 0 <= t < |threads| && threads[t].state.Receiving? ==> threads[t].replyTarget.None?
  }

  /** The thread calling `receive` has answered its last caller. */
  predicate RepliesFirst(s: Ipc, op: Op) {
    op.OpReceive? && op.thread < |s.threads| ==> s.threads[op.thread].replyTarget.None?
  }

  lemma StepReceiversFree(s: Ipc, op: Op)
    requires Coherent(s) && ReceiversFree(s.threads) && RepliesFirst(s, op)
    ensures ReceiversFree(Step(s, op).0.threads) && !Overwrites(s, op)
  {
    hide WaitsAcyclic, StatesInRange, RepliesSound;
    if op.OpCall? && op.endpoint < |s.receivers| && s.receivers[op.endpoint] != [] {
      assert EndpointCoherent(s, op.endpoint);
      assert s.receivers[op.endpoint][0] in s.receivers[op.endpoint];
    }
  }

  /** Servers that reply before they receive again never lose a caller. */
  lemma {:induction false} RepliesFirstNamed(threads: nat, endpoints: nat, ops: seq<Op>)
    requires forall k :: 0 <= k < |ops| ==> RepliesFirst(Run(New(threads, endpoints), ops[..k]), ops[k])
    ensures var ts := Run(New(threads, endpoints), ops).threads; AllNamed(ts) && ReceiversFree(ts)
  {
    if ops != [] {
      var s, before, op := New(threads, endpoints), ops[..|ops| - 1], ops[|ops| - 1];
      assert forall k :: 0 <= k < |before| ==> before[..k] == ops[..k];
      RepliesFirstNamed(threads, endpoints, before);
      NewCoherent(threads, endpoints);
      RunCoherent(s, before);
      StepReceiversFree(Run(s, before), op);
      StepNamed(Run(s, before), op);
    }
  }

  /** Two callers, the first picked up by the server and the second queued behind it. */
  function Crowded(m: Message): Ipc {
    Ipc([Thread(ReplyBlocked(2), m, None, true, None),
         Thread(Sending(0), m, None, true, None),
         Thread(Runnable, EMPTY_MESSAGE, Some(m), false, Some(0))],
        [[1]], [[]])
  }

  lemma RunSnoc(s: Ipc, ops: seq<Op>, op: Op)
    requires WellFormed(s)
    ensures Run(s, ops + [op]) == Step(Run(s, ops), op).0
  {
    assert (ops + [op])[..|ops + [op]| - 1] == ops;
  }

  function FirstCalled(m: Message): Ipc {
    Ipc([Thread(Sending(0), m, None, true, None), EMPTY_THREAD, EMPTY_THREAD], [[0]], [[]])
  }

  function FirstServed(m: Message): Ipc {
    Ipc([Thread(ReplyBlocked(2), m, None, true, None), EMPTY_THREAD,
         Thread(Runnable, EMPTY_MESSAGE, Some(m), false, Some(0))], [[]], [[]])
  }

  lemma FirstCalls(m: Message)
    ensures Step(New(3, 1), OpCall(0, 0, m)).0 == FirstCalled(m)
  {
    var got, want := Offer(New(3, 1), 0, 0, m, true).0, FirstCalled(m);
    assert got.senders[0] == want.senders[0] && got.threads == want.threads;
    assert got.senders == want.senders && got.receivers == want.receivers;
  }

  lemma FirstIsServed(m: Message)
    ensures Step(FirstCalled(m), OpReceive(2, 0)).0 == FirstServed(m)
  {
    var got, want := Receive(FirstCalled(m), 2, 0).0, FirstServed(m);
    assert got.senders[0] == want.senders[0] && got.threads == want.threads;
    assert got.senders == want.senders && got.receivers == want.receivers;
  }

  lemma SecondCalls(m: Message)
    ensures Step(FirstServed(m), OpCall(1, 0, m)).0 == Crowded(m)
  {
    var got, want := Offer(FirstServed(m), 1, 0, m, true).0, Crowded(m);
    assert got.senders[0] == want.senders[0] && got.threads == want.threads;
    assert got.senders == want.senders && got.receivers == want.receivers;
  }

  lemma CrowdedReached(m: Message)
    ensures Run(New(3, 1), [OpCall(0, 0, m), OpReceive(2, 0), OpCall(1, 0, m)]) == Crowded(m)
  {
    hide Run, Step, FirstCalled, FirstServed, Crowded;
    var s0, a, b, c := New(3, 1), OpCall(0, 0, m), OpReceive(2, 0), OpCall(1, 0, m);
    RunUnfold(s0, []);
    RunSnoc(s0, [], a);
    RunSnoc(s0, [a], b);
    RunSnoc(s0, [a, b], c);
    assert [] + [a] == [a] && [a] + [b] == [a, b] && [a, b] + [c] == [a, b, c];
    FirstCalls(m);
    FirstIsServed(m);
    SecondCalls(m);
  }

  /** A server that receives a second call before replying forgets its first caller, which then waits for ever. */
  lemma SecondCallForgetsFirst(m: Message, later: seq<Op>)
    ensures var s := Run(New(3, 1), [OpCall(0, 0, m), OpReceive(2, 0), OpCall(1, 0, m), OpReceive(2, 0)]);
      Orphan(s.threads, 0, 2) && Orphan(Run(s, later).threads, 0, 2)
  {
    var first, last := [OpCall(0, 0, m), OpReceive(2, 0), OpCall(1, 0, m)], OpReceive(2, 0);
    NewCoherent(3, 1);
    RunCoherent(New(3, 1), first + [last]);
    CrowdedReached(m);
    RunSnoc(New(3, 1), first, last);
    assert first + [last] == [OpCall(0, 0, m), OpReceive(2, 0), OpCall(1, 0, m), OpReceive(2, 0)];
    assert Orphan(Receive(Crowded(m), 2, 0).0.threads, 0, 2);
    OrphanForever(Run(New(3, 1), first + [last]), later, 0, 2);
  }

  // ---------------------------------------------------------------------
  // The ledger of replies
  // ---------------------------------------------------------------------

  /** The operation hands a call to server `v`. */
  predicate HandsCallTo(s: Ipc, op: Op, v: nat)
    requires WellFormed(s)
  {
    match op
    case OpCall(t, e, _) => Step(s, op).1 == Answer(Ok(Delivered(v)))
    case OpReceive(r, e) => r == v && PicksUpCall(s, r, e)
    case _ => false
  }

  predicate Replies(s: Ipc, op: Op, v: nat)
    requires WellFormed(s)
  {
    op.OpReply? && op.thread == v && Step(s, op).1.result.Ok?
  }

  predicate Owes(s: Ipc, v: nat) {
    v < |s.threads| && s.threads[v].replyTarget.Some?
  }

  function CallsTo(s: Ipc, ops: seq<Op>, v: nat): nat
    requires WellFormed(s)
  {
    if ops == [] then 0 else
    CallsTo(s, ops[..|ops| - 1], v) + Bit(HandsCallTo(Run(s, ops[..|ops| - 1]), ops[|ops| - 1], v))
  }

  function RepliesBy(s: Ipc, ops: seq<Op>, v: nat): nat
    requires WellFormed(s)
  {
    if ops == [] then 0 else
    RepliesBy(s, ops[..|ops| - 1], v) + Bit(Replies(Run(s, ops[..|ops| - 1]), ops[|ops| - 1], v))
  }

  /** Calls handed to `v` while it still owed a reply. */
  function LostBy(s: Ipc, ops: seq<Op>, v: nat): nat
    requires WellFormed(s)
  {
    if ops == [] then 0 else
    var mid := Run(s, ops[..|ops| - 1]);
    LostBy(s, ops[..|ops| - 1], v) + Bit(HandsCallTo(mid, ops[|ops| - 1], v) && Owes(mid, v))
  }

  /** What a send or call does to the reply target of `v`. */
  lemma OfferTarget(s: Ipc, t: nat, e: nat, m: Message, isCall: bool, v: nat)
    requires Coherent(s) && v < |s.threads|
    ensures Offer(s, t, e, m, isCall).0.threads[v].replyTarget ==
      if isCall && Offer(s, t, e, m, isCall).1 == Ok(Delivered(v)) then Some(t) else s.threads[v].replyTarget
  {
    hide WaitsAcyclic, StatesInRange, RepliesSound;
    if EnsureRunnable(s.threads, t).None? && e < |s.senders| && s.receivers[e] != [] {
      assert EndpointCoherent(s, e);
      assert s.receivers[e][0] in s.receivers[e];
    }
  }

  predicate PicksUpCall(s: Ipc, r: nat, e: nat)
    requires WellFormed(s)
  {
    && Receive(s, r, e).1.Ok? && Receive(s, r, e).1.value.Delivered?
    && s.threads[s.senders[e][0]].isCall
  }

  /** What a receive does to the reply target of `v`. */
  lemma ReceiveTarget(s: Ipc, r: nat, e: nat, v: nat)
    requires Coherent(s) && v < |s.threads|
    ensures Receive(s, r, e).0.threads[v].replyTarget ==
      if v == r && PicksUpCall(s, r, e) then Some(s.senders[e][0]) else s.threads[v].replyTarget
  {
    hide WaitsAcyclic, StatesInRange, RepliesSound;
    if EnsureRunnable(s.threads, r).None? && e < |s.senders| && s.senders[e] != [] {
      QueuedIsSending(s, e, 0);
    }
  }

  /** What a reply does to the reply target of `v`. */
  lemma ReplyTarget(s: Ipc, server: nat, m: Message, v: nat)
    requires Coherent(s) && v < |s.threads|
    ensures Reply(s, server, m).0.threads[v].replyTarget ==
      if v == server && Reply(s, server, m).1.Ok? then None else s.threads[v].replyTarget
    ensures Reply(s, server, m).1.Ok? ==> Owes(s, server)
  {
    hide WaitsAcyclic, StatesInRange, EndpointCoherent;
    ReplyCoherent(s, server, m);
  }

  /** A hand-over records its caller, a reply spends the target, and nothing else touches it. */
  lemma StepTarget(s: Ipc, op: Op, v: nat)
    requires Coherent(s) && v < |s.threads|
    ensures |Step(s, op).0.threads| == |s.threads|
    ensures Step(s, op).0.threads[v].replyTarget ==
      if HandsCallTo(s, op, v) then Some(CallerOf(s, op))
      else if Replies(s, op, v) then None
      else s.threads[v].replyTarget
    ensures Replies(s, op, v) ==> Owes(s, v) && !HandsCallTo(s, op, v)
  {
    hide WaitsAcyclic, StatesInRange, RepliesSound, EndpointCoherent, Offer, Receive, Reply;
    StepWellFormed(s, op);
    match op
    case OpSend(t, e, m) => OfferTarget(s, t, e, m, false, v);
    case OpCall(t, e, m) => OfferTarget(s, t, e, m, true, v);
    case OpReceive(r, e) =>
      ReceiveTarget(s, r, e, v);
      PickUpMeansQueued(s, r, e);
    case OpReply(t, m) => ReplyTarget(s, t, m, v);
    case OpTake(_) =>
  }

  lemma PickUpMeansQueued(s: Ipc, r: nat, e: nat)
    requires WellFormed(s)
    ensures Receive(s, r, e).1.Ok? && Receive(s, r, e).1.value.Delivered? ==> e < |s.senders| && s.senders[e] != []
  {
  }

  lemma StepLedger(s: Ipc, op: Op, v: nat)
    requires Coherent(s) && v < |s.threads|
    ensures Bit(Owes(Step(s, op).0, v)) + Bit(Replies(s, op, v)) + Bit(HandsCallTo(s, op, v) && Owes(s, v)) ==
      Bit(Owes(s, v)) + Bit(HandsCallTo(s, op, v))
  {
    hide Step, HandsCallTo, Replies;
    StepTarget(s, op, v);
  }

  /**
   Every call handed to a server is answered by it, still owed by it, or lost by
   the hand-over of a later call: nothing else can happen to it.
   */
  lemma {:induction false} ReplyLedger(threads: nat, endpoints: nat, ops: seq<Op>, v: nat)
    requires v < threads
    ensures var s0 := New(threads, endpoints);
      CallsTo(s0, ops, v) == RepliesBy(s0, ops, v) + LostBy(s0, ops, v) + Bit(Owes(Run(s0, ops), v))
  {
    hide Step, HandsCallTo, Replies;
    if ops != [] {
      var s0 := New(threads, endpoints);
      ReplyLedger(threads, endpoints, ops[..|ops| - 1], v);
      NewCoherent(threads, endpoints);
      RunCoherent(s0, ops[..|ops| - 1]);
      StepLedger(Run(s0, ops[..|ops| - 1]), ops[|ops| - 1], v);
    }
  }

  // ---------------------------------------------------------------------
  // Replies go to the last caller
  // ---------------------------------------------------------------------

  /** Who made the call that `op` hands over. */
  function CallerOf(s: Ipc, op: Op): nat
    requires WellFormed(s)
  {
    match op
    case OpReceive(r, e) => if e < |s.senders| && s.senders[e] != [] then s.senders[e][0] else 0
    case _ => op.thread
  }

  /** The caller of the last call handed to `v` in the run. */
  function LastCaller(s: Ipc, ops: seq<Op>, v: nat): Option<nat>
    requires WellFormed(s)
  {
    if ops == [] then None else
    var mid, op := Run(s, ops[..|ops| - 1]), ops[|ops| - 1];
    if HandsCallTo(mid, op, v) then Some(CallerOf(mid, op)) else LastCaller(s, ops[..|ops| - 1], v)
  }

  lemma {:induction false} TargetIsLastCaller(threads: nat, endpoints: nat, ops: seq<Op>, v: nat)
    requires v < threads
    ensures var s := Run(New(threads, endpoints), ops);
      Owes(s, v) ==> s.threads[v].replyTarget == LastCaller(New(threads, endpoints), ops, v)
  {
    hide Step, HandsCallTo, CallerOf, Replies;
    if ops != [] {
      var s0 := New(threads, endpoints);
      TargetIsLastCaller(threads, endpoints, ops[..|ops| - 1], v);
      NewCoherent(threads, endpoints);
      RunCoherent(s0, ops[..|ops| - 1]);
      StepTarget(Run(s0, ops[..|ops| - 1]), ops[|ops| - 1], v);
    }
  }

  lemma ReplyReachesTarget(s: Ipc, v: nat, m: Message)
    requires Coherent(s) && Reply(s, v, m).1.Ok?
    ensures Owes(s, v)
    ensures var c := s.threads[v].replyTarget.value;
      && c < |s.threads| && s.threads[c].state == ReplyBlocked(v)
      && Reply(s, v, m).1 == Ok(Delivered(c))
      && Reply(s, v, m).0.threads[c].inbox == Some(m) && Reply(s, v, m).0.threads[c].state == Runnable
  {
  }

  /**
   In every run a successful reply wakes exactly the caller of the last call
   handed to the server, and leaves it the reply.
   */
  lemma ReplyGoesToLastCaller(threads: nat, endpoints: nat, ops: seq<Op>, v: nat, m: Message)
    requires v < threads
    ensures var s0 := New(threads, endpoints);
      var s := Run(s0, ops);
      Reply(s, v, m).1.Ok? ==>
        var c := LastCaller(s0, ops, v);
        && c.Some? && c.value < threads
        && s.threads[c.value].state == ReplyBlocked(v)
        && Reply(s, v, m).1 == Ok(Delivered(c.value))
        && Reply(s, v, m).0.threads[c.value] == s.threads[c.value].(inbox := Some(m), state := Runnable)
  {
    var s := Run(New(threads, endpoints), ops);
    NewCoherent(threads, endpoints);
    RunCoherent(New(threads, endpoints), ops);
    TargetIsLastCaller(threads, endpoints, ops, v);
    hide Run, LastCaller;
    if Reply(s, v, m).1.Ok? {
      ReplyReachesTarget(s, v, m);
    }
  }
}
