/**
 Synchronous rendezvous IPC as a value: thread control blocks, and per endpoint
 the queues of blocked senders and blocked receivers. Every operation is a
 function from the old state to the new state and a result, with the partial
 updates that its error paths leave behind. The class in Ipc.dfy is proved to
 compute exactly these functions with ring buffers.
 */
module IpcModel {
  import opened Common

  type Registers = r: seq<U64> | |r| == 4 witness [0, 0, 0, 0]

  datatype Message = Message(tag: U16, length: U8, registers: Registers, capabilitySlot: Option<U16>)

  const EMPTY_MESSAGE := Message(0, 0, [0, 0, 0, 0], None)

  datatype ThreadState =
    | Runnable
    | Sending(endpoint: nat)
    | Receiving(endpoint: nat)
    | ReplyBlocked(server: nat)

  datatype Thread = Thread(
    state: ThreadState, outgoing: Message, inbox: Option<Message>, isCall: bool, replyTarget: Option<nat>)

  const EMPTY_THREAD := Thread(Runnable, EMPTY_MESSAGE, None, false, None)

  datatype Outcome = Blocked | Delivered(peer: nat)

  datatype IpcError = BadThread | BadEndpoint | ThreadNotRunnable | QueueFull | NoReplyTarget

  type IpcResult = Result<Outcome, IpcError>

  /** Queues hold thread ids, oldest first. */
  datatype Ipc = Ipc(threads: seq<Thread>, senders: seq<seq<nat>>, receivers: seq<seq<nat>>)

  function New(threads: nat, endpoints: nat): Ipc {
    Ipc(seq(threads, _ => EMPTY_THREAD), seq(endpoints, _ => []), seq(endpoints, _ => []))
  }

  predicate InQueueRange(q: seq<nat>, n: nat) {
    forall i :: 0 <= i < |q| ==> q[i] < n
  }

  /** Every stored thread id is in range. */
  predicate WellFormed(s: Ipc) {
    && |s.senders| == |s.receivers|
    && (forall e :: 0 <= e < |s.senders| ==> InQueueRange(s.senders[e], |s.threads|))
    && (forall e :: 0 <= e < |s.receivers| ==> InQueueRange(s.receivers[e], |s.threads|))
    && (forall t :: 0 <= t < |s.threads| && s.threads[t].replyTarget.Some? ==>
          s.threads[t].replyTarget.value < |s.threads|)
  }

  function EnsureRunnable(threads: seq<Thread>, t: nat): Option<IpcError> {
    if t >= |threads| then Some(BadThread)
    else if threads[t].state != Runnable then Some(ThreadNotRunnable)
    else None
  }

  /** The queue a blocked thread joins, and whether there was room for it. */
  function Join(q: seq<nat>, t: nat, capacity: nat): (seq<nat>, IpcResult) {
    if |q| == capacity then (q, Err(QueueFull)) else (q + [t], Ok(Blocked))
  }

  /** `send` (isCall false) and `call` (isCall true). */
  function Offer(s: Ipc, t: nat, e: nat, m: Message, isCall: bool): (Ipc, IpcResult)
    requires WellFormed(s)
  {
    if EnsureRunnable(s.threads, t).Some? then (s, Err(EnsureRunnable(s.threads, t).value)) else
    var marked := s.threads[t := s.threads[t].(isCall := isCall)];
    if e >= |s.senders| then (s.(threads := marked), Err(BadEndpoint)) else
    if s.receivers[e] != [] then
      var r := s.receivers[e][0];
      (s.(threads := Handover(marked, t, r, m, isCall), receivers := s.receivers[e := s.receivers[e][1..]]),
       Ok(Delivered(r)))
    else
      var (q, result) := Join(s.senders[e], t, |s.threads|);
      (s.(threads := marked[t := marked[t].(outgoing := m, state := Sending(e))], senders := s.senders[e := q]),
       result)
  }

  /** The waiting receiver `r` gets `m` from `t`; a caller stays blocked until `r` replies. */
  function Handover(threads: seq<Thread>, t: nat, r: nat, m: Message, isCall: bool): (r': seq<Thread>)
    requires t < |threads| && r < |threads|
    ensures |r'| == |threads|
  {
    if isCall then
      var woken := threads[r := threads[r].(inbox := Some(m), replyTarget := Some(t), state := Runnable)];
      woken[t := woken[t].(state := ReplyBlocked(r))]
    else
      threads[r := threads[r].(inbox := Some(m), state := Runnable)]
  }

  function Receive(s: Ipc, r: nat, e: nat): (Ipc, IpcResult)
    requires WellFormed(s)
  {
    if EnsureRunnable(s.threads, r).Some? then (s, Err(EnsureRunnable(s.threads, r).value)) else
    if e >= |s.senders| then (s, Err(BadEndpoint)) else
    if s.senders[e] != [] then
      var t := s.senders[e][0];
      (s.(threads := Pickup(s.threads, t, r), senders := s.senders[e := s.senders[e][1..]]), Ok(Delivered(t)))
    else
      var (q, result) := Join(s.receivers[e], r, |s.threads|);
      (s.(threads := s.threads[r := s.threads[r].(state := Receiving(e))], receivers := s.receivers[e := q]),
       result)
  }

  /** The arriving receiver `r` takes the message kept by the blocked sender `t`. */
  function Pickup(threads: seq<Thread>, t: nat, r: nat): (r': seq<Thread>)
    requires t < |threads| && r < |threads|
    ensures |r'| == |threads|
  {
    var m := threads[t].outgoing;
    if threads[t].isCall then
      var parked := threads[t := threads[t].(state := ReplyBlocked(r))];
      parked[r := parked[r].(replyTarget := Some(t), inbox := Some(m))]
    else
      var freed := threads[t := threads[t].(state := Runnable)];
      freed[r := freed[r].(inbox := Some(m))]
  }

  function Reply(s: Ipc, server: nat, m: Message): (Ipc, IpcResult)
    requires WellFormed(s)
  {
    if EnsureRunnable(s.threads, server).Some? then (s, Err(EnsureRunnable(s.threads, server).value)) else
    if s.threads[server].replyTarget.None? then (s, Err(NoReplyTarget)) else
    var client := s.threads[server].replyTarget.value;
    var spent := s.threads[server := s.threads[server].(replyTarget := None)];
    if spent[client].state != ReplyBlocked(server) then (s.(threads := spent), Err(NoReplyTarget)) else
    (s.(threads := spent[client := spent[client].(inbox := Some(m), state := Runnable)]), Ok(Delivered(client)))
  }

  function TakeMessage(s: Ipc, t: nat): (Ipc, Option<Message>) {
    if t >= |s.threads| then (s, None)
    else (s.(threads := s.threads[t := s.threads[t].(inbox := None)]), s.threads[t].inbox)
  }

  // ---------------------------------------------------------------------
  // Runs
  // ---------------------------------------------------------------------

  datatype Op =
    | OpSend(thread: nat, endpoint: nat, message: Message)
    | OpCall(thread: nat, endpoint: nat, message: Message)
    | OpReceive(thread: nat, endpoint: nat)
    | OpReply(thread: nat, message: Message)
    | OpTake(thread: nat)

  datatype Answer = Answer(result: IpcResult) | Taken(message: Option<Message>)

  function Step(s: Ipc, op: Op): (Ipc, Answer)
    requires WellFormed(s)
  {
    match op
    case OpSend(t, e, m) => var (s', r) := Offer(s, t, e, m, false); (s', Answer(r))
    case OpCall(t, e, m) => var (s', r) := Offer(s, t, e, m, true); (s', Answer(r))
    case OpReceive(t, e) => var (s', r) := Receive(s, t, e); (s', Answer(r))
    case OpReply(t, m) => var (s', r) := Reply(s, t, m); (s', Answer(r))
    case OpTake(t) => var (s', m) := TakeMessage(s, t); (s', Taken(m))
  }

  lemma OfferWellFormed(s: Ipc, t: nat, e: nat, m: Message, isCall: bool)
    requires WellFormed(s)
    ensures WellFormed(Offer(s, t, e, m, isCall).0)
  {
  }

  lemma EnqueueWellFormed(s: Ipc, e: nat, t: nat)
    requires WellFormed(s) && e < |s.senders| && t < |s.threads|
    ensures WellFormed(s.(senders := s.senders[e := Join(s.senders[e], t, |s.threads|).0]))
    ensures WellFormed(s.(receivers := s.receivers[e := Join(s.receivers[e], t, |s.threads|).0]))
  {
  }

  lemma DequeueWellFormed(s: Ipc, e: nat)
    requires WellFormed(s) && e < |s.senders|
    ensures s.senders[e] != [] ==> WellFormed(s.(senders := s.senders[e := s.senders[e][1..]]))
    ensures s.receivers[e] != [] ==> WellFormed(s.(receivers := s.receivers[e := s.receivers[e][1..]]))
  {
  }

  lemma ReceiveWellFormed(s: Ipc, r: nat, e: nat)
    requires WellFormed(s)
    ensures WellFormed(Receive(s, r, e).0)
  {
  }

  /** Every operation keeps the numbers of threads and endpoints and the range of stored ids. */
  lemma StepWellFormed(s: Ipc, op: Op)
    requires WellFormed(s)
    ensures WellFormed(Step(s, op).0)
    ensures |Step(s, op).0.threads| == |s.threads| && |Step(s, op).0.senders| == |s.senders|
  {
    match op
    case OpSend(t, e, m) => OfferWellFormed(s, t, e, m, false);
    case OpCall(t, e, m) => OfferWellFormed(s, t, e, m, true);
    case OpReceive(t, e) => ReceiveWellFormed(s, t, e);
    case OpReply(t, m) =>
    case OpTake(t) =>
  }

  function Run(s: Ipc, ops: seq<Op>): (s': Ipc)
    requires WellFormed(s)
    ensures WellFormed(s') && |s'.threads| == |s.threads| && |s'.senders| == |s.senders|
  {
    if ops == [] then s else
    var before := Run(s, ops[..|ops| - 1]);
    StepWellFormed(before, ops[|ops| - 1]);
    Step(before, ops[|ops| - 1]).0
  }
}
