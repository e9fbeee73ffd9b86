/**
 What every run of the IPC operations guarantees: thread states and queues agree,
 no queue overflows, reply authority is sound, and threads never wait on one
 another's replies in a circle.
 */
module IpcTheorems {
  import opened Common
  import opened IpcModel

  // ---------------------------------------------------------------------
  // Queues and thread states agree
  // ---------------------------------------------------------------------

  /** The queue lists exactly the threads in state `st`, each once. */
  ghost predicate Lists(threads: seq<Thread>, q: seq<nat>, st: ThreadState) {
    && Distinct(q)
    && InQueueRange(q, |threads|)
    && forall t :: 0 <= t < |threads| ==> (t in q <==> threads[t].state == st)
  }

  /** Endpoint `e`: both queues list their threads, and one of them is empty. */
  ghost predicate EndpointCoherent(s: Ipc, e: nat)
    requires e < |s.senders| == |s.receivers|
  {
    && Lists(s.threads, s.senders[e], Sending(e))
    && Lists(s.threads, s.receivers[e], Receiving(e))
    && (s.senders[e] == [] || s.receivers[e] == [])
  }

  ghost predicate StatesInRange(s: Ipc) {
    forall t :: 0 <= t < |s.threads| ==>
      match s.threads[t].state
      case Runnable => true
      case Sending(e) => e < |s.senders|
      case Receiving(e) => e < |s.senders|
      case ReplyBlocked(server) => server < |s.threads|
  }

  /** A recorded reply target is blocked waiting for exactly this server. */
  ghost predicate RepliesSound(threads: seq<Thread>) {
    forall v :: 0 <= v < |threads| && threads[v].replyTarget.Some? ==>
      threads[v].replyTarget.value < |threads| && threads[threads[v].replyTarget.value].state == ReplyBlocked(v)
  }

  /** Waiting goes strictly down in `rank`. */
  ghost predicate WaitRanked(threads: seq<Thread>, rank: seq<int>) {
    && |rank| == |threads|
    && forall c :: 0 <= c < |threads| && threads[c].state.ReplyBlocked? ==>
         threads[c].state.server < |threads| && rank[threads[c].state.server] < rank[c]
  }

  ghost predicate WaitsAcyclic(threads: seq<Thread>) {
    exists rank :: WaitRanked(threads, rank)
  }

  ghost predicate QueuesCoherent(s: Ipc) {
    && WellFormed(s)
    && (forall e :: 0 <= e < |s.senders| ==> EndpointCoherent(s, e))
    && StatesInRange(s)
  }

  ghost predicate Coherent(s: Ipc) {
    && QueuesCoherent(s)
    && RepliesSound(s.threads)
    && WaitsAcyclic(s.threads)
  }

  lemma NewCoherent(threads: nat, endpoints: nat)
    ensures Coherent(New(threads, endpoints))
  {
    var s := New(threads, endpoints);
    assert WaitRanked(s.threads, seq(threads, _ => 0));
  }

  lemma ListsSame(a: seq<Thread>, b: seq<Thread>, q: seq<nat>, st: ThreadState)
    requires Lists(a, q, st) && |b| == |a|
    requires forall t :: 0 <= t < |a| ==> (a[t].state == st <==> b[t].state == st)
    ensures Lists(b, q, st)
  {
  }

  lemma ListsPush(a: seq<Thread>, b: seq<Thread>, q: seq<nat>, st: ThreadState, t: nat)
    requires Lists(a, q, st) && |b| == |a| && t < |a|
    requires a[t].state != st && b[t].state == st
    requires forall u :: 0 <= u < |a| && u != t ==> (a[u].state == st <==> b[u].state == st)
    ensures Lists(b, q + [t], st)
  {
  }

  lemma ListsPop(a: seq<Thread>, b: seq<Thread>, q: seq<nat>, st: ThreadState)
    requires Lists(a, q, st) && |b| == |a| && q != []
    requires b[q[0]].state != st
    requires forall u :: 0 <= u < |a| && u != q[0] ==> (a[u].state == st <==> b[u].state == st)
    ensures Lists(b, q[1..], st)
  {
    assert q == [q[0]] + q[1..];
  }

  lemma {:induction false} DistinctSize(q: seq<nat>, n: nat)
    requires Distinct(q) && InQueueRange(q, n)
    ensures |q| <= n
  {
    var members := set i | 0 <= i < |q| :: q[i];
    DistinctSetSize(q);
    BoundedIndices(members, n);
  }

  lemma {:induction false} DistinctSetSize(q: seq<nat>)
    requires Distinct(q)
    ensures |(set i | 0 <= i < |q| :: q[i])| == |q|
  {
    if q != [] {
      var rest := q[..|q| - 1];
      DistinctSetSize(rest);
      assert (set i | 0 <= i < |q| :: q[i]) == (set i | 0 <= i < |rest| :: rest[i]) + {q[|q| - 1]};
    }
  }

  /** A thread outside the queue leaves room for itself: `QueueFull` cannot happen. */
  lemma RoomToJoin(threads: seq<Thread>, q: seq<nat>, st: ThreadState, t: nat)
    requires Lists(threads, q, st) && t < |threads| && threads[t].state != st
    ensures |q| < |threads|
  {
    DistinctSize(q + [t], |threads|);
  }

  // ---------------------------------------------------------------------
  // Preservation of the queue part
  // ---------------------------------------------------------------------

  /** No state changes: nothing about queues changes. */
  lemma SameStates(s: Ipc, s': Ipc)
    requires QueuesCoherent(s) && WellFormed(s')
    requires s'.senders == s.senders && s'.receivers == s.receivers && |s'.threads| == |s.threads|
    requires forall t :: 0 <= t < |s.threads| ==> s'.threads[t].state == s.threads[t].state
    ensures QueuesCoherent(s')
  {
    forall e | 0 <= e < |s'.senders| ensures EndpointCoherent(s', e) {
      assert EndpointCoherent(s, e);
      ListsSame(s.threads, s'.threads, s.senders[e], Sending(e));
      ListsSame(s.threads, s'.threads, s.receivers[e], Receiving(e));
    }
  }

  /** Thread `t`, blocked in no queue, becomes runnable. */
  lemma UnqueuedStates(s: Ipc, s': Ipc, t: nat)
    requires QueuesCoherent(s) && WellFormed(s')
    requires s'.senders == s.senders && s'.receivers == s.receivers && |s'.threads| == |s.threads|
    requires t < |s.threads| && Unqueued(s.threads[t].state) && s'.threads[t].state == Runnable
    requires forall u :: 0 <= u < |s.threads| && u != t ==> s'.threads[u].state == s.threads[u].state
    ensures QueuesCoherent(s')
  {
    forall e | 0 <= e < |s'.senders| ensures EndpointCoherent(s', e) {
      assert EndpointCoherent(s, e);
      ListsSame(s.threads, s'.threads, s.senders[e], Sending(e));
      ListsSame(s.threads, s'.threads, s.receivers[e], Receiving(e));
    }
  }

  predicate Unqueued(st: ThreadState) {
    st.Runnable? || st.ReplyBlocked?
  }

  /** The runnable thread `t` joins a queue of endpoint `e`. */
  lemma JoinQueue(s: Ipc, s': Ipc, t: nat, e: nat, sending: bool)
    requires QueuesCoherent(s) && WellFormed(s')
    requires t < |s.threads| == |s'.threads| && e < |s.senders| && s.threads[t].state == Runnable
    requires s'.threads[t].state == if sending then Sending(e) else Receiving(e)
    requires forall u :: 0 <= u < |s.threads| && u != t ==> s'.threads[u].state == s.threads[u].state
    requires sending ==>
      s.receivers[e] == [] && s'.senders == s.senders[e := s.senders[e] + [t]] && s'.receivers == s.receivers
    requires !sending ==>
      s.senders[e] == [] && s'.receivers == s.receivers[e := s.receivers[e] + [t]] && s'.senders == s.senders
    ensures QueuesCoherent(s')
  {
    forall d | 0 <= d < |s'.senders| ensures EndpointCoherent(s', d) {
      assert EndpointCoherent(s, d);
      if d == e && sending {
        ListsPush(s.threads, s'.threads, s.senders[e], Sending(e), t);
      } else {
        ListsSame(s.threads, s'.threads, s.senders[d], Sending(d));
      }
      if d == e && !sending {
        ListsPush(s.threads, s'.threads, s.receivers[e], Receiving(e), t);
      } else {
        ListsSame(s.threads, s'.threads, s.receivers[d], Receiving(d));
      }
    }
  }

  /** The head of a queue of endpoint `e` leaves it and its partner `t` stays out of the queues. */
  lemma LeaveQueue(s: Ipc, s': Ipc, t: nat, e: nat, sending: bool)
    requires QueuesCoherent(s) && WellFormed(s')
    requires t < |s.threads| == |s'.threads| && e < |s.senders| && s.threads[t].state == Runnable
    requires Unqueued(s'.threads[t].state)
    requires sending ==>
      s.senders[e] != [] && s'.senders == s.senders[e := s.senders[e][1..]] && s'.receivers == s.receivers
    requires !sending ==>
      s.receivers[e] != [] && s'.receivers == s.receivers[e := s.receivers[e][1..]] && s'.senders == s.senders
    requires var h := (if sending then s.senders[e] else s.receivers[e])[0];
      && Unqueued(s'.threads[h].state)
      && forall u :: 0 <= u < |s.threads| && u != t && u != h ==> s'.threads[u].state == s.threads[u].state
    requires StatesInRange(s')
    ensures QueuesCoherent(s')
  {
    var h := (if sending then s.senders[e] else s.receivers[e])[0];
    assert EndpointCoherent(s, e);
    assert h in (if sending then s.senders[e] else s.receivers[e]);
    assert s.threads[h].state == if sending then Sending(e) else Receiving(e);
    forall d | 0 <= d < |s'.senders| ensures EndpointCoherent(s', d) {
      assert EndpointCoherent(s, d);
      if d == e && sending {
        ListsPop(s.threads, s'.threads, s.senders[e], Sending(e));
      } else {
        ListsSame(s.threads, s'.threads, s.senders[d], Sending(d));
      }
      if d == e && !sending {
        ListsPop(s.threads, s'.threads, s.receivers[e], Receiving(e));
      } else {
        ListsSame(s.threads, s'.threads, s.receivers[d], Receiving(d));
      }
    }
  }

  // ---------------------------------------------------------------------
  // Preservation of the waiting graph
  // ---------------------------------------------------------------------

  /** No new waiting thread. */
  lemma WaitsShrink(a: seq<Thread>, b: seq<Thread>)
    requires WaitsAcyclic(a) && |b| == |a|
    requires forall c :: 0 <= c < |b| && b[c].state.ReplyBlocked? ==> a[c].state == b[c].state
    ensures WaitsAcyclic(b)
  {
    var rank :| WaitRanked(a, rank);
    assert WaitRanked(b, rank);
  }

  ghost function Beneath(rank: seq<int>): (low: int)
    ensures forall i :: 0 <= i < |rank| ==> low < rank[i]
  {
    if rank == [] then 0 else
    var rest := Beneath(rank[..|rank| - 1]);
    if rest < rank[|rank| - 1] then rest else rank[|rank| - 1] - 1
  }

  /** A new edge from `c` to a server that itself waits for nobody closes no circle. */
  lemma WaitsAdd(a: seq<Thread>, b: seq<Thread>, c: nat, server: nat)
    requires WaitsAcyclic(a) && |b| == |a| && c < |a| && server < |a| && c != server
    requires b[c].state == ReplyBlocked(server) && !b[server].state.ReplyBlocked?
    requires forall d :: 0 <= d < |b| && d != c && b[d].state.ReplyBlocked? ==> a[d].state == b[d].state
    ensures WaitsAcyclic(b)
  {
    var rank :| WaitRanked(a, rank);
    assert WaitRanked(b, rank[server := Beneath(rank)]);
  }

  // ---------------------------------------------------------------------
  // Every operation keeps coherence
  // ---------------------------------------------------------------------

  /** A send or call that finds a waiting receiver. */
  lemma OfferDelivers(s: Ipc, t: nat, e: nat, m: Message, isCall: bool)
    requires Coherent(s) && EnsureRunnable(s.threads, t).None? && e < |s.senders| && s.receivers[e] != []
    ensures Coherent(Offer(s, t, e, m, isCall).0) && s.receivers[e][0] != t
  {
    var s' := Offer(s, t, e, m, isCall).0;
    var r := s.receivers[e][0];
    OfferWellFormed(s, t, e, m, isCall);
    assert EndpointCoherent(s, e);
    assert r in s.receivers[e];
    hide EndpointCoherent, Lists;
    LeaveQueue(s, s', t, e, false);
    if isCall {
      WaitsAdd(s.threads, s'.threads, t, r);
    } else {
      WaitsShrink(s.threads, s'.threads);
    }
  }

  /** A send or call that has to wait. */
  lemma OfferBlocks(s: Ipc, t: nat, e: nat, m: Message, isCall: bool)
    requires Coherent(s) && EnsureRunnable(s.threads, t).None? && e < |s.senders| && s.receivers[e] == []
    ensures Coherent(Offer(s, t, e, m, isCall).0) && Offer(s, t, e, m, isCall).1 == Ok(Blocked)
  {
    var s' := Offer(s, t, e, m, isCall).0;
    OfferWellFormed(s, t, e, m, isCall);
    assert EndpointCoherent(s, e);
    RoomToJoin(s.threads, s.senders[e], Sending(e), t);
    hide EndpointCoherent, Lists;
    JoinQueue(s, s', t, e, true);
    WaitsShrink(s.threads, s'.threads);
  }

  lemma OfferCoherent(s: Ipc, t: nat, e: nat, m: Message, isCall: bool)
    requires Coherent(s)
    ensures Coherent(Offer(s, t, e, m, isCall).0)
    ensures Offer(s, t, e, m, isCall).1 != Err(QueueFull)
    ensures Offer(s, t, e, m, isCall).1 != Ok(Delivered(t))
  {
    hide EndpointCoherent, Lists;
    if EnsureRunnable(s.threads, t).None? {
      if e >= |s.senders| {
        SameStates(s, Offer(s, t, e, m, isCall).0);
        WaitsShrink(s.threads, Offer(s, t, e, m, isCall).0.threads);
      } else if s.receivers[e] != [] {
        OfferDelivers(s, t, e, m, isCall);
      } else {
        OfferBlocks(s, t, e, m, isCall);
      }
    }
  }

  /** A receive that finds a waiting sender. */
  lemma ReceiveDelivers(s: Ipc, r: nat, e: nat)
    requires Coherent(s) && EnsureRunnable(s.threads, r).None? && e < |s.senders| && s.senders[e] != []
    ensures Coherent(Receive(s, r, e).0) && s.senders[e][0] != r
  {
    var s' := Receive(s, r, e).0;
    var t := s.senders[e][0];
    ReceiveWellFormed(s, r, e);
    assert EndpointCoherent(s, e);
    assert t in s.senders[e];
    hide EndpointCoherent, Lists;
    LeaveQueue(s, s', r, e, true);
    if s.threads[t].isCall {
      WaitsAdd(s.threads, s'.threads, t, r);
    } else {
      WaitsShrink(s.threads, s'.threads);
    }
  }

  /** A receive that has to wait. */
  lemma ReceiveBlocks(s: Ipc, r: nat, e: nat)
    requires Coherent(s) && EnsureRunnable(s.threads, r).None? && e < |s.senders| && s.senders[e] == []
    ensures Coherent(Receive(s, r, e).0) && Receive(s, r, e).1 == Ok(Blocked)
  {
    var s' := Receive(s, r, e).0;
    ReceiveWellFormed(s, r, e);
    assert EndpointCoherent(s, e);
    RoomToJoin(s.threads, s.receivers[e], Receiving(e), r);
    hide EndpointCoherent, Lists;
    JoinQueue(s, s', r, e, false);
    WaitsShrink(s.threads, s'.threads);
  }

  lemma ReceiveCoherent(s: Ipc, r: nat, e: nat)
    requires Coherent(s)
    ensures Coherent(Receive(s, r, e).0)
    ensures Receive(s, r, e).1 != Err(QueueFull)
    ensures Receive(s, r, e).1 != Ok(Delivered(r))
  {
    hide EndpointCoherent, Lists;
    if EnsureRunnable(s.threads, r).None? && e < |s.senders| {
      if s.senders[e] != [] {
        ReceiveDelivers(s, r, e);
      } else {
        ReceiveBlocks(s, r, e);
      }
    }
  }

  /** The second check of `reply` never fails: a recorded target is always still waiting. */
  lemma ReplyCoherent(s: Ipc, server: nat, m: Message)
    requires Coherent(s)
    ensures Coherent(Reply(s, server, m).0)
    ensures Reply(s, server, m).1.Ok? <==>
      EnsureRunnable(s.threads, server).None? && s.threads[server].replyTarget.Some?
    ensures Reply(s, server, m).1 != Ok(Delivered(server))
  {
    var (s', result) := Reply(s, server, m);
    if EnsureRunnable(s.threads, server).None? && s.threads[server].replyTarget.Some? {
      UnqueuedStates(s, s', s.threads[server].replyTarget.value);
      WaitsShrink(s.threads, s'.threads);
    }
  }

  lemma TakeCoherent(s: Ipc, t: nat)
    requires Coherent(s)
    ensures Coherent(TakeMessage(s, t).0)
  {
    SameStates(s, TakeMessage(s, t).0);
    WaitsShrink(s.threads, TakeMessage(s, t).0.threads);
  }

  lemma StepCoherent(s: Ipc, op: Op)
    requires Coherent(s)
    ensures Coherent(Step(s, op).0)
    ensures Step(s, op).1 != Answer(Err(QueueFull))
    ensures Step(s, op).1 != Answer(Ok(Delivered(op.thread)))
  {
    match op
    case OpSend(t, e, m) => OfferCoherent(s, t, e, m, false);
    case OpCall(t, e, m) => OfferCoherent(s, t, e, m, true);
    case OpReceive(t, e) => ReceiveCoherent(s, t, e);
    case OpReply(t, m) => ReplyCoherent(s, t, m);
    case OpTake(t) => TakeCoherent(s, t);
  }

  /** Coherence of every reachable state. */
  lemma {:induction false} RunCoherent(s: Ipc, ops: seq<Op>)
    requires Coherent(s)
    ensures Coherent(Run(s, ops))
  {
    if ops != [] {
      RunCoherent(s, ops[..|ops| - 1]);
      StepCoherent(Run(s, ops[..|ops| - 1]), ops[|ops| - 1]);
    }
  }

  /** No run from the start ever reports a full queue or pairs a thread with itself. */
  lemma NeverQueueFull(threads: nat, endpoints: nat, ops: seq<Op>, op: Op)
    ensures var s := Run(New(threads, endpoints), ops);
      && Step(s, op).1 != Answer(Err(QueueFull))
      && Step(s, op).1 != Answer(Ok(Delivered(op.thread)))
  {
    NewCoherent(threads, endpoints);
    RunCoherent(New(threads, endpoints), ops);
    StepCoherent(Run(New(threads, endpoints), ops), op);
  }

  // ---------------------------------------------------------------------
  // Nobody waits in a circle
  // ---------------------------------------------------------------------

  /** `s` is reached from `c` by `n` steps from a waiting thread to its server. */
  ghost predicate WaitsFor(threads: seq<Thread>, c: nat, s: nat, n: nat)
    decreases n
  {
    && c < |threads|
    && if n == 0 then c == s
       else threads[c].state.ReplyBlocked? && WaitsFor(threads, threads[c].state.server, s, n - 1)
  }

  lemma {:induction false} WaitsForRank(threads: seq<Thread>, rank: seq<int>, c: nat, s: nat, n: nat)
    requires WaitRanked(threads, rank) && WaitsFor(threads, c, s, n)
    ensures s < |threads| && rank[s] + n <= rank[c]
    decreases n
  {
    if n > 0 {
      WaitsForRank(threads, rank, threads[c].state.server, s, n - 1);
    }
  }

  ghost function Under(rank: seq<int>, c: nat): set<nat>
    requires c < |rank|
  {
    set d: nat | d < |rank| && rank[d] < rank[c]
  }

  /** Following servers from `c` ends, after fewer steps than there are threads, at one that waits for no reply. */
  lemma {:induction false} WaitingEnds(threads: seq<Thread>, rank: seq<int>, c: nat) returns (s: nat, n: nat)
    requires WaitRanked(threads, rank) && c < |threads|
    ensures WaitsFor(threads, c, s, n) && s < |threads| && !threads[s].state.ReplyBlocked?
    ensures n <= |Under(rank, c)|
    decreases |Under(rank, c)|
  {
    if !threads[c].state.ReplyBlocked? {
      s, n := c, 0;
    } else {
      var d := threads[c].state.server;
      assert d in Under(rank, c);
      assert Under(rank, d) <= Under(rank, c) - {d};
      SubsetSize(Under(rank, d), Under(rank, c) - {d});
      s, n := WaitingEnds(threads, rank, d);
      n := n + 1;
    }
  }

  /** Following servers from `c` leads in fewer than |threads| steps to a thread that waits for no reply. */
  ghost predicate ChainEnds(threads: seq<Thread>, c: nat) {
    exists s: nat, n: nat ::
      WaitsFor(threads, c, s, n) && n < |threads| && s < |threads| && !threads[s].state.ReplyBlocked?
  }

  /** In every reachable state no circle of threads waits for one another, and every waiting chain ends. */
  lemma NoWaitCycle(threads: nat, endpoints: nat, ops: seq<Op>)
    ensures var ts := Run(New(threads, endpoints), ops).threads;
      && (forall c: nat, n: nat :: WaitsFor(ts, c, c, n) ==> n == 0)
      && (forall c: nat :: c < threads ==> ChainEnds(ts, c))
  {
    NewCoherent(threads, endpoints);
    RunCoherent(New(threads, endpoints), ops);
    var ts := Run(New(threads, endpoints), ops).threads;
    var rank :| WaitRanked(ts, rank);
    forall c: nat, n: nat | WaitsFor(ts, c, c, n) ensures n == 0 {
      WaitsForRank(ts, rank, c, c, n);
    }
    forall c: nat | c < threads ensures ChainEnds(ts, c) {
      var s, n := WaitingEnds(ts, rank, c);
      assert c !in Under(rank, c);
      BoundedIndices(Under(rank, c) + {c}, threads);
    }
  }
}
