/**
 The IPC without thread states: a desk whose endpoints queue whole messages. A
 thread may act when it stands in no queue and waits for no reply. Every run of
 the IPC operations is matched, answer for answer, by a run at the desk.
 */
module IpcDesk {
  import opened Common
  import opened IpcModel
  import opened IpcTheorems
  import opened IpcHistories

  datatype Post = Post(thread: nat, message: Message, isCall: bool)

  /**
   `posts` and `readers` are the queues of each endpoint; `mail` and `owes` give
   for each thread its undelivered message and the caller it may reply to;
   `parked` are the callers waiting for a reply.
   */
  datatype Desk = Desk(
    posts: seq<seq<Post>>, readers: seq<seq<nat>>,
    mail: seq<Option<Message>>, owes: seq<Option<nat>>, parked: set<nat>)

  function Opened(threads: nat, endpoints: nat): Desk {
    Desk(seq(endpoints, _ => []), seq(endpoints, _ => []), seq(threads, _ => None), seq(threads, _ => None), {})
  }

  /** Every stored thread number is in range. */
  predicate Sized(d: Desk) {
    && |d.readers| == |d.posts| && |d.owes| == |d.mail|
    && (forall e :: 0 <= e < |d.posts| ==> forall k :: 0 <= k < |d.posts[e]| ==> d.posts[e][k].thread < |d.mail|)
    && (forall e :: 0 <= e < |d.readers| ==> forall k :: 0 <= k < |d.readers[e]| ==> d.readers[e][k] < |d.mail|)
    && (forall t :: 0 <= t < |d.owes| && d.owes[t].Some? ==> d.owes[t].value < |d.mail|)
  }

  predicate Posted(q: seq<Post>, t: nat) {
    exists k :: 0 <= k < |q| && q[k].thread == t
  }

  ghost predicate Idle(d: Desk, t: nat) {
    && (forall e :: 0 <= e < |d.posts| ==> !Posted(d.posts[e], t))
    && (forall e :: 0 <= e < |d.readers| ==> t !in d.readers[e])
    && t !in d.parked
  }

  /** Why thread `t` may not act. */
  ghost function Barred(d: Desk, t: nat): Option<IpcError> {
    if t >= |d.mail| then Some(BadThread)
    else if !Idle(d, t) then Some(ThreadNotRunnable)
    else None
  }

  /** The reader gets the posted message, and with a call also the caller, who stays parked. */
  function HandTo(d: Desk, post: Post, reader: nat): Desk
    requires Sized(d) && reader < |d.mail|
  {
    var delivered := d.(mail := d.mail[reader := Some(post.message)]);
    if post.isCall then delivered.(owes := d.owes[reader := Some(post.thread)], parked := d.parked + {post.thread})
    else delivered
  }

  ghost function PostTo(d: Desk, post: Post, e: nat): (Desk, IpcResult)
    requires Sized(d)
  {
    if Barred(d, post.thread).Some? then (d, Err(Barred(d, post.thread).value))
    else if e >= |d.posts| then (d, Err(BadEndpoint))
    else if d.readers[e] == [] then (d.(posts := d.posts[e := d.posts[e] + [post]]), Ok(Blocked))
    else
      var reader := d.readers[e][0];
      (HandTo(d, post, reader).(readers := d.readers[e := d.readers[e][1..]]), Ok(Delivered(reader)))
  }

  ghost function ReadFrom(d: Desk, reader: nat, e: nat): (Desk, IpcResult)
    requires Sized(d)
  {
    if Barred(d, reader).Some? then (d, Err(Barred(d, reader).value))
    else if e >= |d.posts| then (d, Err(BadEndpoint))
    else if d.posts[e] == [] then (d.(readers := d.readers[e := d.readers[e] + [reader]]), Ok(Blocked))
    else
      var post := d.posts[e][0];
      (HandTo(d, post, reader).(posts := d.posts[e := d.posts[e][1..]]), Ok(Delivered(post.thread)))
  }

  ghost function Settle(d: Desk, server: nat, m: Message): (Desk, IpcResult)
    requires Sized(d)
  {
    if Barred(d, server).Some? then (d, Err(Barred(d, server).value))
    else if d.owes[server].None? then (d, Err(NoReplyTarget))
    else
      var client := d.owes[server].value;
      (d.(mail := d.mail[client := Some(m)], owes := d.owes[server := None], parked := d.parked - {client}),
       Ok(Delivered(client)))
  }

  function Collect(d: Desk, t: nat): (Desk, Option<Message>) {
    if t < |d.mail| then (d.(mail := d.mail[t := None]), d.mail[t]) else (d, None)
  }

  ghost function Serve(d: Desk, op: Op): (Desk, Answer)
    requires Sized(d)
  {
    match op
    case OpSend(t, e, m) => var (d', r) := PostTo(d, Post(t, m, false), e); (d', Answer(r))
    case OpCall(t, e, m) => var (d', r) := PostTo(d, Post(t, m, true), e); (d', Answer(r))
    case OpReceive(t, e) => var (d', r) := ReadFrom(d, t, e); (d', Answer(r))
    case OpReply(t, m) => var (d', r) := Settle(d, t, m); (d', Answer(r))
    case OpTake(t) => var (d', m) := Collect(d, t); (d', Taken(m))
  }

  lemma ServeSized(d: Desk, op: Op)
    requires Sized(d)
    ensures Sized(Serve(d, op).0)
  {
    hide Idle;
  }

  ghost function ServeAll(d: Desk, ops: seq<Op>): (d': Desk)
    requires Sized(d)
    ensures Sized(d')
  {
    if ops == [] then d else
    var before := ServeAll(d, ops[..|ops| - 1]);
    ServeSized(before, ops[|ops| - 1]);
    Serve(before, ops[|ops| - 1]).0
  }

  // ---------------------------------------------------------------------
  // Representation
  // ---------------------------------------------------------------------

  /** The queued senders, each with the message and the call flag it keeps. */
  ghost predicate PostsAre(threads: seq<Thread>, q: seq<nat>, posts: seq<Post>) {
    && |posts| == |q|
    && forall k :: 0 <= k < |q| ==>
         q[k] < |threads| && posts[k] == Post(q[k], threads[q[k]].outgoing, threads[q[k]].isCall)
  }

  ghost predicate Represents(s: Ipc, d: Desk) {
    && |d.mail| == |s.threads| && |d.owes| == |s.threads|
    && |d.posts| == |s.senders|
    && d.readers == s.receivers
    && (forall e :: 0 <= e < |s.senders| ==> PostsAre(s.threads, s.senders[e], d.posts[e]))
    && (forall t :: 0 <= t < |s.threads| ==> d.mail[t] == s.threads[t].inbox && d.owes[t] == s.threads[t].replyTarget)
    && (forall t: nat :: t in d.parked <==> t < |s.threads| && s.threads[t].state.ReplyBlocked?)
  }

  lemma RepresentsSized(s: Ipc, d: Desk)
    requires WellFormed(s) && Represents(s, d)
    ensures Sized(d)
  {
  }

  lemma PostedIsQueued(threads: seq<Thread>, q: seq<nat>, posts: seq<Post>, t: nat)
    requires PostsAre(threads, q, posts)
    ensures Posted(posts, t) <==> t in q
  {
    if t in q {
      var k :| 0 <= k < |q| && q[k] == t;
      assert posts[k].thread == t;
    }
  }

  /** A thread is runnable exactly when it is in no queue and waits for no reply. */
  lemma IdleIsRunnable(s: Ipc, d: Desk, t: nat)
    requires QueuesCoherent(s) && Represents(s, d) && t < |s.threads|
    ensures Idle(d, t) <==> s.threads[t].state == Runnable
  {
    hide PostsAre, Posted;
    forall e | 0 <= e < |s.senders|
      ensures Posted(d.posts[e], t) <==> s.threads[t].state == Sending(e)
      ensures t in d.readers[e] <==> s.threads[t].state == Receiving(e)
    {
      assert EndpointCoherent(s, e);
      PostedIsQueued(s.threads, s.senders[e], d.posts[e], t);
    }
  }

  lemma BarredIsNotRunnable(s: Ipc, d: Desk, t: nat)
    requires QueuesCoherent(s) && Represents(s, d)
    ensures Barred(d, t) == EnsureRunnable(s.threads, t)
  {
    hide QueuesCoherent, Idle;
    if t < |s.threads| {
      IdleIsRunnable(s, d, t);
    }
  }

  // ---------------------------------------------------------------------
  // Every operation agrees
  // ---------------------------------------------------------------------

  /** What the blocked senders keep is what the desk has queued, as long as they keep it. */
  lemma PostsKept(s: Ipc, d: Desk, threads: seq<Thread>, e: nat)
    requires QueuesCoherent(s) && Represents(s, d) && |threads| == |s.threads| && e < |s.senders|
    requires forall t :: 0 <= t < |threads| && s.threads[t].state.Sending? ==>
      threads[t].outgoing == s.threads[t].outgoing && threads[t].isCall == s.threads[t].isCall
    ensures PostsAre(threads, s.senders[e], d.posts[e])
  {
    assert PostsAre(s.threads, s.senders[e], d.posts[e]);
    forall k | 0 <= k < |s.senders[e]| ensures s.threads[s.senders[e][k]].state == Sending(e) {
      QueuedIsSending(s, e, k);
    }
  }

  lemma AllPostsKept(s: Ipc, d: Desk, threads: seq<Thread>)
    requires QueuesCoherent(s) && Represents(s, d) && |threads| == |s.threads|
    requires forall t :: 0 <= t < |threads| && s.threads[t].state.Sending? ==>
      threads[t].outgoing == s.threads[t].outgoing && threads[t].isCall == s.threads[t].isCall
    ensures forall e :: 0 <= e < |s.senders| ==> PostsAre(threads, s.senders[e], d.posts[e])
  {
    hide QueuesCoherent, PostsAre;
    forall e | 0 <= e < |s.senders| ensures PostsAre(threads, s.senders[e], d.posts[e]) {
      PostsKept(s, d, threads, e);
    }
  }

  lemma OfferRefused(s: Ipc, d: Desk, t: nat, e: nat, m: Message, isCall: bool)
    requires QueuesCoherent(s) && Represents(s, d) && Sized(d)
    requires EnsureRunnable(s.threads, t).Some? || e >= |s.senders|
    ensures Represents(Offer(s, t, e, m, isCall).0, PostTo(d, Post(t, m, isCall), e).0)
    ensures Offer(s, t, e, m, isCall).1 == PostTo(d, Post(t, m, isCall), e).1
  {
    hide EndpointCoherent, StatesInRange, PostsAre, Idle;
    BarredIsNotRunnable(s, d, t);
    AllPostsKept(s, d, Offer(s, t, e, m, isCall).0.threads);
  }

  lemma HeadIsReceiving(s: Ipc, e: nat)
    requires QueuesCoherent(s) && e < |s.receivers| && s.receivers[e] != []
    ensures s.threads[s.receivers[e][0]].state == Receiving(e)
  {
    assert EndpointCoherent(s, e) && s.receivers[e][0] in s.receivers[e];
  }

  lemma OfferDelivered(s: Ipc, d: Desk, t: nat, e: nat, m: Message, isCall: bool)
    requires QueuesCoherent(s) && Represents(s, d) && Sized(d)
    requires EnsureRunnable(s.threads, t).None? && e < |s.senders| && s.receivers[e] != []
    ensures Represents(Offer(s, t, e, m, isCall).0, PostTo(d, Post(t, m, isCall), e).0)
    ensures Offer(s, t, e, m, isCall).1 == PostTo(d, Post(t, m, isCall), e).1
  {
    hide PostsAre, Idle, StatesInRange, EndpointCoherent;
    HeadIsReceiving(s, e);
    BarredIsNotRunnable(s, d, t);
    AllPostsKept(s, d, Offer(s, t, e, m, isCall).0.threads);
  }

  lemma OfferQueued(s: Ipc, d: Desk, t: nat, e: nat, m: Message, isCall: bool)
    requires Coherent(s) && Represents(s, d) && Sized(d)
    requires EnsureRunnable(s.threads, t).None? && e < |s.senders| && s.receivers[e] == []
    ensures Represents(Offer(s, t, e, m, isCall).0, PostTo(d, Post(t, m, isCall), e).0)
    ensures Offer(s, t, e, m, isCall).1 == PostTo(d, Post(t, m, isCall), e).1
  {
    hide Idle, StatesInRange, EndpointCoherent, RepliesSound, WaitsAcyclic;
    OfferCoherent(s, t, e, m, isCall);
    BarredIsNotRunnable(s, d, t);
    AllPostsKept(s, d, Offer(s, t, e, m, isCall).0.threads);
  }

  lemma OfferAgrees(s: Ipc, d: Desk, t: nat, e: nat, m: Message, isCall: bool)
    requires Coherent(s) && Represents(s, d) && Sized(d)
    ensures Represents(Offer(s, t, e, m, isCall).0, PostTo(d, Post(t, m, isCall), e).0)
    ensures Offer(s, t, e, m, isCall).1 == PostTo(d, Post(t, m, isCall), e).1
  {
    hide Represents, EndpointCoherent, StatesInRange, RepliesSound, WaitsAcyclic, Offer, PostTo;
    if EnsureRunnable(s.threads, t).Some? || e >= |s.senders| {
      OfferRefused(s, d, t, e, m, isCall);
    } else if s.receivers[e] != [] {
      OfferDelivered(s, d, t, e, m, isCall);
    } else {
      OfferQueued(s, d, t, e, m, isCall);
    }
  }

  lemma PostsTail(threads: seq<Thread>, q: seq<nat>, posts: seq<Post>)
    requires PostsAre(threads, q, posts) && q != []
    ensures posts != [] && q[0] < |threads|
    ensures posts[0] == Post(q[0], threads[q[0]].outgoing, threads[q[0]].isCall)
    ensures PostsAre(threads, q[1..], posts[1..])
  {
  }

  lemma ReceiveDelivered(s: Ipc, d: Desk, r: nat, e: nat)
    requires QueuesCoherent(s) && Represents(s, d) && Sized(d)
    requires EnsureRunnable(s.threads, r).None? && e < |s.senders| && s.senders[e] != []
    ensures Represents(Receive(s, r, e).0, ReadFrom(d, r, e).0)
    ensures Receive(s, r, e).1 == ReadFrom(d, r, e).1
  {
    hide Idle, StatesInRange, EndpointCoherent, PostsAre;
    QueuedIsSending(s, e, 0);
    BarredIsNotRunnable(s, d, r);
    AllPostsKept(s, d, Receive(s, r, e).0.threads);
    PostsTail(s.threads, s.senders[e], d.posts[e]);
    PostsTail(Receive(s, r, e).0.threads, s.senders[e], d.posts[e]);
  }

  lemma ReceiveQueued(s: Ipc, d: Desk, r: nat, e: nat)
    requires Coherent(s) && Represents(s, d) && Sized(d)
    requires EnsureRunnable(s.threads, r).Some? || e >= |s.senders| || s.senders[e] == []
    ensures Represents(Receive(s, r, e).0, ReadFrom(d, r, e).0)
    ensures Receive(s, r, e).1 == ReadFrom(d, r, e).1
  {
    hide Idle, StatesInRange, EndpointCoherent, RepliesSound, WaitsAcyclic;
    ReceiveCoherent(s, r, e);
    BarredIsNotRunnable(s, d, r);
    AllPostsKept(s, d, Receive(s, r, e).0.threads);
    assert e < |s.senders| ==> PostsAre(s.threads, s.senders[e], d.posts[e]);
  }

  lemma ReplyAgrees(s: Ipc, d: Desk, server: nat, m: Message)
    requires Coherent(s) && Represents(s, d) && Sized(d)
    ensures Represents(Reply(s, server, m).0, Settle(d, server, m).0)
    ensures Reply(s, server, m).1 == Settle(d, server, m).1
  {
    hide Idle, StatesInRange, EndpointCoherent, WaitsAcyclic, PostsAre;
    ReplyCoherent(s, server, m);
    BarredIsNotRunnable(s, d, server);
    AllPostsKept(s, d, Reply(s, server, m).0.threads);
  }

  lemma TakeAgrees(s: Ipc, d: Desk, t: nat)
    requires QueuesCoherent(s) && Represents(s, d)
    ensures Represents(TakeMessage(s, t).0, Collect(d, t).0)
    ensures TakeMessage(s, t).1 == Collect(d, t).1
  {
    hide QueuesCoherent, PostsAre;
    AllPostsKept(s, d, TakeMessage(s, t).0.threads);
  }

  lemma StepAgrees(s: Ipc, d: Desk, op: Op)
    requires Coherent(s) && Represents(s, d) && Sized(d)
    ensures Represents(Step(s, op).0, Serve(d, op).0) && Step(s, op).1 == Serve(d, op).1
  {
    hide Represents, EndpointCoherent, StatesInRange, RepliesSound, WaitsAcyclic;
    hide Offer, Receive, Reply, TakeMessage, PostTo, ReadFrom, Settle, Collect;
    match op
    case OpSend(t, e, m) => OfferAgrees(s, d, t, e, m, false);
    case OpCall(t, e, m) => OfferAgrees(s, d, t, e, m, true);
    case OpReceive(r, e) =>
      if EnsureRunnable(s.threads, r).None? && e < |s.senders| && s.senders[e] != [] {
        ReceiveDelivered(s, d, r, e);
      } else {
        ReceiveQueued(s, d, r, e);
      }
    case OpReply(t, m) => ReplyAgrees(s, d, t, m);
    case OpTake(t) => TakeAgrees(s, d, t);
  }

  lemma {:induction false} RunAgrees(threads: nat, endpoints: nat, ops: seq<Op>)
    ensures Coherent(Run(New(threads, endpoints), ops))
    ensures Represents(Run(New(threads, endpoints), ops), ServeAll(Opened(threads, endpoints), ops))
  {
    hide Step, Serve, Coherent;
    var s, d := New(threads, endpoints), Opened(threads, endpoints);
    NewCoherent(threads, endpoints);
    RunCoherent(s, ops);
    if ops != [] {
      hide Represents;
      RunAgrees(threads, endpoints, ops[..|ops| - 1]);
      StepAgrees(Run(s, ops[..|ops| - 1]), ServeAll(d, ops[..|ops| - 1]), ops[|ops| - 1]);
    }
  }

  /** After any run, every operation answers as the desk does. */
  lemma DeskAnswers(threads: nat, endpoints: nat, ops: seq<Op>, op: Op)
    ensures Step(Run(New(threads, endpoints), ops), op).1 == Serve(ServeAll(Opened(threads, endpoints), ops), op).1
  {
    hide Step, Serve, Coherent, Represents, Run, ServeAll;
    RunAgrees(threads, endpoints, ops);
    StepAgrees(Run(New(threads, endpoints), ops), ServeAll(Opened(threads, endpoints), ops), op);
  }
}
