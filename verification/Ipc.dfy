/**
 The rendezvous mechanism as the kernel runs it: thread control blocks updated in
 place, and per endpoint two fixed-size ring buffers of thread ids. Each method is
 proved to take the abstract state where IpcModel says, on every path.
 */
module IpcMachine {
  import opened Common
  import opened IpcModel

  class Queue {
    const entries: array<Option<nat>>
    var head: nat
    var len: nat
    ghost var contents: seq<nat>

    ghost predicate Valid()
      reads this, entries
    {
      && len == |contents| <= entries.Length
      && (entries.Length > 0 ==> head < entries.Length)
      && forall i :: 0 <= i < len ==> entries[Ring(head, i, entries.Length)] == Some(contents[i])
    }

    constructor (capacity: nat)
      ensures Valid() && contents == [] && entries.Length == capacity && fresh(entries)
    {
      entries := new Option<nat>[capacity](_ => None);
      head, len := 0, 0;
      contents := [];
    }

    method Push(thread: nat) returns (r: Result<(), IpcError>)
      requires Valid()
      modifies this, entries
      ensures Valid()
      ensures r == if |old(contents)| == entries.Length then Err(QueueFull) else Ok(())
      ensures contents == if r.Ok? then old(contents) + [thread] else old(contents)
    {
      if len == entries.Length {
        return Err(QueueFull);
      }
      var tail := (head + len) % entries.Length;
      RingIsModulo(head, len, entries.Length);
      entries[tail] := Some(thread);
      len := len + 1;
      contents := contents + [thread];
      return Ok(());
    }

    method Pop() returns (r: Option<nat>)
      requires Valid()
      modifies this, entries
      ensures Valid()
      ensures r == if old(contents) == [] then None else Some(old(contents)[0])
      ensures contents == if old(contents) == [] then [] else old(contents)[1..]
    {
      if len == 0 {
        return None;
      }
      assert Ring(head, 0, entries.Length) == head;
      assert forall i :: 0 < i < len ==> Ring(head, i, entries.Length) != head;
      r := entries[head];
      entries[head] := None;
      RingIsModulo(head, 1, entries.Length);
      ghost var was := head;
      head := (head + 1) % entries.Length;
      assert forall i :: 0 <= i < len - 1 ==> Ring(head, i, entries.Length) == Ring(was, i + 1, entries.Length);
      len := len - 1;
      contents := contents[1..];
    }
  }

  datatype Endpoint = Endpoint(senders: Queue, receivers: Queue)

  ghost predicate Apart(p: Queue, q: Queue) {
    p != q && p.entries != q.entries
  }

  class RendezvousIpc {
    const threads: array<Thread>
    const endpoints: seq<Endpoint>
    ghost const repr: set<object>
    ghost var state: Ipc

    ghost predicate Owned(q: Queue) {
      q in repr && q.entries in repr && q.entries.Length == threads.Length
    }

    ghost predicate Valid()
      reads this, repr
    {
      && threads in repr && this !in repr
      && (forall e :: 0 <= e < |endpoints| ==> Owned(endpoints[e].senders) && Owned(endpoints[e].receivers))
      && AllApart(endpoints)
      && threads[..] == state.threads
      && |endpoints| == |state.senders| == |state.receivers|
      && (forall e :: 0 <= e < |endpoints| ==>
            endpoints[e].senders.Valid() && endpoints[e].senders.contents == state.senders[e])
      && (forall e :: 0 <= e < |endpoints| ==>
            endpoints[e].receivers.Valid() && endpoints[e].receivers.contents == state.receivers[e])
      && WellFormed(state)
    }

    constructor (threadCount: nat, endpointCount: nat)
      ensures Valid() && fresh(repr)
      ensures state == New(threadCount, endpointCount)
    {
      ghost var owned: set<object>;
      var table: seq<Endpoint>;
      table, owned := NewTable(threadCount, endpointCount);
      var blocks := new Thread[threadCount](_ => EMPTY_THREAD);
      threads := blocks;
      endpoints := table;
      repr := owned + {blocks};
      state := New(threadCount, endpointCount);
      new;
      assert threads[..] == state.threads;
    }

    /** Stores a control block. */
    method SetThread(t: nat, th: Thread)
      requires Valid() && t < threads.Length && (th.replyTarget.Some? ==> th.replyTarget.value < threads.Length)
      modifies this, threads
      ensures Valid()
      ensures state == old(state).(threads := old(state).threads[t := th])
    {
      threads[t] := th;
      state := state.(threads := state.threads[t := th]);
    }

    method PushSender(e: nat, t: nat) returns (r: Result<(), IpcError>)
      requires Valid() && e < |endpoints| && t < threads.Length
      modifies this, endpoints[e].senders, endpoints[e].senders.entries
      ensures Valid()
      ensures state == old(state).(senders := old(state).senders[e := Join(old(state).senders[e], t, threads.Length).0])
      ensures r == if Join(old(state).senders[e], t, threads.Length).1.Ok? then Ok(()) else Err(QueueFull)
    {
      hide WellFormed;
      EnqueueWellFormed(state, e, t);
      r := endpoints[e].senders.Push(t);
      state := state.(senders := state.senders[e := Join(state.senders[e], t, threads.Length).0]);
    }

    method PushReceiver(e: nat, t: nat) returns (r: Result<(), IpcError>)
      requires Valid() && e < |endpoints| && t < threads.Length
      modifies this, endpoints[e].receivers, endpoints[e].receivers.entries
      ensures Valid()
      ensures state ==
        old(state).(receivers := old(state).receivers[e := Join(old(state).receivers[e], t, threads.Length).0])
      ensures r == if Join(old(state).receivers[e], t, threads.Length).1.Ok? then Ok(()) else Err(QueueFull)
    {
      hide WellFormed;
      EnqueueWellFormed(state, e, t);
      r := endpoints[e].receivers.Push(t);
      state := state.(receivers := state.receivers[e := Join(state.receivers[e], t, threads.Length).0]);
    }

    method PopSender(e: nat) returns (r: Option<nat>)
      requires Valid() && e < |endpoints|
      modifies this, endpoints[e].senders, endpoints[e].senders.entries
      ensures Valid()
      ensures old(state).senders[e] == [] ==> r == None && state == old(state)
      ensures old(state).senders[e] != [] ==>
        && r == Some(old(state).senders[e][0])
        && state == old(state).(senders := old(state).senders[e := old(state).senders[e][1..]])
    {
      hide WellFormed;
      DequeueWellFormed(state, e);
      ghost var q := state.senders[e];
      r := endpoints[e].senders.Pop();
      if r.Some? {
        state := state.(senders := state.senders[e := q[1..]]);
      }
    }

    method PopReceiver(e: nat) returns (r: Option<nat>)
      requires Valid() && e < |endpoints|
      modifies this, endpoints[e].receivers, endpoints[e].receivers.entries
      ensures Valid()
      ensures old(state).receivers[e] == [] ==> r == None && state == old(state)
      ensures old(state).receivers[e] != [] ==>
        && r == Some(old(state).receivers[e][0])
        && state == old(state).(receivers := old(state).receivers[e := old(state).receivers[e][1..]])
    {
      hide WellFormed;
      DequeueWellFormed(state, e);
      ghost var q := state.receivers[e];
      r := endpoints[e].receivers.Pop();
      if r.Some? {
        state := state.(receivers := state.receivers[e := q[1..]]);
      }
    }

    method CheckRunnable(t: nat) returns (r: Option<IpcError>)
      requires Valid()
      ensures r == EnsureRunnable(state.threads, t)
    {
      if t >= threads.Length {
        return Some(BadThread);
      }
      return if threads[t].state == Runnable then None else Some(ThreadNotRunnable);
    }

    method Send(sender: nat, endpoint: nat, message: Message) returns (r: IpcResult)
      requires Valid()
      modifies this, repr
      ensures Valid()
      ensures (state, r) == Offer(old(state), sender, endpoint, message, false)
    {
      hide AllApart, Apart, Queue.Valid;
      var blocked := CheckRunnable(sender);
      if blocked.Some? {
        return Err(blocked.value);
      }
      SetThread(sender, threads[sender].(isCall := false));
      if endpoint >= |endpoints| {
        return Err(BadEndpoint);
      }
      var receiver := PopReceiver(endpoint);
      if receiver.Some? {
        var peer := receiver.value;
        SetThread(peer, threads[peer].(inbox := Some(message), state := Runnable));
        return Ok(Delivered(peer));
      }
      SetThread(sender, threads[sender].(outgoing := message, state := Sending(endpoint)));
      var pushed := PushSender(endpoint, sender);
      return if pushed.Err? then Err(pushed.error) else Ok(Blocked);
    }

    method Call(caller: nat, endpoint: nat, message: Message) returns (r: IpcResult)
      requires Valid()
      modifies this, repr
      ensures Valid()
      ensures (state, r) == Offer(old(state), caller, endpoint, message, true)
    {
      hide AllApart, Apart, Queue.Valid;
      var blocked := CheckRunnable(caller);
      if blocked.Some? {
        return Err(blocked.value);
      }
      SetThread(caller, threads[caller].(isCall := true));
      if endpoint >= |endpoints| {
        return Err(BadEndpoint);
      }
      var receiver := PopReceiver(endpoint);
      if receiver.Some? {
        var peer := receiver.value;
        SetThread(peer, threads[peer].(inbox := Some(message), replyTarget := Some(caller), state := Runnable));
        SetThread(caller, threads[caller].(state := ReplyBlocked(peer)));
        return Ok(Delivered(peer));
      }
      SetThread(caller, threads[caller].(outgoing := message, state := Sending(endpoint)));
      var pushed := PushSender(endpoint, caller);
      return if pushed.Err? then Err(pushed.error) else Ok(Blocked);
    }

    method Receive(receiver: nat, endpoint: nat) returns (r: IpcResult)
      requires Valid()
      modifies this, repr
      ensures Valid()
      ensures (state, r) == IpcModel.Receive(old(state), receiver, endpoint)
    {
      hide AllApart, Apart, Queue.Valid;
      var blocked := CheckRunnable(receiver);
      if blocked.Some? {
        return Err(blocked.value);
      }
      if endpoint >= |endpoints| {
        return Err(BadEndpoint);
      }
      var sender := PopSender(endpoint);
      if sender.Some? {
        var peer := sender.value;
        var message := threads[peer].outgoing;
        if threads[peer].isCall {
          SetThread(peer, threads[peer].(state := ReplyBlocked(receiver)));
          SetThread(receiver, threads[receiver].(replyTarget := Some(peer)));
        } else {
          SetThread(peer, threads[peer].(state := Runnable));
        }
        SetThread(receiver, threads[receiver].(inbox := Some(message)));
        assert state.threads == Pickup(old(state).threads, peer, receiver);
        return Ok(Delivered(peer));
      }
      SetThread(receiver, threads[receiver].(state := Receiving(endpoint)));
      var pushed := PushReceiver(endpoint, receiver);
      return if pushed.Err? then Err(pushed.error) else Ok(Blocked);
    }

    method Reply(server: nat, message: Message) returns (r: IpcResult)
      requires Valid()
      modifies this, repr
      ensures Valid()
      ensures (state, r) == IpcModel.Reply(old(state), server, message)
    {
      hide AllApart, Apart, Queue.Valid;
      var blocked := CheckRunnable(server);
      if blocked.Some? {
        return Err(blocked.value);
      }
      var target := threads[server].replyTarget;
      if target.None? {
        return Err(NoReplyTarget);
      }
      var client := target.value;
      SetThread(server, threads[server].(replyTarget := None));
      if threads[client].state != ReplyBlocked(server) {
        return Err(NoReplyTarget);
      }
      SetThread(client, threads[client].(inbox := Some(message), state := Runnable));
      return Ok(Delivered(client));
    }

    method TakeMessage(t: nat) returns (r: Option<Message>)
      requires Valid()
      modifies this, repr
      ensures Valid()
      ensures (state, r) == IpcModel.TakeMessage(old(state), t)
    {
      if t >= threads.Length {
        return None;
      }
      r := threads[t].inbox;
      SetThread(t, threads[t].(inbox := None));
    }
  }

  /** The endpoint table with all its ring buffers empty and apart. */
  method NewTable(threadCount: nat, endpointCount: nat) returns (table: seq<Endpoint>, ghost owned: set<object>)
    ensures |table| == endpointCount && fresh(owned)
    ensures forall e :: 0 <= e < |table| ==> EmptyQueue(table[e].senders, threadCount, owned)
    ensures forall e :: 0 <= e < |table| ==> EmptyQueue(table[e].receivers, threadCount, owned)
    ensures AllApart(table)
  {
    table, owned := [], {};
    while |table| < endpointCount
      invariant |table| <= endpointCount && fresh(owned)
      invariant forall e :: 0 <= e < |table| ==> EmptyQueue(table[e].senders, threadCount, owned)
      invariant forall e :: 0 <= e < |table| ==> EmptyQueue(table[e].receivers, threadCount, owned)
      invariant AllApart(table)
    {
      var senders := new Queue(threadCount);
      var receivers := new Queue(threadCount);
      AppendApart(table, Endpoint(senders, receivers), owned);
      hide AllApart, Queue.Valid;
      table := table + [Endpoint(senders, receivers)];
      owned := owned + {senders, senders.entries, receivers, receivers.entries};
    }
  }

  lemma AppendApart(table: seq<Endpoint>, ep: Endpoint, owned: set<object>)
    requires AllApart(table) && Apart(ep.senders, ep.receivers)
    requires forall e :: 0 <= e < |table| ==>
      && table[e].senders in owned && table[e].senders.entries in owned
      && table[e].receivers in owned && table[e].receivers.entries in owned
    requires ep.senders !in owned && ep.senders.entries !in owned
    requires ep.receivers !in owned && ep.receivers.entries !in owned
    ensures AllApart(table + [ep])
  {
  }

  ghost predicate EmptyQueue(q: Queue, capacity: nat, owned: set<object>)
    reads q, q.entries
  {
    q in owned && q.entries in owned && q.entries.Length == capacity && q.Valid() && q.contents == []
  }

  /** No two ring buffers of the table share storage. */
  ghost predicate AllApart(table: seq<Endpoint>) {
    && (forall e, d :: 0 <= e < |table| && 0 <= d < |table| && e != d ==>
          Apart(table[e].senders, table[d].senders) && Apart(table[e].receivers, table[d].receivers))
    && (forall e, d :: 0 <= e < |table| && 0 <= d < |table| ==> Apart(table[e].senders, table[d].receivers))
  }
}
