/**
 The order in which the two sides of a rendezvous arrive does not matter: both
 orders lead to states that no later operation can tell apart.
 */
module IpcEquivalence {
  import opened Common
  import opened IpcModel
  import opened IpcTheorems
  import opened IpcHistories

  /** A thread that is not blocked sending has no use for its outgoing message and call mark. */
  function Visible(th: Thread): Thread {
    if th.state.Sending? then th else th.(outgoing := EMPTY_MESSAGE, isCall := false)
  }

  /** The states agree except on `outgoing` and `isCall` of threads that are not sending. */
  ghost predicate Alike(a: Ipc, b: Ipc) {
    && a.senders == b.senders && a.receivers == b.receivers && |a.threads| == |b.threads|
    && forall t :: 0 <= t < |a.threads| ==> Visible(a.threads[t]) == Visible(b.threads[t])
  }

  lemma OfferAlike(a: Ipc, b: Ipc, t: nat, e: nat, m: Message, isCall: bool)
    requires WellFormed(a) && WellFormed(b) && Alike(a, b)
    ensures Offer(a, t, e, m, isCall).1 == Offer(b, t, e, m, isCall).1
    ensures Alike(Offer(a, t, e, m, isCall).0, Offer(b, t, e, m, isCall).0)
  {
    if t < |a.threads| {
      assert Visible(a.threads[t]) == Visible(b.threads[t]);
    }
  }

  /** The message a receiver picks up is visible, because a queued sender is in state `Sending`. */
  lemma ReceiveAlike(a: Ipc, b: Ipc, r: nat, e: nat)
    requires Coherent(a) && Coherent(b) && Alike(a, b)
    ensures Receive(a, r, e).1 == Receive(b, r, e).1
    ensures Alike(Receive(a, r, e).0, Receive(b, r, e).0)
  {
    if r < |a.threads| {
      assert Visible(a.threads[r]) == Visible(b.threads[r]);
      if e < |a.senders| && a.senders[e] != [] {
        QueuedIsSending(a, e, 0);
        QueuedIsSending(b, e, 0);
        assert Visible(a.threads[a.senders[e][0]]) == Visible(b.threads[a.senders[e][0]]);
      }
    }
  }

  lemma ReplyAlike(a: Ipc, b: Ipc, server: nat, m: Message)
    requires WellFormed(a) && WellFormed(b) && Alike(a, b)
    ensures Reply(a, server, m).1 == Reply(b, server, m).1
    ensures Alike(Reply(a, server, m).0, Reply(b, server, m).0)
  {
    if server < |a.threads| {
      assert Visible(a.threads[server]) == Visible(b.threads[server]);
      if a.threads[server].replyTarget.Some? {
        var c := a.threads[server].replyTarget.value;
        assert Visible(a.threads[c]) == Visible(b.threads[c]);
      }
    }
  }

  /** Alike states answer every operation alike and stay alike. */
  lemma StepAlike(a: Ipc, b: Ipc, op: Op)
    requires Coherent(a) && Coherent(b) && Alike(a, b)
    ensures Step(a, op).1 == Step(b, op).1
    ensures Alike(Step(a, op).0, Step(b, op).0)
  {
    match op
    case OpSend(t, e, m) => OfferAlike(a, b, t, e, m, false);
    case OpCall(t, e, m) => OfferAlike(a, b, t, e, m, true);
    case OpReceive(t, e) => ReceiveAlike(a, b, t, e);
    case OpReply(t, m) => ReplyAlike(a, b, t, m);
    case OpTake(t) =>
      if t < |a.threads| {
        assert Visible(a.threads[t]) == Visible(b.threads[t]);
      }
  }

  /** No continuation tells alike states apart. */
  lemma {:induction false} RunAlike(a: Ipc, b: Ipc, ops: seq<Op>, op: Op)
    requires Coherent(a) && Coherent(b) && Alike(a, b)
    ensures Alike(Run(a, ops), Run(b, ops))
    ensures Step(Run(a, ops), op).1 == Step(Run(b, ops), op).1
    decreases |ops|
  {
    hide Step;
    if ops != [] {
      RunAlike(a, b, ops[..|ops| - 1], op);
      RunCoherent(a, ops[..|ops| - 1]);
      RunCoherent(b, ops[..|ops| - 1]);
      StepAlike(Run(a, ops[..|ops| - 1]), Run(b, ops[..|ops| - 1]), ops[|ops| - 1]);
    }
    RunCoherent(a, ops);
    RunCoherent(b, ops);
    StepAlike(Run(a, ops), Run(b, ops), op);
  }

  /** Sender first, then receiver, compared with receiver first, then sender. */
  lemma EitherOrder(s: Ipc, t: nat, r: nat, e: nat, m: Message, isCall: bool)
    requires Coherent(s) && e < |s.senders| && s.senders[e] == [] && s.receivers[e] == []
    requires t < |s.threads| && r < |s.threads| && t != r
    requires s.threads[t].state == Runnable && s.threads[r].state == Runnable
    ensures Offer(s, t, e, m, isCall).1 == Ok(Blocked) && Receive(s, r, e).1 == Ok(Blocked)
    ensures WellFormed(Offer(s, t, e, m, isCall).0) && WellFormed(Receive(s, r, e).0)
    ensures var (senderFirst, x) := Receive(Offer(s, t, e, m, isCall).0, r, e);
            var (receiverFirst, y) := Offer(Receive(s, r, e).0, t, e, m, isCall);
            x == Ok(Delivered(t)) && y == Ok(Delivered(r)) && Alike(senderFirst, receiverFirst)
  {
    OfferCoherent(s, t, e, m, isCall);
    ReceiveCoherent(s, r, e);
    var a, b := Offer(s, t, e, m, isCall).0, Receive(s, r, e).0;
    assert a.senders[e] == [t] && b.receivers[e] == [r];
    assert a.senders[e][1..] == [] && b.receivers[e][1..] == [];
    var senderFirst, receiverFirst := Receive(a, r, e).0, Offer(b, t, e, m, isCall).0;
    assert senderFirst.senders == s.senders && receiverFirst.receivers == s.receivers;
  }

  /** Whichever side arrives first, every later operation in every continuation gets the same answer. */
  lemma OrderIsInvisible(s: Ipc, t: nat, r: nat, e: nat, m: Message, isCall: bool, later: seq<Op>, op: Op)
    requires Coherent(s) && e < |s.senders| && s.senders[e] == [] && s.receivers[e] == []
    requires t < |s.threads| && r < |s.threads| && t != r
    requires s.threads[t].state == Runnable && s.threads[r].state == Runnable
    ensures WellFormed(Offer(s, t, e, m, isCall).0) && WellFormed(Receive(s, r, e).0)
    ensures var a := Receive(Offer(s, t, e, m, isCall).0, r, e).0;
            var b := Offer(Receive(s, r, e).0, t, e, m, isCall).0;
            WellFormed(a) && WellFormed(b) && Step(Run(a, later), op).1 == Step(Run(b, later), op).1
  {
    EitherOrder(s, t, r, e, m, isCall);
    OfferCoherent(s, t, e, m, isCall);
    ReceiveCoherent(s, r, e);
    ReceiveCoherent(Offer(s, t, e, m, isCall).0, r, e);
    OfferCoherent(Receive(s, r, e).0, t, e, m, isCall);
    hide Offer, Receive, Step, Run;
    RunAlike(Receive(Offer(s, t, e, m, isCall).0, r, e).0, Offer(Receive(s, r, e).0, t, e, m, isCall).0, later, op);
  }
}
