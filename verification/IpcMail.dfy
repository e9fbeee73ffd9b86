/**
 What a thread finds in its inbox, told from the operations and their answers
 alone, without the thread control blocks.
 */
module IpcMail {
  import opened Common
  import opened IpcModel
  import opened IpcTheorems
  import opened IpcHistories

  // ---------------------------------------------------------------------
  // Mail, from the operations and their answers
  // ---------------------------------------------------------------------

  predicate Offers(op: Op) {
    op.OpSend? || op.OpCall?
  }

  function AnswerTo(s: Ipc, ops: seq<Op>, op: Op): Answer
    requires WellFormed(s)
  {
    Step(Run(s, ops), op).1
  }

  /** The message of the last send or call of `t` that was accepted. */
  function LastOffer(s: Ipc, ops: seq<Op>, t: nat): Option<Message>
    requires WellFormed(s)
  {
    if ops == [] then None else
    var before, op := ops[..|ops| - 1], ops[|ops| - 1];
    var answer := AnswerTo(s, before, op);
    if Offers(op) && op.thread == t && answer.Answer? && answer.result.Ok? then Some(op.message)
    else LastOffer(s, before, t)
  }

  /** The mail of `t` after `op` was answered, given its mail before. */
  function Deliver(s: Ipc, before: seq<Op>, op: Op, answer: Answer, t: nat, mail: Option<Message>): Option<Message>
    requires WellFormed(s)
  {
    match op
    case OpTake(u) => if u == t then None else mail
    case OpReceive(u, _) =>
      if u == t && answer.Answer? && answer.result.Ok? && answer.result.value.Delivered? then
        LastOffer(s, before, answer.result.value.peer)
      else mail
    case _ => if answer == Answer(Ok(Delivered(t))) then Some(op.message) else mail
  }

  /** What was passed to `t` since it last took a message. */
  function Mail(s: Ipc, ops: seq<Op>, t: nat): Option<Message>
    requires WellFormed(s)
  {
    if ops == [] then None else
    var before, op := ops[..|ops| - 1], ops[|ops| - 1];
    Deliver(s, before, op, AnswerTo(s, before, op), t, Mail(s, before, t))
  }

  ghost predicate KeepsOffer(s: Ipc, t: nat, offer: Option<Message>) {
    t < |s.threads| && s.threads[t].state.Sending? ==> offer == Some(s.threads[t].outgoing)
  }

  /** A blocked sender keeps the message of its last accepted offer. */
  lemma StepKeepsOffer(s: Ipc, op: Op, t: nat, offer: Option<Message>)
    requires Coherent(s) && KeepsOffer(s, t, offer)
    ensures var (s', answer) := Step(s, op);
      var accepted := Offers(op) && op.thread == t && answer.Answer? && answer.result.Ok?;
      KeepsOffer(s', t, if accepted then Some(op.message) else offer)
  {
    hide RepliesSound, WaitsAcyclic, StatesInRange;
    StepCoherent(s, op);
    match op
    case OpSend(u, e, m) => if e < |s.senders| { assert EndpointCoherent(s, e); }
    case OpCall(u, e, m) => if e < |s.senders| { assert EndpointCoherent(s, e); }
    case OpReceive(u, e) => if e < |s.senders| { assert EndpointCoherent(s, e); }
    case OpReply(u, m) =>
    case OpTake(u) =>
  }

  lemma {:induction false} OutgoingIsLastOffer(threads: nat, endpoints: nat, ops: seq<Op>, t: nat)
    ensures KeepsOffer(Run(New(threads, endpoints), ops), t, LastOffer(New(threads, endpoints), ops, t))
  {
    hide Step, KeepsOffer, Coherent;
    var s := New(threads, endpoints);
    if ops == [] {
      NothingOffered(threads, endpoints, t);
    } else {
      OutgoingIsLastOffer(threads, endpoints, ops[..|ops| - 1], t);
      NewCoherent(threads, endpoints);
      RunCoherent(s, ops[..|ops| - 1]);
      StepKeepsOffer(Run(s, ops[..|ops| - 1]), ops[|ops| - 1], t, LastOffer(s, ops[..|ops| - 1], t));
    }
  }

  lemma NothingOffered(threads: nat, endpoints: nat, t: nat)
    ensures KeepsOffer(New(threads, endpoints), t, None)
  {
  }

  /** One operation changes the inbox of `t` as it changes its mail. */
  lemma StepDelivers(s0: Ipc, before: seq<Op>, op: Op, t: nat)
    requires WellFormed(s0) && Coherent(Run(s0, before))
    requires forall u :: KeepsOffer(Run(s0, before), u, LastOffer(s0, before, u))
    ensures var s := Run(s0, before);
      var (s', answer) := Step(s, op);
      Inbox(s', t) == Deliver(s0, before, op, answer, t, Inbox(s, t))
  {
    hide Run, LastOffer, RepliesSound, WaitsAcyclic, StatesInRange;
    var s := Run(s0, before);
    match op
    case OpSend(u, e, m) =>
    case OpCall(u, e, m) =>
    case OpReceive(u, e) =>
      if e < |s.senders| && s.senders[e] != [] {
        QueuedIsSending(s, e, 0);
        assert KeepsOffer(s, s.senders[e][0], LastOffer(s0, before, s.senders[e][0]));
      }
    case OpReply(u, m) => ReplyCoherent(s, u, m);
    case OpTake(u) =>
  }

  /** In every run the inbox of a thread is its mail. */
  lemma {:induction false} InboxIsMail(threads: nat, endpoints: nat, ops: seq<Op>, t: nat)
    ensures Inbox(Run(New(threads, endpoints), ops), t) == Mail(New(threads, endpoints), ops, t)
  {
    hide Step, Coherent, KeepsOffer, Deliver, LastOffer;
    var s0 := New(threads, endpoints);
    if ops != [] {
      var before := ops[..|ops| - 1];
      InboxIsMail(threads, endpoints, before, t);
      NewCoherent(threads, endpoints);
      RunCoherent(s0, before);
      forall u: nat ensures KeepsOffer(Run(s0, before), u, LastOffer(s0, before, u)) {
        OutgoingIsLastOffer(threads, endpoints, before, u);
      }
      StepDelivers(s0, before, ops[|ops| - 1], t);
    }
  }

  /** In every run, taking a message answers with the mail: the whole message that was passed, once. */
  lemma TakeGivesMail(threads: nat, endpoints: nat, ops: seq<Op>, t: nat)
    ensures AnswerTo(New(threads, endpoints), ops, OpTake(t)) == Taken(Mail(New(threads, endpoints), ops, t))
  {
    hide Run, Mail;
    InboxIsMail(threads, endpoints, ops, t);
  }
}
