/**
 The live runtime as a value: the demo's capability spaces and endpoints behind
 one application call and one console reply, each with the partial updates its
 early returns leave behind; and the theorem about every sequence of calls.
 */
module RuntimeModel {
  import opened Common
  import C = CapabilityModel
  import I = IpcModel
  import opened Syscall

  const ROOT_TASK := 0
  const CONSOLE_TASK := 1
  const APP_TASK := 2
  const UART_SLOT := 0
  const ENDPOINT_SLOT := 1

  datatype RuntimeError =
    | CapabilityError(cap: C.CapError)
    | SyscallFailed(syscall: SyscallError)
    | WrongTask
    | IpcFailed(ipc: I.IpcError)

  datatype Runtime = Runtime(caps: C.Caps, ipc: I.Ipc, current: nat, pending: U8)

  const UART := C.Mmio(0x0900_0000, 1)

  predicate Valid(rt: Runtime) {
    |rt.caps.nodes| <= 0x1_0000 && I.WellFormed(rt.ipc)
  }

  function Empty(): Runtime {
    Runtime(C.New(4, 8, 16), I.New(4, 2), APP_TASK, 0)
  }

  /** Root holds both objects; console may write the UART and the app may write the endpoint. */
  function BootCaps(c0: C.Caps): (C.Caps, Result<(), C.CapError>)
    requires |c0.nodes| <= 0x1_0000
  {
    var (c1, r1) := C.CreateRoot(c0, C.Slot(ROOT_TASK, UART_SLOT), UART, C.ALL);
    if r1.Err? then (c1, r1) else
    var (c2, r2) := C.Mint(c1, C.Slot(ROOT_TASK, UART_SLOT), C.Slot(CONSOLE_TASK, UART_SLOT), C.WRITE);
    if r2.Err? then (c2, r2) else
    var (c3, r3) := C.CreateRoot(c2, C.Slot(ROOT_TASK, ENDPOINT_SLOT), C.Endpoint(0), C.ALL);
    if r3.Err? then (c3, r3) else
    C.Mint(c3, C.Slot(ROOT_TASK, ENDPOINT_SLOT), C.Slot(APP_TASK, ENDPOINT_SLOT), C.WRITE)
  }

  function Request(byte: U8): I.Message {
    I.Message(1, 1, [byte, 0, 0, 0], None)
  }

  /** Call, receive and take, as the app's system call runs them. */
  function Rendezvous(ipc: I.Ipc, byte: U8): (I.Ipc, Result<U8, RuntimeError>)
    requires I.WellFormed(ipc)
  {
    var (i1, r1) := I.Offer(ipc, APP_TASK, 0, Request(byte), true);
    I.OfferWellFormed(ipc, APP_TASK, 0, Request(byte), true);
    if r1.Err? then (i1, Err(IpcFailed(r1.error))) else
    if r1.value != I.Blocked then (i1, Err(WrongTask)) else
    var (i2, r2) := I.Receive(i1, CONSOLE_TASK, 0);
    if r2.Err? then (i2, Err(IpcFailed(r2.error))) else
    if r2.value != I.Delivered(APP_TASK) then (i2, Err(WrongTask)) else
    var (i3, m) := I.TakeMessage(i2, CONSOLE_TASK);
    if m.None? then (i3, Err(WrongTask)) else (i3, Ok(m.value.registers[0] % 0x100))
  }

  function AppCall(rt: Runtime, byte: U8): (Runtime, Result<(), RuntimeError>)
    requires Valid(rt)
  {
    if rt.current != APP_TASK then (rt, Err(WrongTask)) else
    var granted := AuthorizeEndpoint(rt.caps, C.Slot(APP_TASK, ENDPOINT_SLOT), C.WRITE);
    if granted.Err? then (rt, Err(SyscallFailed(granted.error))) else
    var (ipc, r) := Rendezvous(rt.ipc, byte);
    if r.Err? then (rt.(ipc := ipc), Err(r.error))
    else (rt.(ipc := ipc, pending := r.value, current := CONSOLE_TASK), Ok(()))
  }

  ghost function ConsoleReply(rt: Runtime): (Runtime, Result<(U8, nat), RuntimeError>)
    requires Valid(rt)
  {
    if rt.current != CONSOLE_TASK then (rt, Err(WrongTask)) else
    var granted := AuthorizeMmio(rt.caps, C.Slot(CONSOLE_TASK, UART_SLOT), C.WRITE);
    if granted.Err? then (rt, Err(SyscallFailed(granted.error))) else
    var (ipc, r) := I.Reply(rt.ipc, CONSOLE_TASK, I.EMPTY_MESSAGE);
    if r.Err? then (rt.(ipc := ipc), Err(IpcFailed(r.error))) else
    var (caps, revoked) := C.Revoke(rt.caps, C.Slot(ROOT_TASK, ENDPOINT_SLOT));
    var rt' := rt.(ipc := ipc, current := APP_TASK, caps := caps);
    if revoked.Err? then (rt', Err(CapabilityError(revoked.error))) else (rt', Ok((rt.pending, revoked.value)))
  }

  // ---------------------------------------------------------------------
  // The state after bootstrap
  // ---------------------------------------------------------------------

  function Filler(n: nat): (r: seq<C.Node>)
    ensures |r| == n && forall i :: 0 <= i < n ==> r[i] == C.EMPTY_NODE
  {
    seq(n, _ => C.EMPTY_NODE)
  }

  /** A node table whose first nodes are `ns`, all live, and whose rest has never been used. */
  function Booted(held: map<C.Slot, C.CapRef>, ns: seq<C.Node>): C.Caps
    requires |ns| <= 16
  {
    C.Caps(4, 8, held, ns + Filler(16 - |ns|))
  }

  lemma {:induction false} FirstDeadAfter(nodes: seq<C.Node>, from: nat, n: nat)
    requires from <= n < |nodes| && !nodes[n].live && forall i :: from <= i < n ==> nodes[i].live
    ensures C.FirstDead(nodes, from) == Some(n)
    decreases n - from
  {
    if from < n {
      FirstDeadAfter(nodes, from + 1, n);
    }
  }

  lemma InstallNext(
    held: map<C.Slot, C.CapRef>, ns: seq<C.Node>, s: C.Slot, obj: C.Object, rights: C.Rights, parent: Option<C.CapRef>)
    requires |ns| < 16 && forall i :: 0 <= i < |ns| ==> ns[i].live
    ensures C.Install(Booted(held, ns), s, obj, rights, parent) ==
      (Booted(held[s := C.CapRef(|ns|, 0)], ns + [C.Node(obj, rights, parent, 0, true)]), Ok(()))
  {
    var nodes := ns + Filler(16 - |ns|);
    var node := C.Node(obj, rights, parent, 0, true);
    FirstDeadAfter(nodes, 0, |ns|);
    assert nodes[|ns| := node] == (ns + [node]) + Filler(15 - |ns|);
  }

  const ROOT_UART := C.Node(UART, C.ALL, None, 0, true)
  const CONSOLE_UART := C.Node(UART, C.WRITE, Some(C.CapRef(0, 0)), 0, true)
  const ROOT_ENDPOINT := C.Node(C.Endpoint(0), C.ALL, None, 0, true)
  const APP_ENDPOINT := C.Node(C.Endpoint(0), C.WRITE, Some(C.CapRef(2, 0)), 0, true)

  const HELD_1 := map[C.Slot(0, 0) := C.CapRef(0, 0)]
  const HELD_2 := HELD_1[C.Slot(1, 0) := C.CapRef(1, 0)]
  const HELD_3 := HELD_2[C.Slot(0, 1) := C.CapRef(2, 0)]
  const HELD_4 := HELD_3[C.Slot(2, 1) := C.CapRef(3, 0)]

  function Booting(k: nat): C.Caps
    requires k <= 4
  {
    Booted(if k == 0 then map[]
           else if k == 1 then HELD_1
           else if k == 2 then HELD_2
           else if k == 3 then HELD_3
           else HELD_4,
           [ROOT_UART, CONSOLE_UART, ROOT_ENDPOINT, APP_ENDPOINT][..k])
  }

  function Granted(): C.Caps {
    Booting(4)
  }

  lemma BootUartRoot()
    ensures C.CreateRoot(Booting(0), C.Slot(0, 0), UART, C.ALL) == (Booting(1), Ok(()))
  {
    InstallNext(map[], [], C.Slot(0, 0), UART, C.ALL, None);
    assert Booting(0) == Booted(map[], []) && Booting(1) == Booted(HELD_1, [] + [ROOT_UART]);
  }

  lemma BootConsole()
    ensures C.Mint(Booting(1), C.Slot(0, 0), C.Slot(1, 0), C.WRITE) == (Booting(2), Ok(()))
  {
    var ns := [ROOT_UART];
    InstallNext(HELD_1, ns, C.Slot(1, 0), UART, C.WRITE, Some(C.CapRef(0, 0)));
    assert Booting(1) == Booted(HELD_1, ns) && Booting(2) == Booted(HELD_2, ns + [CONSOLE_UART]);
  }

  lemma BootEndpointRoot()
    ensures C.CreateRoot(Booting(2), C.Slot(0, 1), C.Endpoint(0), C.ALL) == (Booting(3), Ok(()))
  {
    var ns := [ROOT_UART, CONSOLE_UART];
    InstallNext(HELD_2, ns, C.Slot(0, 1), C.Endpoint(0), C.ALL, None);
    assert Booting(2) == Booted(HELD_2, ns) && Booting(3) == Booted(HELD_3, ns + [ROOT_ENDPOINT]);
  }

  lemma BootApp()
    ensures C.Mint(Booting(3), C.Slot(0, 1), C.Slot(2, 1), C.WRITE) == (Booting(4), Ok(()))
  {
    var ns := [ROOT_UART, CONSOLE_UART, ROOT_ENDPOINT];
    InstallNext(HELD_3, ns, C.Slot(2, 1), C.Endpoint(0), C.WRITE, Some(C.CapRef(2, 0)));
    assert Booting(3) == Booted(HELD_3, ns) && Booting(4) == Booted(HELD_4, ns + [APP_ENDPOINT]);
  }

  /** Bootstrap succeeds and builds exactly the two derivation trees of the demo. */
  lemma BootstrapGrants()
    ensures BootCaps(C.New(4, 8, 16)) == (Granted(), Ok(()))
    ensures C.Inv(Granted())
  {
    assert C.New(4, 8, 16) == Booting(0);
    BootUartRoot();
    BootConsole();
    BootEndpointRoot();
    BootApp();
    hide Booting, C.Mint, C.CreateRoot;
    C.NewInv(4, 8, 16);
    C.StepInv(Booting(0), C.OpCreateRoot(C.Slot(0, 0), UART, C.ALL));
    C.StepInv(Booting(1), C.OpMint(C.Slot(0, 0), C.Slot(1, 0), C.WRITE));
    C.StepInv(Booting(2), C.OpCreateRoot(C.Slot(0, 1), C.Endpoint(0), C.ALL));
    C.StepInv(Booting(3), C.OpMint(C.Slot(0, 1), C.Slot(2, 1), C.WRITE));
  }

  // ---------------------------------------------------------------------
  // One call, one reply, one revocation
  // ---------------------------------------------------------------------

  /** The app has called and waits; the console has taken the request and owes the reply. */
  function Called(byte: U8): I.Ipc {
    I.Ipc([I.EMPTY_THREAD,
           I.Thread(I.Runnable, I.EMPTY_MESSAGE, None, false, Some(APP_TASK)),
           I.Thread(I.ReplyBlocked(CONSOLE_TASK), Request(byte), None, true, None),
           I.EMPTY_THREAD],
          [[], []], [[], []])
  }

  function Replied(byte: U8): I.Ipc {
    I.Ipc([I.EMPTY_THREAD,
           I.EMPTY_THREAD,
           I.Thread(I.Runnable, Request(byte), Some(I.EMPTY_MESSAGE), true, None),
           I.EMPTY_THREAD],
          [[], []], [[], []])
  }

  lemma SameIpc(a: I.Ipc, b: I.Ipc)
    requires |a.threads| == 4 == |b.threads| && |a.senders| == 2 == |b.senders| && |a.receivers| == 2 == |b.receivers|
    requires a.threads[0] == b.threads[0] && a.threads[1] == b.threads[1]
    requires a.threads[2] == b.threads[2] && a.threads[3] == b.threads[3]
    requires a.senders[0] == b.senders[0] && a.senders[1] == b.senders[1]
    requires a.receivers[0] == b.receivers[0] && a.receivers[1] == b.receivers[1]
    ensures a == b
  {
    assert a.threads == b.threads && a.senders == b.senders && a.receivers == b.receivers;
  }

  /** The app has called and nobody has received yet. */
  function Calling(byte: U8): I.Ipc {
    I.Ipc([I.EMPTY_THREAD,
           I.EMPTY_THREAD,
           I.Thread(I.Sending(0), Request(byte), None, true, None),
           I.EMPTY_THREAD],
          [[APP_TASK], []], [[], []])
  }

  lemma CallBlocks(byte: U8)
    ensures I.Offer(I.New(4, 2), APP_TASK, 0, Request(byte), true) == (Calling(byte), Ok(I.Blocked))
  {
    var s1 := I.Offer(I.New(4, 2), APP_TASK, 0, Request(byte), true).0;
    assert s1.senders[0] == [APP_TASK] && s1.senders[1] == [];
    SameIpc(s1, Calling(byte));
  }

  lemma ReceiveDelivers(byte: U8)
    ensures I.Receive(Calling(byte), CONSOLE_TASK, 0).1 == Ok(I.Delivered(APP_TASK))
    ensures I.TakeMessage(I.Receive(Calling(byte), CONSOLE_TASK, 0).0, CONSOLE_TASK) ==
      (Called(byte), Some(Request(byte)))
  {
    var s2 := I.Receive(Calling(byte), CONSOLE_TASK, 0).0;
    assert s2.senders[0] == [] && s2.senders[1] == [];
    SameIpc(I.TakeMessage(s2, CONSOLE_TASK).0, Called(byte));
  }

  /** The byte the app passes is the byte the console finds. */
  lemma RendezvousDelivers(byte: U8)
    ensures Rendezvous(I.New(4, 2), byte) == (Called(byte), Ok(byte))
  {
    hide I.Offer, I.Receive, I.TakeMessage, Calling, Called;
    CallBlocks(byte);
    ReceiveDelivers(byte);
  }

  lemma ReplyWakesApp(byte: U8)
    ensures I.Reply(Called(byte), CONSOLE_TASK, I.EMPTY_MESSAGE) == (Replied(byte), Ok(I.Delivered(APP_TASK)))
  {
    SameIpc(I.Reply(Called(byte), CONSOLE_TASK, I.EMPTY_MESSAGE).0, Replied(byte));
  }

  /** The endpoint's root and the app's grant are one subtree of two nodes. */
  lemma EndpointSubtree()
    ensures C.Subtree(Granted().nodes, 2) == {2, 3}
  {
    var nodes := Granted().nodes;
    BootstrapGrants();
    assert nodes[0] == ROOT_UART && nodes[1] == CONSOLE_UART && nodes[2] == ROOT_ENDPOINT && nodes[3] == APP_ENDPOINT;
    hide Booting;
    assert C.Attenuated(nodes, 0) && C.Attenuated(nodes, 1) && C.Attenuated(nodes, 2) && C.Attenuated(nodes, 3);
    C.DescendsUnfold(nodes, 0, 2);
    C.DescendsUnfold(nodes, 1, 2);
    C.DescendsUnfold(nodes, 2, 2);
    C.DescendsUnfold(nodes, 3, 2);
    hide C.Descends;
    OnlyFourLive();
    forall i: nat | 4 <= i < |nodes| ensures !C.Descends(nodes, i, 2) {
      DeadDescendsNowhere(nodes, i, 2);
    }
  }

  lemma OnlyFourLive()
    ensures |Granted().nodes| == 16 && forall i :: 4 <= i < 16 ==> !Granted().nodes[i].live
  {
  }

  lemma DeadDescendsNowhere(nodes: seq<C.Node>, i: nat, r: nat)
    requires i < |nodes| && !nodes[i].live
    ensures !C.Descends(nodes, i, r)
  {
  }

  function Revoked(): C.Caps {
    C.Without(Granted(), {2, 3})
  }

  lemma RevokeKillsTwo()
    ensures C.Revoke(Granted(), C.Slot(ROOT_TASK, ENDPOINT_SLOT)) == (Revoked(), Ok(2))
  {
    EndpointSubtree();
    hide C.Subtree, C.Without;
    assert C.ResolveRef(Granted().nodes, C.CapRef(2, 0)).Ok?;
  }

  lemma GrantedAuthority()
    ensures AuthorizeEndpoint(Granted(), C.Slot(APP_TASK, ENDPOINT_SLOT), C.WRITE) == Ok(0)
    ensures AuthorizeMmio(Granted(), C.Slot(CONSOLE_TASK, UART_SLOT), C.WRITE).Ok?
  {
    assert Granted().nodes[1] == CONSOLE_UART && Granted().nodes[3] == APP_ENDPOINT;
  }

  lemma RevokedAuthority()
    ensures AuthorizeEndpoint(Revoked(), C.Slot(APP_TASK, ENDPOINT_SLOT), C.WRITE) == Err(Capability(C.EmptySlot))
  {
    assert Granted().held[C.Slot(2, 1)] == C.CapRef(3, 0);
  }

  // ---------------------------------------------------------------------
  // Every sequence of calls
  // ---------------------------------------------------------------------

  datatype Call = App(byte: U8) | Console

  datatype Answer = ToApp(app: Result<(), RuntimeError>) | ToConsole(console: Result<(U8, nat), RuntimeError>)

  ghost function Step(rt: Runtime, call: Call): (Runtime, Answer)
    requires Valid(rt)
  {
    match call
    case App(byte) => var (rt', r) := AppCall(rt, byte); (rt', ToApp(r))
    case Console => var (rt', r) := ConsoleReply(rt); (rt', ToConsole(r))
  }

  datatype Phase = Ready | Serving(byte: U8) | Over(byte: U8)

  function StateOf(p: Phase): Runtime {
    match p
    case Ready => Runtime(Granted(), I.New(4, 2), APP_TASK, 0)
    case Serving(b) => Runtime(Granted(), Called(b), CONSOLE_TASK, b)
    case Over(b) => Runtime(Revoked(), Replied(b), APP_TASK, b)
  }

  function Next(p: Phase, call: Call): Phase {
    if p.Ready? && call.App? then Serving(call.byte)
    else if p.Serving? && call.Console? then Over(p.byte)
    else p
  }

  function Expected(p: Phase, call: Call): Answer {
    match call
    case App(_) =>
      ToApp(match p
            case Ready => Ok(())
            case Serving(_) => Err(WrongTask)
            case Over(_) => Err(SyscallFailed(Capability(C.EmptySlot))))
    case Console => ToConsole(if p.Serving? then Ok((p.byte, 2)) else Err(WrongTask))
  }

  lemma StateOfValid(p: Phase)
    ensures Valid(StateOf(p))
  {
  }

  /** The runtime answers and moves as the three-phase protocol does. */
  lemma StepFollows(p: Phase, call: Call)
    ensures Valid(StateOf(p)) && Step(StateOf(p), call) == (StateOf(Next(p, call)), Expected(p, call))
  {
    hide Granted, Revoked, Called, Replied, I.New, Rendezvous, I.Reply, C.Revoke, AuthorizeEndpoint, AuthorizeMmio;
    StateOfValid(p);
    GrantedAuthority();
    RevokedAuthority();
    RevokeKillsTwo();
    if p.Ready? && call.App? {
      RendezvousDelivers(call.byte);
    }
    if p.Serving? && call.Console? {
      ReplyWakesApp(p.byte);
    }
  }

  /** The runtime that `initialize` leaves. */
  function Initialized(): Runtime {
    Empty().(caps := BootCaps(C.New(4, 8, 16)).0)
  }

  lemma InitializedIsReady()
    ensures Initialized() == StateOf(Ready)
    ensures BootCaps(C.New(4, 8, 16)).1 == Ok(())
  {
    BootstrapGrants();
  }

  function PhaseAfter(calls: seq<Call>): Phase {
    if calls == [] then Ready else Next(PhaseAfter(calls[..|calls| - 1]), calls[|calls| - 1])
  }

  ghost function Run(calls: seq<Call>): (rt: Runtime)
    ensures Valid(rt) && rt == StateOf(PhaseAfter(calls))
  {
    if calls == [] then
      InitializedIsReady();
      StateOfValid(Ready);
      Initialized()
    else
      StepFollows(PhaseAfter(calls[..|calls| - 1]), calls[|calls| - 1]);
      StateOfValid(PhaseAfter(calls));
      Step(Run(calls[..|calls| - 1]), calls[|calls| - 1]).0
  }

  /** The answer to the `i`-th call of the sequence. */
  ghost function AnswerAt(calls: seq<Call>, i: nat): Answer
    requires i < |calls|
  {
    Step(Run(calls[..i]), calls[i]).1
  }

  lemma AnswerIsExpected(calls: seq<Call>, i: nat)
    requires i < |calls|
    ensures AnswerAt(calls, i) == Expected(PhaseAfter(calls[..i]), calls[i])
  {
    hide Step, StateOf, Expected;
    StepFollows(PhaseAfter(calls[..i]), calls[i]);
  }

  /** Phases only move forward and keep their byte. */
  predicate Reaches(p: Phase, q: Phase) {
    match p
    case Ready => true
    case Serving(b) => q == Serving(b) || q == Over(b)
    case Over(b) => q == Over(b)
  }

  lemma {:induction false} PhasesAdvance(calls: seq<Call>, i: nat, j: nat)
    requires i <= j <= |calls|
    ensures Reaches(PhaseAfter(calls[..i]), PhaseAfter(calls[..j]))
    decreases j
  {
    if i < j {
      PhasesAdvance(calls, i, j - 1);
      assert calls[..j][..j - 1] == calls[..j - 1];
    }
  }

  /** Where the byte being served came from. */
  lemma {:induction false} ByteCameFromApp(calls: seq<Call>, n: nat) returns (j: nat)
    requires n <= |calls| && !PhaseAfter(calls[..n]).Ready?
    ensures j < n && calls[j] == App(PhaseAfter(calls[..n]).byte) && PhaseAfter(calls[..j]) == Ready
    decreases n
  {
    assert calls[..n][..n - 1] == calls[..n - 1];
    if PhaseAfter(calls[..n - 1]).Ready? {
      j := n - 1;
    } else {
      j := ByteCameFromApp(calls, n - 1);
    }
  }

  predicate ReleasesByte(a: Answer) {
    a.ToConsole? && a.console.Ok?
  }

  predicate SurfacesIpcError(a: Answer) {
    match a
    case ToApp(r) => r.Err? && r.error.IpcFailed?
    case ToConsole(r) => r.Err? && r.error.IpcFailed?
  }

  /** No sequence of calls ever surfaces an IPC error. */
  lemma NoIpcError(calls: seq<Call>, i: nat)
    requires i < |calls|
    ensures !SurfacesIpcError(AnswerAt(calls, i))
  {
    hide AnswerAt;
    AnswerIsExpected(calls, i);
  }

  /**
   A released byte is the byte of the earlier successful call, comes with exactly
   two revoked nodes, is the only byte ever released, and every later call of the
   app finds its slot empty.
   */
  lemma ReleasedOnce(calls: seq<Call>, i: nat) returns (j: nat)
    requires i < |calls| && ReleasesByte(AnswerAt(calls, i))
    ensures j < i && calls[j] == App(AnswerAt(calls, i).console.value.0) && AnswerAt(calls, j) == ToApp(Ok(()))
    ensures AnswerAt(calls, i).console.value.1 == 2
    ensures forall k :: 0 <= k < |calls| && ReleasesByte(AnswerAt(calls, k)) ==> k == i
    ensures forall k :: 0 <= k < |calls| && AnswerAt(calls, k) == ToApp(Ok(())) ==> k == j
    ensures forall k :: i < k < |calls| && calls[k].App? ==>
      AnswerAt(calls, k) == ToApp(Err(SyscallFailed(Capability(C.EmptySlot))))
  {
    hide AnswerAt;
    AnswerIsExpected(calls, i);
    j := ByteCameFromApp(calls, i);
    AnswerIsExpected(calls, j);
    forall k | 0 <= k < |calls|
      ensures ReleasesByte(AnswerAt(calls, k)) ==> k == i
      ensures AnswerAt(calls, k) == ToApp(Ok(())) ==> k == j
      ensures i < k && calls[k].App? ==> AnswerAt(calls, k) == ToApp(Err(SyscallFailed(Capability(C.EmptySlot))))
    {
      OtherAnswers(calls, i, j, k);
    }
  }

  lemma OtherAnswers(calls: seq<Call>, i: nat, j: nat, k: nat)
    requires i < |calls| && j < i && k < |calls|
    requires PhaseAfter(calls[..i]).Serving? && calls[i].Console?
    requires PhaseAfter(calls[..j]).Ready? && calls[j].App?
    ensures ReleasesByte(AnswerAt(calls, k)) ==> k == i
    ensures AnswerAt(calls, k) == ToApp(Ok(())) ==> k == j
    ensures i < k && calls[k].App? ==> AnswerAt(calls, k) == ToApp(Err(SyscallFailed(Capability(C.EmptySlot))))
  {
    hide AnswerAt;
    AnswerIsExpected(calls, k);
    assert calls[..i + 1][..i] == calls[..i] && calls[..j + 1][..j] == calls[..j];
    assert PhaseAfter(calls[..i + 1]).Over? && PhaseAfter(calls[..j + 1]).Serving?;
    if k > i {
      PhasesAdvance(calls, i + 1, k);
    } else if k < i {
      assert calls[..k + 1][..k] == calls[..k];
      PhasesAdvance(calls, k + 1, i);
      if k > j {
        PhasesAdvance(calls, j + 1, k);
      } else if k < j {
        PhasesAdvance(calls, k + 1, j);
      }
    }
  }
}
