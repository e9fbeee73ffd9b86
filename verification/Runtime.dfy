/**
 The runtime as the kernel runs it, composed from the capability system and the
 rendezvous mechanism. Each method is proved to follow RuntimeModel, early
 returns included.
 */
module RuntimeMachine {
  import opened Common
  import C = CapabilityModel
  import I = IpcModel
  import opened Capability
  import opened IpcMachine
  import opened Syscall
  import M = RuntimeModel

  class Runtime {
    const capabilities: CapabilitySystem
    const ipc: RendezvousIpc
    var currentTask: nat
    var pendingByte: U8

    /** The two subsystems share no storage with each other or with the runtime. */
    ghost predicate Separate() {
      && this !in ipc.repr
      && capabilities !in ipc.repr && capabilities.spaces !in ipc.repr && capabilities.nodes !in ipc.repr
    }

    ghost predicate Valid()
      reads this, capabilities, capabilities.spaces, capabilities.nodes, ipc, ipc.repr
    {
      Separate() && capabilities.Valid() && ipc.Valid() && M.Valid(View())
    }

    ghost function View(): M.Runtime
      reads this, capabilities, ipc
    {
      M.Runtime(capabilities.state, ipc.state, currentTask, pendingByte)
    }

    constructor ()
      ensures Valid() && View() == M.Empty()
      ensures fresh(capabilities) && fresh(capabilities.spaces) && fresh(capabilities.nodes)
      ensures fresh(ipc) && fresh(ipc.repr)
    {
      var caps := new CapabilitySystem(4, 8, 16);
      var rendezvous := new RendezvousIpc(4, 2);
      capabilities := caps;
      ipc := rendezvous;
      currentTask := M.APP_TASK;
      pendingByte := 0;
    }

    method Bootstrap() returns (r: Result<(), M.RuntimeError>)
      requires Valid()
      modifies capabilities, capabilities.spaces, capabilities.nodes
      ensures Valid()
      ensures View() == old(View()).(caps := M.BootCaps(old(capabilities.state)).0)
      ensures r ==
        var b := M.BootCaps(old(capabilities.state)).1;
        if b.Ok? then Ok(()) else Err(M.CapabilityError(b.error))
    {
      hide RendezvousIpc.Valid, C.CreateRoot, C.Mint;
      var step := capabilities.CreateRoot(M.ROOT_TASK, M.UART_SLOT, M.UART, C.ALL);
      if step.Err? {
        return Err(M.CapabilityError(step.error));
      }
      step := capabilities.Mint(M.ROOT_TASK, M.UART_SLOT, M.CONSOLE_TASK, M.UART_SLOT, C.WRITE);
      if step.Err? {
        return Err(M.CapabilityError(step.error));
      }
      step := capabilities.CreateRoot(M.ROOT_TASK, M.ENDPOINT_SLOT, C.Endpoint(0), C.ALL);
      if step.Err? {
        return Err(M.CapabilityError(step.error));
      }
      step := capabilities.Mint(M.ROOT_TASK, M.ENDPOINT_SLOT, M.APP_TASK, M.ENDPOINT_SLOT, C.WRITE);
      if step.Err? {
        return Err(M.CapabilityError(step.error));
      }
      return Ok(());
    }

    method AppCall(byte: U8) returns (r: Result<(), M.RuntimeError>)
      requires Valid()
      modifies this, ipc, ipc.repr
      ensures Valid()
      ensures (View(), r) == M.AppCall(old(View()), byte)
    {
      hide CapabilitySystem.Valid, AllApart, Queue.Valid, I.Offer, I.Receive, I.TakeMessage;
      if currentTask != M.APP_TASK {
        return Err(M.WrongTask);
      }
      var granted := EndpointFor(capabilities, M.APP_TASK, M.ENDPOINT_SLOT, C.WRITE);
      if granted.Err? {
        return Err(M.SyscallFailed(granted.error));
      }
      var called := ipc.Call(M.APP_TASK, 0, M.Request(byte));
      if called.Err? {
        return Err(M.IpcFailed(called.error));
      }
      if called.value != I.Blocked {
        return Err(M.WrongTask);
      }
      var received := ipc.Receive(M.CONSOLE_TASK, 0);
      if received.Err? {
        return Err(M.IpcFailed(received.error));
      }
      if received.value != I.Delivered(M.APP_TASK) {
        return Err(M.WrongTask);
      }
      var message := ipc.TakeMessage(M.CONSOLE_TASK);
      if message.None? {
        return Err(M.WrongTask);
      }
      pendingByte := message.value.registers[0] % 0x100;
      currentTask := M.CONSOLE_TASK;
      return Ok(());
    }

    method ConsoleReplyAndRevoke() returns (r: Result<(U8, nat), M.RuntimeError>)
      requires Valid()
      modifies this, ipc, ipc.repr, capabilities, capabilities.spaces, capabilities.nodes
      ensures Valid()
      ensures (View(), r) == M.ConsoleReply(old(View()))
    {
      hide AllApart, Queue.Valid, Entry, C.ParentsSound, C.Acyclic, C.SlotsDistinct, C.LiveHeld, I.Reply, C.Revoke;
      if currentTask != M.CONSOLE_TASK {
        return Err(M.WrongTask);
      }
      var granted := MmioFor(capabilities, M.CONSOLE_TASK, M.UART_SLOT, C.WRITE);
      if granted.Err? {
        return Err(M.SyscallFailed(granted.error));
      }
      var byte := pendingByte;
      var replied := ipc.Reply(M.CONSOLE_TASK, I.EMPTY_MESSAGE);
      if replied.Err? {
        return Err(M.IpcFailed(replied.error));
      }
      currentTask := M.APP_TASK;
      var revoked := capabilities.Revoke(M.ROOT_TASK, M.ENDPOINT_SLOT);
      if revoked.Err? {
        return Err(M.CapabilityError(revoked.error));
      }
      return Ok((byte, revoked.value));
    }
  }

  method EndpointFor(capabilities: CapabilitySystem, caller: nat, slot: nat, required: C.Rights)
    returns (r: Result<U16, SyscallError>)
    requires capabilities.Valid()
    ensures r == AuthorizeEndpoint(capabilities.state, C.Slot(caller, slot), required)
  {
    var resolved := capabilities.Resolve(caller, slot, required);
    if resolved.Err? {
      return Err(Capability(resolved.error));
    }
    return match resolved.value.obj
      case Endpoint(endpoint) => Ok(endpoint)
      case _ => Err(WrongObjectType);
  }

  method MmioFor(capabilities: CapabilitySystem, caller: nat, slot: nat, required: C.Rights)
    returns (r: Result<(U64, U16), SyscallError>)
    requires capabilities.Valid()
    ensures r == AuthorizeMmio(capabilities.state, C.Slot(caller, slot), required)
  {
    var resolved := capabilities.Resolve(caller, slot, required);
    if resolved.Err? {
      return Err(Capability(resolved.error));
    }
    return match resolved.value.obj
      case Mmio(base, pages) => Ok((base, pages))
      case _ => Err(WrongObjectType);
  }
}
