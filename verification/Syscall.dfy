/**
 Typed authorization of system calls: a slot is resolved with the required
 rights and its object must have the expected type.
 */
module Syscall {
  import opened Common
  import opened CapabilityModel
  import opened CapabilityTheorems

  datatype SyscallError = Unknown | Capability(error: CapError) | WrongObjectType

  function AuthorizeEndpoint(c: Caps, s: Slot, required: Rights): Result<U16, SyscallError> {
    var r := Resolve(c, s, required);
    if r.Err? then Err(Capability(r.error))
    else if r.value.obj.Endpoint? then Ok(r.value.obj.endpoint)
    else Err(WrongObjectType)
  }

  function AuthorizeFrame(c: Caps, s: Slot, required: Rights): Result<U32, SyscallError> {
    var r := Resolve(c, s, required);
    if r.Err? then Err(Capability(r.error))
    else if r.value.obj.Frame? then Ok(r.value.obj.frame)
    else Err(WrongObjectType)
  }

  function AuthorizeMmio(c: Caps, s: Slot, required: Rights): Result<(U64, U16), SyscallError> {
    var r := Resolve(c, s, required);
    if r.Err? then Err(Capability(r.error))
    else if r.value.obj.Mmio? then Ok((r.value.obj.base, r.value.obj.pages))
    else Err(WrongObjectType)
  }

  /** The slot grants access to the object with the required rights, whatever the object's type. */
  predicate Grants(c: Caps, s: Slot, obj: Object, required: Rights) {
    Resolve(c, s, required).Ok? && Resolve(c, s, required).value.obj == obj
  }

  /** Each authorization succeeds exactly for a capability of its own type and the required rights. */
  lemma AuthorizationIsTyped(c: Caps, s: Slot, required: Rights)
    ensures forall e: U16 :: AuthorizeEndpoint(c, s, required) == Ok(e) <==> Grants(c, s, Endpoint(e), required)
    ensures forall f: U32 :: AuthorizeFrame(c, s, required) == Ok(f) <==> Grants(c, s, Frame(f), required)
    ensures forall b: U64, p: U16 :: AuthorizeMmio(c, s, required) == Ok((b, p)) <==> Grants(c, s, Mmio(b, p), required)
  {
  }

  /** Why a slot does not grant the required rights, judged by what it holds. */
  function Denial(c: Caps, s: Slot, required: Rights): Option<CapError> {
    if s.task >= c.tasks then Some(BadTask)
    else if s.index >= c.slots then Some(BadSlot)
    else if s !in c.held then Some(EmptySlot)
    else if c.held[s].node < |c.nodes| && !c.nodes[c.held[s].node].rights.Contains(required) then Some(PermissionDenied)
    else None
  }

  /**
   After any run the three authorizations fail with the same capability error,
   which is decided by what the slot holds and is never `Stale`, or with
   `WrongObjectType`, exactly when the slot grants an object of another type.
   */
  lemma AuthorizationErrors(tasks: nat, slots: nat, size: nat, ops: seq<Op>, s: Slot, required: Rights)
    requires size <= 0x1_0000
    ensures var c := Run(New(tasks, slots, size), ops);
      var denied := Denial(c, s, required);
      && (denied.Some? ==>
            && AuthorizeEndpoint(c, s, required) == Err(Capability(denied.value))
            && AuthorizeFrame(c, s, required) == Err(Capability(denied.value))
            && AuthorizeMmio(c, s, required) == Err(Capability(denied.value)))
      && (denied.None? ==>
            && s in c.held && Current(c.nodes, c.held[s])
            && var obj := c.nodes[c.held[s].node].obj;
               && (AuthorizeEndpoint(c, s, required) == Err(WrongObjectType) <==> !obj.Endpoint?)
               && (AuthorizeFrame(c, s, required) == Err(WrongObjectType) <==> !obj.Frame?)
               && (AuthorizeMmio(c, s, required) == Err(WrongObjectType) <==> !obj.Mmio?))
  {
    NewInv(tasks, slots, size);
    RunInv(New(tasks, slots, size), ops);
    hide Run, ParentsSound, Acyclic, SlotsDistinct, LiveHeld;
    var c := Run(New(tasks, slots, size), ops);
    assert s in c.held ==> Current(c.nodes, c.held[s]);
  }

  /**
   No system call is authorized out of thin air: after any run, what a slot
   grants was created by a root of the same object carrying the required rights.
   */
  lemma AuthorityComesFromRoots(
    tasks: nat, slots: nat, size: nat, ops: seq<Op>, s: Slot, obj: Object, required: Rights) returns (j: nat)
    requires size <= 0x1_0000
    requires Grants(Run(New(tasks, slots, size), ops), s, obj, required)
    ensures RootAt(New(tasks, slots, size), ops, j, obj, required)
  {
    var c := Run(New(tasks, slots, size), ops);
    var i := c.held[s].node;
    j := Provenance(tasks, slots, size, ops, i);
    ContainsTransitive(ops[j].rights, c.nodes[i].rights, required);
  }

  /** The rights a slot grants are granted by any slot that holds the same object with at least its rights. */
  lemma GrantsCarryOver(start: Caps, now: Caps, k0: Slot, k: Slot, obj: Object, required: Rights)
    requires k0 in start.held && InRange(start, k0) && Current(start.nodes, start.held[k0])
    requires Grants(now, k, obj, required)
    requires k in now.held && Current(now.nodes, now.held[k])
    requires start.nodes[start.held[k0].node].obj == now.nodes[now.held[k].node].obj
    requires start.nodes[start.held[k0].node].rights.Contains(now.nodes[now.held[k].node].rights)
    ensures Grants(start, k0, obj, required)
  {
    ContainsTransitive(start.nodes[start.held[k0].node].rights, now.nodes[now.held[k].node].rights, required);
  }

  lemma GrantsNeedsHeld(c: Caps, s: Slot, obj: Object, required: Rights)
    requires Grants(c, s, obj, required)
    ensures s in c.held
  {
  }

  /** What a task inside `tasks` can use after a confined run, some task inside could use before it. */
  lemma AuthorityWasInside(start: Caps, tasks: set<nat>, ops: seq<Op>, obj: Object, required: Rights, k: Slot)
    returns (k0: Slot)
    requires Inv(start) && forall j :: 0 <= j < |ops| ==> StaysInside(tasks, ops[j])
    requires k.task in tasks && Grants(Run(start, ops), k, obj, required)
    ensures k0.task in tasks && Grants(start, k0, obj, required)
  {
    hide Run, Lineage, StaysInside, Grants, ParentsSound, Acyclic, SlotsDistinct, LiveHeld;
    GrantsNeedsHeld(Run(start, ops), k, obj, required);
    var n: nat;
    k0, n := Confinement(start, tasks, ops, k);
    GrantsCarryOver(start, Run(start, ops), k0, k, obj, required);
  }

  /**
   A sandbox gains nothing: if no task in `tasks` could use `obj` with the
   required rights at the start, none can after any run that creates no root inside
   `tasks` and mints nothing into `tasks` from outside.
   */
  lemma SandboxGainsNothing(start: Caps, tasks: set<nat>, ops: seq<Op>, obj: Object, required: Rights, k: Slot)
    requires Inv(start) && forall j :: 0 <= j < |ops| ==> StaysInside(tasks, ops[j])
    requires forall k0: Slot :: k0.task in tasks ==> !Grants(start, k0, obj, required)
    requires k.task in tasks
    ensures !Grants(Run(start, ops), k, obj, required)
  {
    hide Run, Grants;
    if Grants(Run(start, ops), k, obj, required) {
      var k0 := AuthorityWasInside(start, tasks, ops, obj, required, k);
    }
  }
}
