/**
 The capability system without nodes, generations or references: a table of
 leases in which a lease names the slot it was let from. Every run of the
 capability operations is matched, answer for answer, by a run on that table.
 */
module LeaseTree {
  import opened Common
  import opened CapabilityModel
  import opened CapabilityTheorems

  // ---------------------------------------------------------------------
  // Rights, one bit at a time
  // ---------------------------------------------------------------------

  predicate Allows(rights: Rights, k: bv3) {
    (rights.bits >> k) & 1 == 1
  }

  ghost predicate Covers(rights: Rights, requested: Rights) {
    forall k: bv3 :: Allows(requested, k) ==> Allows(rights, k)
  }

  /** The mask test asks for each requested right and for nothing else. */
  lemma ContainsIsCovers(rights: Rights, requested: Rights)
    ensures rights.Contains(requested) <==> Covers(rights, requested)
  {
    if Covers(rights, requested) {
      assert Allows(requested, 0) ==> Allows(rights, 0);
      assert Allows(requested, 1) ==> Allows(rights, 1);
      assert Allows(requested, 2) ==> Allows(rights, 2);
      assert Allows(requested, 3) ==> Allows(rights, 3);
      assert Allows(requested, 4) ==> Allows(rights, 4);
      assert Allows(requested, 5) ==> Allows(rights, 5);
      assert Allows(requested, 6) ==> Allows(rights, 6);
      assert Allows(requested, 7) ==> Allows(rights, 7);
    }
  }

  const GRANT_BIT: bv3 := 2

  lemma GrantIsOneRight(rights: Rights)
    ensures rights.Contains(GRANT) <==> Allows(rights, GRANT_BIT)
  {
  }

  // ---------------------------------------------------------------------
  // Leases
  // ---------------------------------------------------------------------

  datatype Lease = Lease(obj: Object, rights: Rights, from: Option<Slot>)

  datatype Leases = Leases(tasks: nat, slots: nat, capacity: nat, at: map<Slot, Lease>)

  function NoLeases(tasks: nat, slots: nat, capacity: nat): Leases {
    Leases(tasks, slots, capacity, map[])
  }

  /** What is wrong with the position itself. */
  function Misplaced(l: Leases, s: Slot): Option<CapError> {
    if s.task >= l.tasks then Some(BadTask)
    else if s.index >= l.slots then Some(BadSlot)
    else None
  }

  function MissingAt(l: Leases, s: Slot): Option<CapError> {
    if Misplaced(l, s).Some? then Misplaced(l, s)
    else if s !in l.at then Some(EmptySlot)
    else None
  }

  function OccupiedAt(l: Leases, s: Slot): Option<CapError> {
    if Misplaced(l, s).Some? then Misplaced(l, s)
    else if s in l.at then Some(DestinationOccupied)
    else None
  }

  /** The slot `t` holds a lease let, through `n` sublets, from the lease in `s`. */
  ghost predicate LetIn(at: map<Slot, Lease>, t: Slot, s: Slot, n: nat)
    decreases n
  {
    && t in at
    && if n == 0 then t == s else at[t].from.Some? && LetIn(at, at[t].from.value, s, n - 1)
  }

  ghost predicate Let(at: map<Slot, Lease>, t: Slot, s: Slot) {
    exists n: nat :: LetIn(at, t, s, n)
  }

  ghost function LetFrom(at: map<Slot, Lease>, s: Slot): set<Slot> {
    set t | t in at && Let(at, t, s)
  }

  /** The answer of an operation: how many leases it ended, or why it was refused. */
  type Answer = Result<nat, CapError>

  /** Why an operation is refused. */
  ghost function Refusal(l: Leases, op: Op): Option<CapError> {
    match op
    case OpCreateRoot(s, _, _) =>
      if OccupiedAt(l, s).Some? then OccupiedAt(l, s)
      else if |l.at| == l.capacity then Some(OutOfNodes)
      else None
    case OpMint(source, destination, rights) =>
      if OccupiedAt(l, destination).Some? then OccupiedAt(l, destination)
      else if MissingAt(l, source).Some? then MissingAt(l, source)
      else if !Allows(l.at[source].rights, GRANT_BIT) then Some(PermissionDenied)
      else if !Covers(l.at[source].rights, rights) then Some(PermissionDenied)
      else if |l.at| == l.capacity then Some(OutOfNodes)
      else None
    case OpRevoke(s) => MissingAt(l, s)
  }

  ghost function Perform(l: Leases, op: Op): (Leases, Answer) {
    if Refusal(l, op).Some? then (l, Err(Refusal(l, op).value)) else
    match op
    case OpCreateRoot(s, obj, rights) =>
      (l.(at := l.at[s := Lease(obj, rights, None)]), Ok(0))
    case OpMint(source, destination, rights) =>
      (l.(at := l.at[destination := Lease(l.at[source].obj, rights, Some(source))]), Ok(0))
    case OpRevoke(s) =>
      (l.(at := l.at - LetFrom(l.at, s)), Ok(|LetFrom(l.at, s)|))
  }

  ghost function PerformAll(l: Leases, ops: seq<Op>): Leases {
    if ops == [] then l else Perform(PerformAll(l, ops[..|ops| - 1]), ops[|ops| - 1]).0
  }

  ghost function Inspect(l: Leases, s: Slot, required: Rights): Result<Resolved, CapError> {
    if MissingAt(l, s).Some? then Err(MissingAt(l, s).value)
    else if !Covers(l.at[s].rights, required) then Err(PermissionDenied)
    else Ok(Resolved(l.at[s].obj, l.at[s].rights))
  }

  /** The answer the capability system gives to an operation. */
  ghost function Respond(c: Caps, op: Op): Answer
    requires |c.nodes| <= 0x1_0000
  {
    match op
    case OpCreateRoot(s, obj, rights) =>
      var r := CreateRoot(c, s, obj, rights).1; if r.Ok? then Ok(0) else Err(r.error)
    case OpMint(source, destination, rights) =>
      var r := Mint(c, source, destination, rights).1; if r.Ok? then Ok(0) else Err(r.error)
    case OpRevoke(s) => Revoke(c, s).1
  }

  // ---------------------------------------------------------------------
  // Representation
  // ---------------------------------------------------------------------

  /** The node named by slot `s` holds `lease`; its parent reference is the content of the slot it was let from. */
  ghost predicate Holds(c: Caps, s: Slot, lease: Lease)
    requires s in c.held
  {
    && c.held[s].node < |c.nodes|
    && var node := c.nodes[c.held[s].node];
       && lease.obj == node.obj && lease.rights == node.rights
       && (lease.from.Some? <==> node.parent.Some?)
       && (lease.from.Some? ==> lease.from.value in c.held && c.held[lease.from.value] == node.parent.value)
  }

  ghost predicate Represents(c: Caps, l: Leases) {
    && l.tasks == c.tasks && l.slots == c.slots && l.capacity == |c.nodes|
    && l.at.Keys == c.held.Keys
    && forall s :: s in c.held ==> Holds(c, s, l.at[s])
  }

  /** A node is left exactly when there are fewer leases than nodes. */
  lemma NodesLeft(c: Caps, l: Leases)
    requires Inv(c) && Represents(c, l)
    ensures FirstDead(c.nodes, 0).None? <==> |l.at| == l.capacity
  {
    hide Inv, Holds;
    SlotsMatchNodes(c);
    assert |l.at| == |l.at.Keys| == |c.held.Keys| == |c.held|;
    BoundedIndices(LiveNodes(c), |c.nodes|);
    var free := FirstDead(c.nodes, 0);
    assert free.Some? ==> free.value !in LiveNodes(c);
    assert free.None? ==> forall i: nat :: i < |c.nodes| ==> i in LiveNodes(c);
  }

  /** Descent between nodes is letting between the slots that hold them. */
  lemma {:induction false} DescendsIsLet(c: Caps, l: Leases, t: Slot, s: Slot, n: nat)
    requires Inv(c) && Represents(c, l) && t in c.held && s in c.held
    ensures DescendsIn(c.nodes, c.held[t].node, c.held[s].node, n) <==> LetIn(l.at, t, s, n)
    decreases n
  {
    assert Holds(c, t, l.at[t]);
    assert Current(c.nodes, c.held[t]);
    if n > 0 && l.at[t].from.Some? {
      var from := l.at[t].from.value;
      DescendsIsLet(c, l, from, s, n - 1);
      assert Current(c.nodes, c.held[from]);
      assert ChildOf(c.nodes, c.held[t].node, c.held[from].node);
    }
  }

  lemma SubtreeIsLetFrom(c: Caps, l: Leases, t: Slot, s: Slot)
    requires Inv(c) && Represents(c, l) && t in c.held && s in c.held
    ensures Descends(c.nodes, c.held[t].node, c.held[s].node) <==> Let(l.at, t, s)
  {
    hide Inv, Represents, DescendsIn, LetIn;
    forall n: nat
      ensures DescendsIn(c.nodes, c.held[t].node, c.held[s].node, n) <==> LetIn(l.at, t, s, n)
    {
      DescendsIsLet(c, l, t, s, n);
    }
  }

  /** A revocation ends as many leases as it kills nodes. */
  lemma SubtreeSize(c: Caps, l: Leases, s: Slot)
    requires Inv(c) && Represents(c, l) && s in c.held
    ensures |Subtree(c.nodes, c.held[s].node)| == |LetFrom(l.at, s)|
  {
    hide Descends, Let, Holds;
    var r := c.held[s].node;
    forall t | t in c.held ensures c.held[t].node in Subtree(c.nodes, r) <==> t in LetFrom(l.at, s) {
      SubtreeIsLetFrom(c, l, t, s);
    }
    SubtreeIsLive(c, r);
    forall i | i in Subtree(c.nodes, r) ensures exists t :: t in LetFrom(l.at, s) && c.held[t].node == i {
      assert IsHeld(c, i);
    }
    InjectiveImageSize(LetFrom(l.at, s), c.held, Subtree(c.nodes, r));
  }

  lemma InstallRepresents(c: Caps, c': Caps, l: Leases, s: Slot, i: nat, node: Node, lease: Lease)
    requires SlotsCurrent(c) && Represents(c, l) && s !in c.held
    requires i < |c.nodes| && !c.nodes[i].live && i < 0x1_0000
    requires c' == c.(nodes := c.nodes[i := node], held := c.held[s := CapRef(i, node.generation)])
    requires lease.obj == node.obj && lease.rights == node.rights
    requires lease.from.Some? <==> node.parent.Some?
    requires lease.from.Some? ==> lease.from.value in c.held && c.held[lease.from.value] == node.parent.value
    ensures Represents(c', l.(at := l.at[s := lease]))
  {
    forall t | t in c'.held ensures Holds(c', t, l.at[s := lease][t]) {
      if t == s {
        assert c'.held[t] == CapRef(i, node.generation) && c'.nodes[i] == node;
      } else {
        assert Holds(c, t, l.at[t]) && Current(c.nodes, c.held[t]);
        assert c'.held[t] == c.held[t] && c'.nodes[c.held[t].node] == c.nodes[c.held[t].node];
      }
    }
  }

  /** What a surviving lease was let from survives. */
  lemma LetFromClosed(at: map<Slot, Lease>, t: Slot, s: Slot)
    requires t in at && at[t].from.Some? && Let(at, at[t].from.value, s)
    ensures Let(at, t, s)
  {
    var n: nat :| LetIn(at, at[t].from.value, s, n);
    assert LetIn(at, t, s, n + 1);
  }

  lemma RevokeRepresents(c: Caps, l: Leases, s: Slot)
    requires Inv(c) && Represents(c, l) && s in c.held
    ensures Represents(Without(c, Subtree(c.nodes, c.held[s].node)), l.(at := l.at - LetFrom(l.at, s)))
  {
    hide Descends, Let, LiveHeld, ParentsSound, Acyclic, SlotsDistinct;
    var dead := Subtree(c.nodes, c.held[s].node);
    var c' := Without(c, dead);
    var at' := l.at - LetFrom(l.at, s);
    forall t | t in c.held ensures c.held[t].node in dead <==> t in LetFrom(l.at, s) {
      assert Current(c.nodes, c.held[t]);
      SubtreeIsLetFrom(c, l, t, s);
    }
    assert at'.Keys == c'.held.Keys;
    forall t | t in c'.held ensures Holds(c', t, at'[t]) {
      assert Holds(c, t, l.at[t]) && c'.nodes[c.held[t].node] == c.nodes[c.held[t].node];
      if l.at[t].from.Some? && l.at[t].from.value !in c'.held {
        LetFromClosed(l.at, t, s);
      }
    }
  }

  // ---------------------------------------------------------------------
  // Every operation agrees
  // ---------------------------------------------------------------------

  /** The capability system's step and the lease table's step, from matching states. */
  ghost predicate Agree(c: Caps, l: Leases, op: Op)
    requires |c.nodes| <= 0x1_0000
  {
    Represents(Step(c, op), Perform(l, op).0) && Respond(c, op) == Perform(l, op).1
  }

  lemma InstallAgrees(c: Caps, l: Leases, s: Slot, lease: Lease, parent: Option<CapRef>)
    requires Inv(c) && Represents(c, l) && s !in c.held
    requires lease.from.Some? <==> parent.Some?
    requires lease.from.Some? ==> lease.from.value in c.held && c.held[lease.from.value] == parent.value
    ensures var (c', r) := Install(c, s, lease.obj, lease.rights, parent);
      if |l.at| == l.capacity then c' == c && r == Err(OutOfNodes)
      else Represents(c', l.(at := l.at[s := lease])) && r == Ok(())
  {
    hide Represents, SlotsCurrent, SlotsDistinct, LiveHeld, ParentsSound, Acyclic;
    NodesLeft(c, l);
    var free := FirstDead(c.nodes, 0);
    if free.Some? {
      var i := free.value;
      InstallRepresents(c, Install(c, s, lease.obj, lease.rights, parent).0, l, s, i,
                        Fill(c.nodes[i], lease.obj, lease.rights, parent), lease);
    }
  }

  lemma CreateRootAgrees(c: Caps, l: Leases, s: Slot, obj: Object, rights: Rights)
    requires Inv(c) && Represents(c, l)
    ensures Agree(c, l, OpCreateRoot(s, obj, rights))
  {
    hide Inv, Install, Holds;
    if s !in c.held {
      InstallAgrees(c, l, s, Lease(obj, rights, None), None);
    }
  }

  lemma MintAgrees(c: Caps, l: Leases, source: Slot, destination: Slot, rights: Rights)
    requires Inv(c) && Represents(c, l)
    ensures Agree(c, l, OpMint(source, destination, rights))
  {
    hide Install, Covers, Allows, SlotsDistinct, LiveHeld, ParentsSound, Acyclic;
    if source in c.held {
      assert Holds(c, source, l.at[source]) && Current(c.nodes, c.held[source]);
      ContainsIsCovers(l.at[source].rights, rights);
      GrantIsOneRight(l.at[source].rights);
      if destination !in c.held {
        InstallAgrees(c, l, destination, Lease(l.at[source].obj, rights, Some(source)), Some(c.held[source]));
      }
    }
  }

  lemma RevokeAgrees(c: Caps, l: Leases, s: Slot)
    requires Inv(c) && Represents(c, l)
    ensures Agree(c, l, OpRevoke(s))
  {
    hide Subtree, LetFrom, Without, Holds;
    if s in c.held {
      assert Current(c.nodes, c.held[s]);
      RevokeRepresents(c, l, s);
      SubtreeSize(c, l, s);
    }
  }

  lemma StepAgrees(c: Caps, l: Leases, op: Op)
    requires Inv(c) && Represents(c, l)
    ensures Agree(c, l, op)
  {
    hide Inv, Represents, Agree;
    match op
    case OpCreateRoot(s, obj, rights) => CreateRootAgrees(c, l, s, obj, rights);
    case OpMint(source, destination, rights) => MintAgrees(c, l, source, destination, rights);
    case OpRevoke(s) => RevokeAgrees(c, l, s);
  }

  lemma ResolveAgrees(c: Caps, l: Leases, s: Slot, required: Rights)
    requires Inv(c) && Represents(c, l)
    ensures Resolve(c, s, required) == Inspect(l, s, required)
  {
    hide Covers;
    if s in c.held {
      assert Holds(c, s, l.at[s]) && Current(c.nodes, c.held[s]);
      ContainsIsCovers(l.at[s].rights, required);
    }
  }

  lemma {:induction false} RunAgrees(tasks: nat, slots: nat, size: nat, ops: seq<Op>)
    requires size <= 0x1_0000
    ensures Inv(Run(New(tasks, slots, size), ops))
    ensures Represents(Run(New(tasks, slots, size), ops), PerformAll(NoLeases(tasks, slots, size), ops))
  {
    NewInv(tasks, slots, size);
    RunInv(New(tasks, slots, size), ops);
    if ops != [] {
      var before, op := ops[..|ops| - 1], ops[|ops| - 1];
      RunAgrees(tasks, slots, size, before);
      StepAgrees(Run(New(tasks, slots, size), before), PerformAll(NoLeases(tasks, slots, size), before), op);
    }
  }

  /** After any run, every operation and every resolve answers as the lease table does. */
  lemma LeaseTreeAnswers(tasks: nat, slots: nat, size: nat, ops: seq<Op>, op: Op, s: Slot, required: Rights)
    requires size <= 0x1_0000
    ensures var c, l := Run(New(tasks, slots, size), ops), PerformAll(NoLeases(tasks, slots, size), ops);
      && Respond(c, op) == Perform(l, op).1
      && Resolve(c, s, required) == Inspect(l, s, required)
  {
    var c, l := Run(New(tasks, slots, size), ops), PerformAll(NoLeases(tasks, slots, size), ops);
    RunAgrees(tasks, slots, size, ops);
    StepAgrees(c, l, op);
    ResolveAgrees(c, l, s, required);
  }

  // ---------------------------------------------------------------------
  // When the operations succeed
  // ---------------------------------------------------------------------

  /** A revocation succeeds exactly on an occupied slot, whatever the capability in it. */
  lemma RevokeSucceedsExactly(c: Caps, s: Slot)
    requires Inv(c)
    ensures Revoke(c, s).1.Ok? <==> s in c.held
    ensures Revoke(c, s).1 == Err(BadTask) <==> s.task >= c.tasks
    ensures Revoke(c, s).1 == Err(BadSlot) <==> s.task < c.tasks && s.index >= c.slots
    ensures Revoke(c, s).1 == Err(EmptySlot) <==> InRange(c, s) && s !in c.held
  {
    hide Without, Subtree;
    assert s in c.held ==> InRange(c, s) && Current(c.nodes, c.held[s]);
  }

  /** So it does after any run. */
  lemma ReachableRevokeSucceedsExactly(tasks: nat, slots: nat, size: nat, ops: seq<Op>, s: Slot)
    requires size <= 0x1_0000
    ensures var c := Run(New(tasks, slots, size), ops);
      && (Revoke(c, s).1.Ok? <==> s in c.held)
      && (Revoke(c, s).1 == Err(BadTask) <==> s.task >= tasks)
      && (Revoke(c, s).1 == Err(BadSlot) <==> s.task < tasks && s.index >= slots)
      && (Revoke(c, s).1 == Err(EmptySlot) <==> s.task < tasks && s.index < slots && s !in c.held)
  {
    hide Inv, Revoke, Run;
    NewInv(tasks, slots, size);
    RunInv(New(tasks, slots, size), ops);
    RevokeSucceedsExactly(Run(New(tasks, slots, size), ops), s);
  }

  /** After any run, a resolve succeeds exactly on an occupied slot whose node allows each required right. */
  lemma ResolveSucceedsExactly(tasks: nat, slots: nat, size: nat, ops: seq<Op>, s: Slot, required: Rights)
    requires size <= 0x1_0000
    ensures var c := Run(New(tasks, slots, size), ops);
      && (s in c.held ==> Current(c.nodes, c.held[s]))
      && (Resolve(c, s, required).Ok? <==>
            s in c.held && forall k: bv3 :: Allows(required, k) ==> Allows(c.nodes[c.held[s].node].rights, k))
  {
    hide Run, Allows, LiveHeld, ParentsSound, Acyclic, SlotsDistinct;
    NewInv(tasks, slots, size);
    RunInv(New(tasks, slots, size), ops);
    var c := Run(New(tasks, slots, size), ops);
    if s in c.held {
      assert InRange(c, s) && Current(c.nodes, c.held[s]);
      ContainsIsCovers(c.nodes[c.held[s].node].rights, required);
    }
  }

  /**
   After any run, minting from an occupied slot into a free one succeeds exactly
   when a node is dead and the source allows GRANT and each requested right.
   */
  lemma MintSucceedsExactly(
    tasks: nat, slots: nat, size: nat, ops: seq<Op>, source: Slot, destination: Slot, rights: Rights)
    requires size <= 0x1_0000
    ensures var c := Run(New(tasks, slots, size), ops);
      && (source in c.held ==> Current(c.nodes, c.held[source]))
      && (source in c.held && InRange(c, destination) && destination !in c.held ==>
            (Mint(c, source, destination, rights).1.Ok? <==>
               && (exists i :: 0 <= i < |c.nodes| && !c.nodes[i].live)
               && Allows(c.nodes[c.held[source].node].rights, GRANT_BIT)
               && forall k: bv3 :: Allows(rights, k) ==> Allows(c.nodes[c.held[source].node].rights, k)))
  {
    hide Run, Allows, LiveHeld, ParentsSound, Acyclic, SlotsDistinct;
    NewInv(tasks, slots, size);
    RunInv(New(tasks, slots, size), ops);
    var c := Run(New(tasks, slots, size), ops);
    if source in c.held && InRange(c, destination) && destination !in c.held {
      assert InRange(c, source) && Current(c.nodes, c.held[source]);
      ContainsIsCovers(c.nodes[c.held[source].node].rights, rights);
      GrantIsOneRight(c.nodes[c.held[source].node].rights);
    }
  }
}
