/**
 The LeaseTree capability state as a value: per-task slots that name nodes, and
 the node table whose parent references form the derivation forest. Every
 operation is a function from the old state to the new state and a result; the
 class in Capability.dfy is proved to compute exactly these functions.
 */
module CapabilityModel {
  import opened Common

  datatype Object =
    | Endpoint(endpoint: U16)
    | Frame(frame: U32)
    | Thread(thread: nat)
    | Irq(irq: U16)
    | Mmio(base: U64, pages: U16)

  datatype Rights = Rights(bits: bv8) {
    predicate Contains(requested: Rights) {
      bits & requested.bits == requested.bits
    }
  }

  const NONE := Rights(0)
  const WRITE := Rights(2)
  const GRANT := Rights(4)
  const ALL := Rights(15)

  datatype CapRef = CapRef(node: U16, generation: U16)

  datatype Resolved = Resolved(obj: Object, rights: Rights)

  datatype CapError =
    | BadTask | BadSlot | EmptySlot | DestinationOccupied | OutOfNodes | Stale | PermissionDenied

  datatype Node = Node(obj: Object, rights: Rights, parent: Option<CapRef>, generation: U16, live: bool)

  const EMPTY_NODE := Node(Endpoint(0), NONE, None, 0, false)

  /** A position in the table of capability spaces. */
  datatype Slot = Slot(task: nat, index: nat)

  /** `held` has a key for exactly the occupied slots. */
  datatype Caps = Caps(tasks: nat, slots: nat, held: map<Slot, CapRef>, nodes: seq<Node>)

  function New(tasks: nat, slots: nat, nodes: nat): Caps {
    Caps(tasks, slots, map[], seq(nodes, _ => EMPTY_NODE))
  }

  // ---------------------------------------------------------------------
  // Read-only helpers
  // ---------------------------------------------------------------------

  predicate InRange(c: Caps, s: Slot) {
    s.task < c.tasks && s.index < c.slots
  }

  function CheckDestination(c: Caps, s: Slot): Result<(), CapError> {
    if s.task >= c.tasks then Err(BadTask)
    else if s.index >= c.slots then Err(BadSlot)
    else if s in c.held then Err(DestinationOccupied)
    else Ok(())
  }

  function CapAt(c: Caps, s: Slot): Result<CapRef, CapError> {
    if s.task >= c.tasks then Err(BadTask)
    else if s.index >= c.slots then Err(BadSlot)
    else if s in c.held then Ok(c.held[s])
    else Err(EmptySlot)
  }

  function ResolveRef(nodes: seq<Node>, cap: CapRef): Result<Resolved, CapError> {
    if Current(nodes, cap) then Ok(Resolved(nodes[cap.node].obj, nodes[cap.node].rights))
    else Err(Stale)
  }

  /** The reference names a live node of the reference's own generation. */
  predicate Current(nodes: seq<Node>, cap: CapRef) {
    cap.node < |nodes| && nodes[cap.node].live && nodes[cap.node].generation == cap.generation
  }

  function Resolve(c: Caps, s: Slot, required: Rights): Result<Resolved, CapError> {
    var cap := CapAt(c, s);
    if cap.Err? then Err(cap.error) else
    var resolved := ResolveRef(c.nodes, cap.value);
    if resolved.Ok? && !resolved.value.rights.Contains(required) then Err(PermissionDenied)
    else resolved
  }

  // ---------------------------------------------------------------------
  // Derivation
  // ---------------------------------------------------------------------

  /** Node `i` is live and its parent reference names the live node `p` of the right generation. */
  predicate ChildOf(nodes: seq<Node>, i: nat, p: nat) {
    && i < |nodes| && nodes[i].live
    && nodes[i].parent.Some?
    && nodes[i].parent.value.node == p
    && Current(nodes, nodes[i].parent.value)
  }

  /** `r` is reached from the live node `i` by exactly `n` parent links. */
  ghost predicate DescendsIn(nodes: seq<Node>, i: nat, r: nat, n: nat)
    decreases n
  {
    if n == 0 then i == r && i < |nodes| && nodes[i].live
    else exists p: nat :: ChildOf(nodes, i, p) && DescendsIn(nodes, p, r, n - 1)
  }

  ghost predicate Descends(nodes: seq<Node>, i: nat, r: nat) {
    exists n: nat :: DescendsIn(nodes, i, r, n)
  }

  /** The descendants-or-self of node `r`. */
  ghost function Subtree(nodes: seq<Node>, r: nat): set<nat> {
    set i: nat | i < |nodes| && Descends(nodes, i, r)
  }

  // ---------------------------------------------------------------------
  // Operations
  // ---------------------------------------------------------------------

  /** The lowest dead node. */
  function FirstDead(nodes: seq<Node>, from: nat): (r: Option<nat>)
    requires from <= |nodes|
    ensures r.None? ==> forall i :: from <= i < |nodes| ==> nodes[i].live
    ensures r.Some? ==> from <= r.value < |nodes| && !nodes[r.value].live
    ensures r.Some? ==> forall i :: from <= i < r.value ==> nodes[i].live
    decreases |nodes| - from
  {
    if from == |nodes| then None
    else if !nodes[from].live then Some(from)
    else FirstDead(nodes, from + 1)
  }

  function Fill(node: Node, obj: Object, rights: Rights, parent: Option<CapRef>): Node {
    node.(obj := obj, rights := rights, parent := parent, live := true)
  }

  /** Allocates the lowest dead node and stores a reference to it in the free slot `s`. */
  function Install(c: Caps, s: Slot, obj: Object, rights: Rights, parent: Option<CapRef>)
    : (Caps, Result<(), CapError>)
    requires |c.nodes| <= 0x1_0000
  {
    var free := FirstDead(c.nodes, 0);
    if free.None? then (c, Err(OutOfNodes)) else
    var i := free.value;
    (c.(nodes := c.nodes[i := Fill(c.nodes[i], obj, rights, parent)],
        held := c.held[s := CapRef(i, c.nodes[i].generation)]),
     Ok(()))
  }

  function CreateRoot(c: Caps, s: Slot, obj: Object, rights: Rights): (Caps, Result<(), CapError>)
    requires |c.nodes| <= 0x1_0000
  {
    var free := CheckDestination(c, s);
    if free.Err? then (c, free) else Install(c, s, obj, rights, None)
  }

  function Mint(c: Caps, source: Slot, destination: Slot, rights: Rights): (Caps, Result<(), CapError>)
    requires |c.nodes| <= 0x1_0000
  {
    var free := CheckDestination(c, destination);
    if free.Err? then (c, free) else
    var parent := CapAt(c, source);
    if parent.Err? then (c, Err(parent.error)) else
    var resolved := ResolveRef(c.nodes, parent.value);
    if resolved.Err? then (c, Err(resolved.error)) else
    if !resolved.value.rights.Contains(GRANT) || !resolved.value.rights.Contains(rights) then
      (c, Err(PermissionDenied))
    else
      Install(c, destination, resolved.value.obj, rights, Some(parent.value))
  }

  function Kill(node: Node): Node {
    node.(live := false, generation := WrappingInc(node.generation))
  }

  /** Kills the members of `dead` and empties the slots that name one. */
  function Without(c: Caps, dead: set<nat>): Caps {
    c.(nodes := seq(|c.nodes|, i requires 0 <= i < |c.nodes| => if i in dead then Kill(c.nodes[i]) else c.nodes[i]),
       held := map s | s in c.held && c.held[s].node !in dead :: c.held[s])
  }

  /** Revocation as promised: exactly the subtree of the named node dies. */
  ghost function Revoke(c: Caps, s: Slot): (Caps, Result<nat, CapError>) {
    var root := CapAt(c, s);
    if root.Err? then (c, Err(root.error)) else
    var resolved := ResolveRef(c.nodes, root.value);
    if resolved.Err? then (c, Err(resolved.error)) else
    var dead := Subtree(c.nodes, root.value.node);
    (Without(c, dead), Ok(|dead|))
  }

  // ---------------------------------------------------------------------
  // Runs
  // ---------------------------------------------------------------------

  datatype Op =
    | OpCreateRoot(slot: Slot, obj: Object, rights: Rights)
    | OpMint(source: Slot, destination: Slot, rights: Rights)
    | OpRevoke(slot: Slot)

  ghost function Step(c: Caps, op: Op): (r: Caps)
    requires |c.nodes| <= 0x1_0000
    ensures |r.nodes| == |c.nodes| && r.tasks == c.tasks && r.slots == c.slots
  {
    match op
    case OpCreateRoot(s, obj, rights) => CreateRoot(c, s, obj, rights).0
    case OpMint(source, destination, rights) => Mint(c, source, destination, rights).0
    case OpRevoke(s) => Revoke(c, s).0
  }

  ghost function Run(c: Caps, ops: seq<Op>): (r: Caps)
    requires |c.nodes| <= 0x1_0000
    ensures |r.nodes| == |c.nodes| && r.tasks == c.tasks && r.slots == c.slots
  {
    if ops == [] then c else Step(Run(c, ops[..|ops| - 1]), ops[|ops| - 1])
  }

  // ---------------------------------------------------------------------
  // The invariant of reachable states
  // ---------------------------------------------------------------------

  /** Every occupied slot names a live node of matching generation. */
  ghost predicate SlotsCurrent(c: Caps) {
    forall s :: s in c.held ==> InRange(c, s) && Current(c.nodes, c.held[s])
  }

  /** No two slots name the same node. */
  ghost predicate SlotsDistinct(c: Caps) {
    forall s, t :: s in c.held && t in c.held && c.held[s].node == c.held[t].node ==> s == t
  }

  ghost predicate IsHeld(c: Caps, i: nat) {
    exists s :: s in c.held && c.held[s].node == i
  }

  /** Every live node sits in a slot. */
  ghost predicate LiveHeld(c: Caps) {
    forall i :: 0 <= i < |c.nodes| && c.nodes[i].live ==> IsHeld(c, i)
  }

  /** A derived node's parent is live, has GRANT, names the same object and has at least its rights. */
  ghost predicate Attenuated(nodes: seq<Node>, i: nat)
    requires i < |nodes|
  {
    nodes[i].live && nodes[i].parent.Some? ==>
      var p := nodes[i].parent.value;
      && Current(nodes, p)
      && nodes[p.node].obj == nodes[i].obj
      && nodes[p.node].rights.Contains(GRANT)
      && nodes[p.node].rights.Contains(nodes[i].rights)
  }

  ghost predicate ParentsSound(nodes: seq<Node>) {
    forall i :: 0 <= i < |nodes| ==> Attenuated(nodes, i)
  }

  /** Parent links between live nodes go strictly down in `rank`. */
  ghost predicate Ranked(nodes: seq<Node>, rank: seq<nat>) {
    && |rank| == |nodes|
    && forall i :: 0 <= i < |nodes| && nodes[i].live && nodes[i].parent.Some? ==>
         nodes[i].parent.value.node < |nodes| && rank[nodes[i].parent.value.node] < rank[i]
  }

  ghost predicate Acyclic(nodes: seq<Node>) {
    exists rank :: Ranked(nodes, rank)
  }

  ghost predicate Inv(c: Caps) {
    && |c.nodes| <= 0x1_0000
    && SlotsCurrent(c)
    && SlotsDistinct(c)
    && LiveHeld(c)
    && ParentsSound(c.nodes)
    && Acyclic(c.nodes)
  }

  lemma NewInv(tasks: nat, slots: nat, nodes: nat)
    requires nodes <= 0x1_0000
    ensures Inv(New(tasks, slots, nodes))
  {
    var c := New(tasks, slots, nodes);
    assert Ranked(c.nodes, seq(nodes, _ => 0));
  }

  /** A rank above every rank in use, for the freshly installed node. */
  ghost function Above(rank: seq<nat>): (top: nat)
    ensures forall i :: 0 <= i < |rank| ==> rank[i] < top
  {
    if rank == [] then 0 else
    var rest := Above(rank[..|rank| - 1]);
    if rank[|rank| - 1] < rest then rest else rank[|rank| - 1] + 1
  }

  lemma InstallLive(c: Caps, c': Caps, s: Slot, node: Node, i: nat)
    requires LiveHeld(c) && s !in c.held && i < |c.nodes| && i < 0x1_0000
    requires c' == c.(nodes := c.nodes[i := node], held := c.held[s := CapRef(i, node.generation)])
    ensures LiveHeld(c')
  {
    forall j | 0 <= j < |c'.nodes| && c'.nodes[j].live ensures IsHeld(c', j) {
      if j == i {
        assert c'.held[s].node == j;
      } else {
        assert IsHeld(c, j);
        var t :| t in c.held && c.held[t].node == j;
        assert c'.held[t].node == j;
      }
    }
  }

  /** The node that `Install` overwrites is dead, so no slot and no live parent link names it. */
  lemma InstallSlots(c: Caps, s: Slot, node: Node, i: nat)
    requires SlotsCurrent(c) && SlotsDistinct(c) && LiveHeld(c) && InRange(c, s) && s !in c.held
    requires i < |c.nodes| <= 0x1_0000 && !c.nodes[i].live
    requires node.live && node.generation == c.nodes[i].generation
    ensures var c' := c.(nodes := c.nodes[i := node], held := c.held[s := CapRef(i, node.generation)]);
            SlotsCurrent(c') && SlotsDistinct(c') && LiveHeld(c')
  {
    hide LiveHeld;
    InstallLive(c, c.(nodes := c.nodes[i := node], held := c.held[s := CapRef(i, node.generation)]), s, node, i);
  }

  lemma InstallParents(nodes: seq<Node>, node: Node, i: nat)
    requires ParentsSound(nodes) && i < |nodes| && !nodes[i].live
    requires Attenuated(nodes[i := node], i)
    ensures ParentsSound(nodes[i := node])
  {
    var nodes' := nodes[i := node];
    forall j | 0 <= j < |nodes'| ensures Attenuated(nodes', j) {
      assert Attenuated(nodes, j);
    }
  }

  lemma InstallRank(nodes: seq<Node>, node: Node, i: nat)
    requires ParentsSound(nodes) && Acyclic(nodes) && i < |nodes| && !nodes[i].live
    requires node.parent.Some? ==> Current(nodes, node.parent.value)
    ensures Acyclic(nodes[i := node])
  {
    var rank :| Ranked(nodes, rank);
    var nodes', rank' := nodes[i := node], rank[i := Above(rank)];
    forall j | 0 <= j < |nodes'| && nodes'[j].live && nodes'[j].parent.Some?
      ensures nodes'[j].parent.value.node < |nodes'|
      ensures rank'[nodes'[j].parent.value.node] < rank'[j]
    {
      assert Attenuated(nodes, j);
    }
    assert Ranked(nodes', rank');
  }

  /** A surviving node's parent survives: the subtree is closed under children. */
  lemma ChildOfSubtree(nodes: seq<Node>, i: nat, p: nat, r: nat)
    requires ChildOf(nodes, i, p) && Descends(nodes, p, r)
    ensures Descends(nodes, i, r)
  {
    var n: nat :| DescendsIn(nodes, p, r, n);
    assert DescendsIn(nodes, i, r, n + 1);
  }

  /** Descent, one link at a time. */
  lemma DescendsUnfold(nodes: seq<Node>, i: nat, r: nat)
    requires i < |nodes| && nodes[i].live && Attenuated(nodes, i)
    ensures Descends(nodes, i, r) <==>
      i == r || (nodes[i].parent.Some? && Descends(nodes, nodes[i].parent.value.node, r))
  {
    if i == r {
      assert DescendsIn(nodes, i, r, 0);
    }
    if Descends(nodes, i, r) && i != r {
      var n: nat :| DescendsIn(nodes, i, r, n);
      var p: nat :| ChildOf(nodes, i, p) && DescendsIn(nodes, p, r, n - 1);
    }
    if nodes[i].parent.Some? && Descends(nodes, nodes[i].parent.value.node, r) {
      ChildOfSubtree(nodes, i, nodes[i].parent.value.node, r);
    }
  }

  lemma {:induction false} DescentEnds(nodes: seq<Node>, i: nat, r: nat, n: nat)
    requires DescendsIn(nodes, i, r, n)
    ensures i < |nodes| && nodes[i].live && r < |nodes| && nodes[r].live
    decreases n
  {
    if n > 0 {
      var p: nat :| ChildOf(nodes, i, p) && DescendsIn(nodes, p, r, n - 1);
      DescentEnds(nodes, p, r, n - 1);
    }
  }

  lemma {:induction false} DescentConcat(nodes: seq<Node>, i: nat, j: nat, r: nat, n: nat, m: nat)
    requires DescendsIn(nodes, i, j, n) && DescendsIn(nodes, j, r, m)
    ensures DescendsIn(nodes, i, r, n + m)
    decreases n
  {
    if n > 0 {
      var p: nat :| ChildOf(nodes, i, p) && DescendsIn(nodes, p, j, n - 1);
      DescentConcat(nodes, p, j, r, n - 1, m);
    }
  }

  lemma WithoutSlots(c: Caps, dead: set<nat>)
    requires SlotsCurrent(c) && SlotsDistinct(c) && LiveHeld(c)
    ensures var c' := Without(c, dead); SlotsCurrent(c') && SlotsDistinct(c') && LiveHeld(c')
  {
    var c' := Without(c, dead);
    forall i | 0 <= i < |c'.nodes| && c'.nodes[i].live ensures IsHeld(c', i) {
      assert IsHeld(c, i);
      var s :| s in c.held && c.held[s].node == i;
      assert s in c'.held && c'.held[s].node == i;
    }
  }

  lemma WithoutParents(c: Caps, r: nat)
    requires ParentsSound(c.nodes)
    ensures ParentsSound(Without(c, Subtree(c.nodes, r)).nodes)
  {
    hide Descends;
    var dead := Subtree(c.nodes, r);
    var nodes := Without(c, dead).nodes;
    forall i | 0 <= i < |nodes| ensures Attenuated(nodes, i) {
      assert Attenuated(c.nodes, i);
      if nodes[i].live && nodes[i].parent.Some? {
        var p := nodes[i].parent.value.node;
        assert ChildOf(c.nodes, i, p);
        if p in dead {
          ChildOfSubtree(c.nodes, i, p, r);
        }
      }
    }
  }

  lemma WithoutInv(c: Caps, r: nat)
    requires Inv(c)
    ensures Inv(Without(c, Subtree(c.nodes, r)))
  {
    hide SlotsCurrent, SlotsDistinct, LiveHeld, ParentsSound, Descends;
    var dead := Subtree(c.nodes, r);
    WithoutSlots(c, dead);
    WithoutParents(c, r);
    var rank :| Ranked(c.nodes, rank);
    assert Ranked(Without(c, dead).nodes, rank);
  }

  /** What one operation did to the state. */
  datatype Effect =
    | Nothing
    | Installed(slot: Slot, i: nat, node: Node)
    | Removed(r: nat)

  ghost predicate HasEffect(c: Caps, c': Caps, op: Op, e: Effect) {
    match e
    case Nothing => c' == c
    case Installed(s, i, node) =>
      && InRange(c, s) && s !in c.held
      && i < |c.nodes| && !c.nodes[i].live && i < 0x1_0000
      && node.live && node.generation == c.nodes[i].generation
      && c' == c.(nodes := c.nodes[i := node], held := c.held[s := CapRef(i, node.generation)])
      && (node.parent.None? ==> op == OpCreateRoot(s, node.obj, node.rights))
      && (node.parent.Some? ==>
            && op.OpMint? && op.destination == s && op.rights == node.rights
            && op.source in c.held && c.held[op.source] == node.parent.value
            && Current(c.nodes, node.parent.value)
            && c.nodes[node.parent.value.node].obj == node.obj
            && c.nodes[node.parent.value.node].rights.Contains(GRANT)
            && c.nodes[node.parent.value.node].rights.Contains(node.rights))
    case Removed(r) =>
      && op.OpRevoke? && op.slot in c.held && c.held[op.slot].node == r
      && c' == Without(c, Subtree(c.nodes, r))
  }

  lemma InstallEffect(c: Caps, op: Op, s: Slot, obj: Object, rights: Rights, parent: Option<CapRef>) returns (e: Effect)
    requires |c.nodes| <= 0x1_0000 && InRange(c, s) && s !in c.held
    requires parent.None? ==> op == OpCreateRoot(s, obj, rights)
    requires parent.Some? ==>
      && op.OpMint? && op.destination == s && op.rights == rights
      && op.source in c.held && c.held[op.source] == parent.value
      && Current(c.nodes, parent.value)
      && c.nodes[parent.value.node].obj == obj
      && c.nodes[parent.value.node].rights.Contains(GRANT)
      && c.nodes[parent.value.node].rights.Contains(rights)
    ensures HasEffect(c, Install(c, s, obj, rights, parent).0, op, e)
    ensures Install(c, s, obj, rights, parent).1.Ok? <==> e.Installed?
  {
    var free := FirstDead(c.nodes, 0);
    e := if free.None? then Nothing else Installed(s, free.value, Fill(c.nodes[free.value], obj, rights, parent));
  }

  lemma CreateRootEffect(c: Caps, s: Slot, obj: Object, rights: Rights) returns (e: Effect)
    requires |c.nodes| <= 0x1_0000
    ensures HasEffect(c, CreateRoot(c, s, obj, rights).0, OpCreateRoot(s, obj, rights), e)
  {
    e := Nothing;
    if CheckDestination(c, s).Ok? {
      e := InstallEffect(c, OpCreateRoot(s, obj, rights), s, obj, rights, None);
    }
  }

  lemma MintEffect(c: Caps, source: Slot, destination: Slot, rights: Rights) returns (e: Effect)
    requires |c.nodes| <= 0x1_0000
    ensures HasEffect(c, Mint(c, source, destination, rights).0, OpMint(source, destination, rights), e)
  {
    e := Nothing;
    var cap := CapAt(c, source);
    if CheckDestination(c, destination).Ok? && cap.Ok? && Current(c.nodes, cap.value) {
      var parent := c.nodes[cap.value.node];
      if parent.rights.Contains(GRANT) && parent.rights.Contains(rights) {
        e := InstallEffect(c, OpMint(source, destination, rights), destination, parent.obj, rights, Some(cap.value));
      }
    }
  }

  /** Every operation does nothing, fills one dead node, or removes one whole subtree. */
  lemma StepEffect(c: Caps, op: Op) returns (e: Effect)
    requires |c.nodes| <= 0x1_0000
    ensures HasEffect(c, Step(c, op), op, e)
  {
    match op
    case OpCreateRoot(s, obj, rights) =>
      e := CreateRootEffect(c, s, obj, rights);
    case OpMint(source, destination, rights) =>
      e := MintEffect(c, source, destination, rights);
    case OpRevoke(s) =>
      e := if Revoke(c, s).1.Ok? then Removed(c.held[s].node) else Nothing;
  }

  lemma EffectInv(c: Caps, c': Caps, op: Op, e: Effect)
    requires Inv(c) && HasEffect(c, c', op, e)
    ensures Inv(c')
  {
    match e
    case Nothing =>
    case Installed(s, i, node) =>
      InstallSlots(c, s, node, i);
      assert Attenuated(c.nodes[i := node], i);
      InstallParents(c.nodes, node, i);
      InstallRank(c.nodes, node, i);
    case Removed(r) =>
      WithoutInv(c, r);
  }

  /** Each operation, failing or not, keeps the invariant. */
  lemma StepInv(c: Caps, op: Op)
    requires Inv(c)
    ensures Inv(Step(c, op))
  {
    var e := StepEffect(c, op);
    EffectInv(c, Step(c, op), op, e);
  }

  lemma {:induction false} RunInv(c: Caps, ops: seq<Op>)
    requires Inv(c)
    ensures Inv(Run(c, ops))
  {
    if ops != [] {
      RunInv(c, ops[..|ops| - 1]);
      StepInv(Run(c, ops[..|ops| - 1]), ops[|ops| - 1]);
    }
  }
}
