/**
 The capability system as the kernel runs it: a fixed table of slots and a fixed
 table of nodes, both updated in place. Each method is proved to take the
 abstract state where CapabilityModel says, including `Revoke`, whose ancestor
 walk reads the node table while the same loop is killing nodes in it.
 */
module Capability {
  import opened Common
  import opened CapabilityModel
  import opened CapabilityTheorems

  /** The content of one slot in the abstract state. */
  ghost function Entry(c: Caps, t: nat, s: nat): Option<CapRef> {
    if Slot(t, s) in c.held then Some(c.held[Slot(t, s)]) else None
  }

  /** One more parent link at the top of a chain. */
  lemma ExtendChain(nodes: seq<Node>, i: nat, j: nat, p: nat, n: nat)
    requires DescendsIn(nodes, i, j, n) && ChildOf(nodes, j, p)
    ensures DescendsIn(nodes, i, p, n + 1)
  {
    assert DescendsIn(nodes, p, p, 0);
    assert DescendsIn(nodes, j, p, 1);
    DescentConcat(nodes, i, j, p, n, 1);
  }

  ghost function Upto(s: set<nat>, n: nat): set<nat> {
    set i | i in s && i < n
  }

  lemma UptoCount(s: set<nat>, n: nat)
    ensures |Upto(s, n + 1)| == |Upto(s, n)| + if n in s then 1 else 0
  {
    if n in s {
      assert Upto(s, n + 1) == Upto(s, n) + {n};
    } else {
      assert Upto(s, n + 1) == Upto(s, n);
    }
  }

  /** The node table when the first revocation loop has passed the indices below `n`. */
  ghost function Partly(nodes: seq<Node>, dead: set<nat>, n: nat): seq<Node> {
    seq(|nodes|, i requires 0 <= i < |nodes| => if i < n && i in dead then Kill(nodes[i]) else nodes[i])
  }

  lemma PartlyParents(nodes: seq<Node>, dead: set<nat>, n: nat)
    ensures forall i :: 0 <= i < |nodes| ==> Partly(nodes, dead, n)[i].parent == nodes[i].parent
    ensures n < |nodes| ==> Partly(nodes, dead, n)[n] == nodes[n]
  {
  }

  lemma BeforeLoop(nodes: seq<Node>, dead: set<nat>)
    ensures Partly(nodes, dead, 0) == nodes && |Upto(dead, 0)| == 0
  {
    assert Upto(dead, 0) == {};
  }

  lemma AfterLoop(c: Caps, r: nat)
    ensures Upto(Subtree(c.nodes, r), |c.nodes|) == Subtree(c.nodes, r)
    ensures Partly(c.nodes, Subtree(c.nodes, r), |c.nodes|) == Without(c, Subtree(c.nodes, r)).nodes
  {
    hide Descends;
  }

  lemma PartlyNext(nodes: seq<Node>, dead: set<nat>, n: nat)
    requires n < |nodes|
    ensures Partly(nodes, dead, n + 1) ==
            Partly(nodes, dead, n)[n := if n in dead then Kill(nodes[n]) else nodes[n]]
  {
  }

  class CapabilitySystem {
    const spaces: array2<Option<CapRef>>
    const nodes: array<Node>
    ghost var state: Caps

    ghost predicate Valid()
      reads this, spaces, nodes
    {
      && state.tasks == spaces.Length0 && state.slots == spaces.Length1
      && nodes[..] == state.nodes
      && (forall t, s :: 0 <= t < spaces.Length0 && 0 <= s < spaces.Length1 ==> spaces[t, s] == Entry(state, t, s))
      && Inv(state)
    }

    constructor (tasks: nat, slots: nat, size: nat)
      requires size <= 0x1_0000
      ensures Valid() && fresh(spaces) && fresh(nodes)
      ensures state == New(tasks, slots, size)
    {
      spaces := new Option<CapRef>[tasks, slots]((_, _) => None);
      nodes := new Node[size](_ => EMPTY_NODE);
      state := New(tasks, slots, size);
      NewInv(tasks, slots, size);
      new;
      assert nodes[..] == state.nodes;
    }

    method CheckFree(task: nat, slot: nat) returns (r: Result<(), CapError>)
      requires Valid()
      ensures r == CheckDestination(state, Slot(task, slot))
    {
      if task >= spaces.Length0 {
        return Err(BadTask);
      }
      if slot >= spaces.Length1 {
        return Err(BadSlot);
      }
      return if spaces[task, slot].Some? then Err(DestinationOccupied) else Ok(());
    }

    method Lookup(task: nat, slot: nat) returns (r: Result<CapRef, CapError>)
      requires Valid()
      ensures r == CapAt(state, Slot(task, slot))
    {
      if task >= spaces.Length0 {
        return Err(BadTask);
      }
      if slot >= spaces.Length1 {
        return Err(BadSlot);
      }
      var entry := spaces[task, slot];
      return if entry.Some? then Ok(entry.value) else Err(EmptySlot);
    }

    method Dereference(cap: CapRef) returns (r: Result<Resolved, CapError>)
      requires Valid()
      ensures r == ResolveRef(state.nodes, cap)
    {
      if cap.node >= nodes.Length {
        return Err(Stale);
      }
      var node := nodes[cap.node];
      if !node.live || node.generation != cap.generation {
        return Err(Stale);
      }
      return Ok(Resolved(node.obj, node.rights));
    }

    method Resolve(task: nat, slot: nat, required: Rights) returns (r: Result<Resolved, CapError>)
      requires Valid()
      ensures r == CapabilityModel.Resolve(state, Slot(task, slot), required)
    {
      var cap := Lookup(task, slot);
      if cap.Err? {
        return Err(cap.error);
      }
      r := Dereference(cap.value);
      if r.Ok? && !r.value.rights.Contains(required) {
        r := Err(PermissionDenied);
      }
    }

    /** Finds the lowest dead node and fills it in; the slot is written by the caller. */
    method Allocate(obj: Object, rights: Rights, parent: Option<CapRef>) returns (r: Result<CapRef, CapError>)
      requires nodes.Length <= 0x1_0000
      modifies nodes
      ensures r.Err? ==> r.error == OutOfNodes && nodes[..] == old(nodes[..])
      ensures r.Err? <==> FirstDead(old(nodes[..]), 0).None?
      ensures r.Ok? ==>
        && FirstDead(old(nodes[..]), 0) == Some(r.value.node)
        && r.value == CapRef(r.value.node, old(nodes[..])[r.value.node].generation)
        && nodes[..] == old(nodes[..])[r.value.node := Fill(old(nodes[..])[r.value.node], obj, rights, parent)]
    {
      var index := 0;
      while index < nodes.Length
        invariant 0 <= index <= nodes.Length
        invariant nodes[..] == old(nodes[..])
        invariant FirstDead(nodes[..], 0) == FirstDead(nodes[..], index)
      {
        if !nodes[index].live {
          nodes[index] := Fill(nodes[index], obj, rights, parent);
          return Ok(CapRef(index, nodes[index].generation));
        }
        index := index + 1;
      }
      return Err(OutOfNodes);
    }

    /** Writes a freshly allocated reference into a free slot. */
    method Store(task: nat, slot: nat, obj: Object, rights: Rights, parent: Option<CapRef>, ghost op: Op)
      returns (r: Result<(), CapError>)
      requires Valid()
      requires task < spaces.Length0 && slot < spaces.Length1 && Slot(task, slot) !in state.held
      requires Step(state, op) == Install(state, Slot(task, slot), obj, rights, parent).0
      modifies this, spaces, nodes
      ensures Valid()
      ensures (state, r) == Install(old(state), Slot(task, slot), obj, rights, parent)
    {
      hide ParentsSound, Acyclic, SlotsDistinct, LiveHeld, Descends;
      StepInv(state, op);
      ghost var next := Install(state, Slot(task, slot), obj, rights, parent).0;
      var cap := Allocate(obj, rights, parent);
      if cap.Err? {
        return Err(cap.error);
      }
      spaces[task, slot] := Some(cap.value);
      state := next;
      return Ok(());
    }

    method CreateRoot(owner: nat, slot: nat, obj: Object, rights: Rights) returns (r: Result<(), CapError>)
      requires Valid()
      modifies this, spaces, nodes
      ensures Valid()
      ensures (state, r) == CapabilityModel.CreateRoot(old(state), Slot(owner, slot), obj, rights)
    {
      hide ParentsSound, Acyclic, SlotsDistinct, LiveHeld, Descends;
      r := CheckFree(owner, slot);
      if r.Ok? {
        r := Store(owner, slot, obj, rights, None, OpCreateRoot(Slot(owner, slot), obj, rights));
      }
    }

    method Mint(sourceTask: nat, sourceSlot: nat, destinationTask: nat, destinationSlot: nat, rights: Rights)
      returns (r: Result<(), CapError>)
      requires Valid()
      modifies this, spaces, nodes
      ensures Valid()
      ensures (state, r) ==
        CapabilityModel.Mint(old(state), Slot(sourceTask, sourceSlot), Slot(destinationTask, destinationSlot), rights)
    {
      hide ParentsSound, Acyclic, SlotsDistinct, LiveHeld, Descends;
      r := CheckFree(destinationTask, destinationSlot);
      if r.Err? {
        return;
      }
      var parent := Lookup(sourceTask, sourceSlot);
      if parent.Err? {
        return Err(parent.error);
      }
      var resolved := Dereference(parent.value);
      if resolved.Err? {
        return Err(resolved.error);
      }
      if !resolved.value.rights.Contains(GRANT) || !resolved.value.rights.Contains(rights) {
        return Err(PermissionDenied);
      }
      r := Store(destinationTask, destinationSlot, resolved.value.obj, rights, Some(parent.value),
                 OpMint(Slot(sourceTask, sourceSlot), Slot(destinationTask, destinationSlot), rights));
    }

    /**
     The ancestor walk of revocation. It reads a table in which other nodes may
     already have been killed (`was` is the table before revocation began), yet it
     answers for the original table, and the depth cut-off never decides.
     */
    method IsDescendantOrSelf(index: nat, root: CapRef, ghost was: seq<Node>) returns (b: bool)
      requires nodes.Length == |was| <= 0x1_0000 && index < |was|
      requires ParentsSound(was) && Acyclic(was)
      requires Current(was, root)
      requires was[index].live && nodes[index] == was[index]
      requires forall i :: 0 <= i < |was| ==> nodes[i].parent == was[i].parent
      ensures b <==> Descends(was, index, root.node)
    {
      var current := Some(CapRef(index, nodes[index].generation));
      var depth := 0;
      assert DescendsIn(was, index, index, 0);
      while current.Some?
        invariant 0 <= depth <= nodes.Length
        invariant current.Some? ==> Current(was, current.value) && DescendsIn(was, index, current.value.node, depth)
        invariant Descends(was, index, root.node) <==> current.Some? && Descends(was, current.value.node, root.node)
        decreases nodes.Length - depth, current.Some?
      {
        var cap := current.value;
        if cap == root {
          assert DescendsIn(was, cap.node, root.node, 0);
          return true;
        }
        if cap.node >= nodes.Length {
          return false;
        }
        DescendsUnfold(was, cap.node, root.node);
        ChainLength(was, index, cap.node, depth);
        current := nodes[cap.node].parent;
        depth := depth + 1;
        if current.Some? {
          ExtendChain(was, index, cap.node, current.value.node, depth - 1);
        }
        if depth > nodes.Length {
          return false;
        }
      }
      return false;
    }

    /** The body of the first revocation loop: kills node `index` when it is live and descends from `root`. */
    method KillIfDescendant(index: nat, root: CapRef, ghost was: seq<Node>) returns (killed: bool)
      requires nodes.Length == |was| <= 0x1_0000 && index < |was|
      requires ParentsSound(was) && Acyclic(was) && Current(was, root)
      requires nodes[index] == was[index]
      requires forall i :: 0 <= i < |was| ==> nodes[i].parent == was[i].parent
      modifies nodes
      ensures killed <==> index in Subtree(was, root.node)
      ensures nodes[..] ==
        old(nodes[..])[index := if index in Subtree(was, root.node) then Kill(was[index]) else was[index]]
    {
      killed := false;
      if nodes[index].live {
        killed := IsDescendantOrSelf(index, root, was);
        if killed {
          nodes[index] := Kill(nodes[index]);
        }
      } else {
        assert !Descends(was, index, root.node);
      }
    }

    /** One turn of the first revocation loop. */
    method KillNext(index: nat, root: CapRef, ghost was: seq<Node>) returns (killed: bool)
      requires nodes.Length == |was| <= 0x1_0000 && index < |was|
      requires ParentsSound(was) && Acyclic(was) && Current(was, root)
      requires nodes[..] == Partly(was, Subtree(was, root.node), index)
      modifies nodes
      ensures nodes[..] == Partly(was, Subtree(was, root.node), index + 1)
      ensures killed <==> index in Subtree(was, root.node)
    {
      hide Subtree, Current, ParentsSound, Acyclic;
      ghost var dead := Subtree(was, root.node);
      PartlyParents(was, dead, index);
      assert forall i :: 0 <= i < nodes.Length ==> nodes[i] == Partly(was, dead, index)[i];
      PartlyNext(was, dead, index);
      hide Partly;
      killed := KillIfDescendant(index, root, was);
    }

    /** The first loop of revocation: kills the subtree of `root` in place and counts it. */
    method KillSubtree(root: CapRef) returns (revoked: nat)
      requires nodes[..] == state.nodes && nodes.Length <= 0x1_0000 && Current(state.nodes, root)
      requires ParentsSound(state.nodes) && Acyclic(state.nodes)
      modifies nodes
      ensures nodes[..] == Without(state, Subtree(state.nodes, root.node)).nodes
      ensures revoked == |Subtree(state.nodes, root.node)|
    {
      hide Subtree, Current, ParentsSound, Acyclic, Partly, Upto, Without;
      ghost var was := state.nodes;
      ghost var dead := Subtree(was, root.node);
      BeforeLoop(was, dead);
      revoked := 0;
      var index := 0;
      while index < nodes.Length
        invariant 0 <= index <= nodes.Length == |was|
        invariant nodes[..] == Partly(was, dead, index)
        invariant revoked == |Upto(dead, index)|
      {
        var killed := KillNext(index, root, was);
        UptoCount(dead, index);
        if killed {
          revoked := revoked + 1;
        }
        index := index + 1;
      }
      AfterLoop(state, root.node);
    }

    /** The second loop of revocation: empties the slots whose reference no longer resolves. */
    method ClearSlots(ghost dead: set<nat>)
      requires Inv(state)
      requires state.tasks == spaces.Length0 && state.slots == spaces.Length1
      requires nodes[..] == Without(state, dead).nodes
      requires forall t, s :: 0 <= t < spaces.Length0 && 0 <= s < spaces.Length1 ==> spaces[t, s] == Entry(state, t, s)
      modifies spaces
      ensures forall t, s :: 0 <= t < spaces.Length0 && 0 <= s < spaces.Length1 ==>
                spaces[t, s] == Entry(Without(state, dead), t, s)
    {
      hide ParentsSound, Acyclic, SlotsDistinct, LiveHeld, Descends;
      ghost var next := Without(state, dead);
      var task := 0;
      while task < spaces.Length0
        invariant 0 <= task <= spaces.Length0
        invariant forall t, s :: 0 <= t < spaces.Length0 && 0 <= s < spaces.Length1 ==>
          spaces[t, s] == if t < task then Entry(next, t, s) else Entry(state, t, s)
      {
        var slot := 0;
        while slot < spaces.Length1
          invariant 0 <= slot <= spaces.Length1
          invariant forall t, s :: 0 <= t < spaces.Length0 && 0 <= s < spaces.Length1 ==>
            spaces[t, s] == if t < task || (t == task && s < slot) then Entry(next, t, s) else Entry(state, t, s)
        {
          if spaces[task, slot].Some? {
            var reference := spaces[task, slot].value;
            assert Current(state.nodes, state.held[Slot(task, slot)]);
            var node := nodes[reference.node];
            if !node.live || node.generation != reference.generation {
              spaces[task, slot] := None;
            }
          }
          slot := slot + 1;
        }
        task := task + 1;
      }
    }

    method Revoke(task: nat, slot: nat) returns (r: Result<nat, CapError>)
      requires Valid()
      modifies this, spaces, nodes
      ensures Valid()
      ensures (state, r) == CapabilityModel.Revoke(old(state), Slot(task, slot))
    {
      hide ParentsSound, Acyclic, SlotsDistinct, LiveHeld, Descends;
      var cap := Lookup(task, slot);
      if cap.Err? {
        return Err(cap.error);
      }
      var root := cap.value;
      var resolved := Dereference(root);
      if resolved.Err? {
        return Err(resolved.error);
      }
      ghost var was := state;
      ghost var dead := Subtree(was.nodes, root.node);
      ghost var next := Without(was, dead);
      StepInv(was, OpRevoke(Slot(task, slot)));
      var revoked := KillSubtree(root);
      ClearSlots(dead);
      state := next;
      return Ok(revoked);
    }
  }
}
