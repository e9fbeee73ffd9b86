/**
 What every run of the capability operations guarantees: bounded acyclic
 derivation chains, the one-to-one match of slots and live nodes, confinement of
 authority, provenance from roots, and the staleness of killed references.
 */
module CapabilityTheorems {
  import opened Common
  import opened CapabilityModel

  // ---------------------------------------------------------------------
  // Chains are short and acyclic
  // ---------------------------------------------------------------------

  ghost function Below(rank: seq<nat>, i: nat): set<nat>
    requires i < |rank|
  {
    set j: nat | j < |rank| && rank[j] <= rank[i]
  }

  lemma {:induction false} ChainBelow(nodes: seq<Node>, rank: seq<nat>, i: nat, r: nat, n: nat)
    requires Ranked(nodes, rank) && DescendsIn(nodes, i, r, n)
    ensures i < |nodes| && n + 1 <= |Below(rank, i)|
    decreases n
  {
    if n == 0 {
      assert i in Below(rank, i);
    } else {
      var p: nat :| ChildOf(nodes, i, p) && DescendsIn(nodes, p, r, n - 1);
      ChainBelow(nodes, rank, p, r, n - 1);
      assert Below(rank, p) <= Below(rank, i) - {i};
      SubsetSize(Below(rank, p), Below(rank, i) - {i});
    }
  }

  /** A derivation chain of n links visits n + 1 different nodes, so n is below the table size. */
  lemma ChainLength(nodes: seq<Node>, i: nat, r: nat, n: nat)
    requires Acyclic(nodes) && DescendsIn(nodes, i, r, n)
    ensures n < |nodes|
  {
    var rank :| Ranked(nodes, rank);
    ChainBelow(nodes, rank, i, r, n);
    BoundedIndices(Below(rank, i), |nodes|);
  }

  /** `k` times around a cycle of length n is a chain of length k * n. */
  lemma {:induction false} Loops(nodes: seq<Node>, i: nat, n: nat, k: nat)
    requires DescendsIn(nodes, i, i, n)
    ensures DescendsIn(nodes, i, i, k * n)
    decreases k
  {
    if k == 0 {
      DescentEnds(nodes, i, i, n);
    } else {
      Loops(nodes, i, n, k - 1);
      DescentConcat(nodes, i, i, i, n, (k - 1) * n);
      assert n + (k - 1) * n == k * n;
    }
  }

  /** No live node is its own ancestor, whatever indices have been reused. */
  lemma NoCycle(nodes: seq<Node>, i: nat, n: nat)
    requires Acyclic(nodes) && DescendsIn(nodes, i, i, n)
    ensures n == 0
  {
    if n > 0 {
      Loops(nodes, i, n, |nodes|);
      assert |nodes| * n >= |nodes|;
      ChainLength(nodes, i, i, |nodes| * n);
    }
  }

  /** Every live node descends from a live root, and every reachable state is a forest. */
  lemma {:induction false} RootOf(nodes: seq<Node>, rank: seq<nat>, i: nat) returns (r: nat, n: nat)
    requires ParentsSound(nodes) && Ranked(nodes, rank) && i < |nodes| && nodes[i].live
    ensures r < |nodes| && nodes[r].parent.None? && DescendsIn(nodes, i, r, n)
    decreases rank[i]
  {
    if nodes[i].parent.None? {
      r, n := i, 0;
    } else {
      assert Attenuated(nodes, i);
      var p := nodes[i].parent.value.node;
      r, n := RootOf(nodes, rank, p);
      assert ChildOf(nodes, i, p);
      n := n + 1;
    }
  }

  /** The derivation forest of every state reachable from an empty system. */
  lemma ReachableForest(tasks: nat, slots: nat, size: nat, ops: seq<Op>)
    requires size <= 0x1_0000
    ensures var nodes := Run(New(tasks, slots, size), ops).nodes;
      && (forall i :: 0 <= i < size && nodes[i].live && nodes[i].parent.Some? ==>
            Current(nodes, nodes[i].parent.value))
      && (forall i: nat, n: nat :: DescendsIn(nodes, i, i, n) ==> n == 0)
      && (forall i: nat, r: nat, n: nat :: DescendsIn(nodes, i, r, n) ==> n < size)
      && (forall i: nat :: i < size && nodes[i].live ==>
            exists r: nat :: r < size && Descends(nodes, i, r) && nodes[r].parent.None?)
  {
    var c := Run(New(tasks, slots, size), ops);
    NewInv(tasks, slots, size);
    RunInv(New(tasks, slots, size), ops);
    forall i | 0 <= i < size && c.nodes[i].live && c.nodes[i].parent.Some?
      ensures Current(c.nodes, c.nodes[i].parent.value)
    {
      assert Attenuated(c.nodes, i);
    }
    forall i: nat, n: nat | DescendsIn(c.nodes, i, i, n) ensures n == 0 {
      NoCycle(c.nodes, i, n);
    }
    forall i: nat, r: nat, n: nat | DescendsIn(c.nodes, i, r, n) ensures n < size {
      ChainLength(c.nodes, i, r, n);
    }
    var rank :| Ranked(c.nodes, rank);
    forall i: nat | i < size && c.nodes[i].live
      ensures exists r: nat :: r < size && Descends(c.nodes, i, r) && c.nodes[r].parent.None?
    {
      var r, n := RootOf(c.nodes, rank, i);
      assert Descends(c.nodes, i, r);
    }
  }

  // ---------------------------------------------------------------------
  // Slots and live nodes
  // ---------------------------------------------------------------------

  ghost function LiveNodes(c: Caps): set<nat> {
    set i: nat | i < |c.nodes| && c.nodes[i].live
  }

  lemma {:induction false} InjectiveImageSize(keys: set<Slot>, held: map<Slot, CapRef>, image: set<nat>)
    requires keys <= held.Keys
    requires forall s, t :: s in keys && t in keys && held[s].node == held[t].node ==> s == t
    requires forall i :: i in image ==> exists s :: s in keys && held[s].node == i
    requires forall s :: s in keys ==> held[s].node in image
    ensures |keys| == |image|
    decreases keys
  {
    if keys == {} {
      assert image == {};
    } else {
      var s :| s in keys;
      InjectiveImageSize(keys - {s}, held, image - {held[s].node});
    }
  }

  /** As many occupied slots as live nodes. */
  lemma SlotsMatchNodes(c: Caps)
    requires Inv(c)
    ensures |c.held| == |LiveNodes(c)|
  {
    forall i | i in LiveNodes(c) ensures exists s :: s in c.held.Keys && c.held[s].node == i {
      assert IsHeld(c, i);
    }
    InjectiveImageSize(c.held.Keys, c.held, LiveNodes(c));
  }

  lemma ReachableSlotsMatchNodes(tasks: nat, slots: nat, size: nat, ops: seq<Op>)
    requires size <= 0x1_0000
    ensures var c := Run(New(tasks, slots, size), ops); |c.held| == |LiveNodes(c)|
  {
    NewInv(tasks, slots, size);
    RunInv(New(tasks, slots, size), ops);
    SlotsMatchNodes(Run(New(tasks, slots, size), ops));
  }

  /** The error an operation reports, if any. */
  ghost function Failure(c: Caps, op: Op): Option<CapError>
    requires |c.nodes| <= 0x1_0000
  {
    match op
    case OpCreateRoot(s, obj, rights) =>
      var r := CreateRoot(c, s, obj, rights).1; if r.Ok? then None else Some(r.error)
    case OpMint(source, destination, rights) =>
      var r := Mint(c, source, destination, rights).1; if r.Ok? then None else Some(r.error)
    case OpRevoke(s) =>
      var r := Revoke(c, s).1; if r.Ok? then None else Some(r.error)
  }

  lemma HeldIsNeverStale(c: Caps, op: Op, s: Slot, required: Rights)
    requires Inv(c)
    ensures Failure(c, op) != Some(Stale)
    ensures Resolve(c, s, required) != Err(Stale)
  {
    match op
    case OpCreateRoot(_, _, _) =>
    case OpMint(source, _, _) =>
      assert source in c.held ==> Current(c.nodes, c.held[source]);
    case OpRevoke(t) =>
      assert t in c.held ==> Current(c.nodes, c.held[t]);
  }

  /** After any run, no public operation reports `Stale`. */
  lemma NeverStale(tasks: nat, slots: nat, size: nat, ops: seq<Op>, op: Op, s: Slot, required: Rights)
    requires size <= 0x1_0000
    ensures Failure(Run(New(tasks, slots, size), ops), op) != Some(Stale)
    ensures Resolve(Run(New(tasks, slots, size), ops), s, required) != Err(Stale)
  {
    NewInv(tasks, slots, size);
    RunInv(New(tasks, slots, size), ops);
    HeldIsNeverStale(Run(New(tasks, slots, size), ops), op, s, required);
  }

  lemma SubtreeIsLive(c: Caps, r: nat)
    ensures Subtree(c.nodes, r) <= LiveNodes(c)
  {
    forall j | j in Subtree(c.nodes, r) ensures j in LiveNodes(c) {
      var n: nat :| DescendsIn(c.nodes, j, r, n);
      DescentEnds(c.nodes, j, r, n);
    }
  }

  lemma WithoutCounts(c: Caps, c': Caps, dead: set<nat>)
    requires Inv(c) && Inv(c') && c' == Without(c, dead) && dead <= LiveNodes(c)
    ensures |LiveNodes(c')| == |LiveNodes(c)| - |dead| && |c'.held| == |c.held| - |dead|
  {
    assert LiveNodes(c') == LiveNodes(c) - dead;
    SlotsMatchNodes(c);
    SlotsMatchNodes(c');
  }

  /** Revocation removes as many slots as nodes, exactly the reported number of each, and at least one. */
  lemma RevokeCounts(c: Caps, s: Slot)
    requires Inv(c) && Revoke(c, s).1.Ok?
    ensures var (c', r) := Revoke(c, s);
      && |c'.held| == |c.held| - r.value
      && |LiveNodes(c')| == |LiveNodes(c)| - r.value
      && 1 <= r.value
  {
    var i := c.held[s].node;
    assert DescendsIn(c.nodes, i, i, 0);
    assert i in Subtree(c.nodes, i);
    SubtreeIsLive(c, i);
    WithoutInv(c, i);
    WithoutCounts(c, Without(c, Subtree(c.nodes, i)), Subtree(c.nodes, i));
  }

  // ---------------------------------------------------------------------
  // Revocation is exact
  // ---------------------------------------------------------------------

  lemma {:induction false} SurvivorsKeepAncestors(c: Caps, r: nat, i: nat, j: nat, n: nat)
    requires i !in Subtree(c.nodes, r) && DescendsIn(c.nodes, i, j, n)
    ensures j !in Subtree(c.nodes, r)
    ensures DescendsIn(Without(c, Subtree(c.nodes, r)).nodes, i, j, n)
    decreases n
  {
    var c' := Without(c, Subtree(c.nodes, r));
    if n > 0 {
      var p: nat :| ChildOf(c.nodes, i, p) && DescendsIn(c.nodes, p, j, n - 1);
      if Descends(c.nodes, p, r) {
        ChildOfSubtree(c.nodes, i, p, r);
      }
      SurvivorsKeepAncestors(c, r, p, j, n - 1);
      assert ChildOf(c'.nodes, i, p);
    }
  }

  lemma {:induction false} AncestorsWereThere(c: Caps, dead: set<nat>, i: nat, j: nat, n: nat)
    requires DescendsIn(Without(c, dead).nodes, i, j, n)
    ensures DescendsIn(c.nodes, i, j, n) && i !in dead
    decreases n
  {
    var c' := Without(c, dead);
    if n > 0 {
      var p: nat :| ChildOf(c'.nodes, i, p) && DescendsIn(c'.nodes, p, j, n - 1);
      AncestorsWereThere(c, dead, p, j, n - 1);
      assert ChildOf(c.nodes, i, p);
    }
  }

  /** After a revocation, exactly the derivations between surviving nodes remain. */
  lemma RevokeKeepsDerivations(c: Caps, s: Slot, i: nat, j: nat, n: nat)
    requires Revoke(c, s).1.Ok?
    ensures DescendsIn(Revoke(c, s).0.nodes, i, j, n) <==>
      DescendsIn(c.nodes, i, j, n) && i !in Subtree(c.nodes, c.held[s].node)
  {
    var r := c.held[s].node;
    if DescendsIn(c.nodes, i, j, n) && i !in Subtree(c.nodes, r) {
      SurvivorsKeepAncestors(c, r, i, j, n);
    }
    if DescendsIn(Without(c, Subtree(c.nodes, r)).nodes, i, j, n) {
      AncestorsWereThere(c, Subtree(c.nodes, r), i, j, n);
    }
  }

  /** A reference survives a revocation, and a slot keeps it, exactly when it does not descend from the target. */
  lemma RevokeExact(c: Caps, s: Slot, t: Slot)
    requires Inv(c) && Revoke(c, s).1.Ok? && t in c.held
    ensures var c' := Revoke(c, s).0;
      && (t in c'.held <==> !Descends(c.nodes, c.held[t].node, c.held[s].node))
      && (Current(c'.nodes, c.held[t]) <==> !Descends(c.nodes, c.held[t].node, c.held[s].node))
      && s !in c'.held
  {
    assert Current(c.nodes, c.held[t]) && Current(c.nodes, c.held[s]);
    assert DescendsIn(c.nodes, c.held[s].node, c.held[s].node, 0);
  }

  // ---------------------------------------------------------------------
  // Confinement
  // ---------------------------------------------------------------------

  lemma ContainsTransitive(a: Rights, b: Rights, c: Rights)
    requires a.Contains(b) && b.Contains(c)
    ensures a.Contains(c)
  {
  }

  ghost predicate HeldIn(c: Caps, tasks: set<nat>, i: nat) {
    exists s :: s in c.held && s.task in tasks && c.held[s].node == i
  }

  /**
   A derivation of `n` links from node `i` up to node `r` in which every node is
   held inside `tasks`, every ancestor has GRANT, and object and rights narrow
   downwards.
   */
  ghost predicate Lineage(c: Caps, tasks: set<nat>, i: nat, r: nat, n: nat)
    decreases n
  {
    && i < |c.nodes| && c.nodes[i].live
    && HeldIn(c, tasks, i)
    && if n == 0 then i == r else exists p: nat :: Attenuates(c.nodes, i, p) && Lineage(c, tasks, p, r, n - 1)
  }

  ghost predicate Attenuates(nodes: seq<Node>, i: nat, p: nat) {
    && ChildOf(nodes, i, p)
    && nodes[p].obj == nodes[i].obj
    && nodes[p].rights.Contains(GRANT)
    && nodes[p].rights.Contains(nodes[i].rights)
  }

  lemma {:induction false} LineageNarrows(c: Caps, tasks: set<nat>, i: nat, r: nat, n: nat)
    requires Lineage(c, tasks, i, r, n)
    ensures r < |c.nodes| && c.nodes[r].obj == c.nodes[i].obj && c.nodes[r].rights.Contains(c.nodes[i].rights)
    ensures DescendsIn(c.nodes, i, r, n)
    decreases n
  {
    if n > 0 {
      var p: nat :| Attenuates(c.nodes, i, p) && Lineage(c, tasks, p, r, n - 1);
      LineageNarrows(c, tasks, p, r, n - 1);
      ContainsTransitive(c.nodes[r].rights, c.nodes[p].rights, c.nodes[i].rights);
    }
  }

  /** `b` still has every node of the parent-closed set `kept` and every slot that names one. */
  ghost predicate Keeps(a: Caps, b: Caps, kept: set<nat>) {
    && |a.nodes| == |b.nodes|
    && (forall i :: i in kept ==> i < |a.nodes| && b.nodes[i] == a.nodes[i])
    && (forall i: nat, p: nat :: i in kept && ChildOf(a.nodes, i, p) ==> p in kept)
    && (forall s :: s in a.held && a.held[s].node in kept ==> s in b.held && b.held[s] == a.held[s])
  }

  lemma {:induction false} LineageKept(a: Caps, b: Caps, kept: set<nat>, tasks: set<nat>, i: nat, r: nat, n: nat)
    requires Keeps(a, b, kept) && i in kept && Lineage(a, tasks, i, r, n)
    ensures r in kept && Lineage(b, tasks, i, r, n)
    decreases n
  {
    var s :| s in a.held && s.task in tasks && a.held[s].node == i;
    assert s in b.held && b.held[s].node == i;
    if n > 0 {
      var p: nat :| Attenuates(a.nodes, i, p) && Lineage(a, tasks, p, r, n - 1);
      LineageKept(a, b, kept, tasks, p, r, n - 1);
      assert Attenuates(b.nodes, i, p);
    }
  }

  /** No root is created inside `tasks`, and nothing is minted into `tasks` from outside. */
  predicate StaysInside(tasks: set<nat>, op: Op) {
    match op
    case OpCreateRoot(s, _, _) => s.task !in tasks
    case OpMint(source, destination, _) => destination.task in tasks ==> source.task in tasks
    case OpRevoke(_) => true
  }

  /** Slot `k0` holds in `now` what it held at the start, and its node is what it was. */
  ghost predicate Retained(start: Caps, now: Caps, k0: Slot) {
    && k0 in start.held && k0 in now.held && now.held[k0] == start.held[k0]
    && start.held[k0].node < |start.nodes| && |start.nodes| == |now.nodes|
    && now.nodes[start.held[k0].node] == start.nodes[start.held[k0].node]
  }

  /** What slot `k` holds now was derived, inside `tasks`, from what slot `k0` held at the start. */
  ghost predicate DerivedFrom(start: Caps, now: Caps, tasks: set<nat>, k: Slot, k0: Slot, n: nat) {
    && k in now.held
    && k0.task in tasks
    && Retained(start, now, k0)
    && Lineage(now, tasks, now.held[k].node, now.held[k0].node, n)
  }

  ghost predicate Derived(start: Caps, now: Caps, tasks: set<nat>, k: Slot) {
    exists k0, n: nat :: DerivedFrom(start, now, tasks, k, k0, n)
  }

  lemma DerivedKept(start: Caps, mid: Caps, now: Caps, kept: set<nat>, tasks: set<nat>, k: Slot)
    requires Derived(start, mid, tasks, k) && Keeps(mid, now, kept) && mid.held[k].node in kept
    ensures Derived(start, now, tasks, k)
  {
    var k0, n: nat :| DerivedFrom(start, mid, tasks, k, k0, n);
    LineageKept(mid, now, kept, tasks, mid.held[k].node, mid.held[k0].node, n);
    assert DerivedFrom(start, now, tasks, k, k0, n);
  }

  lemma RevokeKeeps(c: Caps, r: nat)
    requires Inv(c)
    ensures Keeps(c, Without(c, Subtree(c.nodes, r)), LiveNodes(c) - Subtree(c.nodes, r))
  {
    var dead := Subtree(c.nodes, r);
    forall i: nat, p: nat | i in LiveNodes(c) - dead && ChildOf(c.nodes, i, p) ensures p in LiveNodes(c) - dead {
      if p in dead {
        ChildOfSubtree(c.nodes, i, p, r);
      }
    }
  }

  /** A node freshly installed under a parent that is derived inside `tasks` is derived too. */
  lemma ChildDerived(start: Caps, now: Caps, tasks: set<nat>, source: Slot, k: Slot)
    requires Derived(start, now, tasks, source)
    requires k in now.held && k.task in tasks
    requires Attenuates(now.nodes, now.held[k].node, now.held[source].node)
    ensures Derived(start, now, tasks, k)
  {
    var k0, n: nat :| DerivedFrom(start, now, tasks, source, k0, n);
    var i := now.held[k].node;
    assert HeldIn(now, tasks, i);
    assert Lineage(now, tasks, i, now.held[k0].node, n + 1);
    assert DerivedFrom(start, now, tasks, k, k0, n + 1);
  }

  lemma InstallKeeps(a: Caps, b: Caps, s: Slot, i: nat, node: Node)
    requires SlotsCurrent(a) && s !in a.held && i < |a.nodes| && !a.nodes[i].live && i < 0x1_0000
    requires b == a.(nodes := a.nodes[i := node], held := a.held[s := CapRef(i, node.generation)])
    ensures Keeps(a, b, LiveNodes(a))
  {
    assert forall j: nat, p: nat :: ChildOf(a.nodes, j, p) ==> p in LiveNodes(a);
  }

  lemma MintDerived(start: Caps, mid: Caps, now: Caps, tasks: set<nat>, op: Op, e: Effect)
    requires SlotsCurrent(mid) && e.Installed? && e.node.parent.Some? && HasEffect(mid, now, op, e)
    requires Derived(start, mid, tasks, op.source) && e.slot.task in tasks
    ensures Derived(start, now, tasks, e.slot)
  {
    InstallKeeps(mid, now, e.slot, e.i, e.node);
    DerivedKept(start, mid, now, LiveNodes(mid), tasks, op.source);
    assert Attenuates(now.nodes, e.i, e.node.parent.value.node);
    ChildDerived(start, now, tasks, op.source, e.slot);
  }

  lemma InstallDerived(start: Caps, mid: Caps, now: Caps, tasks: set<nat>, op: Op, e: Effect, k: Slot)
    requires SlotsCurrent(mid) && e.Installed? && HasEffect(mid, now, op, e)
    requires k in mid.held && Derived(start, mid, tasks, k)
    ensures Derived(start, now, tasks, k)
  {
    InstallKeeps(mid, now, e.slot, e.i, e.node);
    DerivedKept(start, mid, now, LiveNodes(mid), tasks, k);
  }

  lemma RevokeDerived(start: Caps, mid: Caps, now: Caps, tasks: set<nat>, r: nat, k: Slot)
    requires Inv(mid) && now == Without(mid, Subtree(mid.nodes, r))
    requires k in now.held && Derived(start, mid, tasks, k)
    ensures Derived(start, now, tasks, k)
  {
    RevokeKeeps(mid, r);
    DerivedKept(start, mid, now, LiveNodes(mid) - Subtree(mid.nodes, r), tasks, k);
  }

  lemma EffectDerived(start: Caps, mid: Caps, now: Caps, tasks: set<nat>, op: Op, e: Effect, k: Slot)
    requires Inv(mid) && StaysInside(tasks, op) && HasEffect(mid, now, op, e)
    requires forall j :: j in mid.held && j.task in tasks ==> Derived(start, mid, tasks, j)
    requires k in now.held && k.task in tasks
    ensures Derived(start, now, tasks, k)
  {
    hide Derived, ParentsSound, Acyclic, SlotsDistinct, LiveHeld, Descends;
    match e
    case Nothing =>
    case Installed(s, _, _) =>
      if k == s {
        MintDerived(start, mid, now, tasks, op, e);
      } else {
        InstallDerived(start, mid, now, tasks, op, e, k);
      }
    case Removed(r) => RevokeDerived(start, mid, now, tasks, r, k);
  }

  lemma {:induction false} RunDerived(start: Caps, tasks: set<nat>, ops: seq<Op>)
    requires Inv(start) && forall j :: 0 <= j < |ops| ==> StaysInside(tasks, ops[j])
    ensures forall k :: k in Run(start, ops).held && k.task in tasks ==> Derived(start, Run(start, ops), tasks, k)
  {
    if ops == [] {
      forall k | k in start.held && k.task in tasks ensures Derived(start, start, tasks, k) {
        assert HeldIn(start, tasks, start.held[k].node);
        assert Lineage(start, tasks, start.held[k].node, start.held[k].node, 0);
        assert DerivedFrom(start, start, tasks, k, k, 0);
      }
    } else {
      var before := ops[..|ops| - 1];
      RunDerived(start, tasks, before);
      RunInv(start, before);
      var e := StepEffect(Run(start, before), ops[|ops| - 1]);
      forall k | k in Run(start, ops).held && k.task in tasks ensures Derived(start, Run(start, ops), tasks, k) {
        EffectDerived(start, Run(start, before), Run(start, ops), tasks, ops[|ops| - 1], e, k);
      }
    }
  }

  lemma DerivedNarrows(start: Caps, now: Caps, tasks: set<nat>, k: Slot, k0: Slot, n: nat)
    requires SlotsCurrent(start) && SlotsCurrent(now) && DerivedFrom(start, now, tasks, k, k0, n)
    ensures Current(start.nodes, start.held[k0]) && Current(now.nodes, now.held[k])
    ensures start.nodes[start.held[k0].node].obj == now.nodes[now.held[k].node].obj
    ensures start.nodes[start.held[k0].node].rights.Contains(now.nodes[now.held[k].node].rights)
  {
    LineageNarrows(now, tasks, now.held[k].node, now.held[k0].node, n);
  }

  /**
   Confinement: whatever tasks outside do, a capability held inside `tasks` after
   the run descends from one held inside `tasks` before it, for the same object
   and with no more rights, along ancestors that all carry GRANT.
   */
  lemma Confinement(start: Caps, tasks: set<nat>, ops: seq<Op>, k: Slot) returns (k0: Slot, n: nat)
    requires Inv(start) && forall j :: 0 <= j < |ops| ==> StaysInside(tasks, ops[j])
    requires k in Run(start, ops).held && k.task in tasks
    ensures DerivedFrom(start, Run(start, ops), tasks, k, k0, n)
    ensures Current(start.nodes, start.held[k0]) && Current(Run(start, ops).nodes, Run(start, ops).held[k])
    ensures var had, has := start.nodes[start.held[k0].node], Run(start, ops).nodes[Run(start, ops).held[k].node];
            had.obj == has.obj && had.rights.Contains(has.rights)
  {
    RunDerived(start, tasks, ops);
    RunInv(start, ops);
    hide Run, Lineage, Retained, ParentsSound, Acyclic, SlotsDistinct, LiveHeld;
    var now := Run(start, ops);
    assert Derived(start, now, tasks, k);
    k0, n :| DerivedFrom(start, now, tasks, k, k0, n);
    DerivedNarrows(start, now, tasks, k, k0, n);
  }

  // ---------------------------------------------------------------------
  // Provenance
  // ---------------------------------------------------------------------

  /** Step `j` of the run successfully created a root for `obj` with at least `rights`. */
  ghost predicate RootAt(start: Caps, ops: seq<Op>, j: nat, obj: Object, rights: Rights)
    requires |start.nodes| <= 0x1_0000
  {
    && j < |ops| && ops[j].OpCreateRoot?
    && ops[j].obj == obj && ops[j].rights.Contains(rights)
    && CreateRoot(Run(start, ops[..j]), ops[j].slot, ops[j].obj, ops[j].rights).1.Ok?
  }

  lemma RootAtLater(start: Caps, ops: seq<Op>, j: nat, obj: Object, rights: Rights)
    requires |start.nodes| <= 0x1_0000 && ops != [] && RootAt(start, ops[..|ops| - 1], j, obj, rights)
    ensures RootAt(start, ops, j, obj, rights)
  {
    assert ops[..|ops| - 1][..j] == ops[..j];
  }

  /** Where the authority of one live node was created. */
  lemma {:induction false} Provenance(tasks: nat, slots: nat, size: nat, ops: seq<Op>, i: nat) returns (j: nat)
    requires size <= 0x1_0000 && i < size && Run(New(tasks, slots, size), ops).nodes[i].live
    ensures var node := Run(New(tasks, slots, size), ops).nodes[i];
            RootAt(New(tasks, slots, size), ops, j, node.obj, node.rights)
    decreases |ops|
  {
    var start := New(tasks, slots, size);
    if ops == [] {
      assert false;
    }
    var before, op := ops[..|ops| - 1], ops[|ops| - 1];
    var mid, now := Run(start, before), Run(start, ops);
    NewInv(tasks, slots, size);
    RunInv(start, before);
    if mid.nodes[i] == now.nodes[i] {
      j := Provenance(tasks, slots, size, before, i);
      RootAtLater(start, ops, j, now.nodes[i].obj, now.nodes[i].rights);
    } else if op.OpCreateRoot? {
      j := |ops| - 1;
      assert RootAt(start, ops, j, now.nodes[i].obj, now.nodes[i].rights);
    } else {
      assert op.OpMint?;
      var p := mid.held[op.source].node;
      j := Provenance(tasks, slots, size, before, p);
      RootAtLater(start, ops, j, mid.nodes[p].obj, mid.nodes[p].rights);
      ContainsTransitive(ops[j].rights, mid.nodes[p].rights, now.nodes[i].rights);
    }
  }

  // ---------------------------------------------------------------------
  // Stale references
  // ---------------------------------------------------------------------

  ghost predicate Killed(c: Caps, op: Op, i: nat)
    requires |c.nodes| <= 0x1_0000 && i < |c.nodes|
  {
    c.nodes[i].live && !Step(c, op).nodes[i].live
  }

  /** How often the run kills node `i`. */
  ghost function Kills(c: Caps, ops: seq<Op>, i: nat): nat
    requires |c.nodes| <= 0x1_0000 && i < |c.nodes|
  {
    if ops == [] then 0 else
    var before := ops[..|ops| - 1];
    Kills(c, before, i) + if Killed(Run(c, before), ops[|ops| - 1], i) then 1 else 0
  }

  /** A node's generation advances exactly when the node is killed. */
  lemma EffectGeneration(c: Caps, c': Caps, op: Op, e: Effect, i: nat)
    requires Inv(c) && HasEffect(c, c', op, e) && i < |c.nodes|
    ensures |c'.nodes| == |c.nodes|
    ensures c'.nodes[i].generation ==
            if c.nodes[i].live && !c'.nodes[i].live then WrappingInc(c.nodes[i].generation)
            else c.nodes[i].generation
  {
    if e.Removed? && Descends(c.nodes, i, e.r) {
      var n: nat :| DescendsIn(c.nodes, i, e.r, n);
      DescentEnds(c.nodes, i, e.r, n);
    }
  }

  lemma {:induction false} RunGeneration(c: Caps, ops: seq<Op>, i: nat)
    requires Inv(c) && i < |c.nodes|
    ensures Run(c, ops).nodes[i].generation == WrappingAdd(c.nodes[i].generation, Kills(c, ops, i))
  {
    hide ParentsSound, Acyclic, SlotsDistinct, LiveHeld, SlotsCurrent, Step, HasEffect;
    if ops != [] {
      var before, op := ops[..|ops| - 1], ops[|ops| - 1];
      RunGeneration(c, before, i);
      RunInv(c, before);
      var e := StepEffect(Run(c, before), op);
      EffectGeneration(Run(c, before), Run(c, ops), op, e, i);
    }
  }

  /**
   A reference taken at the start can resolve again only after a whole number of
   generation wrap-arounds: 1 to 65535 kills always leave it stale.
   */
  lemma StaleStaysStale(c: Caps, ops: seq<Op>, cap: CapRef)
    requires Inv(c) && Current(c.nodes, cap)
    ensures var now, k := Run(c, ops).nodes, Kills(c, ops, cap.node);
      && (ResolveRef(now, cap).Ok? <==> now[cap.node].live && k % 0x1_0000 == 0)
      && (1 <= k < 0x1_0000 ==> ResolveRef(now, cap) == Err(Stale))
  {
    RunGeneration(c, ops, cap.node);
    WrappingAddReturns(cap.generation, Kills(c, ops, cap.node));
  }

  /**
   Unbounded time stamps beside the wrapping generations: how often each node has
   been killed, and that count at the moment each stored reference was made.
   */
  datatype Stamps = Stamps(node: seq<nat>, slot: map<Slot, nat>, parent: seq<nat>)

  /** The stamps after `op` took `c` to `c'`. */
  ghost function Stamp(c: Caps, c': Caps, st: Stamps, op: Op): (r: Stamps)
    requires Fresh(c, st) && |c'.nodes| == |c.nodes|
    requires forall s :: s in c'.held ==> c'.held[s].node < |c.nodes|
    ensures |r.node| == |c.nodes| == |r.parent|
  {
    Stamps(
      seq(|c.nodes|, i requires 0 <= i < |c.nodes| =>
        if c.nodes[i].live && !c'.nodes[i].live then st.node[i] + 1 else st.node[i]),
      map s | s in c'.held :: if s in c.held then st.slot[s] else st.node[c'.held[s].node],
      seq(|c.nodes|, i requires 0 <= i < |c.nodes| =>
        if op.OpMint? && op.source in c.held && !c.nodes[i].live && c'.nodes[i].live then st.slot[op.source]
        else st.parent[i]))
  }

  ghost predicate GenerationsFresh(c: Caps, st: Stamps) {
    |st.node| == |c.nodes| && forall i :: 0 <= i < |c.nodes| ==> c.nodes[i].generation == WrappingAdd(0, st.node[i])
  }

  ghost predicate SlotsFresh(c: Caps, st: Stamps) {
    forall s :: s in c.held ==>
      s in st.slot && c.held[s].node < |st.node| && st.slot[s] == st.node[c.held[s].node]
  }

  ghost predicate ParentsFresh(c: Caps, st: Stamps) {
    && |st.parent| == |c.nodes|
    && forall i :: 0 <= i < |c.nodes| && c.nodes[i].live && c.nodes[i].parent.Some? ==>
         c.nodes[i].parent.value.node < |st.node| && st.parent[i] == st.node[c.nodes[i].parent.value.node]
  }

  /** Every stored reference was made since the last kill of the node it names. */
  ghost predicate Fresh(c: Caps, st: Stamps) {
    GenerationsFresh(c, st) && SlotsFresh(c, st) && ParentsFresh(c, st)
  }

  lemma FreshGeneration(c: Caps, c': Caps, st: Stamps, op: Op, e: Effect, i: nat)
    requires Inv(c) && Inv(c') && Fresh(c, st) && HasEffect(c, c', op, e) && i < |c.nodes|
    ensures c'.nodes[i].generation == WrappingAdd(0, Stamp(c, c', st, op).node[i])
  {
    hide Attenuated, Acyclic, SlotsDistinct, LiveHeld, HasEffect;
    EffectGeneration(c, c', op, e, i);
  }

  lemma FreshParent(c: Caps, c': Caps, st: Stamps, op: Op, e: Effect, i: nat)
    requires Inv(c) && Inv(c') && Fresh(c, st) && HasEffect(c, c', op, e)
    requires i < |c.nodes| && c'.nodes[i].live && c'.nodes[i].parent.Some?
    ensures Current(c'.nodes, c'.nodes[i].parent.value)
    ensures var st' := Stamp(c, c', st, op); st'.parent[i] == st'.node[c'.nodes[i].parent.value.node]
  {
    hide Acyclic, SlotsDistinct, LiveHeld, Descends, WrappingAdd;
    var p := c'.nodes[i].parent.value.node;
    assert Attenuated(c'.nodes, i);
    assert Current(c'.nodes, c'.nodes[i].parent.value);
    if e.Installed? && i == e.i {
      assert st.slot[op.source] == st.node[p];
    } else {
      assert Attenuated(c.nodes, i);
      assert c.nodes[i] == c'.nodes[i];
    }
  }

  lemma FreshSlot(c: Caps, c': Caps, st: Stamps, op: Op, e: Effect, s: Slot)
    requires Inv(c) && Inv(c') && Fresh(c, st) && HasEffect(c, c', op, e) && s in c'.held
    ensures var st' := Stamp(c, c', st, op); s in st'.slot && st'.slot[s] == st'.node[c'.held[s].node]
  {
    hide Attenuated, Acyclic, SlotsDistinct, LiveHeld, Descends, WrappingAdd;
    if s in c.held {
      assert c'.held[s] == c.held[s];
    }
  }

  lemma EffectSize(c: Caps, c': Caps, op: Op, e: Effect)
    requires HasEffect(c, c', op, e)
    ensures |c'.nodes| == |c.nodes|
  {
  }

  lemma EffectGenerationsFresh(c: Caps, c': Caps, st: Stamps, op: Op, e: Effect)
    requires Inv(c) && Inv(c') && Fresh(c, st) && HasEffect(c, c', op, e)
    ensures GenerationsFresh(c', Stamp(c, c', st, op))
  {
    hide Stamp, HasEffect, ParentsSound, Acyclic, SlotsDistinct, LiveHeld, WrappingAdd, SlotsFresh, ParentsFresh;
    EffectSize(c, c', op, e);
    forall i | 0 <= i < |c'.nodes| ensures c'.nodes[i].generation == WrappingAdd(0, Stamp(c, c', st, op).node[i]) {
      FreshGeneration(c, c', st, op, e, i);
    }
  }

  lemma EffectParentsFresh(c: Caps, c': Caps, st: Stamps, op: Op, e: Effect)
    requires Inv(c) && Inv(c') && Fresh(c, st) && HasEffect(c, c', op, e)
    ensures ParentsFresh(c', Stamp(c, c', st, op))
  {
    hide Stamp, HasEffect, ParentsSound, Acyclic, SlotsDistinct, LiveHeld, WrappingAdd, SlotsFresh;
    EffectSize(c, c', op, e);
    var st' := Stamp(c, c', st, op);
    forall i | 0 <= i < |c'.nodes| && c'.nodes[i].live && c'.nodes[i].parent.Some?
      ensures c'.nodes[i].parent.value.node < |st'.node|
      ensures st'.parent[i] == st'.node[c'.nodes[i].parent.value.node]
    {
      FreshParent(c, c', st, op, e, i);
    }
  }

  lemma EffectSlotsFresh(c: Caps, c': Caps, st: Stamps, op: Op, e: Effect)
    requires Inv(c) && Inv(c') && Fresh(c, st) && HasEffect(c, c', op, e)
    ensures SlotsFresh(c', Stamp(c, c', st, op))
  {
    hide Stamp, HasEffect, ParentsSound, Acyclic, SlotsDistinct, LiveHeld, WrappingAdd, ParentsFresh;
    EffectSize(c, c', op, e);
    var st' := Stamp(c, c', st, op);
    forall s | s in c'.held
      ensures s in st'.slot && c'.held[s].node < |st'.node| && st'.slot[s] == st'.node[c'.held[s].node]
    {
      FreshSlot(c, c', st, op, e, s);
    }
  }

  lemma EffectFresh(c: Caps, c': Caps, st: Stamps, op: Op, e: Effect)
    requires Inv(c) && Inv(c') && Fresh(c, st) && HasEffect(c, c', op, e)
    ensures |c'.nodes| == |c.nodes| && Fresh(c', Stamp(c, c', st, op))
  {
    EffectGenerationsFresh(c, c', st, op, e);
    EffectSlotsFresh(c, c', st, op, e);
    EffectParentsFresh(c, c', st, op, e);
  }

  /** The stamps of a whole run from the empty system. */
  ghost function StampRun(tasks: nat, slots: nat, size: nat, ops: seq<Op>): (st: Stamps)
    requires size <= 0x1_0000
    ensures Fresh(Run(New(tasks, slots, size), ops), st)
  {
    if ops == [] then
      Stamps(seq(size, _ => 0), map[], seq(size, _ => 0))
    else
      var before := ops[..|ops| - 1];
      var st := StampRun(tasks, slots, size, before);
      StampRunStep(tasks, slots, size, ops, st);
      Stamp(Run(New(tasks, slots, size), before), Run(New(tasks, slots, size), ops), st, ops[|ops| - 1])
  }

  lemma StampRunStep(tasks: nat, slots: nat, size: nat, ops: seq<Op>, st: Stamps)
    requires size <= 0x1_0000 && ops != []
    requires Fresh(Run(New(tasks, slots, size), ops[..|ops| - 1]), st)
    ensures var c, c' := Run(New(tasks, slots, size), ops[..|ops| - 1]), Run(New(tasks, slots, size), ops);
      && |c'.nodes| == |c.nodes| && (forall s :: s in c'.held ==> c'.held[s].node < |c.nodes|)
      && Fresh(c', Stamp(c, c', st, ops[|ops| - 1]))
  {
    var c, c' := Run(New(tasks, slots, size), ops[..|ops| - 1]), Run(New(tasks, slots, size), ops);
    NewInv(tasks, slots, size);
    RunInv(New(tasks, slots, size), ops[..|ops| - 1]);
    RunInv(New(tasks, slots, size), ops);
    var e := StepEffect(c, ops[|ops| - 1]);
    EffectFresh(c, c', st, ops[|ops| - 1], e);
  }

  /** The unbounded stamp of a node is the number of times the run killed it. */
  lemma {:induction false} StampCountsKills(tasks: nat, slots: nat, size: nat, ops: seq<Op>, i: nat)
    requires size <= 0x1_0000 && i < size
    ensures StampRun(tasks, slots, size, ops).node[i] == Kills(New(tasks, slots, size), ops, i)
  {
    hide Step, WrappingAdd, Revoke, Mint, CreateRoot;
    if ops != [] {
      StampCountsKills(tasks, slots, size, ops[..|ops| - 1], i);
    }
  }

  // ---------------------------------------------------------------------
  // The generation bound is reached
  // ---------------------------------------------------------------------

  /** A system of one slot and one node, in use at generation `g`. */
  function Single(obj: Object, rights: Rights, g: U16): Caps {
    Caps(1, 1, map[Slot(0, 0) := CapRef(0, g)], [Node(obj, rights, None, g, true)])
  }

  /** The same system with its node killed. */
  function Vacant(obj: Object, rights: Rights, g: U16): Caps {
    Caps(1, 1, map[], [Node(obj, rights, None, g, false)])
  }

  /** Revoking and recreating the only capability `k` times. */
  function Rounds(obj: Object, rights: Rights, k: nat): seq<Op> {
    if k == 0 then [] else Rounds(obj, rights, k - 1) + [OpRevoke(Slot(0, 0))] + [OpCreateRoot(Slot(0, 0), obj, rights)]
  }

  lemma RunSnoc(c: Caps, ops: seq<Op>, op: Op)
    requires |c.nodes| <= 0x1_0000
    ensures Run(c, ops + [op]) == Step(Run(c, ops), op)
    ensures forall i: nat :: i < |c.nodes| ==>
      Kills(c, ops + [op], i) == Kills(c, ops, i) + Bit(Killed(Run(c, ops), op, i))
  {
    hide Step, Killed;
    assert (ops + [op])[..|ops + [op]| - 1] == ops;
  }

  lemma RoundRevokes(obj: Object, rights: Rights, g: U16)
    ensures Step(Single(obj, rights, g), OpRevoke(Slot(0, 0))) == Vacant(obj, rights, WrappingInc(g))
  {
    var c := Single(obj, rights, g);
    assert DescendsIn(c.nodes, 0, 0, 0);
    assert Subtree(c.nodes, 0) == {0};
    var c' := Without(c, {0});
    assert c'.nodes[0] == Kill(c.nodes[0]);
    assert c'.nodes == Vacant(obj, rights, WrappingInc(g)).nodes;
    assert c'.held == map[];
  }

  lemma RoundCreates(obj: Object, rights: Rights, g: U16)
    ensures Step(Vacant(obj, rights, g), OpCreateRoot(Slot(0, 0), obj, rights)) == Single(obj, rights, g)
  {
    var c := Vacant(obj, rights, g);
    assert FirstDead(c.nodes, 0) == Some(0);
  }

  /** One round from a state in use at generation `g`. */
  lemma OneRound(obj: Object, rights: Rights, before: seq<Op>, g: U16)
    requires Run(Single(obj, rights, 0), before) == Single(obj, rights, g)
    ensures var c, ops := Single(obj, rights, 0),
                          before + [OpRevoke(Slot(0, 0))] + [OpCreateRoot(Slot(0, 0), obj, rights)];
      Run(c, ops) == Single(obj, rights, WrappingInc(g)) && Kills(c, ops, 0) == Kills(c, before, 0) + 1
  {
    hide Run, Kills, Step, WrappingInc;
    var c, revoke, create := Single(obj, rights, 0), OpRevoke(Slot(0, 0)), OpCreateRoot(Slot(0, 0), obj, rights);
    RunSnoc(c, before, revoke);
    RunSnoc(c, before + [revoke], create);
    RoundRevokes(obj, rights, g);
    RoundCreates(obj, rights, WrappingInc(g));
  }

  lemma {:induction false} AfterRounds(obj: Object, rights: Rights, k: nat)
    ensures Run(Single(obj, rights, 0), Rounds(obj, rights, k)) == Single(obj, rights, WrappingAdd(0, k))
    ensures Kills(Single(obj, rights, 0), Rounds(obj, rights, k), 0) == k
  {
    hide Single, Step, WrappingInc;
    SingleHasOneNode(obj, rights);
    if k > 0 {
      AfterRounds(obj, rights, k - 1);
      hide Run, Kills;
      OneRound(obj, rights, Rounds(obj, rights, k - 1), WrappingAdd(0, k - 1));
    }
  }

  lemma SingleHasOneNode(obj: Object, rights: Rights)
    ensures |Single(obj, rights, 0).nodes| == 1
  {
  }

  /**
   The bound of `StaleStaysStale` is tight: after 65536 rounds of revoking and
   recreating, a reference taken at the start resolves again.
   */
  lemma StaleBoundIsReached(obj: Object, rights: Rights)
    ensures var c := Run(New(1, 1, 1), [OpCreateRoot(Slot(0, 0), obj, rights)]);
      var now := Run(c, Rounds(obj, rights, 0x1_0000));
      && Current(c.nodes, CapRef(0, 0))
      && Kills(c, Rounds(obj, rights, 0x1_0000), 0) == 0x1_0000
      && ResolveRef(now.nodes, CapRef(0, 0)) == Ok(Resolved(obj, rights))
  {
    hide Rounds, WrappingAdd, Kills;
    FirstRoot(obj, rights);
    AfterRounds(obj, rights, 0x1_0000);
    WrappingAddReturns(0, 0x1_0000);
    hide Run;
  }

  lemma FirstRoot(obj: Object, rights: Rights)
    ensures Run(New(1, 1, 1), [OpCreateRoot(Slot(0, 0), obj, rights)]) == Single(obj, rights, 0)
  {
    var op := OpCreateRoot(Slot(0, 0), obj, rights);
    RunSnoc(New(1, 1, 1), [], op);
    assert [] + [op] == [op];
    assert New(1, 1, 1) == Caps(1, 1, map[], [EMPTY_NODE]);
    assert FirstDead([EMPTY_NODE], 0) == Some(0);
  }
}
