/**
 The frame allocator without indices, bitmap or hint: a pool of free page
 addresses, counted past the end of the 64-bit address space where the region
 does. Every run of the allocator is matched, answer for answer, by a run on the
 pool.
 */
module FramePool {
  import opened Common
  import opened FrameModel

  /** The pages from `base` below `end`, of which `free` are free. */
  datatype Pool = Pool(base: nat, end: nat, free: set<nat>)

  predicate InRegion(p: Pool, a: int) {
    a % 4096 == 0 && p.base <= a < p.end
  }

  predicate IsLeast(s: set<nat>, a: nat) {
    a in s && forall b :: b in s ==> a <= b
  }

  ghost function Least(s: set<nat>): (a: nat)
    requires s != {}
    ensures IsLeast(s, a)
    decreases s
  {
    var x :| x in s;
    if s == {x} then x else
    assert forall b :: b in s ==> b == x || b in s - {x};
    assert s - {x} != {};
    var rest := Least(s - {x});
    if rest < x then rest else x
  }

  /** The pages that begin at or after `start` and end by `start` plus the pages' size. */
  ghost function Pages(free: set<nat>, start: nat, pages: nat): set<nat> {
    set a | a in free && start <= a && a + 4096 <= start + pages * 4096
  }

  ghost function Apply(p: Pool, op: Op): (Pool, Answer) {
    match op
    case OpAllocate =>
      if p.free == {} then (p, Got(Err(OutOfMemory))) else
      var a := Least(p.free);
      (p.(free := p.free - {a}),
       Got(Ok(if a < 0x1_0000_0000_0000_0000 then a else a - 0x1_0000_0000_0000_0000)))
    case OpReserve(start, pages) =>
      if start % 4096 != 0 then (p, Done(Err(Unaligned)))
      else if !InRegion(p, start) || start + pages * 4096 > p.end then (p, Done(Err(OutOfRange)))
      else (p.(free := p.free - Pages(p.free, start, pages)), Done(Ok(())))
    case OpFree(a) =>
      if !InRegion(p, a) then (p, Done(Err(OutOfRange)))
      else if a in p.free then (p, Done(Err(DoubleFree)))
      else (p.(free := p.free + {a}), Done(Ok(())))
  }

  ghost function ApplyAll(p: Pool, ops: seq<Op>): Pool {
    if ops == [] then p else Apply(ApplyAll(p, ops[..|ops| - 1]), ops[|ops| - 1]).0
  }

  // ---------------------------------------------------------------------
  // Representation
  // ---------------------------------------------------------------------

  /** The address of page `i`, not cut to 64 bits. */
  function Page(base: nat, i: nat): nat {
    base + i * 4096
  }

  /** The free pages are the pages of the unused indices. */
  ghost predicate Represents(f: Frames, p: Pool) {
    && p.base == f.base && p.end == f.base + f.count * 4096
    && (forall a :: a in p.free ==> InRegion(p, a))
    && (forall i: nat :: i < f.count ==> (Page(f.base, i) in p.free <==> i !in f.used))
  }

  lemma PageIndex(f: Frames, p: Pool, a: nat) returns (i: nat)
    requires Valid(f) && p.base == f.base && p.end == f.base + f.count * 4096 && InRegion(p, a)
    ensures i < f.count && a == Page(f.base, i) && i == (a - f.base) / 4096
  {
    i := (a - f.base) / 4096;
  }

  lemma AllocateAgrees(f: Frames, p: Pool)
    requires Valid(f) && Represents(f, p)
    ensures Represents(Allocate(f).0, Apply(p, OpAllocate).0) && Got(Allocate(f).1) == Apply(p, OpAllocate).1
  {
    var free := LowestFree(f, 0);
    if free.Some? {
      assert Page(f.base, free.value) in p.free;
    }
    if p.free != {} {
      var i := PageIndex(f, p, Least(p.free));
      assert i !in f.used;
    }
  }

  lemma ReserveAgrees(f: Frames, p: Pool, start: U64, pages: nat)
    requires Valid(f) && Represents(f, p)
    ensures Represents(Reserve(f, start, pages).0, Apply(p, OpReserve(start, pages)).0)
    ensures Done(Reserve(f, start, pages).1) == Apply(p, OpReserve(start, pages)).1
  {
    if InRegion(p, start) {
      var first := PageIndex(f, p, start);
    }
  }

  lemma FreeAgrees(f: Frames, p: Pool, a: U64)
    requires Valid(f) && Represents(f, p)
    ensures Represents(Free(f, a).0, Apply(p, OpFree(a)).0) && Done(Free(f, a).1) == Apply(p, OpFree(a)).1
  {
    if InRegion(p, a) {
      var i := PageIndex(f, p, a);
    }
  }

  lemma StepAgrees(f: Frames, p: Pool, op: Op)
    requires Valid(f) && Represents(f, p)
    ensures Represents(Step(f, op).0, Apply(p, op).0) && Step(f, op).1 == Apply(p, op).1
  {
    hide Represents, Allocate, Reserve, Free, Apply;
    match op
    case OpAllocate => AllocateAgrees(f, p);
    case OpReserve(start, pages) => ReserveAgrees(f, p, start, pages);
    case OpFree(a) => FreeAgrees(f, p, a);
  }

  /** A pool in which every page is free. */
  ghost function FullPool(base: nat, bytes: nat): Pool {
    Pool(base, base + bytes / 4096 * 4096, set a: nat | a < base + bytes / 4096 * 4096 && base <= a && a % 4096 == 0)
  }

  lemma {:induction false} RunAgrees(base: U64, bytes: U64, ops: seq<Op>)
    requires Valid(NewFrames(base, bytes))
    ensures Represents(Run(NewFrames(base, bytes), ops), ApplyAll(FullPool(base, bytes), ops))
  {
    hide Step, Apply;
    if ops != [] {
      RunAgrees(base, bytes, ops[..|ops| - 1]);
      StepAgrees(Run(NewFrames(base, bytes), ops[..|ops| - 1]), ApplyAll(FullPool(base, bytes), ops[..|ops| - 1]),
                 ops[|ops| - 1]);
    }
  }

  lemma PageInjective(base: nat, i: nat, j: nat)
    requires Page(base, i) == Page(base, j)
    ensures i == j
  {
  }

  lemma {:induction false} PageCount(base: nat, indices: set<nat>, pages: set<nat>)
    requires pages == set i | i in indices :: Page(base, i)
    ensures |indices| == |pages|
    decreases indices
  {
    hide Page;
    if indices != {} {
      var i :| i in indices;
      forall j | j in indices && Page(base, j) == Page(base, i) ensures j == i {
        PageInjective(base, i, j);
      }
      assert pages - {Page(base, i)} == set j | j in indices - {i} :: Page(base, j);
      PageCount(base, indices - {i}, pages - {Page(base, i)});
      assert Page(base, i) in pages;
    }
  }

  /** `available` is the size of the pool. */
  lemma AvailableIsPoolSize(f: Frames, p: Pool)
    requires Valid(f) && Represents(f, p)
    ensures Available(f) == |p.free|
  {
    hide Page, InRegion;
    var indices := Span(0, f.count) - f.used;
    AvailableCountsFree(f);
    forall a | a in p.free ensures exists i :: i in indices && a == Page(f.base, i) {
      var i := PageIndex(f, p, a);
      assert i in indices;
    }
    assert p.free == set i | i in indices :: Page(f.base, i);
    PageCount(f.base, indices, p.free);
  }

  /** After any run, every operation answers as the pool does, and `available` is the pool's size. */
  lemma PoolAnswers(base: U64, bytes: U64, ops: seq<Op>, op: Op)
    requires Valid(NewFrames(base, bytes))
    ensures var f, p := Run(NewFrames(base, bytes), ops), ApplyAll(FullPool(base, bytes), ops);
      Step(f, op).1 == Apply(p, op).1 && Available(f) == |p.free|
  {
    hide Step, Apply, Represents, Available;
    var f, p := Run(NewFrames(base, bytes), ops), ApplyAll(FullPool(base, bytes), ops);
    RunAgrees(base, bytes, ops);
    StepAgrees(f, p, op);
    AvailableIsPoolSize(f, p);
  }
}
