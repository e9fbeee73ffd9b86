/**
 The physical frame allocator as a value: a set of used 4096-byte frame indices and the
 index from which the next search starts. `Allocate` is the plain search from
 index 0; the class in FrameAllocator.dfy searches its bitmap from the hint.
 */
module FrameModel {
  import opened Common

  datatype FrameError = EmptyRegion | Unaligned | OutOfRange | OutOfMemory | DoubleFree

  datatype Frames = Frames(base: U64, count: nat, used: set<nat>, hint: nat)

  /** Every frame below the hint is used; indices are in range; the region is aligned and fits 64-bit sizes. */
  predicate Valid(f: Frames) {
    && 0 < f.count <= 0x10_0000_0000_0000
    && f.base % 4096 == 0
    && f.hint < f.count
    && (forall i :: i in f.used ==> i < f.count)
    && (forall i: nat :: i < f.hint ==> i in f.used)
  }

  /** The physical address of a frame, in 64-bit arithmetic. */
  function AddressOf(base: U64, i: nat): int {
    var a := base + i * 4096;
    if a < 0x1_0000_0000_0000_0000 then a else a - 0x1_0000_0000_0000_0000
  }

  function IndexOf(f: Frames, address: U64): Result<nat, FrameError> {
    if address % 4096 != 0 || address < f.base then Err(OutOfRange) else
    var index := (address - f.base) / 4096;
    if index >= f.count then Err(OutOfRange) else Ok(index)
  }

  /** The lowest free index from `from` on. */
  function LowestFree(f: Frames, from: nat): (r: Option<nat>)
    requires from <= f.count
    ensures r.Some? ==> from <= r.value < f.count && r.value !in f.used
    ensures r.Some? ==> forall i: nat :: from <= i < r.value ==> i in f.used
    ensures r.None? ==> forall i: nat :: from <= i < f.count ==> i in f.used
    decreases f.count - from
  {
    if from == f.count then None else if from !in f.used then Some(from) else LowestFree(f, from + 1)
  }

  function Allocate(f: Frames): (Frames, Result<int, FrameError>)
    requires Valid(f)
  {
    var free := LowestFree(f, 0);
    if free.None? then (f, Err(OutOfMemory)) else
    var i := free.value;
    (f.(used := f.used + {i}, hint := if i + 1 == f.count then 0 else i + 1), Ok(AddressOf(f.base, i)))
  }

  /** The `n` indices from `first` on. */
  function Span(first: nat, n: nat): (r: set<nat>)
    ensures forall i :: i in r <==> first <= i < first + n
    ensures |r| == n
  {
    if n == 0 then {} else Span(first, n - 1) + {first + n - 1}
  }

  lemma SpanNext(a: set<nat>, first: nat, n: nat)
    ensures a + Span(first, 0) == a
    ensures a + Span(first, n) + {first + n} == a + Span(first, n + 1)
  {
  }

  function Reserve(f: Frames, start: U64, pages: nat): (Frames, Result<(), FrameError>) {
    if start % 4096 != 0 then (f, Err(Unaligned)) else
    var first := IndexOf(f, start);
    if first.Err? then (f, Err(first.error)) else
    if first.value + pages > f.count then (f, Err(OutOfRange)) else
    (f.(used := f.used + Span(first.value, pages)), Ok(()))
  }

  function Free(f: Frames, address: U64): (Frames, Result<(), FrameError>) {
    var index := IndexOf(f, address);
    if index.Err? then (f, Err(index.error)) else
    var i := index.value;
    if i !in f.used then (f, Err(DoubleFree)) else
    (f.(used := f.used - {i}, hint := if i < f.hint then i else f.hint), Ok(()))
  }

  function Available(f: Frames): int {
    f.count - |f.used|
  }

  // ---------------------------------------------------------------------
  // Runs
  // ---------------------------------------------------------------------

  datatype Op = OpAllocate | OpReserve(start: U64, pages: nat) | OpFree(address: U64)

  datatype Answer = Got(frame: Result<int, FrameError>) | Done(result: Result<(), FrameError>)

  function Step(f: Frames, op: Op): (r: (Frames, Answer))
    requires Valid(f)
    ensures Valid(r.0) && r.0.base == f.base && r.0.count == f.count
  {
    match op
    case OpAllocate => var (f', a) := Allocate(f); (f', Got(a))
    case OpReserve(start, pages) => var (f', a) := Reserve(f, start, pages); (f', Done(a))
    case OpFree(address) => var (f', a) := Free(f, address); (f', Done(a))
  }

  function Run(f: Frames, ops: seq<Op>): (r: Frames)
    requires Valid(f)
    ensures Valid(r) && r.base == f.base && r.count == f.count
  {
    if ops == [] then f else Step(Run(f, ops[..|ops| - 1]), ops[|ops| - 1]).0
  }

  // ---------------------------------------------------------------------
  // Addresses and indices
  // ---------------------------------------------------------------------

  /** A frame's address leads back to the frame exactly when it does not wrap around 64 bits. */
  lemma AddressRoundTrip(f: Frames, i: nat)
    requires Valid(f) && i < f.count
    ensures 0 <= AddressOf(f.base, i) < 0x1_0000_0000_0000_0000
    ensures IndexOf(f, AddressOf(f.base, i)) == Ok(i) <==> f.base + i * 4096 < 0x1_0000_0000_0000_0000
    ensures f.base + i * 4096 >= 0x1_0000_0000_0000_0000 ==> IndexOf(f, AddressOf(f.base, i)) == Err(OutOfRange)
  {
    assert (f.base + i * 4096) % 4096 == 0;
    assert (f.base + i * 4096 - f.base) / 4096 == i;
  }

  /** Every address that names a frame is that frame's address. */
  lemma IndexRoundTrip(f: Frames, address: U64)
    requires Valid(f) && IndexOf(f, address).Ok?
    ensures AddressOf(f.base, IndexOf(f, address).value) == address
  {
  }

  /** Different frames have different addresses, even in a region that wraps around. */
  lemma AddressInjective(f: Frames, i: nat, j: nat)
    requires Valid(f) && i < f.count && j < f.count && AddressOf(f.base, i) == AddressOf(f.base, j)
    ensures i == j
  {
  }

  // ---------------------------------------------------------------------
  // The hint
  // ---------------------------------------------------------------------

  lemma {:induction false} ScanSkips(f: Frames, from: nat, to: nat)
    requires from <= to <= f.count && forall i: nat :: from <= i < to ==> i in f.used
    ensures LowestFree(f, from) == LowestFree(f, to)
    decreases f.count - from
  {
    if from < to {
      ScanSkips(f, from + 1, to);
    }
  }

  /** After any run, searching from the hint finds what searching from zero finds. */
  lemma HintAgrees(f: Frames, ops: seq<Op>)
    requires Valid(f)
    ensures var g := Run(f, ops); LowestFree(g, g.hint) == LowestFree(g, 0)
  {
    var g := Run(f, ops);
    ScanSkips(g, 0, g.hint);
  }

  // ---------------------------------------------------------------------
  // Conservation
  // ---------------------------------------------------------------------

  /** `available` counts the free indices. */
  lemma AvailableCountsFree(f: Frames)
    requires Valid(f)
    ensures Available(f) == |Span(0, f.count) - f.used| >= 0
  {
    assert f.used <= Span(0, f.count);
    assert |Span(0, f.count) - f.used| == |Span(0, f.count)| - |Span(0, f.count) * f.used|;
    assert Span(0, f.count) * f.used == f.used;
  }

  /** Allocation fails exactly when nothing is available, and takes one frame otherwise. */
  lemma AllocateConserves(f: Frames)
    requires Valid(f)
    ensures var (f', answer) := Allocate(f);
      && (answer == Err(OutOfMemory) <==> Available(f) == 0)
      && Available(f') == Available(f) - if answer.Ok? then 1 else 0
  {
    AvailableCountsFree(f);
    if LowestFree(f, 0).Some? {
      assert LowestFree(f, 0).value in Span(0, f.count) - f.used;
    } else {
      assert Span(0, f.count) - f.used == {};
    }
  }

  /** Reserving takes the frames of the span that were free, and no other. */
  lemma ReserveConserves(f: Frames, start: U64, pages: nat)
    requires Valid(f)
    ensures var (f', answer) := Reserve(f, start, pages);
      Available(f') == Available(f) - |f'.used - f.used| && f.used <= f'.used && (answer.Err? ==> f' == f)
  {
    hide Span;
    Growth(f.used, Reserve(f, start, pages).0.used);
  }

  lemma Growth(a: set<nat>, b: set<nat>)
    requires a <= b
    ensures |b| == |a| + |b - a|
  {
    assert b == a + (b - a);
  }

  /** A successful `free` gives one frame back; a failing one changes nothing. */
  lemma FreeConserves(f: Frames, address: U64)
    requires Valid(f)
    ensures var (f', answer) := Free(f, address);
      Available(f') == Available(f) + (if answer.Ok? then 1 else 0) && (answer.Err? ==> f' == f)
  {
  }

  /** When `reserve` succeeds and which error it gives otherwise, in terms of the region's ends. */
  lemma ReserveSucceedsExactly(f: Frames, start: U64, pages: nat)
    requires Valid(f)
    ensures var answer, end := Reserve(f, start, pages).1, f.base + f.count * 4096;
      && (answer.Ok? <==> start % 4096 == 0 && f.base <= start < end && start + pages * 4096 <= end)
      && (answer == Err(Unaligned) <==> start % 4096 != 0)
      && (answer.Err? ==> answer.error == Unaligned || answer.error == OutOfRange)
  {
    hide Span;
    assert start % 4096 == 0 && f.base <= start ==> (start - f.base) / 4096 * 4096 == start - f.base;
  }

  /** When `free` succeeds, and which error it gives otherwise. */
  lemma FreeSucceedsExactly(f: Frames, address: U64)
    requires Valid(f)
    ensures var answer, end := Free(f, address).1, f.base + f.count * 4096;
      && (answer == Err(OutOfRange) <==> address % 4096 != 0 || address < f.base || address >= end)
      && (answer.Ok? <==> exists i :: i in f.used && address == f.base + i * 4096)
      && (answer.Err? ==> answer.error == OutOfRange || answer.error == DoubleFree)
  {
    if address % 4096 == 0 && f.base <= address {
      assert address == f.base + (address - f.base) / 4096 * 4096;
    }
  }

  // ---------------------------------------------------------------------
  // No frame is handed out twice
  // ---------------------------------------------------------------------

  predicate HandedOut(f: Frames, ops: seq<Op>, j: nat, address: int)
    requires Valid(f)
  {
    j < |ops| && ops[j] == OpAllocate && Step(Run(f, ops[..j]), OpAllocate).1 == Got(Ok(address))
  }

  predicate Freed(f: Frames, ops: seq<Op>, k: nat, address: int)
    requires Valid(f)
  {
    && k < |ops| && ops[k].OpFree? && ops[k].address == address
    && Step(Run(f, ops[..k]), ops[k]).1 == Done(Ok(()))
  }

  /** A used frame stays used until a `free` of its address succeeds. */
  lemma StepKeepsUsed(f: Frames, op: Op, x: nat)
    requires Valid(f) && x in f.used
    ensures x in Step(f, op).0.used ||
      (op.OpFree? && op.address == AddressOf(f.base, x) && Step(f, op).1 == Done(Ok(())))
  {
    if op.OpFree? && IndexOf(f, op.address).Ok? {
      IndexRoundTrip(f, op.address);
    }
  }

  lemma RunNext(f: Frames, ops: seq<Op>, j: nat)
    requires Valid(f) && j < |ops|
    ensures Run(f, ops[..j + 1]) == Step(Run(f, ops[..j]), ops[j]).0
  {
    hide Step;
    assert ops[..j + 1][..j] == ops[..j];
  }

  /** One more operation of the run, which is not a successful `free` of the frame. */
  lemma UsedOneMore(f: Frames, ops: seq<Op>, j: nat, x: nat)
    requires Valid(f) && j < |ops| && x in Run(f, ops[..j]).used && !Freed(f, ops, j, AddressOf(f.base, x))
    ensures x in Run(f, ops[..j + 1]).used
  {
    hide Run, Step, AddressOf;
    RunNext(f, ops, j);
    StepKeepsUsed(Run(f, ops[..j]), ops[j], x);
  }

  lemma {:induction false} UsedUntilFreed(f: Frames, ops: seq<Op>, i: nat, j: nat, x: nat)
    requires Valid(f) && i <= j <= |ops| && x in Run(f, ops[..i]).used
    requires forall k :: i <= k < j ==> !Freed(f, ops, k, AddressOf(f.base, x))
    ensures x in Run(f, ops[..j]).used
    decreases j
  {
    hide Run, Freed, AddressOf;
    if i < j {
      UsedUntilFreed(f, ops, i, j - 1, x);
      UsedOneMore(f, ops, j - 1, x);
    }
  }

  /** The frame handed out was free. */
  lemma HandoutWasFree(f: Frames, x: nat)
    requires Valid(f) && x < f.count && Step(f, OpAllocate).1 == Got(Ok(AddressOf(f.base, x)))
    ensures x !in f.used
  {
    AddressInjective(f, LowestFree(f, 0).value, x);
  }

  /** First fit: every frame below the one handed out is in use. */
  lemma FirstFit(f: Frames, x: nat)
    requires Valid(f) && x < f.count && Allocate(f).1 == Ok(AddressOf(f.base, x))
    ensures x !in f.used && forall y: nat :: y < x ==> y in f.used
  {
    AddressInjective(f, LowestFree(f, 0).value, x);
  }

  /** So it is after any run, whatever was reserved and freed in it. */
  lemma ReachableFirstFit(f: Frames, ops: seq<Op>, x: nat)
    requires Valid(f) && x < f.count && Step(Run(f, ops), OpAllocate).1 == Got(Ok(AddressOf(f.base, x)))
    ensures x !in Run(f, ops).used && forall y: nat :: y < x ==> y in Run(f, ops).used
  {
    hide AddressOf, Run;
    FirstFit(Run(f, ops), x);
  }

  /**
   A frame that was in use at some point of a run (allocated or reserved before)
   is handed out again only after a successful `free` of its address.
   */
  lemma NoDoubleHandout(f: Frames, ops: seq<Op>, i: nat, j: nat, x: nat)
    requires Valid(f) && i <= j < |ops| && x in Run(f, ops[..i]).used
    requires HandedOut(f, ops, j, AddressOf(f.base, x))
    ensures exists k :: i <= k < j && Freed(f, ops, k, AddressOf(f.base, x))
  {
    hide Step, Freed, Run, AddressOf;
    if forall k :: i <= k < j ==> !Freed(f, ops, k, AddressOf(f.base, x)) {
      UsedUntilFreed(f, ops, i, j, x);
      HandoutWasFree(Run(f, ops[..j]), x);
    }
  }

  /** Handing out a frame and reserving frames put exactly those frames in use. */
  lemma TakenIsUsed(f: Frames, op: Op)
    requires Valid(f)
    ensures op.OpAllocate? && Step(f, op).1.frame.Ok? ==>
      exists x ::
        x !in f.used && Step(f, op).0.used == f.used + {x} && Step(f, op).1.frame.value == AddressOf(f.base, x)
    ensures op.OpReserve? && Step(f, op).1.result.Ok? ==>
      var first := IndexOf(f, op.start);
      && first.Ok?
      && forall x: nat :: x in Step(f, op).0.used <==> x in f.used || first.value <= x < first.value + op.pages
  {
    if op.OpAllocate? && LowestFree(f, 0).Some? {
      assert LowestFree(f, 0).value !in f.used;
    }
  }

  /**
   Freeing what was just allocated gives the frame back, and the next allocation
   returns it again, exactly when its address does not wrap around 64 bits.
   */
  lemma FreeUndoesAllocate(f: Frames)
    requires Valid(f) && Allocate(f).1.Ok?
    ensures var (g, a) := Allocate(f);
      && 0 <= a.value < 0x1_0000_0000_0000_0000
      && Valid(g)
      && (Free(g, a.value).1.Ok? <==> f.base + LowestFree(f, 0).value * 4096 < 0x1_0000_0000_0000_0000)
      && (Free(g, a.value).1.Ok? ==>
            Free(g, a.value).0.used == f.used && Valid(Free(g, a.value).0) && Allocate(Free(g, a.value).0).1 == a)
  {
    var (g, a) := Allocate(f);
    var i := LowestFree(f, 0).value;
    AllocateKeepsValid(f);
    AddressRoundTrip(g, i);
    hide IndexOf, AddressOf;
    if IndexOf(g, a.value) == Ok(i) {
      var h := Free(g, a.value).0;
      assert h.used == f.used;
      assert LowestFree(h, 0) == Some(i);
    }
  }

  lemma ReserveKeepsValid(f: Frames, start: U64, pages: nat)
    requires Valid(f)
    ensures Valid(Reserve(f, start, pages).0)
  {
  }

  lemma AllocateKeepsValid(f: Frames)
    requires Valid(f)
    ensures Valid(Allocate(f).0)
  {
  }

  // ---------------------------------------------------------------------
  // Regions that run past the end of the address space
  // ---------------------------------------------------------------------

  /** All frames of a region can be named by their addresses iff the region ends within 64 bits. */
  lemma RegionRoundTrip(f: Frames)
    requires Valid(f)
    ensures (forall i: nat :: i < f.count ==> IndexOf(f, AddressOf(f.base, i)) == Ok(i)) <==>
      f.base + f.count * 4096 <= 0x1_0000_0000_0000_0000
  {
    hide IndexOf, AddressOf;
    forall i: nat | i < f.count
      ensures 0 <= AddressOf(f.base, i) < 0x1_0000_0000_0000_0000
      ensures IndexOf(f, AddressOf(f.base, i)) == Ok(i) <==> f.base + i * 4096 < 0x1_0000_0000_0000_0000
    {
      AddressRoundTrip(f, i);
    }
    var last := AddressOf(f.base, f.count - 1);
    assert IndexOf(f, last) == Ok(f.count - 1) <==> f.base + (f.count - 1) * 4096 < 0x1_0000_0000_0000_0000;
    AlignedEnd(f.base, f.count);
  }

  /** An aligned region whose last frame begins below 2^64 ends at or below it. */
  lemma AlignedEnd(base: U64, count: nat)
    requires base % 4096 == 0 && 0 < count
    ensures base + (count - 1) * 4096 < 0x1_0000_0000_0000_0000 <==>
            base + count * 4096 <= 0x1_0000_0000_0000_0000
  {
    var pages := base / 4096;
    assert base == pages * 4096;
  }

  /** The state `new` returns for an accepted region. */
  function NewFrames(base: U64, bytes: U64): Frames {
    Frames(base, bytes / 4096, {}, 0)
  }

  /** At the top of the address space the second of two frames is handed out at address 0 and cannot be freed. */
  lemma WrappedRegionFails()
    ensures var f := NewFrames(0xffff_ffff_ffff_f000, 0x2000);
      && Valid(f) && f.count == 2
      && AddressOf(f.base, 1) == 0
      && IndexOf(f, 0) == Err(OutOfRange)
      && Valid(Allocate(f).0) && Allocate(Allocate(f).0).1 == Ok(0)
      && Free(Allocate(Allocate(f).0).0, 0).1 == Err(OutOfRange)
  {
    var f := NewFrames(0xffff_ffff_ffff_f000, 0x2000);
    assert LowestFree(f, 0) == Some(0);
    var g := Allocate(f).0;
    assert LowestFree(g, 0) == Some(1);
  }

  /** A used frame whose address wraps stays used in every continuation: no `free` can name it. */
  lemma {:induction false} WrappedFrameIsLost(f: Frames, ops: seq<Op>, x: nat)
    requires Valid(f) && x in f.used && f.base + x * 4096 >= 0x1_0000_0000_0000_0000
    ensures x in Run(f, ops).used
  {
    hide Step;
    if ops != [] {
      var before := Run(f, ops[..|ops| - 1]);
      WrappedFrameIsLost(f, ops[..|ops| - 1], x);
      NoFreeOfWrapped(before, ops[|ops| - 1], x);
    }
  }

  lemma NoFreeOfWrapped(f: Frames, op: Op, x: nat)
    requires Valid(f) && x in f.used && f.base + x * 4096 >= 0x1_0000_0000_0000_0000
    ensures x in Step(f, op).0.used
  {
    StepKeepsUsed(f, op, x);
    AddressRoundTrip(f, x);
  }
}
