/**
 The frame allocator as the kernel runs it: a bitmap of 64-bit words, a search
 hint, and first-fit search that wraps around. Each method is proved to take the
 abstract state where FrameModel says.
 */
module FrameAllocatorMachine {
  import opened Common
  import opened FrameModel
  import opened Bits

  // ---------------------------------------------------------------------
  // The allocator
  // ---------------------------------------------------------------------

  /** How many indices below `n` are not in `members`. */
  ghost function FreeCount(members: set<nat>, n: nat): nat {
    |Span(0, n) - members|
  }

  lemma FreeCountNext(members: set<nat>, n: nat)
    ensures FreeCount(members, n + 1) == FreeCount(members, n) + if n in members then 0 else 1
    ensures FreeCount(members, 0) == 0
  {
    if n in members {
      assert Span(0, n + 1) - members == Span(0, n) - members;
    } else {
      assert Span(0, n + 1) - members == (Span(0, n) - members) + {n};
    }
    assert Span(0, 0) - members == {};
  }

  lemma FreeCountAll(f: Frames)
    requires FrameModel.Valid(f)
    ensures FreeCount(f.used, f.count) == Available(f)
  {
    AvailableCountsFree(f);
  }

  class FrameAllocator {
    const base: U64
    const frameCount: nat
    const used: array<bv64>
    var nextHint: nat
    ghost var members: set<nat>

    /** The bitmap marks exactly the used frames, and all padding bits. */
    ghost predicate Bitmap()
      reads this, used
    {
      && frameCount <= used.Length * 64
      && (forall i: nat :: i < frameCount ==> (Marked(used[..], i) <==> i in members))
      && (forall i: nat :: frameCount <= i < used.Length * 64 ==> Marked(used[..], i))
    }

    ghost predicate Valid()
      reads this, used
    {
      Bitmap() && FrameModel.Valid(View())
    }

    ghost function View(): Frames
      reads this
    {
      Frames(base, frameCount, members, nextHint)
    }

    constructor (words: nat, base: U64, frameCount: nat)
      ensures this.base == base && this.frameCount == frameCount && used.Length == words && fresh(used)
      ensures nextHint == 0 && members == {}
      ensures forall i :: 0 <= i < words ==> used[i] == 0
    {
      this.base, this.frameCount := base, frameCount;
      used := new bv64[words](_ => 0);
      nextHint := 0;
      members := {};
    }

    method IsUsed(index: nat) returns (r: bool)
      requires index < used.Length * 64
      ensures r == Marked(used[..], index)
    {
      hide Mask, And;
      r := And(used[index / 64], Mask(index % 64)) != 0;
    }

    method SetUsed(index: nat, value: bool)
      requires index < used.Length * 64
      modifies used
      ensures forall j: nat :: j < used.Length * 64 ==>
        Marked(used[..], j) == if j == index then value else old(Marked(used[..], j))
    {
      hide BitOf, Mask, And, Or, AndNot;
      ghost var words := used[..];
      if value {
        used[index / 64] := Or(used[index / 64], Mask(index % 64));
      } else {
        used[index / 64] := AndNot(used[index / 64], Mask(index % 64));
      }
      assert used[..] == words[index / 64 := WithBit(words[index / 64], index % 64, value)];
      forall j: nat | j < used.Length * 64
        ensures Marked(used[..], j) == if j == index then value else Marked(words, j)
      {
        MarkOne(words, index, value, j);
      }
    }

    method ToIndex(address: U64) returns (r: Result<nat, FrameError>)
      ensures r == IndexOf(View(), address)
    {
      if address % 4096 != 0 || address < base {
        return Err(OutOfRange);
      }
      var index := (address - base) / 4096;
      return if index >= frameCount then Err(OutOfRange) else Ok(index);
    }

    /** The circular search of `allocate`, starting at the hint, finds what a search from zero finds. */
    method FindFree() returns (r: Option<nat>)
      requires Valid()
      ensures r == LowestFree(View(), 0)
    {
      hide Marked;
      ghost var f := View();
      ScanSkips(f, 0, f.hint);
      var offset := 0;
      while offset < frameCount
        invariant 0 <= offset <= frameCount
        invariant nextHint + offset <= frameCount ==> LowestFree(f, 0) == LowestFree(f, nextHint + offset)
        invariant nextHint + offset >= frameCount ==> LowestFree(f, 0).None?
      {
        RingIsModulo(nextHint, offset, frameCount);
        var index := (nextHint + offset) % frameCount;
        var taken := IsUsed(index);
        if !taken {
          return Some(index);
        }
        offset := offset + 1;
      }
      return None;
    }

    method Allocate() returns (r: Result<int, FrameError>)
      requires Valid()
      modifies this, used
      ensures Valid()
      ensures (View(), r) == FrameModel.Allocate(old(View()))
    {
      hide Marked;
      AllocateKeepsValid(View());
      var free := FindFree();
      if free.None? {
        return Err(OutOfMemory);
      }
      var index := free.value;
      MarkFrame(index);
      RingIsModulo(index, 1, frameCount);
      nextHint := (index + 1) % frameCount;
      return Ok(AddressOf(base, index));
    }

    /** Marks one frame. */
    method MarkFrame(i: nat)
      requires Bitmap() && i < frameCount
      modifies this`members, used
      ensures Bitmap()
      ensures members == old(members) + {i}
    {
      hide Marked;
      SetUsed(i, true);
      members := members + {i};
    }

    /** Marks the frames from `first` to `end`. */
    method MarkRange(first: nat, end: nat)
      requires Bitmap() && first <= end <= frameCount
      modifies this`members, used
      ensures Bitmap()
      ensures members == old(members) + Span(first, end - first)
    {
      hide Bitmap, Span;
      SpanNext(members, first, 0);
      var index := first;
      while index < end
        invariant first <= index <= end
        invariant Bitmap()
        invariant members == old(members) + Span(first, index - first)
      {
        SpanNext(old(members), first, index - first);
        MarkFrame(index);
        index := index + 1;
      }
    }

    method Reserve(start: U64, pages: nat) returns (r: Result<(), FrameError>)
      requires Valid()
      modifies this, used
      ensures Valid()
      ensures (View(), r) == FrameModel.Reserve(old(View()), start, pages)
    {
      hide Bitmap, Span;
      ReserveKeepsValid(View(), start, pages);
      if start % 4096 != 0 {
        return Err(Unaligned);
      }
      var first := ToIndex(start);
      if first.Err? {
        return Err(first.error);
      }
      var end := first.value + pages;
      if end > frameCount {
        return Err(OutOfRange);
      }
      MarkRange(first.value, end);
      return Ok(());
    }

    method Free(address: U64) returns (r: Result<(), FrameError>)
      requires Valid()
      modifies this, used
      ensures Valid()
      ensures (View(), r) == FrameModel.Free(old(View()), address)
    {
      hide Marked;
      var index := ToIndex(address);
      if index.Err? {
        return Err(index.error);
      }
      var i := index.value;
      var taken := IsUsed(i);
      if !taken {
        return Err(DoubleFree);
      }
      SetUsed(i, false);
      members := members - {i};
      if i < nextHint {
        nextHint := i;
      }
      return Ok(());
    }

    method CountAvailable() returns (n: nat)
      requires Valid()
      ensures n == Available(View())
    {
      hide Marked, FreeCount;
      n := 0;
      var index := 0;
      FreeCountNext(members, 0);
      while index < frameCount
        invariant 0 <= index <= frameCount
        invariant n == FreeCount(members, index)
      {
        FreeCountNext(members, index);
        var taken := IsUsed(index);
        if !taken {
          n := n + 1;
        }
        index := index + 1;
      }
      FreeCountAll(View());
    }
  }

  /** `FrameAllocator::new`: all frames free, all padding bits set. */
  method NewAllocator(words: nat, base: U64, bytes: U64) returns (r: Result<FrameAllocator, FrameError>)
    ensures base % 4096 != 0 || bytes % 4096 != 0 ==> r == Err(Unaligned)
    ensures base % 4096 == 0 && bytes % 4096 == 0 && (bytes == 0 || bytes > words * 64 * 4096) ==> r == Err(EmptyRegion)
    ensures base % 4096 == 0 && bytes % 4096 == 0 && 0 < bytes <= words * 64 * 4096 ==>
      r.Ok? && fresh(r.value) && fresh(r.value.used) && r.value.Valid() &&
      r.value.View() == NewFrames(base, bytes)
  {
    hide Marked;
    if base % 4096 != 0 || bytes % 4096 != 0 {
      return Err(Unaligned);
    }
    var frameCount := bytes / 4096;
    if frameCount == 0 || frameCount > words * 64 {
      return Err(EmptyRegion);
    }
    var allocator := new FrameAllocator(words, base, frameCount);
    assert forall i: nat :: i < words * 64 ==> !Marked(allocator.used[..], i) by {
      forall i: nat | i < words * 64 ensures !Marked(allocator.used[..], i) {
        ZeroUnmarked(allocator.used[..], i);
      }
    }
    var index := frameCount;
    while index < words * 64
      invariant frameCount <= index <= words * 64
      invariant allocator.members == {} && allocator.nextHint == 0
      invariant forall i: nat :: i < words * 64 ==> (Marked(allocator.used[..], i) <==> frameCount <= i < index)
    {
      allocator.SetUsed(index, true);
      index := index + 1;
    }
    return Ok(allocator);
  }
}
