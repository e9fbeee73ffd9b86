/**
 Failure-carrying results, optional values and the machine integer widths that
 the kernel's data structures use.
 */
module Common {

  datatype Option<+T> = None | Some(value: T)

  datatype Result<+T, +E> = Ok(value: T) | Err(error: E)


  type U8 = x: int | 0 <= x < 0x100
  type U16 = x: int | 0 <= x < 0x1_0000
  type U32 = x: int | 0 <= x < 0x1_0000_0000
  type U64 = x: int | 0 <= x < 0x1_0000_0000_0000_0000

  /** `u16::wrapping_add(1)`. */
  function WrappingInc(x: U16): U16 {
    if x == 0xffff then 0 else x + 1
  }

  /** `k` wrapping increments. */
  function WrappingAdd(x: U16, k: nat): U16 {
    if k == 0 then x else WrappingInc(WrappingAdd(x, k - 1))
  }

  /** The increments lose `q` full turns and nothing else. */
  lemma {:induction false} WrappingTurns(x: U16, k: nat) returns (q: nat)
    ensures x + k == q * 0x1_0000 + WrappingAdd(x, k)
  {
    if k == 0 {
      q := 0;
    } else {
      q := WrappingTurns(x, k - 1);
      q := if WrappingAdd(x, k - 1) == 0xffff then q + 1 else q;
    }
  }

  /** The increments come back to where they started exactly after full turns. */
  lemma WrappingAddReturns(x: U16, k: nat)
    ensures WrappingAdd(x, k) == x <==> k % 0x1_0000 == 0
    ensures 1 <= k < 0x1_0000 ==> WrappingAdd(x, k) != x
  {
    var q := WrappingTurns(x, k);
    var w := WrappingAdd(x, k);
    assert k == q * 0x1_0000 + (w - x);
  }

  /** `+= 1` on a `u64` as the release profile compiles it. */
  function Tick(x: U64): U64 {
    if x == 0xffff_ffff_ffff_ffff then 0 else x + 1
  }

  /** `k` ticks. */
  function TickAdd(x: U64, k: nat): U64 {
    if k == 0 then x else Tick(TickAdd(x, k - 1))
  }

  /** From zero the counter never exceeds the number of ticks, and shows it exactly until it wraps. */
  lemma {:induction false} TickAddBound(k: nat)
    ensures TickAdd(0, k) <= k
    ensures TickAdd(0, k) == k <==> k < 0x1_0000_0000_0000_0000
  {
    if k > 0 {
      TickAddBound(k - 1);
    }
  }

  /** Position `i` places after `head` in a ring of `n` entries. */
  function Ring(head: nat, i: nat, n: nat): int {
    if head + i < n then head + i else head + i - n
  }

  lemma RingIsModulo(head: nat, i: nat, n: nat)
    requires head < n && i <= n
    ensures (head + i) % n == Ring(head, i, n)
  {
    var x := head + i;
    DivisionTheorem(x, n);
    QuotientBelowTwo(x, n);
  }

  lemma DivisionTheorem(x: nat, n: nat)
    requires 0 < n
    ensures x == x / n * n + x % n && 0 <= x % n < n && 0 <= x / n
  {
  }

  lemma QuotientBelowTwo(x: nat, n: nat)
    requires 0 < n && x < 2 * n
    ensures x % n == if x < n then x else x - n
  {
    DivisionTheorem(x, n);
    TwoTimes(x / n, n);
  }

  lemma TwoTimes(q: nat, n: nat)
    ensures q >= 2 ==> q * n >= 2 * n
    ensures q == 1 ==> q * n == n
    ensures q == 0 ==> q * n == 0
  {
    if q >= 2 {
      assert (q - 2) * n >= 0;
    }
  }

  /** No value occurs twice. */
  predicate Distinct(q: seq<nat>) {
    forall i, j :: 0 <= i < j < |q| ==> q[i] != q[j]
  }

  /** A truth value as a number, for counting. */
  function Bit(b: bool): nat {
    if b then 1 else 0
  }

  /** A set of indices below `n` has at most `n` members. */
  lemma {:induction false} BoundedIndices(s: set<nat>, n: nat)
    requires forall i :: i in s ==> i < n
    ensures |s| <= n
    ensures |s| == n <==> forall i: nat :: i < n ==> i in s
  {
    if n == 0 {
      assert s == {};
    } else {
      var rest := s - {n - 1};
      BoundedIndices(rest, n - 1);
      assert s == rest || s == rest + {n - 1};
    }
  }

  lemma {:induction false} SubsetSize<T>(a: set<T>, b: set<T>)
    requires a <= b
    ensures |a| <= |b|
  {
    if a != {} {
      var x :| x in a;
      SubsetSize(a - {x}, b - {x});
    }
  }
}
