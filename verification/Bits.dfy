/** Single bits of 64-bit words and of bitmaps made of such words. */
module Bits {

  /** A shift distance below 64. */
  function Amount(k: nat): bv6
    requires k < 64
  {
    k as bv6
  }

  function AmountBack(b: bv6): nat {
    b as nat
  }

  /** `1u64 << k`. */
  function Mask(k: nat): bv64
    requires k < 64
  {
    (1 as bv64) << Amount(k)
  }

  // The word operations have names so that a proof about bit positions can leave
  // their bit-level meaning out of sight.

  function And(a: bv64, b: bv64): bv64 {
    a & b
  }

  function Or(a: bv64, b: bv64): bv64 {
    a | b
  }

  function AndNot(a: bv64, b: bv64): bv64 {
    a & !b
  }

  predicate BitOf(w: bv64, k: nat)
    requires k < 64
  {
    And(w, Mask(k)) != 0
  }

  function WithBit(w: bv64, k: nat, value: bool): bv64
    requires k < 64
  {
    if value then Or(w, Mask(k)) else AndNot(w, Mask(k))
  }

  lemma AmountRoundTrip(k: nat)
    requires k < 64
    ensures AmountBack(Amount(k)) == k
  {
  }

  lemma ShiftsDiffer(a: bv6, b: bv6)
    requires a != b
    ensures ((1 as bv64) << a) & ((1 as bv64) << b) == 0
  {
  }

  lemma ShiftNonZero(a: bv6)
    ensures (1 as bv64) << a != 0
  {
  }

  lemma MasksDiffer(j: nat, k: nat)
    requires j < 64 && k < 64 && j != k
    ensures And(Mask(j), Mask(k)) == 0
  {
    hide Amount, AmountBack;
    AmountRoundTrip(j);
    AmountRoundTrip(k);
    ShiftsDiffer(Amount(j), Amount(k));
  }

  lemma MaskNonZero(k: nat)
    requires k < 64
    ensures Mask(k) != 0
  {
    hide Amount;
    ShiftNonZero(Amount(k));
  }

  lemma Distributes(w: bv64, a: bv64, b: bv64)
    ensures (w | a) & b == (w & b) | (a & b)
  {
  }

  lemma OrZero(x: bv64)
    ensures x | 0 == x
  {
  }

  lemma OrOther(w: bv64, a: bv64, b: bv64)
    requires And(a, b) == 0
    ensures And(Or(w, a), b) == And(w, b)
  {
    Distributes(w, a, b);
    OrZero(w & b);
  }

  lemma OrSelf(w: bv64, a: bv64)
    ensures And(Or(w, a), a) == a
  {
  }

  lemma NotOutside(a: bv64, b: bv64)
    requires a & b == 0
    ensures !a & b == b
  {
  }

  lemma AndAssociates(x: bv64, y: bv64, z: bv64)
    ensures (x & y) & z == x & (y & z)
  {
  }

  lemma AndNotOther(w: bv64, a: bv64, b: bv64)
    requires And(a, b) == 0
    ensures And(AndNot(w, a), b) == And(w, b)
  {
    NotOutside(a, b);
    AndAssociates(w, !a, b);
  }

  lemma AndNotSelf(w: bv64, a: bv64)
    ensures And(AndNot(w, a), a) == 0
  {
  }

  /** Writing one bit of a word changes that bit and no other. */
  lemma WithBitAt(w: bv64, k: nat, value: bool, j: nat)
    requires j < 64 && k < 64
    ensures BitOf(WithBit(w, k, value), j) == if j == k then value else BitOf(w, j)
  {
    hide Mask, And, Or, AndNot;
    if j == k {
      MaskNonZero(k);
      OrSelf(w, Mask(k));
      AndNotSelf(w, Mask(k));
    } else {
      MasksDiffer(k, j);
      OrOther(w, Mask(k), Mask(j));
      AndNotOther(w, Mask(k), Mask(j));
    }
  }

  /** Bit `i` of a bitmap. */
  predicate Marked(words: seq<bv64>, i: nat)
    requires i < |words| * 64
  {
    BitOf(words[i / 64], i % 64)
  }

  /** Writing one bit of the bitmap changes that bit and no other, across all words. */
  lemma MarkOne(words: seq<bv64>, i: nat, value: bool, j: nat)
    requires i < |words| * 64 && j < |words| * 64
    ensures Marked(words[i / 64 := WithBit(words[i / 64], i % 64, value)], j) ==
      if j == i then value else Marked(words, j)
  {
    hide BitOf, WithBit;
    WithBitAt(words[i / 64], i % 64, value, j % 64);
  }

  lemma ZeroUnmarked(words: seq<bv64>, i: nat)
    requires i < |words| * 64 && words[i / 64] == 0
    ensures !Marked(words, i)
  {
    hide Mask;
    AndCommutes(0, Mask(i % 64));
  }

  lemma AndCommutes(a: bv64, b: bv64)
    ensures a & b == b & a
  {
  }
}
