/**
 * The 32-bit priority sets of the kernel (`OS_readySet`, `OS_delayedSet`).
 * A `uint32_t` is modelled bit by bit: a word is a sequence of exactly 32
 * bits, bit `i` (the bit of value `1U << i`) at index `i`.  In a priority set,
 * bit `i` stands for priority `i + 1`; priority 0, the idle thread, has no bit.
 */
module Bitmap {

  const WIDTH := 32

  /** A `uint32_t`, bit `i` at index `i`. */
  type Word = s: seq<bool> | |s| == WIDTH witness seq(WIDTH, _ => false)

  /** `0U`. */
  function Zero(): (z: Word)
    ensures forall i :: 0 <= i < WIDTH ==> !z[i]
  {
    seq(WIDTH, _ => false)
  }

  /** `1U << i`: only bit `i` set. */
  function Bit(i: nat): (b: Word)
    requires i < WIDTH
    ensures forall j :: 0 <= j < WIDTH ==> (b[j] <==> j == i)
  {
    seq(WIDTH, j => j == i)
  }

  /** `a | b`. */
  function Or(a: Word, b: Word): (r: Word)
    ensures forall j :: 0 <= j < WIDTH ==> (r[j] <==> a[j] || b[j])
  {
    seq(WIDTH, j requires 0 <= j < WIDTH => a[j] || b[j])
  }

  /** `a & ~b`. */
  function AndNot(a: Word, b: Word): (r: Word)
    ensures forall j :: 0 <= j < WIDTH ==> (r[j] <==> a[j] && !b[j])
  {
    seq(WIDTH, j requires 0 <= j < WIDTH => a[j] && !b[j])
  }

  /** The sets `a` and `b` have no bit in common (`(a & b) == 0U`). */
  predicate Disjoint(a: Word, b: Word)
  {
    forall i :: 0 <= i < WIDTH ==> !(a[i] && b[i])
  }

  // ------------------------------------------- the value of a word

  /** `2` to the power `n`. */
  function Pow2(n: nat): (r: nat)
    ensures 1 <= r
  {
    if n == 0 then 1 else 2 * Pow2(n - 1)
  }

  /** The value of bits `0 .. n-1` of `w`: the sum of `2^i` over its set bits `i < n`. */
  function ValueBelow(w: Word, n: nat): nat
    requires n <= WIDTH
  {
    if n == 0 then 0 else ValueBelow(w, n - 1) + (if w[n - 1] then Pow2(n - 1) else 0)
  }

  /** The `uint32_t` a word stands for. */
  function Val(w: Word): nat
  {
    ValueBelow(w, WIDTH)
  }

  lemma {:induction false} ValueBelowBound(w: Word, n: nat)
    requires n <= WIDTH
    ensures ValueBelow(w, n) < Pow2(n)
  {
    if n > 0 {
      ValueBelowBound(w, n - 1);
    }
  }

  lemma {:induction false} ValueBelowZero(w: Word, n: nat)
    requires n <= WIDTH
    ensures ValueBelow(w, n) == 0 <==> forall i :: 0 <= i < n ==> !w[i]
  {
    if n > 0 {
      ValueBelowZero(w, n - 1);
    }
  }

  /** Setting a clear bit `k` adds `2^k` to the value of the bits below `n` when `k < n`. */
  lemma {:induction false} ValueBelowFlip(a: Word, b: Word, k: nat, n: nat)
    requires n <= WIDTH && k < WIDTH && !a[k] && b[k]
    requires forall i :: 0 <= i < WIDTH && i != k ==> a[i] == b[i]
    ensures ValueBelow(b, n) == ValueBelow(a, n) + (if k < n then Pow2(k) else 0)
  {
    if n > 0 {
      ValueBelowFlip(a, b, k, n - 1);
    }
  }

  /** Clear bits from `n` up to `m` add nothing to the value. */
  lemma {:induction false} ValueBelowHigh(w: Word, n: nat, m: nat)
    requires n <= m <= WIDTH
    requires forall i :: n <= i < m ==> !w[i]
    ensures ValueBelow(w, m) == ValueBelow(w, n)
  {
    if m > n {
      ValueBelowHigh(w, n, m - 1);
    }
  }

  /** `0U` has value 0 and is the only such word, and every word lies below `2^32`. */
  lemma ValZero(x: Word)
    ensures Val(Zero()) == 0
    ensures Val(x) == 0 <==> x == Zero()
    ensures Val(x) < Pow2(WIDTH)
  {
    ValueBelowZero(Zero(), WIDTH);
    ValueBelowZero(x, WIDTH);
    ValueBelowBound(x, WIDTH);
    if Val(x) == 0 {
      assert forall i :: 0 <= i < WIDTH ==> x[i] == Zero()[i];
    }
  }

  /** `1U << i` has value `2^i`. */
  lemma ValBit(i: nat)
    requires i < WIDTH
    ensures Val(Bit(i)) == Pow2(i)
  {
    ValueBelowZero(Zero(), WIDTH);
    ValueBelowFlip(Zero(), Bit(i), i, WIDTH);
  }

  /** `a | (1U << i)` adds `2^i` to `a` unless bit `i` is already set, when it leaves `a` as it is. */
  lemma ValSetBit(a: Word, i: nat)
    requires i < WIDTH
    ensures Val(Or(a, Bit(i))) == if a[i] then Val(a) else Val(a) + Pow2(i)
  {
    if a[i] {
      assert Or(a, Bit(i)) == a;
    } else {
      ValueBelowFlip(a, Or(a, Bit(i)), i, WIDTH);
    }
  }

  /** `a & ~(1U << i)` subtracts `2^i` from `a` when bit `i` is set, and otherwise leaves `a` as it is. */
  lemma ValClearBit(a: Word, i: nat)
    requires i < WIDTH
    ensures Val(AndNot(a, Bit(i))) == if a[i] then Val(a) - Pow2(i) else Val(a)
  {
    if a[i] {
      ValueBelowFlip(AndNot(a, Bit(i)), a, i, WIDTH);
    } else {
      assert AndNot(a, Bit(i)) == a;
    }
  }
}

/**
 * The `LOG2` macro, `32U - __clz(x)`, with which the scheduler and the tick
 * processor find the highest member of a priority set.
 */
module PrioritySearch {
  import opened Bitmap

  /** Leading zeros among bits `n - 1` down to `0` of `x`. */
  function LeadingZeros(x: Word, n: nat): (r: nat)
    requires n <= WIDTH
    ensures r <= n
  {
    if n == 0 then 0
    else if x[n - 1] then 0
    else 1 + LeadingZeros(x, n - 1)
  }

  /** `__clz`, the count-leading-zeros instruction (32 for a zero word). */
  function Clz(x: Word): (r: nat)
    ensures r <= WIDTH
  {
    LeadingZeros(x, WIDTH)
  }

  /** The `LOG2` macro: `32U - __clz(x)`. */
  function Log2(x: Word): (r: nat)
    ensures r <= WIDTH
  {
    WIDTH - Clz(x)
  }

  /** The leading zeros of the top `n` bits are clear, and the bit just below them is set. */
  lemma {:induction false} LeadingZerosSpec(x: Word, n: nat)
    requires n <= WIDTH
    ensures forall j :: n - LeadingZeros(x, n) <= j < n ==> !x[j]
    ensures LeadingZeros(x, n) < n ==> x[n - 1 - LeadingZeros(x, n)]
  {
    if n > 0 && !x[n - 1] {
      LeadingZerosSpec(x, n - 1);
    }
  }

  /**
   * `LOG2(x)` is 0 exactly for the empty set; otherwise it lies in 1..32,
   * bit `LOG2(x) - 1` is set, and every set bit lies below `LOG2(x)`.
   */
  lemma Log2Highest(x: Word)
    ensures Log2(x) <= WIDTH
    ensures Log2(x) == 0 <==> x == Zero()
    ensures x != Zero() ==> 1 <= Log2(x) && x[Log2(x) - 1]
    ensures forall j :: 0 <= j < WIDTH && x[j] ==> j < Log2(x)
  {
    LeadingZerosSpec(x, WIDTH);
    if Log2(x) == 0 {
      assert x == Zero();
    }
  }

  /**
   * `LOG2(x)` is the bit length of the value of `x`: for a nonzero word,
   * `2^(LOG2(x) - 1) <= x < 2^LOG2(x)`, and `LOG2(0U)` is 0.
   */
  lemma Log2Value(x: Word)
    ensures x == Zero() ==> Log2(x) == 0
    ensures x != Zero() ==> 1 <= Log2(x) && Pow2(Log2(x) - 1) <= Val(x) < Pow2(Log2(x))
  {
    Log2Highest(x);
    if x != Zero() {
      var n := Log2(x);
      ValueBelowHigh(x, n, WIDTH);
      ValueBelowBound(x, n - 1);
    }
  }

  /**
   * Clearing the highest set bit of a non-empty set makes `LOG2` strictly
   * smaller: the measure under which the loop of `OS_tick` terminates.
   */
  lemma Log2DropHighest(x: Word)
    requires x != Zero()
    ensures 1 <= Log2(x)
    ensures Log2(AndNot(x, Bit(Log2(x) - 1))) < Log2(x)
  {
    Log2Highest(x);
    Log2Highest(AndNot(x, Bit(Log2(x) - 1)));
  }
}
