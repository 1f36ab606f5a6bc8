/** Kotlin's fixed-width integer types, and the 32-bit two's-complement arithmetic
    that `Int`'s `shl`, `shr`, `and` and `or` perform. Bit patterns are handled as unsigned numbers
    below 2^32 rather than as bit-vectors. */
module Ints {

  /** Kotlin `Int`. */
  type Int32 = x: int | -0x8000_0000 <= x < 0x8000_0000

  /** Kotlin `Long`. */
  type Int64 = x: int | -0x8000_0000_0000_0000 <= x < 0x8000_0000_0000_0000

  /** Number of distinct 32-bit patterns. */
  const TWO32: int := 0x1_0000_0000

  function Pow2(n: nat): (r: nat)
    ensures r >= 1
  {
    if n == 0 then 1 else 2 * Pow2(n - 1)
  }

  lemma {:induction false} Pow2Add(a: nat, b: nat)
    ensures Pow2(a + b) == Pow2(a) * Pow2(b)
  {
    if a > 0 {
      Pow2Add(a - 1, b);
    }
  }

  lemma Pow2Values()
    ensures Pow2(15) == 0x8000 && Pow2(32) == TWO32
  {
    assert Pow2(8) == 256;
    assert Pow2(7) == 128;
    Pow2Add(8, 7);
    Pow2Add(8, 8);
    Pow2Add(16, 16);
  }

  /** The unsigned reading of the 32 bits that represent `x`. */
  function Unsigned(x: Int32): (u: nat)
    ensures u < TWO32
    ensures (u - x) % TWO32 == 0
  {
    if x < 0 then x + TWO32 else x
  }

  /** The `Int` whose bits read as `u` when unsigned. */
  function Signed(u: nat): (x: Int32)
    requires u < TWO32
    ensures Unsigned(x) == u
  {
    if u < 0x8000_0000 then u else u - TWO32
  }

  /** The `Int` holding the low 32 bits of `v`: what Kotlin keeps of an overflowing result. */
  function Wrap(v: int): (x: Int32)
    ensures (x - v) % TWO32 == 0
    ensures -0x8000_0000 <= v < 0x8000_0000 ==> x == v
  {
    Signed(v % TWO32)
  }

  /** The low `w` bits of the bitwise or of `a` and `b`. */
  function OrBits(a: nat, b: nat, w: nat): (r: nat)
    ensures r < Pow2(w)
  {
    if w == 0 then 0
    else 2 * OrBits(a / 2, b / 2, w - 1) + (if a % 2 == 1 || b % 2 == 1 then 1 else 0)
  }

  /** The low `w` bits of the bitwise and of `a` and `b`. */
  function AndBits(a: nat, b: nat, w: nat): (r: nat)
    ensures r < Pow2(w)
  {
    if w == 0 then 0
    else 2 * AndBits(a / 2, b / 2, w - 1) + (if a % 2 == 1 && b % 2 == 1 then 1 else 0)
  }

  /** Kotlin `x shl n`: only the low five bits of the count are used. */
  function Shl(x: Int32, n: int): (r: Int32)
    ensures (r - x * Pow2(n % 32)) % TWO32 == 0
  {
    Wrap(x * Pow2(n % 32))
  }

  /** Kotlin `x shr n`: an arithmetic shift, which rounds towards minus infinity. */
  function Shr(x: Int32, n: int): (r: Int32)
    ensures r * Pow2(n % 32) <= x < (r + 1) * Pow2(n % 32)
  {
    x / Pow2(n % 32)
  }

  /** Kotlin `x and y`. */
  function And(x: Int32, y: Int32): (r: Int32)
    ensures Unsigned(r) == AndBits(Unsigned(x), Unsigned(y), 32)
  {
    Pow2Values();
    Signed(AndBits(Unsigned(x), Unsigned(y), 32))
  }

  /** Kotlin `x or y`. */
  function Or(x: Int32, y: Int32): (r: Int32)
    ensures Unsigned(r) == OrBits(Unsigned(x), Unsigned(y), 32)
  {
    Pow2Values();
    Signed(OrBits(Unsigned(x), Unsigned(y), 32))
  }

  /** Or-ing zero bits changes nothing below width `w`. */
  lemma {:induction false} OrZero(a: nat, w: nat)
    requires a < Pow2(w)
    ensures OrBits(a, 0, w) == a
  {
    if w > 0 {
      OrZero(a / 2, w - 1);
    }
  }

  /** When `b` fits in the `k` bits that `a * 2^k` leaves clear, or-ing is adding. */
  lemma {:induction false} OrDisjoint(a: nat, b: nat, k: nat, w: nat)
    requires b < Pow2(k) && k <= w && a * Pow2(k) < Pow2(w)
    ensures OrBits(a * Pow2(k), b, w) == a * Pow2(k) + b
  {
    if k == 0 {
      OrZero(a, w);
    } else {
      var m := a * Pow2(k - 1);
      assert a * Pow2(k) == 2 * m;
      assert m < Pow2(w - 1);
      OrDisjoint(a, b / 2, k - 1, w - 1);
    }
  }

  /** Bitwise or does not depend on the order of its operands. */
  lemma {:induction false} OrBitsCommutes(a: nat, b: nat, w: nat)
    ensures OrBits(a, b, w) == OrBits(b, a, w)
  {
    if w > 0 {
      OrBitsCommutes(a / 2, b / 2, w - 1);
    }
  }

  /** And-ing with zero bits clears everything. */
  lemma {:induction false} AndZero(a: nat, w: nat)
    ensures AndBits(a, 0, w) == 0
  {
    if w > 0 {
      AndZero(a / 2, w - 1);
    }
  }

  /** And-ing `a * 2^k + b` with the mask of the low `k` bits keeps exactly `b`, when `b`
      fits in those bits. */
  lemma {:induction false} AndLowMask(a: nat, b: nat, k: nat, w: nat)
    requires b < Pow2(k) && k <= w
    ensures AndBits(a * Pow2(k) + b, Pow2(k) - 1, w) == b
  {
    if k == 0 {
      AndZero(a * Pow2(k) + b, w);
    } else {
      var m := a * Pow2(k - 1);
      assert a * Pow2(k) == 2 * m;
      assert (Pow2(k) - 1) / 2 == Pow2(k - 1) - 1;
      assert (a * Pow2(k) + b) / 2 == m + b / 2;
      AndLowMask(a, b / 2, k - 1, w - 1);
    }
  }

  /** And-ing a single bit with 1 keeps it. */
  lemma AndOne(a: nat, w: nat)
    requires a < 2 && w > 0
    ensures AndBits(a, 1, w) == a
  {
    AndZero(a / 2, w - 1);
  }

  /** Or-ing with all ones below width `w` gives all ones. */
  lemma {:induction false} OrOnes(a: nat, w: nat)
    ensures OrBits(a, Pow2(w) - 1, w) == Pow2(w) - 1
  {
    if w > 0 {
      assert (Pow2(w) - 1) / 2 == Pow2(w - 1) - 1;
      OrOnes(a / 2, w - 1);
    }
  }

  /** Two numbers in one window of width 2^32 that agree modulo 2^32 are equal. */
  lemma SameResidue(a: int, b: int)
    requires 0 <= a < TWO32 && 0 <= b < TWO32 && (a - b) % TWO32 == 0
    ensures a == b
  {
  }

  /** An `Int` is determined by its bits. */
  lemma UnsignedInjective(x: Int32, y: Int32)
    requires Unsigned(x) == Unsigned(y)
    ensures x == y
  {
  }
}
