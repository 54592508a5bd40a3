/**
 * Go's bitwise operators on unsigned integers, written out on naturals:
 * `|` is `Or`, computed bit by bit, and `uint16(x) << k` is `Shl16`, which
 * drops the bits shifted past bit 15. The lemmas say when an OR is a plain
 * sum (the operands occupy disjoint bit ranges) and that it stays in width.
 */
module Bits {
  function Pow2(k: nat): (r: nat)
    ensures r >= 1
  {
    if k == 0 then 1 else 2 * Pow2(k - 1)
  }

  /** The powers of two the header's shifts use. */
  lemma Pow2Values()
    ensures Pow2(4) == 0x10 && Pow2(7) == 0x80 && Pow2(8) == 0x100
    ensures Pow2(9) == 0x200 && Pow2(10) == 0x400 && Pow2(11) == 0x800
    ensures Pow2(15) == 0x8000 && Pow2(16) == 0x1_0000
  {
    assert Pow2(1) == 2;
    assert Pow2(2) == 4;
    assert Pow2(3) == 8;
    assert Pow2(4) == 0x10;
    assert Pow2(5) == 0x20;
    assert Pow2(6) == 0x40;
    assert Pow2(7) == 0x80;
    assert Pow2(8) == 0x100;
    assert Pow2(9) == 0x200;
    assert Pow2(10) == 0x400;
    assert Pow2(11) == 0x800;
    assert Pow2(12) == 0x1000;
    assert Pow2(13) == 0x2000;
    assert Pow2(14) == 0x4000;
    assert Pow2(15) == 0x8000;
  }

  /** Bitwise OR: bit i of the result is set iff bit i of `a` or of `b` is. */
  function Or(a: nat, b: nat): nat
    decreases a + b
  {
    if a == 0 then b
    else if b == 0 then a
    else 2 * Or(a / 2, b / 2) + (if a % 2 == 1 || b % 2 == 1 then 1 else 0)
  }

  /** `|` on two uint16 values, which cannot leave 16 bits. */
  function Or16(a: nat, b: nat): (r: nat)
    requires a < 0x1_0000 && b < 0x1_0000
    ensures r < 0x1_0000
  {
    OrBound16(a, b);
    Or(a, b)
  }

  lemma OrBound16(a: nat, b: nat)
    requires a < 0x1_0000 && b < 0x1_0000
    ensures Or(a, b) < 0x1_0000
  {
    Pow2Values();
    OrBound(a, b, 16);
  }

  /** `uint16(x) << k`: shift left, keep the low 16 bits. */
  function Shl16(x: nat, k: nat): (r: nat)
    ensures r < 0x1_0000
  {
    (x * Pow2(k)) % 0x1_0000
  }

  /** Bit `i` of `x`. */
  function BitOf(x: nat, i: nat): bool
  {
    if i == 0 then x % 2 == 1 else BitOf(x / 2, i - 1)
  }

  /** OR sets exactly the bits set in either operand. */
  lemma {:induction false} OrBit(a: nat, b: nat, i: nat)
    ensures BitOf(Or(a, b), i) == (BitOf(a, i) || BitOf(b, i))
    decreases a + b
  {
    if a == 0 {
      ZeroHasNoBits(i);
    } else if b == 0 {
      ZeroHasNoBits(i);
    } else if i > 0 {
      OrBit(a / 2, b / 2, i - 1);
      var lo := if a % 2 == 1 || b % 2 == 1 then 1 else 0;
      assert (2 * Or(a / 2, b / 2) + lo) / 2 == Or(a / 2, b / 2);
    }
  }

  lemma {:induction false} ZeroHasNoBits(i: nat)
    ensures !BitOf(0, i)
  {
    if i > 0 {
      ZeroHasNoBits(i - 1);
    }
  }

  /** An OR of operands below 2^k stays below 2^k. */
  lemma {:induction false} OrBound(a: nat, b: nat, k: nat)
    requires a < Pow2(k) && b < Pow2(k)
    ensures Or(a, b) < Pow2(k)
    decreases a + b
  {
    if a != 0 && b != 0 {
      assert k >= 1;
      OrBound(a / 2, b / 2, k - 1);
    }
  }

  /**
   * When `b` fits in the low k bits and `a` has none of them set (it is a
   * multiple `c` of 2^k), the OR is the sum: this is how the flags word's
   * fields are packed.
   */
  lemma {:induction false} OrDisjoint(a: nat, c: nat, p: nat, b: nat, k: nat)
    requires p == Pow2(k) && a == c * p && b < p
    ensures Or(a, b) == a + b
    decreases k
  {
    if a != 0 && b != 0 {
      assert k >= 1;
      var p' := Pow2(k - 1);
      assert a == 2 * (c * p');
      assert a / 2 == c * p' && a % 2 == 0;
      OrDisjoint(a / 2, c, p', b / 2, k - 1);
      assert Or(a, b) == 2 * (c * p' + b / 2) + b % 2;
    }
  }

  /** A shift that loses no bits is a multiplication. */
  lemma Shl16Exact(x: nat, k: nat, p: nat)
    requires p == Pow2(k) && x * p < 0x1_0000
    ensures Shl16(x, k) == x * p
  {
  }

  /** `x >> k`. */
  function Shr(x: nat, k: nat): nat
  {
    if k == 0 then x else Shr(x / 2, k - 1)
  }

  /** `x & (1 << n - 1)`: the low `n` bits of `x`. */
  function Low(x: nat, n: nat): (r: nat)
    ensures r < Pow2(n)
  {
    if n == 0 then 0 else 2 * Low(x / 2, n - 1) + x % 2
  }

  /** `(x >> k) & (1 << n - 1)`: the n-bit field of `x` that starts at bit k. */
  function BitField(x: nat, k: nat, n: nat): (r: nat)
    ensures r < Pow2(n)
  {
    Low(Shr(x, k), n)
  }

  /** Shifting `c * 2^k + b` right by k, with `b` below 2^k, leaves `c`. */
  lemma {:induction false} ShrSum(x: nat, c: nat, p: nat, b: nat, k: nat)
    requires p == Pow2(k) && x == c * p + b && b < p
    ensures Shr(x, k) == c
    decreases k
  {
    if k > 0 {
      var p' := Pow2(k - 1);
      assert c * p == 2 * (c * p');
      assert x / 2 == c * p' + b / 2;
      ShrSum(x / 2, c, p', b / 2, k - 1);
    }
  }

  /** The low k bits of `c * 2^k + b`, with `b` below 2^k, are `b`. */
  lemma {:induction false} LowSum(x: nat, c: nat, p: nat, b: nat, k: nat)
    requires p == Pow2(k) && x == c * p + b && b < p
    ensures Low(x, k) == b
    decreases k
  {
    if k > 0 {
      var p' := Pow2(k - 1);
      assert c * p == 2 * (c * p');
      assert x / 2 == c * p' + b / 2 && x % 2 == b % 2;
      LowSum(x / 2, c, p', b / 2, k - 1);
    }
  }

  /**
   * The field of width n at bit k of `(hi * 2^n + f) * 2^k + lo` is `f`,
   * when `f` fits in n bits and `lo` in k bits.
   */
  lemma FieldOf(x: nat, hi: nat, f: nat, lo: nat, k: nat, pk: nat, n: nat, pn: nat)
    requires pk == Pow2(k) && pn == Pow2(n)
    requires f < pn && lo < pk && x == (hi * pn + f) * pk + lo
    ensures BitField(x, k, n) == f
  {
    ShrSum(x, hi * pn + f, pk, lo, k);
    LowSum(hi * pn + f, hi, pn, f, n);
  }
}
