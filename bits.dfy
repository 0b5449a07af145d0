/** Fixed-width unsigned integers of the interpreter and the bitwise operators
    it applies to them.  The Rust `u8` and `u16` are modelled as ranges of
    `int`; `|`, `&` and `^` are defined bit by bit, least significant bit
    first, so that their properties can be proved by induction. */
module Bits {

  /** A Rust `u8`. */
  type Byte = b: int | 0 <= b < 0x100

  /** A Rust `u16`. */
  type Word = w: int | 0 <= w < 0x1_0000

  function Pow2(k: nat): (r: nat)
    ensures r >= 1
  {
    if k == 0 then 1 else 2 * Pow2(k - 1)
  }

  /** Bit `k` of `a` (bit 0 is the least significant). */
  predicate BitSet(a: nat, k: nat)
  {
    (a / Pow2(k)) % 2 == 1
  }

  /** The low `w` bits of `a | b`. */
  function OrBits(a: nat, b: nat, w: nat): nat
  {
    if w == 0 then 0
    else (if a % 2 == 1 || b % 2 == 1 then 1 else 0) + 2 * OrBits(a / 2, b / 2, w - 1)
  }

  /** The low `w` bits of `a & b`. */
  function AndBits(a: nat, b: nat, w: nat): nat
  {
    if w == 0 then 0
    else (if a % 2 == 1 && b % 2 == 1 then 1 else 0) + 2 * AndBits(a / 2, b / 2, w - 1)
  }

  /** The low `w` bits of `a ^ b`. */
  function XorBits(a: nat, b: nat, w: nat): nat
  {
    if w == 0 then 0
    else (if a % 2 != b % 2 then 1 else 0) + 2 * XorBits(a / 2, b / 2, w - 1)
  }

  lemma {:induction false} BitsBound(a: nat, b: nat, w: nat)
    ensures OrBits(a, b, w) < Pow2(w)
    ensures AndBits(a, b, w) < Pow2(w)
    ensures XorBits(a, b, w) < Pow2(w)
  {
    if w > 0 {
      BitsBound(a / 2, b / 2, w - 1);
    }
  }

  /** `u8 | u8` */
  function BitOr(a: Byte, b: Byte): Byte
  {
    BitsBound(a, b, 8);
    OrBits(a, b, 8)
  }

  /** `u8 & u8` */
  function BitAnd(a: Byte, b: Byte): Byte
  {
    BitsBound(a, b, 8);
    AndBits(a, b, 8)
  }

  /** `u8 ^ u8` */
  function BitXor(a: Byte, b: Byte): Byte
  {
    BitsBound(a, b, 8);
    XorBits(a, b, 8)
  }

  lemma {:induction false} XorBitsTwice(a: nat, b: nat, w: nat)
    requires a < Pow2(w)
    ensures XorBits(XorBits(a, b, w), b, w) == a
  {
    if w > 0 {
      XorBitsTwice(a / 2, b / 2, w - 1);
    }
  }

  lemma {:induction false} OrBitsIdempotent(a: nat, b: nat, w: nat)
    ensures OrBits(OrBits(a, b, w), b, w) == OrBits(a, b, w)
  {
    if w > 0 {
      OrBitsIdempotent(a / 2, b / 2, w - 1);
    }
  }

  lemma {:induction false} AndBitsIdempotent(a: nat, b: nat, w: nat)
    ensures AndBits(AndBits(a, b, w), b, w) == AndBits(a, b, w)
  {
    if w > 0 {
      AndBitsIdempotent(a / 2, b / 2, w - 1);
    }
  }

  lemma {:induction false} AndBitsBelowMask(a: nat, b: nat, w: nat)
    requires b < Pow2(w)
    ensures AndBits(a, b, w) <= b
  {
    if w > 0 {
      AndBitsBelowMask(a / 2, b / 2, w - 1);
    }
  }

  lemma {:induction false} AndBitsSingleBit(a: nat, k: nat, w: nat)
    requires k < w
    ensures AndBits(a, Pow2(k), w) != 0 <==> BitSet(a, k)
  {
    if k == 0 {
      assert Pow2(0) / 2 == 0;
      assert AndBits(a / 2, 0, w - 1) == 0 by { AndZero(a / 2, w - 1); }
    } else {
      assert Pow2(k) / 2 == Pow2(k - 1) && Pow2(k) % 2 == 0;
      AndBitsSingleBit(a / 2, k - 1, w - 1);
      DivPow2Step(a, k);
    }
  }

  lemma {:induction false} AndZero(a: nat, w: nat)
    ensures AndBits(a, 0, w) == 0
  {
    if w > 0 {
      AndZero(a / 2, w - 1);
    }
  }

  lemma DivPow2Step(a: nat, k: nat)
    requires k > 0
    ensures a / Pow2(k) == (a / 2) / Pow2(k - 1)
  {
    var p := Pow2(k - 1);
    var q := (a / 2) / p;
    var r := (a / 2) % p;
    assert a / 2 == q * p + r;
    calc {
      a;
      2 * (a / 2) + a % 2;
      2 * (q * p + r) + a % 2;
      { assert 2 * (q * p) == q * (2 * p); }
      q * (2 * p) + (2 * r + a % 2);
    }
    DivUnique(a, 2 * p, q, 2 * r + a % 2);
  }

  lemma DivUnique(a: nat, d: nat, q: nat, r: nat)
    requires 0 <= r < d && a == q * d + r
    ensures a / d == q
  {
    var q', r' := a / d, a % d;
    assert a == q' * d + r';
    if q' < q {
      assert (q - q') * d >= d by { MulAtLeast(q - q', d); }
    } else if q' > q {
      assert (q' - q) * d >= d by { MulAtLeast(q' - q, d); }
    }
  }

  lemma MulAtLeast(m: nat, d: nat)
    requires m >= 1
    ensures m * d >= d
  {
  }

  lemma {:induction false} Pow2Monotone(j: nat, k: nat)
    requires j <= k
    ensures Pow2(j) <= Pow2(k)
  {
    if j < k {
      Pow2Monotone(j, k - 1);
    }
  }

  /** Applying `^ b` twice restores the operand. */
  lemma XorTwice(a: Byte, b: Byte)
    ensures BitXor(BitXor(a, b), b) == a
  {
    XorBitsTwice(a, b, 8);
  }

  /** Applying `| b` a second time changes nothing. */
  lemma OrIdempotent(a: Byte, b: Byte)
    ensures BitOr(BitOr(a, b), b) == BitOr(a, b)
  {
    OrBitsIdempotent(a, b, 8);
  }

  /** Applying `& b` a second time changes nothing, and the result never exceeds the mask. */
  lemma AndIdempotent(a: Byte, b: Byte)
    ensures BitAnd(BitAnd(a, b), b) == BitAnd(a, b)
    ensures BitAnd(a, b) <= b
  {
    AndBitsIdempotent(a, b, 8);
    AndBitsBelowMask(a, b, 8);
  }

  /** Masking with a single bit tests exactly that bit. */
  lemma MaskTestsBit(a: Byte, k: nat)
    requires k < 8
    ensures Pow2(k) <= 0x80 && (BitAnd(a, Pow2(k)) != 0 <==> BitSet(a, k))
  {
    Pow2Monotone(k, 7);
    AndBitsSingleBit(a, k, 8);
  }
}
