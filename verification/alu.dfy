/** Eight-bit arithmetic of the interpreter: the register type, the
    wrapping operations and the values the flag register VF receives.
    Rust's `u8` is modelled by the subset type `Byte`; every wrap-around
    is written out with `% 256`. */
module Alu {

  /** An unsigned 8-bit value (Rust `u8`). */
  type Byte = x: int | 0 <= x < 256

  /** A 4-bit value: a nibble of an opcode, a register index or a sprite height. */
  type Nibble = x: int | 0 <= x < 16

  /** The three bitwise operations of the `8xy1`..`8xy3` instructions. */
  datatype BitOp = OrOp | AndOp | XorOp

  /** What a bitwise operation does to one pair of bits. */
  function Combine(op: BitOp, p: bool, q: bool): bool
  {
    match op
    case OrOp => p || q
    case AndOp => p && q
    case XorOp => p != q
  }

  /** 2 to the power `n`. */
  function Pow2(n: nat): (r: nat)
    ensures r >= 1
  {
    if n == 0 then 1 else 2 * Pow2(n - 1)
  }

  /** The low `width` bits of `a` and `b` combined bit by bit, least
      significant first. (`a` in the decreases clause only stops the
      verifier from unrolling all eight bits whenever the width is a
      literal.) */
  function Bitwise(op: BitOp, a: nat, b: nat, width: nat): (r: nat)
    ensures r < Pow2(width)
    decreases width, a
  {
    if width == 0 then 0
    else 2 * Bitwise(op, a / 2, b / 2, width - 1) + (if Combine(op, a % 2 == 1, b % 2 == 1) then 1 else 0)
  }

  /** `a | b` on bytes. */
  function Or(a: Byte, b: Byte): Byte { assert Pow2(8) == 256; Bitwise(OrOp, a, b, 8) }

  /** `a & b` on bytes. */
  function And(a: Byte, b: Byte): Byte { assert Pow2(8) == 256; Bitwise(AndOp, a, b, 8) }

  /** `a ^ b` on bytes. */
  function Xor(a: Byte, b: Byte): Byte { assert Pow2(8) == 256; Bitwise(XorOp, a, b, 8) }

  /** The sum truncated to 8 bits (`(a as u16 + b as u16) as u8`). */
  function WrappingAdd(a: Byte, b: Byte): Byte { (a + b) % 256 }

  /** Rust's `a.wrapping_sub(b)`: Dafny's `%` is Euclidean, so a negative
      difference lands in 0..255 exactly as the two's-complement wrap does. */
  function WrappingSub(a: Byte, b: Byte): Byte { (a - b) % 256 }

  /** VF after `8xy4`: 1 when `a.checked_add(b)` overflows, else 0. */
  function CarryFlag(a: Byte, b: Byte): Byte { if a + b > 255 then 1 else 0 }

  /** VF after `8xy5` (`a > b`) and `8xy7` (with the operands swapped). */
  function NoBorrowFlag(a: Byte, b: Byte): Byte { if a > b then 1 else 0 }

  /** The least significant bit (`a & 1`). */
  function Lsb(a: Byte): Byte { a % 2 }

  /** The most significant bit (`(a & 0b1000_0000) >> 7`). */
  function Msb(a: Byte): Byte { if a >= 128 then 1 else 0 }

  /** `a >> 1` on a byte. */
  function ShiftRight(a: Byte): Byte { a / 2 }

  /** `a << 1` on a byte: the bit shifted out is lost. */
  function ShiftLeft(a: Byte): Byte { (a * 2) % 256 }

  /** The three decimal digits `Fx33` stores: `v / 100`, `(v / 10) % 10`
      and `(v % 100) % 10`. */
  function BcdDigits(v: Byte): (d: (Byte, Byte, Byte))
    ensures d.0 < 10 && d.1 < 10 && d.2 < 10
    ensures d.0 * 100 + d.1 * 10 + d.2 == v
  {
    var hundreds := v / 100;
    var rest := v - 100 * hundreds;
    assert 0 <= rest < 100;
    assert v / 10 == 10 * hundreds + rest / 10;
    assert v % 100 == rest;
    (v / 100, (v / 10) % 10, (v % 100) % 10)
  }

  /** Bit `k` of `a` (0 = least significant): `(a >> k) & 1 == 1`. */
  function Bit(a: nat, k: nat): bool
    decreases k
  {
    if k == 0 then a % 2 == 1 else Bit(a / 2, k - 1)
  }

  /** Column `j` (0 = leftmost) of a sprite row: `(row >> (7 - j)) & 1 == 1`. */
  function SpriteBit(row: Byte, j: nat): bool
    requires j < 8
  {
    Bit(row, 7 - j)
  }

  /** The carry flag and the truncated sum together give the exact sum. */
  lemma AddWithCarry(a: Byte, b: Byte)
    ensures WrappingAdd(a, b) + 256 * CarryFlag(a, b) == a + b
    ensures CarryFlag(a, b) == 1 <==> a + b > 255
  {
  }

  /** The wrapped difference is the true difference when no borrow occurs,
      and the difference plus 256 when one does. */
  lemma SubtractWithBorrow(a: Byte, b: Byte)
    ensures a >= b ==> WrappingSub(a, b) == a - b
    ensures a < b ==> WrappingSub(a, b) == a - b + 256
    ensures NoBorrowFlag(a, b) == 1 <==> a > b
  {
  }

  /** Shifting right loses exactly the bit reported as the flag; so does
      shifting left. */
  lemma ShiftsLoseTheFlagBit(a: Byte)
    ensures 2 * ShiftRight(a) + Lsb(a) == a
    ensures ShiftLeft(a) + 256 * Msb(a) == 2 * a
  {
  }

  /** Bit k of a bitwise combination is the operation applied to bit k of
      each operand. */
  lemma {:induction false} BitOfBitwise(op: BitOp, a: nat, b: nat, width: nat, k: nat)
    requires k < width
    ensures Bit(Bitwise(op, a, b, width), k) == Combine(op, Bit(a, k), Bit(b, k))
    decreases k
  {
    var low := if Combine(op, a % 2 == 1, b % 2 == 1) then 1 else 0;
    var rest := Bitwise(op, a / 2, b / 2, width - 1);
    assert (2 * rest + low) / 2 == rest && (2 * rest + low) % 2 == low;
    if k > 0 {
      BitOfBitwise(op, a / 2, b / 2, width - 1, k - 1);
    }
  }

  /** Two numbers below 2^width with the same low `width` bits are equal. */
  lemma {:induction false} SameBits(a: nat, b: nat, width: nat)
    requires a < Pow2(width) && b < Pow2(width)
    requires forall k :: 0 <= k < width ==> Bit(a, k) == Bit(b, k)
    ensures a == b
    decreases width
  {
    if width > 0 {
      forall k | 0 <= k < width - 1
        ensures Bit(a / 2, k) == Bit(b / 2, k)
      {
        assert Bit(a, k + 1) == Bit(b, k + 1);
      }
      SameBits(a / 2, b / 2, width - 1);
      assert Bit(a, 0) == Bit(b, 0);
    }
  }

  /** The bitwise operations on bytes, bit by bit (bits 0..7). */
  lemma BytewiseBits(a: Byte, b: Byte, k: nat)
    requires k < 8
    ensures Bit(Or(a, b), k) == (Bit(a, k) || Bit(b, k))
    ensures Bit(And(a, b), k) == (Bit(a, k) && Bit(b, k))
    ensures Bit(Xor(a, b), k) == (Bit(a, k) != Bit(b, k))
  {
    BitOfBitwise(OrOp, a, b, 8, k);
    BitOfBitwise(AndOp, a, b, 8, k);
    BitOfBitwise(XorOp, a, b, 8, k);
  }

  /** XOR-ing with the same byte twice gives the original byte back. */
  lemma XorTwice(a: Byte, b: Byte)
    ensures Xor(Xor(a, b), b) == a
  {
    forall k | 0 <= k < 8
      ensures Bit(Xor(Xor(a, b), b), k) == Bit(a, k)
    {
      BytewiseBits(a, b, k);
      BytewiseBits(Xor(a, b), b, k);
    }
    assert Pow2(8) == 256;
    SameBits(Xor(Xor(a, b), b), a, 8);
  }

  /** AND never exceeds its first operand (nor, by symmetry, its second). */
  lemma {:induction false} AndAtMost(a: nat, b: nat, width: nat)
    requires a < Pow2(width)
    ensures Bitwise(AndOp, a, b, width) <= a
    decreases width
  {
    if width > 0 {
      AndAtMost(a / 2, b / 2, width - 1);
    }
  }

  /** OR is at least its first operand. */
  lemma {:induction false} OrAtLeast(a: nat, b: nat, width: nat)
    requires a < Pow2(width)
    ensures a <= Bitwise(OrOp, a, b, width)
    decreases width
  {
    if width > 0 {
      OrAtLeast(a / 2, b / 2, width - 1);
    }
  }

  /** The operations commute. */
  lemma {:induction false} BitwiseCommutes(op: BitOp, a: nat, b: nat, width: nat)
    ensures Bitwise(op, a, b, width) == Bitwise(op, b, a, width)
    decreases width
  {
    if width > 0 {
      BitwiseCommutes(op, a / 2, b / 2, width - 1);
    }
  }

  /** On bytes: `a & b` is at most either operand, `a | b` at least either. */
  lemma ByteBounds(a: Byte, b: Byte)
    ensures And(a, b) <= a && And(a, b) <= b
    ensures a <= Or(a, b) && b <= Or(a, b)
  {
    assert Pow2(8) == 256;
    AndAtMost(a, b, 8);
    AndAtMost(b, a, 8);
    BitwiseCommutes(AndOp, a, b, 8);
    OrAtLeast(a, b, 8);
    OrAtLeast(b, a, 8);
    BitwiseCommutes(OrOp, a, b, 8);
  }

  /** Bitwise combination of zeros is zero. */
  lemma {:induction false} BitwiseOfZero(op: BitOp, width: nat)
    ensures Bitwise(op, 0, 0, width) == 0
    decreases width
  {
    if width > 0 {
      BitwiseOfZero(op, width - 1);
    }
  }

  /** OR-ing a bit into a value that is itself 0 or 1 sets it to 1 when the
      bit is 1 and leaves it alone otherwise. */
  lemma OrOfBits(a: Byte, b: Byte)
    requires a <= 1 && b <= 1
    ensures Or(a, b) == if b == 1 then 1 else a
  {
    assert a / 2 == 0 && b / 2 == 0;
    BitwiseOfZero(OrOp, 7);
    assert Or(a, b) == 2 * Bitwise(OrOp, 0, 0, 7) + (if a % 2 == 1 || b % 2 == 1 then 1 else 0);
  }
}
