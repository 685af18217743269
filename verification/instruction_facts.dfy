/** What single instructions do, stated against the instruction set's own
    description of them (exact sums and differences, bits, digits, the
    memory cells written) rather than against how `Exec` computes them. */
module InstructionFacts {
  import opened Alu
  import opened Opcodes
  import opened Keypad
  import opened Machine

  /** Every register other than Vx and VF keeps its value. */
  predicate OthersKept(v: seq<Byte>, w: seq<Byte>, x: Nibble)
    requires |v| == REGISTER_COUNT && |w| == REGISTER_COUNT
  {
    forall r :: 0 <= r < REGISTER_COUNT && r != x && r != VF ==> w[r] == v[r]
  }

  /** `8xy4` (x, y not F): Vx and the carry in VF together hold the exact sum. */
  lemma AddRegCarries(v: seq<Byte>, x: Nibble, y: Nibble, rnd: Byte)
    requires |v| == REGISTER_COUNT && x != VF && y != VF
    ensures var w := RegisterOp(v, AddReg(x, y), rnd);
      w[x] as int + 256 * (w[VF] as int) == v[x] as int + v[y] && w[VF] <= 1 && OthersKept(v, w, x)
  {
    AddWithCarry(v[x], v[y]);
  }

  /** `8xy5`: VF is 1 exactly when Vx > Vy (for every x and y, VF
      included); the difference is computed but never stored, so Vx keeps
      its value unless Vx is VF itself. */
  lemma SubRegOnlySetsFlag(v: seq<Byte>, x: Nibble, y: Nibble, rnd: Byte)
    requires |v| == REGISTER_COUNT
    ensures var w := RegisterOp(v, SubReg(x, y), rnd);
      && (w[VF] == 1 <==> v[x] > v[y]) && w[VF] <= 1 && OthersKept(v, w, x)
      && (x != VF ==> w[x] == v[x])
  {
  }

  /** `8xy7` (x, y not F): Vx becomes Vy - Vx, plus 256 when that is
      negative; VF is 1 exactly when Vy > Vx. */
  lemma SubnDifference(v: seq<Byte>, x: Nibble, y: Nibble, rnd: Byte)
    requires |v| == REGISTER_COUNT && x != VF && y != VF
    ensures var w := RegisterOp(v, Subn(x, y), rnd);
      && (v[y] >= v[x] ==> w[x] == v[y] - v[x])
      && (v[y] < v[x] ==> w[x] == v[y] as int - v[x] + 256)
      && (w[VF] == 1 <==> v[y] > v[x]) && w[VF] <= 1
      && OthersKept(v, w, x)
  {
    SubtractWithBorrow(v[y], v[x]);
  }

  /** `8xy6` and `8xyE` (x not F): the shifted value and the bit shifted
      out, reported in VF, together give back the original Vx. */
  lemma ShiftsReportLostBit(v: seq<Byte>, x: Nibble, y: Nibble, rnd: Byte)
    requires |v| == REGISTER_COUNT && x != VF
    ensures var w := RegisterOp(v, Shr(x, y), rnd);
      2 * w[x] + w[VF] == v[x] && w[VF] <= 1 && OthersKept(v, w, x)
    ensures var w := RegisterOp(v, Shl(x, y), rnd);
      w[x] as int + 256 * (w[VF] as int) == 2 * (v[x] as int) && w[VF] <= 1 && OthersKept(v, w, x)
  {
    ShiftsLoseTheFlagBit(v[x]);
  }

  /** With VF as an operand of `8xy4` or `8xy5` the flag is written first
      and then read or overwritten. `8Fy4` leaves the carry plus Vy (mod
      256) in VF, `8xF4` adds the fresh carry rather than the old VF (and
      leaves that carry in VF), `8FF4` doubles the carry, and `8Fy5` leaves
      only the flag. */
  lemma FlagRegisterAsOperand(v: seq<Byte>, x: Nibble, y: Nibble, rnd: Byte)
    requires |v| == REGISTER_COUNT && x != VF && y != VF
    ensures RegisterOp(v, AddReg(VF, y), rnd)[VF] == WrappingAdd(CarryFlag(v[VF], v[y]), v[y])
    ensures RegisterOp(v, AddReg(x, VF), rnd)[x] == WrappingAdd(v[x], CarryFlag(v[x], v[VF]))
    ensures RegisterOp(v, AddReg(x, VF), rnd)[VF] == CarryFlag(v[x], v[VF])
    ensures RegisterOp(v, AddReg(VF, VF), rnd)[VF] == 2 * CarryFlag(v[VF], v[VF])
    ensures RegisterOp(v, SubReg(VF, y), rnd)[VF] == NoBorrowFlag(v[VF], v[y])
  {
  }

  /** With VF as an operand of `8xy7`, `8xy6` or `8xyE`: `8Fy7` subtracts
      the fresh flag from Vy, `8xF7` subtracts Vx from the fresh flag (and
      leaves that flag in VF), and `8FF7` leaves 0. `8F06` always leaves VF
      at 0, and `8F0E` doubles the bit shifted out. */
  lemma FlagRegisterInSubnAndShifts(v: seq<Byte>, x: Nibble, y: Nibble, rnd: Byte)
    requires |v| == REGISTER_COUNT && x != VF && y != VF
    ensures RegisterOp(v, Subn(VF, y), rnd)[VF] == WrappingSub(v[y], NoBorrowFlag(v[y], v[VF]))
    ensures RegisterOp(v, Subn(x, VF), rnd)[x] == WrappingSub(NoBorrowFlag(v[VF], v[x]), v[x])
    ensures RegisterOp(v, Subn(x, VF), rnd)[VF] == NoBorrowFlag(v[VF], v[x])
    ensures RegisterOp(v, Subn(VF, VF), rnd)[VF] == 0
    ensures RegisterOp(v, Shr(VF, y), rnd)[VF] == 0
    ensures RegisterOp(v, Shl(VF, y), rnd)[VF] == 2 * Msb(v[VF])
  {
  }

  /** `8xy1`..`8xy3`: bit k of the new Vx is the OR, AND or XOR of bit k of
      Vx and Vy; no other register changes. */
  lemma LogicOpsAreBitwise(v: seq<Byte>, x: Nibble, y: Nibble, rnd: Byte, k: nat)
    requires |v| == REGISTER_COUNT && k < 8
    ensures var w := RegisterOp(v, OrReg(x, y), rnd);
      Bit(w[x], k) == (Bit(v[x], k) || Bit(v[y], k)) && w == v[x := w[x]]
    ensures var w := RegisterOp(v, AndReg(x, y), rnd);
      Bit(w[x], k) == (Bit(v[x], k) && Bit(v[y], k)) && w == v[x := w[x]]
    ensures var w := RegisterOp(v, XorReg(x, y), rnd);
      Bit(w[x], k) == (Bit(v[x], k) != Bit(v[y], k)) && w == v[x := w[x]]
  {
    BytewiseBits(v[x], v[y], k);
  }

  /** `8xy3` twice with distinct registers undoes itself. */
  lemma XorRegTwiceRestores(v: seq<Byte>, x: Nibble, y: Nibble, rnd: Byte)
    requires |v| == REGISTER_COUNT && x != y
    ensures RegisterOp(RegisterOp(v, XorReg(x, y), rnd), XorReg(x, y), rnd) == v
  {
    XorTwice(v[x], v[y]);
  }

  /** `Cxkk`: Vx is the random byte masked by kk, so it has no bit kk lacks
      and is at most kk; no other register changes. */
  lemma RandomIsMasked(v: seq<Byte>, x: Nibble, kk: Byte, rnd: Byte)
    requires |v| == REGISTER_COUNT
    ensures var w := RegisterOp(v, Rnd(x, kk), rnd);
      && w[x] <= kk && w[x] <= rnd && w == v[x := w[x]]
      && (forall k :: 0 <= k < 8 && Bit(w[x], k) ==> Bit(kk, k) && Bit(rnd, k))
  {
    ByteBounds(rnd, kk);
    forall k | 0 <= k < 8
      ensures Bit(And(rnd, kk), k) == (Bit(rnd, k) && Bit(kk, k))
    {
      BytewiseBits(rnd, kk, k);
    }
  }

  /** `7xkk` adds modulo 256 and changes no other register; unlike `8xy4`
      it sets no carry, so for x not F VF keeps its value. */
  lemma AddImmSetsNoFlag(v: seq<Byte>, x: Nibble, kk: Byte, rnd: Byte)
    requires |v| == REGISTER_COUNT
    ensures var w := RegisterOp(v, AddImm(x, kk), rnd);
      && (v[x] + kk < 256 ==> w[x] == v[x] + kk)
      && (v[x] + kk >= 256 ==> w[x] == v[x] + kk - 256)
      && w == v[x := w[x]] && (x != VF ==> w[VF] == v[VF])
  {
  }

  /** `3xkk` and `4xkk` change nothing but the PC step: the first skips
      exactly when Vx equals kk, the second exactly when it does not. */
  lemma SkipsOnImmediate(s: State, x: Nibble, kk: Byte, keys: seq<bool>, rnd: Byte)
    requires WellFormed(s) && |keys| == KEYPAD_SIZE
    ensures Exec(s, SeImm(x, kk), keys, rnd) == (s, if s.v[x] == kk then Skip else Next)
    ensures Exec(s, SneImm(x, kk), keys, rnd) == (s, if s.v[x] == kk then Next else Skip)
  {
  }

  /** `5xy0` and `9xy0` change nothing but the PC step: the first skips
      exactly when Vx equals Vy, the second exactly when it does not. */
  lemma SkipsOnRegisters(s: State, x: Nibble, y: Nibble, keys: seq<bool>, rnd: Byte)
    requires WellFormed(s) && |keys| == KEYPAD_SIZE
    ensures Exec(s, SeReg(x, y), keys, rnd) == (s, if s.v[x] == s.v[y] then Skip else Next)
    ensures Exec(s, SneReg(x, y), keys, rnd) == (s, if s.v[x] == s.v[y] then Next else Skip)
  {
  }

  /** `Ex9E` and `ExA1` change nothing but the PC step: the first skips
      exactly when key Vx is down, the second exactly when it is up. */
  lemma SkipsOnKey(s: State, x: Nibble, keys: seq<bool>, rnd: Byte)
    requires WellFormed(s) && |keys| == KEYPAD_SIZE && s.v[x] < KEYPAD_SIZE
    ensures Exec(s, Skp(x), keys, rnd) == (s, if keys[s.v[x]] then Skip else Next)
    ensures Exec(s, Sknp(x), keys, rnd) == (s, if keys[s.v[x]] then Next else Skip)
  {
  }

  /** `Fx33`: I, I+1, I+2 receive the decimal digits of Vx, most significant
      first; no other memory cell and nothing else changes. */
  lemma BcdStoresDigits(s: State, x: Nibble)
    requires WellFormed(s) && s.i + 3 <= MEMORY_SIZE
    ensures var r := MemoryOp(s, Bcd(x)); var m := r.memory;
      && r == s.(memory := m)
      && m[s.i] < 10 && m[s.i + 1] < 10 && m[s.i + 2] < 10
      && 100 * m[s.i] + 10 * m[s.i + 1] + m[s.i + 2] == s.v[x]
      && forall a :: 0 <= a < MEMORY_SIZE && !(s.i <= a < s.i + 3) ==> m[a] == s.memory[a]
  {
  }

  /** `Fx55`: V0..Vx land at I..I+x; no other memory cell changes. */
  lemma StoreRegistersCells(s: State, x: Nibble)
    requires WellFormed(s) && s.i + x < MEMORY_SIZE
    ensures var r := MemoryOp(s, StoreRegs(x)); var m := r.memory;
      && r == s.(memory := m)
      && (forall k :: 0 <= k <= x ==> m[s.i + k] == s.v[k])
      && (forall a :: 0 <= a < MEMORY_SIZE && !(s.i <= a <= s.i + x) ==> m[a] == s.memory[a])
  {
    var m := StoreRegisters(s, x);
    forall a | 0 <= a < MEMORY_SIZE && !(s.i <= a <= s.i + x)
      ensures m[a] == s.memory[a]
    {
      if a >= s.i + x + 1 {
        assert m[a] == s.memory[s.i + x + 1..][a - (s.i + x + 1)];
      }
    }
  }

  /** `Fx65`: V0..Vx receive the bytes at I..I+x; the other registers keep
      their values. */
  lemma LoadRegistersCells(s: State, x: Nibble)
    requires WellFormed(s) && s.i + x < MEMORY_SIZE
    ensures var r := MemoryOp(s, LoadRegs(x)); var w := r.v;
      && r == s.(v := w)
      && (forall k :: 0 <= k <= x ==> w[k] == s.memory[s.i + k])
      && (forall k :: x < k < REGISTER_COUNT ==> w[k] == s.v[k])
  {
  }

  /** Loading right after storing the same registers changes nothing. */
  lemma StoreThenLoad(s: State, x: Nibble)
    requires WellFormed(s) && s.i + x < MEMORY_SIZE
    ensures var t := MemoryOp(s, StoreRegs(x)); MemoryOp(t, LoadRegs(x)) == t
  {
    var t := MemoryOp(s, StoreRegs(x));
    StoreRegistersCells(s, x);
    LoadRegistersCells(t, x);
    var w := LoadRegisters(t, x);
    assert w == s.v by {
      forall k | 0 <= k < REGISTER_COUNT
        ensures w[k] == s.v[k]
      {
      }
    }
  }

  /** Storing right after loading the same registers changes nothing. */
  lemma LoadThenStore(s: State, x: Nibble)
    requires WellFormed(s) && s.i + x < MEMORY_SIZE
    ensures var t := MemoryOp(s, LoadRegs(x)); MemoryOp(t, StoreRegs(x)) == t
  {
    var t := MemoryOp(s, LoadRegs(x));
    LoadRegistersCells(s, x);
    StoreRegistersCells(t, x);
    var m := StoreRegisters(t, x);
    assert m == s.memory by {
      forall a | 0 <= a < MEMORY_SIZE
        ensures m[a] == s.memory[a]
      {
        if s.i <= a <= s.i + x {
          assert m[s.i + (a - s.i)] == t.v[a - s.i];
        }
      }
    }
  }

  /** `Fx29` on a machine whose font is intact points I at the five rows of
      the glyph for the digit in Vx. */
  lemma GlyphSelectsFont(s: State, x: Nibble)
    requires WellFormed(s) && s.v[x] < 16 && s.memory[..|FONTSET|] == FONTSET
    ensures var r := MemoryOp(s, Glyph(x));
      && r == s.(i := r.i)
      && r.i + GLYPH_HEIGHT <= |FONTSET|
      && SpriteAt(r.memory, r.i, GLYPH_HEIGHT) == FONTSET[GLYPH_HEIGHT * s.v[x]..GLYPH_HEIGHT * (s.v[x] + 1)]
  {
    var d := s.v[x];
    assert SpriteAt(s.memory, d * GLYPH_HEIGHT, GLYPH_HEIGHT) == s.memory[..|FONTSET|][d * GLYPH_HEIGHT..d * GLYPH_HEIGHT + GLYPH_HEIGHT];
  }

  /** `Fx15` followed by `Fy07` copies Vx into Vy through the delay timer. */
  lemma DelayRoundTrip(s: State, x: Nibble, y: Nibble)
    requires WellFormed(s)
    ensures MemoryOp(MemoryOp(s, SetDelay(x)), LdFromDelay(y)).v[y] == s.v[x]
  {
  }

  /** An unrecognised word changes nothing and execution moves on. */
  lemma UnknownIsIgnored(s: State, op: Word, keys: seq<bool>, rnd: Byte)
    requires WellFormed(s) && |keys| == KEYPAD_SIZE
    ensures Exec(s, Unknown(op), keys, rnd) == (s, Next)
  {
  }
}
