/** Decoding is the inverse of encoding: every word re-encodes to itself and
    every recognised instruction decodes back from its word. */
module Decoding {
  import opened Alu
  import opened Opcodes

  lemma DivMod(w: int, k: int, q: int, r: int)
    requires k == 0x10 || k == 0x100 || k == 0x1000
    requires 0 <= r < k && w == q * k + r
    ensures w / k == q && w % k == r
  {
    if k == 0x10 {
      assert w == q * 0x10 + r;
    } else if k == 0x100 {
      assert w == q * 0x100 + r;
    } else {
      assert w == q * 0x1000 + r;
    }
  }

  lemma NibblesOf(a: Nibble, b: Nibble, c: Nibble, d: Nibble)
    ensures var w := Nibbles(a, b, c, d);
      w / 0x1000 == a && (w / 0x100) % 0x10 == b && (w / 0x10) % 0x10 == c && w % 0x10 == d &&
      w % 0x1000 == b * 0x100 + c * 0x10 + d && w % 0x100 == c * 0x10 + d
  {
    var w := Nibbles(a, b, c, d);
    DivMod(w, 0x1000, a, b * 0x100 + c * 0x10 + d);
    DivMod(w, 0x100, a * 0x10 + b, c * 0x10 + d);
    DivMod(a * 0x10 + b, 0x10, a, b);
    DivMod(w, 0x10, a * 0x100 + b * 0x10 + c, d);
    DivMod(a * 0x100 + b * 0x10 + c, 0x10, a * 0x10 + b, c);
  }

  lemma SplitWord(op: Word)
    ensures op == Nibbles(op / 0x1000, (op / 0x100) % 0x10, (op / 0x10) % 0x10, op % 0x10)
  {
    var hi, lo := op / 0x100, op % 0x100;
    DivMod(op, 0x1000, hi / 0x10, (hi % 0x10) * 0x100 + lo);
    DivMod(op, 0x10, hi * 0x10 + lo / 0x10, lo % 0x10);
    DivMod(hi * 0x10 + lo / 0x10, 0x10, hi, lo / 0x10);
  }

  lemma OperandNibbles(b: Nibble, c: Nibble, d: Nibble)
    ensures AddrNibbles(b * 0x100 + c * 0x10 + d) == (b, c, d)
    ensures ByteNibbles(c * 0x10 + d) == (c, d)
  {
    var nnn := b * 0x100 + c * 0x10 + d;
    DivMod(nnn, 0x100, b, c * 0x10 + d);
    DivMod(nnn, 0x10, b * 0x10 + c, d);
    DivMod(b * 0x10 + c, 0x10, b, c);
    DivMod(c * 0x10 + d, 0x10, c, d);
  }

  lemma DispatchFields(a: Nibble, b: Nibble, c: Nibble, d: Nibble, op: Word)
    requires op == Nibbles(a, b, c, d)
    ensures var ins := Dispatch(a, b, c, d, b * 0x100 + c * 0x10 + d, c * 0x10 + d, op);
      ins.Unknown? ==> ins.op == op
    ensures var ins := Dispatch(a, b, c, d, b * 0x100 + c * 0x10 + d, c * 0x10 + d, op);
      !ins.Unknown? ==> Fields(ins) == (a, b, c, d)
  {
    OperandNibbles(b, c, d);
    // one case per group of patterns, split on the leading nibble
    if a == 0x0 {
    } else if a == 0x8 {
    } else if a == 0xE {
    } else if a == 0xF {
    } else {
    }
  }

  lemma EncodeDecode(op: Word)
    ensures Encode(Decode(op)) == op
  {
    var a, b, c, d := op / 0x1000, (op / 0x100) % 0x10, (op / 0x10) % 0x10, op % 0x10;
    SplitWord(op);
    NibblesOf(a, b, c, d);
    DispatchFields(a, b, c, d, op);
  }

  lemma NibblesOperands(nnn: Addr, kk: Byte)
    ensures var (b, c, d) := AddrNibbles(nnn); nnn == b * 0x100 + c * 0x10 + d
    ensures var (c, d) := ByteNibbles(kk); kk == c * 0x10 + d
  {
    assert nnn == (nnn / 0x10) * 0x10 + nnn % 0x10;
    assert nnn / 0x10 == (nnn / 0x100) * 0x10 + (nnn / 0x10) % 0x10;
  }

  /** Decoding a word built from four nibbles dispatches on those nibbles. */
  lemma DecodeNibbles(a: Nibble, b: Nibble, c: Nibble, d: Nibble)
    ensures Decode(Nibbles(a, b, c, d)) == Dispatch(a, b, c, d, b * 0x100 + c * 0x10 + d, c * 0x10 + d, Nibbles(a, b, c, d))
  {
    NibblesOf(a, b, c, d);
  }

  /** The dispatcher maps an instruction's own nibbles back to it. */
  lemma DispatchOfFields(ins: Instr, op: Word)
    requires !ins.Unknown?
    ensures var (a, b, c, d) := Fields(ins);
      Dispatch(a, b, c, d, b * 0x100 + c * 0x10 + d, c * 0x10 + d, op) == ins
  {
    if ins.Jp? || ins.Call? || ins.LdI? || ins.JpV0? {
      NibblesOperands(ins.nnn, 0);
    } else if ins.SeImm? || ins.SneImm? || ins.LdImm? || ins.AddImm? || ins.Rnd? {
      NibblesOperands(0, ins.kk);
    }
  }

  lemma DecodeEncode(ins: Instr)
    requires !ins.Unknown?
    ensures Decode(Encode(ins)) == ins
  {
    var (a, b, c, d) := Fields(ins);
    DecodeNibbles(a, b, c, d);
    DispatchOfFields(ins, Nibbles(a, b, c, d));
  }

  /** A word with leading nibble 0 other than `00E0` and `00EE` (the
      machine-code call `0nnn`) is not recognised, so it only advances the PC. */
  lemma MachineCallIsUnknown(b: Nibble, c: Nibble, d: Nibble)
    requires !(b == 0x0 && c == 0xE && (d == 0x0 || d == 0xE))
    ensures Decode(Nibbles(0x0, b, c, d)) == Unknown(Nibbles(0x0, b, c, d))
  {
    DecodeNibbles(0x0, b, c, d);
  }
}
