/** The instruction word: how a 16-bit opcode splits into nibbles and
    operands, which of the 34 recognised patterns it matches, and the
    program-counter step an instruction yields. */
module Opcodes {
  import opened Alu

  /** A 16-bit instruction word (Rust `u16`). */
  type Word = x: int | 0 <= x < 0x1_0000

  /** A 12-bit address operand `nnn`. */
  type Addr = x: int | 0 <= x < 0x1000

  /** The instructions the dispatcher recognises, named after their effect;
      the comment gives the opcode pattern. Any other word is `Unknown`. */
  datatype Instr =
    | Cls                                // 00E0
    | Ret                                // 00EE
    | Jp(nnn: Addr)                      // 1nnn
    | Call(nnn: Addr)                    // 2nnn
    | SeImm(x: Nibble, kk: Byte)         // 3xkk
    | SneImm(x: Nibble, kk: Byte)        // 4xkk
    | SeReg(x: Nibble, y: Nibble)        // 5xy0
    | LdImm(x: Nibble, kk: Byte)         // 6xkk
    | AddImm(x: Nibble, kk: Byte)        // 7xkk
    | Mov(x: Nibble, y: Nibble)          // 8xy0
    | OrReg(x: Nibble, y: Nibble)        // 8xy1
    | AndReg(x: Nibble, y: Nibble)       // 8xy2
    | XorReg(x: Nibble, y: Nibble)       // 8xy3
    | AddReg(x: Nibble, y: Nibble)       // 8xy4
    | SubReg(x: Nibble, y: Nibble)       // 8xy5
    | Shr(x: Nibble, y: Nibble)          // 8xy6
    | Subn(x: Nibble, y: Nibble)         // 8xy7
    | Shl(x: Nibble, y: Nibble)          // 8xyE
    | SneReg(x: Nibble, y: Nibble)       // 9xy0
    | LdI(nnn: Addr)                     // Annn
    | JpV0(nnn: Addr)                    // Bnnn
    | Rnd(x: Nibble, kk: Byte)           // Cxkk
    | Drw(x: Nibble, y: Nibble, n: Nibble) // Dxyn
    | Skp(x: Nibble)                     // Ex9E
    | Sknp(x: Nibble)                    // ExA1
    | LdFromDelay(x: Nibble)             // Fx07
    | WaitKey(x: Nibble)                 // Fx0A
    | SetDelay(x: Nibble)                // Fx15
    | SetSound(x: Nibble)                // Fx18
    | AddI(x: Nibble)                    // Fx1E
    | Glyph(x: Nibble)                   // Fx29
    | Bcd(x: Nibble)                     // Fx33
    | StoreRegs(x: Nibble)               // Fx55
    | LoadRegs(x: Nibble)                // Fx65
    | Unknown(op: Word)                  // anything else

  /** Splits the word into its four nibbles and its operands (`opcode & 0x0FFF`,
      `opcode & 0x00FF`) and dispatches on them. */
  function Decode(op: Word): Instr
  {
    Dispatch(op / 0x1000, (op / 0x100) % 0x10, (op / 0x10) % 0x10, op % 0x10, op % 0x1000, op % 0x100, op)
  }

  /** The dispatcher's patterns, in its order; `x` is the second nibble and
      `y` the third. */
  function Dispatch(first: Nibble, second: Nibble, third: Nibble, fourth: Nibble, nnn: Addr, kk: Byte, op: Word): Instr
  {
    var x, y := second, third;
    match (first, second, third, fourth)
    case (0x0, 0x0, 0xE, 0x0) => Cls
    case (0x0, 0x0, 0xE, 0xE) => Ret
    case (0x1, _, _, _) => Jp(nnn)
    case (0x2, _, _, _) => Call(nnn)
    case (0x3, _, _, _) => SeImm(x, kk)
    case (0x4, _, _, _) => SneImm(x, kk)
    case (0x5, _, _, 0x0) => SeReg(x, y)
    case (0x6, _, _, _) => LdImm(x, kk)
    case (0x7, _, _, _) => AddImm(x, kk)
    case (0x8, _, _, 0x0) => Mov(x, y)
    case (0x8, _, _, 0x1) => OrReg(x, y)
    case (0x8, _, _, 0x2) => AndReg(x, y)
    case (0x8, _, _, 0x3) => XorReg(x, y)
    case (0x8, _, _, 0x4) => AddReg(x, y)
    case (0x8, _, _, 0x5) => SubReg(x, y)
    case (0x8, _, _, 0x6) => Shr(x, y)
    case (0x8, _, _, 0x7) => Subn(x, y)
    case (0x8, _, _, 0xE) => Shl(x, y)
    case (0x9, _, _, 0x0) => SneReg(x, y)
    case (0xA, _, _, _) => LdI(nnn)
    case (0xB, _, _, _) => JpV0(nnn)
    case (0xC, _, _, _) => Rnd(x, kk)
    case (0xD, _, _, _) => Drw(x, y, fourth)
    case (0xE, _, 0x9, 0xE) => Skp(x)
    case (0xE, _, 0xA, 0x1) => Sknp(x)
    case (0xF, _, 0x0, 0x7) => LdFromDelay(x)
    case (0xF, _, 0x0, 0xA) => WaitKey(x)
    case (0xF, _, 0x1, 0x5) => SetDelay(x)
    case (0xF, _, 0x1, 0x8) => SetSound(x)
    case (0xF, _, 0x1, 0xE) => AddI(x)
    case (0xF, _, 0x2, 0x9) => Glyph(x)
    case (0xF, _, 0x3, 0x3) => Bcd(x)
    case (0xF, _, 0x5, 0x5) => StoreRegs(x)
    case (0xF, _, 0x6, 0x5) => LoadRegs(x)
    case _ => Unknown(op)
  }

  /** Builds a word from four nibbles, most significant first. */
  function Nibbles(a: Nibble, b: Nibble, c: Nibble, d: Nibble): Word
  {
    a * 0x1000 + b * 0x100 + c * 0x10 + d
  }

  /** The nibbles of an 8-bit immediate, high first. */
  function ByteNibbles(kk: Byte): (Nibble, Nibble) { (kk / 0x10, kk % 0x10) }

  /** The nibbles of a 12-bit address, high first. */
  function AddrNibbles(nnn: Addr): (Nibble, Nibble, Nibble)
  {
    (nnn / 0x100, (nnn / 0x10) % 0x10, nnn % 0x10)
  }

  /** The four nibbles an instruction other than `Unknown` is written as. */
  function Fields(ins: Instr): (Nibble, Nibble, Nibble, Nibble)
    requires !ins.Unknown?
  {
    match ins
    case Cls => (0x0, 0x0, 0xE, 0x0)
    case Ret => (0x0, 0x0, 0xE, 0xE)
    case Jp(nnn) => var (b, c, d) := AddrNibbles(nnn); (0x1, b, c, d)
    case Call(nnn) => var (b, c, d) := AddrNibbles(nnn); (0x2, b, c, d)
    case SeImm(x, kk) => var (c, d) := ByteNibbles(kk); (0x3, x, c, d)
    case SneImm(x, kk) => var (c, d) := ByteNibbles(kk); (0x4, x, c, d)
    case SeReg(x, y) => (0x5, x, y, 0x0)
    case LdImm(x, kk) => var (c, d) := ByteNibbles(kk); (0x6, x, c, d)
    case AddImm(x, kk) => var (c, d) := ByteNibbles(kk); (0x7, x, c, d)
    case Mov(x, y) => (0x8, x, y, 0x0)
    case OrReg(x, y) => (0x8, x, y, 0x1)
    case AndReg(x, y) => (0x8, x, y, 0x2)
    case XorReg(x, y) => (0x8, x, y, 0x3)
    case AddReg(x, y) => (0x8, x, y, 0x4)
    case SubReg(x, y) => (0x8, x, y, 0x5)
    case Shr(x, y) => (0x8, x, y, 0x6)
    case Subn(x, y) => (0x8, x, y, 0x7)
    case Shl(x, y) => (0x8, x, y, 0xE)
    case SneReg(x, y) => (0x9, x, y, 0x0)
    case LdI(nnn) => var (b, c, d) := AddrNibbles(nnn); (0xA, b, c, d)
    case JpV0(nnn) => var (b, c, d) := AddrNibbles(nnn); (0xB, b, c, d)
    case Rnd(x, kk) => var (c, d) := ByteNibbles(kk); (0xC, x, c, d)
    case Drw(x, y, n) => (0xD, x, y, n)
    case Skp(x) => (0xE, x, 0x9, 0xE)
    case Sknp(x) => (0xE, x, 0xA, 0x1)
    case LdFromDelay(x) => (0xF, x, 0x0, 0x7)
    case WaitKey(x) => (0xF, x, 0x0, 0xA)
    case SetDelay(x) => (0xF, x, 0x1, 0x5)
    case SetSound(x) => (0xF, x, 0x1, 0x8)
    case AddI(x) => (0xF, x, 0x1, 0xE)
    case Glyph(x) => (0xF, x, 0x2, 0x9)
    case Bcd(x) => (0xF, x, 0x3, 0x3)
    case StoreRegs(x) => (0xF, x, 0x5, 0x5)
    case LoadRegs(x) => (0xF, x, 0x6, 0x5)
  }

  /** The word an instruction is written as (an assembler); an unrecognised
      word stands for itself. */
  function Encode(ins: Instr): Word
  {
    if ins.Unknown? then ins.op
    else var (a, b, c, d) := Fields(ins); Nibbles(a, b, c, d)
  }

  /** What the dispatcher tells the program counter to do (`ProgramCounterStep`). */
  datatype ProgramCounterStep = Jump(target: nat) | Next | Skip | Noop

  /** The new program counter (`handle_programcounter`): two bytes on for
      Next, four for Skip, unchanged for Noop, the target for Jump. An even
      counter stays even unless the step jumps to an odd address. */
  function HandleProgramCounter(pc: nat, step: ProgramCounterStep): (r: nat)
    ensures pc % 2 == 0 && (step.Jump? ==> step.target % 2 == 0) ==> r % 2 == 0
    ensures !step.Jump? ==> pc <= r <= pc + 4
  {
    match step
    case Next => pc + 2
    case Skip => pc + 4
    case Noop => pc
    case Jump(pos) => pos
  }
}
