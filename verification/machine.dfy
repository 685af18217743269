/** The machine as a value: the state of `Chip8` together with the key-wait
    latch, and the effect of one instruction and of one cycle on it. The
    class in module Cpu is proved to follow these functions. */
module Machine {
  import opened Alu
  import opened Opcodes
  import opened Keypad

  const MEMORY_SIZE := 4096
  /** Where programs are loaded and where execution starts (0x200). */
  const PROGRAM_START := 512
  const SCREEN_WIDTH := 64
  const SCREEN_HEIGHT := 32
  const STACK_SIZE := 16
  const REGISTER_COUNT := 16
  /** Index of VF, the flag register. */
  const VF := 0xF
  /** Height in bytes of one glyph of the built-in font. */
  const GLYPH_HEIGHT := 5

  /** The built-in font: sixteen glyphs 0..F, five rows each. */
  const FONTSET: seq<Byte> := [
    0xF0, 0x90, 0x90, 0x90, 0xF0, // 0
    0x20, 0x60, 0x20, 0x20, 0x70, // 1
    0xF0, 0x10, 0xF0, 0x80, 0xF0, // 2
    0xF0, 0x10, 0xF0, 0x10, 0xF0, // 3
    0x90, 0x90, 0xF0, 0x10, 0x10, // 4
    0xF0, 0x80, 0xF0, 0x10, 0xF0, // 5
    0xF0, 0x80, 0xF0, 0x90, 0xF0, // 6
    0xF0, 0x10, 0x20, 0x40, 0x40, // 7
    0xF0, 0x90, 0xF0, 0x90, 0xF0, // 8
    0xF0, 0x90, 0xF0, 0x10, 0xF0, // 9
    0xF0, 0x90, 0xF0, 0x90, 0x90, // A
    0xE0, 0x90, 0xE0, 0x90, 0xE0, // B
    0xF0, 0x80, 0x80, 0x80, 0xF0, // C
    0xE0, 0x90, 0x90, 0x90, 0xE0, // D
    0xF0, 0x80, 0xF0, 0x80, 0xF0, // E
    0xF0, 0x80, 0xF0, 0x80, 0x80  // F
  ]

  /** The framebuffer, row by row: `gfx[row][column]`, true for a lit pixel. */
  type Screen = seq<seq<bool>>

  predicate IsScreen(g: Screen)
  {
    |g| == SCREEN_HEIGHT && forall r :: 0 <= r < SCREEN_HEIGHT ==> |g[r]| == SCREEN_WIDTH
  }

  /** The cleared framebuffer. */
  function Blank(): (g: Screen)
    ensures IsScreen(g)
    ensures forall r, c :: 0 <= r < SCREEN_HEIGHT && 0 <= c < SCREEN_WIDTH ==> !g[r][c]
  {
    seq(SCREEN_HEIGHT, _ => seq(SCREEN_WIDTH, _ => false))
  }

  /** Everything one cycle reads or writes: the fields of `Chip8` and the
      key-wait latch (`key_waiting`, `key_copy`). */
  datatype State = State(
    memory: seq<Byte>,
    v: seq<Byte>,
    i: nat,
    pc: nat,
    gfx: Screen,
    drawFlag: bool,
    delay: Byte,
    sound: Byte,
    beep: bool,
    stack: seq<nat>,
    sp: nat,
    keyWaiting: bool,
    keyCopy: seq<bool>)

  /** The fixed sizes of the machine's arrays; the stack pointer never
      passes the stack's capacity (a call beyond it is refused, see Defined). */
  predicate WellFormed(s: State)
  {
    |s.memory| == MEMORY_SIZE && |s.v| == REGISTER_COUNT && IsScreen(s.gfx) &&
    |s.stack| == STACK_SIZE && s.sp <= STACK_SIZE && |s.keyCopy| == KEYPAD_SIZE
  }

  /** The machine `Chip8::new` builds: the font at 0..80, every other byte,
      register, stack slot, timer and pixel zero, PC at 0x200. */
  function PowerOn(): (s: State)
    ensures WellFormed(s)
  {
    State(
      FONTSET + seq(MEMORY_SIZE - |FONTSET|, _ => 0),
      seq(REGISTER_COUNT, _ => 0), 0, PROGRAM_START,
      Blank(), false, 0, 0, false,
      seq(STACK_SIZE, _ => 0), 0,
      false, seq(KEYPAD_SIZE, _ => false))
  }

  /** Memory after `initialize`: the program's bytes from 0x200 on, every
      other byte as before. */
  function LoadProgram(memory: seq<Byte>, buffer: seq<Byte>): (m: seq<Byte>)
    requires |memory| == MEMORY_SIZE && |buffer| <= MEMORY_SIZE - PROGRAM_START
    ensures |m| == MEMORY_SIZE
    ensures forall k :: 0 <= k < |buffer| ==> m[PROGRAM_START + k] == buffer[k]
    ensures forall a :: 0 <= a < MEMORY_SIZE && !(PROGRAM_START <= a < PROGRAM_START + |buffer|) ==> m[a] == memory[a]
  {
    memory[..PROGRAM_START] + buffer + memory[PROGRAM_START + |buffer|..]
  }

  /** The instruction word at PC, high byte first. */
  function Fetch(s: State): Word
    requires WellFormed(s) && s.pc + 1 < MEMORY_SIZE
  {
    (s.memory[s.pc] as int) * 0x100 + s.memory[s.pc + 1]
  }

  /** The instruction indexes nothing out of range (where the Rust interpreter
      would panic): a return needs a pushed address, a call a free stack slot, the
      key tests a key index below 16, and the sprite, BCD and register
      store/load instructions their memory bytes. */
  predicate Defined(s: State, ins: Instr)
    requires WellFormed(s)
  {
    && (ins.Ret? ==> 0 < s.sp)
    && (ins.Call? ==> s.sp < STACK_SIZE)
    && (ins.Drw? ==> ins.n == 0 || s.i + ins.n <= MEMORY_SIZE)
    && (ins.Skp? || ins.Sknp? ==> s.v[ins.x] < KEYPAD_SIZE)
    && (ins.Bcd? ==> s.i + 3 <= MEMORY_SIZE)
    && (ins.StoreRegs? || ins.LoadRegs? ==> s.i + ins.x < MEMORY_SIZE)
  }

  /** The result computations of the flag-setting register instructions. */
  datatype FlagOp = AddOp | ShiftRightOp | ReverseSubOp | ShiftLeftOp

  /** The new Vx of a flag-setting instruction from its two operands. */
  function ApplyFlagOp(op: FlagOp, vx: Byte, vy: Byte): Byte
  {
    match op
    case AddOp => WrappingAdd(vx, vy)
    case ShiftRightOp => ShiftRight(vx)
    case ReverseSubOp => WrappingSub(vy, vx)
    case ShiftLeftOp => ShiftLeft(vx)
  }

  /** `registers[VF]` is written first, then `registers[x]` is recomputed from
      the registers as they now are (so with x or y equal to VF the flag is
      an operand or is overwritten). */
  function FlagThenStore(v: seq<Byte>, flag: Byte, x: Nibble, y: Nibble, op: FlagOp): (w: seq<Byte>)
    requires |v| == REGISTER_COUNT
    ensures |w| == REGISTER_COUNT
  {
    var f := v[VF := flag];
    f[x := ApplyFlagOp(op, f[x], f[y])]
  }

  /** What drawing a sprite changes: the registers (VF only) and the screen. */
  datatype Canvas = Canvas(v: seq<Byte>, gfx: Screen)

  predicate IsCanvas(c: Canvas)
  {
    |c.v| == REGISTER_COUNT && IsScreen(c.gfx)
  }

  /** One pass of the inner drawing loop for column `col` of a sprite row
      holding `bits`, on screen row `py` (fixed when the row began). The
      column is recomputed from the current `registers[x]`. VF only ever
      holds 0 or 1 here (it is cleared before the loop), so OR-ing in a
      collision bit means setting it to 1. */
  function PlotPixel(c: Canvas, x: Nibble, py: nat, bits: Byte, col: nat): (r: Canvas)
    requires IsCanvas(c) && py < SCREEN_HEIGHT && col < 8
    ensures IsCanvas(r) && r.v == c.v[VF := r.v[VF]]
  {
    var px := (c.v[x] + col) % SCREEN_WIDTH;
    var bit := SpriteBit(bits, col);
    var lit := c.gfx[py][px];
    Canvas(if bit && lit then c.v[VF := 1] else c.v,
           c.gfx[py := c.gfx[py][px := lit != bit]])
  }

  /** Columns `from` to 7 of one sprite row, left to right. (`py` in the
      decreases clause only stops the verifier from unrolling all eight
      columns whenever `from` is a literal.) */
  function DrawCols(c: Canvas, x: Nibble, py: nat, bits: Byte, from: nat): (r: Canvas)
    requires IsCanvas(c) && py < SCREEN_HEIGHT && from <= 8
    ensures IsCanvas(r) && r.v == c.v[VF := r.v[VF]]
    decreases 8 - from, py
  {
    if from == 8 then c
    else DrawCols(PlotPixel(c, x, py, bits, from), x, py, bits, from + 1)
  }

  /** The first `rows` rows of `sprite`, each starting at screen row
      `(registers[y] + row) % 32` read when that row begins. */
  function DrawRows(c: Canvas, x: Nibble, y: Nibble, sprite: seq<Byte>, rows: nat): (r: Canvas)
    requires IsCanvas(c) && rows <= |sprite|
    ensures IsCanvas(r) && r.v == c.v[VF := r.v[VF]]
    decreases rows
  {
    if rows == 0 then c
    else
      var t := DrawRows(c, x, y, sprite, rows - 1);
      DrawCols(t, x, (t.v[y] + rows - 1) % SCREEN_HEIGHT, sprite[rows - 1], 0)
  }

  /** One more row: the next sprite row drawn on the row the current
      registers select. */
  lemma DrawRowsStep(c: Canvas, x: Nibble, y: Nibble, sprite: seq<Byte>, rows: nat, t: Canvas)
    requires IsCanvas(c) && rows < |sprite| && t == DrawRows(c, x, y, sprite, rows)
    ensures DrawRows(c, x, y, sprite, rows + 1) == DrawCols(t, x, (t.v[y] + rows) % SCREEN_HEIGHT, sprite[rows], 0)
  {
  }

  /** The n sprite bytes at address i. */
  function SpriteAt(memory: seq<Byte>, i: nat, n: Nibble): (sprite: seq<Byte>)
    requires |memory| == MEMORY_SIZE && (n == 0 || i + n <= MEMORY_SIZE)
    ensures |sprite| == n
  {
    if n == 0 then [] else memory[i..i + n]
  }

  lemma SpriteAtIndex(memory: seq<Byte>, i: nat, n: Nibble, k: nat)
    requires |memory| == MEMORY_SIZE && (n == 0 || i + n <= MEMORY_SIZE) && k < n
    ensures SpriteAt(memory, i, n)[k] == memory[i + k]
  {
  }

  /** `Dxyn`: clear VF, XOR the n-row sprite at I onto the screen, set the
      redraw flag. */
  function Draw(s: State, x: Nibble, y: Nibble, n: Nibble): (r: State)
    requires WellFormed(s) && (n == 0 || s.i + n <= MEMORY_SIZE)
    ensures WellFormed(r)
  {
    var c := DrawRows(Canvas(s.v[VF := 0], s.gfx), x, y, SpriteAt(s.memory, s.i, n), n);
    s.(v := c.v, gfx := c.gfx, drawFlag := true)
  }

  /** `Fx33`: the three decimal digits of Vx into memory at I, I+1, I+2. */
  function StoreBcd(s: State, x: Nibble): (m: seq<Byte>)
    requires WellFormed(s) && s.i + 3 <= MEMORY_SIZE
    ensures |m| == MEMORY_SIZE
  {
    var d := BcdDigits(s.v[x]);
    s.memory[s.i := d.0][s.i + 1 := d.1][s.i + 2 := d.2]
  }

  /** `Fx55`: V0..Vx into memory from I on. */
  function StoreRegisters(s: State, x: Nibble): (m: seq<Byte>)
    requires WellFormed(s) && s.i + x < MEMORY_SIZE
    ensures |m| == MEMORY_SIZE
  {
    s.memory[..s.i] + s.v[..x + 1] + s.memory[s.i + x + 1..]
  }

  /** `Fx65`: memory from I on into V0..Vx. */
  function LoadRegisters(s: State, x: Nibble): (w: seq<Byte>)
    requires WellFormed(s) && s.i + x < MEMORY_SIZE
    ensures |w| == REGISTER_COUNT
  {
    s.memory[s.i..s.i + x + 1] + s.v[x + 1..]
  }

  /** `Fx0A`: with the latch off, snapshot the keys and latch; with it on,
      release on the lowest key that differs from the snapshot, storing its
      index in Vx; the PC stays put until the release. */
  function WaitForKey(s: State, x: Nibble, keys: seq<bool>): (r: (State, ProgramCounterStep))
    requires WellFormed(s) && |keys| == KEYPAD_SIZE
    ensures WellFormed(r.0)
  {
    if s.keyWaiting then
      match FirstChange(keys, s.keyCopy, 0)
      case Some(k) => (s.(v := s.v[x := k], keyWaiting := false), Next)
      case None => (s, Noop)
    else
      (s.(keyWaiting := true, keyCopy := keys), Noop)
  }

  predicate IsRegisterOp(ins: Instr)
  {
    ins.LdImm? || ins.AddImm? || ins.Mov? || ins.OrReg? || ins.AndReg? || ins.XorReg? ||
    ins.AddReg? || ins.SubReg? || ins.Shr? || ins.Subn? || ins.Shl? || ins.Rnd?
  }

  predicate IsControlOp(ins: Instr)
  {
    ins.Cls? || ins.Ret? || ins.Jp? || ins.Call? || ins.SeImm? || ins.SneImm? ||
    ins.SeReg? || ins.SneReg? || ins.JpV0? || ins.Skp? || ins.Sknp?
  }

  /** The register instructions `6xkk`, `7xkk`, `8xy0`..`8xyE` and `Cxkk`:
      the new register file. */
  function RegisterOp(v: seq<Byte>, ins: Instr, rnd: Byte): (w: seq<Byte>)
    requires |v| == REGISTER_COUNT
    ensures |w| == REGISTER_COUNT
  {
    match ins
    case LdImm(x, kk) => v[x := kk]
    case AddImm(x, kk) => v[x := WrappingAdd(v[x], kk)]
    case Mov(x, y) => v[x := v[y]]
    case OrReg(x, y) => v[x := Or(v[x], v[y])]
    case AndReg(x, y) => v[x := And(v[x], v[y])]
    case XorReg(x, y) => v[x := Xor(v[x], v[y])]
    case AddReg(x, y) => FlagThenStore(v, CarryFlag(v[x], v[y]), x, y, AddOp)
    // the wrapped difference is computed and discarded: only VF changes
    case SubReg(x, y) => v[VF := NoBorrowFlag(v[x], v[y])]
    case Shr(x, _) => FlagThenStore(v, Lsb(v[x]), x, x, ShiftRightOp)
    case Subn(x, y) => FlagThenStore(v, NoBorrowFlag(v[y], v[x]), x, y, ReverseSubOp)
    case Shl(x, _) => FlagThenStore(v, Msb(v[x]), x, x, ShiftLeftOp)
    case Rnd(x, kk) => v[x := And(rnd, kk)]
    case _ => v
  }

  /** The instructions that choose where execution goes on: clear screen,
      return, jumps, call and the six conditional skips. */
  function ControlOp(s: State, ins: Instr, keys: seq<bool>): (r: (State, ProgramCounterStep))
    requires WellFormed(s) && |keys| == KEYPAD_SIZE && Defined(s, ins)
    ensures WellFormed(r.0) && r.0.pc == s.pc && r.0.beep == s.beep
  {
    match ins
    case Cls => (s.(gfx := Blank(), drawFlag := true), Next)
    case Ret => (s.(sp := s.sp - 1), Jump(s.stack[s.sp - 1]))
    case Jp(nnn) => (s, Jump(nnn))
    case Call(nnn) => (s.(stack := s.stack[s.sp := s.pc + 2], sp := s.sp + 1), Jump(nnn))
    case SeImm(x, kk) => (s, if s.v[x] == kk then Skip else Next)
    case SneImm(x, kk) => (s, if s.v[x] != kk then Skip else Next)
    case SeReg(x, y) => (s, if s.v[x] == s.v[y] then Skip else Next)
    case SneReg(x, y) => (s, if s.v[x] != s.v[y] then Skip else Next)
    case JpV0(nnn) => (s, Jump(nnn + s.v[0]))
    case Skp(x) => (s, if keys[s.v[x]] then Skip else Next)
    case Sknp(x) => (s, if !keys[s.v[x]] then Skip else Next)
    case _ => (s, Next)
  }

  /** The index, timer, sprite and memory instructions (`Annn`, `Dxyn`,
      `Fx..`); they always continue with the next instruction. */
  function MemoryOp(s: State, ins: Instr): (r: State)
    requires WellFormed(s) && Defined(s, ins)
    ensures WellFormed(r) && r.pc == s.pc && r.beep == s.beep
  {
    if ins.LdI? then s.(i := ins.nnn)
    else if ins.Drw? then Draw(s, ins.x, ins.y, ins.n)
    else if ins.LdFromDelay? then s.(v := s.v[ins.x := s.delay])
    else if ins.SetDelay? then s.(delay := s.v[ins.x])
    else if ins.SetSound? then s.(sound := s.v[ins.x])
    else if ins.AddI? then s.(i := s.i + s.v[ins.x])
    else if ins.Glyph? then s.(i := s.v[ins.x] * GLYPH_HEIGHT)
    else if ins.Bcd? then s.(memory := StoreBcd(s, ins.x))
    else if ins.StoreRegs? then s.(memory := StoreRegisters(s, ins.x))
    else if ins.LoadRegs? then s.(v := LoadRegisters(s, ins.x))
    else s
  }

  /** One instruction (`handle_opcode`): the new state and the step for the
      PC. `keys` is the key pad's state, `rnd` the random byte of `Cxkk`.
      No instruction moves the PC or touches the tone flag itself. */
  function Exec(s: State, ins: Instr, keys: seq<bool>, rnd: Byte): (r: (State, ProgramCounterStep))
    requires WellFormed(s) && |keys| == KEYPAD_SIZE && Defined(s, ins)
    ensures WellFormed(r.0) && r.0.pc == s.pc && r.0.beep == s.beep
  {
    if IsRegisterOp(ins) then (s.(v := RegisterOp(s.v, ins, rnd)), Next)
    else if IsControlOp(ins) then ControlOp(s, ins, keys)
    else if ins.WaitKey? then WaitForKey(s, ins.x, keys)
    else (MemoryOp(s, ins), Next)
  }

  /** A timer after one cycle: one less while positive, never below zero. */
  function CountDown(t: Byte): Byte
  {
    if t > 0 then t - 1 else 0
  }

  /** The cycle can run without indexing out of range: the word at PC and
      what its instruction touches lie inside their arrays. */
  predicate CanCycle(s: State, keys: seq<bool>)
  {
    WellFormed(s) && |keys| == KEYPAD_SIZE && s.pc + 1 < MEMORY_SIZE && Defined(s, Decode(Fetch(s)))
  }

  /** The end of a cycle: apply the PC step, count both timers down, and
      sound the tone while the sound timer is still positive. */
  function Finish(s: State, step: ProgramCounterStep): (r: State)
    requires WellFormed(s)
    ensures WellFormed(r)
  {
    var sound := CountDown(s.sound);
    s.(pc := HandleProgramCounter(s.pc, step), delay := CountDown(s.delay), sound := sound, beep := sound > 0)
  }

  /** A cycle running `ins`: clear the redraw and tone flags, execute
      `ins`, then `Finish`. */
  function CycleRunning(s: State, ins: Instr, keys: seq<bool>, rnd: Byte): (r: State)
    requires WellFormed(s) && |keys| == KEYPAD_SIZE && Defined(s, ins)
    ensures WellFormed(r)
  {
    var executed := Exec(s.(beep := false, drawFlag := false), ins, keys, rnd);
    Finish(executed.0, executed.1)
  }

  /** One cycle (`emulate_cycle`): run the instruction the word at PC
      decodes to. */
  function Cycle(s: State, keys: seq<bool>, rnd: Byte): (r: State)
    requires CanCycle(s, keys)
    ensures WellFormed(r)
  {
    CycleRunning(s, Decode(Fetch(s)), keys, rnd)
  }

  /** A cycle is `Finish` applied to what the instruction at PC did to the
      flag-cleared state. */
  lemma CycleIs(s: State, keys: seq<bool>, rnd: Byte, s2: State, step: ProgramCounterStep)
    requires CanCycle(s, keys)
    requires var s1 := s.(beep := false, drawFlag := false);
      (s2, step) == Exec(s1, Decode(Fetch(s1)), keys, rnd)
    ensures Cycle(s, keys, rnd) == Finish(s2, step)
  {
    var s1 := s.(beep := false, drawFlag := false);
    assert Fetch(s1) == Fetch(s);
    assert Cycle(s, keys, rnd) == CycleRunning(s, Decode(Fetch(s1)), keys, rnd);
  }

  /** What the host loop hands one cycle: the key pad's state and a random byte. */
  datatype Tick = Tick(keys: seq<bool>, rnd: Byte)

  /** Every cycle of the run can execute. */
  predicate RunDefined(s: State, ticks: seq<Tick>)
    decreases |ticks|
  {
    |ticks| == 0 ||
    (CanCycle(s, ticks[0].keys) && RunDefined(Cycle(s, ticks[0].keys, ticks[0].rnd), ticks[1..]))
  }

  /** The state after one cycle per tick. */
  function Run(s: State, ticks: seq<Tick>): State
    requires RunDefined(s, ticks)
    decreases |ticks|
  {
    if |ticks| == 0 then s else Run(Cycle(s, ticks[0].keys, ticks[0].rnd), ticks[1..])
  }
}
