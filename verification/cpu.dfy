/** The interpreter as the Rust code builds it: a `Chip8` object whose
    arrays and registers are updated in place by `EmulateCycle` and the
    opcode handlers. Every method is proved to move the object's state
    exactly as the corresponding function of module Machine moves a
    `State` value. */
module Cpu {
  import opened Alu
  import opened Opcodes
  import opened Keypad
  import opened Machine

  class Chip8 {
    const memory: array<Byte>
    const registers: array<Byte>
    var iRegister: nat
    var pc: nat
    /** `gfx[row, column]`, true for a lit pixel. */
    const gfx: array2<bool>
    var drawFlag: bool
    var delayTimer: Byte
    var soundTimer: Byte
    var beep: bool
    const stack: array<nat>
    var sPtr: nat
    /** The key-wait latch of `Fx0A` and the key snapshot taken when it was set. */
    var keyWaiting: bool
    var keyCopy: seq<bool>

    /** The arrays have the machine's sizes and the stack pointer stays
        within the stack. */
    ghost predicate Valid()
      reads this
    {
      memory.Length == MEMORY_SIZE && registers.Length == REGISTER_COUNT &&
      gfx.Length0 == SCREEN_HEIGHT && gfx.Length1 == SCREEN_WIDTH &&
      stack.Length == STACK_SIZE && sPtr <= STACK_SIZE && |keyCopy| == KEYPAD_SIZE &&
      memory != registers
    }

    /** The framebuffer as a value. */
    ghost function Pixels(): (g: Screen)
      reads gfx
      requires gfx.Length0 == SCREEN_HEIGHT && gfx.Length1 == SCREEN_WIDTH
      ensures IsScreen(g)
      ensures forall r, c :: 0 <= r < SCREEN_HEIGHT && 0 <= c < SCREEN_WIDTH ==> g[r][c] == gfx[r, c]
    {
      seq(SCREEN_HEIGHT, r requires 0 <= r < SCREEN_HEIGHT reads gfx =>
        seq(SCREEN_WIDTH, c requires 0 <= c < SCREEN_WIDTH reads gfx => gfx[r, c]))
    }

    /** A screen value that agrees with the array cell by cell is its value. */
    lemma PixelsAre(g: Screen)
      requires gfx.Length0 == SCREEN_HEIGHT && gfx.Length1 == SCREEN_WIDTH && IsScreen(g)
      requires forall r, c :: 0 <= r < SCREEN_HEIGHT && 0 <= c < SCREEN_WIDTH ==> gfx[r, c] == g[r][c]
      ensures Pixels() == g
    {
      var p := Pixels();
      forall r | 0 <= r < SCREEN_HEIGHT
        ensures p[r] == g[r]
      {
      }
    }

    /** What drawing reads and writes, as a value. */
    ghost function Painted(): (c: Canvas)
      reads registers, gfx
      requires registers.Length == REGISTER_COUNT && gfx.Length0 == SCREEN_HEIGHT && gfx.Length1 == SCREEN_WIDTH
      ensures IsCanvas(c)
    {
      Canvas(registers[..], Pixels())
    }

    /** The whole object as a `State` value. */
    ghost function Snapshot(): (s: State)
      reads this, memory, registers, gfx, stack
      requires Valid()
      ensures WellFormed(s)
    {
      State(memory[..], registers[..], iRegister, pc, Pixels(), drawFlag,
            delayTimer, soundTimer, beep, stack[..], sPtr, keyWaiting, keyCopy)
    }

    /** `Chip8::new` (with the latch of a new input device): the power-on machine. */
    constructor ()
      ensures Valid() && Snapshot() == PowerOn()
      ensures fresh(memory) && fresh(registers) && fresh(gfx) && fresh(stack)
    {
      var initMemory := new Byte[MEMORY_SIZE](_ => 0);
      for i := 0 to |FONTSET|
        invariant forall k :: 0 <= k < MEMORY_SIZE ==> initMemory[k] == if k < i then FONTSET[k] else 0
      {
        initMemory[i] := FONTSET[i];
      }
      memory := initMemory;
      registers := new Byte[REGISTER_COUNT](_ => 0);
      iRegister := 0;
      pc := PROGRAM_START;
      gfx := new bool[SCREEN_HEIGHT, SCREEN_WIDTH]((_, _) => false);
      drawFlag := false;
      delayTimer := 0;
      soundTimer := 0;
      beep := false;
      stack := new nat[STACK_SIZE](_ => 0);
      sPtr := 0;
      keyWaiting := false;
      keyCopy := seq(KEYPAD_SIZE, _ => false);
      new;
      assert memory[..] == PowerOn().memory;
      PixelsAre(Blank());
    }

    /** `initialize`: copy the program into memory from 0x200 on. */
    method Initialize(buffer: seq<Byte>)
      requires Valid() && |buffer| <= MEMORY_SIZE - PROGRAM_START
      modifies memory
      ensures Valid() && Snapshot() == old(Snapshot()).(memory := LoadProgram(old(memory[..]), buffer))
    {
      for i := 0 to |buffer|
        invariant forall k :: 0 <= k < MEMORY_SIZE ==>
          memory[k] == if PROGRAM_START <= k < PROGRAM_START + i then buffer[k - PROGRAM_START] else old(memory[k])
      {
        memory[i + PROGRAM_START] := buffer[i];
      }
      assert memory[..] == LoadProgram(old(memory[..]), buffer);
    }

    /** `emulate_cycle`: the object moves exactly as `Cycle` moves its snapshot. */
    method EmulateCycle(keys: seq<bool>, rnd: Byte)
      requires Valid() && CanCycle(Snapshot(), keys)
      modifies this, memory, registers, gfx, stack
      ensures Valid() && Snapshot() == Cycle(old(Snapshot()), keys, rnd)
    {
      beep := false;
      drawFlag := false;
      var opcode: Word := (memory[pc] as int) * 0x100 + memory[pc + 1];
      assert Snapshot() == old(Snapshot()).(beep := false, drawFlag := false);
      assert opcode == Fetch(Snapshot());
      var pcStep := HandleOpcode(opcode, keys, rnd);
      ghost var s2 := Snapshot();
      CycleIs(old(Snapshot()), keys, rnd, s2, pcStep);
      pc := HandleProgramCounter(pc, pcStep);
      UpdateTimers();
    }

    /** The end of `emulate_cycle`: both timers count down, and the tone flag
        (clear at this point) is raised while the sound timer is positive. */
    method UpdateTimers()
      requires Valid() && !beep
      modifies this
      ensures Valid()
      ensures Snapshot() == old(Snapshot()).(delay := CountDown(old(delayTimer)), sound := CountDown(old(soundTimer)),
                                             beep := CountDown(old(soundTimer)) > 0)
    {
      if delayTimer > 0 {
        delayTimer := delayTimer - 1;
      }
      if soundTimer > 0 {
        soundTimer := soundTimer - 1;
      }
      if soundTimer > 0 {
        beep := true;
      }
    }

    /** `handle_opcode`: decode the word and run its arm; the new state and
        the PC step are those of `Exec`. */
    method HandleOpcode(opcode: Word, keys: seq<bool>, rnd: Byte) returns (step: ProgramCounterStep)
      requires Valid() && |keys| == KEYPAD_SIZE && Defined(Snapshot(), Decode(opcode))
      modifies this, memory, registers, gfx, stack
      ensures Valid() && (Snapshot(), step) == Exec(old(Snapshot()), Decode(opcode), keys, rnd)
    {
      var ins := Decode(opcode);
      if IsRegisterOp(ins) {
        ExecuteRegisterOp(ins, rnd);
        step := Next;
      } else if IsControlOp(ins) {
        step := ExecuteControlOp(ins, keys);
      } else if ins.WaitKey? {
        step := WaitForKey(ins.x, keys);
      } else {
        ExecuteMemoryOp(ins);
        step := Next;
      }
    }

    /** The arms of `6xkk`, `7xkk`, `8xy_` and `Cxkk`, which write registers only. */
    method ExecuteRegisterOp(ins: Instr, rnd: Byte)
      requires Valid()
      modifies registers
      ensures registers[..] == RegisterOp(old(registers[..]), ins, rnd)
    {
      if ins.LdImm? {
        registers[ins.x] := ins.kk;
      } else if ins.AddImm? {
        registers[ins.x] := WrappingAdd(registers[ins.x], ins.kk);
      } else if ins.Mov? {
        registers[ins.x] := registers[ins.y];
      } else if ins.OrReg? {
        registers[ins.x] := Or(registers[ins.x], registers[ins.y]);
      } else if ins.AndReg? {
        registers[ins.x] := And(registers[ins.x], registers[ins.y]);
      } else if ins.XorReg? {
        registers[ins.x] := Xor(registers[ins.x], registers[ins.y]);
      } else if ins.AddReg? {
        FlagThenStore(CarryFlag(registers[ins.x], registers[ins.y]), ins.x, ins.y, AddOp);
      } else if ins.SubReg? {
        registers[VF] := NoBorrowFlag(registers[ins.x], registers[ins.y]);
      } else if ins.Shr? {
        FlagThenStore(Lsb(registers[ins.x]), ins.x, ins.x, ShiftRightOp);
      } else if ins.Subn? {
        FlagThenStore(NoBorrowFlag(registers[ins.y], registers[ins.x]), ins.x, ins.y, ReverseSubOp);
      } else if ins.Shl? {
        FlagThenStore(Msb(registers[ins.x]), ins.x, ins.x, ShiftLeftOp);
      } else if ins.Rnd? {
        registers[ins.x] := And(rnd, ins.kk);
      }
    }

    /** The shape of `8xy4`, `8xy6`, `8xy7` and `8xyE`: VF is written first,
        then Vx is recomputed from the registers as they now are. */
    method FlagThenStore(flag: Byte, x: Nibble, y: Nibble, op: FlagOp)
      requires Valid()
      modifies registers
      ensures registers[..] == Machine.FlagThenStore(old(registers[..]), flag, x, y, op)
    {
      registers[VF] := flag;
      registers[x] := ApplyFlagOp(op, registers[x], registers[y]);
    }

    /** The arms that decide where execution goes on: `00E0`, `00EE`,
        `1nnn`, `2nnn`, the skips and `Bnnn`. */
    method ExecuteControlOp(ins: Instr, keys: seq<bool>) returns (step: ProgramCounterStep)
      requires Valid() && |keys| == KEYPAD_SIZE && Defined(Snapshot(), ins)
      modifies this, gfx, stack
      ensures Valid() && (Snapshot(), step) == ControlOp(old(Snapshot()), ins, keys)
    {
      if ins.Cls? {
        ClearScreen();
        drawFlag := true;
        step := Next;
      } else if ins.Ret? {
        sPtr := sPtr - 1;
        step := Jump(stack[sPtr]);
      } else if ins.Jp? {
        step := Jump(ins.nnn);
      } else if ins.Call? {
        stack[sPtr] := pc + 2;
        sPtr := sPtr + 1;
        step := Jump(ins.nnn);
      } else if ins.SeImm? {
        step := if registers[ins.x] == ins.kk then Skip else Next;
      } else if ins.SneImm? {
        step := if registers[ins.x] != ins.kk then Skip else Next;
      } else if ins.SeReg? {
        step := if registers[ins.x] == registers[ins.y] then Skip else Next;
      } else if ins.SneReg? {
        step := if registers[ins.x] != registers[ins.y] then Skip else Next;
      } else if ins.JpV0? {
        step := Jump(ins.nnn + registers[0]);
      } else if ins.Skp? {
        step := if keys[registers[ins.x]] then Skip else Next;
      } else if ins.Sknp? {
        step := if !keys[registers[ins.x]] then Skip else Next;
      } else {
        step := Next;
      }
    }

    /** The arms of `Annn`, `Dxyn` and `Fx__` other than `Fx0A`. */
    method ExecuteMemoryOp(ins: Instr)
      requires Valid() && Defined(Snapshot(), ins)
      modifies this, memory, registers, gfx
      ensures Valid() && Snapshot() == MemoryOp(old(Snapshot()), ins)
    {
      if ins.LdI? {
        iRegister := ins.nnn;
      } else if ins.Drw? {
        DrawSprite(ins.x, ins.y, ins.n);
      } else if ins.LdFromDelay? {
        registers[ins.x] := delayTimer;
      } else if ins.SetDelay? {
        delayTimer := registers[ins.x];
      } else if ins.SetSound? {
        soundTimer := registers[ins.x];
      } else if ins.AddI? {
        iRegister := iRegister + registers[ins.x];
      } else if ins.Glyph? {
        iRegister := registers[ins.x] * GLYPH_HEIGHT;
      } else if ins.Bcd? {
        StoreBcd(ins.x);
      } else if ins.StoreRegs? {
        StoreRegisters(ins.x);
      } else if ins.LoadRegs? {
        LoadRegisters(ins.x);
      }
    }

    /** `00E0`: every cell of the framebuffer off. */
    method ClearScreen()
      requires Valid()
      modifies gfx
      ensures Pixels() == Blank()
    {
      for row := 0 to SCREEN_HEIGHT
        invariant forall r, c :: 0 <= r < row && 0 <= c < SCREEN_WIDTH ==> !gfx[r, c]
      {
        for cell := 0 to SCREEN_WIDTH
          invariant forall r, c :: 0 <= r < row && 0 <= c < SCREEN_WIDTH ==> !gfx[r, c]
          invariant forall c :: 0 <= c < cell ==> !gfx[row, c]
        {
          gfx[row, cell] := false;
        }
      }
      PixelsAre(Blank());
    }

    /** `Dxyn`: clear VF, XOR each of the n sprite rows at I onto the
        screen as `DrawRows` does, and raise the redraw flag. */
    method DrawSprite(x: Nibble, y: Nibble, n: Nibble)
      requires Valid() && (n == 0 || iRegister + n <= MEMORY_SIZE)
      modifies this, registers, gfx
      ensures Valid() && Snapshot() == Draw(old(Snapshot()), x, y, n)
    {
      registers[VF] := 0;
      ghost var start := Painted();
      assert start == Canvas(old(registers[..])[VF := 0], old(Pixels()));
      ghost var sprite := SpriteAt(memory[..], iRegister, n);
      for i := 0 to n
        invariant memory[..] == old(memory[..])
        invariant Painted() == DrawRows(start, x, y, sprite, i)
        modifies registers, gfx
      {
        SpriteAtIndex(memory[..], iRegister, n, i);
        DrawRow(x, y, i, memory[iRegister + i], start, sprite);
      }
      drawFlag := true;
    }

    /** Row `i` of the sprite, holding `bits`: the screen row is fixed from
        the current Vy, then the columns are drawn. */
    method DrawRow(x: Nibble, y: Nibble, i: nat, bits: Byte, ghost start: Canvas, ghost sprite: seq<Byte>)
      requires Valid() && IsCanvas(start) && i < |sprite| && sprite[i] == bits
      requires Painted() == DrawRows(start, x, y, sprite, i)
      modifies registers, gfx
      ensures Painted() == DrawRows(start, x, y, sprite, i + 1)
    {
      ghost var t := Painted();
      assert t.v[y] == registers[y];
      var py := (registers[y] + i) % SCREEN_HEIGHT;
      DrawRowsStep(start, x, y, sprite, i, t);
      DrawColumns(x, py, bits);
    }

    /** The inner drawing loop: the eight columns of one sprite row on screen
        row `py`, left to right. */
    method DrawColumns(x: Nibble, py: nat, bits: Byte)
      requires Valid() && py < SCREEN_HEIGHT
      modifies registers, gfx
      ensures Painted() == DrawCols(old(Painted()), x, py, bits, 0)
    {
      for j := 0 to 8
        invariant DrawCols(Painted(), x, py, bits, j) == DrawCols(old(Painted()), x, py, bits, 0)
      {
        DrawPixel(x, py, bits, j);
      }
    }

    /** One pixel of a sprite row: report a collision in VF, then flip the
        pixel where the sprite bit is set. */
    method DrawPixel(x: Nibble, py: nat, bits: Byte, j: nat)
      requires Valid() && py < SCREEN_HEIGHT && j < 8
      modifies registers, gfx
      ensures Painted() == PlotPixel(old(Painted()), x, py, bits, j)
    {
      var px := (registers[x] + j) % SCREEN_WIDTH;
      var bit := SpriteBit(bits, j);
      ghost var before := Pixels();
      if bit && gfx[py, px] {
        registers[VF] := 1;
      }
      gfx[py, px] := gfx[py, px] != bit;
      PixelsAre(before[py := before[py][px := gfx[py, px]]]);
    }

    /** `Fx33`: the decimal digits of Vx into memory at I, I+1 and I+2. */
    method StoreBcd(x: Nibble)
      requires Valid() && iRegister + 3 <= MEMORY_SIZE
      modifies memory
      ensures Valid() && Snapshot() == old(Snapshot()).(memory := Machine.StoreBcd(old(Snapshot()), x))
    {
      var val := registers[x];
      memory[iRegister] := val / 100;
      memory[iRegister + 1] := (val / 10) % 10;
      memory[iRegister + 2] := (val % 100) % 10;
    }

    /** `Fx55`: V0..Vx into memory from I on. */
    method StoreRegisters(x: Nibble)
      requires Valid() && iRegister + x < MEMORY_SIZE
      modifies memory
      ensures Valid() && Snapshot() == old(Snapshot()).(memory := Machine.StoreRegisters(old(Snapshot()), x))
    {
      for i := 0 to x + 1
        invariant forall k :: 0 <= k < MEMORY_SIZE ==>
          memory[k] == if iRegister <= k < iRegister + i then registers[k - iRegister] else old(memory[k])
      {
        memory[iRegister + i] := registers[i];
      }
      assert memory[..] == Machine.StoreRegisters(old(Snapshot()), x);
    }

    /** `Fx65`: memory from I on into V0..Vx. */
    method LoadRegisters(x: Nibble)
      requires Valid() && iRegister + x < MEMORY_SIZE
      modifies registers
      ensures Valid() && Snapshot() == old(Snapshot()).(v := Machine.LoadRegisters(old(Snapshot()), x))
    {
      for i := 0 to x + 1
        invariant forall k :: 0 <= k < REGISTER_COUNT ==>
          registers[k] == if k < i then memory[iRegister + k] else old(registers[k])
      {
        registers[i] := memory[iRegister + i];
      }
      assert registers[..] == Machine.LoadRegisters(old(Snapshot()), x);
    }

    /** `Fx0A`: latch and snapshot the keys, or scan for the first key that
        differs from the snapshot and release the latch on it. */
    method WaitForKey(x: Nibble, keys: seq<bool>) returns (step: ProgramCounterStep)
      requires Valid() && |keys| == KEYPAD_SIZE
      modifies this, registers
      ensures Valid() && (Snapshot(), step) == Machine.WaitForKey(old(Snapshot()), x, keys)
    {
      if keyWaiting {
        var i := 0;
        while i < KEYPAD_SIZE
          invariant 0 <= i <= KEYPAD_SIZE
          invariant keyWaiting && registers[..] == old(registers[..])
          invariant FirstChange(keys, keyCopy, 0) == FirstChange(keys, keyCopy, i)
        {
          if keys[i] != keyCopy[i] {
            registers[x] := i;
            keyWaiting := false;
            break;
          }
          i := i + 1;
        }
        step := if keyWaiting then Noop else Next;
      } else {
        keyWaiting := true;
        keyCopy := keys;
        step := Noop;
      }
    }
  }
}
