/** Properties of whole cycles and runs: where the PC goes, how the timers
    and the tone and redraw flags evolve, subroutine call and return, and
    the wait-for-key instruction holding execution until a key changes. */
module CycleFacts {
  import opened Alu
  import opened Opcodes
  import opened Keypad
  import opened Machine

  /** The unit test of the PC step, as stated for PC 0. */
  lemma ProgramCounterWorks()
    ensures HandleProgramCounter(0, Next) == 2
    ensures HandleProgramCounter(0, Skip) == 4
    ensures HandleProgramCounter(0, Jump(16)) == 16
    ensures HandleProgramCounter(0, Noop) == 0
  {
  }

  /** The six conditional skips. */
  predicate IsSkip(ins: Instr)
  {
    ins.SeImm? || ins.SneImm? || ins.SeReg? || ins.SneReg? || ins.Skp? || ins.Sknp?
  }

  /** Instructions after which execution simply continues with the next
      word: everything except returns, jumps, calls, skips and the key wait. */
  predicate FallsThrough(ins: Instr)
  {
    !(ins.Ret? || ins.Jp? || ins.Call? || ins.JpV0? || ins.WaitKey? || IsSkip(ins))
  }

  /** The timers after one instruction: only `Fx15` and `Fx18` load them. */
  lemma ExecTimers(s: State, ins: Instr, keys: seq<bool>, rnd: Byte)
    requires WellFormed(s) && |keys| == KEYPAD_SIZE && Defined(s, ins)
    ensures var r := Exec(s, ins, keys, rnd).0;
      && r.delay == (if ins.SetDelay? then s.v[ins.x] else s.delay)
      && r.sound == (if ins.SetSound? then s.v[ins.x] else s.sound)
  {
    if IsRegisterOp(ins) || IsControlOp(ins) || ins.WaitKey? {
    } else {
      assert Exec(s, ins, keys, rnd).0 == MemoryOp(s, ins);
    }
  }

  /** The redraw flag after one instruction: raised by `00E0` and `Dxyn`
      only, never lowered. */
  lemma ExecDrawFlag(s: State, ins: Instr, keys: seq<bool>, rnd: Byte)
    requires WellFormed(s) && |keys| == KEYPAD_SIZE && Defined(s, ins)
    ensures Exec(s, ins, keys, rnd).0.drawFlag == (s.drawFlag || ins.Cls? || ins.Drw?)
  {
    if IsRegisterOp(ins) || ins.WaitKey? {
    } else if IsControlOp(ins) {
      assert Exec(s, ins, keys, rnd) == ControlOp(s, ins, keys);
    } else {
      assert Exec(s, ins, keys, rnd).0 == MemoryOp(s, ins);
    }
  }

  /** The PC step of one instruction: `Next` unless it jumps, calls,
      returns, skips or waits; a skip yields `Skip` or `Next`, a key wait
      `Noop` or `Next`. */
  lemma ExecStep(s: State, ins: Instr, keys: seq<bool>, rnd: Byte)
    requires WellFormed(s) && |keys| == KEYPAD_SIZE && Defined(s, ins)
    ensures var step := Exec(s, ins, keys, rnd).1;
      && (FallsThrough(ins) ==> step == Next)
      && (IsSkip(ins) ==> step == Next || step == Skip)
      && (ins.WaitKey? ==> step == Next || step == Noop)
      && (ins.Jp? ==> step == Jump(ins.nnn))
      && (ins.JpV0? ==> step == Jump(ins.nnn + s.v[0]))
      && (ins.Call? ==> step == Jump(ins.nnn))
      && (ins.Ret? ==> step == Jump(s.stack[s.sp - 1]))
      && (ins.SeImm? ==> step == if s.v[ins.x] == ins.kk then Skip else Next)
      && (ins.SneImm? ==> step == if s.v[ins.x] != ins.kk then Skip else Next)
      && (ins.SeReg? ==> step == if s.v[ins.x] == s.v[ins.y] then Skip else Next)
      && (ins.SneReg? ==> step == if s.v[ins.x] != s.v[ins.y] then Skip else Next)
      && (ins.Skp? ==> step == if keys[s.v[ins.x]] then Skip else Next)
      && (ins.Sknp? ==> step == if !keys[s.v[ins.x]] then Skip else Next)
  {
    if IsRegisterOp(ins) || ins.WaitKey? {
    } else if IsControlOp(ins) {
      assert Exec(s, ins, keys, rnd) == ControlOp(s, ins, keys);
    } else {
      assert Exec(s, ins, keys, rnd).1 == Next;
    }
  }

  /** One cycle, whatever the instruction: both timers count down once
      (after `Fx15` / `Fx18` loaded them), the tone sounds exactly while the
      sound timer is still positive, the redraw flag is raised exactly by
      `00E0` and `Dxyn`, and the PC moves on by two bytes unless the
      instruction jumps, skips or waits. */
  lemma CycleBookkeeping(s: State, keys: seq<bool>, rnd: Byte)
    requires CanCycle(s, keys)
    ensures var ins := Decode(Fetch(s)); var r := Cycle(s, keys, rnd);
      && r.delay == CountDown(if ins.SetDelay? then s.v[ins.x] else s.delay)
      && r.sound == CountDown(if ins.SetSound? then s.v[ins.x] else s.sound)
      && (r.beep <==> r.sound > 0)
      && (r.drawFlag <==> ins.Cls? || ins.Drw?)
      && (FallsThrough(ins) ==> r.pc == s.pc + 2)
      && (ins.WaitKey? ==> r.pc == s.pc || r.pc == s.pc + 2)
      && (ins.Jp? ==> r.pc == ins.nnn)
      && (ins.JpV0? ==> r.pc == ins.nnn + s.v[0])
      && (ins.Call? ==> r.pc == ins.nnn)
      && (ins.Ret? ==> r.pc == s.stack[s.sp - 1])
      && (ins.SeImm? ==> r.pc == if s.v[ins.x] == ins.kk then s.pc + 4 else s.pc + 2)
      && (ins.SneImm? ==> r.pc == if s.v[ins.x] != ins.kk then s.pc + 4 else s.pc + 2)
      && (ins.SeReg? ==> r.pc == if s.v[ins.x] == s.v[ins.y] then s.pc + 4 else s.pc + 2)
      && (ins.SneReg? ==> r.pc == if s.v[ins.x] != s.v[ins.y] then s.pc + 4 else s.pc + 2)
      && (ins.Skp? ==> r.pc == if keys[s.v[ins.x]] then s.pc + 4 else s.pc + 2)
      && (ins.Sknp? ==> r.pc == if !keys[s.v[ins.x]] then s.pc + 4 else s.pc + 2)
  {
    var s1 := s.(beep := false, drawFlag := false);
    var ins := Decode(Fetch(s1));
    var e := Exec(s1, ins, keys, rnd);
    CycleIs(s, keys, rnd, e.0, e.1);
    ExecTimers(s1, ins, keys, rnd);
    ExecDrawFlag(s1, ins, keys, rnd);
    ExecStep(s1, ins, keys, rnd);
  }

  /** `2nnn`: the return address (the word after the call) is pushed and
      execution continues at nnn. */
  lemma CallPushes(s: State, nnn: Addr, keys: seq<bool>, rnd: Byte)
    requires WellFormed(s) && |keys| == KEYPAD_SIZE && s.sp < STACK_SIZE
    ensures var t := CycleRunning(s, Call(nnn), keys, rnd);
      && t.pc == nnn && t.sp == s.sp + 1
      && t.stack == s.stack[s.sp := s.pc + 2] && t.memory == s.memory && t.v == s.v
  {
  }

  /** `00EE`: the top address is popped and execution continues there. */
  lemma ReturnPops(t: State, keys: seq<bool>, rnd: Byte)
    requires WellFormed(t) && |keys| == KEYPAD_SIZE && 0 < t.sp
    ensures var u := CycleRunning(t, Ret, keys, rnd);
      && u.pc == t.stack[t.sp - 1] && u.sp == t.sp - 1
      && u.stack == t.stack && u.memory == t.memory && u.v == t.v
  {
  }

  /** `2nnn` then, at nnn, `00EE`: the return comes back to the word after
      the call, with the stack pointer as before the call. */
  lemma CallThenReturn(s: State, nnn: Addr, keys: seq<bool>, rnd: Byte, keys2: seq<bool>, rnd2: Byte)
    requires CanCycle(s, keys) && Decode(Fetch(s)) == Call(nnn)
    requires var t := Cycle(s, keys, rnd); CanCycle(t, keys2) && Decode(Fetch(t)) == Ret
    ensures var u := Cycle(Cycle(s, keys, rnd), keys2, rnd2); u.pc == s.pc + 2 && u.sp == s.sp
  {
    var t := Cycle(s, keys, rnd);
    CallPushes(s, nnn, keys, rnd);
    ReturnPops(t, keys2, rnd2);
  }

  /** `Fx0A`, first cycle: the key pad is copied, the latch is set and the PC
      stays on the instruction. */
  lemma WaitLatches(s: State, x: Nibble, keys: seq<bool>, rnd: Byte)
    requires WellFormed(s) && |keys| == KEYPAD_SIZE && !s.keyWaiting
    ensures var r := CycleRunning(s, WaitKey(x), keys, rnd);
      r.pc == s.pc && r.keyWaiting && r.keyCopy == keys && r.v == s.v && r.memory == s.memory
  {
  }

  /** `Fx0A` with the latch set and some key changed since the copy: Vx
      receives the lowest changed key, the latch is released and execution
      moves on. */
  lemma WaitReleases(s: State, x: Nibble, keys: seq<bool>, rnd: Byte)
    requires WellFormed(s) && |keys| == KEYPAD_SIZE && s.keyWaiting && keys != s.keyCopy
    ensures var r := CycleRunning(s, WaitKey(x), keys, rnd);
      exists k :: 0 <= k < KEYPAD_SIZE && keys[k] != s.keyCopy[k] &&
        (forall j :: 0 <= j < k ==> keys[j] == s.keyCopy[j]) &&
        r.v == s.v[x := k] && !r.keyWaiting && r.pc == s.pc + 2
  {
    var k := FirstChange(keys, s.keyCopy, 0).value;
    assert keys[k] != s.keyCopy[k];
  }

  /** `Fx0A` with the latch set and the keys as copied: only the timers and
      the flags of the cycle change. */
  lemma WaitHolds(s: State, x: Nibble, rnd: Byte)
    requires WellFormed(s) && s.keyWaiting
    ensures var sound := CountDown(s.sound);
      CycleRunning(s, WaitKey(x), s.keyCopy, rnd) ==
        s.(delay := CountDown(s.delay), sound := sound, beep := sound > 0, drawFlag := false)
  {
    assert FirstChange(s.keyCopy, s.keyCopy, 0).None?;
  }

  /** A timer after `n` cycles. */
  function Drain(t: Byte, n: nat): (r: Byte)
    ensures r <= t
  {
    if t >= n then t - n else 0
  }

  /** No cycle of the run executes `Fx15` or `Fx18`. */
  predicate NoTimerLoads(s: State, ticks: seq<Tick>)
    requires RunDefined(s, ticks)
    decreases |ticks|
  {
    |ticks| == 0 ||
    (var ins := Decode(Fetch(s));
     && !ins.SetDelay? && !ins.SetSound?
     && NoTimerLoads(Cycle(s, ticks[0].keys, ticks[0].rnd), ticks[1..]))
  }

  /** One more cycle of a timer is one more count down. */
  lemma DrainStep(t: Byte, n: nat)
    ensures Drain(CountDown(t), n) == Drain(t, n + 1)
  {
  }

  /** Over any run that loads neither timer, both timers run down by one
      per cycle and stop at zero, and after at least one cycle the tone
      sounds exactly while the sound timer is still positive. */
  lemma {:induction false} TimersDrain(s: State, ticks: seq<Tick>)
    requires RunDefined(s, ticks) && NoTimerLoads(s, ticks)
    ensures var r := Run(s, ticks);
      && r.delay == Drain(s.delay, |ticks|)
      && r.sound == Drain(s.sound, |ticks|)
      && (|ticks| > 0 ==> (r.beep <==> Drain(s.sound, |ticks|) > 0))
    decreases |ticks|
  {
    if |ticks| > 0 {
      var t := Cycle(s, ticks[0].keys, ticks[0].rnd);
      CycleBookkeeping(s, ticks[0].keys, ticks[0].rnd);
      assert t.delay == CountDown(s.delay) && t.sound == CountDown(s.sound);
      TimersDrain(t, ticks[1..]);
      DrainStep(s.delay, |ticks| - 1);
      DrainStep(s.sound, |ticks| - 1);
      if |ticks| == 1 {
        assert t.beep <==> t.sound > 0;
      }
    }
  }

  /** While the keys stay as copied, a latched key wait holds execution for
      any number of cycles: every cycle can run, the PC, registers and memory
      never change, and the delay timer runs down. */
  lemma {:induction false} WaitBlocks(s: State, x: Nibble, ticks: seq<Tick>)
    requires WellFormed(s) && s.pc + 1 < MEMORY_SIZE && Decode(Fetch(s)) == WaitKey(x) && s.keyWaiting
    requires forall k :: 0 <= k < |ticks| ==> ticks[k].keys == s.keyCopy
    ensures RunDefined(s, ticks)
    ensures var r := Run(s, ticks);
      r.pc == s.pc && r.v == s.v && r.memory == s.memory && r.keyWaiting && r.delay == Drain(s.delay, |ticks|)
    decreases |ticks|
  {
    if |ticks| > 0 {
      WaitHolds(s, x, ticks[0].rnd);
      var t := Cycle(s, ticks[0].keys, ticks[0].rnd);
      assert Fetch(t) == Fetch(s);
      WaitBlocks(t, x, ticks[1..]);
    }
  }

  /** The machine at power-on: the font at 0..80 and zero in every other
      byte, register, stack slot, timer and pixel; PC at 0x200, an empty
      stack, no flag raised and no key wait pending. */
  lemma PowerOnLayout()
    ensures var s := PowerOn();
      && (forall a :: 0 <= a < |FONTSET| ==> s.memory[a] == FONTSET[a])
      && (forall a :: |FONTSET| <= a < MEMORY_SIZE ==> s.memory[a] == 0)
      && (forall r :: 0 <= r < REGISTER_COUNT ==> s.v[r] == 0)
      && (forall k :: 0 <= k < STACK_SIZE ==> s.stack[k] == 0)
      && (forall row, col :: 0 <= row < SCREEN_HEIGHT && 0 <= col < SCREEN_WIDTH ==> !s.gfx[row][col])
      && s.i == 0 && s.pc == PROGRAM_START && s.sp == 0 && s.delay == 0 && s.sound == 0
      && !s.drawFlag && !s.beep && !s.keyWaiting
  {
  }

  /** After power-on and loading a program of at least two bytes, the font
      is intact at 0..80 and the first cycle fetches the program's first
      word. */
  lemma BootFetchesProgram(program: seq<Byte>)
    requires 2 <= |program| <= MEMORY_SIZE - PROGRAM_START
    ensures var s := PowerOn().(memory := LoadProgram(PowerOn().memory, program));
      && WellFormed(s) && s.memory[..|FONTSET|] == FONTSET
      && Fetch(s) == (program[0] as int) * 0x100 + program[1]
  {
    var m := LoadProgram(PowerOn().memory, program);
    assert m[..|FONTSET|] == FONTSET by {
      forall a | 0 <= a < |FONTSET|
        ensures m[a] == FONTSET[a]
      {
        assert PowerOn().memory[a] == FONTSET[a];
      }
    }
    assert m[PROGRAM_START + 0] == program[0] && m[PROGRAM_START + 1] == program[1];
  }
}
