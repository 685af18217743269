# A verified model of a CHIP-8 interpreter core

This project models the interpreter core of a CHIP-8 emulator written in
Rust (`src/cpu.rs`). It covers:

- the `Chip8` machine: 4 KiB of memory, sixteen 8-bit registers V0..VF,
  the index register I, the program counter, a 64×32 monochrome
  framebuffer, the redraw flag, the delay and sound timers, the tone flag,
  and a sixteen-entry return stack with its pointer;
- power-on (`new`) and program loading (`initialize`);
- one fetch–execute cycle (`emulate_cycle`);
- the opcode dispatcher (`handle_opcode`) with all of its arms;
- the program-counter rule (`ProgramCounterStep`, `handle_programcounter`).

The model has two layers:

- **Module `Machine`** is the specification. It is a pure `State` value and
  the functions `Exec` (one instruction) and `Cycle` (one cycle).
- **Module `Cpu`** is the imperative layer. Class `Chip8` keeps its memory,
  registers, framebuffer and stack in arrays, as the Rust code does. Its
  methods update them in place, with the same loops: the font fill, the
  program copy, the clear-screen loop, the sprite loops, the register
  store/load loops and the key scan. Every method is proved to move the
  object exactly as the matching `Machine` function moves a `State`.

The other modules:

- `Alu` holds the 8-bit arithmetic and the flag values.
- `Opcodes` decodes words into instructions and holds the PC rule.
- `Keypad` holds the key scan of `Fx0A`.
- `Decoding`, `DrawFacts`, `InstructionFacts` and `CycleFacts` hold the
  properties proved about the specification.

Behaviour follows the code wherever it is unusual:

- `8xy5` computes the wrapped difference and discards it, so only VF
  changes.
- In `8xy4`, `8xy6`, `8xy7` and `8xyE`, VF is written before Vx is
  recomputed. When x or y is F, this decides the result.
- `Dxyn` clears VF first. It re-reads Vy at the start of every sprite row
  and Vx at every pixel.
- `0nnn` (a machine-code call) is not recognised. Like every unrecognised
  word, it only advances the PC.

The key pad and the random byte come from outside the interpreter:

- The sixteen key states and the `Cxkk` random byte are parameters of each
  cycle.
- The key-wait latch (`key_waiting`, `key_copy`, which the Rust code keeps in
  its input device) is held in the machine state.

## Model

| member | source | states |
|---|---|---|
| Alu.AddWithCarry | src/cpu.rs:187-197 | the wrapped sum plus 256 times the carry flag is the exact sum; the carry is 1 iff the sum exceeds 255 |
| Alu.SubtractWithBorrow | src/cpu.rs:198-224 | the wrapped difference is the true difference without borrow and the difference plus 256 with one; the flag is 1 iff the minuend is larger |
| Alu.ShiftsLoseTheFlagBit | src/cpu.rs:207-233 | shifting right loses exactly the LSB reported in VF, shifting left exactly the MSB |
| Alu.BcdDigits | src/cpu.rs:321-327 | the three digits are each below 10 and 100·d0 + 10·d1 + d2 is the value |
| Alu.BytewiseBits | src/cpu.rs:175-186 | bit k of the OR, AND and XOR of two bytes is the OR, AND and XOR of their bits k |
| Alu.XorTwice | src/cpu.rs:183-186 | XOR-ing with the same byte twice restores the byte |
| Alu.ByteBounds | src/cpu.rs:175-182 | the AND of two bytes is at most either of them and their OR at least either |
| Alu.OrOfBits | src/cpu.rs:257 | OR-ing a bit into a 0/1 value sets it to 1 when the bit is 1 and keeps it otherwise |
| Opcodes.HandleProgramCounter | src/cpu.rs:348-355 | an even PC stays even unless the step jumps to an odd target; without a jump the PC moves forward by at most 4 |
| Decoding.EncodeDecode | src/cpu.rs:110-120 | every 16-bit word re-encodes to itself after decoding (operands and unrecognised words included) |
| Decoding.DecodeEncode | src/cpu.rs:120-339 | every recognised instruction decodes back from its own word |
| Decoding.MachineCallIsUnknown | src/cpu.rs:120-134 | a 0-led word other than 00E0 and 00EE decodes as unrecognised |
| Keypad.FirstChange | src/cpu.rs:284-291 | the result is the lowest index at or after `from` where keys and snapshot differ, and None iff they agree there |
| Machine.PowerOn | src/cpu.rs:55-74 | defines the power-on state: font at 0..80, PC 0x200, everything else zero; well formed (the layout is `CycleFacts.PowerOnLayout`) |
| Machine.Fetch | src/cpu.rs:87 | defines the fetched word as the byte at PC shifted up by 8 bits, plus the byte after it |
| Machine.Finish | src/cpu.rs:89-102 | defines the end of a cycle: the PC step is applied, both timers count down, and the tone is raised iff the sound timer is still positive; keeps the state well formed |
| Machine.CycleRunning | src/cpu.rs:84-102 | defines a cycle running a given instruction: clear the flags, execute it, then `Finish`; keeps the state well formed |
| Machine.Cycle | src/cpu.rs:82-103 | defines one cycle as `CycleRunning` of the instruction the word at PC decodes to; keeps the state well formed (its effects are `CycleFacts.CycleBookkeeping` and `CycleFacts.TimersDrain`) |
| Opcodes.Decode | src/cpu.rs:110-119 | defines the split of a word into its four nibbles and the nnn and kk fields before dispatch (inverted by `Decoding.EncodeDecode`) |
| Opcodes.Dispatch | src/cpu.rs:120-345 | defines which instruction each nibble pattern is, arm by arm, with the `_` arm as unrecognised (round trips in `Decoding`) |
| Machine.RegisterOp | src/cpu.rs:162-233 | defines the register arms 6xkk to 8xyE, and Cxkk at 246-249; keeps 16 registers (their meaning is in `InstructionFacts`) |
| Machine.FlagThenStore | src/cpu.rs:187-233 | defines the flag-first order: VF is set, then Vx is recomputed from the updated registers; keeps 16 registers |
| Machine.PlotPixel | src/cpu.rs:255-258 | defines one pixel of `Dxyn`: the column re-read from Vx, the XOR, and VF set on a collision; no register but VF changes |
| Machine.DrawCols | src/cpu.rs:254-259 | defines the eight pixels of one sprite row, left to right; no register but VF changes |
| Machine.Draw | src/cpu.rs:250-263 | defines `Dxyn`: VF cleared, n sprite rows from I drawn, redraw flag raised; keeps the state well formed (its effect is `DrawFacts.DrawFlipsCoveredCells`) |
| Machine.WaitForKey | src/cpu.rs:282-304 | defines `Fx0A`: latch and snapshot when idle, release with the lowest changed key when latched; keeps the state well formed (its effects are the `CycleFacts.Wait` lemmas) |
| Machine.StoreBcd | src/cpu.rs:321-327 | defines the three digit bytes written at I; keeps memory at 4096 bytes (their value is `InstructionFacts.BcdStoresDigits`) |
| Machine.StoreRegisters | src/cpu.rs:328-333 | defines `Fx55`: V0..Vx written from I on; keeps memory at 4096 bytes (cells in `InstructionFacts.StoreRegistersCells`) |
| Machine.LoadRegisters | src/cpu.rs:334-339 | defines `Fx65`: V0..Vx read from I on; keeps 16 registers (cells in `InstructionFacts.LoadRegistersCells`) |
| Machine.Blank | src/cpu.rs:122-126 | the cleared framebuffer has every pixel dark |
| Machine.LoadProgram | src/cpu.rs:76-80 | byte k of the program lands at 512 + k and every other byte keeps its value |
| Machine.DrawRows | src/cpu.rs:251-260 | drawing sprite rows changes no register but VF |
| Machine.ControlOp | src/cpu.rs:121-277 | the control arms (00E0, 00EE, 1nnn to 5xy0 at 121-161, 9xy0 and Bnnn at 234-245, Ex9E and ExA1 at 264-277) never move the PC or touch the tone flag; only the returned step moves the PC |
| Machine.MemoryOp | src/cpu.rs:241-339 | the index, timer, sprite and memory arms leave the PC and the tone flag alone |
| Machine.Exec | src/cpu.rs:105-345 | no arm of the dispatcher moves the PC or touches the tone flag itself |
| Cpu.Chip8.constructor | src/cpu.rs:55-74 | the new object's state is `PowerOn()`, with the font copied in by a loop |
| Cpu.Chip8.Initialize | src/cpu.rs:76-80 | the copy loop leaves memory as `LoadProgram` says and changes nothing else |
| Cpu.Chip8.EmulateCycle | src/cpu.rs:82-103 | the object's new state is `Cycle` of its old state |
| Cpu.Chip8.UpdateTimers | src/cpu.rs:91-102 | both timers count down and the tone flag is raised iff the sound timer is still positive |
| Cpu.Chip8.HandleOpcode | src/cpu.rs:105-345 | the new state and the returned step are those of `Exec` on the decoded word |
| Cpu.Chip8.ExecuteRegisterOp | src/cpu.rs:162-233 | the registers become `RegisterOp` of the old registers |
| Cpu.Chip8.FlagThenStore | src/cpu.rs:187-233 | VF is written first, then Vx is recomputed from the updated registers |
| Cpu.Chip8.ExecuteControlOp | src/cpu.rs:121-277 | the new state and the step are those of `ControlOp` |
| Cpu.Chip8.ExecuteMemoryOp | src/cpu.rs:241-339 | the new state is `MemoryOp` of the old state |
| Cpu.Chip8.ClearScreen | src/cpu.rs:122-126 | after the nested loop every pixel of the framebuffer is dark |
| Cpu.Chip8.DrawSprite | src/cpu.rs:250-263 | the new state is `Draw` of the old state |
| Cpu.Chip8.DrawRow | src/cpu.rs:252-260 | one more iteration of the row loop draws one more sprite row |
| Cpu.Chip8.DrawColumns | src/cpu.rs:254-259 | the column loop draws the eight pixels of one sprite row |
| Cpu.Chip8.DrawPixel | src/cpu.rs:255-258 | one pixel is XOR-ed and a collision raises VF |
| Cpu.Chip8.StoreBcd | src/cpu.rs:321-327 | the three digit bytes are written at I, I+1 and I+2 |
| Cpu.Chip8.StoreRegisters | src/cpu.rs:328-333 | the loop writes V0..Vx into memory from I on |
| Cpu.Chip8.LoadRegisters | src/cpu.rs:334-339 | the loop reads V0..Vx from memory from I on |
| Cpu.Chip8.WaitForKey | src/cpu.rs:282-304 | the latch, Vx and the step follow `WaitForKey`, including the key-scan loop |
| DrawFacts.DrawColsEffect | src/cpu.rs:254-259 | one sprite row flips exactly the pixels under its set bits on its screen row; VF becomes 1 if one of them was lit and otherwise keeps its old value |
| DrawFacts.DrawRowsEffect | src/cpu.rs:252-260 | drawing k rows flips exactly the cells the first k rows cover, wrapping at the edges; VF becomes 1 if one of them was lit and otherwise keeps its old value |
| DrawFacts.DrawRowEffect | src/cpu.rs:253-259 | the inductive step: row k adds its cells and its collisions to those of rows 0..k-1 |
| DrawFacts.DrawFlipsCoveredCells | src/cpu.rs:250-263 | `Dxyn` flips exactly the covered cells, sets VF to 1 iff some pixel went from lit to dark (else 0), raises the redraw flag and changes nothing else |
| DrawFacts.DrawTwiceRestores | src/cpu.rs:250-263 | drawing the same sprite twice at the same place restores the framebuffer |
| DrawFacts.DrawOnBlankScreen | src/cpu.rs:250-263 | on a blank framebuffer VF ends as 0 |
| DrawFacts.DrawColsKeepsFlagBit | src/cpu.rs:254-259 | if VF holds 0 or 1 before a sprite row's column loop, it still does after it |
| DrawFacts.DrawRowsKeepsFlagBit | src/cpu.rs:252-260 | if VF holds 0 or 1 before the row loop, it still does after any number of rows |
| DrawFacts.DrawFlagIsBit | src/cpu.rs:251-257 | for any x and y, VF ends as 0 or 1 |
| InstructionFacts.AddRegCarries | src/cpu.rs:187-197 | Vx + 256·VF is the exact sum, VF is a bit, and no other register changes |
| InstructionFacts.SubRegOnlySetsFlag | src/cpu.rs:198-206 | for every x and y (F included), VF is 1 iff Vx > Vy; Vx keeps its value unless x is F; no other register changes |
| InstructionFacts.SubnDifference | src/cpu.rs:216-224 | Vx is Vy - Vx, plus 256 when negative; VF is 1 iff Vy > Vx |
| InstructionFacts.ShiftsReportLostBit | src/cpu.rs:207-233 | 2·Vx' + VF = Vx after `8xy6`; Vx' + 256·VF = 2·Vx after `8xyE` |
| InstructionFacts.FlagRegisterAsOperand | src/cpu.rs:187-206 | with VF as an operand the flag is written first and then read: `8Fy4` leaves carry + Vy in VF, `8xF4` adds the fresh carry to Vx and leaves that carry in VF, `8FF4` leaves twice the carry, `8Fy5` leaves the flag (sums modulo 256) |
| InstructionFacts.FlagRegisterInSubnAndShifts | src/cpu.rs:207-233 | with VF as an operand the flag is written first and then read: `8Fy7` leaves Vy minus the fresh flag, `8xF7` leaves the fresh flag minus Vx in Vx and the flag in VF, `8FF7` and `8F06` leave 0, `8F0E` twice the MSB (differences modulo 256) |
| InstructionFacts.LogicOpsAreBitwise | src/cpu.rs:175-186 | bit k of the new Vx is the OR, AND or XOR of the operands' bits; other registers are unchanged |
| InstructionFacts.XorRegTwiceRestores | src/cpu.rs:183-186 | `8xy3` twice restores the registers |
| InstructionFacts.RandomIsMasked | src/cpu.rs:246-249 | Vx is at most kk, has no bit kk lacks, and no other register changes |
| InstructionFacts.AddImmSetsNoFlag | src/cpu.rs:166-170 | for every x, `7xkk` adds kk to Vx modulo 256 and changes no other register, so for x other than F VF keeps its value |
| InstructionFacts.SkipsOnImmediate | src/cpu.rs:141-154 | `3xkk` / `4xkk` change no state and skip iff Vx equals / differs from kk |
| InstructionFacts.SkipsOnRegisters | src/cpu.rs:155-161 | `5xy0` / `9xy0` change no state and skip iff Vx equals / differs from Vy |
| InstructionFacts.SkipsOnKey | src/cpu.rs:264-277 | `Ex9E` / `ExA1` change no state and skip iff key Vx is down / up |
| InstructionFacts.BcdStoresDigits | src/cpu.rs:321-327 | the three bytes at I are digits whose decimal value is Vx; nothing else changes |
| InstructionFacts.StoreRegistersCells | src/cpu.rs:328-333 | memory[I + k] = Vk for k ≤ x; every other byte and I are unchanged |
| InstructionFacts.LoadRegistersCells | src/cpu.rs:334-339 | Vk = memory[I + k] for k ≤ x; the higher registers and I are unchanged |
| InstructionFacts.StoreThenLoad | src/cpu.rs:328-339 | `Fx65` right after `Fx55` changes nothing |
| InstructionFacts.LoadThenStore | src/cpu.rs:328-339 | `Fx55` right after `Fx65` changes nothing |
| InstructionFacts.GlyphSelectsFont | src/cpu.rs:317-320 | with the font intact, I points at the five rows of the glyph for digit Vx |
| InstructionFacts.DelayRoundTrip | src/cpu.rs:278-308 | `Fx15` then `Fy07` copies Vx into Vy |
| InstructionFacts.UnknownIsIgnored | src/cpu.rs:340-343 | an unrecognised word changes nothing and yields `Next` |
| CycleFacts.ProgramCounterWorks | src/cpu.rs:361-366 | the Rust code's unit test of the PC rule |
| CycleFacts.ExecTimers | src/cpu.rs:305-312 | only `Fx15` and `Fx18` load the timers |
| CycleFacts.ExecDrawFlag | src/cpu.rs:121-263 | only `00E0` and `Dxyn` raise the redraw flag |
| CycleFacts.ExecStep | src/cpu.rs:120-345 | every arm but jumps, call, return, skips and key wait yields `Next`; `1nnn` and `2nnn` jump to nnn, `Bnnn` to nnn + V0, `00EE` to the top stack entry; each skip yields `Skip` exactly when its comparison or key test holds, else `Next` |
| CycleFacts.CycleBookkeeping | src/cpu.rs:82-103 | timers count down once per cycle, the tone sounds iff the sound timer is still positive, the redraw flag is raised iff the instruction draws; the PC moves on by 2 after fall-through instructions, to nnn after `1nnn` and `2nnn`, to nnn + V0 after `Bnnn`, to the top stack entry after `00EE`, by 4 after a skip whose test holds and by 2 after one whose test fails, and by 0 or 2 after `Fx0A` |
| CycleFacts.CallPushes | src/cpu.rs:136-140 | `2nnn` pushes PC + 2, increments the stack pointer and continues at nnn |
| CycleFacts.ReturnPops | src/cpu.rs:130-134 | `00EE` pops the top address and continues there |
| CycleFacts.CallThenReturn | src/cpu.rs:130-140 | a call followed by a return lands at the call's address + 2 with the stack pointer restored |
| CycleFacts.WaitLatches | src/cpu.rs:298-303 | with the latch off, `Fx0A` copies the keys, sets the latch and holds the PC |
| CycleFacts.WaitReleases | src/cpu.rs:283-297 | with the latch on and a key changed, Vx gets the lowest changed key, the latch is released and the PC moves on |
| CycleFacts.WaitHolds | src/cpu.rs:283-297 | with the latch on and no key changed, only the timers and the cycle's flags change |
| CycleFacts.WaitBlocks | src/cpu.rs:282-304 | while no key changes, a latched `Fx0A` holds any number of cycles: each can run, and PC, registers and memory stay put while the delay timer runs down |
| CycleFacts.TimersDrain | src/cpu.rs:91-102 | over any run of n cycles that executes no `Fx15` or `Fx18`, each timer ends at its start value minus n, or 0 once that is negative; after at least one cycle the tone sounds iff the sound timer is still positive |
| CycleFacts.PowerOnLayout | src/cpu.rs:55-74 | the font sits at 0..80; every other byte, register, stack slot, timer and pixel is zero; PC is 0x200 and the stack is empty |
| CycleFacts.BootFetchesProgram | src/cpu.rs:55-89 | after loading a program the font is intact and the first fetch reads the program's first word |

## Left out

- Rendering and sound (`src/graphics.rs`, `src/audio.rs`) are not part of this model. They are SDL presentation and floating-point audio.
- The host program (`src/main.rs`) is not part of this model: argument parsing, file reading, the frame loop and its sleep.
- SDL event handling (`poll`, `handle_key` in `src/input.rs`) is not modelled. The key states enter as a parameter of each cycle.
- The random number generator of `Cxkk` is replaced by a random byte passed in.
- The diagnostic print for unrecognised words has no counterpart.
- Out-of-range indexing panics in Rust. The model instead requires that it cannot happen (`Defined`, `CanCycle`), so panicking runs are not described. This covers:
  - a return on an empty stack;
  - a call on a full stack;
  - a key index above 15;
  - sprite, BCD or register-transfer bytes beyond memory;
  - a PC past the end of memory;
  - a program longer than 3584 bytes (`initialize` writes byte k at 512 + k). `Machine.LoadProgram` and `Cpu.Chip8.Initialize` require `|buffer| <= MEMORY_SIZE - PROGRAM_START`.
- `usize` values (I, PC, stack entries) are unbounded naturals. The model does not describe `usize` overflow of `Fx1E` or `Bnnn`, which would need an index far beyond memory.
- Framebuffer cells are booleans, because the Rust code only ever stores 0 and 1 in them.
- In `Dxyn`, `VF |= pixel` is modelled as "set VF to 1 on a collision". This is the same because VF is cleared first and stays 0 or 1 at every pixel and row (`DrawFacts.DrawColsKeepsFlagBit`, `DrawFacts.DrawRowsKeepsFlagBit`), and OR-ing a bit into a 0/1 value is setting it on a 1 (`Alu.OrOfBits`).
- DrawFacts.DrawFlipsCoveredCells is stated only for x and y other than F. With VF as a coordinate register, the model still follows the Rust code's re-reads of Vx and Vy, but only `DrawFacts.DrawFlagIsBit` is proved about that case.
- DrawFacts.DrawTwiceRestores is stated only for x and y other than F. With VF as Vx or Vy, the second draw's first collision sets VF to 1 and moves the later columns or rows, so the Rust code does not restore the screen either.
- DrawFacts.DrawOnBlankScreen is stated only for x and y other than F. It holds for every x and y: on a blank screen VF stays 0, so Vx and Vy read as constants, and at most 15 rows of 8 columns hit no cell twice. That proof is not part of this model.
- InstructionFacts.AddRegCarries states the exact-sum form for x and y other than F only, because with F as an operand the carry overwrites it first. `InstructionFacts.FlagRegisterAsOperand` gives the results of `8Fy4`, `8xF4` and `8FF4` instead.
- InstructionFacts.SubnDifference states the difference form for x and y other than F only, for the same reason. `InstructionFacts.FlagRegisterInSubnAndShifts` gives the results of `8Fy7`, `8xF7` and `8FF7` instead.
- InstructionFacts.ShiftsReportLostBit states the lost-bit form for x other than F only, for the same reason. `InstructionFacts.FlagRegisterInSubnAndShifts` gives the results of `8F06` and `8F0E` instead.
- Timing is not modelled: the 60 Hz timer rate and the host's cycle pacing.
