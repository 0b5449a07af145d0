# CHIP-8 interpreter core, modelled and verified in Dafny

This project models the core of a CHIP-8 interpreter written in Rust, `src/main.rs`. The model covers:

- the 16-slot return-address `Stack`;
- the `Chip8` machine: 4 KiB of memory with the hexadecimal glyph table at 0x050, sixteen 8-bit registers V0..VF, the 16-bit index register I and program counter, a 64 x 32 monochrome display, sixteen key lines, and the delay and sound timers;
- the machine's operations: construction, `fetch`, `execute` (the decoder and dispatcher for the 34 instructions), `cycle`, `timer_tick` and `load_rom`.

The model has five modules:

- `Bits` (`bits.dfy`) defines the Rust `u8` and `u16` as ranges of integers. It defines `|`, `&` and `^` bit by bit and proves their algebra by induction.
- `Instructions` (`instructions.dfy`) holds the instruction set as a datatype. It has the nibble decoder that mirrors `execute`'s pattern match in its first-match order, and an encoder. It proves that decoding and encoding are inverse. It also proves that a word is reported unknown exactly when it matches none of the listed hexadecimal patterns.
- `Machine` (`machine.dfy`) is the reference semantics. The machine state is a value, and each operation is a function on it. Wrapping arithmetic and the write order of VF are explicit. Every place where the Rust code would panic becomes a precondition, collected per instruction in `Safe`:
  - an array index out of range;
  - a `u16` `+=` or `-=` that overflows;
  - the stack pointer leaving its range.
- `Interpreter` (`interpreter.dfy`) holds the interpreter as the Rust program has it. A `Stack` class and a `Chip8` class have fixed-size arrays and registers that each method updates in place, with the same loops as the source. Every method is proved to have exactly the effect the reference semantics gives, through the abstraction `Chip8.Abs()`.
- `Properties` (`properties.dfy`) proves what the semantics promises for all inputs. It covers:
  - the call/return round trip;
  - the carry, borrow and shift-out arithmetic of 8XYN, including the case X = F;
  - exclusive-or drawing with clipping, and redrawing to erase;
  - the FX0A key wait;
  - the digits FX33 writes and the FX55/FX65 transfers;
  - FX1E's flag, which is always 0;
  - the range of BNNN;
  - the timers, construction and program loading;
  - a three-instruction program.

The two behaviour switches of the source, the shift quirk and the jump quirk, are the fields of `Quirks`. A machine receives them once, at construction. The byte that CXNN draws at random is a parameter of `Execute` and `Cycle`. An unknown opcode is printed in the source; here it is returned as `Status.UnknownOpcode`.

## Model

| member | source | states |
|---|---|---|
| Bits.XorTwice | src/main.rs:176-178 | applying `^ VY` twice restores the operand |
| Bits.OrIdempotent | src/main.rs:170-172 | or-ing in VY a second time changes nothing |
| Bits.AndIdempotent | src/main.rs:173-175 | applying `& VY` a second time changes nothing, and the result never exceeds the mask |
| Bits.MaskTestsBit | src/main.rs:239 | masking a byte with a single bit is non-zero exactly when that bit of the byte is set |
| Instructions.JoinNibbles | src/main.rs:111-114 | splitting a word into its four nibbles and joining them gives the word back; NN and NNN are the low nibbles |
| Instructions.NibblesOfJoin | src/main.rs:111-114 | joining four nibbles and splitting the word gives the nibbles back |
| Instructions.EncodeDecode | src/main.rs:111-116 | decoding loses nothing: every word is re-created from its decoded instruction |
| Instructions.DecodeEncode | src/main.rs:116-305 | every instruction is the decoding of its encoding, so each arm of the match is reachable with its operands |
| Instructions.UnknownExactly | src/main.rs:116-305 | a word decodes to Unknown exactly when it matches none of the patterns: 00E0, 00EE, 1-4/6-7/A-D any, 5XY0, 9XY0, 8XY0-7, 8XYE, EX9E, EXA1, FX07/15/18/1E/0A/29/33/55/65 |
| Machine.FirstKeyBound | src/main.rs:273-279 | the key scan returns an index within the key array, at or above where it started |
| Machine.Exec | src/main.rs:116-305 | every instruction keeps the state well formed: array sizes fixed and at most 16 return addresses |
| Machine.Cycle | src/main.rs:308-311 | a fetch-and-execute keeps the state well formed |
| Instructions.Decode | src/main.rs:111-305 | the word is cut into its four nibbles, NN is its low byte and NNN its low 12 bits; the result is the first arm of the match, in source order, whose pattern the nibbles fit, and `Unknown(word)` when none fits |
| Machine.FetchWord | src/main.rs:102-104 | the instruction word at pc is big-endian: `ram[pc] * 256 + ram[pc + 1]` |
| Machine.Fetched | src/main.rs:105 | after a fetch pc is two higher and nothing else changes |
| Machine.ExecFlow | src/main.rs:117-133 | 00E0 turns every pixel off; 00EE pops the top return address into pc; 1NNN sets pc to NNN; 2NNN pushes pc and sets pc to NNN; BNNN (lines 213-216) sets pc to NNN plus V0, or plus VX under the jump quirk |
| Machine.ExecSkip | src/main.rs:134-157 | 3XNN, 4XNN, 5XY0, 9XY0 and (lines 251-256) EX9E, EXA1: when the condition holds pc grows by two, otherwise the state is unchanged |
| Machine.ExecRegisters | src/main.rs:158-178 | 6XNN, 7XNN, 8XY0 to 8XY3 and CXNN (lines 217-220) write one value into VX and change nothing else |
| Machine.LoadLogicValue | src/main.rs:158-178 | the value written: NN; (VX + NN) mod 256; VY; VX or VY; VX and VY; VX xor VY; and for CXNN the random byte and NN |
| Machine.ExecArith | src/main.rs:179-209 | 8XY4: VX := (VX + VY) mod 256, then VF := carry; 8XY5: VX := (VX - VY) mod 256, then VF := VX >= VY on the old values; 8XY7 the same with the operands swapped; 8XY6/8XYE: VX := VY under the shift quirk, then VF := the bit shifted out, then VX shifted by one (mod 256) |
| Machine.ExecDraw | src/main.rs:221-250 | DXYN: the origin is (VX mod 64, VY mod 32); every cell inside the clipped sprite rectangle whose sprite bit is set is flipped; VF := 1 when some flipped cell was lit before, else 0 |
| Machine.ExecIndexTimers | src/main.rs:257-270 | ANNN (lines 210-212) sets I to NNN; FX07 copies the delay timer into VX; FX15 and FX18 set the delay and sound timers from VX; FX1E sets I to (I + VX) mod 65536 and VF to 1 only when that add overflowed and the new I exceeds 0xFFF; FX29 (lines 285-287) sets I to 0x50 + 5 * VX |
| Machine.ExecWaitKey | src/main.rs:271-284 | FX0A: VX := the lowest pressed key; with no key pressed pc moves back two so the instruction runs again |
| Machine.ExecMemory | src/main.rs:288-303 | FX33 writes VX mod 10 at I, its tens digit at I + 1 and its hundreds digit at I + 2; FX55 copies V0..VX to memory from I on; FX65 copies memory from I on into V0..VX; I itself never changes |
| Machine.Safe | src/main.rs:116-305 | the conditions under which the arm the word selects does not panic: a non-empty stack for 00EE, a non-full one for 2NNN, a pc + 2 that fits in 16 bits for a taken skip, VX < 16 for EX9E/EXA1, sprite rows read within memory for DXYN, a pressed key or pc >= 2 for FX0A, and I + 2 or I + X within memory for FX33, FX55 and FX65 |
| Machine.StatusOf | src/main.rs:304 | a word that matches no arm is reported as an unknown opcode; every other word as executed |
| Machine.Tick | src/main.rs:313-320 | each timer drops by one when above zero and stays at zero otherwise; nothing else changes |
| Machine.TickTimer | src/main.rs:314-316 | one timer's count-down, stopping at zero |
| Machine.Initial | src/main.rs:84-100 | a new machine: blank display, no key pressed, the glyph table in memory at 0x050 and zeros elsewhere, an empty stack, pc = 0x200, I, V0..VF and both timers zero |
| Machine.FirstKeyFrom | src/main.rs:273-279 | the lowest pressed key at or above a starting index, or none when no such key is pressed |
| Machine.SpritePixel | src/main.rs:239 | column `col` of a sprite row is set when the row masked with `0x80 >> col` is non-zero |
| Machine.ColumnMask | src/main.rs:239 | the mask `0x80 >> col`, a single bit no larger than 0x80 |
| Interpreter.Stack.constructor | src/main.rs:53-58 | a new stack has 16 slots and holds no address |
| Interpreter.Stack.Push | src/main.rs:60-63 | requires a free slot; the held addresses become the old ones followed by `addr` |
| Interpreter.Stack.Pop | src/main.rs:65-68 | requires a held address; returns the most recently pushed one and drops it |
| Interpreter.Chip8.constructor | src/main.rs:84-100 | a new machine is the initial state: all zero, the glyph table at 0x050, pc at 0x200, empty stack, with the given quirks |
| Interpreter.Chip8.Fetch | src/main.rs:102-107 | requires pc + 1 < 4096; returns `ram[pc] * 256 + ram[pc + 1]` and advances pc by 2, changing nothing else |
| Interpreter.Chip8.Execute | src/main.rs:110-306 | the new state is the reference semantics of the decoded word; the status is UnknownOpcode exactly for an unknown word |
| Interpreter.Chip8.Cycle | src/main.rs:308-311 | the new state is fetch followed by execute in the reference semantics; the status reports the fetched word |
| Interpreter.Chip8.TimerTick | src/main.rs:313-320 | each timer is decremented when above zero and otherwise stays 0 |
| Interpreter.Chip8.LoadRom | src/main.rs:322-324 | requires the program to fit above 0x200; memory from 0x200 on holds the program and nothing else changes |
| Interpreter.Chip8.ExecuteFlow | src/main.rs:117-133 | 00E0, 1NNN, 2NNN, 00EE and BNNN (src/main.rs:213-216) as in the reference semantics, with the call stack updated in place |
| Interpreter.Chip8.ReturnFromSubroutine | src/main.rs:130-133 | requires a held return address; pc becomes the top address and the stack loses it |
| Interpreter.Chip8.CallSubroutine | src/main.rs:126-129 | requires a free stack slot; the stack gains the current pc and pc becomes NNN |
| Interpreter.Chip8.ClearDisplay | src/main.rs:118-120 | every display cell is dark afterwards and nothing else changes |
| Interpreter.Chip8.ExecuteSkip | src/main.rs:134-157 | 3XNN, 4XNN, 5XY0, 9XY0 (and EX9E, EXA1, src/main.rs:251-256) advance pc by 2 exactly when their condition holds |
| Interpreter.Chip8.ExecuteRegisters | src/main.rs:158-178 | 6XNN, 7XNN, 8XY0 to 8XY3 and CXNN (src/main.rs:217-220) as in the reference semantics: only VX changes |
| Interpreter.Chip8.LoadLogicResult | src/main.rs:158-178 | without changing anything, yields the value 6XNN, 7XNN, 8XY0-3 and CXNN (src/main.rs:217-220) give VX |
| Interpreter.Chip8.SetRegister | src/main.rs:160 | VX takes the value and no other part of the machine changes |
| Interpreter.Chip8.AddRegisters | src/main.rs:179-183 | 8XY4: VX is the sum modulo 256, then VF the carry |
| Interpreter.Chip8.SubtractRegisters | src/main.rs:184-193 | 8XY5 and 8XY7: VX is the difference modulo 256, then VF = 1 iff no borrow |
| Interpreter.Chip8.ExecuteShift | src/main.rs:194-209 | 8XY6 and 8XYE: optional copy of VY, VF the bit shifted out, then VX shifted |
| Interpreter.Chip8.ShiftRightRegister | src/main.rs:194-201 | 8XY6 in place: VX takes VY under the shift quirk, then VF gets VX's low bit, then VX is halved; the end state is ExecArith's |
| Interpreter.Chip8.ShiftLeftRegister | src/main.rs:202-209 | 8XYE in place: VX takes VY under the shift quirk, then VF gets VX's top bit, then VX is doubled modulo 256; the end state is ExecArith's |
| Interpreter.Chip8.ExecuteIndexTimers | src/main.rs:257-270 | FX07, FX15, FX18, FX1E and FX29 (src/main.rs:285-287) and ANNN (src/main.rs:210-212) as in the reference semantics |
| Interpreter.Chip8.AddToIndex | src/main.rs:266-270 | FX1E: I becomes I + VX modulo 65536, and VF is set only when that sum wrapped to a value above 0xFFF |
| Interpreter.Chip8.ExecuteTimers | src/main.rs:257-265 | FX07 copies the delay timer to VX; FX15 and FX18 copy VX to the delay and sound timers |
| Interpreter.Chip8.ExecuteMemory | src/main.rs:288-303 | FX33, FX55 and FX65 as in the reference semantics |
| Interpreter.Chip8.WriteBcd | src/main.rs:288-293 | requires I + 2 < 4096; writes the ones, tens and hundreds digits of VX at I, I + 1, I + 2 |
| Interpreter.Chip8.StoreRegisters | src/main.rs:294-298 | requires I + X < 4096; the loop leaves `ram[I..I + X]` equal to V0..VX and the rest of memory unchanged |
| Interpreter.Chip8.LoadRegisters | src/main.rs:299-303 | requires I + X < 4096; the loop leaves V0..VX equal to `ram[I..I + X]` and the higher registers unchanged |
| Interpreter.Chip8.WaitForKey | src/main.rs:271-284 | the scan stores the lowest pressed key in VX, or with none pressed steps pc back by 2 |
| Interpreter.Chip8.DrawSprite | src/main.rs:221-250 | the nested loop toggles exactly the clipped sprite cells and leaves VF = 1 iff a lit cell was toggled; each row byte is read before the row's clip check |
| Interpreter.Chip8.DrawRow | src/main.rs:233-247 | one pass of the inner loop handles exactly the cells of one sprite row and keeps VF in step with the collisions so far |
| Interpreter.Chip8.DrawCell | src/main.rs:239-246 | one step of the inner loop: the display and VF move from the drawing done before the cell to the drawing done after it |
| Machine.CopyIntoAt | src/main.rs:323 | a slice copy: the addresses from `at` take the source bytes and all others keep theirs |
| Machine.InitialRam | src/main.rs:84-100 | a new memory holds the glyph table at 0x050 and zeros at every other address |
| Machine.LoadRom | src/main.rs:322-324 | the program occupies 0x200 on, no other address changes and nothing else in the machine |
| Properties.ColumnMaskBit | src/main.rs:239 | the mask `0x80 >> col` is the single bit 7 - col |
| Properties.DecodeCall | src/main.rs:126-129 | the word 2NNN decodes to a call of NNN |
| Properties.FetchWordBytes | src/main.rs:104 | the fetched word's high byte is `ram[pc]` and its low byte `ram[pc + 1]` |
| Properties.CallThenReturn | src/main.rs:126-133 | 2NNN followed by 00EE restores the whole state, and 2NNN pushes the return address |
| Properties.CallThenReturnCycles | src/main.rs:126-133 | 2NNN at p, then 00EE at NNN, resume at p + 2 with the stack as it was |
| Properties.CallCycle | src/main.rs:126-129 | a cycle on the word 2NNN pushes the address after it and sets pc to NNN, changing nothing else |
| Properties.ReturnCycle | src/main.rs:130-133 | a cycle on the word 00EE with a non-empty stack pops the top address into pc, changing nothing else |
| Properties.AddRegCarry | src/main.rs:179-183 | with X other than F, VX + 256 * VF is the full sum of VX and VY, VF is the carry, and only VX and VF change |
| Properties.SubBorrow | src/main.rs:184-188 | 8XY5 with X other than F: VF = 1 iff no borrow, VX - 256 * (1 - VF) is the exact difference VX - VY, and no register other than VX and VF changes |
| Properties.SubNBorrow | src/main.rs:189-193 | 8XY7 with X other than F: VF = 1 iff no borrow, VX - 256 * (1 - VF) is the exact difference VY - VX, and no register other than VX and VF changes |
| Properties.FlagWinsOverResult | src/main.rs:179-193 | with X = F, VF ends as the carry or no-borrow flag, not the arithmetic result |
| Properties.ShiftRightExact | src/main.rs:194-201 | with X other than F, 2 * VX + VF is the pre-shift value (VY under the shift quirk, VX otherwise), and no register other than VX and VF changes |
| Properties.ShiftLeftExact | src/main.rs:202-209 | with X other than F, VX + 256 * VF is twice the pre-shift value (VY under the shift quirk, VX otherwise), and no register other than VX and VF changes |
| Properties.ShiftOfFlag | src/main.rs:194-209 | with X = F, the shift applies to the flag just written, leaving 0 after 8XY6 and 0 or 2 after 8XYE |
| Properties.XorTwiceRestores | src/main.rs:176-178 | 8XY3 twice with X other than Y restores the state |
| Properties.OrAndIdempotent | src/main.rs:170-175 | 8XY1 and 8XY2 repeated with X other than Y change nothing more |
| Properties.RandomMasked | src/main.rs:217-220 | CXNN leaves VX at most NN and changes no other register |
| Properties.AddImmWraps | src/main.rs:163-166 | 7XNN adds modulo 256 and leaves VF alone unless X = F |
| Properties.SpritePixelBit | src/main.rs:239 | column `col` of a sprite row is bit 7 - col of the row byte |
| Properties.DrawChangesExactly | src/main.rs:221-250 | a draw toggles exactly the cells within the sprite's rectangle, clipped rather than wrapped at the right and bottom edges, whose sprite bit is set |
| Properties.DrawTwiceRestores | src/main.rs:221-250 | with X and Y other than F, drawing the same sprite twice restores the display, and the second draw's VF is 1 iff some toggled cell was dark before |
| Properties.ClearThenDrawNoCollision | src/main.rs:221-250 | after 00E0 (src/main.rs:118-119) a DXYN draw sets VF = 0 and lights exactly the sprite's cells |
| Properties.FirstKeyFromFinds | src/main.rs:273-279 | the scan from j finds k iff key k is pressed and no key from j up to k is |
| Properties.FirstKeyFromNone | src/main.rs:273-279 | the scan from j finds nothing iff no key from j on is pressed |
| Properties.FirstKeyLowest | src/main.rs:273-279 | the scan yields the lowest pressed key, and none iff no key is pressed |
| Properties.WaitKeyBlocks | src/main.rs:271-284 | with no key pressed, a cycle on FX0A leaves the whole machine unchanged |
| Properties.WaitKeyStores | src/main.rs:271-284 | with key k the lowest pressed, a cycle on FX0A stores k in VX and advances pc by 2 |
| Properties.BcdDigits | src/main.rs:288-293 | the three digits written are each below 10, read back as VX, and no other memory changes |
| Properties.DecimalDigits | src/main.rs:289-292 | the three digits of a byte FX33 computes rebuild the byte, and the hundreds digit is below 10 |
| Properties.StoreRegsFrame | src/main.rs:294-298 | FX55 writes V0..VX at I..I + X, leaves every other address, and changes nothing else in the machine |
| Properties.LoadRegsFrame | src/main.rs:299-303 | FX65 loads V0..VX from I..I + X, leaves VX+1..VF, and changes nothing else in the machine |
| Properties.StoreThenLoad | src/main.rs:294-303 | FX65 right after FX55 with the same I and X changes nothing |
| Properties.LoadThenStore | src/main.rs:294-303 | FX55 right after FX65 with the same I and X leaves memory as it was |
| Properties.AddIndexFlagClear | src/main.rs:266-270 | FX1E wraps I at 16 bits and always leaves VF = 0: a wrapped sum never exceeds 0xFFF |
| Properties.FontCharGlyph | src/main.rs:285-287 | FX29 points I at the five rows of the glyph of digit VX |
| Properties.JumpOffsetBound | src/main.rs:213-216 | BNNN sets pc to NNN plus V0 (VX under the jump quirk), at most 0x10FE |
| Properties.JumpOffsetLeavesMemory | src/main.rs:213-216 | with V0 = 0xFF, B FFF sets pc to 0x10FE, from where no fetch is possible |
| Properties.SkipImmAdvances | src/main.rs:134-145 | 3XNN sets pc to pc + 2 when VX = NN and leaves it unchanged otherwise; 4XNN the same with VX != NN; nothing else changes |
| Properties.SkipRegAdvances | src/main.rs:146-157 | 5XY0 sets pc to pc + 2 when VX = VY and leaves it unchanged otherwise; 9XY0 the same with VX != VY; nothing else changes |
| Properties.SkipKeyAdvances | src/main.rs:251-256 | EX9E sets pc to pc + 2 when key VX is pressed and leaves it unchanged otherwise; EXA1 the same when key VX is not pressed; nothing else changes |
| Properties.UnknownCycle | src/main.rs:304 | an unknown word is reported iff it matches no pattern, and its cycle only advances pc |
| Properties.DecodeAddProgram | src/main.rs:158-183 | 6A05, 6B03 and 8AB4 decode to the two loads and the add |
| Properties.AddProgramFirst | src/main.rs:158-161 | the first cycle of 6A05 6B03 8AB4 sets VA = 5 |
| Properties.AddProgramSecond | src/main.rs:158-161 | the second cycle sets VB = 3 |
| Properties.AddProgramThird | src/main.rs:179-183 | the third cycle sets VA = 8 and VF = 0 |
| Properties.AddProgram | src/main.rs:308-311 | three cycles of 6A05 6B03 8AB4 leave VA = 8, VB = 3, VF = 0 and pc 6 further on |
| Properties.TickCountsDown | src/main.rs:313-320 | a tick decrements each positive timer, never wraps below 0, and changes nothing else |
| Properties.TicksCountDown | src/main.rs:313-320 | after n ticks each timer is max(t - n, 0) and nothing else has changed |
| Properties.LoadRomKeepsFont | src/main.rs:322-324 | loading a program into a new machine keeps the glyph table intact |

## Left out

- The `main` function: the SDL window, rendering, event pump, frame pacing and the loop of twelve cycles per timer tick are I/O and timing, not interpreter logic.
- `read_rom`: it reads a file. `LoadRom` takes the program bytes directly.
- `key_to_button`: a mapping from SDL key codes. The keypad is input state that the caller sets.
- `rand::random`: CXNN's random byte is a parameter `rnd` of `Execute` and `Cycle`, and the model states the result `rnd & NN`.
- `println!`: for an unknown opcode, the model returns `Status.UnknownOpcode` instead of printing.
- Panics: the Rust program aborts on an out-of-range index, a `u16` `+=`/`-=` overflow, or a stack over- or underflow. The model has no abort state. Each such case is a precondition, so the contracts say nothing about an input that would panic.
- The compile-time constants `SHIFT_QUIRK` and `JUMP_QUIRK`: in the model they are fields of `Quirks`, given at construction, so both settings are verified. The source's setting is `Quirks(false, false)`.
- Stale stack slots: `Interpreter.Stack.Contents` is the slots below the stack pointer. Slots at and above it are never read before being written again, so the state does not include them.
- `&`, `|`, `^`, `>>` and `<<` on `u8` are stated arithmetically: a bit-by-bit recursion, division and remainder by powers of two.
