/** The interpreter as the Rust program has it: a `Stack` object and a
    `Chip8` object whose fixed-size arrays and registers each operation
    updates in place.  Every method is proved against the value-level
    semantics of module Machine through the abstraction `Chip8.Abs()`. */
module Interpreter {
  import opened Bits
  import opened Instructions
  import opened Machine

  /** The return-address stack: 16 slots and a pointer to the next free one. */
  class Stack {
    const data: array<Word>
    var stackPtr: nat

    ghost predicate Valid()
      reads this
    {
      data.Length == StackSize && stackPtr <= StackSize
    }

    /** The addresses below the pointer, oldest first.  Slots at and above
        the pointer are never read before they are written again. */
    ghost function Contents(): seq<Word>
      reads this, data
      requires Valid()
    {
      data[..stackPtr]
    }

    constructor ()
      ensures Valid() && fresh(data) && Contents() == []
    {
      data := new Word[StackSize](_ => 0);
      stackPtr := 0;
    }

    /** Writes at the pointer, then increments it; a full stack panics. */
    method Push(addr: Word)
      requires Valid() && stackPtr < StackSize
      modifies this, data
      ensures Valid() && Contents() == old(Contents()) + [addr]
    {
      data[stackPtr] := addr;
      stackPtr := stackPtr + 1;
    }

    /** Decrements the pointer, then reads at it; an empty stack panics. */
    method Pop() returns (addr: Word)
      requires Valid() && stackPtr > 0
      modifies this
      ensures Valid()
      ensures addr == old(Contents())[|old(Contents())| - 1]
      ensures Contents() == old(Contents())[..|old(Contents())| - 1]
    {
      stackPtr := stackPtr - 1;
      addr := data[stackPtr];
    }
  }

  class Chip8 {
    const quirks: Quirks
    /** 64 x 32 cells, row-major. */
    const display: array<bool>
    const keypad: array<bool>
    const ram: array<Byte>
    const stack: Stack
    /** V0 .. VF. */
    const v: array<Byte>
    var pc: Word
    var iReg: Word
    var delayTimer: Byte
    var soundTimer: Byte

    ghost predicate Valid()
      reads this, stack
    {
      && display.Length == DisplaySize
      && keypad.Length == KeyCount
      && ram.Length == RamSize
      && v.Length == RegisterCount
      && display != keypad
      && ram != v
      && stack.Valid()
    }

    /** The machine state this object represents. */
    ghost function Abs(): (s: State)
      reads this, display, keypad, ram, v, stack, stack.data
      requires Valid()
      ensures WellFormed(s)
    {
      State(display[..], keypad[..], ram[..], stack.Contents(), pc, iReg, v[..], delayTimer, soundTimer)
    }

    /** A new machine with the glyph table loaded and pc at StartAddr. */
    constructor (quirks: Quirks)
      ensures Valid() && this.quirks == quirks && Abs() == Initial()
      ensures fresh(display) && fresh(keypad) && fresh(ram) && fresh(v)
      ensures fresh(stack) && fresh(stack.data)
    {
      this.quirks := quirks;
      display := new bool[DisplaySize](_ => false);
      keypad := new bool[KeyCount](_ => false);
      ram := new Byte[RamSize](_ => 0);
      stack := new Stack();
      v := new Byte[RegisterCount](_ => 0);
      pc := StartAddr;
      iReg := 0;
      delayTimer := 0;
      soundTimer := 0;
      new;
      forall k | 0 <= k < FontSize {
        ram[FontAddr + k] := FontSet[k];
      }
      assert ram[..] == InitialRam();
    }

    /** Reads the big-endian word at pc and advances pc by 2. */
    method Fetch() returns (opcode: Word)
      requires Valid() && CanFetch(Abs())
      modifies this
      ensures Valid()
      ensures opcode == FetchWord(old(Abs()))
      ensures Abs() == Fetched(old(Abs()))
    {
      opcode := ram[pc] as int * 0x100 + ram[pc + 1];
      pc := pc + 2;
    }

    /** Executes one instruction word; an unknown word changes nothing and
        is reported. */
    method Execute(opcode: Word, rnd: Byte) returns (status: Status)
      requires Valid() && Safe(Abs(), Decode(opcode))
      modifies this, display, ram, v, stack, stack.data
      ensures Valid()
      ensures Abs() == Exec(old(Abs()), quirks, Decode(opcode), rnd)
      ensures status == StatusOf(opcode)
    {
      var ins := Decode(opcode);
      status := Executed;
      if ins.Unknown? {
        status := UnknownOpcode(opcode);
      } else if IsSkip(ins) {
        ExecuteSkip(ins);
      } else if IsLoadLogic(ins) {
        ExecuteRegisters(ins, rnd);
      } else if ins.ShiftRight? || ins.ShiftLeft? {
        ExecuteShift(ins);
      } else if ins.AddReg? {
        AddRegisters(ins.x, ins.y);
      } else if ins.Sub? || ins.SubN? {
        SubtractRegisters(ins.x, ins.y, ins.SubN?);
      } else if ins.Draw? {
        DrawSprite(ins.x, ins.y, ins.n);
      } else if IsIndexTimer(ins) {
        ExecuteIndexTimers(ins);
      } else if ins.WaitKey? {
        WaitForKey(ins.x);
      } else if IsMemory(ins) {
        ExecuteMemory(ins);
      } else {
        ExecuteFlow(ins);
      }
    }

    /** Fetch, then execute. */
    method Cycle(rnd: Byte) returns (status: Status)
      requires Valid() && CanCycle(Abs())
      modifies this, display, ram, v, stack, stack.data
      ensures Valid()
      ensures Abs() == Machine.Cycle(old(Abs()), quirks, rnd)
      ensures status == StatusOf(FetchWord(old(Abs())))
    {
      var opcode := Fetch();
      status := Execute(opcode, rnd);
    }

    /** Decrements each timer that is above zero. */
    method TimerTick()
      requires Valid()
      modifies this
      ensures Valid() && Abs() == Tick(old(Abs()))
    {
      if delayTimer > 0 {
        delayTimer := delayTimer - 1;
      }
      if soundTimer > 0 {
        soundTimer := soundTimer - 1;
      }
    }

    /** Copies the program into memory from StartAddr on; a program longer
        than the space above StartAddr panics. */
    method LoadRom(rom: seq<Byte>)
      requires Valid() && |rom| <= RamSize - StartAddr
      modifies ram
      ensures Valid() && Abs() == Machine.LoadRom(old(Abs()), rom)
    {
      for k := 0 to |rom|
        invariant forall a :: 0 <= a < RamSize ==>
          ram[a] == if StartAddr <= a < StartAddr + k then rom[a - StartAddr] else old(ram[a])
      {
        ram[StartAddr + k] := rom[k];
      }
      CopyIntoAt(old(ram[..]), StartAddr, rom);
      assert ram[..] == CopyInto(old(ram[..]), StartAddr, rom);
    }

    // ---------------------------------------- the arms of execute, by group

    method ExecuteFlow(ins: Instr)
      requires Valid() && Safe(Abs(), ins)
      modifies this, display, stack, stack.data
      ensures Valid() && Abs() == ExecFlow(old(Abs()), quirks, ins)
    {
      match ins {
        case ClearScreen =>
          ClearDisplay();
        case Return =>
          ReturnFromSubroutine();
        case Jump(nnn) =>
          pc := nnn;
        case Call(nnn) =>
          CallSubroutine(nnn);
        case JumpOffset(nnn) =>
          var offset := if quirks.jump then v[nnn / 0x100] else v[0];
          pc := offset + nnn;
        case _ =>
      }
    }

    /** 00EE: pop the return address into pc. */
    method ReturnFromSubroutine()
      requires Valid() && Safe(Abs(), Return)
      modifies this, stack, stack.data
      ensures Valid() && Abs() == ExecFlow(old(Abs()), quirks, Return)
    {
      pc := stack.Pop();
    }

    /** 2NNN: push pc, then jump to NNN. */
    method CallSubroutine(nnn: Addr)
      requires Valid() && Safe(Abs(), Call(nnn))
      modifies this, stack, stack.data
      ensures Valid() && Abs() == ExecFlow(old(Abs()), quirks, Call(nnn))
    {
      stack.Push(pc);
      pc := nnn;
    }

    /** 00E0: every cell dark. */
    method ClearDisplay()
      requires Valid()
      modifies display
      ensures Valid() && Abs() == old(Abs()).(display := seq(DisplaySize, _ => false))
    {
      forall k | 0 <= k < display.Length {
        display[k] := false;
      }
      assert display[..] == seq(DisplaySize, _ => false);
    }

    method ExecuteSkip(ins: Instr)
      requires Valid() && Safe(Abs(), ins) && IsSkip(ins)
      modifies this
      ensures Valid() && Abs() == ExecSkip(old(Abs()), ins)
    {
      match ins {
        case SkipEqImm(x, nn) =>
          if v[x] == nn {
            pc := pc + 2;
          }
        case SkipNeImm(x, nn) =>
          if v[x] != nn {
            pc := pc + 2;
          }
        case SkipEqReg(x, y) =>
          if v[x] == v[y] {
            pc := pc + 2;
          }
        case SkipNeReg(x, y) =>
          if v[x] != v[y] {
            pc := pc + 2;
          }
        case SkipKey(x) =>
          if keypad[v[x]] {
            pc := pc + 2;
          }
        case SkipNotKey(x) =>
          if !keypad[v[x]] {
            pc := pc + 2;
          }
      }
    }

    method ExecuteRegisters(ins: Instr, rnd: Byte)
      requires Valid() && IsLoadLogic(ins)
      modifies v
      ensures Valid() && Abs() == ExecRegisters(old(Abs()), ins, rnd)
    {
      var value := LoadLogicResult(ins, rnd);
      SetRegister(ins.x, value);
    }

    /** The value 6XNN, 7XNN, 8XY0 to 8XY3 and CXNN write into VX. */
    method LoadLogicResult(ins: Instr, rnd: Byte) returns (value: Byte)
      requires Valid() && IsLoadLogic(ins)
      ensures value == LoadLogicValue(v[..], ins, rnd)
    {
      match ins {
        case SetImm(_, nn) =>
          value := nn;
        case AddImm(x, nn) =>
          value := (v[x] as int + nn) % 0x100;
        case Copy(_, y) =>
          value := v[y];
        case Or(x, y) =>
          value := BitOr(v[x], v[y]);
        case And(x, y) =>
          value := BitAnd(v[x], v[y]);
        case Xor(x, y) =>
          value := BitXor(v[x], v[y]);
        case Random(_, nn) =>
          value := BitAnd(rnd, nn);
      }
    }

    /** `self.v[x] = value`. */
    method SetRegister(x: Nibble, value: Byte)
      requires Valid()
      modifies v
      ensures Valid() && Abs() == SetReg(old(Abs()), x, value)
    {
      v[x] := value;
    }

    /** 8XY4: VX is written first, then the carry in VF. */
    method AddRegisters(x: Nibble, y: Nibble)
      requires Valid()
      modifies v
      ensures Valid() && Abs() == ExecArith(old(Abs()), quirks, AddReg(x, y))
    {
      var sum := v[x] as int + v[y];
      v[x] := sum % 0x100;
      v[Flag] := if sum > 0xFF then 1 else 0;
    }

    /** 8XY5 (`swap` false) and 8XY7 (`swap` true): VX is written first,
        then VF = 1 iff there was no borrow. */
    method SubtractRegisters(x: Nibble, y: Nibble, swap: bool)
      requires Valid()
      modifies v
      ensures Valid() && Abs() == ExecArith(old(Abs()), quirks, if swap then SubN(x, y) else Sub(x, y))
    {
      var a, b := if swap then v[y] else v[x], if swap then v[x] else v[y];
      v[x] := (a as int - b) % 0x100;
      v[Flag] := if a >= b then 1 else 0;
    }

    /** 8XY6 and 8XYE: VF receives the bit shifted out, then VX is shifted. */
    method ExecuteShift(ins: Instr)
      requires Valid() && (ins.ShiftRight? || ins.ShiftLeft?)
      modifies v
      ensures Valid() && Abs() == ExecArith(old(Abs()), quirks, ins)
    {
      if ins.ShiftRight? {
        ShiftRightRegister(ins.x, ins.y);
      } else {
        ShiftLeftRegister(ins.x, ins.y);
      }
    }

    /** 8XY6: under the shift quirk VX first takes VY. */
    method ShiftRightRegister(x: Nibble, y: Nibble)
      requires Valid()
      modifies v
      ensures Valid() && Abs() == ExecArith(old(Abs()), quirks, ShiftRight(x, y))
    {
      if quirks.shift {
        v[x] := v[y];
      }
      v[Flag] := v[x] % 2;
      v[x] := v[x] / 2;
    }

    /** 8XYE: under the shift quirk VX first takes VY. */
    method ShiftLeftRegister(x: Nibble, y: Nibble)
      requires Valid()
      modifies v
      ensures Valid() && Abs() == ExecArith(old(Abs()), quirks, ShiftLeft(x, y))
    {
      if quirks.shift {
        v[x] := v[y];
      }
      v[Flag] := (v[x] / 0x80) % 2;
      v[x] := (v[x] as int * 2) % 0x100;
    }

    method ExecuteIndexTimers(ins: Instr)
      requires Valid() && IsIndexTimer(ins)
      modifies this, v
      ensures Valid() && Abs() == ExecIndexTimers(old(Abs()), ins)
    {
      if ins.AddIndex? {
        AddToIndex(ins.x);
      } else if ins.SetIndex? {
        iReg := ins.nnn;
      } else if ins.FontChar? {
        iReg := FontAddr + v[ins.x] as int * 5;
      } else {
        ExecuteTimers(ins);
      }
    }

    /** FX1E: I += VX in 16 bits; VF is set only when the 16-bit sum wrapped
        and the wrapped value is still above 0xFFF. */
    method AddToIndex(x: Nibble)
      requires Valid()
      modifies this, v
      ensures Valid() && Abs() == ExecIndexTimers(old(Abs()), AddIndex(x))
    {
      var sum := iReg as int + v[x];
      var overflow := sum > 0xFFFF;
      iReg := sum % 0x1_0000;
      v[Flag] := if overflow && iReg > 0xFFF then 1 else 0;
    }

    /** FX07, FX15 and FX18: copies between VX and the timers. */
    method ExecuteTimers(ins: Instr)
      requires Valid() && (ins.GetDelay? || ins.SetDelay? || ins.SetSound?)
      modifies this, v
      ensures Valid() && Abs() == ExecIndexTimers(old(Abs()), ins)
    {
      match ins {
        case GetDelay(x) =>
          v[x] := delayTimer;
        case SetDelay(x) =>
          delayTimer := v[x];
        case SetSound(x) =>
          soundTimer := v[x];
      }
    }

    method ExecuteMemory(ins: Instr)
      requires Valid() && Safe(Abs(), ins)
      modifies ram, v
      ensures Valid() && Abs() == ExecMemory(old(Abs()), ins)
    {
      match ins {
        case StoreBcd(x) => WriteBcd(x);
        case StoreRegs(x) => StoreRegisters(x);
        case LoadRegs(x) => LoadRegisters(x);
        case _ =>
      }
    }

    /** FX33: ones digit at I, tens at I + 1, hundreds at I + 2. */
    method WriteBcd(x: Nibble)
      requires Valid() && iReg + 2 < RamSize
      modifies ram
      ensures Valid() && Abs() == ExecMemory(old(Abs()), StoreBcd(x))
    {
      var n := v[x];
      ram[iReg] := n % 10;
      ram[iReg + 1] := (n / 10) % 10;
      ram[iReg + 2] := n / 100;
    }

    /** FX55: V0 .. VX to `ram[I..I + X]`, in ascending order. */
    method StoreRegisters(x: Nibble)
      requires Valid() && iReg + x < RamSize
      modifies ram
      ensures Valid() && Abs() == ExecMemory(old(Abs()), StoreRegs(x))
    {
      for k := 0 to x + 1
        invariant forall a :: 0 <= a < RamSize ==> ram[a] == if iReg <= a < iReg + k then v[a - iReg] else old(ram[a])
      {
        ram[iReg + k] := v[k];
      }
      CopyIntoAt(old(ram[..]), iReg, v[..x + 1]);
      assert ram[..] == CopyInto(old(ram[..]), iReg, v[..x + 1]);
      ExecStoreRegs(old(Abs()), x);
    }

    /** FX65: `ram[I..I + X]` to V0 .. VX, in ascending order. */
    method LoadRegisters(x: Nibble)
      requires Valid() && iReg + x < RamSize
      modifies v
      ensures Valid() && Abs() == ExecMemory(old(Abs()), LoadRegs(x))
    {
      for k := 0 to x + 1
        invariant forall j :: 0 <= j < RegisterCount ==> v[j] == if j < k then ram[iReg + j] else old(v[j])
      {
        v[k] := ram[iReg + k];
      }
      CopyIntoAt(old(v[..]), 0, ram[iReg..iReg + x + 1]);
      assert v[..] == CopyInto(old(v[..]), 0, ram[iReg..iReg + x + 1]);
      ExecLoadRegs(old(Abs()), x);
    }

    /** FX0A: scan the keys in ascending order; with none pressed, step pc
        back so that the next cycle fetches this instruction again. */
    method WaitForKey(x: Nibble)
      requires Valid() && Safe(Abs(), WaitKey(x))
      modifies this, v
      ensures Valid() && Abs() == ExecWaitKey(old(Abs()), x)
    {
      var pressed := false;
      var k := 0;
      while k < KeyCount
        invariant 0 <= k <= KeyCount
        invariant forall j :: 0 <= j < k ==> !keypad[j]
        invariant FirstKey(keypad[..]) == FirstKeyFrom(keypad[..], k)
        invariant v[..] == old(v[..]) && !pressed
      {
        if keypad[k] {
          v[x] := k;
          pressed := true;
          break;
        }
        k := k + 1;
      }
      if !pressed {
        pc := pc - 2;
      }
    }

    /** DXYN: XOR a sprite of `n` rows from `ram[iReg..]` onto the display at
        (VX mod 64, VY mod 32), clipping at the right and bottom edges; VF
        ends as 1 iff some cell that was lit is toggled. */
    method DrawSprite(x: Nibble, y: Nibble, n: Nibble)
      requires Valid() && DrawSafe(Abs(), y, n)
      modifies display, v
      ensures Valid() && Abs() == ExecDraw(old(Abs()), x, y, n)
    {
      var x0 := v[x] % DisplayWidth;
      var y0 := v[y] % DisplayHeight;
      v[Flag] := 0;
      ghost var before := display[..];
      ghost var regs := old(v[..]);
      ghost var hit := false;
      DrawStart(before, ram[..], iReg, n, x0, y0);
      var row := 0;
      while row < n
        invariant 0 <= row <= n && y0 + row <= DisplayHeight
        invariant display[..] == DrawnSoFar(before, ram[..], iReg, n, x0, y0, row, 0)
        invariant hit == HitSoFar(before, ram[..], iReg, n, x0, y0, row, 0)
        invariant v[..] == regs[Flag := if hit then 1 else 0]
      {
        assert row <= Min(n - 1, DisplayHeight - y0);
        var sprite := ram[iReg + row];
        if y0 + row >= DisplayHeight {
          break;
        }
        hit := DrawRow(sprite, x0, y0, row, n, before, regs, hit);
        row := row + 1;
      }
      DrawEnd(before, ram[..], iReg, n, x0, y0, row);
    }

    /** One row of DXYN: toggle the row's cells left to right, stopping at
        the right edge, and raise VF on a lit cell that is toggled. */
    method DrawRow(sprite: Byte, x0: int, y0: int, row: int, n: int,
                   ghost before: seq<bool>, ghost regs: seq<Byte>, ghost hit0: bool)
      returns (ghost hit: bool)
      requires Valid() && |before| == DisplaySize && |regs| == RegisterCount
      requires 0 <= x0 < DisplayWidth && 0 <= y0 && 0 <= row < n && y0 + row < DisplayHeight
      requires 0 <= iReg + row < RamSize && sprite == ram[iReg + row]
      requires display[..] == DrawnSoFar(before, ram[..], iReg, n, x0, y0, row, 0)
      requires hit0 == HitSoFar(before, ram[..], iReg, n, x0, y0, row, 0)
      requires v[..] == regs[Flag := if hit0 then 1 else 0]
      modifies display, v
      ensures display[..] == DrawnSoFar(before, ram[..], iReg, n, x0, y0, row + 1, 0)
      ensures hit == HitSoFar(before, ram[..], iReg, n, x0, y0, row + 1, 0)
      ensures v[..] == regs[Flag := if hit then 1 else 0]
    {
      ghost var mem, i := ram[..], iReg;
      assert mem[i + row] == sprite;
      hit := hit0;
      var col := 0;
      while col < 8
        invariant 0 <= col <= 8 && x0 + col <= DisplayWidth
        invariant display[..] == DrawnSoFar(before, mem, i, n, x0, y0, row, col)
        invariant hit == HitSoFar(before, mem, i, n, x0, y0, row, col)
        invariant v[..] == regs[Flag := if hit then 1 else 0]
      {
        if x0 + col >= DisplayWidth {
          break;
        }
        var idx := (y0 + row) * DisplayWidth + (x0 + col);
        hit := DrawCell(idx, SpritePixel(sprite, col), before, mem, i, n, x0, y0, row, col, regs, hit);
        col := col + 1;
      }
      DrawRowEnd(before, mem, i, n, x0, y0, row, col);
    }

    /** One cell of DXYN: when its sprite bit is set, raise VF if the cell is
        lit, then toggle it.  This handles the cell at (`row`, `col`) of the
        draw loop. */
    method DrawCell(idx: int, pixel: bool, ghost before: seq<bool>, ghost mem: seq<Byte>, ghost i: int,
                    ghost n: int, ghost x0: int, ghost y0: int, ghost row: int, ghost col: int,
                    ghost regs: seq<Byte>, ghost hit0: bool)
      returns (ghost hit: bool)
      requires Valid() && |before| == DisplaySize && |regs| == RegisterCount && 0 <= x0 && 0 <= y0
      requires 0 <= row < n && 0 <= col < 8 && 0 <= i + row < |mem| && pixel == SpritePixel(mem[i + row], col)
      requires y0 + row < DisplayHeight && x0 + col < DisplayWidth
      requires idx == (y0 + row) * DisplayWidth + (x0 + col)
      requires display[..] == DrawnSoFar(before, mem, i, n, x0, y0, row, col)
      requires hit0 == HitSoFar(before, mem, i, n, x0, y0, row, col)
      requires v[..] == regs[Flag := if hit0 then 1 else 0]
      modifies display, v
      ensures display[..] == DrawnSoFar(before, mem, i, n, x0, y0, row, col + 1)
      ensures hit == HitSoFar(before, mem, i, n, x0, y0, row, col + 1)
      ensures v[..] == regs[Flag := if hit then 1 else 0]
    {
      DrawStep(before, mem, i, n, x0, y0, row, col, mem[i + row], idx, display[..]);
      hit := hit0 || (pixel && display[idx]);
      if pixel {
        if display[idx] {
          v[Flag] := 1;
        }
        display[idx] := !display[idx];
      }
    }
  }

  /** The display after the draw loop has handled every sprite cell before
      position (`row`, `col`). */
  ghost function DrawnSoFar(before: seq<bool>, ram: seq<Byte>, i: int, n: int, x0: int, y0: int, row: int, col: int): seq<bool>
  {
    seq(|before|, k requires 0 <= k < |before| =>
      before[k] != (Flips(ram, i, n, x0, y0, k) && Done(k, x0, y0, row, col)))
  }

  /** Some cell handled before position (`row`, `col`) was toggled while lit. */
  ghost predicate HitSoFar(before: seq<bool>, ram: seq<Byte>, i: int, n: int, x0: int, y0: int, row: int, col: int)
  {
    exists k :: 0 <= k < |before| && Flips(ram, i, n, x0, y0, k) && Done(k, x0, y0, row, col) && before[k]
  }

  lemma DrawStart(before: seq<bool>, ram: seq<Byte>, i: int, n: int, x0: int, y0: int)
    requires 0 <= x0 && 0 <= y0
    ensures DrawnSoFar(before, ram, i, n, x0, y0, 0, 0) == before
    ensures !HitSoFar(before, ram, i, n, x0, y0, 0, 0)
  {
  }

  /** One step of the inner loop: the cell `idx` at (`row`, `col`) is
      toggled iff its sprite bit is set, and it is still as it was before the
      draw. */
  lemma DrawStep(before: seq<bool>, ram: seq<Byte>, i: int, n: int, x0: int, y0: int, row: int, col: int,
                 sprite: Byte, idx: int, drawn: seq<bool>)
    requires |before| == DisplaySize && 0 <= x0 && 0 <= y0
    requires 0 <= row < n && 0 <= col < 8 && 0 <= i + row < |ram| && sprite == ram[i + row]
    requires y0 + row < DisplayHeight && x0 + col < DisplayWidth
    requires idx == (y0 + row) * DisplayWidth + (x0 + col)
    requires drawn == DrawnSoFar(before, ram, i, n, x0, y0, row, col)
    ensures 0 <= idx < |drawn| && drawn[idx] == before[idx]
    ensures DrawnSoFar(before, ram, i, n, x0, y0, row, col + 1)
      == if SpritePixel(sprite, col) then drawn[idx := !drawn[idx]] else drawn
    ensures HitSoFar(before, ram, i, n, x0, y0, row, col + 1)
      <==> HitSoFar(before, ram, i, n, x0, y0, row, col) || (SpritePixel(sprite, col) && before[idx])
  {
    CellCoordinates(y0 + row, x0 + col);
    assert Flips(ram, i, n, x0, y0, idx) == SpritePixel(ram[i + row], col);
    assert !Done(idx, x0, y0, row, col) && Done(idx, x0, y0, row, col + 1);
    DoneStep(x0, y0, row, col, idx);
    DrawnStep(before, ram, i, n, x0, y0, row, col, idx);
    HitStep(before, ram, i, n, x0, y0, row, col, idx);
  }

  lemma CellCoordinates(r: int, c: int)
    requires 0 <= r < DisplayHeight && 0 <= c < DisplayWidth
    ensures 0 <= r * DisplayWidth + c < DisplaySize
    ensures (r * DisplayWidth + c) / DisplayWidth == r
    ensures (r * DisplayWidth + c) % DisplayWidth == c
  {
  }

  /** Only the cell at (`row`, `col`) changes from not handled to handled. */
  lemma DoneStep(x0: int, y0: int, row: int, col: int, idx: int)
    requires idx / DisplayWidth - y0 == row && idx % DisplayWidth - x0 == col
    ensures forall k :: k != idx ==> Done(k, x0, y0, row, col + 1) == Done(k, x0, y0, row, col)
  {
    forall k | k != idx
      ensures Done(k, x0, y0, row, col + 1) == Done(k, x0, y0, row, col)
    {
    }
  }

  lemma DrawnStep(before: seq<bool>, ram: seq<Byte>, i: int, n: int, x0: int, y0: int, row: int, col: int, idx: int)
    requires 0 <= idx < |before|
    requires !Done(idx, x0, y0, row, col) && Done(idx, x0, y0, row, col + 1)
    requires forall k :: k != idx ==> Done(k, x0, y0, row, col + 1) == Done(k, x0, y0, row, col)
    ensures var cur := DrawnSoFar(before, ram, i, n, x0, y0, row, col);
      && cur[idx] == before[idx]
      && DrawnSoFar(before, ram, i, n, x0, y0, row, col + 1)
         == (if Flips(ram, i, n, x0, y0, idx) then cur[idx := !cur[idx]] else cur)
  {
  }

  lemma HitStep(before: seq<bool>, ram: seq<Byte>, i: int, n: int, x0: int, y0: int, row: int, col: int, idx: int)
    requires 0 <= idx < |before|
    requires !Done(idx, x0, y0, row, col) && Done(idx, x0, y0, row, col + 1)
    requires forall k :: k != idx ==> Done(k, x0, y0, row, col + 1) == Done(k, x0, y0, row, col)
    ensures HitSoFar(before, ram, i, n, x0, y0, row, col + 1)
        <==> HitSoFar(before, ram, i, n, x0, y0, row, col) || (Flips(ram, i, n, x0, y0, idx) && before[idx])
  {
    if HitSoFar(before, ram, i, n, x0, y0, row, col + 1) {
      var k :| 0 <= k < |before| && Flips(ram, i, n, x0, y0, k) && Done(k, x0, y0, row, col + 1) && before[k];
      if k != idx {
        assert Done(k, x0, y0, row, col);
      }
    }
    if HitSoFar(before, ram, i, n, x0, y0, row, col) {
      var k :| 0 <= k < |before| && Flips(ram, i, n, x0, y0, k) && Done(k, x0, y0, row, col) && before[k];
      assert k != idx;
      assert Done(k, x0, y0, row, col + 1);
    }
  }

  /** At the end of a row, every cell of the row has been handled. */
  lemma DrawRowEnd(before: seq<bool>, ram: seq<Byte>, i: int, n: int, x0: int, y0: int, row: int, col: int)
    requires 0 <= x0 && 0 <= col <= 8 && (col == 8 || x0 + col >= DisplayWidth)
    ensures DrawnSoFar(before, ram, i, n, x0, y0, row, col) == DrawnSoFar(before, ram, i, n, x0, y0, row + 1, 0)
    ensures HitSoFar(before, ram, i, n, x0, y0, row, col) == HitSoFar(before, ram, i, n, x0, y0, row + 1, 0)
  {
    forall k | 0 <= k < |before| && Flips(ram, i, n, x0, y0, k)
      ensures Done(k, x0, y0, row, col) == Done(k, x0, y0, row + 1, 0)
    {
    }
  }

  /** When the rows run out or reach the bottom edge, the draw is complete. */
  lemma DrawEnd(before: seq<bool>, ram: seq<Byte>, i: int, n: int, x0: int, y0: int, row: int)
    requires 0 <= y0 && (row >= n || y0 + row >= DisplayHeight)
    ensures DrawnSoFar(before, ram, i, n, x0, y0, row, 0) == DrawDisplay(before, ram, i, n, x0, y0)
    ensures HitSoFar(before, ram, i, n, x0, y0, row, 0) == Collides(before, ram, i, n, x0, y0)
  {
    forall k | 0 <= k < |before| && Flips(ram, i, n, x0, y0, k)
      ensures Done(k, x0, y0, row, 0)
    {
    }
  }

  /** Cell `k` comes before position (`row`, `col`) of the sprite in the
      draw loop's row-by-row, left-to-right order. */
  ghost predicate Done(k: int, x0: int, y0: int, row: int, col: int)
  {
    var r := k / DisplayWidth - y0;
    r < row || (r == row && k % DisplayWidth - x0 < col)
  }
}
