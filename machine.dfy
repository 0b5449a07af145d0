/** The machine state of the interpreter as a value, and the effect of each
    operation on it: fetch, execute, one cycle, a timer tick, construction
    and program loading.  Every panic site of the Rust code (an index out of
    range, a `u16` `+=`/`-=` that overflows, the stack pointer) becomes a
    precondition, collected per instruction in `Safe`. */
module Machine {
  import opened Bits
  import opened Instructions

  const RamSize: nat := 4096
  const StackSize: nat := 16
  const DisplayWidth: nat := 64
  const DisplayHeight: nat := 32
  const DisplaySize: nat := 2048
  const KeyCount: nat := 16
  const RegisterCount: nat := 16
  /** VF, the flag register. */
  const Flag: Nibble := 0xF
  const StartAddr: nat := 0x200
  const FontAddr: nat := 0x050
  const FontSize: nat := 80

  /** The 16 hexadecimal digit glyphs, five rows of four pixels each. */
  const FontSet: seq<Byte> := [
    0xF0, 0x90, 0x90, 0x90, 0xF0, // 0
    0x20, 0x60, 0x20, 0x20, 0x70, // 1
    0xF0, 0x10, 0xF0, 0x80, 0xF0, // 2
    0xF0, 0x10, 0xF0, 0x10, 0xF0, // 3
    0x90, 0x90, 0xF0, 0x10, 0x10, // 4
    0xF0, 0x80, 0xF0, 0x10, 0xF0, // 5
    0xF0, 0x80, 0xF0, 0x90, 0xF0, // 6
    0xF0, 0x10, 0x20, 0x40, 0x40, // 7
    0xF0, 0x90, 0xF0, 0x90, 0xF0, // 8
    0xF0, 0x90, 0xF0, 0x10, 0xF0, // 9
    0xF0, 0x90, 0xF0, 0x90, 0x90, // A
    0xE0, 0x90, 0xE0, 0x90, 0xE0, // B
    0xF0, 0x80, 0x80, 0x80, 0xF0, // C
    0xE0, 0x90, 0x90, 0x90, 0xE0, // D
    0xF0, 0x80, 0xF0, 0x80, 0xF0, // E
    0xF0, 0x80, 0xF0, 0x80, 0x80  // F
  ]

  /** The two behaviour switches, fixed for the lifetime of a machine:
      `shift` makes 8XY6/8XYE copy VY into VX before shifting, `jump` makes
      BNNN add VX (X the high nibble of NNN) instead of V0. */
  datatype Quirks = Quirks(shift: bool, jump: bool)

  /** What one execution reports: the `println!` of an unknown opcode
      becomes a returned value. */
  datatype Status = Executed | UnknownOpcode(opcode: Word)

  datatype Option<T> = None | Some(value: T)

  /** The observable machine state.  `stack` holds the return addresses
      below the stack pointer, oldest first, so its length is the pointer. */
  datatype State = State(
    display: seq<bool>,
    keypad: seq<bool>,
    ram: seq<Byte>,
    stack: seq<Word>,
    pc: Word,
    i: Word,
    v: seq<Byte>,
    delay: Byte,
    sound: Byte)

  predicate WellFormed(s: State)
  {
    && |s.display| == DisplaySize
    && |s.keypad| == KeyCount
    && |s.ram| == RamSize
    && |s.stack| <= StackSize
    && |s.v| == RegisterCount
  }

  // ---------------------------------------------------------------- fetch

  /** Fetch reads `ram[pc]` and `ram[pc + 1]`. */
  predicate CanFetch(s: State)
  {
    s.pc + 1 < RamSize
  }

  /** The instruction word at pc, big-endian: `(ram[pc] << 8) | ram[pc + 1]`. */
  function FetchWord(s: State): Word
    requires WellFormed(s) && CanFetch(s)
  {
    s.ram[s.pc] as int * 0x100 + s.ram[s.pc + 1]
  }

  /** The state after fetch: pc advanced past the instruction word. */
  function Fetched(s: State): State
    requires CanFetch(s)
  {
    s.(pc := s.pc + 2)
  }

  // ------------------------------------------------------- key wait scan

  /** The lowest pressed key at index `j` or above. */
  function FirstKeyFrom(keys: seq<bool>, j: nat): (r: Option<nat>)
    decreases |keys| - j
  {
    if j >= |keys| then None
    else if keys[j] then Some(j)
    else FirstKeyFrom(keys, j + 1)
  }

  /** The lowest pressed key, scanning 0, 1, ... as FX0A does. */
  function FirstKey(keys: seq<bool>): Option<nat>
  {
    FirstKeyFrom(keys, 0)
  }

  // ------------------------------------------------------------- drawing

  /** `sprite & (0x80 >> col) != 0`: column `col` of a sprite row, most
      significant bit first. */
  predicate SpritePixel(sprite: Byte, col: nat)
    requires col < 8
  {
    BitAnd(sprite, ColumnMask(col)) != 0
  }

  /** `0x80 >> col`, one halving per column. */
  function ColumnMask(col: nat): (m: Byte)
    requires col < 8
    ensures m <= 0x80
  {
    if col == 0 then 0x80 else ColumnMask(col - 1) / 2
  }

  /** Cell `k` of the display is toggled by a sprite of height `n` read from
      `ram[i..]` and drawn at origin (`x0`, `y0`): it lies in the sprite's
      rectangle (clipped, not wrapped, at the display's edges) and its sprite
      bit is set. */
  predicate Flips(ram: seq<Byte>, i: int, n: int, x0: int, y0: int, k: int)
  {
    && 0 <= k < DisplaySize
    && var r := k / DisplayWidth - y0;
    && var c := k % DisplayWidth - x0;
    && 0 <= r < n && 0 <= c < 8 && 0 <= i + r < |ram|
    && SpritePixel(ram[i + r], c)
  }

  /** The display after the sprite draw: every toggled cell flipped. */
  function DrawDisplay(display: seq<bool>, ram: seq<Byte>, i: int, n: int, x0: int, y0: int): seq<bool>
  {
    seq(|display|, k requires 0 <= k < |display| => display[k] != Flips(ram, i, n, x0, y0, k))
  }

  /** Some toggled cell was lit before the draw. */
  ghost predicate Collides(display: seq<bool>, ram: seq<Byte>, i: int, n: int, x0: int, y0: int)
  {
    exists k :: 0 <= k < |display| && Flips(ram, i, n, x0, y0, k) && display[k]
  }

  /** The draw loop reads the sprite byte of a row before it checks whether
      the row is below the display, so it reads rows 0 .. min(n - 1, 32 - y0). */
  predicate DrawSafe(s: State, y: Nibble, n: Nibble)
    requires WellFormed(s)
  {
    var y0 := s.v[y] % DisplayHeight;
    n == 0 || s.i + Min(n - 1, DisplayHeight - y0) < RamSize
  }

  function Min(a: int, b: int): int
  {
    if a <= b then a else b
  }

  // ------------------------------------------------------------- execute

  /** A conditional skip is taken. */
  predicate Skips(s: State, ins: Instr)
    requires WellFormed(s)
    requires (ins.SkipKey? || ins.SkipNotKey?) ==> s.v[ins.x] < KeyCount
  {
    match ins
    case SkipEqImm(x, nn) => s.v[x] == nn
    case SkipNeImm(x, nn) => s.v[x] != nn
    case SkipEqReg(x, y) => s.v[x] == s.v[y]
    case SkipNeReg(x, y) => s.v[x] != s.v[y]
    case SkipKey(x) => s.keypad[s.v[x]]
    case SkipNotKey(x) => !s.keypad[s.v[x]]
    case _ => false
  }

  /** Executing `ins` in state `s` does not panic. */
  predicate Safe(s: State, ins: Instr)
    requires WellFormed(s)
  {
    match ins
    case Return => |s.stack| > 0
    case Call(_) => |s.stack| < StackSize
    case SkipEqImm(_, _) => Skips(s, ins) ==> s.pc + 2 < 0x1_0000
    case SkipNeImm(_, _) => Skips(s, ins) ==> s.pc + 2 < 0x1_0000
    case SkipEqReg(_, _) => Skips(s, ins) ==> s.pc + 2 < 0x1_0000
    case SkipNeReg(_, _) => Skips(s, ins) ==> s.pc + 2 < 0x1_0000
    case SkipKey(x) => s.v[x] < KeyCount && (Skips(s, ins) ==> s.pc + 2 < 0x1_0000)
    case SkipNotKey(x) => s.v[x] < KeyCount && (Skips(s, ins) ==> s.pc + 2 < 0x1_0000)
    case Draw(_, y, n) => DrawSafe(s, y, n)
    case WaitKey(_) => FirstKey(s.keypad).Some? || s.pc >= 2
    case StoreBcd(_) => s.i + 2 < RamSize
    case StoreRegs(x) => s.i + x < RamSize
    case LoadRegs(x) => s.i + x < RamSize
    case _ => true
  }

  function SetReg(s: State, x: Nibble, value: Byte): State
    requires WellFormed(s)
  {
    s.(v := s.v[x := value])
  }

  /** The effect of one instruction.  `rnd` is the random byte CXNN draws.
      The instructions are dispatched by group; an unknown one changes nothing. */
  ghost function Exec(s: State, q: Quirks, ins: Instr, rnd: Byte): (t: State)
    requires WellFormed(s) && Safe(s, ins)
    ensures WellFormed(t)
  {
    if ins.Unknown? then s
    else if IsSkip(ins) then ExecSkip(s, ins)
    else if IsLoadLogic(ins) then ExecRegisters(s, ins, rnd)
    else if IsArith(ins) then ExecArith(s, q, ins)
    else if ins.Draw? then ExecDraw(s, ins.x, ins.y, ins.n)
    else if IsIndexTimer(ins) then ExecIndexTimers(s, ins)
    else if ins.WaitKey? then ExecWaitKey(s, ins.x)
    else if IsMemory(ins) then ExecMemory(s, ins)
    else ExecFlow(s, q, ins)
  }

  /** Clear screen, jumps, call and return. */
  function ExecFlow(s: State, q: Quirks, ins: Instr): (t: State)
    requires WellFormed(s) && Safe(s, ins)
    ensures WellFormed(t)
  {
    match ins
    case ClearScreen => s.(display := seq(DisplaySize, _ => false))
    case Return => s.(pc := s.stack[|s.stack| - 1], stack := s.stack[..|s.stack| - 1])
    case Jump(nnn) => s.(pc := nnn)
    case Call(nnn) => s.(stack := s.stack + [s.pc], pc := nnn)
    case JumpOffset(nnn) =>
      var offset := if q.jump then s.v[nnn / 0x100] else s.v[0];
      s.(pc := offset + nnn)
    case _ => s
  }

  /** The conditional skips: pc moves past the next instruction when taken. */
  function ExecSkip(s: State, ins: Instr): (t: State)
    requires WellFormed(s) && Safe(s, ins) && IsSkip(ins)
    ensures WellFormed(t)
  {
    if Skips(s, ins) then s.(pc := s.pc + 2) else s
  }

  /** 6XNN, 7XNN, 8XY0 to 8XY3 and CXNN: only VX changes. */
  function ExecRegisters(s: State, ins: Instr, rnd: Byte): (t: State)
    requires WellFormed(s) && IsLoadLogic(ins)
    ensures WellFormed(t)
  {
    SetReg(s, ins.x, LoadLogicValue(s.v, ins, rnd))
  }

  /** The value these instructions write into VX. */
  function LoadLogicValue(v: seq<Byte>, ins: Instr, rnd: Byte): Byte
    requires |v| == RegisterCount && IsLoadLogic(ins)
  {
    match ins
    case SetImm(_, nn) => nn
    case AddImm(x, nn) => (v[x] as int + nn) % 0x100
    case Copy(_, y) => v[y]
    case Or(x, y) => BitOr(v[x], v[y])
    case And(x, y) => BitAnd(v[x], v[y])
    case Xor(x, y) => BitXor(v[x], v[y])
    case Random(_, nn) => BitAnd(rnd, nn)
  }

  /** 8XY4 to 8XY7, 8XY6 and 8XYE: VX and the flag VF change.  The adds and
      subtracts write VX before VF; the shifts write VF before VX. */
  function ExecArith(s: State, q: Quirks, ins: Instr): (t: State)
    requires WellFormed(s)
    ensures WellFormed(t)
  {
    match ins
    case AddReg(x, y) =>
      var sum := s.v[x] as int + s.v[y];
      s.(v := s.v[x := sum % 0x100][Flag := if sum > 0xFF then 1 else 0])
    case Sub(x, y) =>
      s.(v := s.v[x := (s.v[x] as int - s.v[y]) % 0x100][Flag := if s.v[x] >= s.v[y] then 1 else 0])
    case SubN(x, y) =>
      s.(v := s.v[x := (s.v[y] as int - s.v[x]) % 0x100][Flag := if s.v[y] >= s.v[x] then 1 else 0])
    case ShiftRight(x, y) =>
      var v1 := if q.shift then s.v[x := s.v[y]] else s.v;
      var v2 := v1[Flag := v1[x] % 2];
      s.(v := v2[x := v2[x] / 2])
    case ShiftLeft(x, y) =>
      var v1 := if q.shift then s.v[x := s.v[y]] else s.v;
      var v2 := v1[Flag := (v1[x] / 0x80) % 2];
      s.(v := v2[x := (v2[x] as int * 2) % 0x100])
    case _ => s
  }

  /** DXYN: the origin is taken before VF is cleared, then VF reports a collision. */
  ghost function ExecDraw(s: State, x: Nibble, y: Nibble, n: Nibble): (t: State)
    requires WellFormed(s)
    ensures WellFormed(t)
  {
    var x0 := s.v[x] % DisplayWidth;
    var y0 := s.v[y] % DisplayHeight;
    var hit := Collides(s.display, s.ram, s.i, n, x0, y0);
    s.(display := DrawDisplay(s.display, s.ram, s.i, n, x0, y0),
       v := s.v[Flag := if hit then 1 else 0])
  }

  /** ANNN and the FX opcodes on the index register and the timers. */
  function ExecIndexTimers(s: State, ins: Instr): (t: State)
    requires WellFormed(s)
    ensures WellFormed(t)
  {
    match ins
    case SetIndex(nnn) => s.(i := nnn)
    case GetDelay(x) => SetReg(s, x, s.delay)
    case SetDelay(x) => s.(delay := s.v[x])
    case SetSound(x) => s.(sound := s.v[x])
    case AddIndex(x) =>
      var sum := s.i as int + s.v[x];
      var overflow := sum > 0xFFFF;
      var i := sum % 0x1_0000;
      s.(i := i, v := s.v[Flag := if overflow && i > 0xFFF then 1 else 0])
    case FontChar(x) => s.(i := FontAddr + s.v[x] as int * 5)
    case _ => s
  }

  /** FX0A: store the lowest pressed key, or step pc back onto this instruction. */
  function ExecWaitKey(s: State, x: Nibble): (t: State)
    requires WellFormed(s) && (FirstKey(s.keypad).Some? || s.pc >= 2)
    ensures WellFormed(t)
  {
    FirstKeyBound(s.keypad, 0);
    var key := FirstKey(s.keypad);
    if key.Some? then SetReg(s, x, key.value) else s.(pc := s.pc - 2)
  }

  /** FX33, FX55 and FX65. */
  function ExecMemory(s: State, ins: Instr): (t: State)
    requires WellFormed(s) && Safe(s, ins)
    ensures WellFormed(t)
  {
    match ins
    case StoreBcd(x) =>
      var n := s.v[x];
      s.(ram := s.ram[s.i := n % 10][s.i + 1 := (n / 10) % 10][s.i + 2 := n / 100])
    case StoreRegs(x) => s.(ram := CopyInto(s.ram, s.i, s.v[..x + 1]))
    case LoadRegs(x) => s.(v := CopyInto(s.v, 0, s.ram[s.i..s.i + x + 1]))
    case _ => s
  }

  /** FX55 copies V0 .. VX over memory from I on. */
  lemma ExecStoreRegs(s: State, x: Nibble)
    requires WellFormed(s) && s.i + x < RamSize
    ensures ExecMemory(s, StoreRegs(x)) == s.(ram := CopyInto(s.ram, s.i, s.v[..x + 1]))
  {
  }

  /** FX65 copies memory from I on over V0 .. VX. */
  lemma ExecLoadRegs(s: State, x: Nibble)
    requires WellFormed(s) && s.i + x < RamSize
    ensures ExecMemory(s, LoadRegs(x)) == s.(v := CopyInto(s.v, 0, s.ram[s.i..s.i + x + 1]))
  {
  }

  lemma {:induction false} FirstKeyBound(keys: seq<bool>, j: nat)
    ensures FirstKeyFrom(keys, j).Some? ==> j <= FirstKeyFrom(keys, j).value < |keys|
    decreases |keys| - j
  {
    if j < |keys| && !keys[j] {
      FirstKeyBound(keys, j + 1);
    }
  }

  function StatusOf(opcode: Word): Status
  {
    if Decode(opcode).Unknown? then UnknownOpcode(opcode) else Executed
  }

  // --------------------------------------------------------------- cycle

  /** One cycle can run without a panic: fetch is in range and so is the
      fetched instruction in the state after fetch. */
  predicate CanCycle(s: State)
    requires WellFormed(s)
  {
    CanFetch(s) && Safe(Fetched(s), Decode(FetchWord(s)))
  }

  /** One cycle: fetch, then execute the fetched word. */
  ghost function Cycle(s: State, q: Quirks, rnd: Byte): (t: State)
    requires WellFormed(s) && CanCycle(s)
    ensures WellFormed(t)
  {
    Exec(Fetched(s), q, Decode(FetchWord(s)), rnd)
  }

  // -------------------------------------------------------------- timers

  function TickTimer(t: Byte): Byte
  {
    if t > 0 then t - 1 else 0
  }

  /** The once-per-frame timer tick. */
  function Tick(s: State): State
  {
    s.(delay := TickTimer(s.delay), sound := TickTimer(s.sound))
  }

  // ------------------------------------------------- construction, loading

  /** Zeroed memory with the glyph table at FontAddr. */
  function InitialRam(): (r: seq<Byte>)
    ensures |r| == RamSize
    ensures forall a :: 0 <= a < RamSize ==>
      r[a] == if FontAddr <= a < FontAddr + FontSize then FontSet[a - FontAddr] else 0
  {
    CopyIntoAt(seq(RamSize, _ => 0), FontAddr, FontSet);
    CopyInto(seq(RamSize, _ => 0), FontAddr, FontSet)
  }

  /** The state of a new machine. */
  function Initial(): State
  {
    State(seq(DisplaySize, _ => false), seq(KeyCount, _ => false), InitialRam(), [],
          StartAddr, 0, seq(RegisterCount, _ => 0), 0, 0)
  }

  /** The program bytes copied to memory from StartAddr on. */
  function LoadRom(s: State, rom: seq<Byte>): (t: State)
    requires WellFormed(s) && |rom| <= RamSize - StartAddr
    ensures WellFormed(t) && t == s.(ram := t.ram)
    ensures forall a :: 0 <= a < RamSize ==>
      t.ram[a] == if StartAddr <= a < StartAddr + |rom| then rom[a - StartAddr] else s.ram[a]
  {
    CopyIntoAt(s.ram, StartAddr, rom);
    s.(ram := CopyInto(s.ram, StartAddr, rom))
  }

  /** `dst` with `src` copied over it from index `at` on, as a slice copy does. */
  function CopyInto(dst: seq<Byte>, at: nat, src: seq<Byte>): (r: seq<Byte>)
    requires at + |src| <= |dst|
    ensures |r| == |dst|
  {
    dst[..at] + src + dst[at + |src|..]
  }

  /** After a slice copy the addresses `at .. at + |src| - 1` hold `src`
      and every other address keeps its value. */
  lemma CopyIntoAt(dst: seq<Byte>, at: nat, src: seq<Byte>)
    requires at + |src| <= |dst|
    ensures forall a :: 0 <= a < |dst| ==>
      CopyInto(dst, at, src)[a] == if at <= a < at + |src| then src[a - at] else dst[a]
  {
  }
}
