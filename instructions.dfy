/** Instruction words and their decoding: the nibble split of `Chip8::execute`
    and the order of its match arms, given a name per opcode. */
module Instructions {
  import opened Bits

  /** A register selector or a 4-bit literal. */
  type Nibble = n: int | 0 <= n < 0x10

  /** A 12-bit address literal (NNN). */
  type Addr = a: int | 0 <= a < 0x1000

  datatype Instr =
    | ClearScreen                           // 00E0
    | Return                                // 00EE
    | Jump(nnn: Addr)                       // 1NNN
    | Call(nnn: Addr)                       // 2NNN
    | SkipEqImm(x: Nibble, nn: Byte)        // 3XNN
    | SkipNeImm(x: Nibble, nn: Byte)        // 4XNN
    | SkipEqReg(x: Nibble, y: Nibble)       // 5XY0
    | SkipNeReg(x: Nibble, y: Nibble)       // 9XY0
    | SetImm(x: Nibble, nn: Byte)           // 6XNN
    | AddImm(x: Nibble, nn: Byte)           // 7XNN
    | Copy(x: Nibble, y: Nibble)            // 8XY0
    | Or(x: Nibble, y: Nibble)              // 8XY1
    | And(x: Nibble, y: Nibble)             // 8XY2
    | Xor(x: Nibble, y: Nibble)             // 8XY3
    | AddReg(x: Nibble, y: Nibble)          // 8XY4
    | Sub(x: Nibble, y: Nibble)             // 8XY5
    | SubN(x: Nibble, y: Nibble)            // 8XY7
    | ShiftRight(x: Nibble, y: Nibble)      // 8XY6
    | ShiftLeft(x: Nibble, y: Nibble)       // 8XYE
    | SetIndex(nnn: Addr)                   // ANNN
    | JumpOffset(nnn: Addr)                 // BNNN (X is the high nibble of NNN)
    | Random(x: Nibble, nn: Byte)           // CXNN
    | Draw(x: Nibble, y: Nibble, n: Nibble) // DXYN
    | SkipKey(x: Nibble)                    // EX9E
    | SkipNotKey(x: Nibble)                 // EXA1
    | GetDelay(x: Nibble)                   // FX07
    | SetDelay(x: Nibble)                   // FX15
    | SetSound(x: Nibble)                   // FX18
    | AddIndex(x: Nibble)                   // FX1E
    | WaitKey(x: Nibble)                    // FX0A
    | FontChar(x: Nibble)                   // FX29
    | StoreBcd(x: Nibble)                   // FX33
    | StoreRegs(x: Nibble)                  // FX55
    | LoadRegs(x: Nibble)                   // FX65
    | Unknown(opcode: Word)                 // anything else

  /** 3XNN, 4XNN, 5XY0, 9XY0, EX9E and EXA1. */
  predicate IsSkip(ins: Instr)
  {
    ins.SkipEqImm? || ins.SkipNeImm? || ins.SkipEqReg? || ins.SkipNeReg? || ins.SkipKey? || ins.SkipNotKey?
  }

  /** 6XNN, 7XNN, 8XY0 to 8XY3 and CXNN, which write VX only. */
  predicate IsLoadLogic(ins: Instr)
  {
    ins.SetImm? || ins.AddImm? || ins.Copy? || ins.Or? || ins.And? || ins.Xor? || ins.Random?
  }

  /** 8XY4, 8XY5, 8XY7, 8XY6 and 8XYE, which write VX and VF. */
  predicate IsArith(ins: Instr)
  {
    ins.AddReg? || ins.Sub? || ins.SubN? || ins.ShiftRight? || ins.ShiftLeft?
  }

  /** ANNN, FX07, FX15, FX18, FX1E and FX29. */
  predicate IsIndexTimer(ins: Instr)
  {
    ins.SetIndex? || ins.GetDelay? || ins.SetDelay? || ins.SetSound? || ins.AddIndex? || ins.FontChar?
  }

  /** FX33, FX55 and FX65. */
  predicate IsMemory(ins: Instr)
  {
    ins.StoreBcd? || ins.StoreRegs? || ins.LoadRegs?
  }

  /** The four nibbles of an instruction word, most significant first
      (`(opcode & 0xF000) >> 12` and so on). */
  function Nibbles(opcode: Word): (Nibble, Nibble, Nibble, Nibble)
  {
    (opcode / 0x1000, (opcode / 0x100) % 0x10, (opcode / 0x10) % 0x10, opcode % 0x10)
  }

  /** The instruction word with nibbles `a`, `b`, `c`, `d`. */
  function Join(a: Nibble, b: Nibble, c: Nibble, d: Nibble): Word
  {
    a * 0x1000 + b * 0x100 + c * 0x10 + d
  }

  /** Dispatch by nibble pattern, as in the interpreter's match: NN is the
      low byte, NNN the low 12 bits.  The arms are grouped by their leading
      nibble; arms with different leading nibbles never match the same word,
      so the grouping keeps the source's first-match order. */
  function Decode(opcode: Word): Instr
  {
    var (d1, x, y, n) := Nibbles(opcode);
    DecodeFields(opcode, d1, x, y, n, opcode % 0x100, opcode % 0x1000)
  }

  /** The match on the leading nibble, given the fields already cut out. */
  function DecodeFields(opcode: Word, d1: Nibble, x: Nibble, y: Nibble, n: Nibble, nn: Byte, nnn: Addr): Instr
  {
    match d1
    case 0 => DecodeSystem(opcode, nnn)
    case 1 => Jump(nnn)
    case 2 => Call(nnn)
    case 3 => SkipEqImm(x, nn)
    case 4 => SkipNeImm(x, nn)
    case 5 => if n == 0 then SkipEqReg(x, y) else Unknown(opcode)
    case 6 => SetImm(x, nn)
    case 7 => AddImm(x, nn)
    case 8 => DecodeAlu(opcode, x, y, n)
    case 9 => if n == 0 then SkipNeReg(x, y) else Unknown(opcode)
    case 0xA => SetIndex(nnn)
    case 0xB => JumpOffset(nnn)
    case 0xC => Random(x, nn)
    case 0xD => Draw(x, y, n)
    case 0xE => DecodeKey(opcode, x, nn)
    case 0xF => DecodeMisc(opcode, x, nn)
  }

  /** 0NNN: only 00E0 and 00EE are known. */
  function DecodeSystem(opcode: Word, nnn: Addr): Instr
  {
    match nnn
    case 0x0E0 => ClearScreen
    case 0x0EE => Return
    case _ => Unknown(opcode)
  }

  /** 8XYN: N = 0..7 and E are known; the arm for 7 precedes those for 6 and E. */
  function DecodeAlu(opcode: Word, x: Nibble, y: Nibble, n: Nibble): Instr
  {
    match n
    case 0 => Copy(x, y)
    case 1 => Or(x, y)
    case 2 => And(x, y)
    case 3 => Xor(x, y)
    case 4 => AddReg(x, y)
    case 5 => Sub(x, y)
    case 7 => SubN(x, y)
    case 6 => ShiftRight(x, y)
    case 0xE => ShiftLeft(x, y)
    case _ => Unknown(opcode)
  }

  /** EXNN: only EX9E and EXA1 are known. */
  function DecodeKey(opcode: Word, x: Nibble, nn: Byte): Instr
  {
    match nn
    case 0x9E => SkipKey(x)
    case 0xA1 => SkipNotKey(x)
    case _ => Unknown(opcode)
  }

  /** FXNN: the timer, index, key-wait, font, BCD and register-block opcodes. */
  function DecodeMisc(opcode: Word, x: Nibble, nn: Byte): Instr
  {
    match nn
    case 0x07 => GetDelay(x)
    case 0x15 => SetDelay(x)
    case 0x18 => SetSound(x)
    case 0x1E => AddIndex(x)
    case 0x0A => WaitKey(x)
    case 0x29 => FontChar(x)
    case 0x33 => StoreBcd(x)
    case 0x55 => StoreRegs(x)
    case 0x65 => LoadRegs(x)
    case _ => Unknown(opcode)
  }

  /** The nibbles of the instruction word of a known instruction. */
  function EncodeNibbles(ins: Instr): (Nibble, Nibble, Nibble, Nibble)
    requires !ins.Unknown?
  {
    match ins
    case ClearScreen => (0, 0, 0xE, 0)
    case Return => (0, 0, 0xE, 0xE)
    case Jump(nnn) => (1, nnn / 0x100, (nnn / 0x10) % 0x10, nnn % 0x10)
    case Call(nnn) => (2, nnn / 0x100, (nnn / 0x10) % 0x10, nnn % 0x10)
    case SkipEqImm(x, nn) => (3, x, nn / 0x10, nn % 0x10)
    case SkipNeImm(x, nn) => (4, x, nn / 0x10, nn % 0x10)
    case SkipEqReg(x, y) => (5, x, y, 0)
    case SkipNeReg(x, y) => (9, x, y, 0)
    case SetImm(x, nn) => (6, x, nn / 0x10, nn % 0x10)
    case AddImm(x, nn) => (7, x, nn / 0x10, nn % 0x10)
    case Copy(x, y) => (8, x, y, 0)
    case Or(x, y) => (8, x, y, 1)
    case And(x, y) => (8, x, y, 2)
    case Xor(x, y) => (8, x, y, 3)
    case AddReg(x, y) => (8, x, y, 4)
    case Sub(x, y) => (8, x, y, 5)
    case SubN(x, y) => (8, x, y, 7)
    case ShiftRight(x, y) => (8, x, y, 6)
    case ShiftLeft(x, y) => (8, x, y, 0xE)
    case SetIndex(nnn) => (0xA, nnn / 0x100, (nnn / 0x10) % 0x10, nnn % 0x10)
    case JumpOffset(nnn) => (0xB, nnn / 0x100, (nnn / 0x10) % 0x10, nnn % 0x10)
    case Random(x, nn) => (0xC, x, nn / 0x10, nn % 0x10)
    case Draw(x, y, n) => (0xD, x, y, n)
    case SkipKey(x) => (0xE, x, 9, 0xE)
    case SkipNotKey(x) => (0xE, x, 0xA, 1)
    case GetDelay(x) => (0xF, x, 0, 7)
    case SetDelay(x) => (0xF, x, 1, 5)
    case SetSound(x) => (0xF, x, 1, 8)
    case AddIndex(x) => (0xF, x, 1, 0xE)
    case WaitKey(x) => (0xF, x, 0, 0xA)
    case FontChar(x) => (0xF, x, 2, 9)
    case StoreBcd(x) => (0xF, x, 3, 3)
    case StoreRegs(x) => (0xF, x, 5, 5)
    case LoadRegs(x) => (0xF, x, 6, 5)
  }

  /** The instruction word of an instruction: the inverse of Decode. */
  function Encode(ins: Instr): Word
  {
    if ins.Unknown? then ins.opcode
    else
      var (a, b, c, d) := EncodeNibbles(ins);
      Join(a, b, c, d)
  }

  /** An independent description of the opcodes the interpreter knows, by
      their hexadecimal patterns. */
  predicate Known(opcode: Word)
  {
    var lo := opcode % 0x100;
    match opcode / 0x1000
    case 0 => opcode == 0x00E0 || opcode == 0x00EE
    case 5 => opcode % 0x10 == 0
    case 9 => opcode % 0x10 == 0
    case 8 => opcode % 0x10 <= 7 || opcode % 0x10 == 0xE
    case 0xE => lo == 0x9E || lo == 0xA1
    case 0xF => lo in {0x07, 0x15, 0x18, 0x1E, 0x0A, 0x29, 0x33, 0x55, 0x65}
    case _ => true
  }

  /** Splitting a word into nibbles and joining them back is the identity. */
  lemma JoinNibbles(opcode: Word)
    ensures var (a, b, c, d) := Nibbles(opcode); Join(a, b, c, d) == opcode
    ensures opcode % 0x100 == (opcode / 0x10) % 0x10 * 0x10 + opcode % 0x10
    ensures opcode % 0x1000 == (opcode / 0x100) % 0x10 * 0x100 + opcode % 0x100
  {
    var q1, d := opcode / 0x10, opcode % 0x10;
    var q2, c := q1 / 0x10, q1 % 0x10;
    var q3, b := q2 / 0x10, q2 % 0x10;
    DivModUnique(opcode, 0x100, q2, c * 0x10 + d);
    DivModUnique(opcode, 0x1000, q3, b * 0x100 + c * 0x10 + d);
  }

  /** Joining nibbles and splitting the word gives the nibbles back. */
  lemma NibblesOfJoin(a: Nibble, b: Nibble, c: Nibble, d: Nibble)
    ensures Nibbles(Join(a, b, c, d)) == (a, b, c, d)
    ensures Join(a, b, c, d) % 0x100 == c * 0x10 + d
    ensures Join(a, b, c, d) % 0x1000 == b * 0x100 + c * 0x10 + d
  {
    var w := Join(a, b, c, d);
    DivModUnique(w, 0x1000, a, b * 0x100 + c * 0x10 + d);
    DivModUnique(w, 0x100, a * 0x10 + b, c * 0x10 + d);
    DivModUnique(w / 0x100, 0x10, a, b);
    DivModUnique(w, 0x10, a * 0x100 + b * 0x10 + c, d);
    DivModUnique(w / 0x10, 0x10, a * 0x10 + b, c);
  }

  lemma DivModUnique(w: int, m: int, q: int, r: int)
    requires 0 <= r < m && 0 <= q && w == q * m + r
    ensures w / m == q && w % m == r
  {
    DivUnique(w, m, q, r);
  }

  /** The low byte and the low 12 bits of a word, split into nibbles, are
      the word's own low nibbles. */
  lemma LowNibbles(opcode: Word)
    ensures (opcode % 0x100) / 0x10 == (opcode / 0x10) % 0x10
    ensures (opcode % 0x100) % 0x10 == opcode % 0x10
    ensures (opcode % 0x1000) / 0x100 == (opcode / 0x100) % 0x10
    ensures ((opcode % 0x1000) / 0x10) % 0x10 == (opcode / 0x10) % 0x10
    ensures (opcode % 0x1000) % 0x10 == opcode % 0x10
  {
    var (a, b, c, d) := Nibbles(opcode);
    JoinNibbles(opcode);
    NibblesOfJoin(a, b, c, d);
    NibblesOfJoin(0, 0, c, d);
    NibblesOfJoin(0, b, c, d);
  }

  lemma NibblesOfDecode(opcode: Word)
    requires !Decode(opcode).Unknown?
    ensures EncodeNibbles(Decode(opcode)) == Nibbles(opcode)
  {
    JoinNibbles(opcode);
    var (d1, x, y, n) := Nibbles(opcode);
    NibblesOfFields(opcode, d1, x, y, n, opcode % 0x100, opcode % 0x1000);
  }

  /** A known instruction matched from some fields has those fields as its
      nibbles. */
  lemma NibblesOfFields(opcode: Word, d1: Nibble, x: Nibble, y: Nibble, n: Nibble, nn: Byte, nnn: Addr)
    requires nn == y * 0x10 + n && nnn == x * 0x100 + nn
    requires !DecodeFields(opcode, d1, x, y, n, nn, nnn).Unknown?
    ensures EncodeNibbles(DecodeFields(opcode, d1, x, y, n, nn, nnn)) == (d1, x, y, n)
  {
    FieldParts(x, y, n);
    if d1 < 8 {
      NibblesOfFieldsLow(opcode, d1, x, y, n, nn, nnn);
    } else if d1 == 8 {
      NibblesOfDecodeAlu(opcode, x, y, n);
    } else if d1 == 0xF {
      NibblesOfDecodeMisc(opcode, x, nn);
    } else {
      NibblesOfFieldsHigh(opcode, d1, x, y, n, nn, nnn);
    }
  }

  /** Leading nibbles 0 to 7. */
  lemma NibblesOfFieldsLow(opcode: Word, d1: Nibble, x: Nibble, y: Nibble, n: Nibble, nn: Byte, nnn: Addr)
    requires d1 < 8 && nn / 0x10 == y && nn % 0x10 == n
    requires nnn / 0x100 == x && (nnn / 0x10) % 0x10 == y && nnn % 0x10 == n
    requires !DecodeFields(opcode, d1, x, y, n, nn, nnn).Unknown?
    ensures EncodeNibbles(DecodeFields(opcode, d1, x, y, n, nn, nnn)) == (d1, x, y, n)
  {
  }

  /** Leading nibbles 9 to E. */
  lemma NibblesOfFieldsHigh(opcode: Word, d1: Nibble, x: Nibble, y: Nibble, n: Nibble, nn: Byte, nnn: Addr)
    requires 8 < d1 < 0xF && nn / 0x10 == y && nn % 0x10 == n
    requires nnn / 0x100 == x && (nnn / 0x10) % 0x10 == y && nnn % 0x10 == n
    requires !DecodeFields(opcode, d1, x, y, n, nn, nnn).Unknown?
    ensures EncodeNibbles(DecodeFields(opcode, d1, x, y, n, nn, nnn)) == (d1, x, y, n)
  {
  }

  /** The byte and the 12-bit address made of nibbles split back into them. */
  lemma FieldParts(x: Nibble, y: Nibble, n: Nibble)
    ensures (y * 0x10 + n) / 0x10 == y && (y * 0x10 + n) % 0x10 == n
    ensures (x * 0x100 + y * 0x10 + n) / 0x100 == x
    ensures ((x * 0x100 + y * 0x10 + n) / 0x10) % 0x10 == y && (x * 0x100 + y * 0x10 + n) % 0x10 == n
  {
    DivModUnique(y * 0x10 + n, 0x10, y, n);
    DivModUnique(x * 0x100 + y * 0x10 + n, 0x100, x, y * 0x10 + n);
    DivModUnique(x * 0x100 + y * 0x10 + n, 0x10, x * 0x10 + y, n);
    DivModUnique(x * 0x10 + y, 0x10, x, y);
  }

  lemma NibblesOfDecodeAlu(opcode: Word, x: Nibble, y: Nibble, n: Nibble)
    requires !DecodeAlu(opcode, x, y, n).Unknown?
    ensures EncodeNibbles(DecodeAlu(opcode, x, y, n)) == (8, x, y, n)
  {
  }

  lemma NibblesOfDecodeMisc(opcode: Word, x: Nibble, nn: Byte)
    requires !DecodeMisc(opcode, x, nn).Unknown?
    ensures EncodeNibbles(DecodeMisc(opcode, x, nn)) == (0xF, x, nn / 0x10, nn % 0x10)
  {
  }

  /** Decoding loses nothing: every word is re-created from its decoding,
      so distinct words decode to distinct instructions. */
  lemma EncodeDecode(opcode: Word)
    ensures Encode(Decode(opcode)) == opcode
  {
    if !Decode(opcode).Unknown? {
      NibblesOfDecode(opcode);
      JoinNibbles(opcode);
    }
  }

  /** Every instruction is decoded from its encoding; an Unknown one only
      when its word really is unknown. */
  lemma DecodeEncode(ins: Instr)
    requires ins.Unknown? ==> Decode(ins.opcode).Unknown?
    ensures Decode(Encode(ins)) == ins
  {
    if !ins.Unknown? {
      var (a, b, c, d) := EncodeNibbles(ins);
      DecodeNibblesOf(ins, a, b, c, d);
    }
  }

  /** A known instruction is decoded from the word joined from its nibbles. */
  lemma DecodeNibblesOf(ins: Instr, a: Nibble, b: Nibble, c: Nibble, d: Nibble)
    requires !ins.Unknown? && EncodeNibbles(ins) == (a, b, c, d)
    ensures Decode(Join(a, b, c, d)) == ins
  {
    DecodeJoin(a, b, c, d);
    FieldsOfEncode(ins, a, b, c, d);
  }

  /** The fields cut from nibbles `a`, `b`, `c`, `d` match instruction `ins`. */
  predicate MatchesFields(ins: Instr, a: Nibble, b: Nibble, c: Nibble, d: Nibble)
  {
    DecodeFields(Join(a, b, c, d), a, b, c, d, c * 0x10 + d, b * 0x100 + c * 0x10 + d) == ins
  }

  /** The fields of a known instruction's word lead the match back to it. */
  lemma FieldsOfEncode(ins: Instr, a: Nibble, b: Nibble, c: Nibble, d: Nibble)
    requires !ins.Unknown? && EncodeNibbles(ins) == (a, b, c, d)
    ensures MatchesFields(ins, a, b, c, d)
  {
    if ins.ClearScreen? || ins.Return? || ins.SkipEqReg? || ins.SkipNeReg? || ins.Draw? || ins.SkipKey? || ins.SkipNotKey? {
      FieldsOfEncodeRegs(ins, a, b, c, d);
    } else if ins.Jump? || ins.Call? || ins.SetIndex? || ins.JumpOffset? {
      FieldsOfEncodeAddress(ins, a, b, c, d);
    } else if ins.SkipEqImm? || ins.SkipNeImm? || ins.SetImm? || ins.AddImm? || ins.Random? {
      FieldsOfEncodeByte(ins, a, b, c, d);
    } else if ins.Copy? || ins.Or? || ins.And? || ins.Xor? || IsArith(ins) {
      FieldsOfEncodeAlu(ins, a, b, c, d);
    } else if IsIndexTimer(ins) && !ins.SetIndex? {
      FieldsOfEncodeTimers(ins, a, b, c, d);
    } else {
      FieldsOfEncodeMemory(ins, a, b, c, d);
    }
  }

  /** 00E0, 00EE, 5XY0, 9XY0, DXYN, EX9E and EXA1. */
  lemma FieldsOfEncodeRegs(ins: Instr, a: Nibble, b: Nibble, c: Nibble, d: Nibble)
    requires (ins.ClearScreen? || ins.Return? || ins.SkipEqReg? || ins.SkipNeReg? || ins.Draw? || ins.SkipKey? || ins.SkipNotKey?) && EncodeNibbles(ins) == (a, b, c, d)
    ensures MatchesFields(ins, a, b, c, d)
  {
  }

  /** 1NNN, 2NNN, ANNN and BNNN. */
  lemma FieldsOfEncodeAddress(ins: Instr, a: Nibble, b: Nibble, c: Nibble, d: Nibble)
    requires (ins.Jump? || ins.Call? || ins.SetIndex? || ins.JumpOffset?) && EncodeNibbles(ins) == (a, b, c, d)
    ensures MatchesFields(ins, a, b, c, d)
  {
    AddrNibbles(ins.nnn);
  }

  /** 3XNN, 4XNN, 6XNN, 7XNN and CXNN. */
  lemma FieldsOfEncodeByte(ins: Instr, a: Nibble, b: Nibble, c: Nibble, d: Nibble)
    requires (ins.SkipEqImm? || ins.SkipNeImm? || ins.SetImm? || ins.AddImm? || ins.Random?) && EncodeNibbles(ins) == (a, b, c, d)
    ensures MatchesFields(ins, a, b, c, d)
  {
  }

  /** 8XY0 to 8XY7 and 8XYE. */
  lemma FieldsOfEncodeAlu(ins: Instr, a: Nibble, b: Nibble, c: Nibble, d: Nibble)
    requires (ins.Copy? || ins.Or? || ins.And? || ins.Xor? || IsArith(ins)) && EncodeNibbles(ins) == (a, b, c, d)
    ensures MatchesFields(ins, a, b, c, d)
  {
  }

  /** FX07, FX15, FX18, FX1E and FX29. */
  lemma FieldsOfEncodeTimers(ins: Instr, a: Nibble, b: Nibble, c: Nibble, d: Nibble)
    requires (IsIndexTimer(ins) && !ins.SetIndex?) && EncodeNibbles(ins) == (a, b, c, d)
    ensures MatchesFields(ins, a, b, c, d)
  {
  }

  /** FX0A, FX33, FX55 and FX65. */
  lemma FieldsOfEncodeMemory(ins: Instr, a: Nibble, b: Nibble, c: Nibble, d: Nibble)
    requires (IsMemory(ins) || ins.WaitKey?) && EncodeNibbles(ins) == (a, b, c, d)
    ensures MatchesFields(ins, a, b, c, d)
  {
  }

  /** Decoding a word given by its nibbles. */
  lemma DecodeJoin(a: Nibble, b: Nibble, c: Nibble, d: Nibble)
    ensures Decode(Join(a, b, c, d)) == DecodeFields(Join(a, b, c, d), a, b, c, d, c * 0x10 + d, b * 0x100 + c * 0x10 + d)
  {
    NibblesOfJoin(a, b, c, d);
  }

  /** A 12-bit address is the sum of its three nibbles. */
  lemma AddrNibbles(nnn: Addr)
    ensures nnn / 0x100 * 0x100 + (nnn / 0x10) % 0x10 * 0x10 + nnn % 0x10 == nnn
  {
  }

  /** Decode reports Unknown exactly for the words outside the listed patterns. */
  lemma UnknownExactly(opcode: Word)
    ensures Decode(opcode).Unknown? <==> !Known(opcode)
  {
    JoinNibbles(opcode);
  }
}
