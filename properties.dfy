/** Properties of the machine model that relate several operations or hold
    for all inputs: subroutine round trips, the carry and borrow arithmetic
    of the 8XYN group, sprite drawing by exclusive or, the key wait, memory
    transfers, the timers, program loading and the glyph table. */
module Properties {
  import opened Bits
  import opened Instructions
  import opened Machine

  // ------------------------------------------------------ decoding words

  /** 2NNN decodes to a call of NNN. */
  lemma DecodeCall(nnn: Addr)
    ensures Decode(0x2000 + nnn) == Call(nnn)
  {
    JoinNibbles(nnn);
    assert nnn / 0x1000 == 0 && (nnn / 0x100) % 0x10 == nnn / 0x100;
    assert Join(0, nnn / 0x100, (nnn / 0x10) % 0x10, nnn % 0x10) == nnn;
    assert Encode(Call(nnn)) == 0x2000 + nnn;
    DecodeEncode(Call(nnn));
  }

  /** The fetched word is the big-endian pair of bytes at pc. */
  lemma FetchWordBytes(s: State)
    requires WellFormed(s) && CanFetch(s)
    ensures FetchWord(s) / 0x100 == s.ram[s.pc] && FetchWord(s) % 0x100 == s.ram[s.pc + 1]
  {
    DivModUnique(FetchWord(s), 0x100, s.ram[s.pc] as int, s.ram[s.pc + 1] as int);
  }

  // ------------------------------------------------- subroutines: 2NNN, 00EE

  /** A call followed by a return restores the caller's state exactly. */
  lemma CallThenReturn(s: State, q: Quirks, nnn: Addr, rnd: Byte)
    requires WellFormed(s) && |s.stack| < StackSize
    ensures var t := Exec(s, q, Call(nnn), rnd);
      && t.pc == nnn && t.stack == s.stack + [s.pc]
      && Safe(t, Return) && Exec(t, q, Return, rnd) == s
  {
    ExecCall(s, q, nnn, rnd);
    var t := Exec(s, q, Call(nnn), rnd);
    ExecReturn(t, q, rnd);
    assert t.stack[..|t.stack| - 1] == s.stack;
  }

  /** 2NNN pushes pc and jumps to NNN. */
  lemma ExecCall(s: State, q: Quirks, nnn: Addr, rnd: Byte)
    requires WellFormed(s) && |s.stack| < StackSize
    ensures Exec(s, q, Call(nnn), rnd) == s.(stack := s.stack + [s.pc], pc := nnn)
  {
  }

  /** 00EE pops the top return address into pc. */
  lemma ExecReturn(s: State, q: Quirks, rnd: Byte)
    requires WellFormed(s) && |s.stack| > 0
    ensures Exec(s, q, Return, rnd) == s.(pc := s.stack[|s.stack| - 1], stack := s.stack[..|s.stack| - 1])
  {
  }

  /** Running a 2NNN word at pc and then a 00EE word at NNN resumes the
      caller at the instruction after the call, with the stack as it was. */
  lemma CallThenReturnCycles(s: State, q: Quirks, nnn: Addr, rnd: Byte)
    requires WellFormed(s) && CanFetch(s) && |s.stack| < StackSize
    requires s.ram[s.pc] == 0x20 + nnn / 0x100 && s.ram[s.pc + 1] == nnn % 0x100
    requires nnn + 1 < RamSize && s.ram[nnn] == 0x00 && s.ram[nnn + 1] == 0xEE
    ensures CanCycle(s)
    ensures var t := Cycle(s, q, rnd);
      && t.pc == nnn && t.stack == s.stack + [s.pc + 2]
      && CanCycle(t) && Cycle(t, q, rnd) == s.(pc := s.pc + 2)
  {
    CallCycle(s, q, nnn, rnd);
    var t := Cycle(s, q, rnd);
    ReturnCycle(t, q, rnd);
    assert t.stack[..|t.stack| - 1] == s.stack;
  }

  /** The cycle on a 2NNN word pushes the address after it and jumps. */
  lemma CallCycle(s: State, q: Quirks, nnn: Addr, rnd: Byte)
    requires WellFormed(s) && CanFetch(s) && |s.stack| < StackSize
    requires s.ram[s.pc] == 0x20 + nnn / 0x100 && s.ram[s.pc + 1] == nnn % 0x100
    ensures CanCycle(s) && Cycle(s, q, rnd) == s.(pc := nnn, stack := s.stack + [s.pc + 2])
  {
    assert FetchWord(s) == 0x2000 + nnn;
    DecodeCall(nnn);
  }

  /** The cycle on a 00EE word pops the return address into pc. */
  lemma ReturnCycle(s: State, q: Quirks, rnd: Byte)
    requires WellFormed(s) && CanFetch(s) && |s.stack| > 0
    requires s.ram[s.pc] == 0x00 && s.ram[s.pc + 1] == 0xEE
    ensures CanCycle(s)
    ensures Cycle(s, q, rnd) == s.(pc := s.stack[|s.stack| - 1], stack := s.stack[..|s.stack| - 1])
  {
    assert FetchWord(s) == 0x00EE;
    assert Decode(0x00EE) == Return;
  }

  // ------------------------------------------------------ 8XYN arithmetic

  /** The 8XYN arithmetic instructions execute by ExecArith. */
  lemma ExecArithIs(s: State, q: Quirks, ins: Instr, rnd: Byte)
    requires WellFormed(s) && IsArith(ins)
    ensures Exec(s, q, ins, rnd) == ExecArith(s, q, ins)
  {
  }

  /** 8XY4 with X other than F: VX and VF together hold the full sum, VF
      the carry out of the byte, and no other register changes. */
  lemma AddRegCarry(s: State, q: Quirks, x: Nibble, y: Nibble, rnd: Byte)
    requires WellFormed(s) && x != Flag
    ensures var t := Exec(s, q, AddReg(x, y), rnd);
      && t.v[Flag] <= 1
      && t.v[x] as int + 0x100 * (t.v[Flag] as int) == s.v[x] as int + s.v[y]
      && (forall r :: 0 <= r < RegisterCount && r != x && r != Flag ==> t.v[r] == s.v[r])
      && t == s.(v := t.v)
  {
    ExecArithIs(s, q, AddReg(x, y), rnd);
  }

  /** 8XY5 with X other than F: VF is 1 exactly when no borrow occurs,
      VX is the difference modulo 256, and no other register changes. */
  lemma SubBorrow(s: State, q: Quirks, x: Nibble, y: Nibble, rnd: Byte)
    requires WellFormed(s) && x != Flag
    ensures var t := Exec(s, q, Sub(x, y), rnd);
      && t.v[Flag] <= 1
      && t.v[x] as int - 0x100 * (1 - t.v[Flag] as int) == s.v[x] as int - s.v[y]
      && (forall r :: 0 <= r < RegisterCount && r != x && r != Flag ==> t.v[r] == s.v[r])
      && t == s.(v := t.v)
  {
    ExecArithIs(s, q, Sub(x, y), rnd);
  }

  /** 8XY7 with X other than F: the same for VY - VX. */
  lemma SubNBorrow(s: State, q: Quirks, x: Nibble, y: Nibble, rnd: Byte)
    requires WellFormed(s) && x != Flag
    ensures var t := Exec(s, q, SubN(x, y), rnd);
      && t.v[Flag] <= 1
      && t.v[x] as int - 0x100 * (1 - t.v[Flag] as int) == s.v[y] as int - s.v[x]
      && (forall r :: 0 <= r < RegisterCount && r != x && r != Flag ==> t.v[r] == s.v[r])
      && t == s.(v := t.v)
  {
    ExecArithIs(s, q, SubN(x, y), rnd);
  }

  /** When X is F, the flag is written last and wins over the result. */
  lemma FlagWinsOverResult(s: State, q: Quirks, y: Nibble, rnd: Byte)
    requires WellFormed(s)
    ensures Exec(s, q, AddReg(Flag, y), rnd).v[Flag] == if s.v[Flag] as int + s.v[y] > 0xFF then 1 else 0
    ensures Exec(s, q, Sub(Flag, y), rnd).v[Flag] == if s.v[Flag] >= s.v[y] then 1 else 0
    ensures Exec(s, q, SubN(Flag, y), rnd).v[Flag] == if s.v[y] >= s.v[Flag] then 1 else 0
  {
    ExecArithIs(s, q, AddReg(Flag, y), rnd);
    ExecArithIs(s, q, Sub(Flag, y), rnd);
    ExecArithIs(s, q, SubN(Flag, y), rnd);
  }

  /** 8XY6 with X other than F: the shifted-out bit lands in VF, so that
      2 * VX + VF is the operand (VY under the shift quirk, VX otherwise). */
  lemma ShiftRightExact(s: State, q: Quirks, x: Nibble, y: Nibble, rnd: Byte)
    requires WellFormed(s) && x != Flag
    ensures var t := Exec(s, q, ShiftRight(x, y), rnd);
      var operand := if q.shift then s.v[y] else s.v[x];
      && t.v[Flag] <= 1
      && 2 * (t.v[x] as int) + t.v[Flag] == operand
      && (forall r :: 0 <= r < RegisterCount && r != x && r != Flag ==> t.v[r] == s.v[r])
      && t == s.(v := t.v)
  {
    ExecArithIs(s, q, ShiftRight(x, y), rnd);
  }

  /** 8XYE with X other than F: the shifted-out top bit lands in VF, so
      that VX + 256 * VF is twice the operand. */
  lemma ShiftLeftExact(s: State, q: Quirks, x: Nibble, y: Nibble, rnd: Byte)
    requires WellFormed(s) && x != Flag
    ensures var t := Exec(s, q, ShiftLeft(x, y), rnd);
      var operand := if q.shift then s.v[y] else s.v[x];
      && t.v[Flag] <= 1
      && t.v[x] as int + 0x100 * (t.v[Flag] as int) == 2 * (operand as int)
      && (forall r :: 0 <= r < RegisterCount && r != x && r != Flag ==> t.v[r] == s.v[r])
      && t == s.(v := t.v)
  {
    ExecArithIs(s, q, ShiftLeft(x, y), rnd);
  }

  /** When X is F, the flag is written first and then shifted in place. */
  lemma ShiftOfFlag(s: State, q: Quirks, y: Nibble, rnd: Byte)
    requires WellFormed(s)
    ensures var operand := if q.shift then s.v[y] else s.v[Flag];
      && Exec(s, q, ShiftRight(Flag, y), rnd).v[Flag] == (operand % 2) / 2
      && Exec(s, q, ShiftLeft(Flag, y), rnd).v[Flag] == ((operand / 0x80) % 2) * 2
  {
    ExecArithIs(s, q, ShiftRight(Flag, y), rnd);
    ExecArithIs(s, q, ShiftLeft(Flag, y), rnd);
  }

  /** 8XY3 twice with the same Y restores VX (X other than Y). */
  lemma XorTwiceRestores(s: State, q: Quirks, x: Nibble, y: Nibble, rnd: Byte)
    requires WellFormed(s) && x != y
    ensures Exec(Exec(s, q, Xor(x, y), rnd), q, Xor(x, y), rnd) == s
  {
    XorTwice(s.v[x], s.v[y]);
    var t := Exec(s, q, Xor(x, y), rnd);
    assert t.v[x := BitXor(t.v[x], t.v[y])] == s.v;
  }

  /** 8XY1 and 8XY2 are idempotent (X other than Y). */
  lemma OrAndIdempotent(s: State, q: Quirks, x: Nibble, y: Nibble, rnd: Byte)
    requires WellFormed(s) && x != y
    ensures var t := Exec(s, q, Or(x, y), rnd); Exec(t, q, Or(x, y), rnd) == t
    ensures var t := Exec(s, q, And(x, y), rnd); Exec(t, q, And(x, y), rnd) == t
  {
    OrIdempotent(s.v[x], s.v[y]);
    AndIdempotent(s.v[x], s.v[y]);
    var t := Exec(s, q, Or(x, y), rnd);
    assert t.v[x := BitOr(t.v[x], t.v[y])] == t.v;
    var u := Exec(s, q, And(x, y), rnd);
    assert u.v[x := BitAnd(u.v[x], u.v[y])] == u.v;
  }

  /** CXNN: the random byte is masked by NN, so VX never exceeds NN. */
  lemma RandomMasked(s: State, q: Quirks, x: Nibble, nn: Byte, rnd: Byte)
    requires WellFormed(s)
    ensures var t := Exec(s, q, Random(x, nn), rnd);
      && t.v[x] <= nn
      && (forall r :: 0 <= r < RegisterCount && r != x ==> t.v[r] == s.v[r])
      && t == s.(v := t.v)
  {
    AndIdempotent(rnd, nn);
  }

  /** 7XNN adds modulo 256 and never touches VF unless X is F. */
  lemma AddImmWraps(s: State, q: Quirks, x: Nibble, nn: Byte, rnd: Byte)
    requires WellFormed(s)
    ensures var t := Exec(s, q, AddImm(x, nn), rnd);
      && (t.v[x] as int - s.v[x] - nn) % 0x100 == 0
      && (x != Flag ==> t.v[Flag] == s.v[Flag])
      && t == s.(v := s.v[x := t.v[x]])
  {
  }

  // -------------------------------------------------------------- drawing

  /** Column `col` of a sprite row is bit 7 - `col` of the row byte. */
  lemma SpritePixelBit(sprite: Byte, col: nat)
    requires col < 8
    ensures SpritePixel(sprite, col) <==> BitSet(sprite, 7 - col)
  {
    ColumnMaskBit(col);
    MaskTestsBit(sprite, 7 - col);
  }

  /** The mask for column `col` has bit 7 - `col` alone set. */
  lemma {:induction false} ColumnMaskBit(col: nat)
    requires col < 8
    ensures ColumnMask(col) == Pow2(7 - col)
  {
    if col > 0 {
      ColumnMaskBit(col - 1);
      assert Pow2(7 - (col - 1)) == 2 * Pow2(7 - col);
    } else {
      assert Pow2(7) == 0x80;
    }
  }

  /** A draw toggles exactly the cells inside the sprite's rectangle,
      clipped at the right and bottom edges rather than wrapped, whose
      sprite bit (most significant bit leftmost) is set; every other cell
      keeps its value. */
  lemma DrawChangesExactly(s: State, x: Nibble, y: Nibble, n: Nibble, k: nat)
    requires WellFormed(s) && DrawSafe(s, y, n) && k < DisplaySize
    ensures var t := ExecDraw(s, x, y, n);
      var x0 := s.v[x] % DisplayWidth;
      var y0 := s.v[y] % DisplayHeight;
      var r := k / DisplayWidth - y0;
      var c := k % DisplayWidth - x0;
      t.display[k] != s.display[k] <==>
        0 <= r < n && 0 <= c < 8 && s.i + r < RamSize && BitSet(s.ram[s.i + r], 7 - c)
  {
    var x0 := s.v[x] % DisplayWidth;
    var y0 := s.v[y] % DisplayHeight;
    var r := k / DisplayWidth - y0;
    var c := k % DisplayWidth - x0;
    if 0 <= r < n && 0 <= c < 8 {
      assert r <= Min(n - 1, DisplayHeight - y0);
      SpritePixelBit(s.ram[s.i + r], c);
    }
  }

  /** Drawing the same sprite twice at the same place restores the display;
      the second draw reports a collision exactly when the first lit some
      cell, that is, when some toggled cell was dark before. */
  lemma DrawTwiceRestores(s: State, x: Nibble, y: Nibble, n: Nibble)
    requires WellFormed(s) && x != Flag && y != Flag
    ensures var u := ExecDraw(ExecDraw(s, x, y, n), x, y, n);
      var x0 := s.v[x] % DisplayWidth;
      var y0 := s.v[y] % DisplayHeight;
      && u.display == s.display
      && (u.v[Flag] == 1 <==> exists k :: 0 <= k < DisplaySize && Flips(s.ram, s.i, n, x0, y0, k) && !s.display[k])
      && u == s.(v := s.v[Flag := u.v[Flag]])
  {
    var x0 := s.v[x] % DisplayWidth;
    var y0 := s.v[y] % DisplayHeight;
    var t := ExecDraw(s, x, y, n);
    assert t.v[x] == s.v[x] && t.v[y] == s.v[y];
    var u := ExecDraw(t, x, y, n);
    assert u.display == s.display;
    if u.v[Flag] == 1 {
      var k :| 0 <= k < DisplaySize && Flips(s.ram, s.i, n, x0, y0, k) && t.display[k];
      assert !s.display[k];
    }
    if exists k :: 0 <= k < DisplaySize && Flips(s.ram, s.i, n, x0, y0, k) && !s.display[k] {
      var k :| 0 <= k < DisplaySize && Flips(s.ram, s.i, n, x0, y0, k) && !s.display[k];
      assert t.display[k];
    }
    assert u.v == s.v[Flag := u.v[Flag]];
  }

  /** On a cleared screen a draw never collides, and the lit cells are
      exactly the sprite's set pixels. */
  lemma ClearThenDrawNoCollision(s: State, q: Quirks, x: Nibble, y: Nibble, n: Nibble, rnd: Byte)
    requires WellFormed(s)
    ensures var t := ExecDraw(Exec(s, q, ClearScreen, rnd), x, y, n);
      var x0 := s.v[x] % DisplayWidth;
      var y0 := s.v[y] % DisplayHeight;
      && t.v[Flag] == 0
      && forall k :: 0 <= k < DisplaySize ==> (t.display[k] <==> Flips(s.ram, s.i, n, x0, y0, k))
  {
    var c := Exec(s, q, ClearScreen, rnd);
    assert forall k :: 0 <= k < DisplaySize ==> !c.display[k];
  }

  // ---------------------------------------------------- FX0A: key wait

  /** The key scan finds `k` exactly when `k` is pressed and no key between
      `j` and `k` is. */
  lemma {:induction false} FirstKeyFromFinds(keys: seq<bool>, j: nat, k: nat)
    ensures FirstKeyFrom(keys, j) == Some(k) <==> j <= k < |keys| && keys[k] && forall m :: j <= m < k ==> !keys[m]
    decreases |keys| - j
  {
    if j < |keys| && !keys[j] {
      FirstKeyFromFinds(keys, j + 1, k);
    }
  }

  /** The key scan finds nothing exactly when no key from `j` on is pressed. */
  lemma {:induction false} FirstKeyFromNone(keys: seq<bool>, j: nat)
    ensures FirstKeyFrom(keys, j).None? <==> forall m :: j <= m < |keys| ==> !keys[m]
    decreases |keys| - j
  {
    if j < |keys| && !keys[j] {
      FirstKeyFromNone(keys, j + 1);
    }
  }

  /** FirstKey is the lowest pressed key, and None when no key is pressed. */
  lemma FirstKeyLowest(keys: seq<bool>, k: nat)
    ensures FirstKey(keys) == Some(k) <==> k < |keys| && keys[k] && forall m :: 0 <= m < k ==> !keys[m]
    ensures FirstKey(keys).None? <==> forall m :: 0 <= m < |keys| ==> !keys[m]
  {
    FirstKeyFromFinds(keys, 0, k);
    FirstKeyFromNone(keys, 0);
  }

  /** With no key pressed, a cycle on FX0A leaves the whole machine as it
      was: fetch advances pc by 2 and the instruction steps it back. */
  lemma WaitKeyBlocks(s: State, q: Quirks, rnd: Byte)
    requires WellFormed(s) && CanFetch(s) && Decode(FetchWord(s)).WaitKey?
    requires forall m :: 0 <= m < KeyCount ==> !s.keypad[m]
    ensures CanCycle(s) && Cycle(s, q, rnd) == s
  {
    FirstKeyLowest(s.keypad, 0);
  }

  /** With key `k` the lowest pressed, a cycle on FX0A stores `k` in VX and
      moves on to the next instruction. */
  lemma WaitKeyStores(s: State, q: Quirks, rnd: Byte, k: nat)
    requires WellFormed(s) && CanFetch(s) && Decode(FetchWord(s)).WaitKey?
    requires k < KeyCount && s.keypad[k] && forall m :: 0 <= m < k ==> !s.keypad[m]
    ensures CanCycle(s)
    ensures var x := Decode(FetchWord(s)).x;
      Cycle(s, q, rnd) == s.(pc := s.pc + 2, v := s.v[x := k])
  {
    FirstKeyLowest(s.keypad, k);
  }

  // ------------------------------------------------------- memory: FX33, FX55, FX65

  /** FX33 stores the decimal digits of VX, hundreds at I + 2 and ones at I,
      and nothing else in memory changes. */
  lemma BcdDigits(s: State, x: Nibble)
    requires WellFormed(s) && s.i + 2 < RamSize
    ensures var t := ExecMemory(s, StoreBcd(x));
      var i := s.i;
      && t.ram[i] < 10 && t.ram[i + 1] < 10 && t.ram[i + 2] < 10
      && t.ram[i + 2] as int * 100 + t.ram[i + 1] as int * 10 + t.ram[i] == s.v[x]
      && (forall a :: 0 <= a < RamSize && (a < i || i + 2 < a) ==> t.ram[a] == s.ram[a])
      && t == s.(ram := t.ram)
  {
    var n := s.v[x];
    var t := ExecMemory(s, StoreBcd(x));
    assert t.ram == s.ram[s.i := n % 10][s.i + 1 := (n / 10) % 10][s.i + 2 := n / 100];
    DecimalDigits(n);
  }

  /** The three decimal digits of a byte, as FX33 computes them. */
  lemma DecimalDigits(n: Byte)
    ensures n / 100 < 10 && n / 100 * 100 + (n / 10) % 10 * 10 + n % 10 == n
  {
    var q := n / 10;
    assert n == q * 10 + n % 10;
    assert q == q / 10 * 10 + q % 10;
    assert q / 10 == n / 100;
  }

  /** FX55 copies V0 .. VX to I .. I + X and leaves every other address
      and every other part of the machine. */
  lemma StoreRegsFrame(s: State, x: Nibble)
    requires WellFormed(s) && s.i + x < RamSize
    ensures var t := ExecMemory(s, StoreRegs(x));
      && (forall a :: 0 <= a < RamSize ==>
            t.ram[a] == if s.i <= a <= s.i + x then s.v[a - s.i] else s.ram[a])
      && t == s.(ram := t.ram)
  {
    ExecStoreRegs(s, x);
    CopyIntoAt(s.ram, s.i, s.v[..x + 1]);
  }

  /** FX65 loads V0 .. VX from I .. I + X and leaves the higher registers
      and every other part of the machine. */
  lemma LoadRegsFrame(s: State, x: Nibble)
    requires WellFormed(s) && s.i + x < RamSize
    ensures var t := ExecMemory(s, LoadRegs(x));
      && (forall r :: 0 <= r < RegisterCount ==>
            t.v[r] == if r <= x then s.ram[s.i + r] else s.v[r])
      && t == s.(v := t.v)
  {
    ExecLoadRegs(s, x);
    CopyIntoAt(s.v, 0, s.ram[s.i..s.i + x + 1]);
  }

  /** Loading right after storing the same registers changes nothing more. */
  lemma StoreThenLoad(s: State, x: Nibble)
    requires WellFormed(s) && s.i + x < RamSize
    ensures var t := ExecMemory(s, StoreRegs(x));
      ExecMemory(t, LoadRegs(x)) == t
  {
    ExecStoreRegs(s, x);
    var t := ExecMemory(s, StoreRegs(x));
    ExecLoadRegs(t, x);
    StoreLoadBytes(s.ram, s.v, s.i, x + 1);
  }

  /** Storing right after loading the same registers leaves memory as it was. */
  lemma LoadThenStore(s: State, x: Nibble)
    requires WellFormed(s) && s.i + x < RamSize
    ensures var t := ExecMemory(s, LoadRegs(x));
      ExecMemory(t, StoreRegs(x)) == t
  {
    ExecLoadRegs(s, x);
    var t := ExecMemory(s, LoadRegs(x));
    ExecStoreRegs(t, x);
    LoadStoreBytes(s.ram, s.v, s.i, x + 1);
  }

  /** The byte-level round trip behind StoreThenLoad. */
  lemma StoreLoadBytes(ram: seq<Byte>, v: seq<Byte>, i: nat, m: nat)
    requires i + m <= |ram| && m <= |v|
    ensures CopyInto(v, 0, CopyInto(ram, i, v[..m])[i..i + m]) == v
  {
    CopyIntoReadBack(ram, i, v[..m]);
    CopyIntoUnchanged(v, 0, v[..m]);
  }

  /** The byte-level round trip behind LoadThenStore. */
  lemma LoadStoreBytes(ram: seq<Byte>, v: seq<Byte>, i: nat, m: nat)
    requires i + m <= |ram| && m <= |v|
    ensures CopyInto(ram, i, CopyInto(v, 0, ram[i..i + m])[..m]) == ram
  {
    CopyIntoReadBack(v, 0, ram[i..i + m]);
    CopyIntoUnchanged(ram, i, ram[i..i + m]);
  }

  /** The copied range reads back as the source. */
  lemma CopyIntoReadBack(dst: seq<Byte>, at: nat, src: seq<Byte>)
    requires at + |src| <= |dst|
    ensures CopyInto(dst, at, src)[at..at + |src|] == src
  {
    var r := CopyInto(dst, at, src);
    CopyIntoAt(dst, at, src);
    forall k | 0 <= k < |src|
      ensures r[at..at + |src|][k] == src[k]
    {
      assert r[at + k] == src[k];
    }
  }

  /** Copying bytes over equal bytes changes nothing. */
  lemma CopyIntoUnchanged(dst: seq<Byte>, at: nat, src: seq<Byte>)
    requires at + |src| <= |dst|
    requires forall k :: 0 <= k < |src| ==> dst[at + k] == src[k]
    ensures CopyInto(dst, at, src) == dst
  {
    var r := CopyInto(dst, at, src);
    CopyIntoAt(dst, at, src);
    forall a | 0 <= a < |dst|
      ensures r[a] == dst[a]
    {
      if at <= a < at + |src| {
        assert dst[at + (a - at)] == src[a - at];
      }
    }
  }

  // ------------------------------------------------------ index register

  /** FX1E wraps I at 16 bits, and its flag condition can never hold: a
      wrapped sum is at most 0xFE, so VF always ends up 0. */
  lemma AddIndexFlagClear(s: State, q: Quirks, x: Nibble, rnd: Byte)
    requires WellFormed(s)
    ensures var t := Exec(s, q, AddIndex(x), rnd);
      && t.i == (s.i as int + s.v[x]) % 0x1_0000
      && t.v[Flag] == 0
      && t == s.(i := t.i, v := s.v[Flag := 0])
  {
    var sum := s.i as int + s.v[x];
    if sum > 0xFFFF {
      assert sum % 0x1_0000 == sum - 0x1_0000;
    }
  }

  /** FX29 points I at the glyph of digit VX (for VX < 16; the source does
      not mask VX); on a machine whose glyph table is intact those five
      bytes are that digit's rows. */
  lemma FontCharGlyph(s: State, q: Quirks, x: Nibble, rnd: Byte)
    requires WellFormed(s) && s.v[x] < 16
    requires s.ram[FontAddr..FontAddr + FontSize] == FontSet
    ensures var t := Exec(s, q, FontChar(x), rnd);
      var d := s.v[x] as int;
      && t.i == FontAddr + 5 * d
      && t.ram[t.i..t.i + 5] == FontSet[5 * d..5 * d + 5]
  {
    ExecFontChar(s, q, x, rnd);
    GlyphRows(s.ram, s.v[x] as int);
  }

  /** FX29 only sets I, to FontAddr + 5 * VX. */
  lemma ExecFontChar(s: State, q: Quirks, x: Nibble, rnd: Byte)
    requires WellFormed(s)
    ensures Exec(s, q, FontChar(x), rnd) == s.(i := FontAddr + 5 * s.v[x] as int)
  {
  }

  /** With the glyph table in place, the five bytes from FontAddr + 5 * d
      are the rows of glyph d. */
  lemma GlyphRows(ram: seq<Byte>, d: int)
    requires |ram| == RamSize && 0 <= d < 16
    requires ram[FontAddr..FontAddr + FontSize] == FontSet
    ensures ram[FontAddr + 5 * d..FontAddr + 5 * d + 5] == FontSet[5 * d..5 * d + 5]
  {
    forall a | FontAddr <= a < FontAddr + FontSize
      ensures ram[a] == FontSet[a - FontAddr]
    {
      assert ram[FontAddr..FontAddr + FontSize][a - FontAddr] == ram[a];
    }
  }

  // ---------------------------------------------------------------- jumps

  /** BNNN adds a register byte to NNN, so pc can reach 0x10FE, past the
      end of memory. */
  lemma JumpOffsetBound(s: State, q: Quirks, nnn: Addr, rnd: Byte)
    requires WellFormed(s)
    ensures var t := Exec(s, q, JumpOffset(nnn), rnd);
      && nnn <= t.pc <= 0x10FE
      && t.pc == nnn + (if q.jump then s.v[nnn / 0x100] else s.v[0])
      && t == s.(pc := t.pc)
  {
  }

  /** A BNNN that leaves memory: the next fetch would read past the end. */
  lemma JumpOffsetLeavesMemory(s: State, rnd: Byte)
    requires WellFormed(s) && s.v[0] == 0xFF
    ensures var t := Exec(s, Quirks(false, false), JumpOffset(0xFFF), rnd);
      t.pc == 0x10FE && !CanFetch(t)
  {
  }

  /** 3XNN and 4XNN advance pc by 2 exactly when VX equals, respectively
      differs from, NN; otherwise the state is unchanged. */
  lemma SkipImmAdvances(s: State, q: Quirks, x: Nibble, nn: Byte, rnd: Byte)
    requires WellFormed(s)
    ensures Safe(s, SkipEqImm(x, nn)) ==>
      Exec(s, q, SkipEqImm(x, nn), rnd) == s.(pc := if s.v[x] == nn then s.pc + 2 else s.pc)
    ensures Safe(s, SkipNeImm(x, nn)) ==>
      Exec(s, q, SkipNeImm(x, nn), rnd) == s.(pc := if s.v[x] != nn then s.pc + 2 else s.pc)
  {
    if Safe(s, SkipEqImm(x, nn)) { ExecSkipIs(s, q, SkipEqImm(x, nn), rnd); }
    if Safe(s, SkipNeImm(x, nn)) { ExecSkipIs(s, q, SkipNeImm(x, nn), rnd); }
  }

  /** 5XY0 and 9XY0 advance pc by 2 exactly when VX equals, respectively
      differs from, VY; otherwise the state is unchanged. */
  lemma SkipRegAdvances(s: State, q: Quirks, x: Nibble, y: Nibble, rnd: Byte)
    requires WellFormed(s)
    ensures Safe(s, SkipEqReg(x, y)) ==>
      Exec(s, q, SkipEqReg(x, y), rnd) == s.(pc := if s.v[x] == s.v[y] then s.pc + 2 else s.pc)
    ensures Safe(s, SkipNeReg(x, y)) ==>
      Exec(s, q, SkipNeReg(x, y), rnd) == s.(pc := if s.v[x] != s.v[y] then s.pc + 2 else s.pc)
  {
    if Safe(s, SkipEqReg(x, y)) { ExecSkipIs(s, q, SkipEqReg(x, y), rnd); }
    if Safe(s, SkipNeReg(x, y)) { ExecSkipIs(s, q, SkipNeReg(x, y), rnd); }
  }

  /** EX9E and EXA1 advance pc by 2 exactly when key VX is, respectively
      is not, pressed; otherwise the state is unchanged. */
  lemma SkipKeyAdvances(s: State, q: Quirks, x: Nibble, rnd: Byte)
    requires WellFormed(s)
    ensures Safe(s, SkipKey(x)) ==>
      Exec(s, q, SkipKey(x), rnd) == s.(pc := if s.keypad[s.v[x]] then s.pc + 2 else s.pc)
    ensures Safe(s, SkipNotKey(x)) ==>
      Exec(s, q, SkipNotKey(x), rnd) == s.(pc := if !s.keypad[s.v[x]] then s.pc + 2 else s.pc)
  {
    if Safe(s, SkipKey(x)) { ExecSkipIs(s, q, SkipKey(x), rnd); }
    if Safe(s, SkipNotKey(x)) { ExecSkipIs(s, q, SkipNotKey(x), rnd); }
  }

  /** The skips execute by ExecSkip. */
  lemma ExecSkipIs(s: State, q: Quirks, ins: Instr, rnd: Byte)
    requires WellFormed(s) && Safe(s, ins) && IsSkip(ins)
    ensures Exec(s, q, ins, rnd) == ExecSkip(s, ins)
  {
  }

  // ---------------------------------------------------------------- cycle

  /** An unrecognised word only advances pc, and is reported as unknown
      exactly when it matches no pattern of the instruction set. */
  lemma UnknownCycle(s: State, q: Quirks, rnd: Byte)
    requires WellFormed(s) && CanFetch(s)
    ensures var opcode := FetchWord(s);
      && (StatusOf(opcode) == UnknownOpcode(opcode) <==> !Known(opcode))
      && (!Known(opcode) ==> CanCycle(s) && Cycle(s, q, rnd) == Fetched(s))
  {
    UnknownExactly(FetchWord(s));
  }

  /** The program 6A05 6B03 8AB4 in memory at pc. */
  predicate AddProgramAt(s: State, p: int)
  {
    && WellFormed(s) && 0 <= p && p + 6 <= RamSize
    && s.ram[p..p + 6] == [0x6A, 0x05, 0x6B, 0x03, 0x8A, 0xB4]
  }

  /** The program 6A05 6B03 8AB4 run one instruction per cycle: VA = 5,
      VB = 3, then VA += VB gives VA = 8 with no carry, and pc is past it. */
  lemma AddProgram(s: State, q: Quirks, rnd: Byte)
    requires AddProgramAt(s, s.pc)
    ensures CanCycle(s)
    ensures var t1 := Cycle(s, q, rnd);
      && CanCycle(t1)
      && var t2 := Cycle(t1, q, rnd);
      && CanCycle(t2)
      && Cycle(t2, q, rnd) == s.(pc := s.pc + 6, v := s.v[0xA := 8][0xB := 3][Flag := 0])
  {
    var p := s.pc;
    AddProgramFirst(s, q, rnd);
    var t1 := Cycle(s, q, rnd);
    AddProgramSecond(t1, q, rnd, p);
    var t2 := Cycle(t1, q, rnd);
    AddProgramThird(t2, q, rnd, p);
    assert t2.v[0xA := 8][Flag := 0] == s.v[0xA := 8][0xB := 3][Flag := 0];
  }

  lemma AddProgramFirst(s: State, q: Quirks, rnd: Byte)
    requires AddProgramAt(s, s.pc)
    ensures CanCycle(s) && Cycle(s, q, rnd) == s.(pc := s.pc + 2, v := s.v[0xA := 5])
  {
    AddProgramBytes(s, s.pc);
    DecodeAddProgram();
    SetImmCycle(s, q, rnd, 0x6A, 0x05, 0xA, 0x05);
  }

  lemma AddProgramSecond(s: State, q: Quirks, rnd: Byte, p: int)
    requires AddProgramAt(s, p) && s.pc == p + 2
    ensures CanCycle(s) && Cycle(s, q, rnd) == s.(pc := p + 4, v := s.v[0xB := 3])
  {
    AddProgramBytes(s, p);
    DecodeAddProgram();
    SetImmCycle(s, q, rnd, 0x6B, 0x03, 0xB, 0x03);
  }

  lemma AddProgramThird(s: State, q: Quirks, rnd: Byte, p: int)
    requires AddProgramAt(s, p) && s.pc == p + 4 && s.v[0xA] == 5 && s.v[0xB] == 3
    ensures CanCycle(s) && Cycle(s, q, rnd) == s.(pc := p + 6, v := s.v[0xA := 8][Flag := 0])
  {
    AddProgramBytes(s, p);
    DecodeAddProgram();
    AddRegCycle(s, q, rnd, 0x8A, 0xB4, 0xA, 0xB);
  }

  lemma AddProgramBytes(s: State, p: int)
    requires AddProgramAt(s, p)
    ensures s.ram[p] == 0x6A && s.ram[p + 1] == 0x05 && s.ram[p + 2] == 0x6B
    ensures s.ram[p + 3] == 0x03 && s.ram[p + 4] == 0x8A && s.ram[p + 5] == 0xB4
  {
    var code := s.ram[p..p + 6];
    assert s.ram[p] == code[0] && s.ram[p + 1] == code[1] && s.ram[p + 2] == code[2];
    assert s.ram[p + 3] == code[3] && s.ram[p + 4] == code[4] && s.ram[p + 5] == code[5];
  }

  lemma SetImmCycle(s: State, q: Quirks, rnd: Byte, hi: Byte, lo: Byte, x: Nibble, nn: Byte)
    requires WellFormed(s) && CanFetch(s) && s.ram[s.pc] == hi && s.ram[s.pc + 1] == lo
    requires Decode(hi * 0x100 + lo) == SetImm(x, nn)
    ensures CanCycle(s) && Cycle(s, q, rnd) == s.(pc := s.pc + 2, v := s.v[x := nn])
  {
    var f := Fetched(s);
    assert FetchWord(s) == hi * 0x100 + lo;
    assert Exec(f, q, SetImm(x, nn), rnd) == ExecRegisters(f, SetImm(x, nn), rnd);
  }

  lemma AddRegCycle(s: State, q: Quirks, rnd: Byte, hi: Byte, lo: Byte, x: Nibble, y: Nibble)
    requires WellFormed(s) && CanFetch(s) && s.ram[s.pc] == hi && s.ram[s.pc + 1] == lo
    requires Decode(hi * 0x100 + lo) == AddReg(x, y)
    ensures CanCycle(s)
    ensures var sum := s.v[x] as int + s.v[y];
      Cycle(s, q, rnd) == s.(pc := s.pc + 2, v := s.v[x := sum % 0x100][Flag := if sum > 0xFF then 1 else 0])
  {
    var f := Fetched(s);
    assert FetchWord(s) == hi * 0x100 + lo;
    ExecArithIs(f, q, AddReg(x, y), rnd);
  }

  lemma DecodeAddProgram()
    ensures Decode(0x6A05) == SetImm(0xA, 0x05)
    ensures Decode(0x6B03) == SetImm(0xB, 0x03)
    ensures Decode(0x8AB4) == AddReg(0xA, 0xB)
  {
  }

  // --------------------------------------------------------------- timers

  /** `n` successive timer ticks. */
  function Ticks(s: State, n: nat): State
  {
    if n == 0 then s else Tick(Ticks(s, n - 1))
  }

  function Floor0(a: int): nat
  {
    if a > 0 then a else 0
  }

  /** A tick decrements each timer that is not yet zero. */
  lemma TickCountsDown(s: State)
    ensures var t := Tick(s);
      && t.delay == Floor0(s.delay - 1) && t.sound == Floor0(s.sound - 1)
      && t == s.(delay := t.delay, sound := t.sound)
  {
  }

  /** After `n` ticks each timer has counted down by `n`, stopping at zero,
      and nothing else has changed. */
  lemma {:induction false} TicksCountDown(s: State, n: nat)
    ensures var t := Ticks(s, n);
      && t.delay == Floor0(s.delay - n) && t.sound == Floor0(s.sound - n)
      && t == s.(delay := t.delay, sound := t.sound)
  {
    if n > 0 {
      TicksCountDown(s, n - 1);
    }
  }

  // --------------------------------------------------- construction, loading

  /** Loading a program into a new machine keeps the glyph table, which
      lies below StartAddr. */
  lemma LoadRomKeepsFont(rom: seq<Byte>)
    requires |rom| <= RamSize - StartAddr
    ensures LoadRom(Initial(), rom).ram[FontAddr..FontAddr + FontSize] == FontSet
  {
    var t := LoadRom(Initial(), rom);
    assert forall a :: FontAddr <= a < FontAddr + FontSize ==> t.ram[a] == Initial().ram[a];
  }
}
