/** Instruction by instruction, the core's datapath computes what the simulator
    says. */
module CoreArith {
  import opened Arith
  import opened Bytes
  import opened ByteMemory
  import opened RiscvM
  import opened Words
  import Iss
  import opened Core

  // ---------------------------------------------------------------- casts

  lemma CastWord(v: int)
    requires -TWO63 <= v < TWO64
    ensures Iss.Cast64(v) == Word64(v)
  {
    DivUnique(v, TWO64, if v < 0 then -1 else 0, Word64(v));
  }

  /** A sum of two words cut to 64 bits, however its parts were signed. */
  lemma CastCut(v: int, w: int)
    requires -(TWO64 as int) <= v < 2 * TWO64 && (w == v || w == v - TWO64 || w == v + TWO64 || w == v - 2 * TWO64)
    ensures Iss.Cast64(w) == Cut64(v)
  {
    var c := Cut64(v);
    var k := (if v < 0 then -1 else if v >= TWO64 then 1 else 0)
             + (if w == v then 0 else if w == v - TWO64 then -1 else if w == v + TWO64 then 1 else -2);
    DivUnique(w, TWO64, k, c);
  }

  lemma CastCut32(v: int, w: int)
    requires -TWO32 <= v < 2 * TWO32 && (w == v || w == v - TWO32 || w == v + TWO32 || w == v - 2 * TWO32)
    ensures Iss.Cast32(w) == Extend32(Cut32(v))
  {
    var c := Cut32(v);
    var k := (if v < 0 then -1 else if v >= TWO32 then 1 else 0)
             + (if w == v then 0 else if w == v - TWO32 then -1 else if w == v + TWO32 then 1 else -2);
    DivUnique(w, TWO32, k, c);
  }

  lemma CastWord32(v: int)
    requires -TWO31 <= v < TWO32
    ensures Iss.Cast32(v) == Extend32(Word32(v))
    ensures v < TWO31 ==> Iss.Cast64(v) == Iss.Cast32(v)
  {
    DivUnique(v, TWO32, if v < 0 then -1 else 0, Word32(v));
    CastWord(v);
  }

  // ---------------------------------------------------------------- immediates

  lemma ImmediateI(i: nat)
    requires i < TWO32
    ensures Iss.Cast64(Iss.IImm(i)) == ImmI(i)
    ensures ImmI(i) % 0x40 == Iss.Shamt(i) && ImmI(i) % 0x20 == Iss.ShamtW(i)
  {
    CastWord(Iss.IImm(i));
  }

  lemma ImmediateS(i: nat)
    requires i < TWO32
    ensures Iss.Cast64(Iss.SImm(i)) == ImmS(i)
  {
    CastWord(Iss.SImm(i));
  }

  lemma ImmediateB(i: nat)
    requires i < TWO32
    ensures Iss.Cast64(Iss.BImm(i)) == ImmB(i)
  {
    CastWord(Iss.BImm(i));
  }

  lemma ImmediateU(i: nat)
    requires i < TWO32
    ensures Iss.Cast64(Iss.UImm(i)) == ImmU(i)
  {
    CastWord(Iss.UImm(i));
  }

  lemma ImmediateJ(i: nat)
    requires i < TWO32
    ensures Iss.Cast64(Iss.JImm(i)) == ImmJ(i)
  {
    CastWord(Iss.JImm(i));
  }

  // ---------------------------------------------------------------- additions, comparisons, shifts

  lemma Sums(a: nat, b: nat)
    requires a < TWO64 && b < TWO64
    ensures Iss.Cast64(Signed64(a) + Signed64(b)) == Cut64(a + b)
    ensures Iss.Cast64(Signed64(a) - Signed64(b)) == Cut64(a - b)
    ensures Iss.Cast64(a + b) == Cut64(a + b)
  {
    CastCut(a + b, Signed64(a) + Signed64(b));
    CastCut(a + b, a + b);
    var d := Signed64(a) - Signed64(b);
    CastCut(a - b, a - b);
    CastCongruent(d, a - b, if a >= TWO63 && b < TWO63 then -1 else if a < TWO63 && b >= TWO63 then 1 else 0);
  }

  /** Numbers that differ by a multiple of 2^64 have the same cast. */
  lemma CastCongruent(v: int, w: int, k: int)
    requires v == w + k * TWO64
    ensures Iss.Cast64(v) == Iss.Cast64(w)
  {
    DivUnique(v, TWO64, w / TWO64 + k, w % TWO64);
  }

  lemma CastCongruent32(v: int, w: int, k: int)
    requires v == w + k * TWO32
    ensures v % TWO32 == w % TWO32
  {
    DivUnique(v, TWO32, w / TWO32 + k, w % TWO32);
  }

  lemma Sums32(a: nat, b: nat)
    requires a < TWO32 && b < TWO32
    ensures Iss.Cast32(Signed32(a) + Signed32(b)) == Extend32(Cut32(a + b))
    ensures Iss.Cast32(Signed32(a) - Signed32(b)) == Extend32(Cut32(a - b))
  {
    CastCut32(a + b, Signed32(a) + Signed32(b));
    CastCut32(a - b, a - b);
    CastCongruent32(Signed32(a) - Signed32(b), a - b,
                    if a >= TWO31 && b < TWO31 then -1 else if a < TWO31 && b >= TWO31 then 1 else 0);
  }

  /** The low word of an immediate, as ADDIW adds it. */
  lemma SumImm32(a: nat, imm: int)
    requires a < TWO32 && -0x800 <= imm < 0x800
    ensures Iss.Cast32(Signed32(a) + imm) == Extend32(Cut32(a + Low32(Iss.Cast64(imm))))
  {
    CastWord(imm);
    var l := Low32(Iss.Cast64(imm));
    DivUnique(Word64(imm), TWO32, if imm < 0 then TWO32 - 1 else 0, Word32(imm));
    assert imm == Signed32(l);
    Sums32(a, l);
  }

  lemma Shifts32(a: nat, n: nat)
    requires a < TWO32
    ensures Iss.Cast32(ShiftUp(Signed32(a), n)) == Extend32(ShiftLeft32(a, n))
    ensures Iss.Cast32(ShiftDown(a, n)) == Extend32(ShiftDown(a, n))
    ensures -TWO31 <= ShiftDown(Signed32(a), n) < TWO31
    ensures Iss.Cast32(ShiftDown(Signed32(a), n)) == Extend32(Word32(ShiftDown(Signed32(a), n)))
  {
    var k := if a >= TWO31 then -1 else 0;
    ShiftUpHigh(a, k, n);
    CastCongruent32(ShiftUp(Signed32(a), n), ShiftUp(a, n), ShiftUp(k, n));
    CastWord32(ShiftDown(a, n));
    CastWord32(ShiftDown(Signed32(a), n));
  }

  /** A shift amount is the low bits of its register, whichever width it is read
      at. */
  lemma Amounts(b: nat)
    ensures Low32(b) % 0x20 == b % 0x20
  {
  }

  // ---------------------------------------------------------------- encodings

  lemma FunctBits(i: nat)
    requires i < TWO32
    ensures Slice(i, 0x4000_0000, 2) == (Iss.Funct7(i) / 0x20) % 2 && Slice(i, 0x200_0000, 2) == Iss.Funct7(i) % 2
    ensures Slice(i, 1, 0x80) == Iss.Opcode(i)
  {
  }

  /** The shift encodings of OP-IMM. */
  predicate KnownImm(i: nat) {
    && (Iss.Funct3(i) == 1 ==> Iss.Funct7(i) < 2)
    && (Iss.Funct3(i) == 5 ==> Iss.Funct7(i) < 2 || 0x20 <= Iss.Funct7(i) < 0x22)
  }

  predicate KnownReg(i: nat) {
    var f7 := Iss.Funct7(i);
    f7 == 0 || f7 == 1 || (f7 == 0x20 && (Iss.Funct3(i) == 0 || Iss.Funct3(i) == 5))
  }

  predicate KnownImm32(i: nat) {
    var f3, f7 := Iss.Funct3(i), Iss.Funct7(i);
    f3 == 0 || (f3 == 1 && f7 == 0) || (f3 == 5 && (f7 == 0 || f7 == 0x20))
  }

  predicate KnownReg32(i: nat) {
    var f3, f7 := Iss.Funct3(i), Iss.Funct7(i);
    || (f7 == 0 && (f3 == 0 || f3 == 1 || f3 == 5))
    || (f7 == 0x20 && (f3 == 0 || f3 == 5))
    || (f7 == 1 && (f3 == 0 || f3 >= 4))
  }

  // ---------------------------------------------------------------- operations

  lemma ImmRange(i: nat)
    requires i < TWO32
    ensures -0x800 <= Iss.IImm(i) < 0x800
  {
  }

  lemma ImmIsSigned(i: nat)
    requires i < TWO32
    ensures ImmI(i) < TWO64 && Signed64(ImmI(i)) == Iss.IImm(i)
  {
    ImmediateI(i);
    ImmRange(i);
    CastWord(Iss.IImm(i));
  }

  lemma ArithShift(x1: nat, n: nat)
    requires x1 < TWO64
    ensures Iss.Cast64(ShiftDown(Signed64(x1), n)) == Word64(ShiftDown(Signed64(x1), n))
  {
    CastWord(ShiftDown(Signed64(x1), n));
  }

  lemma ImmControls(i: nat)
    requires i < TWO32 && (Iss.Opcode(i) == 0x13 || Iss.Opcode(i) == 0x1B)
    ensures var d := Decode(i); var b30 := (Iss.Funct7(i) / 0x20) % 2 == 1;
            && d.imm == ImmI(i) < TWO64 && d.isWord == (Iss.Opcode(i) == 0x1B)
            && d.aluOp == if d.isWord then ImmAluOpW(Iss.Funct3(i), b30) else ImmAluOp(Iss.Funct3(i), b30)
  {
    FunctBits(i);
    ImmFits(i);
  }

  lemma RegControls(i: nat)
    requires i < TWO32 && (Iss.Opcode(i) == 0x33 || Iss.Opcode(i) == 0x3B) && Iss.Funct7(i) % 2 == 0
    ensures var d := Decode(i); var b30 := (Iss.Funct7(i) / 0x20) % 2 == 1;
            && d.isWord == (Iss.Opcode(i) == 0x3B)
            && d.aluOp == if d.isWord then RegAluOpW(Iss.Funct3(i), b30) else RegAluOp(Iss.Funct3(i), b30)
  {
    FunctBits(i);
  }

  lemma OpImmPlain(i: nat, x1: nat, op: nat)
    requires i < TWO32 && x1 < TWO64 && Iss.Funct3(i) != 1 && Iss.Funct3(i) != 5 && op == ImmAluOp(Iss.Funct3(i), false)
    ensures ImmI(i) < TWO64 && Iss.OpImm(i, x1) == Iss.Value(Alu64(op, x1, ImmI(i)))
  {
    ImmIsSigned(i);
    ImmediateI(i);
    Sums(x1, ImmI(i));
  }

  lemma SlliMatches(i: nat, x1: nat)
    requires i < TWO32 && x1 < TWO64 && KnownImm(i) && Iss.Funct3(i) == 1
    ensures ImmI(i) < TWO64 && Iss.OpImm(i, x1) == Iss.Value(Alu64(2, x1, ImmI(i)))
  {
    ImmediateI(i);
  }

  lemma SrliIs(i: nat, x1: nat)
    requires x1 < TWO64 && Iss.Funct3(i) == 5 && Iss.Funct7(i) - Iss.Funct7(i) % 2 == 0
    ensures Iss.OpImm(i, x1) == Iss.Value(ShiftDown(x1, Iss.Shamt(i)))
  {
  }

  lemma ShiftsAre(a: nat, b: nat)
    requires a < TWO64 && b < TWO64
    ensures Alu64(2, a, b) == ShiftLeft64(a, b % 0x40) && Alu64(6, a, b) == ShiftDown(a, b % 0x40)
  {
  }

  lemma SrliMatches(i: nat, x1: nat)
    requires i < TWO32 && x1 < TWO64 && Iss.Funct3(i) == 5 && Iss.Funct7(i) < 2
    ensures ImmI(i) < TWO64 && Iss.OpImm(i, x1) == Iss.Value(Alu64(6, x1, ImmI(i)))
  {
    EvenPart(Iss.Funct7(i));
    SrliIs(i, x1);
    ImmediateI(i);
    ShiftsAre(x1, ImmI(i));
  }

  lemma EvenPart(f: nat)
    ensures f < 2 ==> f - f % 2 == 0
    ensures 0x20 <= f < 0x22 ==> f - f % 2 == 0x20
  {
  }

  lemma SraiIs(i: nat, x1: nat)
    requires x1 < TWO64 && Iss.Funct3(i) == 5 && Iss.Funct7(i) - Iss.Funct7(i) % 2 == 0x20
    ensures Iss.OpImm(i, x1) == Iss.Value(Iss.Cast64(ShiftDown(Signed64(x1), Iss.Shamt(i))))
  {
  }

  lemma SraiMatches(i: nat, x1: nat)
    requires i < TWO32 && x1 < TWO64 && Iss.Funct3(i) == 5 && 0x20 <= Iss.Funct7(i) < 0x22
    ensures ImmI(i) < TWO64 && Iss.OpImm(i, x1) == Iss.Value(Alu64(7, x1, ImmI(i)))
  {
    EvenPart(Iss.Funct7(i));
    SraiIs(i, x1);
    ImmediateI(i);
    ArithShift(x1, Iss.Shamt(i));
  }

  lemma ShiftOps(f3: nat, f7: nat)
    requires f7 < 0x80
    ensures f3 == 1 ==> ImmAluOp(f3, (f7 / 0x20) % 2 == 1) == 2
    ensures f3 == 5 && f7 < 2 ==> ImmAluOp(f3, (f7 / 0x20) % 2 == 1) == 6
    ensures f3 == 5 && 0x20 <= f7 < 0x22 ==> ImmAluOp(f3, (f7 / 0x20) % 2 == 1) == 7
  {
  }

  lemma OpImmShift(i: nat, x1: nat, op: nat)
    requires i < TWO32 && x1 < TWO64 && KnownImm(i) && (Iss.Funct3(i) == 1 || Iss.Funct3(i) == 5)
    requires op == ImmAluOp(Iss.Funct3(i), (Iss.Funct7(i) / 0x20) % 2 == 1)
    ensures ImmI(i) < TWO64 && Iss.OpImm(i, x1) == Iss.Value(Alu64(op, x1, ImmI(i)))
  {
    ShiftOps(Iss.Funct3(i), Iss.Funct7(i));
    if Iss.Funct3(i) == 1 {
      SlliMatches(i, x1);
    } else if Iss.Funct7(i) < 2 {
      SrliMatches(i, x1);
    } else {
      SraiMatches(i, x1);
    }
  }

  lemma OpImmMatches(i: nat, x1: nat)
    requires i < TWO32 && x1 < TWO64 && Iss.Opcode(i) == 0x13 && KnownImm(i)
    ensures Decode(i).imm < TWO64
    ensures Iss.OpImm(i, x1) == Iss.Value(Alu(Decode(i).aluOp, Decode(i).isWord, x1, Decode(i).imm))
  {
    ImmControls(i);
    if Iss.Funct3(i) == 1 || Iss.Funct3(i) == 5 {
      OpImmShift(i, x1, Decode(i).aluOp);
    } else {
      OpImmPlain(i, x1, Decode(i).aluOp);
    }
  }

  lemma AddSub(i: nat, x1: nat, x2: nat)
    requires x1 < TWO64 && x2 < TWO64 && Iss.Funct3(i) == 0
    ensures Iss.Funct7(i) == 0 ==> Iss.OpReg(i, x1, x2) == Iss.Value(Alu64(0, x1, x2))
    ensures Iss.Funct7(i) == 0x20 ==> Iss.OpReg(i, x1, x2) == Iss.Value(Alu64(1, x1, x2))
  {
    Sums(x1, x2);
  }

  lemma ShiftReg(i: nat, x1: nat, x2: nat)
    requires x1 < TWO64 && x2 < TWO64 && Iss.Funct3(i) == 5
    ensures Iss.Funct7(i) == 0 ==> Iss.OpReg(i, x1, x2) == Iss.Value(Alu64(6, x1, x2))
    ensures Iss.Funct7(i) == 0x20 ==> Iss.OpReg(i, x1, x2) == Iss.Value(Alu64(7, x1, x2))
  {
    ArithShift(x1, x2 % 0x40);
  }

  lemma PlainReg(i: nat, x1: nat, x2: nat)
    requires x1 < TWO64 && x2 < TWO64 && Iss.Funct3(i) != 0 && Iss.Funct3(i) != 5 && Iss.Funct7(i) == 0
    ensures Iss.OpReg(i, x1, x2) == Iss.Value(Alu64(RegAluOp(Iss.Funct3(i), false), x1, x2))
  {
  }

  lemma OpRegMatches(i: nat, x1: nat, x2: nat)
    requires i < TWO32 && x1 < TWO64 && x2 < TWO64 && Iss.Opcode(i) == 0x33 && KnownReg(i) && Iss.Funct7(i) != 1
    ensures Iss.OpReg(i, x1, x2) == Iss.Value(Alu(Decode(i).aluOp, Decode(i).isWord, x1, x2))
  {
    RegControls(i);
    if Iss.Funct3(i) == 0 {
      AddSub(i, x1, x2);
    } else if Iss.Funct3(i) == 5 {
      ShiftReg(i, x1, x2);
    } else {
      PlainReg(i, x1, x2);
    }
  }

  lemma AddiwIs(i: nat, x1: nat)
    requires Iss.Funct3(i) == 0
    ensures Iss.OpImm32(i, x1) == Iss.Value(Iss.Cast32(Iss.S32(x1) + Iss.IImm(i)))
  {
  }

  lemma AddsW(a: nat, b: nat)
    ensures Alu32(0, a, b) == Cut32(Low32(a) + Low32(b)) && Alu32(1, a, b) == Cut32(Low32(a) - Low32(b))
  {
  }

  lemma AddiwMatches(i: nat, x1: nat)
    requires i < TWO32 && x1 < TWO64 && Iss.Funct3(i) == 0
    ensures Iss.OpImm32(i, x1) == Iss.Value(Extend32(Alu32(0, x1, ImmI(i))))
  {
    ImmRange(i);
    AddiwIs(i, x1);
    AddsW(x1, ImmI(i));
    ImmediateI(i);
    SumImm32(Low32(x1), Iss.IImm(i));
  }

  lemma ShiftwIs(i: nat, x1: nat)
    ensures Iss.Funct3(i) == 1 && Iss.Funct7(i) == 0 ==>
      Iss.OpImm32(i, x1) == Iss.Value(Iss.Cast32(ShiftUp(Iss.S32(x1), Iss.ShamtW(i))))
    ensures Iss.Funct3(i) == 5 && Iss.Funct7(i) == 0 ==>
      Iss.OpImm32(i, x1) == Iss.Value(Iss.Cast32(ShiftDown(Low32(x1), Iss.ShamtW(i))))
    ensures Iss.Funct3(i) == 5 && Iss.Funct7(i) == 0x20 ==>
      Iss.OpImm32(i, x1) == Iss.Value(Iss.Cast32(ShiftDown(Iss.S32(x1), Iss.ShamtW(i))))
  {
  }

  lemma ShiftsWAre(a: nat, b: nat)
    ensures Alu32(2, a, b) == ShiftLeft32(Low32(a), b % 0x20) && Alu32(6, a, b) == ShiftDown(Low32(a), b % 0x20)
    ensures Alu32(7, a, b) == Word32(ShiftDown(Signed32(Low32(a)), b % 0x20))
  {
  }

  lemma ShiftwOps(f3: nat, f7: nat)
    ensures f3 == 1 ==> ImmAluOpW(f3, (f7 / 0x20) % 2 == 1) == 2
    ensures f3 == 5 && f7 == 0 ==> ImmAluOpW(f3, (f7 / 0x20) % 2 == 1) == 6
    ensures f3 == 5 && f7 == 0x20 ==> ImmAluOpW(f3, (f7 / 0x20) % 2 == 1) == 7
  {
  }

  lemma ShiftwValues(x1: nat, imm: nat, n: nat)
    requires n == imm % 0x20
    ensures Iss.Cast32(ShiftUp(Iss.S32(x1), n)) == Extend32(Alu32(2, x1, imm))
    ensures Iss.Cast32(ShiftDown(Low32(x1), n)) == Extend32(Alu32(6, x1, imm))
    ensures Iss.Cast32(ShiftDown(Iss.S32(x1), n)) == Extend32(Alu32(7, x1, imm))
  {
    ShiftsWAre(x1, imm);
    Shifts32(Low32(x1), n);
  }

  lemma ShiftwMatches(i: nat, x1: nat, op: nat)
    requires i < TWO32 && x1 < TWO64 && KnownImm32(i) && Iss.Funct3(i) != 0
    requires op == ImmAluOpW(Iss.Funct3(i), (Iss.Funct7(i) / 0x20) % 2 == 1)
    ensures Iss.OpImm32(i, x1) == Iss.Value(Extend32(Alu32(op, x1, ImmI(i))))
  {
    ImmediateI(i);
    ShiftwOps(Iss.Funct3(i), Iss.Funct7(i));
    ShiftwIs(i, x1);
    ShiftwValues(x1, ImmI(i), Iss.ShamtW(i));
  }

  lemma OpImm32Alu(i: nat, x1: nat, op: nat)
    requires i < TWO32 && x1 < TWO64 && KnownImm32(i)
    requires op == ImmAluOpW(Iss.Funct3(i), (Iss.Funct7(i) / 0x20) % 2 == 1)
    ensures Iss.OpImm32(i, x1) == Iss.Value(Extend32(Alu32(op, x1, ImmI(i))))
  {
    if Iss.Funct3(i) == 0 {
      AddiwMatches(i, x1);
    } else {
      ShiftwMatches(i, x1, op);
    }
  }

  lemma OpImm32Matches(i: nat, x1: nat)
    requires i < TWO32 && x1 < TWO64 && Iss.Opcode(i) == 0x1B && KnownImm32(i)
    ensures Decode(i).imm < TWO64
    ensures Iss.OpImm32(i, x1) == Iss.Value(Alu(Decode(i).aluOp, Decode(i).isWord, x1, Decode(i).imm))
  {
    ImmControls(i);
    OpImm32Alu(i, x1, Decode(i).aluOp);
  }

  lemma AddSubW(i: nat, x1: nat, x2: nat)
    requires x1 < TWO64 && x2 < TWO64 && Iss.Funct3(i) == 0
    ensures Iss.Funct7(i) == 0 ==> Iss.OpReg32(i, x1, x2) == Iss.Value(Extend32(Alu32(0, x1, x2)))
    ensures Iss.Funct7(i) == 0x20 ==> Iss.OpReg32(i, x1, x2) == Iss.Value(Extend32(Alu32(1, x1, x2)))
  {
    AddsW(x1, x2);
    Sums32(Low32(x1), Low32(x2));
  }

  lemma ShiftRegW(i: nat, x1: nat, x2: nat)
    requires x1 < TWO64 && x2 < TWO64
    ensures Iss.Funct3(i) == 1 && Iss.Funct7(i) == 0 ==> Iss.OpReg32(i, x1, x2) == Iss.Value(Extend32(Alu32(2, x1, x2)))
    ensures Iss.Funct3(i) == 5 && Iss.Funct7(i) == 0 ==> Iss.OpReg32(i, x1, x2) == Iss.Value(Extend32(Alu32(6, x1, x2)))
    ensures Iss.Funct3(i) == 5 && Iss.Funct7(i) == 0x20 ==>
      Iss.OpReg32(i, x1, x2) == Iss.Value(Extend32(Alu32(7, x1, x2)))
  {
    Amounts(x2);
    Shifts32(Low32(x1), x2 % 0x20);
  }

  lemma OpReg32Alu(i: nat, x1: nat, x2: nat, op: nat)
    requires x1 < TWO64 && x2 < TWO64 && KnownReg32(i) && Iss.Funct7(i) != 1
    requires op == RegAluOpW(Iss.Funct3(i), (Iss.Funct7(i) / 0x20) % 2 == 1)
    ensures Iss.OpReg32(i, x1, x2) == Iss.Value(Extend32(Alu32(op, x1, x2)))
  {
    if Iss.Funct3(i) == 0 {
      AddSubW(i, x1, x2);
    } else {
      ShiftRegW(i, x1, x2);
    }
  }

  lemma OpReg32Matches(i: nat, x1: nat, x2: nat)
    requires i < TWO32 && x1 < TWO64 && x2 < TWO64 && Iss.Opcode(i) == 0x3B && KnownReg32(i) && Iss.Funct7(i) != 1
    ensures Iss.OpReg32(i, x1, x2) == Iss.Value(Alu(Decode(i).aluOp, Decode(i).isWord, x1, x2))
  {
    RegControls(i);
    OpReg32Alu(i, x1, x2, Decode(i).aluOp);
  }

  lemma BranchMatches(f3: nat, x1: nat, x2: nat)
    requires x1 < TWO64 && x2 < TWO64 && f3 < 8 && Iss.BranchKnown(f3)
    ensures Iss.Taken(f3, x1, x2) == BranchTaken(f3, x1, x2)
  {
  }
}
