/** What the assembler writes, the simulator reads back: every field of every
    instruction, at the address the first pass gave it. */
module AsmProof {
  import opened Arith
  import opened Bytes
  import opened ByteMemory
  import opened RiscvM
  import opened Words
  import Iss
  import opened CoreArith
  import opened CoreMem
  import opened CoreProof
  import opened Asm

  // ---------------------------------------------------------------- formats

  /** A field sits above the `low` bits and below the `hi` ones. */
  lemma FieldAt(w: nat, lo: nat, width: nat, hi: nat, f: nat, low: nat)
    requires lo > 0 && f < width && low < lo && w == (hi * width + f) * lo + low
    ensures w / lo == hi * width + f && (w / lo) % width == f
  {
    assert (hi * width + f) * lo == lo * (hi * width + f);
    DivUnique(w, lo, hi * width + f, low);
    assert hi * width == width * hi;
    DivUnique(hi * width + f, width, hi, f);
  }

  /** The six parts every instruction word splits into. */
  predicate Parts(w: nat, opcode: nat, d: nat, f3: nat, s1: nat, s2: nat, f7: nat) {
    && opcode < 0x80 && d < 0x20 && f3 < 8 && s1 < 0x20 && s2 < 0x20 && f7 < 0x80
    && w == f7 * 0x200_0000 + s2 * 0x10_0000 + s1 * 0x8000 + f3 * 0x1000 + d * 0x80 + opcode
  }

  lemma PartsRead(w: nat, opcode: nat, d: nat, f3: nat, s1: nat, s2: nat, f7: nat)
    requires Parts(w, opcode, d, f3, s1, s2, f7)
    ensures w < TWO32 && Iss.Opcode(w) == opcode && Iss.Rd(w) == d && Iss.Funct3(w) == f3
    ensures Iss.Rs1(w) == s1 && Iss.Rs2(w) == s2 && Iss.Funct7(w) == f7
    ensures w / 0x200_0000 == f7 && w / 0x10_0000 == f7 * 0x20 + s2
  {
    var u3 := f7 * 0x20 + s2;
    var u2 := u3 * 0x20 + s1;
    var u1 := u2 * 8 + f3;
    DivUnique(w, 0x80, u1 * 0x20 + d, opcode);
    FieldAt(w, 0x80, 0x20, u1, d, opcode);
    FieldAt(w, 0x1000, 8, u2, f3, d * 0x80 + opcode);
    FieldAt(w, 0x8000, 0x20, u3, s1, f3 * 0x1000 + d * 0x80 + opcode);
    var l := s1 * 0x8000 + f3 * 0x1000 + d * 0x80 + opcode;
    FieldAt(w, 0x10_0000, 0x20, f7, s2, l);
    FieldAt(w, 0x200_0000, 0x80, 0, f7, s2 * 0x10_0000 + l);
  }

  lemma RFormat(f7: nat, rs2: nat, rs1: nat, f3: nat, rd: nat, opcode: nat)
    requires f7 < 0x80 && rs2 < 32 && rs1 < 32 && f3 < 8 && rd < 32 && opcode < 0x80
    ensures var w := RWord(f7, rs2, rs1, f3, rd, opcode);
            && w < TWO32 && Iss.Opcode(w) == opcode && Iss.Rd(w) == rd && Iss.Funct3(w) == f3
            && Iss.Rs1(w) == rs1 && Iss.Rs2(w) == rs2 && Iss.Funct7(w) == f7
  {
    PartsRead(RWord(f7, rs2, rs1, f3, rd, opcode), opcode, rd, f3, rs1, rs2, f7);
  }

  lemma IFormat(imm: int, rs1: nat, f3: nat, rd: nat, opcode: nat)
    requires rs1 < 32 && f3 < 8 && rd < 32 && opcode < 0x80
    ensures var w := IWord(imm, rs1, f3, rd, opcode);
            && w < TWO32 && Iss.Opcode(w) == opcode && Iss.Rd(w) == rd && Iss.Funct3(w) == f3 && Iss.Rs1(w) == rs1
            && Iss.Rs2(w) == (imm % 0x1000) % 0x20 && Iss.Funct7(w) == (imm % 0x1000) / 0x20
            && w / 0x10_0000 == imm % 0x1000
  {
    var i := imm % 0x1000;
    PartsRead(IWord(imm, rs1, f3, rd, opcode), opcode, rd, f3, rs1, i % 0x20, i / 0x20);
  }

  lemma SignedDiv(v: int, m: int)
    requires m > 0 && -m <= v < m
    ensures v % m == if v < 0 then v + m else v
  {
    if v < 0 {
      DivUnique(v, m, -1, v + m);
    } else {
      DivUnique(v, m, 0, v);
    }
  }

  /** A signed immediate comes back from its low bits. */
  lemma IImmBack(w: nat, imm: int)
    requires -2048 <= imm <= 2047 && w / 0x10_0000 == imm % 0x1000
    ensures Iss.IImm(w) == imm
  {
    SignedDiv(imm, 0x1000);
  }

  lemma SFormat(imm: int, rs2: nat, rs1: nat, f3: nat, opcode: nat)
    requires rs2 < 32 && rs1 < 32 && f3 < 8 && opcode < 0x80 && -2048 <= imm <= 2047
    ensures var w := SWord(imm, rs2, rs1, f3, opcode);
            && w < TWO32 && Iss.Opcode(w) == opcode && Iss.Funct3(w) == f3 && Iss.Rs1(w) == rs1 && Iss.Rs2(w) == rs2
            && Iss.SImm(w) == imm
  {
    var i := imm % 0x1000;
    PartsRead(SWord(imm, rs2, rs1, f3, opcode), opcode, i % 0x20, f3, rs1, rs2, i / 0x20);
    SignedDiv(imm, 0x1000);
  }

  /** The bits of a branch word, by their places in the offset. */
  lemma BBits(w: nat, b12: nat, b10: nat, b4: nat, b11: nat, rs2: nat, rs1: nat, f3: nat, opcode: nat)
    requires b12 < 2 && b10 < 0x40 && b4 < 0x10 && b11 < 2
    requires Parts(w, opcode, b4 * 2 + b11, f3, rs1, rs2, b12 * 0x40 + b10)
    ensures (w / 0x8000_0000) % 2 == b12 && (w / 0x80) % 2 == b11
    ensures (w / 0x200_0000) % 0x40 == b10 && (w / 0x100) % 0x10 == b4
  {
    var l := rs2 * 0x10_0000 + rs1 * 0x8000 + f3 * 0x1000 + (b4 * 2 + b11) * 0x80 + opcode;
    var u := (((b12 * 0x40 + b10) * 0x20 + rs2) * 0x20 + rs1) * 8 + f3;
    FieldAt(w, 0x8000_0000, 2, 0, b12, b10 * 0x200_0000 + l);
    FieldAt(w, 0x200_0000, 0x40, b12, b10, l);
    FieldAt(w, 0x100, 0x10, u, b4, b11 * 0x80 + opcode);
    FieldAt(w, 0x80, 2, u * 0x10 + b4, b11, opcode);
  }

  /** An even number is put together again from its bits. */
  lemma Gather(i: nat, imm: int, m: int)
    requires (m == 0x1000 || m == 0x10_0000) && i == imm % (2 * m) && -m <= imm < m
    ensures Iss.Sext(i, m) == imm
  {
    SignedDiv(imm, 2 * m);
  }

  lemma BFormat(imm: int, rs2: nat, rs1: nat, f3: nat, opcode: nat)
    requires rs2 < 32 && rs1 < 32 && f3 < 8 && opcode < 0x80 && -4096 <= imm <= 4094 && imm % 2 == 0
    ensures var w := BWord(imm, rs2, rs1, f3, opcode);
            && w < TWO32 && Iss.Opcode(w) == opcode && Iss.Funct3(w) == f3 && Iss.Rs1(w) == rs1 && Iss.Rs2(w) == rs2
            && Iss.BImm(w) == imm
  {
    var w, i := BWord(imm, rs2, rs1, f3, opcode), imm % 0x2000;
    var b12, b10, b4, b11 := (i / 0x1000) % 2, (i / 0x20) % 0x40, (i / 2) % 0x10, (i / 0x800) % 2;
    BBits(w, b12, b10, b4, b11, rs2, rs1, f3, opcode);
    PartsRead(w, opcode, b4 * 2 + b11, f3, rs1, rs2, b12 * 0x40 + b10);
    BSplit(imm);
    Gather(i, imm, 0x1000);
  }

  lemma EvenRest(imm: int, m: int)
    requires m > 0 && imm % 2 == 0
    ensures (imm % (2 * m)) % 2 == 0
  {
    var q, r := imm / (2 * m), imm % (2 * m);
    assert imm == (2 * m) * q + r;
    assert (2 * m) * q == 2 * (m * q);
    DivUnique(r, 2, imm / 2 - m * q, 0);
  }

  lemma BSplit(imm: int)
    requires imm % 2 == 0
    ensures var i := imm % 0x2000;
            i == ((i / 0x1000) % 2) * 0x1000 + ((i / 0x800) % 2) * 0x800 + ((i / 0x20) % 0x40) * 0x20
                 + ((i / 2) % 0x10) * 2
  {
    var i := imm % 0x2000;
    EvenRest(imm, 0x1000);
    DivModAgain(i, 0x1000);
    BDigits(i, i / 0x1000, i % 0x1000);
  }

  lemma BDigitsAre(i: nat, top: nat, b11: nat, b10: nat, b4: nat)
    requires top < 2 && b11 < 2 && b10 < 0x40 && b4 < 0x10
    requires i == top * 0x1000 + b11 * 0x800 + b10 * 0x20 + b4 * 2
    ensures (i / 0x1000) % 2 == top && (i / 0x800) % 2 == b11 && (i / 0x20) % 0x40 == b10 && (i / 2) % 0x10 == b4
  {
    FieldAt(i, 0x1000, 2, 0, top, b11 * 0x800 + b10 * 0x20 + b4 * 2);
    FieldAt(i, 0x800, 2, top, b11, b10 * 0x20 + b4 * 2);
    FieldAt(i, 0x20, 0x40, top * 2 + b11, b10, b4 * 2);
    FieldAt(i, 2, 0x10, (top * 2 + b11) * 0x40 + b10, b4, 0);
  }

  lemma EvenTail(i: nat, k: nat, m: nat)
    requires i == 2 * k + m && i % 2 == 0
    ensures m % 2 == 0 && m == 2 * (m / 2)
  {
  }

  lemma BDigits(i: nat, top: nat, rest: nat)
    requires i < 0x2000 && i % 2 == 0 && i == top * 0x1000 + rest && rest < 0x1000
    ensures (i / 0x1000) % 2 == top
    ensures i == top * 0x1000 + ((i / 0x800) % 2) * 0x800 + ((i / 0x20) % 0x40) * 0x20 + ((i / 2) % 0x10) * 2
  {
    var b11, l := rest / 0x800, rest % 0x800;
    var b10, m := l / 0x20, l % 0x20;
    EvenTail(i, top * 0x800 + b11 * 0x400 + b10 * 0x10, m);
    BDigitsAre(i, top, b11, b10, m / 2);
  }

  lemma UFormat(imm20: nat, rd: nat, opcode: nat)
    requires imm20 < 0x10_0000 && rd < 32 && opcode < 0x80
    ensures var w := UWord(imm20 * 0x1000, rd, opcode);
            && w < TWO32 && Iss.Opcode(w) == opcode && Iss.Rd(w) == rd
            && Iss.UImm(w) == Iss.Sext(imm20 * 0x1000, TWO31)
  {
    var w := UWord(imm20 * 0x1000, rd, opcode);
    DivUnique(imm20 * 0x1000, 0x1000, imm20, 0);
    DivUnique(imm20 * 0x1000, 0x1_0000_0000, 0, imm20 * 0x1000);
    DivUnique(w, 0x80, imm20 * 0x20 + rd, opcode);
    FieldAt(w, 0x80, 0x20, imm20, rd, opcode);
    DivUnique(w, 0x1000, imm20, rd * 0x80 + opcode);
  }

  lemma JFormat(imm: int, rd: nat, opcode: nat)
    requires rd < 32 && opcode < 0x80 && -1048576 <= imm <= 1048574 && imm % 2 == 0
    ensures var w := JWord(imm, rd, opcode);
            w < TWO32 && Iss.Opcode(w) == opcode && Iss.Rd(w) == rd && Iss.JImm(w) == imm
  {
    var w, i := JWord(imm, rd, opcode), imm % 0x20_0000;
    var b20, b10, b11, b19 := (i / 0x10_0000) % 2, (i / 2) % 0x400, (i / 0x800) % 2, (i / 0x1000) % 0x100;
    JBits(w, b20, b10, b11, b19, rd, opcode);
    JSplit(imm);
    Gather(i, imm, 0x10_0000);
  }

  lemma JBits(w: nat, b20: nat, b10: nat, b11: nat, b19: nat, rd: nat, opcode: nat)
    requires b20 < 2 && b10 < 0x400 && b11 < 2 && b19 < 0x100 && rd < 32 && opcode < 0x80
    requires w == b20 * 0x8000_0000 + b10 * 0x20_0000 + b11 * 0x10_0000 + b19 * 0x1000 + rd * 0x80 + opcode
    ensures w < TWO32 && Iss.Opcode(w) == opcode && Iss.Rd(w) == rd
    ensures (w / 0x8000_0000) % 2 == b20 && (w / 0x1000) % 0x100 == b19
    ensures (w / 0x10_0000) % 2 == b11 && (w / 0x20_0000) % 0x400 == b10
  {
    var u3 := b20 * 0x400 + b10;
    var u2 := u3 * 2 + b11;
    var u1 := u2 * 0x100 + b19;
    DivUnique(w, 0x80, u1 * 0x20 + rd, opcode);
    FieldAt(w, 0x80, 0x20, u1, rd, opcode);
    FieldAt(w, 0x1000, 0x100, u2, b19, rd * 0x80 + opcode);
    FieldAt(w, 0x10_0000, 2, u3, b11, b19 * 0x1000 + rd * 0x80 + opcode);
    FieldAt(w, 0x20_0000, 0x400, b20, b10, b11 * 0x10_0000 + b19 * 0x1000 + rd * 0x80 + opcode);
    FieldAt(w, 0x8000_0000, 2, 0, b20, b10 * 0x20_0000 + b11 * 0x10_0000 + b19 * 0x1000 + rd * 0x80 + opcode);
  }

  lemma JSplit(imm: int)
    requires imm % 2 == 0
    ensures var i := imm % 0x20_0000;
            i == ((i / 0x10_0000) % 2) * 0x10_0000 + ((i / 0x1000) % 0x100) * 0x1000 + ((i / 0x800) % 2) * 0x800
                 + ((i / 2) % 0x400) * 2
  {
    var i := imm % 0x20_0000;
    EvenRest(imm, 0x10_0000);
    DivModAgain(i, 0x10_0000);
    JDigits(i, i / 0x10_0000, i % 0x10_0000);
  }

  lemma JDigitsAre(i: nat, top: nat, b19: nat, b11: nat, b10: nat)
    requires top < 2 && b19 < 0x100 && b11 < 2 && b10 < 0x400
    requires i == top * 0x10_0000 + b19 * 0x1000 + b11 * 0x800 + b10 * 2
    ensures (i / 0x10_0000) % 2 == top && (i / 0x1000) % 0x100 == b19
    ensures (i / 0x800) % 2 == b11 && (i / 2) % 0x400 == b10
  {
    FieldAt(i, 0x10_0000, 2, 0, top, b19 * 0x1000 + b11 * 0x800 + b10 * 2);
    FieldAt(i, 0x1000, 0x100, top, b19, b11 * 0x800 + b10 * 2);
    FieldAt(i, 0x800, 2, top * 0x100 + b19, b11, b10 * 2);
    FieldAt(i, 2, 0x400, (top * 0x100 + b19) * 2 + b11, b10, 0);
  }

  lemma JDigits(i: nat, top: nat, rest: nat)
    requires i < 0x20_0000 && i % 2 == 0 && i == top * 0x10_0000 + rest && rest < 0x10_0000
    ensures (i / 0x10_0000) % 2 == top
    ensures i == top * 0x10_0000 + ((i / 0x1000) % 0x100) * 0x1000 + ((i / 0x800) % 2) * 0x800 + ((i / 2) % 0x400) * 2
  {
    var b19, l := rest / 0x1000, rest % 0x1000;
    var b11, m := l / 0x800, l % 0x800;
    EvenTail(i, top * 0x8_0000 + b19 * 0x800 + b11 * 0x400, m);
    JDigitsAre(i, top, b19, b11, m / 2);
  }

  // ---------------------------------------------------------------- instructions

  /** The number an operand stands for: a label is its address. */
  predicate Stands(t: Target, labels: Labels, v: int) {
    match t
    case Label(name) => name in labels && labels[name] == v
    case LabelPlus(name, add) => name in labels && labels[name] + add == v
    case Number(n) => n == v
  }

  /** The way from `addr` to a label; a number is a distance already. */
  predicate Reaches(t: Target, addr: int, labels: Labels, v: int) {
    match t
    case Label(name) => name in labels && addr + v == labels[name]
    case LabelPlus(_, _) => false
    case Number(n) => n == v
  }

  predicate Source1(w: nat, f3: nat, rs1: nat) { Iss.Funct3(w) == f3 && Iss.Rs1(w) == rs1 }

  /** The simulator reads from the word what the statement says. */
  predicate ReadsBack(i: Insn, addr: int, labels: Labels, w: nat) {
    match i
    case RType(f3, f7, rd, rs1, rs2) =>
      Iss.Opcode(w) == 0x33 && Source1(w, f3, rs1) && Iss.Funct7(w) == f7 && Iss.Rd(w) == rd && Iss.Rs2(w) == rs2
    case IArith(f3, rd, rs1, imm) =>
      Iss.Opcode(w) == 0x13 && Source1(w, f3, rs1) && Iss.Rd(w) == rd && Iss.IImm(w) == imm
    case IShift(f3, f6, rd, rs1, shamt) =>
      && Iss.Opcode(w) == 0x13 && Source1(w, f3, rs1) && Iss.Rd(w) == rd
      && Iss.Shamt(w) == shamt && Iss.Funct7(w) / 2 == f6
    case Load(f3, rd, rs1, off) =>
      Iss.Opcode(w) == 0x03 && Source1(w, f3, rs1) && Iss.Rd(w) == rd && Stands(off, labels, Iss.IImm(w))
    case Store(f3, rs2, rs1, off) =>
      Iss.Opcode(w) == 0x23 && Source1(w, f3, rs1) && Iss.Rs2(w) == rs2 && Stands(off, labels, Iss.SImm(w))
    case Branch(f3, rs1, rs2, to) =>
      Iss.Opcode(w) == 0x63 && Source1(w, f3, rs1) && Iss.Rs2(w) == rs2 && Reaches(to, addr, labels, Iss.BImm(w))
    case Jal(rd, to) =>
      Iss.Opcode(w) == 0x6F && Iss.Rd(w) == rd && Reaches(to, addr, labels, Iss.JImm(w))
    case Jalr(rd, rs1, off) =>
      Iss.Opcode(w) == 0x67 && Source1(w, 0, rs1) && Iss.Rd(w) == rd && Stands(off, labels, Iss.IImm(w))
    case Lui(rd, imm) => Iss.Opcode(w) == 0x37 && Iss.Rd(w) == rd && UpperOf(w, imm)
    case Auipc(rd, imm) => Iss.Opcode(w) == 0x17 && Iss.Rd(w) == rd && UpperOf(w, imm)
  }

  /** The upper immediate is the operand's 20 bits, shifted up and signed. */
  predicate UpperOf(w: nat, imm: int) {
    Iss.UImm(w) == Iss.Sext((imm % 0x10_0000) * 0x1000, TWO31)
  }

  lemma ShiftFields(f6: nat, shamt: int, w: nat)
    requires 0 <= shamt <= 63 && f6 < 0x20
    requires w / 0x10_0000 == (f6 * 0x40 + shamt) % 0x1000 && Iss.Funct7(w) == ((f6 * 0x40 + shamt) % 0x1000) / 0x20
    ensures Iss.Shamt(w) == shamt && Iss.Funct7(w) / 2 == f6
  {
    DivUnique(f6 * 0x40 + shamt, 0x1000, 0, f6 * 0x40 + shamt);
    DivUnique(f6 * 0x40 + shamt, 0x40, f6, shamt);
    DivUnique(f6 * 0x40 + shamt, 0x20, 2 * f6 + shamt / 0x20, shamt % 0x20);
  }

  lemma UpperReads(imm: int, rd: nat, opcode: nat)
    requires rd < 32 && opcode < 0x80 && Upper(imm, rd, opcode).Ok?
    ensures var w := Upper(imm, rd, opcode).value;
            w < TWO32 && Iss.Opcode(w) == opcode && Iss.Rd(w) == rd && UpperOf(w, imm)
  {
    var i := if imm < 0 then imm % 0x10_0000 else imm;
    UFormat(i, rd, opcode);
    if imm >= 0 { DivUnique(imm, 0x10_0000, 0, imm); }
  }

  predicate Computes(i: Insn) { i.RType? || i.IArith? || i.IShift? }

  lemma ShiftWord(f3: nat, f6: nat, rd: nat, rs1: nat, shamt: int)
    requires f3 < 8 && f6 < 0x20 && rd < 32 && rs1 < 32 && 0 <= shamt <= 63
    ensures var w := IWord(f6 * 0x40 + shamt, rs1, f3, rd, 0x13);
            && w < TWO32 && Iss.Opcode(w) == 0x13 && Source1(w, f3, rs1) && Iss.Rd(w) == rd
            && Iss.Shamt(w) == shamt && Iss.Funct7(w) / 2 == f6
  {
    IFormat(f6 * 0x40 + shamt, rs1, f3, rd, 0x13);
    ShiftFields(f6, shamt, IWord(f6 * 0x40 + shamt, rs1, f3, rd, 0x13));
  }

  lemma ShiftReads(i: Insn, addr: int, labels: Labels)
    requires i.Parsed() && i.IShift? && Encode(i, addr, labels).Ok?
    ensures var w := Encode(i, addr, labels).value; w < TWO32 && ReadsBack(i, addr, labels, w)
  {
    ShiftWord(i.f3, i.f6, i.rd, i.rs1, i.shamt);
  }

  lemma ComputeReads(i: Insn, addr: int, labels: Labels)
    requires i.Parsed() && Computes(i) && Encode(i, addr, labels).Ok?
    ensures var w := Encode(i, addr, labels).value; w < TWO32 && ReadsBack(i, addr, labels, w)
  {
    if i.RType? {
      RFormat(i.f7, i.rs2, i.rs1, i.f3, i.rd, 0x33);
    } else if i.IArith? {
      IFormat(i.imm, i.rs1, i.f3, i.rd, 0x13);
      IImmBack(Encode(i, addr, labels).value, i.imm);
    } else {
      ShiftReads(i, addr, labels);
    }
  }

  predicate Accesses(i: Insn) { i.Load? || i.Store? || i.Jalr? }

  lemma AccessReads(i: Insn, addr: int, labels: Labels)
    requires i.Parsed() && Accesses(i) && Encode(i, addr, labels).Ok?
    ensures var w := Encode(i, addr, labels).value; w < TWO32 && ReadsBack(i, addr, labels, w)
  {
    var w := Encode(i, addr, labels).value;
    var v := Resolve(i.off, labels).value;
    if i.Load? {
      IFormat(v, i.rs1, i.f3, i.rd, 0x03);
      IImmBack(w, v);
    } else if i.Store? {
      SFormat(v, i.rs2, i.rs1, i.f3, 0x23);
    } else {
      IFormat(v, i.rs1, 0, i.rd, 0x67);
      IImmBack(w, v);
    }
  }

  lemma OtherReads(i: Insn, addr: int, labels: Labels)
    requires i.Parsed() && !Computes(i) && !Accesses(i) && Encode(i, addr, labels).Ok?
    ensures var w := Encode(i, addr, labels).value; w < TWO32 && ReadsBack(i, addr, labels, w)
  {
    if i.Branch? {
      BFormat(Offset(i.to, addr, labels).value, i.rs2, i.rs1, i.f3, 0x63);
    } else if i.Jal? {
      JFormat(Offset(i.to, addr, labels).value, i.rd, 0x6F);
    } else if i.Lui? {
      UpperReads(i.imm, i.rd, 0x37);
    } else {
      UpperReads(i.imm, i.rd, 0x17);
    }
  }

  /** Every operand of every instruction can be read back from its word. */
  lemma EncodeReadsBack(i: Insn, addr: int, labels: Labels)
    requires i.Parsed() && Encode(i, addr, labels).Ok?
    ensures var w := Encode(i, addr, labels).value;
            w < TWO32 && ReadsBack(i, addr, labels, w)
  {
    if Computes(i) {
      ComputeReads(i, addr, labels);
    } else if Accesses(i) {
      AccessReads(i, addr, labels);
    } else {
      OtherReads(i, addr, labels);
    }
  }

  /** And every word is an encoding both the simulator and the core know. */
  lemma EncodeIsKnown(i: Insn, addr: int, labels: Labels)
    requires i.Parsed() && Encode(i, addr, labels).Ok?
    ensures Known(Encode(i, addr, labels).value)
  {
    EncodeReadsBack(i, addr, labels);
  }

  // ---------------------------------------------------------------- acceptance

  /** A signed field of whole halfwords. */
  lemma SextEven(v: nat, half: nat, m: nat)
    requires v == 2 * half && half < m && m % 2 == 0
    ensures 0 <= Iss.Sext(v, m) + m && Iss.Sext(v, m) <= m - 2 && Iss.Sext(v, m) % 2 == 0
  {
  }

  lemma SImmRange(w: nat)
    requires w < TWO32
    ensures -2048 <= Iss.SImm(w) <= 2047
  {
    var f7 := w / 0x200_0000;
    assert f7 <= 0x7F;
  }

  lemma BImmRange(w: nat)
    ensures -4096 <= Iss.BImm(w) <= 4094 && Iss.BImm(w) % 2 == 0
  {
    var t, u, v, x := (w / 0x8000_0000) % 2, (w / 0x80) % 2, (w / 0x200_0000) % 0x40, (w / 0x100) % 0x10;
    SextEven(t * 0x1000 + u * 0x800 + v * 0x20 + x * 2, t * 0x800 + u * 0x400 + v * 0x10 + x, 0x1000);
  }

  lemma JImmRange(w: nat)
    ensures -1048576 <= Iss.JImm(w) <= 1048574 && Iss.JImm(w) % 2 == 0
  {
    var t, u, v, x := (w / 0x8000_0000) % 2, (w / 0x1000) % 0x100, (w / 0x10_0000) % 2, (w / 0x20_0000) % 0x400;
    SextEven(t * 0x10_0000 + u * 0x1000 + v * 0x800 + x * 2, t * 0x8_0000 + u * 0x800 + v * 0x400 + x, 0x10_0000);
  }

  /** The values the immediate fields of a word can take. */
  lemma FieldRanges(w: nat)
    requires w < TWO32
    ensures -2048 <= Iss.IImm(w) <= 2047 && -2048 <= Iss.SImm(w) <= 2047 && 0 <= Iss.Shamt(w) <= 63
    ensures -4096 <= Iss.BImm(w) <= 4094 && Iss.BImm(w) % 2 == 0
    ensures -1048576 <= Iss.JImm(w) <= 1048574 && Iss.JImm(w) % 2 == 0
  {
    SImmRange(w);
    BImmRange(w);
    JImmRange(w);
  }

  /** A positive upper immediate has at most 20 bits. */
  predicate UpperFits(i: Insn) {
    (i.Lui? ==> i.imm <= 0xF_FFFF) && (i.Auipc? ==> i.imm <= 0xF_FFFF)
  }

  lemma OnlyEncodable(i: Insn, addr: int, labels: Labels, w: nat)
    requires w < TWO32 && ReadsBack(i, addr, labels, w) && UpperFits(i)
    ensures Encode(i, addr, labels).Ok?
  {
    FieldRanges(w);
  }

  /** An instruction is accepted exactly when some word says what it says. */
  lemma AcceptedIff(i: Insn, addr: int, labels: Labels)
    requires i.Parsed()
    ensures Encode(i, addr, labels).Ok? <==> UpperFits(i) && exists w: nat :: w < TWO32 && ReadsBack(i, addr, labels, w)
  {
    if Encode(i, addr, labels).Ok? {
      EncodeReadsBack(i, addr, labels);
    }
    if w: nat :| w < TWO32 && ReadsBack(i, addr, labels, w) && UpperFits(i) {
      OnlyEncodable(i, addr, labels, w);
    }
  }
}
