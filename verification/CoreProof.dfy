/** The core beside the simulator: every instruction the core finishes is one
    simulator step, and while it waits for its multiply and divide unit nothing
    architectural moves. */
module CoreProof {
  import opened Arith
  import opened Bytes
  import opened ByteMemory
  import opened RiscvM
  import opened Words
  import Iss
  import opened MulDiv
  import opened MulDivProof
  import opened Core
  import opened CoreArith
  import opened CoreMulDiv
  import opened CoreMem

  /** The architectural state; register 0 of the file is never read. */
  function ArchOf(c: State): (s: Iss.Arch)
    requires c.Shape()
    ensures s.Ok() && s.x[0] == 0
  {
    Iss.Arch(c.regs[0 := 0], c.pc, c.mem)
  }

  /** The encodings RV64IM defines, other than SYSTEM. */
  predicate Known(i: nat) {
    var f3 := Iss.Funct3(i);
    match Iss.Opcode(i)
    case 0x37 => true
    case 0x17 => true
    case 0x6F => true
    case 0x67 => f3 == 0
    case 0x63 => Iss.BranchKnown(f3)
    case 0x03 => f3 != 7
    case 0x23 => f3 < 4
    case 0x13 => KnownImm(i)
    case 0x33 => KnownReg(i)
    case 0x0F => true
    case 0x1B => KnownImm32(i)
    case 0x3B => KnownReg32(i)
    case _ => false
  }

  /** The fetch and the access of the instruction stay inside the image. */
  predicate Inside(s: Iss.Arch, i: nat)
    requires s.Ok()
  {
    && InImage(s.pc, 4)
    && (Iss.Opcode(i) == 0x03 ==> InImage(Iss.Cast64(s.x[Iss.Rs1(i)] + Iss.Cast64(Iss.IImm(i))), Bytes3(Iss.Funct3(i))))
    && (Iss.Opcode(i) == 0x23 && Iss.Funct3(i) < 4 ==>
          InImage(Iss.Cast64(s.x[Iss.Rs1(i)] + Iss.Cast64(Iss.SImm(i))), NBytes(Iss.Funct3(i))))
  }

  /** An instruction the comparison covers. */
  predicate Good(c: State)
    requires c.Shape()
  {
    var i := Fetch(c);
    Known(i) && Inside(ArchOf(c), i)
  }

  predicate IsMulDiv(i: nat) {
    (Iss.Opcode(i) == 0x33 || Iss.Opcode(i) == 0x3B) && Slice(i, 0x200_0000, 2) == 1
  }

  lemma FetchMatches(c: State)
    requires c.Shape() && InImage(c.pc, 4)
    ensures Fetch(c) == Iss.Load32(c.mem, c.pc)
  {
    Load32Is(c.mem, c.pc);
  }

  lemma SourcesMatch(c: State)
    requires c.Shape()
    ensures Src1(c) == ArchOf(c).x[Iss.Rs1(Fetch(c))] && Src2(c) == ArchOf(c).x[Iss.Rs2(Fetch(c))]
  {
  }

  /** Both sides run the same instruction word on the same operands. */
  lemma SameStart(c: State)
    requires c.Shape() && Good(c)
    ensures Iss.Step(ArchOf(c)) == Iss.Execute(ArchOf(c), Fetch(c))
  {
    FetchMatches(c);
    assert ArchOf(c).x[0 := 0] == ArchOf(c).x;
  }

  /** A register written by the core is the register written by the simulator. */
  lemma PutMatches(c: State, v: nat)
    requires c.Shape() && v < TWO64
    ensures var rd := Slice(Fetch(c), 0x80, 0x20);
            Iss.Put(ArchOf(c).x, Iss.Rd(Fetch(c)), v) == (if rd != 0 then c.regs[rd := v] else c.regs)[0 := 0]
  {
  }

  // ---------------------------------------------------------------- one cycle

  /** The architectural state after the edge. */
  function ArchNext(c: State): Iss.Arch
    requires c.Shape()
  {
    var rd := Slice(Fetch(c), 0x80, 0x20);
    Iss.Arch((if WritesReg(c) then c.regs[rd := WriteData(c)] else c.regs)[0 := 0], NextPc(c), NextMem(c))
  }

  lemma WordSum(a: nat, b: nat)
    requires a < TWO64 && b < TWO64
    ensures Iss.Cast64(a + b) == Cut64(a + b)
  {
    CastCut(a + b, a + b);
  }

  lemma LuiValue(c: State)
    requires c.Shape() && Iss.Opcode(Fetch(c)) == 0x37
    ensures WriteData(c) < TWO64 && WriteData(c) == Iss.Cast64(Iss.UImm(Fetch(c)))
  {
    FunctBits(Fetch(c));
    ImmFits(Fetch(c));
    ImmediateU(Fetch(c));
  }

  lemma AuipcValue(c: State)
    requires c.Shape() && Iss.Opcode(Fetch(c)) == 0x17
    ensures WriteData(c) < TWO64 && WriteData(c) == Iss.Cast64(c.pc + Iss.Cast64(Iss.UImm(Fetch(c))))
  {
    FunctBits(Fetch(c));
    ImmFits(Fetch(c));
    ImmediateU(Fetch(c));
    WordSum(c.pc, ImmU(Fetch(c)));
  }

  predicate FromAlu(i: nat)
    requires i < TWO32
  {
    var d := Decode(i);
    !d.isLoad && !d.isLui && !d.isJal && !d.isJalr && !d.isMuldiv && !d.isAuipc
  }

  lemma ImmAlu(c: State)
    requires c.Shape() && (Iss.Opcode(Fetch(c)) == 0x13 || Iss.Opcode(Fetch(c)) == 0x1B)
    ensures var i := Fetch(c); var d := Decode(i);
            d.imm < TWO64 && FromAlu(i) && WriteData(c) == Alu(d.aluOp, d.isWord, Src1(c), d.imm)
  {
    FunctBits(Fetch(c));
    ImmFits(Fetch(c));
  }

  lemma RegAlu(c: State)
    requires c.Shape() && (Iss.Opcode(Fetch(c)) == 0x33 || Iss.Opcode(Fetch(c)) == 0x3B) && !IsMulDiv(Fetch(c))
    ensures var i := Fetch(c); var d := Decode(i);
            FromAlu(i) && WriteData(c) == Alu(d.aluOp, d.isWord, Src1(c), Src2(c))
  {
    FunctBits(Fetch(c));
  }

  /** What the operation of a register-writing arithmetic instruction yields. */
  function AluOutcome(i: nat, x1: nat, x2: nat): Iss.Outcome
    requires x1 < TWO64 && x2 < TWO64
  {
    match Iss.Opcode(i)
    case 0x13 => Iss.OpImm(i, x1)
    case 0x33 => Iss.OpReg(i, x1, x2)
    case 0x1B => Iss.OpImm32(i, x1)
    case _ => Iss.OpReg32(i, x1, x2)
  }

  predicate Arithmetic(op: nat) { op in {0x13, 0x33, 0x1B, 0x3B} }

  lemma AluValue(c: State)
    requires c.Shape() && Known(Fetch(c)) && !IsMulDiv(Fetch(c)) && Arithmetic(Iss.Opcode(Fetch(c)))
    ensures WriteData(c) < TWO64 && AluOutcome(Fetch(c), Src1(c), Src2(c)) == Iss.Value(WriteData(c))
  {
    var i := Fetch(c);
    var op := Iss.Opcode(i);
    if op == 0x13 || op == 0x1B {
      ImmAlu(c);
      if op == 0x13 { OpImmMatches(i, Src1(c)); } else { OpImm32Matches(i, Src1(c)); }
    } else {
      RegAlu(c);
      NotOne(i);
      if op == 0x33 { OpRegMatches(i, Src1(c), Src2(c)); } else { OpReg32Matches(i, Src1(c), Src2(c)); }
    }
  }

  lemma NotOne(i: nat)
    requires i < TWO32 && (Iss.Opcode(i) == 0x33 || Iss.Opcode(i) == 0x3B) && !IsMulDiv(i)
    ensures Iss.Funct7(i) != 1
  {
    FunctBits(i);
  }

  lemma AluComputes(s: Iss.Arch, i: nat)
    requires s.Ok() && Arithmetic(Iss.Opcode(i))
    ensures Iss.Computed(s, i) == AluOutcome(i, s.x[Iss.Rs1(i)], s.x[Iss.Rs2(i)])
  {
  }

  /** The outcome is what the write-back multiplexer selects. */
  predicate Selects(c: State)
    requires c.Shape() && Iss.Computes(Iss.Opcode(Fetch(c)))
  {
    WriteData(c) < TWO64 && Iss.Computed(ArchOf(c), Fetch(c)) == Iss.Value(WriteData(c))
  }

  lemma OutcomeLui(c: State)
    requires c.Shape() && Iss.Opcode(Fetch(c)) == 0x37
    ensures Selects(c)
  {
    LuiValue(c);
  }

  lemma OutcomeAuipc(c: State)
    requires c.Shape() && Iss.Opcode(Fetch(c)) == 0x17
    ensures Selects(c)
  {
    AuipcValue(c);
  }

  lemma OutcomeLoad(c: State)
    requires c.Shape() && Good(c) && Iss.Opcode(Fetch(c)) == 0x03
    ensures Selects(c)
  {
    SourcesMatch(c);
    LoadValue(c);
  }

  lemma OutcomeAlu(c: State)
    requires c.Shape() && Known(Fetch(c)) && !IsMulDiv(Fetch(c)) && Arithmetic(Iss.Opcode(Fetch(c)))
    ensures Selects(c)
  {
    SourcesMatch(c);
    AluComputes(ArchOf(c), Fetch(c));
    AluValue(c);
  }

  lemma OutcomeMatches(c: State)
    requires c.Shape() && Good(c) && !IsMulDiv(Fetch(c)) && Iss.Computes(Iss.Opcode(Fetch(c)))
    ensures Selects(c)
  {
    var op := Iss.Opcode(Fetch(c));
    if op == 0x37 {
      OutcomeLui(c);
    } else if op == 0x17 {
      OutcomeAuipc(c);
    } else if op == 0x03 {
      OutcomeLoad(c);
    } else {
      OutcomeAlu(c);
    }
  }

  /** The value a register-writing instruction computes. */
  lemma ValueMatches(c: State)
    requires c.Shape() && Good(c) && !IsMulDiv(Fetch(c)) && Iss.Computes(Iss.Opcode(Fetch(c)))
    ensures WriteData(c) < TWO64
    ensures Iss.Execute(ArchOf(c), Fetch(c)) == Iss.Go(ArchOf(c), Fetch(c), Iss.Value(WriteData(c)))
  {
    OutcomeMatches(c);
  }

  lemma LoadAddr(c: State)
    requires c.Shape() && Iss.Opcode(Fetch(c)) == 0x03
    ensures DataAddr(c) == Iss.Cast64(Src1(c) + Iss.Cast64(Iss.IImm(Fetch(c))))
  {
    FunctBits(Fetch(c));
    ImmFits(Fetch(c));
    ImmediateI(Fetch(c));
    WordSum(Src1(c), ImmI(Fetch(c)));
  }

  lemma LoadSelected(c: State)
    requires c.Shape() && Iss.Opcode(Fetch(c)) == 0x03
    ensures WriteData(c) == LoadData(Iss.Funct3(Fetch(c)), MemRead(c.mem, DataAddr(c), 8)) < TWO64
  {
    FunctBits(Fetch(c));
    Pow256Values();
  }

  lemma LoadKnown(c: State)
    requires c.Shape() && Good(c) && Iss.Opcode(Fetch(c)) == 0x03
    ensures Iss.Funct3(Fetch(c)) < 7 && InImage(DataAddr(c), Bytes3(Iss.Funct3(Fetch(c))))
  {
    SourcesMatch(c);
    LoadAddr(c);
  }

  lemma LoadValue(c: State)
    requires c.Shape() && Good(c) && Iss.Opcode(Fetch(c)) == 0x03
    ensures WriteData(c) < TWO64
    ensures Iss.LoadOp(Iss.Funct3(Fetch(c)), c.mem, Iss.Cast64(Src1(c) + Iss.Cast64(Iss.IImm(Fetch(c)))))
         == Iss.Value(WriteData(c))
  {
    LoadAddr(c);
    LoadSelected(c);
    LoadKnown(c);
    LoadMatches(Iss.Funct3(Fetch(c)), c.mem, DataAddr(c));
  }

  lemma WriteControls(i: nat)
    requires i < TWO32 && Iss.Computes(Iss.Opcode(i)) && !IsMulDiv(i)
    ensures var d := Decode(i);
            d.regWrite && !d.isMuldiv && !d.isJal && !d.isJalr && !d.isBranch && !d.isStore
  {
    FunctBits(i);
  }

  lemma WriteStep(c: State)
    requires c.Shape() && Good(c) && !IsMulDiv(Fetch(c)) && Iss.Computes(Iss.Opcode(Fetch(c)))
    ensures Iss.Execute(ArchOf(c), Fetch(c)) == Iss.Stepped(ArchNext(c))
  {
    ValueMatches(c);
    WriteControls(Fetch(c));
    WordSum(c.pc, 4);
    PutMatches(c, WriteData(c));
  }

  lemma JalTarget(c: State)
    requires c.Shape() && Iss.Opcode(Fetch(c)) == 0x6F
    ensures var i := Fetch(c); var d := Decode(i);
            d.isJal && NextPc(c) == Iss.Cast64(c.pc + Iss.Cast64(Iss.JImm(i)))
  {
    var i := Fetch(c);
    FunctBits(i);
    ImmFits(i);
    ImmediateJ(i);
    WordSum(c.pc, ImmJ(i));
  }

  /** What a jump leaves in the link register, and nowhere else. */
  lemma LinkNext(c: State)
    requires c.Shape() && (Iss.Opcode(Fetch(c)) == 0x6F || Iss.Opcode(Fetch(c)) == 0x67)
    ensures WriteData(c) == Cut64(c.pc + 4) && NextMem(c) == c.mem
    ensures WritesReg(c) <==> Slice(Fetch(c), 0x80, 0x20) != 0
  {
    FunctBits(Fetch(c));
  }

  lemma LinkArch(c: State, target: nat)
    requires c.Shape() && (Iss.Opcode(Fetch(c)) == 0x6F || Iss.Opcode(Fetch(c)) == 0x67) && NextPc(c) == target
    ensures ArchNext(c) == ArchOf(c).(x := Iss.Put(ArchOf(c).x, Iss.Rd(Fetch(c)), Iss.Cast64(c.pc + 4)), pc := target)
  {
    LinkNext(c);
    WordSum(c.pc, 4);
    PutMatches(c, Cut64(c.pc + 4));
  }

  lemma JalIs(s: Iss.Arch, i: nat)
    requires s.Ok() && Iss.Opcode(i) == 0x6F
    ensures Iss.Execute(s, i) == Iss.Stepped(s.(x := Iss.Put(s.x, Iss.Rd(i), Iss.Cast64(s.pc + 4)),
                                               pc := Iss.Cast64(s.pc + Iss.Cast64(Iss.JImm(i)))))
  {
  }

  lemma JalStep(c: State)
    requires c.Shape() && Good(c) && Iss.Opcode(Fetch(c)) == 0x6F
    ensures Iss.Execute(ArchOf(c), Fetch(c)) == Iss.Stepped(ArchNext(c))
  {
    JalIs(ArchOf(c), Fetch(c));
    JalTarget(c);
    LinkArch(c, NextPc(c));
  }

  lemma JalrNext(c: State)
    requires c.Shape() && Iss.Opcode(Fetch(c)) == 0x67
    ensures ImmI(Fetch(c)) < TWO64 && Decode(Fetch(c)).isJalr
    ensures NextPc(c) == ClearBit0(Cut64(Src1(c) + ImmI(Fetch(c))))
  {
    FunctBits(Fetch(c));
    ImmFits(Fetch(c));
  }

  lemma JalrSum(c: State)
    requires c.Shape() && ImmI(Fetch(c)) < TWO64
    ensures Cut64(Src1(c) + ImmI(Fetch(c)))
         == Iss.Cast64(ArchOf(c).x[Iss.Rs1(Fetch(c))] + Iss.Cast64(Iss.IImm(Fetch(c))))
  {
    SourcesMatch(c);
    ImmediateI(Fetch(c));
    WordSum(Src1(c), ImmI(Fetch(c)));
  }

  lemma JalrTarget(c: State)
    requires c.Shape() && Iss.Opcode(Fetch(c)) == 0x67
    ensures var i := Fetch(c); var d := Decode(i);
            d.isJalr && NextPc(c) == ClearBit0(Iss.Cast64(ArchOf(c).x[Iss.Rs1(i)] + Iss.Cast64(Iss.IImm(i))))
  {
    JalrNext(c);
    JalrSum(c);
  }

  lemma JalrIs(s: Iss.Arch, i: nat)
    requires s.Ok() && Iss.Opcode(i) == 0x67 && Iss.Funct3(i) == 0
    ensures Iss.Execute(s, i) == Iss.Stepped(s.(x := Iss.Put(s.x, Iss.Rd(i), Iss.Cast64(s.pc + 4)),
                                               pc := ClearBit0(Iss.Cast64(s.x[Iss.Rs1(i)] + Iss.Cast64(Iss.IImm(i))))))
  {
  }

  lemma JalrStep(c: State)
    requires c.Shape() && Good(c) && Iss.Opcode(Fetch(c)) == 0x67
    ensures Iss.Execute(ArchOf(c), Fetch(c)) == Iss.Stepped(ArchNext(c))
  {
    JalrIs(ArchOf(c), Fetch(c));
    JalrTarget(c);
    LinkArch(c, NextPc(c));
  }

  lemma BranchTarget(c: State)
    requires c.Shape() && Iss.Opcode(Fetch(c)) == 0x63
    ensures var i := Fetch(c); var d := Decode(i);
            d.isBranch && Cut64(c.pc + Imm(c)) == Iss.Cast64(c.pc + Iss.Cast64(Iss.BImm(i)))
  {
    var i := Fetch(c);
    FunctBits(i);
    ImmFits(i);
    ImmediateB(i);
    WordSum(c.pc, ImmB(i));
  }

  lemma BranchIs(s: Iss.Arch, i: nat)
    requires s.Ok() && Iss.Opcode(i) == 0x63 && Iss.BranchKnown(Iss.Funct3(i))
    ensures Iss.Execute(s, i)
         == Iss.Stepped(s.(pc := Iss.Cast64(s.pc + if Iss.Taken(Iss.Funct3(i), s.x[Iss.Rs1(i)], s.x[Iss.Rs2(i)])
                                                  then Iss.Cast64(Iss.BImm(i)) else 4)))
  {
  }

  lemma BranchNext(c: State)
    requires c.Shape() && Iss.Opcode(Fetch(c)) == 0x63
    ensures !WritesReg(c) && NextMem(c) == c.mem
    ensures NextPc(c) == Cut64(c.pc + if BranchTaken(Iss.Funct3(Fetch(c)), Src1(c), Src2(c)) then Imm(c) else 4)
  {
    FunctBits(Fetch(c));
  }

  lemma BranchStep(c: State)
    requires c.Shape() && Good(c) && Iss.Opcode(Fetch(c)) == 0x63
    ensures Iss.Execute(ArchOf(c), Fetch(c)) == Iss.Stepped(ArchNext(c))
  {
    BranchIs(ArchOf(c), Fetch(c));
    BranchTarget(c);
    BranchNext(c);
    SourcesMatch(c);
    WordSum(c.pc, 4);
    BranchMatches(Iss.Funct3(Fetch(c)), Src1(c), Src2(c));
  }

  lemma StoreIs(s: Iss.Arch, i: nat)
    requires s.Ok() && Iss.Opcode(i) == 0x23 && Iss.Funct3(i) < 4
    ensures Iss.Execute(s, i)
         == Iss.Stepped(s.(mem := Iss.StoreOp(Iss.Funct3(i), s.mem,
                                              Iss.Cast64(s.x[Iss.Rs1(i)] + Iss.Cast64(Iss.SImm(i))), s.x[Iss.Rs2(i)]),
                           pc := Iss.Cast64(s.pc + 4)))
  {
  }

  lemma StoreAddrIs(c: State)
    requires c.Shape() && Iss.Opcode(Fetch(c)) == 0x23
    ensures ImmS(Fetch(c)) < TWO64 && DataAddr(c) == Cut64(Src1(c) + ImmS(Fetch(c)))
  {
    FunctBits(Fetch(c));
    ImmFits(Fetch(c));
  }

  lemma StoreAddr(c: State)
    requires c.Shape() && Iss.Opcode(Fetch(c)) == 0x23
    ensures DataAddr(c) == Iss.Cast64(ArchOf(c).x[Iss.Rs1(Fetch(c))] + Iss.Cast64(Iss.SImm(Fetch(c))))
  {
    StoreAddrIs(c);
    SourcesMatch(c);
    ImmediateS(Fetch(c));
    WordSum(Src1(c), ImmS(Fetch(c)));
  }

  lemma StoreNext(c: State)
    requires c.Shape() && Iss.Opcode(Fetch(c)) == 0x23
    ensures !WritesReg(c) && NextPc(c) == Cut64(c.pc + 4)
    ensures NextMem(c) == MemWrite(c.mem, DataAddr(c), Iss.Funct3(Fetch(c)), Src2(c))
  {
    FunctBits(Fetch(c));
  }

  lemma StoreStep(c: State)
    requires c.Shape() && Good(c) && Iss.Opcode(Fetch(c)) == 0x23
    ensures Iss.Execute(ArchOf(c), Fetch(c)) == Iss.Stepped(ArchNext(c))
  {
    StoreIs(ArchOf(c), Fetch(c));
    StoreAddr(c);
    StoreNext(c);
    SourcesMatch(c);
    WordSum(c.pc, 4);
    StoreMatches(Iss.Funct3(Fetch(c)), c.mem, DataAddr(c), Src2(c));
  }

  lemma FenceStep(c: State)
    requires c.Shape() && Good(c) && Iss.Opcode(Fetch(c)) == 0x0F
    ensures Iss.Execute(ArchOf(c), Fetch(c)) == Iss.Stepped(ArchNext(c))
  {
    FunctBits(Fetch(c));
    WordSum(c.pc, 4);
  }

  /** Any instruction but a multiply or divide takes one cycle. */
  lemma OneCycleStep(c: State)
    requires c.Shape() && Good(c) && !IsMulDiv(Fetch(c))
    ensures Iss.Step(ArchOf(c)) == Iss.Stepped(ArchNext(c))
  {
    SameStart(c);
    var op := Iss.Opcode(Fetch(c));
    if Iss.Computes(op) { WriteStep(c); }
    else if op == 0x6F { JalStep(c); }
    else if op == 0x67 { JalrStep(c); }
    else if op == 0x63 { BranchStep(c); }
    else if op == 0x23 { StoreStep(c); }
    else { FenceStep(c); }
  }
}
