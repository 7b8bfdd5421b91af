/** The in-order core (rtl/core.sv, rtl/decode.sv, rtl/alu.sv, rtl/mem.sv,
    rtl/regfile.sv): one instruction a cycle, except that a multiply or divide
    holds the program counter until its unit is done. */
module Core {
  import opened Arith
  import opened Bytes
  import opened ByteMemory
  import opened RiscvM
  import opened Words
  import opened MulDiv

  // ---------------------------------------------------------------- decode

  /** Bits `lo` to `lo + w - 1` of an instruction, given 2^lo and 2^w. */
  function Slice(i: nat, lo: nat, w: nat): (f: nat)
    requires lo > 0 && w > 0
    ensures f < w
  {
    (i / lo) % w
  }

  /** The sign bit repeated above the low part of an immediate. */
  function Signs(i: nat, weight: nat): nat
    requires weight <= TWO64
  {
    if Slice(i, 0x8000_0000, 2) == 1 then TWO64 - weight else 0
  }

  function ImmI(i: nat): nat { Signs(i, 0x1000) + Slice(i, 0x10_0000, 0x1000) }

  function ImmS(i: nat): nat { Signs(i, 0x1000) + Slice(i, 0x200_0000, 0x80) * 0x20 + Slice(i, 0x80, 0x20) }

  function ImmB(i: nat): nat {
    Signs(i, 0x2000) + Slice(i, 0x8000_0000, 2) * 0x1000 + Slice(i, 0x80, 2) * 0x800
    + Slice(i, 0x200_0000, 0x40) * 0x20 + Slice(i, 0x100, 0x10) * 2
  }

  function ImmU(i: nat): nat { Signs(i, 0x1_0000_0000) + Slice(i, 0x1000, 0x10_0000) * 0x1000 }

  function ImmJ(i: nat): nat {
    Signs(i, 0x20_0000) + Slice(i, 0x8000_0000, 2) * 0x10_0000 + Slice(i, 0x1000, 0x100) * 0x1000
    + Slice(i, 0x10_0000, 2) * 0x800 + Slice(i, 0x20_0000, 0x400) * 2
  }

  datatype Control = Control(imm: nat, aluOp: nat, aluSrcImm: bool, regWrite: bool, isLoad: bool, isStore: bool,
                             isBranch: bool, isJal: bool, isJalr: bool, isLui: bool, isAuipc: bool,
                             isWord: bool, isMuldiv: bool, muldivOp: nat)

  /** What the decoder drives when no case assigns anything. */
  function Idle0(): Control {
    Control(0, 0, false, false, false, false, false, false, false, false, false, false, false, 0)
  }

  function ImmAluOp(f3: nat, f7b5: bool): nat {
    match f3
    case 0 => 0
    case 2 => 3
    case 3 => 4
    case 4 => 5
    case 6 => 8
    case 7 => 9
    case 1 => 2
    case 5 => if f7b5 then 7 else 6
    case _ => 0
  }

  function RegAluOp(f3: nat, f7b5: bool): nat {
    match f3
    case 0 => if f7b5 then 1 else 0
    case 1 => 2
    case 2 => 3
    case 3 => 4
    case 4 => 5
    case 5 => if f7b5 then 7 else 6
    case 6 => 8
    case 7 => 9
    case _ => 0
  }

  function ImmAluOpW(f3: nat, f7b5: bool): nat {
    match f3
    case 0 => 0
    case 1 => 2
    case 5 => if f7b5 then 7 else 6
    case _ => 0
  }

  function RegAluOpW(f3: nat, f7b5: bool): nat {
    match f3
    case 0 => if f7b5 then 1 else 0
    case 1 => 2
    case 5 => if f7b5 then 7 else 6
    case _ => 0
  }

  function Decode(i: nat): Control {
    var f3 := Slice(i, 0x1000, 8);
    var b30, b25 := Slice(i, 0x4000_0000, 2) == 1, Slice(i, 0x200_0000, 2) == 1;
    var d := Idle0();
    match Slice(i, 1, 0x80)
    case 0x37 => d.(isLui := true, regWrite := true, imm := ImmU(i))
    case 0x17 => d.(isAuipc := true, regWrite := true, aluSrcImm := true, imm := ImmU(i))
    case 0x6F => d.(isJal := true, regWrite := true, imm := ImmJ(i))
    case 0x67 => d.(isJalr := true, regWrite := true, aluSrcImm := true, imm := ImmI(i))
    case 0x63 => d.(isBranch := true, imm := ImmB(i))
    case 0x03 => d.(isLoad := true, regWrite := true, aluSrcImm := true, imm := ImmI(i))
    case 0x23 => d.(isStore := true, aluSrcImm := true, imm := ImmS(i))
    case 0x13 => d.(regWrite := true, aluSrcImm := true, imm := ImmI(i), aluOp := ImmAluOp(f3, b30))
    case 0x33 => if b25 then d.(regWrite := true, isMuldiv := true, muldivOp := f3)
                 else d.(regWrite := true, aluOp := RegAluOp(f3, b30))
    case 0x1B => d.(regWrite := true, aluSrcImm := true, imm := ImmI(i), isWord := true, aluOp := ImmAluOpW(f3, b30))
    case 0x3B => if b25 then d.(regWrite := true, isWord := true, isMuldiv := true, muldivOp := f3)
                 else d.(regWrite := true, isWord := true, aluOp := RegAluOpW(f3, b30))
    case _ => d
  }

  // ---------------------------------------------------------------- ALU

  function Alu32(op: nat, a: nat, b: nat): (y: nat)
    ensures y < TWO32
  {
    var l, n := Low32(a), b % 0x20;
    match op
    case 0 => Cut32(l + Low32(b))
    case 1 => Cut32(l - Low32(b))
    case 2 => ShiftLeft32(l, n)
    case 6 => ShiftDown(l, n)
    case 7 => Word32(ShiftDown(Signed32(l), n))
    case _ => 0
  }

  function Alu64(op: nat, a: nat, b: nat): (y: nat)
    requires a < TWO64 && b < TWO64
    ensures y < TWO64
  {
    var n := b % 0x40;
    match op
    case 0 => Cut64(a + b)
    case 1 => Cut64(a - b)
    case 2 => ShiftLeft64(a, n)
    case 3 => if Signed64(a) < Signed64(b) then 1 else 0
    case 4 => if a < b then 1 else 0
    case 5 => Bitwise64(XOR, a, b)
    case 6 => ShiftDown(a, n)
    case 7 => Word64(ShiftDown(Signed64(a), n))
    case 8 => Bitwise64(OR, a, b)
    case 9 => Bitwise64(AND, a, b)
    case _ => 0
  }

  function Alu(op: nat, word: bool, a: nat, b: nat): (y: nat)
    requires a < TWO64 && b < TWO64
    ensures y < TWO64
  {
    if word then Extend32(Alu32(op, a, b)) else Alu64(op, a, b)
  }

  // ---------------------------------------------------------------- memory ports

  /** The index is the low 16 bits of the address; an access that runs past the top
      of the array is no part of what is proved. */
  function MemRead(m: Mem, a: nat, n: nat): nat {
    FromBytes(ReadBytes(m, a % 0x1_0000, n))
  }

  /** The port writes whole accesses and shows nothing in between. */
  function MemWrite(m: Mem, a: nat, f3: nat, v: nat): Mem {
    if f3 < 4 then WriteBytes(m, a % 0x1_0000, ToBytes(v, NBytes(f3))) else m
  }

  function LoadData(f3: nat, raw: nat): nat {
    match f3
    case 0 => Extend(raw, 0, true)
    case 1 => Extend(raw, 1, true)
    case 2 => Extend(raw, 2, true)
    case 4 => Extend(raw, 0, false)
    case 5 => Extend(raw, 1, false)
    case 6 => Extend(raw, 2, false)
    case _ => raw
  }

  // ---------------------------------------------------------------- the core

  datatype State = State(pc: nat, regs: seq<nat>, mem: Mem, md: Regs) {
    predicate Shape() {
      pc < TWO64 && |regs| == 32 && (forall r :: 0 <= r < 32 ==> regs[r] < TWO64) && md.Shape()
    }
  }

  function ReadReg(regs: seq<nat>, r: nat): nat
    requires |regs| == 32 && r < 32
  {
    if r == 0 then 0 else regs[r]
  }

  function BranchTaken(f3: nat, a: nat, b: nat): bool
    requires a < TWO64 && b < TWO64
  {
    match f3
    case 0 => a == b
    case 1 => a != b
    case 4 => Signed64(a) < Signed64(b)
    case 5 => Signed64(a) >= Signed64(b)
    case 6 => a < b
    case 7 => a >= b
    case _ => false
  }

  function Fetch(s: State): (i: nat)
    ensures i < TWO32
  {
    Pow256Values();
    MemRead(s.mem, s.pc, 4)
  }

  function Src1(s: State): (v: nat)
    requires s.Shape()
    ensures v < TWO64
  {
    ReadReg(s.regs, Slice(Fetch(s), 0x8000, 0x20))
  }

  function Src2(s: State): (v: nat)
    requires s.Shape()
    ensures v < TWO64
  {
    ReadReg(s.regs, Slice(Fetch(s), 0x10_0000, 0x20))
  }

  lemma ImmFits(i: nat)
    requires i < TWO32
    ensures ImmI(i) < TWO64 && ImmS(i) < TWO64 && ImmB(i) < TWO64 && ImmU(i) < TWO64 && ImmJ(i) < TWO64
  {
  }

  lemma DecodedImm(i: nat)
    requires ImmI(i) < TWO64 && ImmS(i) < TWO64 && ImmB(i) < TWO64 && ImmU(i) < TWO64 && ImmJ(i) < TWO64
    ensures Decode(i).imm < TWO64
  {
  }

  function Imm(s: State): (v: nat)
    requires s.Shape()
    ensures v < TWO64
  {
    ImmFits(Fetch(s));
    Decode(Fetch(s)).imm
  }

  /** What the multiply and divide unit sees. */
  function MdIn(s: State): (x: In)
    requires s.Shape()
    ensures x.Ok()
  {
    var d := Decode(Fetch(s));
    In(Src1(s), Src2(s), d.muldivOp, d.isWord, d.isMuldiv && s.md.phase == Phase.Idle && !s.md.done)
  }

  function AluOut(s: State): (y: nat)
    requires s.Shape()
    ensures y < TWO64
  {
    var d := Decode(Fetch(s));
    Alu(d.aluOp, d.isWord, if d.isAuipc then s.pc else Src1(s), if d.aluSrcImm then Imm(s) else Src2(s))
  }

  function DataAddr(s: State): (a: nat)
    requires s.Shape()
    ensures a < TWO64
  {
    Cut64(Src1(s) + Imm(s))
  }

  /** The write-back multiplexer. */
  function DataMux(d: Control, f3: nat, pc: nat, raw: nat, mdY: nat, aluY: nat): nat
    requires pc < TWO64
  {
    if d.isLoad then LoadData(f3, raw)
    else if d.isLui then d.imm
    else if d.isJal || d.isJalr then Cut64(pc + 4)
    else if d.isMuldiv then mdY
    else aluY
  }

  /** The next-pc multiplexer. */
  function PcMux(d: Control, f3: nat, pc: nat, a: nat, b: nat, done: bool): (n: nat)
    requires pc < TWO64 && a < TWO64 && b < TWO64 && d.imm < TWO64
    ensures n < TWO64
  {
    if d.isMuldiv && !done then pc
    else if d.isJal then Cut64(pc + d.imm)
    else if d.isJalr then ClearBit0(Cut64(a + d.imm))
    else if d.isBranch && BranchTaken(f3, a, b) then Cut64(pc + d.imm)
    else Cut64(pc + 4)
  }

  function WriteData(s: State): nat
    requires s.Shape()
  {
    DataMux(Decode(Fetch(s)), Slice(Fetch(s), 0x1000, 8), s.pc, MemRead(s.mem, DataAddr(s), 8), s.md.y, AluOut(s))
  }

  predicate WritesReg(s: State)
    requires s.Shape()
  {
    var d := Decode(Fetch(s));
    d.regWrite && (!d.isMuldiv || s.md.done) && Slice(Fetch(s), 0x80, 0x20) != 0
  }

  function NextPc(s: State): (pc: nat)
    requires s.Shape()
    ensures pc < TWO64
  {
    ImmFits(Fetch(s));
    PcMux(Decode(Fetch(s)), Slice(Fetch(s), 0x1000, 8), s.pc, Src1(s), Src2(s), s.md.done)
  }

  function NextMem(s: State): Mem
    requires s.Shape()
  {
    if Decode(Fetch(s)).isStore then MemWrite(s.mem, DataAddr(s), Slice(Fetch(s), 0x1000, 8), Src2(s)) else s.mem
  }

  /** One clock edge. */
  function CoreNext(s: State): State
    requires s.Shape()
  {
    State(NextPc(s), if WritesReg(s) then s.regs[Slice(Fetch(s), 0x80, 0x20) := WriteData(s)] else s.regs,
          NextMem(s), MulDiv.Next(s.md, MdIn(s)))
  }

  /** The core's registers, its memory and its multiply and divide unit. */
  class CoreUnit {
    var pc: nat
    var regs: seq<nat>
    var mem: Mem
    const md: MulDivUnit

    function View(): State
      reads this, md
    {
      State(pc, regs, mem, md.View())
    }

    constructor (image: Mem)
      ensures View().Shape() && pc == 0 && mem == image && md.phase == Phase.Idle && !md.done && fresh(md)
    {
      pc, regs, mem := 0, seq(32, r => 0), image;
      md := new MulDivUnit();
    }

    /** The register file's read port. */
    method ReadPort(r: nat) returns (v: nat)
      requires View().Shape() && r < 32
      ensures v == ReadReg(regs, r) < TWO64
    {
      v := regs[r];
      if r == 0 { v := 0; }
    }

    /** The branch condition. */
    method BranchUnit(f3: nat, a: nat, b: nat) returns (taken: bool)
      requires a < TWO64 && b < TWO64
      ensures taken == BranchTaken(f3, a, b)
    {
      taken := false;
      if f3 == 0 { taken := a == b; }
      else if f3 == 1 { taken := a != b; }
      else if f3 == 4 { taken := Signed64(a) < Signed64(b); }
      else if f3 == 5 { taken := Signed64(a) >= Signed64(b); }
      else if f3 == 6 { taken := a < b; }
      else if f3 == 7 { taken := a >= b; }
    }

    /** Sign or zero extension of what the memory port shows. */
    method LoadUnit(f3: nat, raw: nat) returns (v: nat)
      ensures v == LoadData(f3, raw)
    {
      v := raw;
      if f3 == 0 { v := Extend(raw, 0, true); }
      else if f3 == 1 { v := Extend(raw, 1, true); }
      else if f3 == 2 { v := Extend(raw, 2, true); }
      else if f3 == 4 { v := Extend(raw, 0, false); }
      else if f3 == 5 { v := Extend(raw, 1, false); }
      else if f3 == 6 { v := Extend(raw, 2, false); }
    }

    /** The write-back multiplexer; `raw` is what the data port shows. */
    method SelectData(d: Control, f3: nat, raw: nat, aluY: nat) returns (wdata: nat)
      requires pc < TWO64
      ensures wdata == DataMux(d, f3, pc, raw, md.y, aluY)
    {
      var loadData := LoadUnit(f3, raw);
      wdata := aluY;
      if d.isLoad { wdata := loadData; }
      else if d.isLui { wdata := d.imm; }
      else if d.isJal || d.isJalr { wdata := Cut64(pc + 4); }
      else if d.isMuldiv { wdata := md.y; }
    }

    /** The next program counter. */
    method SelectPc(d: Control, f3: nat, rdata1: nat, rdata2: nat) returns (next: nat)
      requires pc < TWO64 && rdata1 < TWO64 && rdata2 < TWO64 && d.imm < TWO64
      ensures next == PcMux(d, f3, pc, rdata1, rdata2, md.done)
    {
      var taken := BranchUnit(f3, rdata1, rdata2);
      next := Cut64(pc + 4);
      if d.isMuldiv && !md.done { next := pc; }
      else if d.isJal { next := Cut64(pc + d.imm); }
      else if d.isJalr { next := ClearBit0(Cut64(rdata1 + d.imm)); }
      else if d.isBranch && taken { next := Cut64(pc + d.imm); }
    }

    /** The instruction, its controls and the two registers it reads. */
    method Front() returns (i: nat, d: Control, rdata1: nat, rdata2: nat)
      requires View().Shape()
      ensures i == Fetch(View()) && d == Decode(i) && d.imm < TWO64
      ensures rdata1 == Src1(View()) && rdata2 == Src2(View())
    {
      i := MemRead(mem, pc, 4);
      d := Decode(i);
      rdata1 := ReadPort(Slice(i, 0x8000, 0x20));
      rdata2 := ReadPort(Slice(i, 0x10_0000, 0x20));
      ImmFits(i);
      DecodedImm(i);
    }

    /** The register write of the edge. */
    method Result(i: nat, d: Control, rdata1: nat, rdata2: nat) returns (wen: bool, wdata: nat)
      requires View().Shape() && i == Fetch(View()) && d == Decode(i) && d.imm < TWO64
      requires rdata1 == Src1(View()) && rdata2 == Src2(View())
      ensures wen == WritesReg(View()) && wdata == WriteData(View())
    {
      var aluA := if d.isAuipc then pc else rdata1;
      var aluB := if d.aluSrcImm then d.imm else rdata2;
      var aluY := Alu(d.aluOp, d.isWord, aluA, aluB);
      var dmemAddr := Cut64(rdata1 + d.imm);
      wdata := SelectData(d, Slice(i, 0x1000, 8), MemRead(mem, dmemAddr, 8), aluY);
      var rd := Slice(i, 0x80, 0x20);
      wen := d.regWrite && (!d.isMuldiv || md.done) && rd != 0;
    }

    /** What the unit is shown, and memory as the store port leaves it. */
    method Drive(i: nat, d: Control, rdata1: nat, rdata2: nat) returns (x: In, stored: Mem)
      requires View().Shape() && i == Fetch(View()) && d == Decode(i) && d.imm < TWO64
      requires rdata1 == Src1(View()) && rdata2 == Src2(View())
      ensures x == MdIn(View()) && stored == NextMem(View())
    {
      var busy := md.phase != Phase.Idle;
      var start := d.isMuldiv && !busy && !md.done;
      x := In(rdata1, rdata2, d.muldivOp, d.isWord, start);
      stored := mem;
      if d.isStore { stored := MemWrite(mem, Cut64(rdata1 + d.imm), Slice(i, 0x1000, 8), rdata2); }
    }

    /** The edge itself: the unit, the register file, memory and the program
        counter move. */
    method Edge(ghost s: State, x: In, wen: bool, rd: nat, wdata: nat, stored: Mem, next: nat)
      requires s == View() && s.Shape() && x == MdIn(s) && wen == WritesReg(s) && rd == Slice(Fetch(s), 0x80, 0x20)
      requires wdata == WriteData(s) && stored == NextMem(s) && next == NextPc(s)
      modifies this, md
      ensures View() == CoreNext(s)
    {
      md.Clock(x);
      if wen { regs := regs[rd := wdata]; }
      mem, pc := stored, next;
    }

    /** One clock edge: the wires settle on the registers of before it, then
        every register moves. */
    method Clock()
      requires View().Shape()
      modifies this, md
      ensures View() == CoreNext(old(View()))
    {
      var i, d, rdata1, rdata2 := Front();
      var wen, wdata := Result(i, d, rdata1, rdata2);
      var next := SelectPc(d, Slice(i, 0x1000, 8), rdata1, rdata2);
      var x, stored := Drive(i, d, rdata1, rdata2);
      Edge(View(), x, wen, Slice(i, 0x80, 0x20), wdata, stored, next);
    }
  }
}
