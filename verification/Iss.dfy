/** The instruction-set simulator (model/iss.cpp): what each RV64IM instruction
    means. Signed arithmetic wraps. */
module Iss {
  import opened Arith
  import opened Bytes
  import opened ByteMemory
  import opened RiscvM
  import opened Words

  const TWO128: int := 0x1_0000_0000_0000_0000_0000_0000_0000_0000

  // ---------------------------------------------------------------- fields

  function Opcode(i: nat): nat { i % 0x80 }

  function Rd(i: nat): (r: nat)
    ensures r < 32
  {
    (i / 0x80) % 0x20
  }

  function Funct3(i: nat): (f: nat)
    ensures f < 8
  {
    (i / 0x1000) % 8
  }

  function Rs1(i: nat): (r: nat)
    ensures r < 32
  {
    (i / 0x8000) % 0x20
  }

  function Rs2(i: nat): (r: nat)
    ensures r < 32
  {
    (i / 0x10_0000) % 0x20
  }

  function Funct7(i: nat): (f: nat)
    ensures f < 0x80
  {
    (i / 0x200_0000) % 0x80
  }

  function Shamt(i: nat): nat { (i / 0x10_0000) % 0x40 }

  function ShamtW(i: nat): nat { (i / 0x10_0000) % 0x20 }

  /** The number whose low bits are `v` and whose sign bit weighs `m`. */
  function Sext(v: nat, m: nat): int {
    if v >= m then v - 2 * m else v
  }

  function IImm(i: nat): int { Sext(i / 0x10_0000, 0x800) }

  function SImm(i: nat): int { Sext((i / 0x200_0000) * 0x20 + Rd(i), 0x800) }

  function BImm(i: nat): int {
    Sext(((i / 0x8000_0000) % 2) * 0x1000 + ((i / 0x80) % 2) * 0x800
         + ((i / 0x200_0000) % 0x40) * 0x20 + ((i / 0x100) % 0x10) * 2, 0x1000)
  }

  function UImm(i: nat): int { Sext(i - i % 0x1000, TWO31) }

  function JImm(i: nat): int {
    Sext(((i / 0x8000_0000) % 2) * 0x10_0000 + ((i / 0x1000) % 0x100) * 0x1000
         + ((i / 0x10_0000) % 2) * 0x800 + ((i / 0x20_0000) % 0x400) * 2, 0x10_0000)
  }

  // ---------------------------------------------------------------- casts

  /** Conversion to an unsigned 64-bit number. */
  function Cast64(v: int): (w: nat)
    ensures w < TWO64
  {
    v % TWO64
  }

  /** Conversion to a signed 32-bit number and from there to 64 bits. */
  function Cast32(v: int): (w: nat)
    ensures w < TWO64
  {
    Extend32(v % TWO32)
  }

  /** A register as a signed number of either width. */
  function S64(x: nat): int
    requires x < TWO64
  {
    Signed64(x)
  }

  function S32(x: nat): int { Signed32(Low32(x)) }

  // ---------------------------------------------------------------- memory

  const IMAGE: nat := 0x1_0000

  function Low16(a: nat): (l: nat)
    ensures l < IMAGE
  {
    a % IMAGE
  }

  function Load8(m: Mem, a: nat): (v: nat)
    ensures v < 0x100
  {
    Get(m, Low16(a))
  }

  function Load16(m: Mem, a: nat): (v: nat)
    ensures v < 0x1_0000
  {
    Load8(m, a) + 0x100 * Load8(m, Cast64(a + 1))
  }

  function Load32(m: Mem, a: nat): (v: nat)
    ensures v < TWO32
  {
    Load16(m, a) + 0x1_0000 * Load16(m, Cast64(a + 2))
  }

  function Load64(m: Mem, a: nat): (v: nat)
    ensures v < TWO64
  {
    Load32(m, a) + TWO32 * Load32(m, Cast64(a + 4))
  }

  function Store8(m: Mem, a: nat, v: nat): Mem { m[Low16(a) := v % 0x100] }

  function Store16(m: Mem, a: nat, v: nat): Mem {
    Store8(Store8(m, a, v % 0x100), Cast64(a + 1), v / 0x100)
  }

  function Store32(m: Mem, a: nat, v: nat): Mem {
    Store16(Store16(m, a, v % 0x1_0000), Cast64(a + 2), v / 0x1_0000)
  }

  function Store64(m: Mem, a: nat, v: nat): Mem {
    Store32(Store32(m, a, v % TWO32), Cast64(a + 4), v / TWO32)
  }

  // ---------------------------------------------------------------- instructions

  /** What an instruction computes for its destination, if it is a legal one. */
  datatype Outcome = Value(v: nat) | Bad

  function Flag(b: bool): nat { if b then 1 else 0 }

  function OpImm(i: nat, x1: nat): Outcome
    requires x1 < TWO64
  {
    var a, imm, hi := S64(x1), IImm(i), Funct7(i) - Funct7(i) % 2;
    match Funct3(i)
    case 0 => Value(Cast64(a + imm))
    case 2 => Value(Flag(a < imm))
    case 3 => Value(Flag(x1 < Cast64(imm)))
    case 4 => Value(Bitwise64(XOR, x1, Cast64(imm)))
    case 6 => Value(Bitwise64(OR, x1, Cast64(imm)))
    case 7 => Value(Bitwise64(AND, x1, Cast64(imm)))
    case 1 => if hi != 0 then Bad else Value(ShiftLeft64(x1, Shamt(i)))
    case _ =>
      if hi == 0 then Value(ShiftDown(x1, Shamt(i)))
      else if hi == 0x20 then Value(Cast64(ShiftDown(a, Shamt(i))))
      else Bad
  }

  function MulOp(f3: nat, x1: nat, x2: nat): nat
    requires x1 < TWO64 && x2 < TWO64
  {
    var a, b := S64(x1), S64(x2);
    match f3
    case 0 => Cast64(a * b)
    case 1 => Cast64((a * b) / TWO64)
    case 2 => Cast64(((a * x2) % TWO128) / TWO64)
    case _ => Cast64((x1 * x2) / TWO64)
  }

  function DivOp(f3: nat, x1: nat, x2: nat): nat
    requires x1 < TWO64 && x2 < TWO64
  {
    var a, b := S64(x1), S64(x2);
    match f3
    case 4 => if b == 0 then Cast64(-1) else if a == -TWO63 && b == -1 then Cast64(-TWO63) else Cast64(TruncDiv(a, b))
    case 5 => if x2 == 0 then Cast64(-1) else Quotient(x1, x2)
    case 6 => if b == 0 then Cast64(a) else if a == -TWO63 && b == -1 then 0 else Cast64(TruncRem(a, b))
    case _ => if x2 == 0 then x1 else Remainder(x1, x2)
  }

  function Quotient(x: nat, y: nat): nat
    requires y != 0
  {
    x / y
  }

  function Remainder(x: nat, y: nat): nat
    requires y != 0
  {
    x % y
  }

  function OpReg(i: nat, x1: nat, x2: nat): Outcome
    requires x1 < TWO64 && x2 < TWO64
  {
    var a, b, f7 := S64(x1), S64(x2), Funct7(i);
    if f7 == 1 then Value(if Funct3(i) < 4 then MulOp(Funct3(i), x1, x2) else DivOp(Funct3(i), x1, x2))
    else
      match Funct3(i)
      case 0 => if f7 == 0 then Value(Cast64(a + b)) else if f7 == 0x20 then Value(Cast64(a - b)) else Bad
      case 1 => if f7 != 0 then Bad else Value(ShiftLeft64(x1, x2 % 0x40))
      case 2 => Value(Flag(a < b))
      case 3 => Value(Flag(x1 < x2))
      case 4 => if f7 != 0 then Bad else Value(Bitwise64(XOR, x1, x2))
      case 5 => if f7 == 0 then Value(ShiftDown(x1, x2 % 0x40))
                else if f7 == 0x20 then Value(Cast64(ShiftDown(a, x2 % 0x40))) else Bad
      case 6 => if f7 != 0 then Bad else Value(Bitwise64(OR, x1, x2))
      case _ => if f7 != 0 then Bad else Value(Bitwise64(AND, x1, x2))
  }

  function OpImm32(i: nat, x1: nat): Outcome {
    var a, f7 := S32(x1), Funct7(i);
    match Funct3(i)
    case 0 => Value(Cast32(a + IImm(i)))
    case 1 => if f7 != 0 then Bad else Value(Cast32(ShiftUp(a, ShamtW(i))))
    case 5 => if f7 == 0 then Value(Cast32(ShiftDown(Low32(x1), ShamtW(i))))
              else if f7 == 0x20 then Value(Cast32(ShiftDown(a, ShamtW(i)))) else Bad
    case _ => Bad
  }

  function MulDivOp32(f3: nat, x1: nat, x2: nat): Outcome {
    var a, b, ua, ub := S32(x1), S32(x2), Low32(x1), Low32(x2);
    match f3
    case 0 => Value(Cast32(a * b))
    case 4 => Value(if b == 0 then Cast64(-1) else if a == -TWO31 && b == -1 then Cast64(a) else Cast32(TruncDiv(a, b)))
    case 5 => Value(if b == 0 then Cast32(-1) else Cast32(ua / ub))
    case 6 => Value(if b == 0 then Cast64(a) else if a == -TWO31 && b == -1 then 0 else Cast32(TruncRem(a, b)))
    case 7 => Value(if b == 0 then Cast64(a) else Cast32(ua % ub))
    case _ => Bad
  }

  function OpReg32(i: nat, x1: nat, x2: nat): Outcome {
    var a, b, f7, n := S32(x1), S32(x2), Funct7(i), Low32(x2) % 0x20;
    if f7 == 1 then MulDivOp32(Funct3(i), x1, x2)
    else
      match Funct3(i)
      case 0 => if f7 == 0 then Value(Cast32(a + b)) else if f7 == 0x20 then Value(Cast32(a - b)) else Bad
      case 1 => if f7 != 0 then Bad else Value(Cast32(ShiftUp(a, n)))
      case 5 => if f7 == 0 then Value(Cast32(ShiftDown(Low32(x1), n)))
                else if f7 == 0x20 then Value(Cast32(ShiftDown(a, n))) else Bad
      case _ => Bad
  }

  function LoadOp(f3: nat, m: Mem, a: nat): Outcome {
    match f3
    case 0 => Value(Cast64(Sext(Load8(m, a), 0x80)))
    case 1 => Value(Cast64(Sext(Load16(m, a), 0x8000)))
    case 2 => Value(Cast64(Sext(Load32(m, a), TWO31)))
    case 4 => Value(Load8(m, a))
    case 5 => Value(Load16(m, a))
    case 6 => Value(Load32(m, a))
    case 3 => Value(Load64(m, a))
    case _ => Bad
  }

  predicate BranchKnown(f3: nat) { f3 != 2 && f3 != 3 }

  predicate Taken(f3: nat, x1: nat, x2: nat)
    requires x1 < TWO64 && x2 < TWO64
  {
    match f3
    case 0 => S64(x1) == S64(x2)
    case 1 => S64(x1) != S64(x2)
    case 4 => S64(x1) < S64(x2)
    case 5 => S64(x1) >= S64(x2)
    case 6 => x1 < x2
    case _ => x1 >= x2
  }

  // ---------------------------------------------------------------- one step

  datatype Arch = Arch(x: seq<nat>, pc: nat, mem: Mem) {
    predicate Ok() { |x| == 32 && pc < TWO64 && forall r :: 0 <= r < 32 ==> x[r] < TWO64 }
  }

  datatype Exit = ECALL | EBREAK | ILLEGAL

  datatype Result = Stepped(s: Arch) | Halted(why: Exit)

  function Put(x: seq<nat>, rd: nat, v: nat): (r: seq<nat>)
    requires |x| == 32 && rd < 32
    ensures |r| == 32
  {
    if rd != 0 then x[rd := v] else x
  }

  /** Write the destination and go on to the next instruction. */
  function Go(s: Arch, i: nat, o: Outcome): Result
    requires s.Ok()
  {
    match o
    case Value(v) => Stepped(s.(x := Put(s.x, Rd(i), v), pc := Cast64(s.pc + 4)))
    case Bad => Halted(ILLEGAL)
  }

  function StoreOp(f3: nat, m: Mem, a: nat, v: nat): Mem {
    match f3
    case 0 => Store8(m, a, v)
    case 1 => Store16(m, a, v % 0x1_0000)
    case 2 => Store32(m, a, v % TWO32)
    case _ => Store64(m, a, v)
  }

  /** Instructions that compute a value and go on to the next instruction. */
  predicate Computes(op: nat) {
    op == 0x37 || op == 0x17 || op == 0x03 || op == 0x13 || op == 0x33 || op == 0x1B || op == 0x3B
  }

  function Computed(s: Arch, i: nat): Outcome
    requires s.Ok() && Computes(Opcode(i))
  {
    var x1, x2 := s.x[Rs1(i)], s.x[Rs2(i)];
    match Opcode(i)
    case 0x37 => Value(Cast64(UImm(i)))
    case 0x17 => Value(Cast64(s.pc + Cast64(UImm(i))))
    case 0x03 => LoadOp(Funct3(i), s.mem, Cast64(x1 + Cast64(IImm(i))))
    case 0x13 => OpImm(i, x1)
    case 0x33 => OpReg(i, x1, x2)
    case 0x1B => OpImm32(i, x1)
    case _ => OpReg32(i, x1, x2)
  }

  /** Execute instruction word `i`; register 0 of `s` is already zero. */
  function Execute(s: Arch, i: nat): Result
    requires s.Ok()
  {
    var x1, x2, f3 := s.x[Rs1(i)], s.x[Rs2(i)], Funct3(i);
    if Computes(Opcode(i)) then Go(s, i, Computed(s, i))
    else
      match Opcode(i)
      case 0x6F => Stepped(s.(x := Put(s.x, Rd(i), Cast64(s.pc + 4)), pc := Cast64(s.pc + Cast64(JImm(i)))))
      case 0x67 =>
        if f3 != 0 then Halted(ILLEGAL)
        else Stepped(s.(x := Put(s.x, Rd(i), Cast64(s.pc + 4)), pc := ClearBit0(Cast64(x1 + Cast64(IImm(i))))))
      case 0x63 =>
        if !BranchKnown(f3) then Halted(ILLEGAL)
        else Stepped(s.(pc := Cast64(s.pc + if Taken(f3, x1, x2) then Cast64(BImm(i)) else 4)))
      case 0x23 =>
        if f3 > 3 then Halted(ILLEGAL)
        else Stepped(s.(mem := StoreOp(f3, s.mem, Cast64(x1 + Cast64(SImm(i))), x2), pc := Cast64(s.pc + 4)))
      case 0x0F => Stepped(s.(pc := Cast64(s.pc + 4)))
      case 0x73 => Halted(if IImm(i) == 0 then ECALL else if IImm(i) == 1 then EBREAK else ILLEGAL)
      case _ => Halted(ILLEGAL)
  }

  /** The value an instruction hands to its destination, if it hands over any. */
  function Written(s: Arch, i: nat): Outcome
    requires s.Ok()
  {
    if Computes(Opcode(i)) then Computed(s, i)
    else if Opcode(i) == 0x6F || (Opcode(i) == 0x67 && Funct3(i) == 0) then Value(Cast64(s.pc + 4))
    else Bad
  }

  /** That value, and nothing else, is what the registers of the next state show. */
  lemma WrittenIsPut(s: Arch, i: nat)
    requires s.Ok()
    ensures match Execute(s, i)
            case Stepped(t) => t.x == (match Written(s, i) case Value(v) => Put(s.x, Rd(i), v) case Bad => s.x)
            case Halted(_) => Written(s, i).Bad?
  {
  }

  function Step(s: Arch): Result
    requires s.Ok()
  {
    Execute(s.(x := s.x[0 := 0]), Load32(s.mem, s.pc))
  }

  predicate StepsTo(s: Arch, t: Arch) {
    s.Ok() && Step(s) == Stepped(t)
  }

  /** States after each of a number of steps. */
  predicate StepRun(ss: seq<Arch>) {
    ss != [] && forall k :: 0 <= k < |ss| - 1 ==> StepsTo(ss[k], ss[k + 1])
  }

  /** The simulator object; the last three fields say what the latest step did. */
  class Simulator {
    var x: seq<nat>
    var pc: nat
    var mem: Mem
    var running: bool
    var exitReason: Exit
    var lastInsn: nat
    var lastRd: int
    var lastRdVal: nat

    function View(): Arch
      reads this
    {
      Arch(x, pc, mem)
    }

    constructor (image: Mem)
      ensures View() == Arch(seq(32, r => 0), 0, image) && View().Ok() && running
      ensures lastInsn == 0 && lastRd == -1 && lastRdVal == 0
    {
      x, pc, mem := seq(32, r => 0), 0, image;
      running, exitReason := true, ILLEGAL;
      lastInsn, lastRd, lastRdVal := 0, -1, 0;
    }

    method Stop(e: Exit)
      modifies this`running, this`exitReason
      ensures !running && exitReason == e
    {
      running, exitReason := false, e;
    }

    /** The object is where the result says; a halt leaves the state as it was. */
    predicate Leads(before: Arch, r: Result)
      reads this
    {
      match r
      case Stepped(t) => running && View() == t
      case Halted(e) => !running && exitReason == e && View() == before
    }

    /** The trace shows the value written, or that none was. */
    predicate Traces(i: nat, w: Outcome, before: nat)
      reads this
    {
      match w
      case Value(v) => lastRd == Rd(i) && lastRdVal == if Rd(i) == 0 then 0 else v
      case Bad => lastRd == -1 && lastRdVal == before
    }

    /** Hand a value to the destination register. */
    method WriteBack(i: nat, v: nat)
      requires |x| == 32
      modifies this`x, this`lastRd, this`lastRdVal
      ensures x == Put(old(x), Rd(i), v) && Traces(i, Value(v), old(lastRdVal))
    {
      if Rd(i) != 0 { x := x[Rd(i) := v]; }
      lastRd := Rd(i);
      lastRdVal := if Rd(i) == 0 then 0 else v;
    }

    method Jump(i: nat, target: nat)
      requires View().Ok()
      modifies this`x, this`pc, this`lastRd, this`lastRdVal
      ensures x == Put(old(x), Rd(i), Cast64(old(pc) + 4)) && pc == target
      ensures Traces(i, Value(Cast64(old(pc) + 4)), old(lastRdVal))
    {
      WriteBack(i, Cast64(pc + 4));
      pc := target;
    }

    method BranchOn(i: nat)
      requires View().Ok() && running && lastRd == -1 && Opcode(i) == 0x63
      modifies this`pc, this`running, this`exitReason
      ensures Leads(old(View()), Execute(old(View()), i))
    {
      if !BranchKnown(Funct3(i)) {
        Stop(ILLEGAL);
      } else {
        pc := Cast64(pc + if Taken(Funct3(i), x[Rs1(i)], x[Rs2(i)]) then Cast64(BImm(i)) else 4);
      }
    }

    method StoreTo(i: nat)
      requires View().Ok() && running && lastRd == -1 && Opcode(i) == 0x23
      modifies this`pc, this`mem, this`running, this`exitReason
      ensures Leads(old(View()), Execute(old(View()), i))
    {
      if Funct3(i) > 3 {
        Stop(ILLEGAL);
      } else {
        mem := StoreOp(Funct3(i), mem, Cast64(x[Rs1(i)] + Cast64(SImm(i))), x[Rs2(i)]);
        pc := Cast64(pc + 4);
      }
    }

    /** Jumps; the target is read before the link is written. */
    method Link(i: nat)
      requires View().Ok() && running && lastRd == -1 && (Opcode(i) == 0x6F || Opcode(i) == 0x67)
      modifies this`x, this`pc, this`running, this`exitReason, this`lastRd, this`lastRdVal
      ensures Leads(old(View()), Execute(old(View()), i))
      ensures Traces(i, Written(old(View()), i), old(lastRdVal))
    {
      if Opcode(i) == 0x6F {
        Jump(i, Cast64(pc + Cast64(JImm(i))));
      } else if Funct3(i) != 0 {
        Stop(ILLEGAL);
      } else {
        Jump(i, ClearBit0(Cast64(x[Rs1(i)] + Cast64(IImm(i)))));
      }
    }

    /** What a computing instruction computes. */
    method Operate(i: nat) returns (o: Outcome)
      requires View().Ok() && Computes(Opcode(i))
      ensures o == Computed(View(), i)
    {
      var x1, x2 := x[Rs1(i)], x[Rs2(i)];
      match Opcode(i) {
        case 0x37 => o := Value(Cast64(UImm(i)));
        case 0x17 => o := Value(Cast64(pc + Cast64(UImm(i))));
        case 0x03 => o := LoadOp(Funct3(i), mem, Cast64(x1 + Cast64(IImm(i))));
        case 0x13 => o := OpImm(i, x1);
        case 0x33 => o := OpReg(i, x1, x2);
        case 0x1B => o := OpImm32(i, x1);
        case _ => o := OpReg32(i, x1, x2);
      }
    }

    method Compute(i: nat)
      requires View().Ok() && running && lastRd == -1 && Computes(Opcode(i))
      modifies this`x, this`pc, this`running, this`exitReason, this`lastRd, this`lastRdVal
      ensures Leads(old(View()), Execute(old(View()), i))
      ensures Traces(i, Written(old(View()), i), old(lastRdVal))
    {
      var o := Operate(i);
      match o
      case Value(v) =>
        WriteBack(i, v);
        pc := Cast64(pc + 4);
      case Bad => Stop(ILLEGAL);
    }

    /** Execute one instruction; afterwards `running` says whether to go on. */
    method StepOnce()
      requires View().Ok() && running
      modifies this
      ensures Leads(old(View()).(x := old(x)[0 := 0]), Step(old(View())))
      ensures lastInsn == Load32(old(mem), old(pc))
      ensures Traces(lastInsn, Written(old(View()).(x := old(x)[0 := 0]), lastInsn), old(lastRdVal))
    {
      x := x[0 := 0];
      var i := Load32(mem, pc);
      lastInsn, lastRd := i, -1;
      Dispatch(i);
    }

    method Dispatch(i: nat)
      requires View().Ok() && running && lastRd == -1
      modifies this`x, this`pc, this`mem, this`running, this`exitReason, this`lastRd, this`lastRdVal
      ensures Leads(old(View()), Execute(old(View()), i))
      ensures Traces(i, Written(old(View()), i), old(lastRdVal))
    {
      var op := Opcode(i);
      if Computes(op) {
        Compute(i);
      } else if op == 0x6F || op == 0x67 {
        Link(i);
      } else if op == 0x63 {
        BranchOn(i);
      } else if op == 0x23 {
        StoreTo(i);
      } else if op == 0x0F {
        pc := Cast64(pc + 4);
      } else if op == 0x73 {
        Stop(if IImm(i) == 0 then ECALL else if IImm(i) == 1 then EBREAK else ILLEGAL);
      } else {
        Stop(ILLEGAL);
      }
    }
  }
}
