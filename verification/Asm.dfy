/** The two-pass assembler (sw/asm.py), from parsed statements on: encoders,
    address assignment, and emission into the image. */
module Asm {
  import opened Arith
  import opened Bytes
  import opened RiscvM

  datatype Result<T> = Ok(value: T) | Err

  /** An operand that may name a label. */
  datatype Target = Label(name: string) | LabelPlus(name: string, add: int) | Number(v: int)

  /** A parsed instruction; the function codes come from the mnemonic tables. */
  datatype Insn =
    | RType(f3: nat, f7: nat, rd: nat, rs1: nat, rs2: nat)
    | IArith(f3: nat, rd: nat, rs1: nat, imm: int)
    | IShift(f3: nat, f6: nat, rd: nat, rs1: nat, shamt: int)
    | Load(f3: nat, rd: nat, rs1: nat, off: Target)
    | Store(f3: nat, rs2: nat, rs1: nat, off: Target)
    | Branch(f3: nat, rs1: nat, rs2: nat, to: Target)
    | Jal(rd: nat, to: Target)
    | Jalr(rd: nat, rs1: nat, off: Target)
    | Lui(rd: nat, imm: int)
    | Auipc(rd: nat, imm: int)
  {
    /** Registers are register numbers, and the codes stand in the tables. */
    predicate Parsed() {
      match this
      case RType(f3, f7, rd, rs1, rs2) =>
        f3 < 8 && (f7 == 0 || (f7 == 0x20 && (f3 == 0 || f3 == 5))) && rd < 32 && rs1 < 32 && rs2 < 32
      case IArith(f3, rd, rs1, imm) => f3 < 8 && f3 != 1 && f3 != 5 && rd < 32 && rs1 < 32
      case IShift(f3, f6, rd, rs1, shamt) =>
        ((f3 == 1 && f6 == 0) || (f3 == 5 && (f6 == 0 || f6 == 0x10))) && rd < 32 && rs1 < 32
      case Load(f3, rd, rs1, off) => f3 < 7 && rd < 32 && rs1 < 32
      case Store(f3, rs2, rs1, off) => f3 < 4 && rs2 < 32 && rs1 < 32
      case Branch(f3, rs1, rs2, to) => f3 < 8 && f3 != 2 && f3 != 3 && rs1 < 32 && rs2 < 32
      case Jal(rd, to) => rd < 32
      case Jalr(rd, rs1, off) => rd < 32 && rs1 < 32
      case Lui(rd, imm) => rd < 32
      case Auipc(rd, imm) => rd < 32
    }
  }

  type Labels = map<string, int>

  // ---------------------------------------------------------------- formats

  /** The fields do not overlap, so joining them is adding them. */
  function RWord(f7: nat, rs2: nat, rs1: nat, f3: nat, rd: nat, opcode: nat): nat {
    f7 * 0x200_0000 + rs2 * 0x10_0000 + rs1 * 0x8000 + f3 * 0x1000 + rd * 0x80 + opcode
  }

  function IWord(imm: int, rs1: nat, f3: nat, rd: nat, opcode: nat): nat {
    (imm % 0x1000) * 0x10_0000 + rs1 * 0x8000 + f3 * 0x1000 + rd * 0x80 + opcode
  }

  function SWord(imm: int, rs2: nat, rs1: nat, f3: nat, opcode: nat): nat {
    var i := imm % 0x1000;
    (i / 0x20) * 0x200_0000 + rs2 * 0x10_0000 + rs1 * 0x8000 + f3 * 0x1000 + (i % 0x20) * 0x80 + opcode
  }

  function BWord(imm: int, rs2: nat, rs1: nat, f3: nat, opcode: nat): nat {
    var i := imm % 0x2000;
    ((i / 0x1000) % 2) * 0x8000_0000 + ((i / 0x20) % 0x40) * 0x200_0000 + rs2 * 0x10_0000 + rs1 * 0x8000
    + f3 * 0x1000 + ((i / 2) % 0x10) * 0x100 + ((i / 0x800) % 2) * 0x80 + opcode
  }

  function UWord(imm32: nat, rd: nat, opcode: nat): nat {
    (imm32 - imm32 % 0x1000) % 0x1_0000_0000 + rd * 0x80 + opcode
  }

  function JWord(imm: int, rd: nat, opcode: nat): nat {
    var i := imm % 0x20_0000;
    ((i / 0x10_0000) % 2) * 0x8000_0000 + ((i / 2) % 0x400) * 0x20_0000 + ((i / 0x800) % 2) * 0x10_0000
    + ((i / 0x1000) % 0x100) * 0x1000 + rd * 0x80 + opcode
  }

  // ---------------------------------------------------------------- encoding

  /** A label, a label with an addend, or a number. */
  function Resolve(t: Target, labels: Labels): Result<int> {
    match t
    case Label(name) => if name in labels then Ok(labels[name]) else Err
    case LabelPlus(name, add) => if name in labels then Ok(labels[name] + add) else Err
    case Number(v) => Ok(v)
  }

  /** A branch or jump offset: the way to a label, or a number as it stands. */
  function Offset(t: Target, addr: int, labels: Labels): Result<int> {
    match t
    case Label(name) => if name in labels then Ok(labels[name] - addr) else Err
    case LabelPlus(_, _) => Err
    case Number(v) => Ok(v)
  }

  function Upper(imm: int, rd: nat, opcode: nat): Result<nat> {
    var i := if imm < 0 then imm % 0x10_0000 else imm;
    if i > 0xF_FFFF then Err else Ok(UWord(i * 0x1000, rd, opcode))
  }

  function Encode(i: Insn, addr: int, labels: Labels): Result<nat> {
    match i
    case RType(f3, f7, rd, rs1, rs2) => Ok(RWord(f7, rs2, rs1, f3, rd, 0x33))
    case IArith(f3, rd, rs1, imm) => if -2048 <= imm <= 2047 then Ok(IWord(imm, rs1, f3, rd, 0x13)) else Err
    case IShift(f3, f6, rd, rs1, shamt) =>
      if 0 <= shamt <= 63 then Ok(IWord(f6 * 0x40 + shamt, rs1, f3, rd, 0x13)) else Err
    case Load(f3, rd, rs1, off) =>
      var r := Resolve(off, labels);
      if r.Ok? && -2048 <= r.value <= 2047 then Ok(IWord(r.value, rs1, f3, rd, 0x03)) else Err
    case Store(f3, rs2, rs1, off) =>
      var r := Resolve(off, labels);
      if r.Ok? && -2048 <= r.value <= 2047 then Ok(SWord(r.value, rs2, rs1, f3, 0x23)) else Err
    case Branch(f3, rs1, rs2, to) =>
      var r := Offset(to, addr, labels);
      if r.Ok? && r.value % 2 == 0 && -4096 <= r.value <= 4094 then Ok(BWord(r.value, rs2, rs1, f3, 0x63)) else Err
    case Jal(rd, to) =>
      var r := Offset(to, addr, labels);
      if r.Ok? && r.value % 2 == 0 && -1048576 <= r.value <= 1048574 then Ok(JWord(r.value, rd, 0x6F)) else Err
    case Jalr(rd, rs1, off) =>
      var r := Resolve(off, labels);
      if r.Ok? && -2048 <= r.value <= 2047 then Ok(IWord(r.value, rs1, 0, rd, 0x67)) else Err
    case Lui(rd, imm) => Upper(imm, rd, 0x37)
    case Auipc(rd, imm) => Upper(imm, rd, 0x17)
  }

  // ---------------------------------------------------------------- statements

  datatype Stmt = Word(w: Target) | DWord(d: Target) | Align(n: int) | Org(to: int) | Code(i: Insn)

  datatype Maybe<T> = None | Some(get: T)

  datatype Line = Line(name: Maybe<string>, stmt: Maybe<Stmt>)

  /** A statement with the address the first pass gave it. */
  datatype Placed = Placed(stmt: Stmt, addr: int)

  /** Python's division rounds towards minus infinity. */
  function FloorDiv(a: int, b: int): int
    requires b != 0
  {
    if b > 0 then a / b else (-a) / (-b)
  }

  datatype Pass = Pass(labels: Labels, stmts: seq<Placed>, pc: int)

  function Define(p: Pass, name: Maybe<string>): Result<Pass> {
    match name
    case None => Ok(p)
    case Some(l) => if l in p.labels then Err else Ok(p.(labels := p.labels[l := p.pc]))
  }

  function Place(p: Pass, s: Stmt): Result<Pass> {
    match s
    case Word(_) => Ok(p.(stmts := p.stmts + [Placed(s, p.pc)], pc := p.pc + 4))
    case DWord(_) => Ok(p.(stmts := p.stmts + [Placed(s, p.pc)], pc := p.pc + 8))
    case Align(n) =>
      if n == 0 then Err
      else var pc := FloorDiv(p.pc + n - 1, n) * n; Ok(p.(stmts := p.stmts + [Placed(s, pc)], pc := pc))
    case Org(to) => Ok(p.(stmts := p.stmts + [Placed(s, to)], pc := to))
    case Code(_) => Ok(p.(stmts := p.stmts + [Placed(s, p.pc)], pc := p.pc + 4))
  }

  function TakeLine(p: Pass, l: Line): Result<Pass> {
    var d := Define(p, l.name);
    if d.Err? then Err else match l.stmt case None => d case Some(s) => Place(d.value, s)
  }

  /** Addresses and labels. */
  function Pass1(lines: seq<Line>): Result<Pass> {
    if lines == [] then Ok(Pass(map[], [], 0))
    else
      var p := Pass1(lines[..|lines| - 1]);
      if p.Err? then Err else TakeLine(p.value, lines[|lines| - 1])
  }

  // ---------------------------------------------------------------- image

  function Pad(buf: seq<byte>, n: int): (r: seq<byte>)
    ensures buf <= r && |r| >= n
    ensures |r| == |buf| || |r| == n
  {
    if |buf| < n then buf + seq<byte>(n - |buf|, i => 0) else buf
  }

  /** A slice bound of Python's: a negative one counts from the end. */
  function Bound(i: int, n: nat): (b: nat)
    ensures b <= n
  {
    if i + n < 0 then 0 else if i < 0 then i + n else if i > n then n else i
  }

  /** Python's assignment to the slice `at : at + |s|`; inside the buffer it
      overwrites, and it may make the buffer longer. */
  function Splice(buf: seq<byte>, at: int, s: seq<byte>): (r: seq<byte>)
    ensures 0 <= at && at + |s| <= |buf| ==> |r| == |buf| && r == buf[..at] + s + buf[at + |s|..]
  {
    var lo, hi := Bound(at, |buf|), Bound(at + |s|, |buf|);
    buf[..lo] + s + buf[if hi < lo then lo else hi..]
  }

  /** The bytes of a statement that has any. */
  function Contents(p: Placed, labels: Labels): Result<seq<byte>> {
    match p.stmt
    case Word(w) =>
      var r := Offset(w, 0, labels);
      if r.Err? then Err else Ok(ToBytes(r.value % 0x1_0000_0000, 4))
    case DWord(d) =>
      var r := Offset(d, 0, labels);
      if r.Err? then Err else Ok(ToBytes(r.value % TWO64, 8))
    case Code(i) =>
      var r := Encode(i, p.addr, labels);
      if r.Err? then Err else Ok(ToBytes(r.value, 4))
    case _ => Err
  }

  function Emit(buf: seq<byte>, p: Placed, labels: Labels): Result<seq<byte>> {
    if p.stmt.Align? || p.stmt.Org? then Ok(Pad(buf, p.addr))
    else
      var s := Contents(p, labels);
      if s.Err? then Err else Ok(Splice(Pad(buf, p.addr + |s.value|), p.addr, s.value))
  }

  /** The image after the statements. */
  function Pass2(stmts: seq<Placed>, labels: Labels): Result<seq<byte>> {
    if stmts == [] then Ok([])
    else
      var b := Pass2(stmts[..|stmts| - 1], labels);
      if b.Err? then Err else Emit(b.value, stmts[|stmts| - 1], labels)
  }

  /** The first pass. */
  method AssignAddresses(lines: seq<Line>) returns (ok: bool, p: Pass)
    ensures ok <==> Pass1(lines).Ok?
    ensures ok ==> p == Pass1(lines).value
  {
    var labels: Labels := map[];
    var stmts: seq<Placed> := [];
    var pc := 0;
    for n := 0 to |lines|
      invariant Pass1(lines[..n]) == Ok(Pass(labels, stmts, pc))
    {
      Pass1Step(lines, n);
      var r := TakeLine(Pass(labels, stmts, pc), lines[n]);
      if r.Err? {
        FailsOn(lines, n + 1);
        return false, Pass(labels, stmts, pc);
      }
      labels, stmts, pc := r.value.labels, r.value.stmts, r.value.pc;
    }
    assert lines[..|lines|] == lines;
    return true, Pass(labels, stmts, pc);
  }

  lemma Pass1Step(lines: seq<Line>, n: nat)
    requires n < |lines| && Pass1(lines[..n]).Ok?
    ensures Pass1(lines[..n + 1]) == TakeLine(Pass1(lines[..n]).value, lines[n])
  {
    assert lines[..n + 1][..n] == lines[..n];
  }

  lemma {:induction false} FailsOn(lines: seq<Line>, n: nat)
    requires n <= |lines| && Pass1(lines[..n]).Err?
    ensures Pass1(lines).Err?
    decreases |lines| - n
  {
    if n < |lines| {
      assert lines[..n + 1][..n] == lines[..n];
      FailsOn(lines, n + 1);
    } else {
      assert lines[..n] == lines;
    }
  }

  /** The second pass. */
  method EmitImage(stmts: seq<Placed>, labels: Labels) returns (ok: bool, buf: seq<byte>)
    ensures ok <==> Pass2(stmts, labels).Ok?
    ensures ok ==> buf == Pass2(stmts, labels).value
  {
    buf := [];
    for n := 0 to |stmts|
      invariant Pass2(stmts[..n], labels) == Ok(buf)
    {
      assert stmts[..n + 1][..n] == stmts[..n];
      var r := Emit(buf, stmts[n], labels);
      if r.Err? {
        EmitFails(stmts, labels, n + 1);
        return false, buf;
      }
      buf := r.value;
    }
    assert stmts[..|stmts|] == stmts;
    return true, buf;
  }

  lemma {:induction false} EmitFails(stmts: seq<Placed>, labels: Labels, n: nat)
    requires n <= |stmts| && Pass2(stmts[..n], labels).Err?
    ensures Pass2(stmts, labels).Err?
    decreases |stmts| - n
  {
    if n < |stmts| {
      assert stmts[..n + 1][..n] == stmts[..n];
      EmitFails(stmts, labels, n + 1);
    } else {
      assert stmts[..n] == stmts;
    }
  }
}
