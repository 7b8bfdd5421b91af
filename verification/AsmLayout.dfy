/** Where the assembler puts things: each statement keeps its first-pass address
    and its bytes, and jumps to labels land there. */
module AsmLayout {
  import opened Arith
  import opened Bytes
  import opened ByteMemory
  import opened RiscvM
  import opened Words
  import Iss
  import opened CoreArith
  import opened CoreMem
  import opened CoreProof
  import opened Asm
  import opened AsmProof

  function Size(s: Stmt): (n: nat) {
    match s case Word(_) => 4 case DWord(_) => 8 case Align(_) => 0 case Org(_) => 0 case Code(_) => 4
  }

  /** `.org` never goes back and alignments are positive. */
  predicate Forward(lines: seq<Line>) {
    forall n :: 0 <= n < |lines| ==> LineForward(lines, n)
  }

  predicate LineForward(lines: seq<Line>, n: nat)
    requires n < |lines|
  {
    Pass1(lines[..n]).Ok? && lines[n].stmt.Some? ==> StmtForward(Pass1(lines[..n]).value.pc, lines[n].stmt.get)
  }

  predicate StmtForward(pc: int, s: Stmt) {
    match s case Org(to) => to >= pc case Align(n) => n > 0 case _ => true
  }

  /** Statements follow each other without overlap and end before the program
      counter; labels are addresses passed on the way. */
  predicate Packed(p: Pass) {
    && p.pc >= 0
    && (forall k :: 0 <= k < |p.stmts| ==> 0 <= p.stmts[k].addr && p.stmts[k].addr + Size(p.stmts[k].stmt) <= p.pc)
    && (forall j, k :: 0 <= j < k < |p.stmts| ==> p.stmts[j].addr + Size(p.stmts[j].stmt) <= p.stmts[k].addr)
    && (forall l :: l in p.labels ==> 0 <= p.labels[l] <= p.pc)
  }

  lemma AlignUp(pc: int, n: int)
    requires pc >= 0 && n > 0
    ensures FloorDiv(pc + n - 1, n) * n >= pc
  {
    var q := (pc + n - 1) / n;
    DivModAgain(pc + n - 1, n);
    assert q * n == n * q;
  }

  lemma PlacePacked(p: Pass, s: Stmt)
    requires Packed(p) && StmtForward(p.pc, s) && Place(p, s).Ok?
    ensures Packed(Place(p, s).value)
  {
    if s.Align? { AlignUp(p.pc, s.n); }
  }

  lemma LinePacked(p: Pass, l: Line)
    requires Packed(p) && (l.stmt.Some? ==> StmtForward(p.pc, l.stmt.get)) && TakeLine(p, l).Ok?
    ensures Packed(TakeLine(p, l).value)
  {
    var d := Define(p, l.name).value;
    assert Packed(d);
    if l.stmt.Some? { PlacePacked(d, l.stmt.get); }
  }

  lemma ForwardPrefix(lines: seq<Line>, n: nat)
    requires Forward(lines) && n <= |lines|
    ensures Forward(lines[..n])
  {
    forall m | 0 <= m < n
      ensures LineForward(lines[..n], m)
    {
      assert LineForward(lines, m) && lines[..n][..m] == lines[..m] && lines[..n][m] == lines[m];
    }
  }

  lemma {:induction false} Pass1Packed(lines: seq<Line>)
    requires Forward(lines) && Pass1(lines).Ok?
    ensures Packed(Pass1(lines).value)
  {
    if lines != [] {
      var n := |lines| - 1;
      assert LineForward(lines, n);
      ForwardPrefix(lines, n);
      Pass1Packed(lines[..n]);
      LinePacked(Pass1(lines[..n]).value, lines[n]);
    }
  }

  // ---------------------------------------------------------------- emission

  predicate Apart(stmts: seq<Placed>) {
    && (forall k :: 0 <= k < |stmts| ==> 0 <= stmts[k].addr)
    && (forall j, k :: 0 <= j < k < |stmts| ==> stmts[j].addr + Size(stmts[j].stmt) <= stmts[k].addr)
  }

  /** The address behind the last statement. */
  function End(stmts: seq<Placed>): int {
    if stmts == [] then 0 else stmts[|stmts| - 1].addr + Size(stmts[|stmts| - 1].stmt)
  }

  predicate Marks(s: Stmt) { s.Align? || s.Org? }

  /** Writing behind the end appends zeros and then the bytes. */
  lemma WriteAppends(buf: seq<byte>, at: nat, s: seq<byte>)
    requires |buf| <= at
    ensures var out := Splice(Pad(buf, at + |s|), at, s);
            && |out| == at + |s| && out[..|buf|] == buf && out[at..] == s
            && forall a :: |buf| <= a < at ==> out[a] == 0
  {
  }

  lemma PadAppends(buf: seq<byte>, n: nat)
    requires |buf| <= n
    ensures var out := Pad(buf, n);
            |out| == n && out[..|buf|] == buf && forall a :: |buf| <= a < n ==> out[a] == 0
  {
  }

  lemma SizeIs(p: Placed, labels: Labels)
    requires Contents(p, labels).Ok?
    ensures !Marks(p.stmt) && |Contents(p, labels).value| == Size(p.stmt)
  {
  }

  /** Behind the end, a statement appends zeros up to its address and its bytes. */
  lemma EmitAppends(buf: seq<byte>, p: Placed, labels: Labels)
    requires |buf| <= p.addr && Emit(buf, p, labels).Ok?
    ensures var out := Emit(buf, p, labels).value;
            && |out| == p.addr + Size(p.stmt) && out[..|buf|] == buf
            && (forall a :: |buf| <= a < p.addr ==> out[a] == 0)
            && (!Marks(p.stmt) ==> Contents(p, labels).Ok? && out[p.addr..] == Contents(p, labels).value)
  {
    if Marks(p.stmt) {
      PadAppends(buf, p.addr);
    } else {
      SizeIs(p, labels);
      WriteAppends(buf, p.addr, Contents(p, labels).value);
    }
  }

  lemma Pass2Last(stmts: seq<Placed>, labels: Labels)
    requires Apart(stmts) && stmts != [] && Pass2(stmts, labels).Ok?
    ensures var n := |stmts| - 1;
            && Apart(stmts[..n]) && Pass2(stmts[..n], labels).Ok? && 0 <= End(stmts[..n]) <= stmts[n].addr
            && Emit(Pass2(stmts[..n], labels).value, stmts[n], labels) == Pass2(stmts, labels)
  {
  }

  /** The image ends where its last statement does. */
  lemma {:induction false} ImageEnds(stmts: seq<Placed>, labels: Labels)
    requires Apart(stmts) && Pass2(stmts, labels).Ok?
    ensures |Pass2(stmts, labels).value| == End(stmts)
  {
    if stmts != [] {
      var n := |stmts| - 1;
      Pass2Last(stmts, labels);
      ImageEnds(stmts[..n], labels);
      EmitAppends(Pass2(stmts[..n], labels).value, stmts[n], labels);
    }
  }

  /** The bytes of a statement are in the image at its address. */
  predicate Written(buf: seq<byte>, p: Placed, labels: Labels) {
    var s := Contents(p, labels);
    s.Ok? && 0 <= p.addr && p.addr + |s.value| <= |buf| && buf[p.addr..p.addr + |s.value|] == s.value
  }

  /** A stretch of a prefix is the same stretch of the whole. */
  lemma SameStretch(before: seq<byte>, out: seq<byte>, a: nat, n: nat)
    requires |before| <= |out| && out[..|before|] == before && a + n <= |before|
    ensures out[a..a + n] == before[a..a + n]
  {
    forall k | a <= k < a + n
      ensures out[k] == before[k]
    {
      assert out[..|before|][k] == before[k];
    }
  }

  lemma StaysWritten(before: seq<byte>, out: seq<byte>, p: Placed, labels: Labels)
    requires Written(before, p, labels) && |before| <= |out| && out[..|before|] == before
    ensures Written(out, p, labels)
  {
    SameStretch(before, out, p.addr, |Contents(p, labels).value|);
  }

  lemma {:induction false} Intact(stmts: seq<Placed>, labels: Labels, k: nat)
    requires Apart(stmts) && Pass2(stmts, labels).Ok? && k < |stmts| && !Marks(stmts[k].stmt)
    ensures Written(Pass2(stmts, labels).value, stmts[k], labels)
    decreases |stmts|
  {
    var n := |stmts| - 1;
    Pass2Last(stmts, labels);
    ImageEnds(stmts[..n], labels);
    EmitAppends(Pass2(stmts[..n], labels).value, stmts[n], labels);
    if k < n {
      assert stmts[..n][k] == stmts[k];
      Intact(stmts[..n], labels, k);
      StaysWritten(Pass2(stmts[..n], labels).value, Pass2(stmts, labels).value, stmts[k], labels);
    }
  }

  /** The encoding of an instruction is in the image at its address. */
  predicate There(buf: seq<byte>, p: Placed, labels: Labels)
    requires p.stmt.Code?
  {
    var w := Encode(p.stmt.i, p.addr, labels);
    w.Ok? && 0 <= p.addr && p.addr + 4 <= |buf| && buf[p.addr..p.addr + 4] == ToBytes(w.value, 4)
  }

  lemma WrittenInsn(buf: seq<byte>, p: Placed, labels: Labels)
    requires p.stmt.Code? && Written(buf, p, labels)
    ensures There(buf, p, labels)
  {
  }

  /** Every instruction of the program is in the image at its address, whole. */
  lemma InsnIntact(stmts: seq<Placed>, labels: Labels, k: nat)
    requires Apart(stmts) && Pass2(stmts, labels).Ok? && k < |stmts| && stmts[k].stmt.Code?
    ensures There(Pass2(stmts, labels).value, stmts[k], labels)
  {
    Intact(stmts, labels, k);
    WrittenInsn(Pass2(stmts, labels).value, stmts[k], labels);
  }

  predicate Covers(p: Placed, a: int) { p.addr <= a < p.addr + Size(p.stmt) }

  predicate Uncovered(stmts: seq<Placed>, a: int) { forall k :: 0 <= k < |stmts| ==> !Covers(stmts[k], a) }

  /** Bytes that belong to no statement are zero. */
  lemma {:induction false} GapsAreZero(stmts: seq<Placed>, labels: Labels, a: nat)
    requires Apart(stmts) && Pass2(stmts, labels).Ok? && a < |Pass2(stmts, labels).value|
    requires Uncovered(stmts, a)
    ensures Pass2(stmts, labels).value[a] == 0
    decreases |stmts|
  {
    var n := |stmts| - 1;
    Pass2Last(stmts, labels);
    ImageEnds(stmts[..n], labels);
    var before := Pass2(stmts[..n], labels).value;
    EmitAppends(before, stmts[n], labels);
    assert !Covers(stmts[n], a);
    if a < |before| {
      GapsAreZero(stmts[..n], labels, a);
      assert Pass2(stmts, labels).value[..|before|][a] == before[a];
    }
  }

  // ---------------------------------------------------------------- running it

  /** The image loaded at address 0, as much as fits. */
  function Loaded(buf: seq<byte>): Mem {
    map a: nat | a < |buf| && a < Iss.IMAGE :: buf[a]
  }

  lemma FetchBack(buf: seq<byte>, a: nat, w: nat)
    requires a + 4 <= |buf| && a + 4 <= Iss.IMAGE && w < TWO32 && buf[a..a + 4] == ToBytes(w, 4)
    ensures Iss.Load32(Loaded(buf), a) == w
  {
    DivUnique(a, Iss.IMAGE, 0, a);
    Load32Is(Loaded(buf), a);
    assert ReadBytes(Loaded(buf), a, 4) == buf[a..a + 4];
    RoundTrip(w, 4);
    Pow256Values();
    DivUnique(w, TWO32, 0, w);
  }

  /** The statement `k` of an assembled program is the instruction `i`, placed at
      `a` and inside the image. */
  predicate Assembled(lines: seq<Line>, k: nat, i: Insn, a: nat)
  {
    && Forward(lines) && Pass1(lines).Ok?
    && var p := Pass1(lines).value;
       && k < |p.stmts| && p.stmts[k] == Placed(Code(i), a) && i.Parsed() && a + 4 <= Iss.IMAGE
       && Pass2(p.stmts, p.labels).Ok?
  }

  function ImageOf(lines: seq<Line>): Mem
    requires Pass1(lines).Ok?
    requires Pass2(Pass1(lines).value.stmts, Pass1(lines).value.labels).Ok?
  {
    Loaded(Pass2(Pass1(lines).value.stmts, Pass1(lines).value.labels).value)
  }

  /** The simulator, at the address the first pass gave an instruction, fetches
      exactly its encoding, and reads every operand back from it. */
  lemma FetchesWhatWasWritten(lines: seq<Line>, k: nat, i: Insn, a: nat)
    requires Assembled(lines, k, i, a)
    ensures var labels := Pass1(lines).value.labels;
            var w := Iss.Load32(ImageOf(lines), a);
            && Encode(i, a, labels) == Ok(w) && ReadsBack(i, a, labels, w) && Known(w)
  {
    var p := Pass1(lines).value;
    Pass1Packed(lines);
    InsnIntact(p.stmts, p.labels, k);
    EncodeReadsBack(i, a, p.labels);
    EncodeIsKnown(i, a, p.labels);
    FetchBack(Pass2(p.stmts, p.labels).value, a, Encode(i, a, p.labels).value);
  }

  /** An offset added to a program counter reaches its label. */
  lemma Lands(a: nat, target: int, off: int)
    requires a < Iss.IMAGE && off == target - a && target >= 0 && -1048576 <= off < 1048576
    ensures Iss.Cast64(a + Iss.Cast64(off)) == target
  {
    CastWord(off);
    var o := Iss.Cast64(off);
    DivUnique(a + o, TWO64, if off < 0 then 1 else 0, target);
  }

  lemma JalGoes(s: Iss.Arch)
    requires s.Ok() && Iss.Opcode(Iss.Load32(s.mem, s.pc)) == 0x6F
    ensures Iss.Step(s).Stepped?
    ensures Iss.Step(s).s.pc == Iss.Cast64(s.pc + Iss.Cast64(Iss.JImm(Iss.Load32(s.mem, s.pc))))
  {
    JalIs(s.(x := s.x[0 := 0]), Iss.Load32(s.mem, s.pc));
  }

  lemma JalReaches(s: Iss.Arch, target: int)
    requires s.Ok() && s.pc < Iss.IMAGE && target >= 0
    requires var w := Iss.Load32(s.mem, s.pc);
             Iss.Opcode(w) == 0x6F && Iss.JImm(w) == target - s.pc && -1048576 <= Iss.JImm(w) < 1048576
    ensures Iss.Step(s).Stepped? && Iss.Step(s).s.pc == target
  {
    JalGoes(s);
    Lands(s.pc, target, Iss.JImm(Iss.Load32(s.mem, s.pc)));
  }

  /** A `jal` to a label, executed where it was placed, goes to the label. */
  lemma JalLands(lines: seq<Line>, k: nat, rd: nat, name: string, a: nat, s: Iss.Arch)
    requires Assembled(lines, k, Jal(rd, Label(name)), a)
    requires s.Ok() && s.pc == a && s.mem == ImageOf(lines)
    ensures name in Pass1(lines).value.labels
    ensures Iss.Step(s).Stepped? && Iss.Step(s).s.pc == Pass1(lines).value.labels[name]
  {
    JalReads(lines, k, rd, name, a);
    JalReaches(s, Pass1(lines).value.labels[name]);
  }

  lemma JalReads(lines: seq<Line>, k: nat, rd: nat, name: string, a: nat)
    requires Assembled(lines, k, Jal(rd, Label(name)), a)
    ensures var labels, w := Pass1(lines).value.labels, Iss.Load32(ImageOf(lines), a);
            && name in labels && labels[name] >= 0 && Iss.Opcode(w) == 0x6F
            && Iss.JImm(w) == labels[name] - a && -1048576 <= Iss.JImm(w) < 1048576
  {
    FetchesWhatWasWritten(lines, k, Jal(rd, Label(name)), a);
    Pass1Packed(lines);
  }

  lemma BranchReads(lines: seq<Line>, k: nat, f3: nat, rs1: nat, rs2: nat, name: string, a: nat)
    requires Assembled(lines, k, Branch(f3, rs1, rs2, Label(name)), a)
    ensures var labels, w := Pass1(lines).value.labels, Iss.Load32(ImageOf(lines), a);
            && name in labels && labels[name] >= 0 && Iss.Opcode(w) == 0x63
            && Iss.Funct3(w) == f3 && Iss.Rs1(w) == rs1 && Iss.Rs2(w) == rs2 && Iss.BranchKnown(f3)
            && Iss.BImm(w) == labels[name] - a && -1048576 <= Iss.BImm(w) < 1048576
  {
    FetchesWhatWasWritten(lines, k, Branch(f3, rs1, rs2, Label(name)), a);
    Pass1Packed(lines);
  }

  lemma BranchGoes(s: Iss.Arch, w: nat)
    requires s.Ok() && w == Iss.Load32(s.mem, s.pc) && Iss.Opcode(w) == 0x63 && Iss.BranchKnown(Iss.Funct3(w))
    ensures Iss.Step(s).Stepped?
    ensures Iss.Step(s).s.pc == Iss.Cast64(s.pc + if Iss.Taken(Iss.Funct3(w), Reg(s, Iss.Rs1(w)), Reg(s, Iss.Rs2(w)))
                                                  then Iss.Cast64(Iss.BImm(w)) else 4)
  {
    BranchIs(s.(x := s.x[0 := 0]), w);
  }

  /** A register as an instruction reads it: x0 is zero. */
  function Reg(s: Iss.Arch, r: nat): (v: nat)
    requires s.Ok() && r < 32
    ensures v < TWO64
  {
    if r == 0 then 0 else s.x[r]
  }

  lemma BranchReaches(s: Iss.Arch, w: nat, target: int)
    requires s.Ok() && s.pc < Iss.IMAGE && target >= 0 && w == Iss.Load32(s.mem, s.pc)
    requires Iss.Opcode(w) == 0x63 && Iss.BranchKnown(Iss.Funct3(w))
    requires Iss.BImm(w) == target - s.pc && -1048576 <= Iss.BImm(w) < 1048576
    ensures Iss.Step(s).Stepped?
    ensures Iss.Step(s).s.pc
         == if Iss.Taken(Iss.Funct3(w), Reg(s, Iss.Rs1(w)), Reg(s, Iss.Rs2(w))) then target else s.pc + 4
  {
    BranchGoes(s, w);
    Lands(s.pc, target, Iss.BImm(w));
    DivUnique(s.pc + 4, TWO64, 0, s.pc + 4);
  }

  /** A branch to a label goes to the label when taken and on otherwise. */
  lemma BranchLands(lines: seq<Line>, k: nat, f3: nat, rs1: nat, rs2: nat, name: string, a: nat, s: Iss.Arch)
    requires Assembled(lines, k, Branch(f3, rs1, rs2, Label(name)), a)
    requires s.Ok() && s.pc == a && s.mem == ImageOf(lines)
    ensures rs1 < 32 && rs2 < 32 && name in Pass1(lines).value.labels
    ensures Iss.Step(s).Stepped?
    ensures Iss.Step(s).s.pc
         == if Iss.Taken(f3, Reg(s, rs1), Reg(s, rs2)) then Pass1(lines).value.labels[name] else a + 4
  {
    BranchReads(lines, k, f3, rs1, rs2, name, a);
    BranchReaches(s, Iss.Load32(s.mem, s.pc), Pass1(lines).value.labels[name]);
  }
}
