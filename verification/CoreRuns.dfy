/** Whole runs of the core: the multi-cycle instructions, and the refinement of
    any number of simulator steps. */
module CoreRuns {
  import opened Arith
  import opened Bytes
  import opened RiscvM
  import opened Words
  import Iss
  import opened MulDiv
  import opened MulDivProof
  import opened Core
  import opened CoreArith
  import opened CoreMulDiv
  import opened CoreProof

  /** The states of consecutive cycles. */
  predicate Cycles(cs: seq<State>) {
    forall j :: 0 <= j < |cs| - 1 ==> cs[j].Shape() && cs[j + 1] == CoreNext(cs[j])
  }

  /** Between instructions the unit is idle and shows no answer. */
  predicate Quiet(c: State) { c.Shape() && c.md.phase == Phase.Idle && !c.md.done }

  lemma MulDivControls(i: nat)
    requires i < TWO32 && IsMulDiv(i)
    ensures var d := Decode(i);
            && d.regWrite && d.isMuldiv && !d.isLoad && !d.isLui && !d.isJal && !d.isJalr && !d.isBranch && !d.isStore
            && d.muldivOp == Iss.Funct3(i) && d.isWord == (Iss.Opcode(i) == 0x3B)
  {
    FunctBits(i);
  }

  /** While the unit has no answer nothing architectural moves. */
  lemma HeldCycle(c: State)
    requires c.Shape() && IsMulDiv(Fetch(c)) && !c.md.done
    ensures CoreNext(c).pc == c.pc && CoreNext(c).regs == c.regs && CoreNext(c).mem == c.mem
  {
    MulDivControls(Fetch(c));
  }

  function MdAnswer(x: In): nat
    requires x.Ok()
  {
    if x.op < 4 then MulResult(x.op, x.word, x.a, x.b) else MulDivProof.Answer(x)
  }

  lemma MulDivOutcome(i: nat, x1: nat, x2: nat)
    requires i < TWO32 && x1 < TWO64 && x2 < TWO64 && Known(i) && IsMulDiv(i)
    ensures AluOutcome(i, x1, x2) == Iss.Value(MdAnswer(In(x1, x2, Iss.Funct3(i), Iss.Opcode(i) == 0x3B, true)))
  {
    FunctBits(i);
    var f3 := Iss.Funct3(i);
    if Iss.Opcode(i) == 0x33 {
      if f3 < 4 { MulOpMatches(f3, x1, x2); } else { DivOpMatches(f3, x1, x2); }
    } else {
      MulDivOp32Matches(f3, x1, x2);
    }
  }

  lemma MulDivWrites(c: State)
    requires c.Shape() && IsMulDiv(Fetch(c)) && c.md.done
    ensures WriteData(c) == c.md.y && NextPc(c) == Cut64(c.pc + 4) && NextMem(c) == c.mem
    ensures WritesReg(c) <==> Slice(Fetch(c), 0x80, 0x20) != 0
  {
    MulDivControls(Fetch(c));
  }

  lemma MulDivExecutes(c: State, v: nat)
    requires c.Shape() && Known(Fetch(c)) && IsMulDiv(Fetch(c))
    requires v == MdAnswer(In(Src1(c), Src2(c), Iss.Funct3(Fetch(c)), Iss.Opcode(Fetch(c)) == 0x3B, true))
    ensures Iss.Execute(ArchOf(c), Fetch(c)) == Iss.Go(ArchOf(c), Fetch(c), Iss.Value(v))
  {
    SourcesMatch(c);
    AluComputes(ArchOf(c), Fetch(c));
    MulDivOutcome(Fetch(c), Src1(c), Src2(c));
  }

  /** In the cycle the unit answers, the instruction is done. */
  lemma FinishCycle(c: State)
    requires c.Shape() && Good(c) && IsMulDiv(Fetch(c)) && c.md.done
    requires c.md.y == MdAnswer(In(Src1(c), Src2(c), Iss.Funct3(Fetch(c)), Iss.Opcode(Fetch(c)) == 0x3B, true))
    ensures Iss.Step(ArchOf(c)) == Iss.Stepped(ArchNext(c))
  {
    SameStart(c);
    MulDivExecutes(c, c.md.y);
    MulDivWrites(c);
    WordSum(c.pc, 4);
    PutMatches(c, c.md.y);
  }

  /** A quiet unit that is not started, or one that has just answered, is quiet. */
  lemma StaysQuiet(c: State)
    requires c.Shape() && c.md.phase == Phase.Idle && (c.md.done || !IsMulDiv(Fetch(c)))
    requires Known(Fetch(c))
    ensures CoreNext(c).md.phase == Phase.Idle && !CoreNext(c).md.done
  {
    if !IsMulDiv(Fetch(c)) {
      NotStarted(Fetch(c));
    }
  }

  lemma NotStarted(i: nat)
    requires i < TWO32 && !IsMulDiv(i)
    ensures !Decode(i).isMuldiv
  {
    FunctBits(i);
  }

  // ---------------------------------------------------------------- a multiply or divide

  lemma StartCycle(c: State)
    requires Quiet(c) && IsMulDiv(Fetch(c))
    ensures MdIn(c) == In(Src1(c), Src2(c), Iss.Funct3(Fetch(c)), Iss.Opcode(Fetch(c)) == 0x3B, true)
  {
    MulDivControls(Fetch(c));
  }

  function Units(cs: seq<State>): (xs: seq<Regs>)
    ensures |xs| == |cs|
    ensures forall j :: 0 <= j < |cs| ==> xs[j] == cs[j].md
  {
    seq(|cs|, j requires 0 <= j < |cs| => cs[j].md)
  }

  function UnitIns(cs: seq<State>): (ins: seq<In>)
    requires Cycles(cs) && cs != []
    ensures |ins| == |cs| - 1
    ensures forall j :: 0 <= j < |ins| ==> cs[j].Shape() && ins[j] == MdIn(cs[j])
  {
    seq(|cs| - 1, j requires 0 <= j < |cs| - 1 => MdIn(cs[j]))
  }

  /** The unit's own run inside the core's. */
  lemma UnitRun(cs: seq<State>)
    requires Cycles(cs) && cs != []
    ensures MulDivProof.Trace(Units(cs), UnitIns(cs))
  {
    var xs, ins := Units(cs), UnitIns(cs);
    forall c | 0 <= c < |ins|
      ensures xs[c].Shape() && ins[c].Ok() && xs[c + 1] == Next(xs[c], ins[c])
    {
      assert cs[c + 1] == CoreNext(cs[c]);
    }
  }

  /** The unit is busy until it answers, and answers right. */
  lemma UnitAnswers(cs: seq<State>, n: nat)
    requires |cs| == n + 1 && Cycles(cs) && Quiet(cs[0]) && IsMulDiv(Fetch(cs[0])) && n == Latency(MdIn(cs[0]))
    ensures forall j :: 0 <= j < n ==> !cs[j].md.done
    ensures cs[n].md.phase == Phase.Idle && cs[n].md.done && cs[n].md.y == MdAnswer(MdIn(cs[0]))
  {
    StartCycle(cs[0]);
    UnitRun(cs);
    var xs, ins := Units(cs), UnitIns(cs);
    assert ins[0] == MdIn(cs[0]);
    UnitTrace(xs, ins, n);
    assert xs[n] == cs[n].md;
    forall j | 0 <= j < n
      ensures !cs[j].md.done
    {
      assert xs[j] == cs[j].md;
    }
  }

  lemma UnitTrace(xs: seq<Regs>, ins: seq<In>, n: nat)
    requires MulDivProof.Trace(xs, ins) && |ins| == n > 0 && xs[0].phase == Phase.Idle && !xs[0].done
    requires ins[0].start && ins[0].Ok() && n == Latency(ins[0])
    ensures forall j :: 0 <= j < n ==> !xs[j].done
    ensures xs[n].phase == Phase.Idle && xs[n].done && xs[n].y == MdAnswer(ins[0])
  {
    if ins[0].op < 4 {
      MultiplyAnswers(xs, ins, 0);
    } else {
      DivideAnswers(xs, ins, 0);
    }
  }

  /** Everything but the unit. */
  predicate SameCore(c: State, d: State) { c.pc == d.pc && c.regs == d.regs && c.mem == d.mem }

  lemma {:induction false} Held(cs: seq<State>, j: nat)
    requires Cycles(cs) && j < |cs| && IsMulDiv(Fetch(cs[0]))
    requires forall m :: 0 <= m < j ==> !cs[m].md.done
    ensures SameCore(cs[j], cs[0])
    decreases j
  {
    if j > 0 {
      Held(cs, j - 1);
      var c := cs[j - 1];
      assert cs[j - 1 + 1] == CoreNext(c);
      assert Fetch(c) == Fetch(cs[0]);
      HeldCycle(c);
    }
  }

  // ---------------------------------------------------------------- refinement

  /** Cycles an instruction takes. */
  function Duration(c: State): (n: nat)
    requires c.Shape()
    ensures 1 <= n <= 67
  {
    if IsMulDiv(Fetch(c)) then 1 + Latency(MdIn(c)) else 1
  }

  lemma DataFits(c: State)
    requires c.Shape()
    ensures WriteData(c) < TWO64
  {
    ImmFits(Fetch(c));
    LoadFits(Slice(Fetch(c), 0x1000, 8), MemRead(c.mem, DataAddr(c), 8));
    Pow256Values();
  }

  lemma LoadFits(f3: nat, raw: nat)
    requires raw < TWO64
    ensures LoadData(f3, raw) < TWO64
  {
  }

  lemma NextShape(c: State)
    requires c.Shape()
    ensures CoreNext(c).Shape() && ArchOf(CoreNext(c)) == ArchNext(c)
  {
    DataFits(c);
  }

  lemma {:induction false} CyclesShape(cs: seq<State>, j: nat)
    requires Cycles(cs) && cs != [] && cs[0].Shape() && j < |cs|
    ensures cs[j].Shape()
    decreases j
  {
    if j > 0 {
      CyclesShape(cs, j - 1);
      assert cs[j - 1 + 1] == CoreNext(cs[j - 1]);
      NextShape(cs[j - 1]);
    }
  }

  lemma OneCycle(c: State)
    requires Quiet(c) && Good(c) && !IsMulDiv(Fetch(c))
    ensures Quiet(CoreNext(c)) && Iss.Step(ArchOf(c)) == Iss.Stepped(ArchOf(CoreNext(c)))
  {
    OneCycleStep(c);
    NextShape(c);
    StaysQuiet(c);
  }

  /** The run of `n` cycles from `c`. */
  function RunFrom(c: State, n: nat): (cs: seq<State>)
    requires c.Shape()
    ensures |cs| == n + 1 && cs[0] == c && cs[n].Shape() && Cycles(cs)
  {
    if n == 0 then [c]
    else
      var cs := RunFrom(c, n - 1);
      NextShape(cs[n - 1]);
      CyclesSnoc(cs);
      cs + [CoreNext(cs[n - 1])]
  }

  lemma CyclesSnoc(cs: seq<State>)
    requires cs != [] && Cycles(cs) && cs[|cs| - 1].Shape()
    ensures Cycles(cs + [CoreNext(cs[|cs| - 1])])
  {
  }

  /** Cycles are deterministic. */
  lemma {:induction false} RunIs(cs: seq<State>, n: nat, j: nat)
    requires Cycles(cs) && cs != [] && cs[0].Shape() && j < |cs| && j <= n
    ensures cs[j] == RunFrom(cs[0], n)[j]
    decreases j
  {
    if j > 0 {
      RunIs(cs, n, j - 1);
      assert cs[j - 1 + 1] == CoreNext(cs[j - 1]);
      var r := RunFrom(cs[0], n);
      assert r[j - 1 + 1] == CoreNext(r[j - 1]);
    }
  }

  /** While a multiply or divide is under way, the architectural state waits. */
  lemma Waits(cs: seq<State>, j: nat)
    requires Cycles(cs) && cs != [] && Quiet(cs[0]) && IsMulDiv(Fetch(cs[0])) && j < |cs| && j <= Latency(MdIn(cs[0]))
    ensures SameCore(cs[j], cs[0])
  {
    var n := Latency(MdIn(cs[0]));
    var r := RunFrom(cs[0], n);
    UnitAnswers(r, n);
    Held(r, j);
    RunIs(cs, n, j);
  }

  /** The last two cycles of a multiply or divide. */
  lemma Finishes(cs: seq<State>, n: nat)
    requires Cycles(cs) && |cs| == n + 2 && Quiet(cs[0]) && Good(cs[0])
    requires IsMulDiv(Fetch(cs[0])) && n == Latency(MdIn(cs[0]))
    ensures Quiet(cs[n + 1]) && Iss.Step(ArchOf(cs[0])) == Iss.Stepped(ArchOf(cs[n + 1]))
  {
    var run := cs[..n + 1];
    UnitAnswers(run, n);
    Held(run, n);
    CyclesShape(cs, n);
    StartCycle(cs[0]);
    var c := cs[n];
    assert cs[n + 1] == CoreNext(c);
    SameFetch(cs[0], c);
    FinishCycle(c);
    NextShape(c);
    StaysQuiet(c);
  }

  lemma SameFetch(c: State, d: State)
    requires c.Shape() && d.Shape() && SameCore(d, c)
    ensures Fetch(d) == Fetch(c) && Src1(d) == Src1(c) && Src2(d) == Src2(c) && ArchOf(d) == ArchOf(c)
    ensures Good(c) ==> Good(d)
  {
  }

  /** Up to its last cycle an instruction shows nothing; then it is done. */
  lemma Instruction(cs: seq<State>)
    requires Cycles(cs) && cs != [] && Quiet(cs[0]) && Good(cs[0])
    ensures forall j :: 0 <= j < |cs| && j < Duration(cs[0]) ==> cs[j].Shape() && ArchOf(cs[j]) == ArchOf(cs[0])
    ensures var d := Duration(cs[0]);
            d < |cs| ==> Quiet(cs[d]) && Iss.Step(ArchOf(cs[0])) == Iss.Stepped(ArchOf(cs[d]))
  {
    var d := Duration(cs[0]);
    forall j | 0 <= j < |cs| && j < d
      ensures cs[j].Shape() && ArchOf(cs[j]) == ArchOf(cs[0])
    {
      CyclesShape(cs, j);
      if IsMulDiv(Fetch(cs[0])) {
        Waits(cs, j);
      }
    }
    if d < |cs| {
      if IsMulDiv(Fetch(cs[0])) {
        Finishes(cs[..d + 1], d - 1);
      } else {
        assert cs[0 + 1] == CoreNext(cs[0]);
        OneCycle(cs[0]);
      }
    }
  }

  /** The instructions a run finishes. */
  function Retired(cs: seq<State>): nat
    requires Cycles(cs)
    decreases |cs|
  {
    if cs == [] || !cs[0].Shape() || |cs| <= Duration(cs[0]) then 0
    else 1 + Retired(cs[Duration(cs[0])..])
  }

  /** Every instruction that starts is one the comparison covers. */
  predicate AllGood(cs: seq<State>) {
    forall j :: 0 <= j < |cs| && Quiet(cs[j]) ==> Good(cs[j])
  }

  lemma StepFirst(s: Iss.Arch, ss: seq<Iss.Arch>)
    requires Iss.StepRun(ss) && Iss.StepsTo(s, ss[0])
    ensures Iss.StepRun([s] + ss)
  {
  }

  /** The cycles after the first instruction. */
  lemma FirstInstruction(cs: seq<State>) returns (rest: seq<State>)
    requires Cycles(cs) && cs != [] && Quiet(cs[0]) && AllGood(cs) && Duration(cs[0]) < |cs|
    ensures rest == cs[Duration(cs[0])..] && rest != [] && |rest| < |cs| <= |rest| + 67
    ensures Cycles(rest) && AllGood(rest) && Quiet(rest[0]) && rest[|rest| - 1] == cs[|cs| - 1]
    ensures Iss.StepsTo(ArchOf(cs[0]), ArchOf(rest[0]))
    ensures Retired(cs) == 1 + Retired(rest)
  {
    assert Good(cs[0]);
    Instruction(cs);
    CyclesRest(cs, Duration(cs[0]));
    rest := cs[Duration(cs[0])..];
  }

  /** An instruction still under way shows nothing yet. */
  lemma LastInstruction(cs: seq<State>)
    requires Cycles(cs) && cs != [] && Quiet(cs[0]) && AllGood(cs) && Duration(cs[0]) >= |cs|
    ensures cs[|cs| - 1].Shape() && ArchOf(cs[|cs| - 1]) == ArchOf(cs[0]) && Retired(cs) == 0
  {
    assert Good(cs[0]);
    Instruction(cs);
  }

  /** After any number of cycles the architectural state is the simulator's after
      as many steps as instructions have finished; and each takes at most 67
      cycles. */
  lemma {:induction false} CoreRefinesIss(cs: seq<State>) returns (ss: seq<Iss.Arch>)
    requires Cycles(cs) && cs != [] && Quiet(cs[0]) && AllGood(cs)
    ensures cs[|cs| - 1].Shape()
    ensures Iss.StepRun(ss) && |ss| == Retired(cs) + 1
    ensures ss[0] == ArchOf(cs[0]) && ss[|ss| - 1] == ArchOf(cs[|cs| - 1])
    ensures |cs| <= 67 * |ss|
    decreases |cs|
  {
    if Duration(cs[0]) < |cs| {
      var rest := FirstInstruction(cs);
      var more := CoreRefinesIss(rest);
      StepFirst(ArchOf(cs[0]), more);
      ss := [ArchOf(cs[0])] + more;
    } else {
      LastInstruction(cs);
      ss := [ArchOf(cs[0])];
    }
  }

  lemma CyclesRest(cs: seq<State>, d: nat)
    requires Cycles(cs) && AllGood(cs) && d <= |cs|
    ensures Cycles(cs[d..]) && AllGood(cs[d..])
  {
    var rest := cs[d..];
    forall j | 0 <= j < |rest| - 1
      ensures rest[j].Shape() && rest[j + 1] == CoreNext(rest[j])
    {
      assert cs[d + j + 1] == CoreNext(cs[d + j]);
    }
  }
}
