/** When the simulator goes on and when it stops, and why. */
module IssHalts {
  import opened RiscvM
  import Iss
  import opened CoreArith
  import opened CoreProof

  /** Encodings outside RV64IM that the simulator runs all the same: comparisons
      with other function codes. */
  predicate Tolerated(i: nat) {
    Iss.Opcode(i) == 0x33 && (Iss.Funct3(i) == 2 || Iss.Funct3(i) == 3)
  }

  predicate System(i: nat) { Iss.Opcode(i) == 0x73 }

  lemma ImmOnly(i: nat, x1: nat)
    requires x1 < 0x1_0000_0000_0000_0000
    ensures Iss.OpImm(i, x1).Value? <==> KnownImm(i)
  {
    EvenPart(Iss.Funct7(i));
  }

  lemma RegOnly(i: nat, x1: nat, x2: nat)
    requires x1 < 0x1_0000_0000_0000_0000 && x2 < 0x1_0000_0000_0000_0000
    ensures Iss.OpReg(i, x1, x2).Value? <==> KnownReg(i) || Iss.Funct3(i) == 2 || Iss.Funct3(i) == 3
  {
  }

  lemma NarrowOnly(i: nat, x1: nat, x2: nat)
    ensures Iss.OpImm32(i, x1).Value? <==> KnownImm32(i)
    ensures Iss.OpReg32(i, x1, x2).Value? <==> KnownReg32(i)
  {
  }

  /** It goes on exactly over what RV64IM defines and what it tolerates. */
  lemma GoesOnIff(s: Iss.Arch, i: nat)
    requires s.Ok()
    ensures Iss.Execute(s, i).Stepped? <==> Known(i) || Tolerated(i)
  {
    var x1, x2 := s.x[Iss.Rs1(i)], s.x[Iss.Rs2(i)];
    ImmOnly(i, x1);
    RegOnly(i, x1, x2);
    NarrowOnly(i, x1, x2);
  }

  /** It reports a call for `ecall`, a breakpoint for `ebreak`, and an illegal
      instruction for everything else it stops at. */
  lemma StopsBecause(s: Iss.Arch, i: nat)
    requires s.Ok() && i < TWO32 && Iss.Execute(s, i).Halted?
    ensures var why := Iss.Execute(s, i).why;
            && (why == Iss.ECALL <==> System(i) && i / 0x10_0000 == 0)
            && (why == Iss.EBREAK <==> System(i) && i / 0x10_0000 == 1)
  {
    assert i / 0x10_0000 < 0x1000;
  }
}
