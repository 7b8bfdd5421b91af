/** The M extension: what the unit answers is what the simulator computes. */
module CoreMulDiv {
  import opened Arith
  import opened Bytes
  import opened RiscvM
  import opened Words
  import Iss
  import opened MulDiv
  import opened MulDivProof
  import opened CoreArith

  /** Products of words that stand for the same numbers modulo 2^64. */
  lemma LowProduct(x1: nat, x2: nat)
    requires x1 < TWO64 && x2 < TWO64
    ensures Iss.Cast64(Signed64(x1) * Signed64(x2)) == MulLow(x1, x2)
  {
    var a, b := Signed64(x1), Signed64(x2);
    var i, j := if x1 >= TWO63 then 1 else 0, if x2 >= TWO63 then 1 else 0;
    var k := a * j + i * b + i * (j * TWO64);
    ProductShift(a, b, i, j, TWO64);
    CastCongruent(a * b, x1 * x2, -k);
  }

  lemma HighSigned(x1: nat, x2: nat)
    requires x1 < TWO64 && x2 < TWO64
    ensures Iss.Cast64((Signed64(x1) * Signed64(x2)) / TWO64) == MulResult(1, false, x1, x2)
  {
    HighHalves(1, x1, x2);
    var y := MulResult(1, false, x1, x2);
    DivUnique(FullProduct(1, x1, x2), TWO64, Signed64(y), MulLow(x1, x2));
    CastWord(Signed64(y));
  }

  lemma HighMixed(x1: nat, x2: nat)
    requires x1 < TWO64 && x2 < TWO64
    ensures Iss.Cast64(((Signed64(x1) * x2) % Iss.TWO128) / TWO64) == MulResult(2, false, x1, x2)
  {
    CutProduct(Signed64(x1), x2, if x1 >= TWO63 then 1 else 0, 0);
    CastWord(MulResult(2, false, x1, x2));
  }

  lemma HighUnsigned(x1: nat, x2: nat)
    requires x1 < TWO64 && x2 < TWO64
    ensures Iss.Cast64((x1 * x2) / TWO64) == MulResult(3, false, x1, x2)
  {
    UnsignedHigh(x1, x2);
    var y := High(x1 * x2);
    DivUnique(x1 * x2, TWO64, y, MulLow(x1, x2));
    CastWord(y);
  }

  lemma MulOpMatches(f3: nat, x1: nat, x2: nat)
    requires f3 < 4 && x1 < TWO64 && x2 < TWO64
    ensures Iss.MulOp(f3, x1, x2) == MulResult(f3, false, x1, x2)
  {
    if f3 == 0 { LowProduct(x1, x2); }
    else if f3 == 1 { HighSigned(x1, x2); }
    else if f3 == 2 { HighMixed(x1, x2); }
    else { HighUnsigned(x1, x2); }
  }

  lemma DivOpMatches(f3: nat, x1: nat, x2: nat)
    requires 4 <= f3 < 8 && x1 < TWO64 && x2 < TWO64
    ensures Iss.DivOp(f3, x1, x2) == Divide(RemOp(f3), SignedOp(f3), false, x1, x2)
  {
    var signed := SignedOp(f3);
    var a, b := Operand(x1, signed, false), Operand(x2, signed, false);
    CastWord(-1);
    CastWord(-TWO63);
    CastWord(a);
    if b != 0 && !(signed && a == Least(false) && b == -1) {
      DivideRange(signed, false, a, b);
      CastWord(TruncDiv(a, b));
      CastWord(TruncRem(a, b));
    }
  }

  lemma LowProduct32(x1: nat, x2: nat)
    ensures Iss.Cast32(Iss.S32(x1) * Iss.S32(x2)) == Extend32(Low32(Low32(x1) * Low32(x2)))
  {
    var a, b := Iss.S32(x1), Iss.S32(x2);
    var i, j := if Low32(x1) >= TWO31 then 1 else 0, if Low32(x2) >= TWO31 then 1 else 0;
    var k := a * j + i * b + i * (j * TWO32);
    ProductShift(a, b, i, j, TWO32);
    CastCongruent32(a * b, Low32(x1) * Low32(x2), -k);
  }

  lemma MulDivOp32Matches(f3: nat, x1: nat, x2: nat)
    requires (f3 == 0 || 4 <= f3 < 8) && x1 < TWO64 && x2 < TWO64
    ensures Iss.MulDivOp32(f3, x1, x2)
         == Iss.Value(if f3 == 0 then MulResult(0, true, x1, x2) else Divide(RemOp(f3), SignedOp(f3), true, x1, x2))
  {
    if f3 == 0 {
      LowProduct32(x1, x2);
      WordProduct(x1, x2);
    } else {
      DivOp32Matches(f3, x1, x2);
    }
  }

  lemma DivOp32Matches(f3: nat, x1: nat, x2: nat)
    requires 4 <= f3 < 8 && x1 < TWO64 && x2 < TWO64
    ensures Iss.MulDivOp32(f3, x1, x2) == Iss.Value(Divide(RemOp(f3), SignedOp(f3), true, x1, x2))
  {
    var signed := SignedOp(f3);
    var a, b := Operand(x1, signed, true), Operand(x2, signed, true);
    CastWord(-1);
    CastWord32(-1);
    CastWord32(Iss.S32(x1));
    CastWord32(a);
    if b != 0 && !(signed && a == Least(true) && b == -1) {
      DivideRange(signed, true, a, b);
      CastWord32(TruncDiv(a, b));
      CastWord32(TruncRem(a, b));
    }
  }
}
