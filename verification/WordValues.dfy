/** What the ALU and the branch unit compute, as arithmetic on numbers. */
module WordValues {
  import opened Arith
  import opened Bytes
  import opened RiscvM
  import opened Words
  import opened Core

  /** The signed reading is the one number of its range congruent to the word. */
  lemma SignedIs(v: nat)
    requires v < TWO64
    ensures -TWO63 <= Signed64(v) < TWO63 && Signed64(v) % TWO64 == v
  {
    DivUnique(Signed64(v), TWO64, if v >= TWO63 then -1 else 0, v);
  }

  lemma Signed32Is(v: nat)
    requires v < TWO32
    ensures -TWO31 <= Signed32(v) < TWO31 && Signed32(v) % TWO32 == v
  {
    DivUnique(Signed32(v), TWO32, if v >= TWO31 then -1 else 0, v);
  }

  /** Signed comparison, by moving both words up by half the range. */
  predicate Less(a: nat, b: nat) {
    (a + TWO63) % TWO64 < (b + TWO63) % TWO64
  }

  lemma LessIsSigned(a: nat, b: nat)
    requires a < TWO64 && b < TWO64
    ensures Signed64(a) < Signed64(b) <==> Less(a, b)
    ensures Signed64(a) == Signed64(b) <==> a == b
  {
    DivUnique(a + TWO63, TWO64, if a >= TWO63 then 1 else 0, Signed64(a) + TWO63);
    DivUnique(b + TWO63, TWO64, if b >= TWO63 then 1 else 0, Signed64(b) + TWO63);
  }

  lemma CutIs(v: int)
    requires -(TWO64 as int) <= v < 2 * TWO64
    ensures Cut64(v) == v % TWO64
  {
    DivUnique(v, TWO64, if v < 0 then -1 else if v >= TWO64 then 1 else 0, Cut64(v));
  }

  lemma WordIs(v: int)
    requires -TWO63 <= v < TWO64
    ensures Word64(v) == v % TWO64
  {
    DivUnique(v, TWO64, if v < 0 then -1 else 0, Word64(v));
  }

  /** Sums, shifts and comparisons on 64 bits. */
  lemma AluValues(a: nat, b: nat)
    requires a < TWO64 && b < TWO64
    ensures Alu(0, false, a, b) == (a + b) % TWO64
    ensures Alu(1, false, a, b) == (a - b) % TWO64
    ensures Alu(2, false, a, b) == (a * Pow2(b % 64)) % TWO64
    ensures Alu(3, false, a, b) == if Less(a, b) then 1 else 0
    ensures Alu(4, false, a, b) == if a < b then 1 else 0
    ensures Alu(6, false, a, b) == a / Pow2(b % 64)
    ensures Alu(7, false, a, b) == (Signed64(a) / Pow2(b % 64)) % TWO64
  {
    CutIs(a + b);
    CutIs(a - b);
    ShiftUpMultiplies(a, b % 64);
    LessIsSigned(a, b);
    ShiftDownDivides(a, b % 64);
    ShiftDownDivides(Signed64(a), b % 64);
    WordIs(ShiftDown(Signed64(a), b % 64));
  }

  /** A 64-bit word that is the sign extension of its low half. */
  predicate Narrow(r: nat) { r < TWO31 || TWO64 - TWO31 <= r < TWO64 }

  lemma ExtendIs(v: nat)
    requires v < TWO32
    ensures Narrow(Extend32(v)) && Extend32(v) % TWO32 == v
  {
    DivUnique(Extend32(v), TWO32, if v >= TWO31 then TWO32 - 1 else 0, v);
  }

  lemma Cut32Is(v: int)
    requires -TWO32 <= v < 2 * TWO32
    ensures Cut32(v) == v % TWO32
  {
    DivUnique(v, TWO32, if v < 0 then -1 else if v >= TWO32 then 1 else 0, Cut32(v));
  }

  lemma Word32Is(v: int)
    requires -TWO31 <= v < TWO32
    ensures Word32(v) == v % TWO32
  {
    DivUnique(v, TWO32, if v < 0 then -1 else 0, Word32(v));
  }

  /** Whole multiples of the modulus do not matter. */
  lemma ModShift(x: int, k: int)
    ensures (x + k * TWO32) % TWO32 == x % TWO32
  {
    DivUnique(x + k * TWO32, TWO32, x / TWO32 + k, x % TWO32);
  }

  lemma SumsLow(a: nat, b: nat)
    ensures (Low32(a) + Low32(b)) % TWO32 == (a + b) % TWO32
    ensures (Low32(a) - Low32(b)) % TWO32 == (a - b) % TWO32
  {
    ModShift(Low32(a) + Low32(b), a / TWO32 + b / TWO32);
    ModShift(Low32(a) - Low32(b), a / TWO32 - b / TWO32);
  }

  lemma ShiftLow(a: nat, n: nat)
    ensures ShiftLeft32(Low32(a), n) == (a * Pow2(n)) % TWO32
  {
    ShiftUpHigh(Low32(a), a / TWO32, n);
    ModShift(ShiftUp(Low32(a), n), ShiftUp(a / TWO32, n));
    ShiftUpMultiplies(a, n);
  }

  /** The W forms: the low half of the result is the result on low halves, and the
      whole is its sign extension. */
  lemma AluWordValues(a: nat, b: nat)
    requires a < TWO64 && b < TWO64
    ensures forall op: nat :: Narrow(Alu(op, true, a, b))
    ensures Alu(0, true, a, b) % TWO32 == (a + b) % TWO32
    ensures Alu(1, true, a, b) % TWO32 == (a - b) % TWO32
    ensures Alu(2, true, a, b) % TWO32 == (a * Pow2(b % 32)) % TWO32
    ensures Alu(6, true, a, b) % TWO32 == (a % TWO32) / Pow2(b % 32)
    ensures Alu(7, true, a, b) % TWO32 == (Signed32(a % TWO32) / Pow2(b % 32)) % TWO32
  {
    forall op: nat
      ensures Narrow(Alu(op, true, a, b)) && Alu(op, true, a, b) % TWO32 == Alu32(op, a, b)
    {
      ExtendIs(Alu32(op, a, b));
    }
    Cut32Is(Low32(a) + Low32(b));
    Cut32Is(Low32(a) - Low32(b));
    SumsLow(a, b);
    ShiftLow(a, b % 32);
    ShiftDownDivides(Low32(a), b % 32);
    ShiftDownDivides(Signed32(Low32(a)), b % 32);
    Word32Is(ShiftDown(Signed32(Low32(a)), b % 32));
  }

  /** The six branch conditions. */
  lemma BranchMeans(a: nat, b: nat)
    requires a < TWO64 && b < TWO64
    ensures BranchTaken(0, a, b) <==> a == b
    ensures BranchTaken(1, a, b) <==> a != b
    ensures BranchTaken(4, a, b) <==> Less(a, b)
    ensures BranchTaken(5, a, b) <==> !Less(a, b)
    ensures BranchTaken(6, a, b) <==> a < b
    ensures BranchTaken(7, a, b) <==> b <= a
  {
    LessIsSigned(a, b);
  }
}
