/** What the standard M extension computes: sections 7.1 and 7.2 of the RISC-V
    Instruction Set Manual, Volume I, 20191213. */
module RiscvM {
  import opened Arith
  import opened Bytes

  const TWO31: int := 0x8000_0000
  const TWO32: int := 0x1_0000_0000
  const TWO63: int := 0x8000_0000_0000_0000

  lemma {:induction false} Pow2Eight(n: nat)
    ensures Pow2(n + 8) == 256 * Pow2(n)
  {
    assert Pow2(n + 2) == 4 * Pow2(n);
    assert Pow2(n + 4) == 4 * Pow2(n + 2);
    assert Pow2(n + 6) == 4 * Pow2(n + 4);
    assert Pow2(n + 8) == 4 * Pow2(n + 6);
  }

  lemma Pow2Of32()
    ensures Pow2(32) == TWO32
  {
    Pow2Eight(0);
    Pow2Eight(8);
    Pow2Eight(16);
    Pow2Eight(24);
  }

  lemma Pow2Values()
    ensures Pow2(63) == TWO63 && Pow2(64) == TWO64
  {
    Pow2Of32();
    Pow2Eight(32);
    Pow2Eight(40);
    Pow2Eight(48);
    Pow2Eight(56);
  }

  // ---------------------------------------------------------------- words as numbers

  /** The two's complement value of a 64-bit word. */
  function Signed64(v: nat): (s: int)
    requires v < TWO64
    ensures -TWO63 <= s < TWO63
  {
    if v >= TWO63 then (v as int) - TWO64 else v
  }

  function Signed32(v: nat): (s: int)
    requires v < TWO32
    ensures -TWO31 <= s < TWO31
  {
    if v >= TWO31 then (v as int) - TWO32 else v
  }

  /** The word holding a number in two's complement, or unsigned. */
  function Word64(v: int): (w: nat)
    requires -TWO63 <= v < TWO64
    ensures w < TWO64
  {
    if v < 0 then v + TWO64 else v
  }

  function Word32(v: int): (w: nat)
    requires -TWO31 <= v < TWO32
    ensures w < TWO32
  {
    if v < 0 then v + TWO32 else v
  }

  function Low32(v: nat): (l: nat)
    ensures l < TWO32
  {
    v % TWO32
  }

  /** A 32-bit result is sign-extended to 64 bits. */
  function Extend32(v: nat): (w: nat)
    requires v < TWO32
    ensures w < TWO64
  {
    if v >= TWO31 then v + (TWO64 - TWO32) else v
  }

  // ---------------------------------------------------------------- division

  function Abs(x: int): nat { if x < 0 then -x else x }

  /** The quotient rounded towards zero. */
  function TruncDiv(x: int, y: int): int
    requires y != 0
  {
    if (x < 0) != (y < 0) then -(Abs(x) / Abs(y)) else Abs(x) / Abs(y)
  }

  /** The remainder, with the sign of the dividend. */
  function TruncRem(x: int, y: int): int
    requires y != 0
  {
    if x < 0 then -(Abs(x) % Abs(y)) else Abs(x) % Abs(y)
  }

  predicate Splits(x: int, y: int, q: int, r: int) {
    x == y * q + r && Abs(r) < Abs(y) && (r == 0 || (r < 0 <==> x < 0))
  }

  lemma TruncSplits(x: int, y: int)
    requires y != 0
    ensures Splits(x, y, TruncDiv(x, y), TruncRem(x, y))
  {
    var m, n := Abs(x), Abs(y);
    DivModAgain(m, n);
    NegativeProduct(n, m / n);
    NegativeProduct(y, m / n);
  }

  lemma SignOfQuotient(x: int, y: int, q: int, r: int)
    requires y != 0 && Splits(x, y, q, r)
    ensures Abs(x) == Abs(y) * Abs(q) + Abs(r)
    ensures q == 0 || (q < 0 <==> (x < 0) != (y < 0))
  {
    var n := Abs(y);
    if q != 0 {
      assert Abs(y * q) == n * Abs(q) >= n by { ProductAtLeast(n, Abs(q)); }
    }
  }

  /** The dividend is divisor times quotient plus remainder, the remainder is
      smaller than the divisor and has the sign of the dividend; nothing else
      meets all three. */
  lemma TruncMeans(x: int, y: int, q: int, r: int)
    requires y != 0
    ensures q == TruncDiv(x, y) && r == TruncRem(x, y) <==> Splits(x, y, q, r)
  {
    TruncSplits(x, y);
    if Splits(x, y, q, r) {
      SignOfQuotient(x, y, q, r);
      DivUnique(Abs(x), Abs(y), Abs(q), Abs(r));
    }
  }

  /** An operand as the instruction reads it. */
  function Operand(v: nat, signed: bool, word: bool): int
    requires v < TWO64
  {
    if word then if signed then Signed32(Low32(v)) else Low32(v)
    else if signed then Signed64(v) else v
  }

  /** The least signed number of the width: its quotient by -1 overflows. */
  function Least(word: bool): int { if word then -TWO31 else -TWO63 }

  /** DIV, DIVU, REM, REMU and their W forms (section 7.2 and its table of
      division by zero and overflow). */
  function Divide(rem: bool, signed: bool, word: bool, a: nat, b: nat): (y: nat)
    requires a < TWO64 && b < TWO64
    ensures y < TWO64
  {
    var x, d := Operand(a, signed, word), Operand(b, signed, word);
    var v := if d == 0 then if rem then x else if signed then -1 else if word then TWO32 - 1 else TWO64 - 1
             else if signed && x == Least(word) && d == -1 then if rem then 0 else x
             else if rem then TruncRem(x, d) else TruncDiv(x, d);
    assert if word then -TWO31 <= v < TWO32 else -TWO63 <= v < TWO64 by {
      if d != 0 && !(signed && x == Least(word) && d == -1) { DivideRange(signed, word, x, d); }
    }
    if word then Extend32(Word32(v)) else Word64(v)
  }

  lemma DivideRange(signed: bool, word: bool, x: int, d: int)
    requires d != 0 && !(signed && x == Least(word) && d == -1)
    requires if signed then Least(word) <= x < -Least(word) else 0 <= x < -2 * Least(word)
    requires !signed ==> d > 0
    ensures if signed then Least(word) <= TruncDiv(x, d) < -Least(word) else 0 <= TruncDiv(x, d) < -2 * Least(word)
    ensures if signed then Least(word) <= TruncRem(x, d) < -Least(word) else 0 <= TruncRem(x, d) < -2 * Least(word)
  {
    DivModAgain(Abs(x), Abs(d));
    QuotientLe(Abs(x), Abs(d), Abs(x) / Abs(d));
  }

  // ---------------------------------------------------------------- multiplication

  /** The low 64 bits of a product, the same for signed and unsigned operands. */
  function MulLow(a: nat, b: nat): (y: nat)
    ensures y < TWO64
  {
    (a * b) % TWO64
  }

  /** The double-width product of MULH (1), MULHSU (2) and MULHU (3). */
  function FullProduct(op: nat, a: nat, b: nat): int
    requires a < TWO64 && b < TWO64
  {
    (if op == 3 then a else Signed64(a)) * (if op == 1 then Signed64(b) else b)
  }

  /** `y` is the high half of the double-width product. */
  predicate IsHigh(op: nat, a: nat, b: nat, y: nat)
    requires a < TWO64 && b < TWO64 && y < TWO64
  {
    FullProduct(op, a, b) == TWO64 * (if op == 3 then y else Signed64(y)) + MulLow(a, b)
  }
}
