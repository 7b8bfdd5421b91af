/** Arithmetic on 64-bit words as the hardware and the simulator both have it:
    cuts, shifts and bit operations. */
module Words {
  import opened Arith
  import opened Bytes
  import opened RiscvM

  /** A sum or difference of two words, cut to 64 bits. */
  function Cut64(v: int): (w: nat)
    requires -(TWO64 as int) <= v < 2 * TWO64
    ensures w < TWO64
  {
    if v < 0 then v + TWO64 else if v >= TWO64 then (v as int) - TWO64 else v
  }

  function Cut32(v: int): (w: nat)
    requires -TWO32 <= v < 2 * TWO32
    ensures w < TWO32
  {
    if v < 0 then v + TWO32 else if v >= TWO32 then v - TWO32 else v
  }

  /** A left shift of an unbounded number, one place at a time. */
  function ShiftUp(v: int, n: nat): int {
    if n == 0 then v else 2 * ShiftUp(v, n - 1)
  }

  lemma {:induction false} ShiftUpMultiplies(v: int, n: nat)
    ensures ShiftUp(v, n) == v * Pow2(n)
  {
    if n > 0 {
      ShiftUpMultiplies(v, n - 1);
      Regroup(2, v, Pow2(n - 1));
      Regroup(v, 2, Pow2(n - 1));
    }
  }

  /** What is above bit 32 before the shift stays above it. */
  lemma {:induction false} ShiftUpHigh(v: int, k: int, n: nat)
    ensures ShiftUp(v + k * TWO32, n) == ShiftUp(v, n) + ShiftUp(k, n) * TWO32
  {
    if n > 0 {
      ShiftUpHigh(v, k, n - 1);
    }
  }

  function ShiftLeft64(v: nat, n: nat): (w: nat)
    ensures w < TWO64
  {
    ShiftUp(v, n) % TWO64
  }

  /** Left shift of a 32-bit number, negative ones included, cut to 32 bits. */
  function ShiftLeft32(v: int, n: nat): (w: nat)
    ensures w < TWO32
  {
    ShiftUp(v, n) % TWO32
  }

  /** A right shift, one place at a time: it rounds towards minus infinity, so it
      keeps the sign. */
  function ShiftDown(v: int, n: nat): (w: int)
    ensures v >= 0 ==> 0 <= w <= v
    ensures v < 0 ==> v <= w < 0
    decreases n
  {
    if n == 0 then v else ShiftDown(v / 2, n - 1)
  }

  /** Halving and then dividing divides by twice as much. */
  lemma HalfThen(v: int, p: nat)
    requires p >= 1
    ensures (v / 2) / p == v / (2 * p)
  {
    var q, r := (v / 2) / p, (v / 2) % p;
    DivModAgain(v / 2, p);
    Regroup(2, p, q);
    DivUnique(v, 2 * p, q, 2 * r + v % 2);
  }

  lemma {:induction false} ShiftDownDivides(v: int, n: nat)
    ensures ShiftDown(v, n) == v / Pow2(n)
    decreases n
  {
    if n > 0 {
      ShiftDownDivides(v / 2, n - 1);
      HalfThen(v, Pow2(n - 1));
    }
  }

  // ---------------------------------------------------------------- bit operations

  datatype BitOp = AND | OR | XOR

  function Bit(op: BitOp, a: bool, b: bool): nat {
    if match op case AND => a && b case OR => a || b case XOR => a != b then 1 else 0
  }

  /** The operation on the low `n` bits. */
  function Bitwise(op: BitOp, a: nat, b: nat, n: nat): (r: nat)
    ensures r < Pow2(n)
  {
    if n == 0 then 0 else Bit(op, a % 2 == 1, b % 2 == 1) + 2 * Bitwise(op, a / 2, b / 2, n - 1)
  }

  function Bitwise64(op: BitOp, a: nat, b: nat): (r: nat)
    ensures r < TWO64
  {
    Pow2Values();
    Bitwise(op, a, b, 64)
  }

  /** The word with bit 0 cleared. */
  function ClearBit0(v: nat): (e: nat)
    ensures e <= v
  {
    v - v % 2
  }

  /** Which is what masking with all other bits does. */
  lemma {:induction false} ClearBit0Masks(v: nat)
    requires v < TWO64
    ensures ClearBit0(v) == Bitwise64(AND, v, TWO64 - 2)
  {
    Pow2Values();
    MaskOnes(v / 2, 63);
    assert (TWO64 - 2) / 2 == TWO63 - 1;
  }

  lemma {:induction false} MaskOnes(v: nat, n: nat)
    requires v < Pow2(n)
    ensures Bitwise(AND, v, Pow2(n) - 1, n) == v
  {
    if n > 0 {
      MaskOnes(v / 2, n - 1);
      assert (Pow2(n) - 1) / 2 == Pow2(n - 1) - 1;
    }
  }
}
