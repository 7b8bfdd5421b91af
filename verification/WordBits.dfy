/** What the bit operations of the ALU and the simulator do, bit by bit. */
module WordBits {
  import opened Arith
  import opened Bytes
  import opened RiscvM
  import opened Words
  import Iss
  import opened Core

  /** Bit `k` of a number. */
  predicate IsSet(v: nat, k: nat) { (v / Pow2(k)) % 2 == 1 }

  lemma BitZero(v: nat)
    ensures IsSet(v, 0) <==> v % 2 == 1
  {
    assert Pow2(0) == 1;
  }

  lemma BitAbove(v: nat, k: nat)
    requires k > 0
    ensures IsSet(v, k) <==> IsSet(v / 2, k - 1)
  {
    HalfThen(v, Pow2(k - 1));
  }

  /** One bit of a result put together from its lowest bit and the rest. */
  lemma BitJoin(low: nat, rest: nat, k: nat)
    requires low < 2
    ensures IsSet(low + 2 * rest, k) <==> if k == 0 then low == 1 else IsSet(rest, k - 1)
  {
    var v := low + 2 * rest;
    DivUnique(v, 2, rest, low);
    if k == 0 { BitZero(v); } else { BitAbove(v, k); }
  }

  lemma LowBit(op: BitOp, a: nat, b: nat, n: nat)
    requires n > 0
    ensures IsSet(Bitwise(op, a, b, n), 0) <==> Bit(op, a % 2 == 1, b % 2 == 1) == 1
  {
    BitJoin(Bit(op, a % 2 == 1, b % 2 == 1), Bitwise(op, a / 2, b / 2, n - 1), 0);
  }

  lemma HighBit(op: BitOp, a: nat, b: nat, n: nat, k: nat)
    requires 0 < k < n
    ensures IsSet(Bitwise(op, a, b, n), k) <==> IsSet(Bitwise(op, a / 2, b / 2, n - 1), k - 1)
  {
    BitJoin(Bit(op, a % 2 == 1, b % 2 == 1), Bitwise(op, a / 2, b / 2, n - 1), k);
  }

  /** Bit `k` of the result is decided by the two bits `k` alone. */
  lemma {:induction false} BitwiseBit(op: BitOp, a: nat, b: nat, n: nat, k: nat)
    requires k < n
    ensures IsSet(Bitwise(op, a, b, n), k) <==> Bit(op, IsSet(a, k), IsSet(b, k)) == 1
    decreases k
  {
    if k == 0 {
      LowBit(op, a, b, n);
      BitZero(a);
      BitZero(b);
    } else {
      HighBit(op, a, b, n, k);
      BitwiseBit(op, a / 2, b / 2, n - 1, k - 1);
      BitAbove(a, k);
      BitAbove(b, k);
    }
  }

  /** Every bit of `r` is the conjunction of the bits of `a` and `b`. */
  predicate Conjoins(r: nat, a: nat, b: nat) {
    r < TWO64 && forall k: nat :: k < 64 ==> (IsSet(r, k) <==> IsSet(a, k) && IsSet(b, k))
  }

  predicate Disjoins(r: nat, a: nat, b: nat) {
    r < TWO64 && forall k: nat :: k < 64 ==> (IsSet(r, k) <==> IsSet(a, k) || IsSet(b, k))
  }

  predicate Differs(r: nat, a: nat, b: nat) {
    r < TWO64 && forall k: nat :: k < 64 ==> (IsSet(r, k) <==> IsSet(a, k) != IsSet(b, k))
  }

  lemma AndBits(a: nat, b: nat)
    ensures Conjoins(Bitwise64(AND, a, b), a, b)
  {
    forall k: nat | k < 64
      ensures IsSet(Bitwise64(AND, a, b), k) <==> IsSet(a, k) && IsSet(b, k)
    {
      BitwiseBit(AND, a, b, 64, k);
    }
  }

  lemma OrBits(a: nat, b: nat)
    ensures Disjoins(Bitwise64(OR, a, b), a, b)
  {
    forall k: nat | k < 64
      ensures IsSet(Bitwise64(OR, a, b), k) <==> IsSet(a, k) || IsSet(b, k)
    {
      BitwiseBit(OR, a, b, 64, k);
    }
  }

  lemma XorBits(a: nat, b: nat)
    ensures Differs(Bitwise64(XOR, a, b), a, b)
  {
    forall k: nat | k < 64
      ensures IsSet(Bitwise64(XOR, a, b), k) <==> IsSet(a, k) != IsSet(b, k)
    {
      BitwiseBit(XOR, a, b, 64, k);
    }
  }

  /** A number is its bits, so the three predicates leave no choice. */
  lemma {:induction false} SameBits(a: nat, b: nat, n: nat)
    requires a < Pow2(n) && b < Pow2(n)
    requires forall k: nat :: k < n ==> (IsSet(a, k) <==> IsSet(b, k))
    ensures a == b
    decreases n
  {
    if n > 0 {
      BitZero(a);
      BitZero(b);
      forall k: nat | k < n - 1
        ensures IsSet(a / 2, k) <==> IsSet(b / 2, k)
      {
        BitAbove(a, k + 1);
        BitAbove(b, k + 1);
        assert IsSet(a, k + 1) <==> IsSet(b, k + 1);
      }
      SameBits(a / 2, b / 2, n - 1);
    }
  }

  /** The ALU's operations 9, 8 and 5. */
  lemma AluBits(a: nat, b: nat)
    requires a < TWO64 && b < TWO64
    ensures Conjoins(Alu(9, false, a, b), a, b)
    ensures Disjoins(Alu(8, false, a, b), a, b)
    ensures Differs(Alu(5, false, a, b), a, b)
  {
    AndBits(a, b);
    OrBits(a, b);
    XorBits(a, b);
  }

  /** `and`, `or` and `xor` of the simulator. */
  lemma RegBits(i: nat, a: nat, b: nat)
    requires a < TWO64 && b < TWO64 && Iss.Funct7(i) == 0
    requires Iss.Funct3(i) == 4 || Iss.Funct3(i) == 6 || Iss.Funct3(i) == 7
    ensures Iss.OpReg(i, a, b).Value?
    ensures var r := Iss.OpReg(i, a, b).v;
            && (Iss.Funct3(i) == 7 ==> Conjoins(r, a, b))
            && (Iss.Funct3(i) == 6 ==> Disjoins(r, a, b))
            && (Iss.Funct3(i) == 4 ==> Differs(r, a, b))
  {
    AndBits(a, b);
    OrBits(a, b);
    XorBits(a, b);
  }

  /** `andi`, `ori` and `xori`: the other operand is the word whose two's
      complement value is the immediate. */
  lemma ImmBits(i: nat, a: nat, b: nat)
    requires i < TWO32 && a < TWO64 && b < TWO64 && Signed64(b) == Iss.IImm(i)
    requires Iss.Funct3(i) == 4 || Iss.Funct3(i) == 6 || Iss.Funct3(i) == 7
    ensures Iss.OpImm(i, a).Value?
    ensures var r := Iss.OpImm(i, a).v;
            && (Iss.Funct3(i) == 7 ==> Conjoins(r, a, b))
            && (Iss.Funct3(i) == 6 ==> Disjoins(r, a, b))
            && (Iss.Funct3(i) == 4 ==> Differs(r, a, b))
  {
    DivUnique(Iss.IImm(i), TWO64, if Iss.IImm(i) < 0 then -1 else 0, b);
    AndBits(a, b);
    OrBits(a, b);
    XorBits(a, b);
  }
}
