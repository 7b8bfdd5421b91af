/** The iterative multiplier and divider (rtl/muldiv.sv). */
module MulDiv {
  import opened Arith
  import opened Bytes
  import opened RiscvM

  const TWO128: int := 0x1_0000_0000_0000_0000_0000_0000_0000_0000

  datatype Phase = Idle | Running | Finishing

  datatype Regs = Regs(phase: Phase, iter: nat, rem: nat, quo: nat, divisor: nat,
                       negQuo: bool, negRem: bool, opIsRem: bool, word: bool,
                       divByZero: bool, signOvf: bool, aLat: nat, done: bool, y: nat) {
    predicate Shape() {
      rem < TWO64 && quo < TWO64 && divisor < TWO64 && aLat < TWO64 && y < TWO64
    }
  }

  datatype In = In(a: nat, b: nat, op: nat, word: bool, start: bool) {
    predicate Ok() { a < TWO64 && b < TWO64 && op < 8 }
  }

  // ---------------------------------------------------------------- wires

  /** Bit 63 and the 63 bits below it. */
  function Top(v: nat): (b: nat)
    requires v < TWO64
    ensures b <= 1
  {
    if v >= TWO63 then 1 else 0
  }

  function Low63(v: nat): (l: nat)
    requires v < TWO64
    ensures l < TWO63
  {
    if v >= TWO63 then v - TWO63 else v
  }

  function Neg64(v: nat): (n: nat)
    requires v < TWO64
    ensures n < TWO64
  {
    if v == 0 then 0 else TWO64 - v
  }

  function Neg32(v: nat): (n: nat)
    requires v < TWO32
    ensures n < TWO32
  {
    if v == 0 then 0 else TWO32 - v
  }

  function SignExtend128(v: nat): (w: nat)
    requires v < TWO64
  {
    if v >= TWO63 then v + (TWO128 - TWO64) else v
  }

  /** Bits 127 to 64 of a product cut to 128 bits. */
  function High(p: nat): (h: nat)
    ensures h < TWO64
  {
    (p % TWO128) / TWO64
  }

  function MulResult(op: nat, word: bool, a: nat, b: nat): (y: nat)
    requires a < TWO64 && b < TWO64
    ensures y < TWO64
  {
    if word then if op == 0 then Extend32(Low32(MulLow(a, b))) else 0
    else if op == 0 then MulLow(a, b)
    else if op == 1 then High(SignExtend128(a) * SignExtend128(b))
    else if op == 2 then High(SignExtend128(a) * b)
    else if op == 3 then High(a * b)
    else 0
  }

  predicate SignedOp(op: nat) { op == 0 || op == 2 || op == 4 || op == 6 }

  predicate RemOp(op: nat) { op == 2 || op == 3 || op == 6 || op == 7 }

  predicate Negative(v: nat, word: bool)
    requires v < TWO64
  {
    if word then Low32(v) >= TWO31 else v >= TWO63
  }

  /** The magnitude the divider works on. */
  function Magnitude(v: nat, signed: bool, word: bool): (m: nat)
    requires v < TWO64
    ensures m < TWO64
  {
    if word then if signed && Low32(v) >= TWO31 then Neg32(Low32(v)) else Low32(v)
    else if signed && v >= TWO63 then Neg64(v) else v
  }

  predicate ByZero(x: In) { if x.word then Low32(x.b) == 0 else x.b == 0 }

  predicate Overflows(x: In) {
    SignedOp(x.op) && if x.word then Low32(x.a) == TWO31 && Low32(x.b) == TWO32 - 1
                      else x.a == TWO63 && x.b == TWO64 - 1
  }

  // ---------------------------------------------------------------- one clock edge

  function Latch(s: Regs, x: In): (r: Regs)
    requires s.Shape() && x.Ok()
    ensures r.Shape()
  {
    var t := s.(aLat := x.a, word := x.word, opIsRem := RemOp(x.op), iter := 64, done := false);
    if x.op < 4 then t.(y := MulResult(x.op, x.word, x.a, x.b), done := true)
    else
      t.(divByZero := ByZero(x), signOvf := Overflows(x),
         quo := Magnitude(x.a, SignedOp(x.op), x.word), rem := 0,
         divisor := Magnitude(x.b, SignedOp(x.op), x.word),
         negQuo := SignedOp(x.op) && Negative(x.a, x.word) != Negative(x.b, x.word) && !ByZero(x),
         negRem := SignedOp(x.op) && Negative(x.a, x.word) && !ByZero(x),
         phase := if ByZero(x) || Overflows(x) then Finishing else Running)
  }

  /** The next remainder candidate: the pair shifted left by one bit. */
  function Candidate(rem: nat, quo: nat): (c: nat)
    requires rem < TWO64 && quo < TWO64
    ensures c < TWO64
  {
    2 * Low63(rem) + Top(quo)
  }

  function Iterate(s: Regs): (r: Regs)
    requires s.Shape()
    ensures r.Shape()
  {
    var cand := Candidate(s.rem, s.quo);
    var ge := cand >= s.divisor;
    s.(rem := if ge then cand - s.divisor else cand, quo := 2 * Low63(s.quo) + (if ge then 1 else 0),
       iter := if s.iter == 0 then 127 else s.iter - 1,
       phase := if s.iter == 1 then Finishing else Running, done := false)
  }

  function FinalResult(s: Regs): (v: nat)
    requires s.Shape()
    ensures v < TWO64
  {
    if s.opIsRem then
      if s.divByZero then s.aLat else if s.signOvf then 0 else if s.negRem then Neg64(s.rem) else s.rem
    else if s.divByZero then if s.word then TWO32 - 1 else TWO64 - 1
    else if s.signOvf then s.aLat else if s.negQuo then Neg64(s.quo) else s.quo
  }

  function Finish(s: Regs): (r: Regs)
    requires s.Shape()
    ensures r.Shape()
  {
    var v := FinalResult(s);
    s.(y := if s.word then Extend32(Low32(v)) else v, done := true, phase := Idle)
  }

  function Next(s: Regs, x: In): (r: Regs)
    requires s.Shape() && x.Ok()
    ensures r.Shape()
  {
    match s.phase
    case Idle => if x.start then Latch(s, x) else s.(done := false)
    case Running => Iterate(s)
    case Finishing => Finish(s)
  }

  /** The unit's registers. */
  class MulDivUnit {
    var phase: Phase
    var iter: nat
    var rem: nat
    var quo: nat
    var divisor: nat
    var negQuo: bool
    var negRem: bool
    var opIsRem: bool
    var word: bool
    var divByZero: bool
    var signOvf: bool
    var aLat: nat
    var done: bool
    var y: nat

    function View(): Regs
      reads this
    {
      Regs(phase, iter, rem, quo, divisor, negQuo, negRem, opIsRem, word, divByZero, signOvf, aLat, done, y)
    }

    constructor ()
      ensures View().Shape() && phase == Idle && !done && y == 0
    {
      phase, done, y := Idle, false, 0;
      iter, rem, quo, divisor, aLat := 0, 0, 0, 0, 0;
      negQuo, negRem, opIsRem, word, divByZero, signOvf := false, false, false, false, false, false;
    }

    method Busy() returns (b: bool)
      ensures b == (phase != Idle)
    {
      b := phase != Idle;
    }

    /** Operands of a divide: magnitudes, signs and the special cases. */
    method LatchDivide(x: In)
      requires x.Ok()
      modifies this`quo, this`rem, this`divisor, this`negQuo, this`negRem, this`divByZero, this`signOvf, this`phase
      ensures divByZero == ByZero(x) && signOvf == Overflows(x) && rem == 0
      ensures quo == Magnitude(x.a, SignedOp(x.op), x.word) && divisor == Magnitude(x.b, SignedOp(x.op), x.word)
      ensures negQuo == (SignedOp(x.op) && Negative(x.a, x.word) != Negative(x.b, x.word) && !ByZero(x))
      ensures negRem == (SignedOp(x.op) && Negative(x.a, x.word) && !ByZero(x))
      ensures phase == if ByZero(x) || Overflows(x) then Finishing else Running
    {
      var signed := SignedOp(x.op);
      var aw, bw := Low32(x.a), Low32(x.b);
      divByZero := if x.word then bw == 0 else x.b == 0;
      signOvf := signed && if x.word then aw == TWO31 && bw == TWO32 - 1 else x.a == TWO63 && x.b == TWO64 - 1;
      if x.word {
        quo := if signed && aw >= TWO31 then Neg32(aw) else aw;
        divisor := if signed && bw >= TWO31 then Neg32(bw) else bw;
        negQuo := signed && ((aw >= TWO31) != (bw >= TWO31)) && !divByZero;
        negRem := signed && aw >= TWO31 && !divByZero;
      } else {
        quo := if signed && x.a >= TWO63 then Neg64(x.a) else x.a;
        divisor := if signed && x.b >= TWO63 then Neg64(x.b) else x.b;
        negQuo := signed && ((x.a >= TWO63) != (x.b >= TWO63)) && !divByZero;
        negRem := signed && x.a >= TWO63 && !divByZero;
      }
      rem := 0;
      phase := if divByZero || signOvf then Finishing else Running;
    }

    /** Idle: a start pulse latches the operands, or answers a multiply. */
    method Start(x: In)
      requires View().Shape() && x.Ok() && phase == Idle && x.start
      modifies this
      ensures View() == Latch(old(View()), x)
    {
      done := false;
      aLat, word, opIsRem, iter := x.a, x.word, RemOp(x.op), 64;
      if x.op < 4 {
        y, done := MulResult(x.op, x.word, x.a, x.b), true;
      } else {
        LatchDivide(x);
      }
    }

    /** One restoring step. */
    method Step()
      requires View().Shape()
      modifies this`rem, this`quo, this`iter, this`phase, this`done
      ensures View() == Iterate(old(View()))
    {
      var cand := 2 * Low63(rem) + Top(quo);
      var ge := cand >= divisor;
      rem := if ge then cand - divisor else cand;
      quo := 2 * Low63(quo) + if ge then 1 else 0;
      phase := if iter == 1 then Finishing else Running;
      iter := if iter == 0 then 127 else iter - 1;
      done := false;
    }

    /** Signs and special cases, and the answer. */
    method Complete()
      requires View().Shape()
      modifies this`y, this`done, this`phase
      ensures View() == Finish(old(View()))
    {
      var q := if divByZero then if word then TWO32 - 1 else TWO64 - 1
               else if signOvf then aLat else if negQuo then Neg64(quo) else quo;
      var r := if divByZero then aLat else if signOvf then 0 else if negRem then Neg64(rem) else rem;
      var v := if opIsRem then r else q;
      y := if word then Extend32(Low32(v)) else v;
      done, phase := true, Idle;
    }

    method Clock(x: In)
      requires View().Shape() && x.Ok()
      modifies this
      ensures View() == Next(old(View()), x)
    {
      match phase
      case Idle => if x.start { Start(x); } else { done := false; }
      case Running => Step();
      case Finishing => Complete();
    }
  }
}
