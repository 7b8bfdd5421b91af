/** What the multiplier and divider answer, and when. */
module MulDivProof {
  import opened Arith
  import opened Bytes
  import opened RiscvM
  import opened MulDiv

  // ---------------------------------------------------------------- the loop invariant

  /** The top bits of the dividend seen so far are `top`, the rest `low`, below
      `p`; the quotient register holds `low` above the quotient bits `q` found so
      far, below `w`; and `top` is `q` divisors and a remainder below the divisor. */
  predicate Split(p: nat, w: nat, amag: nat, d: nat, rem: nat, quo: nat, top: nat, low: nat, q: nat) {
    && amag == top * p + low && low < p
    && quo == low * w + q && q < w
    && top == q * d + rem && rem < d && top < w
  }

  /** The invariant after `k` steps: `k` bits are seen. */
  predicate Part(k: nat, amag: nat, d: nat, rem: nat, quo: nat, top: nat, low: nat, q: nat) {
    k <= 64 && Split(Pow2(64 - k), Pow2(k), amag, d, rem, quo, top, low, q)
  }

  lemma RemainderBelow(p: nat, w: nat, amag: nat, d: nat, rem: nat, quo: nat, top: nat, low: nat, q: nat)
    requires Split(p, w, amag, d, rem, quo, top, low, q)
    ensures rem < w
  {
    ProductNonNegative(q, d);
  }

  lemma ProductNonNegative(x: nat, y: nat)
    ensures x * y >= 0
  {
  }

  lemma SumBelow(l: nat, p: nat, w: nat, q: nat)
    requires l < p && q < w
    ensures l * w + q < p * w
  {
    if l + 1 < p { ProductAtLeast(w, p - l); }
    assert p * w == l * w + w * (p - l);
  }

  /** Shifting the quotient register out by one bit. */
  lemma ShiftOut(low: nat, p: nat, w: nat, q: nat)
    requires low < 2 * p && q < w && p * w == TWO63
    ensures var l := if low >= p then low - p else low;
            var v := low * w + q;
            && v < TWO64 && Top(v) == (if low >= p then 1 else 0) && Low63(v) == l * w + q
  {
    if low >= p {
      assert low * w == p * w + (low - p) * w;
      SumBelow(low - p, p, w, q);
    } else {
      SumBelow(low, p, w, q);
    }
  }

  /** One step of long division on the part of the dividend seen so far. */
  lemma StepDivides(q: nat, d: nat, rem: nat, top: nat, bit: nat)
    requires top == q * d + rem && rem < d && bit <= 1
    ensures var c := 2 * rem + bit;
            && 2 * top + bit == 2 * (q * d) + c
            && (2 * q) * d == 2 * (q * d) && (2 * q + 1) * d == 2 * (q * d) + d
            && c < 2 * d
  {
  }

  lemma Regroup(top: nat, p: nat, low: nat, bit: nat, low': nat, w: nat, q: nat)
    requires low == bit * p + low' && bit <= 1
    ensures top * (2 * p) + low == (2 * top + bit) * p + low'
    ensures 2 * (low' * w + q) == low' * (2 * w) + 2 * q
  {
    assert (2 * top + bit) * p == 2 * (top * p) + bit * p;
    assert top * (2 * p) == 2 * (top * p);
    assert low' * (2 * w) == 2 * (low' * w);
  }

  /** One step moves one bit from the rest to the part seen. */
  lemma StepSplits(rem: nat, quo: nat, p: nat, w: nat, amag: nat, d: nat, top: nat, low: nat, q: nat)
    returns (top': nat, low': nat, q': nat)
    requires rem < TWO64 && quo < TWO64 && Split(2 * p, w, amag, d, rem, quo, top, low, q)
    requires p * w == TWO63 && w <= TWO63
    ensures var c := Candidate(rem, quo);
            Split(p, 2 * w, amag, d, if c >= d then c - d else c, 2 * Low63(quo) + (if c >= d then 1 else 0),
                  top', low', q')
  {
    ShiftOut(low, p, w, q);
    var bit := if low >= p then 1 else 0;
    RemainderBelow(2 * p, w, amag, d, rem, quo, top, low, q);
    StepDivides(q, d, rem, top, bit);
    top', low', q' := 2 * top + bit, if low >= p then low - p else low, 2 * q + if 2 * rem + bit >= d then 1 else 0;
    Regroup(top, p, low, bit, low', w, q);
  }

  lemma {:induction false} PowLe(k: nat, n: nat)
    requires k <= n
    ensures Pow2(k) <= Pow2(n)
  {
    Pow2Sum(n - k, k);
    ProductAtLeast(Pow2(k), Pow2(n - k));
    assert Pow2(k) * Pow2(n - k) == Pow2(n - k) * Pow2(k);
  }

  lemma Powers(k: nat)
    requires k < 64
    ensures Pow2(64 - k) == 2 * Pow2(63 - k) && Pow2(k + 1) == 2 * Pow2(k)
    ensures Pow2(63 - k) * Pow2(k) == TWO63 && Pow2(k) <= TWO63
  {
    Pow2Values();
    Pow2Sum(63 - k, k);
    PowLe(k, 63);
  }

  /** One step keeps the invariant. */
  lemma StepKeeps(s: Regs, k: nat, amag: nat, top: nat, low: nat, q: nat) returns (top': nat, low': nat, q': nat)
    requires s.Shape() && k < 64 && Part(k, amag, s.divisor, s.rem, s.quo, top, low, q)
    ensures var t := Iterate(s); Part(k + 1, amag, s.divisor, t.rem, t.quo, top', low', q')
  {
    Powers(k);
    top', low', q' := StepSplits(s.rem, s.quo, Pow2(63 - k), Pow2(k), amag, s.divisor, top, low, q);
  }

  /** After the last step the registers hold quotient and remainder. */
  lemma LastStep(amag: nat, d: nat, rem: nat, quo: nat, top: nat, low: nat, q: nat)
    requires Part(64, amag, d, rem, quo, top, low, q)
    ensures d > 0 && quo == amag / d && rem == amag % d
  {
    assert low == 0 && 0 * Pow2(64) == 0;
    assert q * d == d * q;
    DivUnique(amag, d, q, rem);
  }

  // ---------------------------------------------------------------- runs

  /** The registers through a run of any wires at all. */
  predicate Trace(xs: seq<Regs>, ins: seq<In>) {
    && |xs| == |ins| + 1
    && forall c :: 0 <= c < |ins| ==> xs[c].Shape() && ins[c].Ok() && xs[c + 1] == Next(xs[c], ins[c])
  }

  /** What the unit keeps of the operands while it divides. */
  predicate Kept(s: Regs, t: Regs) {
    && s.divisor == t.divisor && s.negQuo == t.negQuo && s.negRem == t.negRem && s.opIsRem == t.opIsRem
    && s.word == t.word && s.divByZero == t.divByZero && s.signOvf == t.signOvf && s.aLat == t.aLat
  }

  /** Cycle `k` of the division that started in cycle `c`: whatever the wires
      say meanwhile, the unit is busy and not done. */
  predicate RunningAt(xs: seq<Regs>, c: nat, k: nat)
    requires c + 1 + k < |xs|
  {
    var s := xs[c + 1 + k];
    && s.Shape() && Kept(xs[c + 1], s) && !s.done
    && s.iter == 64 - k && s.phase == if k < 64 then Running else Finishing
  }

  lemma {:induction false} Runs(xs: seq<Regs>, ins: seq<In>, c: nat, k: nat, amag: nat)
    returns (top: nat, low: nat, q: nat)
    requires Trace(xs, ins) && c + 1 + k < |xs| && k <= 64
    requires RunningAt(xs, c, 0) && xs[c + 1].quo == amag && xs[c + 1].rem == 0 && xs[c + 1].divisor > 0
    ensures RunningAt(xs, c, k)
    ensures Part(k, amag, xs[c + 1].divisor, xs[c + 1 + k].rem, xs[c + 1 + k].quo, top, low, q)
    decreases k
  {
    if k == 0 {
      Pow2Values();
      top, low, q := 0, amag, 0;
    } else {
      var t, l, r := Runs(xs, ins, c, k - 1, amag);
      top, low, q := StepKeeps(xs[c + k], k - 1, amag, t, l, r);
    }
  }

  /** In no cycle of a division does the shifted remainder lose a set bit: after
      `k` steps it is below 2^k. */
  lemma NoBitLost(xs: seq<Regs>, ins: seq<In>, c: nat, k: nat)
    requires Trace(xs, ins) && c + 1 + k < |xs| && k <= 64
    requires RunningAt(xs, c, 0) && xs[c + 1].rem == 0 && xs[c + 1].divisor > 0
    ensures RunningAt(xs, c, k)
    ensures xs[c + 1 + k].rem < Pow2(64 - xs[c + 1 + k].iter)
    ensures k < 64 ==> Candidate(xs[c + 1 + k].rem, xs[c + 1 + k].quo) == 2 * xs[c + 1 + k].rem + Top(xs[c + 1 + k].quo)
  {
    var s := xs[c + 1 + k];
    var top, low, q := Runs(xs, ins, c, k, xs[c + 1].quo);
    RemainderBelow(Pow2(64 - k), Pow2(k), xs[c + 1].quo, s.divisor, s.rem, s.quo, top, low, q);
    if k < 64 {
      Powers(k);
    }
  }

  // ---------------------------------------------------------------- the answer

  lemma MagnitudeIsAbs(v: nat, signed: bool, word: bool)
    requires v < TWO64
    ensures Magnitude(v, signed, word) == Abs(Operand(v, signed, word))
    ensures signed ==> (Negative(v, word) <==> Operand(v, signed, word) < 0)
    ensures !signed ==> Operand(v, signed, word) >= 0
  {
  }

  /** The two special cases, as the operands. */
  lemma SpecialCases(x: In)
    requires x.Ok()
    ensures var s := SignedOp(x.op);
            && (ByZero(x) <==> Operand(x.b, s, x.word) == 0)
            && (Overflows(x) <==> s && Operand(x.a, s, x.word) == Least(x.word) && Operand(x.b, s, x.word) == -1)
  {
  }

  /** Negating in 64 bits and cutting to 32 is negating in 32 bits. */
  lemma CutNegated(v: nat)
    requires v < TWO32
    ensures Low32(v) == v && Low32(Neg64(v)) == Neg32(v)
  {
    DivUnique(v, TWO32, 0, v);
    if v > 0 {
      DivUnique(TWO64 - v, TWO32, TWO32 - 1, TWO32 - v);
    } else {
      DivUnique(0, TWO32, 0, 0);
    }
  }

  /** The word of a result with magnitude `m`, negated or not. */
  function Final(word: bool, neg: bool, m: nat): nat
    requires m < TWO64
  {
    var v := if neg then Neg64(m) else m;
    if word then Extend32(Low32(v)) else v
  }

  lemma FinalIs(word: bool, neg: bool, m: nat, v: int)
    requires v == if neg then -(m as int) else m
    requires if word then -TWO31 <= v < TWO32 else -TWO63 <= v < TWO64
    ensures Final(word, neg, m) == if word then Extend32(Word32(v)) else Word64(v)
  {
    if word { CutNegated(m); }
  }

  /** Quotient and remainder of the magnitudes, with the signs put back. */
  lemma SignsBack(x: int, d: int, signed: bool)
    requires d != 0 && (!signed ==> x >= 0 && d > 0)
    ensures TruncDiv(x, d) == (if signed && ((x < 0) != (d < 0)) then -(Abs(x) / Abs(d)) else Abs(x) / Abs(d))
    ensures TruncRem(x, d) == (if signed && x < 0 then -(Abs(x) % Abs(d)) else Abs(x) % Abs(d))
  {
  }

  lemma WordBack(v: nat, signed: bool, word: bool)
    requires v < TWO64
    ensures if word then Word32(Operand(v, signed, word)) == Low32(v) else Word64(Operand(v, signed, word)) == v
  {
  }

  /** What latching a divide leaves in the registers. */
  predicate Latched(s: Regs, x: In)
    requires x.Ok()
  {
    var signed := SignedOp(x.op);
    && s.Shape() && s.aLat == x.a && s.word == x.word && s.opIsRem == RemOp(x.op)
    && s.divByZero == ByZero(x) && s.signOvf == Overflows(x)
    && s.divisor == Magnitude(x.b, signed, x.word)
    && s.negQuo == (signed && Negative(x.a, x.word) != Negative(x.b, x.word) && !ByZero(x))
    && s.negRem == (signed && Negative(x.a, x.word) && !ByZero(x))
  }

  function Answer(x: In): nat
    requires x.Ok()
  {
    Divide(RemOp(x.op), SignedOp(x.op), x.word, x.a, x.b)
  }

  lemma SpecialAnswer(s: Regs, x: In)
    requires x.Ok() && Latched(s, x) && (ByZero(x) || Overflows(x))
    ensures Finish(s).y == Answer(x)
  {
    SpecialCases(x);
    WordBack(x.a, SignedOp(x.op), x.word);
    CutNegated(0);
    CutNegated(TWO32 - 1);
  }

  lemma OrdinaryValue(x: In)
    requires x.Ok() && !ByZero(x) && !Overflows(x)
    ensures var signed := SignedOp(x.op);
            var n, d := Operand(x.a, signed, x.word), Operand(x.b, signed, x.word);
            var v := if RemOp(x.op) then TruncRem(n, d) else TruncDiv(n, d);
            && d != 0
            && (if x.word then -TWO31 <= v < TWO32 else -TWO63 <= v < TWO64)
            && Answer(x) == if x.word then Extend32(Word32(v)) else Word64(v)
  {
    var signed := SignedOp(x.op);
    SpecialCases(x);
    DivideRange(signed, x.word, Operand(x.a, signed, x.word), Operand(x.b, signed, x.word));
  }

  lemma OrdinaryAnswer(s: Regs, x: In)
    requires x.Ok() && Latched(s, x) && !ByZero(x) && !Overflows(x)
    requires var m := Magnitude(x.a, SignedOp(x.op), x.word);
             s.divisor > 0 && s.quo == m / s.divisor && s.rem == m % s.divisor
    ensures Finish(s).y == Answer(x)
  {
    var signed := SignedOp(x.op);
    var n, d := Operand(x.a, signed, x.word), Operand(x.b, signed, x.word);
    OrdinaryValue(x);
    MagnitudeIsAbs(x.a, signed, x.word);
    MagnitudeIsAbs(x.b, signed, x.word);
    SignsBack(n, d, signed);
    if RemOp(x.op) {
      FinalIs(x.word, s.negRem, s.rem, TruncRem(n, d));
    } else {
      FinalIs(x.word, s.negQuo, s.quo, TruncDiv(n, d));
    }
  }

  // ---------------------------------------------------------------- start to done

  /** Cycles from the start pulse to the answer. */
  function Latency(x: In): nat {
    if x.op < 4 then 1 else if ByZero(x) || Overflows(x) then 2 else 66
  }

  /** Started in cycle `c`, the unit is busy without an answer in every cycle
      before the last, then idle again with the answer. */
  predicate Answers(xs: seq<Regs>, c: nat, n: nat, y: nat)
    requires c + n < |xs|
  {
    && (forall k :: c < k < c + n ==> xs[k].phase != Idle && !xs[k].done)
    && xs[c + n].phase == Idle && xs[c + n].done && xs[c + n].y == y
  }

  lemma SpecialInTime(xs: seq<Regs>, ins: seq<In>, c: nat)
    requires Trace(xs, ins) && c + 2 <= |ins| && xs[c].phase == Idle && ins[c].start && ins[c].op >= 4
    requires ByZero(ins[c]) || Overflows(ins[c])
    ensures Answers(xs, c, 2, Answer(ins[c]))
  {
    assert xs[c + 1] == Next(xs[c], ins[c]) == Latch(xs[c], ins[c]);
    assert xs[c + 2] == Next(xs[c + 1], ins[c + 1]) == Finish(xs[c + 1]);
    SpecialAnswer(xs[c + 1], ins[c]);
  }

  lemma StartedRunning(xs: seq<Regs>, ins: seq<In>, c: nat)
    requires Trace(xs, ins) && c < |ins| && xs[c].phase == Idle && ins[c].start && ins[c].op >= 4
    requires !ByZero(ins[c]) && !Overflows(ins[c])
    ensures RunningAt(xs, c, 0) && Latched(xs[c + 1], ins[c]) && xs[c + 1].divisor > 0 && xs[c + 1].rem == 0
    ensures xs[c + 1].quo == Magnitude(ins[c].a, SignedOp(ins[c].op), ins[c].word)
  {
    var x := ins[c];
    assert xs[c + 1] == Next(xs[c], x) == Latch(xs[c], x);
    SpecialCases(x);
    MagnitudeIsAbs(x.b, SignedOp(x.op), x.word);
  }

  lemma OrdinaryInTime(xs: seq<Regs>, ins: seq<In>, c: nat)
    requires Trace(xs, ins) && c + 66 <= |ins| && xs[c].phase == Idle && ins[c].start && ins[c].op >= 4
    requires !ByZero(ins[c]) && !Overflows(ins[c])
    ensures Answers(xs, c, 66, Answer(ins[c]))
  {
    StartedRunning(xs, ins, c);
    var amag := xs[c + 1].quo;
    forall k | c < k < c + 66
      ensures xs[k].phase != Idle && !xs[k].done
    {
      var _, _, _ := Runs(xs, ins, c, k - c - 1, amag);
    }
    var s := xs[c + 65];
    var top, low, q := Runs(xs, ins, c, 64, amag);
    LastStep(amag, s.divisor, s.rem, s.quo, top, low, q);
    OrdinaryAnswer(s, ins[c]);
    assert xs[c + 66] == Next(s, ins[c + 65]) == Finish(s);
  }

  /** A divide started while the unit is idle is answered after exactly 2 cycles
      in the special cases and 66 otherwise, with the value section 7.2 gives,
      whatever is on the wires in between. */
  lemma DivideAnswers(xs: seq<Regs>, ins: seq<In>, c: nat)
    requires Trace(xs, ins) && c < |ins| && xs[c].phase == Idle && ins[c].start && ins[c].op >= 4
    requires c + Latency(ins[c]) <= |ins|
    ensures Answers(xs, c, Latency(ins[c]), Answer(ins[c]))
  {
    if ByZero(ins[c]) || Overflows(ins[c]) {
      SpecialInTime(xs, ins, c);
    } else {
      OrdinaryInTime(xs, ins, c);
    }
  }

  // ---------------------------------------------------------------- multiplies

  lemma ProductLe(x: nat, y: nat, m: nat, n: nat)
    requires x <= m && y <= n
    ensures x * y <= m * n
  {
    assert m * n == x * y + x * (n - y) + (m - x) * n;
  }

  lemma AbsProduct(x: int, y: int)
    ensures Abs(x * y) == Abs(x) * Abs(y)
  {
    NegativeProduct(x, y);
    NegativeProduct(-x, y);
  }

  /** Adding multiples of `m` to both factors adds a multiple of `m`. */
  lemma ProductShift(x: int, y: int, i: int, j: int, m: int)
    ensures (x + i * m) * (y + j * m) == x * y + m * (x * j + i * y + i * (j * m))
  {
    assert (x + i * m) * (y + j * m) == x * y + x * (j * m) + (i * m) * y + (i * m) * (j * m);
    assert x * (j * m) == m * (x * j);
    assert (i * m) * y == m * (i * y);
    assert (i * m) * (j * m) == m * (i * (j * m));
  }

  /** A product of numbers agreeing with `x` and `z` below 2^128 has the bits of
      `x * z` there. */
  lemma CutProduct(x: int, z: int, i: int, j: int)
    ensures ((x + i * TWO128) * (z + j * TWO128)) % TWO128 == (x * z) % TWO128
  {
    var k := x * j + i * z + i * (j * TWO128);
    ProductShift(x, z, i, j, TWO128);
    var q, r := (x * z) / TWO128, (x * z) % TWO128;
    assert TWO128 * q + TWO128 * k == TWO128 * (q + k);
    DivUnique((x + i * TWO128) * (z + j * TWO128), TWO128, q + k, r);
  }

  /** Cutting to 128 bits and then taking the high half, signed or unsigned. */
  lemma HighMeans(p: int)
    requires -TWO128 <= 2 * p < 2 * TWO128
    ensures var h, l := (p % TWO128) / TWO64, (p % TWO128) % TWO64;
            && h < TWO64
            && (0 <= p ==> p == TWO64 * h + l)
            && (2 * p < TWO128 ==> p == TWO64 * Signed64(h) + l)
  {
    if p >= 0 {
      DivUnique(p, TWO128, 0, p);
    } else {
      DivUnique(p, TWO128, -1, p + TWO128);
    }
    DivModAgain(p % TWO128, TWO64);
  }

  /** The low half does not depend on how the factors are signed. */
  lemma LowMeans(a: nat, b: nat, x: int, z: int, i: int, j: int)
    requires a == x + i * TWO64 && b == z + j * TWO64
    ensures ((x * z) % TWO128) % TWO64 == MulLow(a, b)
  {
    var p := x * z;
    var m := p % TWO128;
    var q := p / TWO128;
    DivModAgain(m, TWO64);
    assert p == TWO128 * q + m;
    var k := x * j + i * z + i * (j * TWO64);
    ProductShift(x, z, i, j, TWO64);
    assert TWO128 * q == TWO64 * (TWO64 * q);
    var t := TWO64 * q + m / TWO64 + k;
    assert a * b == TWO64 * t + m % TWO64;
    DivUnique(a * b, TWO64, t, m % TWO64);
  }

  lemma ProductRange(x: int, z: int)
    requires Abs(x) <= TWO63 && Abs(z) <= TWO64 - 1
    ensures -TWO128 <= 2 * (x * z) < TWO128
  {
    AbsProduct(x, z);
    ProductLe(Abs(x), Abs(z), TWO63, TWO64 - 1);
  }

  lemma Assemble(p: int, g: nat, l: nat)
    requires g % TWO128 == p % TWO128 && -TWO128 <= 2 * p < TWO128 && l == (p % TWO128) % TWO64
    ensures p == TWO64 * Signed64(High(g)) + l
  {
    HighMeans(p);
  }

  lemma SignedHigh(a: nat, b: nat, x: int, z: int, i: int, j: int, g: nat)
    requires a == x + i * TWO64 && b == z + j * TWO64 && Abs(x) <= TWO63 && Abs(z) <= TWO64 - 1
    requires g == (x + i * TWO128) * (z + j * TWO128)
    ensures x * z == TWO64 * Signed64(High(g)) + MulLow(a, b)
  {
    CutProduct(x, z, i, j);
    LowMeans(a, b, x, z, i, j);
    ProductRange(x, z);
    Assemble(x * z, g, MulLow(a, b));
  }

  lemma UnsignedRange(a: nat, b: nat)
    requires a < TWO64 && b < TWO64
    ensures a * b < TWO128
  {
    ProductLe(a, b, TWO64 - 1, TWO64 - 1);
  }

  lemma AssembleUnsigned(p: nat, l: nat)
    requires p < TWO128 && l == (p % TWO128) % TWO64
    ensures p == TWO64 * High(p) + l
  {
    HighMeans(p);
  }

  lemma UnsignedHigh(a: nat, b: nat)
    requires a < TWO64 && b < TWO64
    ensures a * b == TWO64 * High(a * b) + MulLow(a, b)
  {
    LowMeans(a, b, a, b, 0, 0);
    UnsignedRange(a, b);
    AssembleUnsigned(a * b, MulLow(a, b));
  }

  lemma HighHalf1(a: nat, b: nat)
    requires a < TWO64 && b < TWO64
    ensures IsHigh(1, a, b, MulResult(1, false, a, b))
  {
    SignedHigh(a, b, Signed64(a), Signed64(b), if a >= TWO63 then 1 else 0, if b >= TWO63 then 1 else 0,
               SignExtend128(a) * SignExtend128(b));
  }

  lemma HighHalf2(a: nat, b: nat)
    requires a < TWO64 && b < TWO64
    ensures IsHigh(2, a, b, MulResult(2, false, a, b))
  {
    SignedHigh(a, b, Signed64(a), b, if a >= TWO63 then 1 else 0, 0, SignExtend128(a) * b);
  }

  /** MULH, MULHSU and MULHU are the high halves of the full products, the low
      half being what MUL gives. */
  lemma HighHalves(op: nat, a: nat, b: nat)
    requires a < TWO64 && b < TWO64 && 1 <= op <= 3
    ensures IsHigh(op, a, b, MulResult(op, false, a, b))
  {
    if op == 1 {
      HighHalf1(a, b);
    } else if op == 2 {
      HighHalf2(a, b);
    } else {
      UnsignedHigh(a, b);
    }
  }

  /** The low words' product is the product's, up to a multiple of 2^32. */
  lemma ProductOfWords(a: nat, b: nat) returns (k: nat)
    ensures a * b == Low32(a) * Low32(b) + TWO32 * k
  {
    var i, j := a / TWO32, b / TWO32;
    ProductShift(Low32(a), Low32(b), i, j, TWO32);
    k := Low32(a) * j + i * Low32(b) + i * (j * TWO32);
  }

  lemma CutTwice(p: nat, r: nat, k: nat)
    requires p == r + TWO32 * k
    ensures Low32(p % TWO64) == Low32(r)
  {
    var q, l := (p % TWO64) / TWO32, (p % TWO64) % TWO32;
    var t := p / TWO64;
    assert p == TWO32 * (TWO32 * t + q) + l;
    DivUnique(r, TWO32, TWO32 * t + q - k, l);
  }

  /** MULW multiplies the low 32 bits of the operands. */
  lemma WordProduct(a: nat, b: nat)
    requires a < TWO64 && b < TWO64
    ensures MulResult(0, true, a, b) == Extend32(Low32(Low32(a) * Low32(b)))
  {
    var k := ProductOfWords(a, b);
    CutTwice(a * b, Low32(a) * Low32(b), k);
  }

  /** A multiply is answered in the next cycle. */
  lemma MultiplyAnswers(xs: seq<Regs>, ins: seq<In>, c: nat)
    requires Trace(xs, ins) && c < |ins| && xs[c].phase == Idle && ins[c].start && ins[c].op < 4
    ensures var x := ins[c];
            && Answers(xs, c, Latency(x), MulResult(x.op, x.word, x.a, x.b))
            && (!x.word && x.op == 0 ==> xs[c + 1].y == MulLow(x.a, x.b))
            && (!x.word && x.op > 0 ==> xs[c + 1].y < TWO64 && IsHigh(x.op, x.a, x.b, xs[c + 1].y))
            && (x.word && x.op == 0 ==> xs[c + 1].y == Extend32(Low32(Low32(x.a) * Low32(x.b))))
            && (x.word && x.op > 0 ==> xs[c + 1].y == 0)
  {
    var x := ins[c];
    assert xs[c + 1] == Next(xs[c], x) == Latch(xs[c], x);
    if x.word {
      WordProduct(x.a, x.b);
    } else if x.op > 0 {
      HighHalves(x.op, x.a, x.b);
    }
  }
}
