/** The simulator's nested loads and stores against the core's whole-access
    memory ports. */
module CoreMem {
  import opened Arith
  import opened Bytes
  import opened ByteMemory
  import opened RiscvM
  import opened Words
  import Iss
  import opened Core
  import opened CoreArith

  /** The access stays below the top of the image. */
  predicate InImage(a: nat, n: nat) { Iss.Low16(a) + n <= Iss.IMAGE }

  lemma NextAddr(a: nat, k: nat)
    requires a < TWO64 && Iss.Low16(a) + k < Iss.IMAGE
    ensures Iss.Cast64(a + k) == a + k < TWO64 && Iss.Low16(a + k) == Iss.Low16(a) + k
  {
    DivUnique(a + k, Iss.IMAGE, a / Iss.IMAGE, Iss.Low16(a) + k);
    DivUnique(a + k, TWO64, 0, a + k);
  }

  lemma Reassociate(x: nat, y: nat, z: nat)
    ensures x * (y * z) == (x * y) * z
  {
  }

  lemma {:induction false} FromBytesJoin(s: seq<byte>, t: seq<byte>)
    ensures FromBytes(s + t) == FromBytes(s) + Pow256(|s|) * FromBytes(t)
  {
    if s == [] {
      assert s + t == t;
    } else {
      FromBytesJoin(s[1..], t);
      assert (s + t)[1..] == s[1..] + t;
      Reassociate(256, Pow256(|s| - 1), FromBytes(t));
    }
  }

  /** A read of two halves. */
  lemma ReadJoin(m: Mem, a: nat, n: nat)
    ensures FromBytes(ReadBytes(m, a, n + n))
         == FromBytes(ReadBytes(m, a, n)) + Pow256(n) * FromBytes(ReadBytes(m, a + n, n))
  {
    assert ReadBytes(m, a, n + n) == ReadBytes(m, a, n) + ReadBytes(m, a + n, n);
    FromBytesJoin(ReadBytes(m, a, n), ReadBytes(m, a + n, n));
  }

  lemma Load8Is(m: Mem, a: nat)
    ensures Iss.Load8(m, a) == FromBytes(ReadBytes(m, Iss.Low16(a), 1))
  {
    assert ReadBytes(m, Iss.Low16(a), 1)[1..] == [];
  }

  lemma Load16Is(m: Mem, a: nat)
    requires a < TWO64 && InImage(a, 2)
    ensures Iss.Load16(m, a) == FromBytes(ReadBytes(m, Iss.Low16(a), 2))
  {
    NextAddr(a, 1);
    Load8Is(m, a);
    Load8Is(m, a + 1);
    ReadJoin(m, Iss.Low16(a), 1);
  }

  lemma Load32Is(m: Mem, a: nat)
    requires a < TWO64 && InImage(a, 4)
    ensures Iss.Load32(m, a) == FromBytes(ReadBytes(m, Iss.Low16(a), 4))
  {
    NextAddr(a, 2);
    Load16Is(m, a);
    Load16Is(m, a + 2);
    ReadJoin(m, Iss.Low16(a), 2);
    Pow256Values();
  }

  lemma Load64Is(m: Mem, a: nat)
    requires a < TWO64 && InImage(a, 8)
    ensures Iss.Load64(m, a) == FromBytes(ReadBytes(m, Iss.Low16(a), 8))
  {
    NextAddr(a, 4);
    Load32Is(m, a);
    Load32Is(m, a + 4);
    ReadJoin(m, Iss.Low16(a), 4);
    Pow256Values();
  }

  /** The low bytes of the port's eight. */
  lemma PortLow(m: Mem, a: nat, n: nat)
    requires n <= 8
    ensures MemRead(m, a, 8) % Pow256(n) == FromBytes(ReadBytes(m, Iss.Low16(a), n))
  {
    var l := Iss.Low16(a);
    var low, rest := ReadBytes(m, l, n), ReadBytes(m, l + n, 8 - n);
    assert ReadBytes(m, l, 8) == low + rest;
    FromBytesJoin(low, rest);
    DivUnique(MemRead(m, a, 8), Pow256(n), FromBytes(rest), FromBytes(low));
  }

  function Bytes3(f3: nat): nat {
    match f3 case 0 => 1 case 1 => 2 case 2 => 4 case 4 => 1 case 5 => 2 case 6 => 4 case _ => 8
  }

  lemma SignedCast(v: nat, m: nat)
    requires m == 0x80 || m == 0x8000 || m == TWO31
    requires v < 2 * m
    ensures Iss.Cast64(Iss.Sext(v, m)) == if v >= m then v + (TWO64 - 2 * m) else v
  {
    CastWord(Iss.Sext(v, m));
  }

  /** What a load brings in. */
  lemma LoadMatches(f3: nat, m: Mem, a: nat)
    requires f3 < 7 && a < TWO64 && InImage(a, Bytes3(f3))
    ensures Iss.LoadOp(f3, m, a) == Iss.Value(LoadData(f3, MemRead(m, a, 8)))
  {
    Pow256Values();
    PortLow(m, a, Bytes3(f3));
    if f3 == 0 || f3 == 4 {
      Load8Is(m, a);
      SignedCast(Iss.Load8(m, a), 0x80);
    } else if f3 == 1 || f3 == 5 {
      Load16Is(m, a);
      SignedCast(Iss.Load16(m, a), 0x8000);
    } else if f3 == 2 || f3 == 6 {
      Load32Is(m, a);
      SignedCast(Iss.Load32(m, a), TWO31);
    } else {
      Load64Is(m, a);
    }
  }

  // ---------------------------------------------------------------- stores

  lemma {:induction false} ToBytesJoin(v: nat, n: nat, k: nat)
    ensures ToBytes(v, n + k) == ToBytes(v, n) + ToBytes(ShiftRight(v, n), k)
  {
    if n > 0 {
      ToBytesJoin(v / 256, n - 1, k);
    }
  }

  lemma LowByte(v: nat, n: nat)
    ensures (v % Pow256(n + 1)) % 256 == v % 256
    ensures (v % Pow256(n + 1)) / 256 == (v / 256) % Pow256(n)
  {
    DivStep(v, n);
    DivUnique(v % Pow256(n + 1), 256, (v / 256) % Pow256(n), v % 256);
  }

  lemma {:induction false} CutBytes(v: nat, n: nat)
    ensures ToBytes(v % Pow256(n), n) == ToBytes(v, n)
  {
    if n > 0 {
      LowByte(v, n - 1);
      CutBytes(v / 256, n - 1);
    }
  }

  lemma {:induction false} WriteJoin(m: Mem, a: nat, s: seq<byte>, t: seq<byte>)
    ensures WriteBytes(m, a, s + t) == WriteBytes(WriteBytes(m, a, s), a + |s|, t)
    decreases |t|
  {
    if t == [] {
      assert s + t == s;
    } else {
      var n := |t| - 1;
      WriteJoin(m, a, s, t[..n]);
      assert (s + t)[..|s| + n] == s + t[..n];
    }
  }

  lemma Store8Is(m: Mem, a: nat, v: nat)
    ensures Iss.Store8(m, a, v) == WriteBytes(m, Iss.Low16(a), ToBytes(v, 1))
  {
    assert ToBytes(v, 1) == [v % 256];
    assert [v % 256][..0] == [];
  }

  /** A write of two halves. */
  lemma WriteHalves(m: Mem, l: nat, v: nat, n: nat, low: nat, high: nat)
    requires low == v % Pow256(n) && high == v / Pow256(n)
    ensures WriteBytes(m, l, ToBytes(v, n + n))
         == WriteBytes(WriteBytes(m, l, ToBytes(low, n)), l + n, ToBytes(high, n))
  {
    ToBytesJoin(v, n, n);
    CutBytes(v, n);
    ShiftRightDivides(v, n);
    WriteJoin(m, l, ToBytes(v, n), ToBytes(ShiftRight(v, n), n));
  }

  lemma Store16Is(m: Mem, a: nat, v: nat)
    requires a < TWO64 && InImage(a, 2)
    ensures Iss.Store16(m, a, v) == WriteBytes(m, Iss.Low16(a), ToBytes(v, 2))
  {
    Pow256Values();
    NextAddr(a, 1);
    Store8Is(m, a, v % 0x100);
    Store8Is(Iss.Store8(m, a, v % 0x100), a + 1, v / 0x100);
    WriteHalves(m, Iss.Low16(a), v, 1, v % 0x100, v / 0x100);
  }

  lemma Store32Is(m: Mem, a: nat, v: nat)
    requires a < TWO64 && InImage(a, 4)
    ensures Iss.Store32(m, a, v) == WriteBytes(m, Iss.Low16(a), ToBytes(v, 4))
  {
    Pow256Values();
    NextAddr(a, 2);
    Store16Is(m, a, v % 0x1_0000);
    Store16Is(Iss.Store16(m, a, v % 0x1_0000), a + 2, v / 0x1_0000);
    WriteHalves(m, Iss.Low16(a), v, 2, v % 0x1_0000, v / 0x1_0000);
  }

  lemma Store64Is(m: Mem, a: nat, v: nat)
    requires a < TWO64 && InImage(a, 8)
    ensures Iss.Store64(m, a, v) == WriteBytes(m, Iss.Low16(a), ToBytes(v, 8))
  {
    Pow256Values();
    NextAddr(a, 4);
    Store32Is(m, a, v % TWO32);
    Store32Is(Iss.Store32(m, a, v % TWO32), a + 4, v / TWO32);
    WriteHalves(m, Iss.Low16(a), v, 4, v % TWO32, v / TWO32);
  }

  /** What a store leaves in memory. */
  lemma StoreMatches(f3: nat, m: Mem, a: nat, v: nat)
    requires f3 < 4 && a < TWO64 && InImage(a, NBytes(f3))
    ensures Iss.StoreOp(f3, m, a, v) == MemWrite(m, a, f3, v)
  {
    Pow256Values();
    CutBytes(v, NBytes(f3));
    if f3 == 0 { Store8Is(m, a, v); }
    else if f3 == 1 { Store16Is(m, a, v % 0x1_0000); }
    else if f3 == 2 { Store32Is(m, a, v % TWO32); }
    else { Store64Is(m, a, v); }
  }
}
