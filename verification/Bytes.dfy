/** Little-endian byte lanes of machine words. */
module Bytes {
  import opened Arith

  type byte = x: int | 0 <= x < 256

  const TWO64: nat := 0x1_0000_0000_0000_0000

  type word = x: int | 0 <= x < TWO64

  /** 256 to the power n. */
  function Pow256(n: nat): (p: nat)
    ensures 1 <= p
  {
    if n == 0 then 1 else 256 * Pow256(n - 1)
  }

  /** The number of bytes an access of log-size `size` touches. */
  function NBytes(size: nat): (n: nat)
    requires size < 4
    ensures n == 1 || n == 2 || n == 4 || n == 8
  {
    if size == 0 then 1 else if size == 1 then 2 else if size == 2 then 4 else 8
  }

  /** The low `n` bytes of `v`, least significant first. */
  function ToBytes(v: nat, n: nat): (s: seq<byte>)
    ensures |s| == n
  {
    if n == 0 then [] else [v % 256] + ToBytes(v / 256, n - 1)
  }

  /** The number whose little-endian bytes are `s`. */
  function FromBytes(s: seq<byte>): (v: nat)
    ensures v < Pow256(|s|)
  {
    if s == [] then 0 else s[0] + 256 * FromBytes(s[1..])
  }

  /** A right shift by `k` bytes. */
  function ShiftRight(v: nat, k: nat): (r: nat) {
    if k == 0 then v else ShiftRight(v / 256, k - 1)
  }

  lemma {:induction false} ShiftRightDivides(v: nat, k: nat)
    ensures ShiftRight(v, k) == v / Pow256(k)
  {
    if k > 0 {
      ShiftRightDivides(v / 256, k - 1);
      DivStep(v, k - 1);
    }
  }

  lemma Pow256Values()
    ensures Pow256(1) == 0x100 && Pow256(2) == 0x1_0000 && Pow256(4) == 0x1_0000_0000 && Pow256(8) == TWO64
  {
    assert Pow256(2) == 256 * Pow256(1);
    assert Pow256(3) == 256 * Pow256(2);
    assert Pow256(4) == 256 * Pow256(3);
    assert Pow256(5) == 256 * Pow256(4);
    assert Pow256(6) == 256 * Pow256(5);
    assert Pow256(7) == 256 * Pow256(6);
  }

  /** Dividing by 256 first and by 256^n afterwards is one division. */
  lemma DivStep(v: nat, n: nat)
    ensures v / Pow256(n + 1) == (v / 256) / Pow256(n)
    ensures v % Pow256(n + 1) == v % 256 + 256 * ((v / 256) % Pow256(n))
  {
    var p := Pow256(n);
    var q, r := (v / 256) / p, (v / 256) % p;
    assert v / 256 == p * q + r;
    assert v == 256 * (p * q + r) + v % 256;
    assert 256 * (p * q) == (256 * p) * q;
    assert v == (256 * p) * q + (256 * r + v % 256);
    assert 256 * r + v % 256 < 256 * p;
    DivUnique(v, 256 * p, q, 256 * r + v % 256);
  }

  /** Splitting into bytes and joining again keeps exactly the low `n` bytes. */
  lemma {:induction false} RoundTrip(v: nat, n: nat)
    ensures FromBytes(ToBytes(v, n)) == v % Pow256(n)
  {
    if n == 0 {
    } else {
      RoundTrip(v / 256, n - 1);
      assert ToBytes(v, n)[1..] == ToBytes(v / 256, n - 1);
      DivStep(v, n - 1);
    }
  }

  /** A right shift by whole bytes selects a run of byte lanes. */
  lemma {:induction false} ShiftSelects(v: nat, k: nat, n: nat, total: nat)
    requires k + n <= total
    ensures ToBytes(v, total)[k..k + n] == ToBytes(ShiftRight(v, k), n)
    decreases total
  {
    if total == 0 {
    } else if k > 0 {
      ShiftSelects(v / 256, k - 1, n, total - 1);
      assert ToBytes(v, total)[k..k + n] == ToBytes(v / 256, total - 1)[k - 1..k - 1 + n];
    } else if n > 0 {
      ShiftSelects(v / 256, 0, n - 1, total - 1);
      assert ToBytes(v, total)[0..n] == [v % 256] + ToBytes(v / 256, total - 1)[0..n - 1];
    } else {
      assert ToBytes(v, total)[0..0] == [];
    }
  }

  /** The low bytes of `raw`, extended to 64 bits. */
  function Extend(raw: nat, size: nat, sgn: bool): nat
    requires size < 4
  {
    match size
    case 0 => var v := raw % 0x100; if sgn && v >= 0x80 then TWO64 - 0x100 + v else v
    case 1 => var v := raw % 0x1_0000; if sgn && v >= 0x8000 then TWO64 - 0x1_0000 + v else v
    case 2 => var v := raw % 0x1_0000_0000; if sgn && v >= 0x8000_0000 then TWO64 - 0x1_0000_0000 + v else v
    case _ => raw % 0x1_0000_0000_0000_0000
  }

  /** Extension looks at the accessed bytes only. */
  lemma ExtendLow(raw: nat, size: nat, sgn: bool)
    requires size < 4
    ensures Extend(raw, size, sgn) == Extend(FromBytes(ToBytes(raw, NBytes(size))), size, sgn)
  {
    RoundTrip(raw, NBytes(size));
    CutTwice(raw, size);
  }

  lemma CutTwice(raw: nat, size: nat)
    requires size < 4
    ensures var p := Pow256(NBytes(size)); (raw % p) % p == raw % p
    ensures Pow256(1) == 0x100 && Pow256(2) == 0x1_0000 && Pow256(4) == 0x1_0000_0000 && Pow256(8) == TWO64
  {
    Pow256Values();
  }
}
