/** Sparse byte-addressable memory (sim/cache/l1d/cache_model.h): a byte that
    was never written reads as zero. */
module ByteMemory {
  import opened Bytes

  const LINE: nat := 64

  type Mem = map<nat, byte>

  function Get(m: Mem, a: nat): byte {
    if a in m then m[a] else 0
  }

  function ReadBytes(m: Mem, a: nat, n: nat): (s: seq<byte>)
    ensures |s| == n
    ensures forall i :: 0 <= i < n ==> s[i] == Get(m, a + i)
  {
    seq<byte>(n, i requires 0 <= i < n => Get(m, a + i))
  }

  function WriteBytes(m: Mem, a: nat, s: seq<byte>): (r: Mem) {
    if s == [] then m else WriteBytes(m, a, s[..|s| - 1])[a + |s| - 1 := s[|s| - 1]]
  }

  lemma {:induction false} GetWritten(m: Mem, a: nat, s: seq<byte>, k: nat)
    ensures Get(WriteBytes(m, a, s), k) == if a <= k < a + |s| then s[k - a] else Get(m, k)
  {
    if s != [] {
      GetWritten(m, a, s[..|s| - 1], k);
    }
  }

  lemma WriteOneMore(m: Mem, a: nat, s: seq<byte>, i: nat)
    requires i < |s|
    ensures WriteBytes(m, a, s[..i + 1]) == WriteBytes(m, a, s[..i])[a + i := s[i]]
  {
    assert s[..i + 1][..i] == s[..i];
  }

  /** The two memories hold the same byte at every address. */
  ghost predicate Same(m: Mem, m': Mem) {
    forall a: nat :: Get(m, a) == Get(m', a)
  }

  /** The little-endian value of the access `[a, a + 2^size)`. */
  function ReadValue(m: Mem, a: nat, size: nat): nat
    requires size < 4
  {
    FromBytes(ReadBytes(m, a, NBytes(size)))
  }

  function WriteValue(m: Mem, a: nat, size: nat, v: nat): Mem
    requires size < 4
  {
    WriteBytes(m, a, ToBytes(v, NBytes(size)))
  }

  function ReadLine(m: Mem, line: nat): (s: seq<byte>)
    ensures |s| == LINE
  {
    ReadBytes(m, LINE * line, LINE)
  }

  function WriteLine(m: Mem, line: nat, s: seq<byte>): Mem
    requires |s| == LINE
  {
    WriteBytes(m, LINE * line, s)
  }

  lemma WriteThenReadLine(m: Mem, line: nat, s: seq<byte>, other: nat)
    requires |s| == LINE
    ensures ReadLine(WriteLine(m, line, s), other) == if other == line then s else ReadLine(m, other)
  {
    forall i | 0 <= i < LINE
      ensures ReadLine(WriteLine(m, line, s), other)[i] == if other == line then s[i] else ReadLine(m, other)[i]
    {
      GetWritten(m, LINE * line, s, LINE * other + i);
    }
  }

  /** Memories that agree on every line agree on every byte. */
  lemma SameByLines(m: Mem, m': Mem)
    requires forall l: nat :: ReadLine(m, l) == ReadLine(m', l)
    ensures Same(m, m')
  {
    forall a: nat
      ensures Get(m, a) == Get(m', a)
    {
      var l, i := a / LINE, a % LINE;
      assert a == LINE * l + i;
      assert ReadLine(m, l)[i] == ReadLine(m', l)[i];
    }
  }

  /** What a load reads back after a store of the same access. */
  lemma ReadBack(m: Mem, a: nat, size: nat, v: nat)
    requires size < 4
    ensures ReadValue(WriteValue(m, a, size, v), a, size) == v % Pow256(NBytes(size))
  {
    var n := NBytes(size);
    forall i | 0 <= i < n
      ensures ReadBytes(WriteValue(m, a, size, v), a, n)[i] == ToBytes(v, n)[i]
    {
      GetWritten(m, a, ToBytes(v, n), a + i);
    }
    assert ReadBytes(WriteValue(m, a, size, v), a, n) == ToBytes(v, n);
    RoundTrip(v, n);
  }

  /** The memory object of the harness: one map, updated in place byte by byte. */
  class ByteMem {
    var bytes: Mem

    constructor ()
      ensures bytes == map[]
    {
      bytes := map[];
    }

    method Set(addr: nat, v: byte)
      modifies this
      ensures bytes == old(bytes)[addr := v]
    {
      bytes := bytes[addr := v];
    }

    method Read(addr: nat, sizeLog2: nat) returns (v: nat)
      requires sizeLog2 < 4
      ensures v == ReadValue(bytes, addr, sizeLog2)
    {
      v := 0;
      var n := NBytes(sizeLog2);
      var i := n;
      ghost var all := ReadBytes(bytes, addr, n);
      while i > 0
        invariant 0 <= i <= n
        invariant v == FromBytes(all[i..])
      {
        i := i - 1;
        v := v * 256 + Get(bytes, addr + i);
        assert all[i..][1..] == all[i + 1..];
      }
      assert all[0..] == all;
    }

    method Write(addr: nat, sizeLog2: nat, value: nat)
      requires sizeLog2 < 4
      modifies this
      ensures bytes == WriteValue(old(bytes), addr, sizeLog2, value)
    {
      var n := NBytes(sizeLog2);
      var v := value;
      ghost var all := ToBytes(value, n);
      assert WriteBytes(bytes, addr, all[..0]) == bytes;
      for i := 0 to n
        invariant ToBytes(v, n - i) == all[i..]
        invariant bytes == WriteBytes(old(bytes), addr, all[..i])
      {
        assert all[i..][0] == v % 256;
        Set(addr + i, v % 256);
        assert all[i..][1..] == all[i + 1..];
        v := v / 256;
        WriteOneMore(old(bytes), addr, all, i);
      }
      assert all[..n] == all;
    }

    method ReadLineBytes(line: nat) returns (s: seq<byte>)
      ensures s == ReadLine(bytes, line)
    {
      s := [];
      for i := 0 to LINE
        invariant s == ReadLine(bytes, line)[..i]
      {
        s := s + [Get(bytes, LINE * line + i)];
      }
    }

    method WriteLineBytes(line: nat, s: seq<byte>)
      requires |s| == LINE
      modifies this
      ensures bytes == WriteLine(old(bytes), line, s)
    {
      assert WriteBytes(bytes, LINE * line, s[..0]) == bytes;
      for i := 0 to LINE
        invariant bytes == WriteBytes(old(bytes), LINE * line, s[..i])
      {
        Set(LINE * line + i, s[i]);
        WriteOneMore(old(bytes), LINE * line, s, i);
      }
      assert s[..LINE] == s;
    }
  }
}
