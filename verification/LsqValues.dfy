/** What a load is worth, said of numbers: the bytes it covers, as an unsigned or
    a two's complement number. */
module LsqValues {
  import opened Arith
  import opened Bytes
  import opened ByteMemory
  import opened RiscvM
  import opened Ring
  import opened Lsq
  import opened LsqAbs
  import opened LsqSearch
  import opened LsqLive
  import opened LsqProof
  import opened LsqGolden

  /** The 64-bit word `v` agrees with `read` on the bytes of the access; unsigned it
      is no larger than they are, signed its two's complement value fits them. */
  predicate Means(v: nat, read: nat, size: nat, sgn: bool)
    requires size < 4
  {
    var m := Pow256(NBytes(size));
    v < TWO64 && v % m == read % m && if sgn then 0 <= m + 2 * Signed64(v) < 2 * m else v < m
  }

  lemma CutFits(raw: nat, m: nat)
    requires m > 0
    ensures (raw % m) % m == raw % m < m
  {
    DivUnique(raw % m, m, 0, raw % m);
  }

  /** Adding what lies above the access changes none of its bytes. */
  lemma SignFill(v: nat, m: nat, k: nat)
    requires 0 < m <= TWO64 && v < m && k * m == TWO64
    ensures (TWO64 - m + v) % m == v
  {
    assert TWO64 - m + v == m * (k - 1) + v;
    DivUnique(TWO64 - m + v, m, k - 1, v);
  }

  /** What extension computes. */
  lemma ExtendMeans(raw: nat, size: nat, sgn: bool)
    requires size < 4
    ensures Means(Extend(raw, size, sgn), raw, size, sgn)
  {
    Pow256Values();
    var m := Pow256(NBytes(size));
    CutFits(raw, m);
    if size == 0 { SignFill(raw % m, m, 0x100_0000_0000_0000); }
    else if size == 1 { SignFill(raw % m, m, 0x1_0000_0000_0000); }
    else if size == 2 { SignFill(raw % m, m, 0x1_0000_0000); }
  }

  /** A word whose two's complement value fits the access is its low bytes, filled
      with the sign. */
  lemma SignedLow(v: nat, m: nat, k: nat)
    requires 0 < m <= TWO64 && k * m == TWO64 && v < TWO64 && 0 <= m + 2 * Signed64(v) < 2 * m
    ensures v == if 2 * (v % m) >= m then TWO64 - m + v % m else v % m
  {
    if v >= TWO63 { SignFill(v - (TWO64 - m), m, k); } else { DivUnique(v, m, 0, v); }
  }

  /** No other word has that meaning. */
  lemma MeansOne(v: nat, w: nat, read: nat, size: nat, sgn: bool)
    requires size < 4 && Means(v, read, size, sgn) && Means(w, read, size, sgn)
    ensures v == w
  {
    Pow256Values();
    var m := Pow256(NBytes(size));
    var k := if size == 0 then 0x100_0000_0000_0000 else if size == 1 then 0x1_0000_0000_0000
             else if size == 2 then 0x1_0000_0000 else 1;
    if sgn {
      SignedLow(v, m, k);
      SignedLow(w, m, k);
    } else {
      DivUnique(v, m, 0, v);
      DivUnique(w, m, 0, w);
    }
  }

  /** A whole word comes back as it is. */
  lemma WholeWord(v: nat, read: nat, sgn: bool)
    requires Means(v, read, 3, sgn) && read < TWO64
    ensures v == read
  {
    Pow256Values();
    DivUnique(v, TWO64, 0, v);
    DivUnique(read, TWO64, 0, read);
  }

  lemma ReadFits(mem: Mem, a: nat, size: nat)
    requires size < 4
    ensures ReadValue(mem, a, size) < Pow256(NBytes(size)) <= TWO64
  {
    Pow256Values();
  }

  /** What executing a load on a memory means. */
  lemma LoadValueMeans(mem: Mem, a: nat, size: nat, sgn: bool)
    requires size < 4
    ensures Means(LoadValue(mem, a, size, sgn), ReadValue(mem, a, size), size, sgn)
    ensures size == 3 ==> LoadValue(mem, a, size, sgn) == ReadValue(mem, a, size)
  {
    ExtendMeans(ReadValue(mem, a, size), size, sgn);
    ReadFits(mem, a, size);
    if size == 3 { WholeWord(LoadValue(mem, a, size, sgn), ReadValue(mem, a, size), sgn); }
  }

  lemma ForwardIs(l: LqEntry, s: SqEntry)
    requires l.size < 4 && s.size < 4 && Covers(l, s)
    ensures Forward(l, s) == Extend(ShiftRight(s.data, l.addr - s.addr), l.size, l.sgn)
  {
  }

  /** What forwarding picks out of a covering store's data. */
  lemma ForwardMeans(l: LqEntry, s: SqEntry)
    requires l.size < 4 && s.size < 4 && Covers(l, s)
    ensures Means(Forward(l, s), ShiftRight(s.data, l.addr - s.addr), l.size, l.sgn)
  {
    ForwardIs(l, s);
    ExtendMeans(ShiftRight(s.data, l.addr - s.addr), l.size, l.sgn);
  }

  /** In every legal cycle the answered load gets the bytes that memory holds after
      all stores older than it; a doubleword load gets all eight of them. */
  lemma AnswerMeans(x: Sys, i: In, e: Env)
    requires Inv(x) && EnvOk(x, i, e) && Found(x.q, i.robHead, 0) < x.q.lqCnt
    ensures var p, l := LoadOut(x.q, i.robHead, e.rdData), x.a.loads[Found(x.q, i.robHead, 0)];
            var read := ReadValue(SeqMem(x.a.mem, OlderThan(x.a.stores, l.id)), l.addr, l.size);
            p.valid && l.size < 4 && Means(p.data, read, l.size, l.sgn) && (l.size == 3 ==> p.data == read)
  {
    var f := Found(x.q, i.robHead, 0);
    AnswerIs(x, i, e);
    var l := x.a.loads[f];
    LoadValueMeans(SeqMem(x.a.mem, OlderThan(x.a.stores, l.id)), l.addr, l.size, l.sgn);
  }

  lemma AnswerIs(x: Sys, i: In, e: Env)
    requires Inv(x) && EnvOk(x, i, e) && Found(x.q, i.robHead, 0) < x.q.lqCnt
    ensures var p, l := LoadOut(x.q, i.robHead, e.rdData), x.a.loads[Found(x.q, i.robHead, 0)];
            && p.valid && l.size < 4
            && p.data == LoadValue(SeqMem(x.a.mem, OlderThan(x.a.stores, l.id)), l.addr, l.size, l.sgn)
  {
    var f := Found(x.q, i.robHead, 0);
    var el, l := x.q.Loads()[f], x.a.loads[f];
    assert IsLoad(el, l, x.q.span) && CanAnswer(x.q, i.robHead, f);
    StoresMatch(x, i, e);
    AnswerIsSequential(el, l.id, x.q.Stores(), x.a.stores, e.base, x.q.span, x.a.mem, e.rdData);
  }

  /** The store is older than the load, by age from the head, and overlaps it. */
  predicate Feeds(l: LqEntry, s: SqEntry, head: nat, span: nat)
    requires l.size < 4 && s.size < 4 && l.rob < span && s.rob < span && head < span
  {
    Age(s.rob, head, span) < Age(l.rob, head, span) && Overlaps(l, s)
  }

  /** What the model finds: the youngest older store that overlaps the load, if
      there is one, and whether it covers it. */
  lemma {:induction false} GoldFinds(l: LqEntry, ss: seq<SqEntry>, head: nat, span: nat) returns (j: nat)
    requires l.size < 4 && l.rob < span && head < span
    requires forall k :: 0 <= k < |ss| ==> ss[k].size < 4 && ss[k].rob < span
    ensures var r := GoldSearch(l, ss, head, span);
            && (!r.any ==> forall k :: 0 <= k < |ss| ==> !Feeds(l, ss[k], head, span))
            && (r.any ==>
                  && j < |ss| && Feeds(l, ss[j], head, span) && r.age == Age(ss[j].rob, head, span)
                  && (r.full <==> Covers(l, ss[j])) && (r.full ==> r.from == ss[j])
                  && forall k :: 0 <= k < |ss| && Feeds(l, ss[k], head, span) ==> Age(ss[k].rob, head, span) <= r.age)
    decreases |ss|
  {
    j := 0;
    if ss != [] {
      var n := |ss| - 1;
      j := GoldFinds(l, ss[..n], head, span);
      var before := GoldSearch(l, ss[..n], head, span);
      assert forall k :: 0 <= k < n ==> ss[..n][k] == ss[k];
      if Feeds(l, ss[n], head, span) && (!before.any || Age(ss[n].rob, head, span) > before.age) { j := n; }
    }
  }

  /** What the golden model expects: the bytes of the covering store it forwards
      from, or those of memory. */
  lemma ExpectedMeans(l: LqEntry, ss: seq<SqEntry>, head: nat, span: nat, mem: Mem)
    requires l.size < 4 && l.rob < span && head < span
    requires forall j :: 0 <= j < |ss| ==> ss[j].size < 4 && ss[j].rob < span
    ensures var r, v := GoldSearch(l, ss, head, span), Expected(l, ss, head, span, mem);
            if r.any && r.full
            then r.from.addr <= l.addr && Means(v, ShiftRight(r.from.data, l.addr - r.from.addr), l.size, l.sgn)
            else Means(v, ReadValue(mem, l.addr, l.size), l.size, l.sgn)
  {
    var j := GoldFinds(l, ss, head, span);
    var r := GoldSearch(l, ss, head, span);
    if r.any && r.full { ForwardMeans(l, r.from); } else { LoadValueMeans(mem, l.addr, l.size, l.sgn); }
  }

  /** In every run from empty queues each retired load has the bytes that memory,
      after the retired stores before it, holds at its address; and a doubleword
      load has all eight of them. */
  lemma LoadsReadBytes(x: Sys, ins: seq<(In, Env)>, k: nat)
    requires Empty(x) && LegalRun(x, ins) && k < |Run(x, ins).a.history| && Run(x, ins).a.history[k].LoadDone?
    ensures var y := Run(x, ins).a;
            var l, mem := y.history[k], Replay(y.m0, y.history[..k]);
            && l.size < 4 && Means(l.value, ReadValue(mem, l.addr, l.size), l.size, l.sgn)
            && (l.size == 3 ==> l.value == ReadValue(mem, l.addr, 3))
  {
    LoadsSeeSequentialMemory(x, ins);
    var y := Run(x, ins).a;
    var l := y.history[k];
    LoadValueMeans(Replay(y.m0, y.history[..k]), l.addr, l.size, l.sgn);
  }

  // ---------------------------------------------------------------- the read port

  predicate InLoad(l: LoadOp, b: nat)
    requires l.size < 4
  {
    l.addr <= b < l.addr + NBytes(l.size)
  }

  predicate InStore(s: StoreOp, b: nat)
    requires s.size < 4
  {
    s.addr <= b < s.addr + NBytes(s.size)
  }

  /** Overlapping is sharing a byte; covering is having every byte of the load. */
  lemma OverlapMeans(l: LoadOp, s: StoreOp)
    requires l.size < 4 && s.size < 4
    ensures OpOverlaps(l, s) <==> exists b: nat :: InLoad(l, b) && InStore(s, b)
    ensures OpCovers(l, s) <==> forall b: nat :: InLoad(l, b) ==> InStore(s, b)
  {
    if OpOverlaps(l, s) {
      var b := if l.addr >= s.addr then l.addr else s.addr;
      assert InLoad(l, b) && InStore(s, b);
    }
    if forall b: nat :: InLoad(l, b) ==> InStore(s, b) {
      assert InLoad(l, l.addr) && InLoad(l, l.addr + NBytes(l.size) - 1);
    }
  }

  lemma SearchAny(x: Sys, i: In, e: Env, k: nat)
    requires Inv(x) && EnvOk(x, i, e) && k < x.q.lqCnt && CanAnswer(x.q, i.robHead, k)
    ensures var l, ss := x.a.loads[k], OlderThan(x.a.stores, x.a.loads[k].id);
            && l.size < 4 && Sized(ss) && IsLoad(x.q.Loads()[k], l, x.q.span) && l.addrV
            && (Search(x.q.Loads()[k], x.q.Stores(), i.robHead, x.q.span).any <==> SomeOverlap(l, ss))
  {
    var el, l := x.q.Loads()[k], x.a.loads[k];
    assert IsLoad(el, l, x.q.span) && LoadOk(l, x.a.stores, x.a.mem);
    StoresMatch(x, i, e);
    SearchDecides(el, l, x.q.Stores(), x.a.stores, e.base, x.q.span);
  }

  /** The answered load is named, and data memory is asked for its access, exactly
      when no older store in the queue shares a byte with it. */
  lemma MemoryAsked(x: Sys, i: In, e: Env)
    requires Inv(x) && EnvOk(x, i, e)
    ensures var p, f := LoadOut(x.q, i.robHead, e.rdData), Found(x.q, i.robHead, 0);
            && (f == x.q.lqCnt ==> p == LoadPort(false, 0, 0, 0, false, 0, 0))
            && (f < x.q.lqCnt ==>
                  var l, ss := x.a.loads[f], OlderThan(x.a.stores, x.a.loads[f].id);
                  && l.size < 4 && Sized(ss) && p.valid && p.rob == RobOf(l.id, x.q.span)
                  && p.rdAddr == l.addr && p.rdSize == l.size && (p.rdValid <==> !SomeOverlap(l, ss)))
  {
    var f := Found(x.q, i.robHead, 0);
    if f < x.q.lqCnt { SearchAny(x, i, e, f); }
  }
}
