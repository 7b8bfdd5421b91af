/** Why the load search is right: what it has seen of the older stores decides
    the bytes sequential execution would read. */
module LsqSearch {
  import opened Bytes
  import opened ByteMemory
  import opened Ring
  import opened Lsq
  import opened LsqAbs

  /** The reorder-buffer index of program position `id`. */
  function RobOf(id: nat, span: nat): (r: nat)
    requires span > 0
    ensures r < span
    decreases id
  {
    if id < span then id else RobOf(id - span, span)
  }

  /** Inside one window the modular age is the distance in program order. */
  lemma {:induction false} AgeIsDistance(id: nat, base: nat, span: nat)
    requires span > 0 && base <= id < base + span
    ensures Age(RobOf(id, span), RobOf(base, span), span) == id - base
    decreases base
  {
    if base >= span {
      AgeIsDistance(id - span, base - span, span);
    } else if id >= span {
      assert RobOf(id, span) == RobOf(id - span, span) == id - span;
    }
  }

  /** The queue entry of an operation in flight. */
  predicate IsLoad(e: LqEntry, l: LoadOp, span: nat)
    requires span > 0
  {
    && e.rob == RobOf(l.id, span) && e.addrV == l.addrV && e.resolved == l.resolved && e.size < 4
    && (l.addrV ==> e.addr == l.addr && e.size == l.size && e.sgn == l.sgn)
  }

  predicate IsStore(e: SqEntry, s: StoreOp, span: nat)
    requires span > 0
  {
    && e.rob == RobOf(s.id, span) && e.addrV == s.addrV && e.size < 4
    && (s.addrV ==> e.addr == s.addr && e.size == s.size && e.data == s.data)
  }

  /** The entries are the operations, in order, all inside the window of `base`. */
  ghost predicate AreStores(es: seq<SqEntry>, ss: seq<StoreOp>, base: nat, span: nat)
    requires span > 0
  {
    && |es| == |ss| && StoresSorted(ss)
    && (forall j :: 0 <= j < |ss| ==> IsStore(es[j], ss[j], span) && ss[j].size < 4 && base <= ss[j].id < base + span)
  }

  // ---------------------------------------------------------------- bytes of one store

  lemma ReadPast(m: Mem, s: StoreOp, a: nat, n: nat)
    requires s.size < 4
    requires a + n <= s.addr || s.addr + NBytes(s.size) <= a
    ensures ReadBytes(Store(m, s), a, n) == ReadBytes(m, a, n)
  {
    forall i | 0 <= i < n
      ensures ReadBytes(Store(m, s), a, n)[i] == ReadBytes(m, a, n)[i]
    {
      GetWritten(m, s.addr, ToBytes(s.data, NBytes(s.size)), a + i);
    }
  }

  lemma ReadCovered(m: Mem, s: StoreOp, a: nat, n: nat)
    requires s.size < 4 && s.addr <= a && a + n <= s.addr + NBytes(s.size)
    ensures ReadBytes(Store(m, s), a, n) == ToBytes(ShiftRight(s.data, a - s.addr), n)
  {
    var b := ToBytes(s.data, NBytes(s.size));
    var k := a - s.addr;
    forall i | 0 <= i < n
      ensures ReadBytes(Store(m, s), a, n)[i] == b[k..k + n][i]
    {
      GetWritten(m, s.addr, b, a + i);
    }
    assert ReadBytes(Store(m, s), a, n) == b[k..k + n];
    ShiftSelects(s.data, k, n, NBytes(s.size));
  }

  // ---------------------------------------------------------------- the search

  /** What the search result says about the older stores seen so far. */
  ghost predicate SeenRight(r: Seen, l: LqEntry, older: seq<StoreOp>, base: nat, mem: Mem)
    requires l.size < 4
  {
    var n := NBytes(l.size);
    && (r.blocked <==> !AllAddr(older))
    && (r.any ==> older != [] && r.age + base <= older[|older| - 1].id)
    && (!r.blocked && !r.any ==> ReadBytes(SeqMem(mem, older), l.addr, n) == ReadBytes(mem, l.addr, n))
    && (!r.blocked && r.any && r.full ==>
          ToBytes(ShiftRight(r.from.data, Off3(l.addr, r.from.addr)), n) == ReadBytes(SeqMem(mem, older), l.addr, n))
  }

  lemma AllAddrSnoc(ss: seq<StoreOp>, s: StoreOp)
    ensures AllAddr(ss + [s]) <==> AllAddr(ss) && s.addrV
  {
    if AllAddr(ss + [s]) {
      assert (ss + [s])[|ss|].addrV;
      assert forall j :: 0 <= j < |ss| ==> ss[j] == (ss + [s])[j];
    }
  }

  lemma SeqMemSnoc(mem: Mem, ss: seq<StoreOp>, s: StoreOp)
    ensures SeqMem(mem, ss + [s]) == Store(SeqMem(mem, ss), s)
  {
    assert (ss + [s])[..|ss|] == ss;
  }

  /** One more older store. */
  lemma SeenOneMore(r: Seen, l: LqEntry, lid: nat, e: SqEntry, older: seq<StoreOp>, s: StoreOp,
                    base: nat, span: nat, mem: Mem)
    requires span > 0 && l.size < 4 && l.rob == RobOf(lid, span) && base <= lid < base + span
    requires s.size < 4 && IsStore(e, s, span) && base <= s.id < lid
    requires older != [] ==> older[|older| - 1].id < s.id
    requires SeenRight(r, l, older, base, mem)
    ensures SeenRight(Look(r, l, e, RobOf(base, span), span), l, older + [s], base, mem)
  {
    AgeIsDistance(lid, base, span);
    AgeIsDistance(s.id, base, span);
    AllAddrSnoc(older, s);
    SeqMemSnoc(mem, older, s);
    if s.addrV {
      if Overlaps(l, e) {
        if Covers(l, e) {
          ReadCovered(SeqMem(mem, older), s, l.addr, NBytes(l.size));
        }
      } else {
        ReadPast(SeqMem(mem, older), s, l.addr, NBytes(l.size));
      }
    }
  }

  /** The youngest store either joins the older ones, or leaves them as they are. */
  lemma OlderSnoc(ss: seq<StoreOp>, s: StoreOp, id: nat)
    requires StoresSorted(ss) && forall j :: 0 <= j < |ss| ==> ss[j].id < s.id
    ensures OlderThan(ss + [s], id) == if s.id < id then ss + [s] else OlderThan(ss, id)
    ensures s.id < id ==> OlderThan(ss, id) == ss
  {
    var n := OlderN(ss, id);
    if s.id < id {
      assert n == |ss|;
      OlderAll(ss + [s], id);
    } else {
      OlderPrefix(ss, [s], id);
    }
  }

  lemma {:induction false} OlderAll(ss: seq<StoreOp>, id: nat)
    requires forall j :: 0 <= j < |ss| ==> ss[j].id < id
    ensures OlderThan(ss, id) == ss
  {
    assert OlderN(ss, id) == |ss|;
  }

  lemma {:induction false} OlderPrefix(ss: seq<StoreOp>, more: seq<StoreOp>, id: nat)
    requires forall j :: 0 <= j < |more| ==> more[j].id >= id
    ensures OlderThan(ss + more, id) == OlderThan(ss, id)
  {
    if ss == [] {
      assert ss + more == more;
    } else {
      assert (ss + more)[1..] == ss[1..] + more;
      OlderPrefix(ss[1..], more, id);
    }
  }

  lemma AreStoresFront(es: seq<SqEntry>, ss: seq<StoreOp>, base: nat, span: nat)
    requires span > 0 && AreStores(es, ss, base, span) && ss != []
    ensures var n := |ss| - 1;
            && AreStores(es[..n], ss[..n], base, span) && ss == ss[..n] + [ss[n]] && es == es[..n] + [es[n]]
            && IsStore(es[n], ss[n], span) && ss[n].size < 4 && base <= ss[n].id < base + span
            && forall j :: 0 <= j < n ==> ss[..n][j].id < ss[n].id
  {
  }

  /** The search has seen exactly the older stores. */
  lemma {:induction false} SearchMeans(l: LqEntry, lid: nat, es: seq<SqEntry>, ss: seq<StoreOp>,
                                       base: nat, span: nat, mem: Mem)
    requires span > 0 && l.size < 4 && l.rob == RobOf(lid, span) && base <= lid < base + span
    requires AreStores(es, ss, base, span)
    ensures SeenRight(Search(l, es, RobOf(base, span), span), l, OlderThan(ss, lid), base, mem)
    decreases |ss|
  {
    if ss != [] {
      var n := |ss| - 1;
      AreStoresFront(es, ss, base, span);
      SearchMeans(l, lid, es[..n], ss[..n], base, span, mem);
      SearchTurn(Search(l, es[..n], RobOf(base, span), span), l, lid, es[n], ss[..n], ss[n], base, span, mem);
    }
  }

  /** One more turn of the search. */
  lemma SearchTurn(r: Seen, l: LqEntry, lid: nat, e: SqEntry, ss: seq<StoreOp>, s: StoreOp,
                   base: nat, span: nat, mem: Mem)
    requires span > 0 && l.size < 4 && l.rob == RobOf(lid, span) && base <= lid < base + span
    requires s.size < 4 && IsStore(e, s, span) && base <= s.id < base + span
    requires StoresSorted(ss) && forall j :: 0 <= j < |ss| ==> ss[j].id < s.id
    requires SeenRight(r, l, OlderThan(ss, lid), base, mem)
    ensures SeenRight(Look(r, l, e, RobOf(base, span), span), l, OlderThan(ss + [s], lid), base, mem)
  {
    OlderSnoc(ss, s, lid);
    if s.id < lid {
      SeenOneMore(r, l, lid, e, ss, s, base, span, mem);
    } else {
      YoungerIgnored(r, l, lid, e, s, base, span);
    }
  }

  lemma YoungerIgnored(r: Seen, l: LqEntry, lid: nat, e: SqEntry, s: StoreOp, base: nat, span: nat)
    requires span > 0 && l.size < 4 && l.rob == RobOf(lid, span) && base <= lid < base + span
    requires IsStore(e, s, span) && base <= s.id < base + span
    ensures s.id >= lid ==> Look(r, l, e, RobOf(base, span), span) == r
  {
    AgeIsDistance(lid, base, span);
    AgeIsDistance(s.id, base, span);
  }

  // ---------------------------------------------------------------- the answer

  /** A load that can be answered is answered with the value sequential execution
      gives it: forwarded from the youngest older overlapping store when that
      covers it, read from memory when none overlaps. */
  lemma AnswerIsSequential(l: LqEntry, lid: nat, es: seq<SqEntry>, ss: seq<StoreOp>,
                           base: nat, span: nat, mem: Mem, rdData: nat)
    requires span > 0 && l.size < 4 && l.rob == RobOf(lid, span) && base <= lid < base + span
    requires AreStores(es, ss, base, span)
    requires ToBytes(rdData, NBytes(l.size)) == ReadBytes(mem, l.addr, NBytes(l.size))
    requires Resolvable(Search(l, es, RobOf(base, span), span))
    ensures AllAddr(OlderThan(ss, lid))
    ensures var r := Search(l, es, RobOf(base, span), span);
            (if r.any then Forward(l, r.from) else Extend(rdData, l.size, l.sgn))
            == LoadValue(SeqMem(mem, OlderThan(ss, lid)), l.addr, l.size, l.sgn)
  {
    SearchMeans(l, lid, es, ss, base, span, mem);
    var r := Search(l, es, RobOf(base, span), span);
    if r.any {
      ExtendLow(ShiftRight(r.from.data, Off3(l.addr, r.from.addr)), l.size, l.sgn);
    } else {
      ExtendLow(rdData, l.size, l.sgn);
    }
  }
}
