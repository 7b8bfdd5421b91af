/** The things that happen in one cache cycle, one at a time, and what each of
    them keeps. */
module L1dSteps {
  import opened Bytes
  import opened ByteMemory
  import opened Mshrs
  import opened L1d
  import opened L1dInv
  import opened Ring

  /** The invariant apart from the flush walk. */
  ghost predicate Core(x: Sys) {
    && Shape(x.c) && Structure(x.c) && PortOk(x.c.m, x.pend) && |x.pendData| == LINE
    && DataOk(x) && LedgerOk(x)
  }

  // ---------------------------------------------------------------- answering

  function AfterPop(x: Sys): Sys
    requires Shape(x.c)
  {
    x.(c := x.c.(f := Pop(x.c.f)), delivered := x.delivered + if x.c.f.respValid then [x.c.f.resp] else [])
  }

  lemma BagFront(r: Resp, s: seq<Resp>)
    ensures multiset([r] + s) == multiset(s) + multiset{r}
  {
  }

  lemma PopQueued(f: Fifo)
    requires |f.buf| == FIFO_DEPTH && f.head < FIFO_DEPTH && 0 < f.cnt <= FIFO_DEPTH
    ensures Pop(f).head == Wrap(f.head + 1, FIFO_DEPTH)
    ensures multiset(Window(f.buf, f.head, f.cnt))
         == multiset(Window(f.buf, Pop(f).head, f.cnt - 1)) + multiset{f.buf[f.head]}
  {
    WindowPop(f.buf, f.head, f.cnt);
    BagFront(f.buf[f.head], Window(f.buf, Inc5(f.head), f.cnt - 1));
  }

  lemma PopMoves(f: Fifo)
    requires |f.buf| == FIFO_DEPTH && f.head < FIFO_DEPTH && f.cnt <= FIFO_DEPTH && FifoOk(f)
    ensures FifoOk(Pop(f))
    ensures Queued(f) == Queued(Pop(f)) + (if f.respValid then multiset{f.resp} else multiset{})
  {
    if f.cnt > 0 { PopQueued(f); }
  }

  lemma PopKeeps(x: Sys)
    requires Core(x)
    ensures Core(AfterPop(x))
  {
    PopLedger(x);
    SameData(x, AfterPop(x));
  }

  lemma PopLedger(x: Sys)
    requires Shape(x.c) && LedgerOk(x)
    ensures LedgerOk(AfterPop(x))
  {
    var y := AfterPop(x);
    var out: seq<Resp> := if x.c.f.respValid then [x.c.f.resp] else [];
    PopMoves(x.c.f);
    assert multiset(x.delivered + out) == multiset(x.delivered) + multiset(out);
    BagMove(multiset(x.delivered), multiset(out), Queued(y.c.f), Promises(x.c.m.ent, x.flat));
  }

  lemma BagMove<T>(d: multiset<T>, o: multiset<T>, q: multiset<T>, p: multiset<T>)
    ensures d + ((q + o) + p) == (d + o) + (q + p)
  {
  }

  /** Data facts speak of slots, entries and the two memories only. */
  lemma SameData(x: Sys, y: Sys)
    requires Shape(x.c) && Shape(y.c) && DataOk(x)
    requires y.c.slots == x.c.slots && y.c.m == x.c.m && y.mem == x.mem && y.flat == x.flat && y.pendData == x.pendData
    ensures DataOk(y)
  {
    forall s, w | 0 <= s < SETS && 0 <= w < 2
      ensures SlotData(y, s, w)
    {
      assert SlotData(x, s, w);
    }
    forall i | 0 <= i < |y.c.m.ent|
      ensures EntryData(y, y.c.m.ent[i])
    {
      assert EntryData(x, x.c.m.ent[i]);
    }
    forall tag: nat, s | 0 <= s < SETS
      ensures LineOk(y, tag, s)
    {
      assert LineOk(x, tag, s);
    }
  }

  // ---------------------------------------------------------------- promises

  lemma UpdateFront(ent: seq<Entry>, i: nat, e: Entry)
    requires i < |ent|
    ensures var n := |ent| - 1;
            && ent[i := e][..n] == (if i == n then ent[..n] else ent[..n][i := e])
            && ent[i := e][n] == if i == n then e else ent[n]
  {
  }

  lemma {:induction false} PromisesUpdate(ent: seq<Entry>, flat: Mem, i: nat, e: Entry)
    requires i < |ent| && EntryShape(e) && AllShaped(ent)
    ensures AllShaped(ent[i := e])
    ensures Promises(ent[i := e], flat) + Promise(ent[i], flat) == Promises(ent, flat) + Promise(e, flat)
  {
    var n := |ent| - 1;
    ShapedFront(ent);
    ShapedUpdate(ent, i, e);
    UpdateFront(ent, i, e);
    if i == n {
      BagSwap(Promises(ent[..n], flat), Promise(e, flat), Promise(ent[n], flat));
    } else {
      PromisesUpdate(ent[..n], flat, i, e);
      BagCarry(Promises(ent[..n][i := e], flat), Promise(ent[i], flat), Promises(ent[..n], flat), Promise(e, flat),
               Promise(ent[n], flat));
    }
  }

  lemma ShapedFront(ent: seq<Entry>)
    requires AllShaped(ent) && ent != []
    ensures AllShaped(ent[..|ent| - 1]) && EntryShape(ent[|ent| - 1])
  {
  }

  lemma ShapedUpdate(ent: seq<Entry>, i: nat, e: Entry)
    requires AllShaped(ent) && i < |ent| && EntryShape(e)
    ensures AllShaped(ent[i := e])
  {
  }

  lemma BagSwap<T>(a: multiset<T>, b: multiset<T>, c: multiset<T>)
    ensures a + b + c == a + c + b
  {
  }

  lemma BagCarry<T>(a: multiset<T>, b: multiset<T>, c: multiset<T>, d: multiset<T>, e: multiset<T>)
    requires a + b == c + d
    ensures (a + e) + b == (c + e) + d
  {
    BagSwap(a, b, e);
    BagSwap(c, d, e);
  }

  /** A store to a line that no entry fetches breaks no promise. */
  lemma {:induction false} PromisesSame(ent: seq<Entry>, flat: Mem, flat': Mem)
    requires AllShaped(ent)
    requires forall k :: 0 <= k < |ent| && ent[k].Busy() ==>
      ReadLine(flat', ent[k].addr.Line()) == ReadLine(flat, ent[k].addr.Line())
    ensures Promises(ent, flat') == Promises(ent, flat)
  {
    if ent != [] {
      var n := |ent| - 1;
      assert forall k :: 0 <= k < n ==> ent[..n][k] == ent[k];
      PromisesSame(ent[..n], flat, flat');
      assert ent[n].Busy() ==> Promise(ent[n], flat') == Promise(ent[n], flat);
    }
  }

  lemma PushAdds(f: Fifo, r: Resp)
    requires |f.buf| == FIFO_DEPTH && f.head < FIFO_DEPTH && f.cnt < FIFO_DEPTH && FifoOk(f)
    ensures FifoOk(Push(f, r))
    ensures Queued(Push(f, r)) == Queued(f) + multiset{r}
  {
    WindowPush(f.buf, f.head, f.cnt, r);
    assert multiset(Window(f.buf, f.head, f.cnt) + [r]) == multiset(Window(f.buf, f.head, f.cnt)) + multiset{r};
  }

  // ---------------------------------------------------------------- requests

  /** What a request must be answered with: the flat memory's content when it is
      accepted, or its own data for a store. */
  function Expected(x: Sys, i: In): Resp
    requires i.Ok()
  {
    Resp(i.tag, if i.we then i.wdata else ReadValue(x.flat, i.addr.Byte(), i.size))
  }

  function FlatAfter(x: Sys, i: In): Mem
    requires i.Ok()
  {
    if i.we then WriteValue(x.flat, i.addr.Byte(), i.size, i.wdata) else x.flat
  }

  /** A hit in way `w`. */
  function AfterHit(x: Sys, i: In, w: nat): Sys
    requires Shape(x.c) && i.Ok() && w < 2
  {
    var s := At(x.c.slots, i.addr.idx, w);
    var s' := if i.we then s.(data := Merge(s.data, i.addr.off, i.size, i.wdata), dirty := true) else s;
    var d := if i.we then i.wdata else Extract(s.data, i.addr.off, i.size);
    x.(c := x.c.(slots := Put(x.c.slots, i.addr.idx, w, s'), plru := x.c.plru[i.addr.idx := w],
                 f := Push(x.c.f, Resp(i.tag, d))),
       flat := FlatAfter(x, i), accepted := x.accepted + [Expected(x, i)])
  }

  lemma HitShape(x: Sys, i: In, w: nat)
    requires Shape(x.c) && i.Ok() && w < 2 && x.c.f.cnt < FIFO_DEPTH
    ensures Shape(AfterHit(x, i, w).c)
  {
    var y := AfterHit(x, i, w);
    forall s, v | 0 <= s < SETS && 0 <= v < 2
      ensures |At(y.c.slots, s, v).data| == LINE
    {
      AtPut(x.c.slots, i.addr.idx, w, At(y.c.slots, i.addr.idx, w), s, v);
    }
  }

  lemma HitStructure(x: Sys, i: In, w: nat)
    requires Shape(x.c) && Structure(x.c) && i.Ok() && w < 2 && x.c.f.cnt < FIFO_DEPTH
    requires HitWay(x.c.slots, i.addr, w) && Shape(AfterHit(x, i, w).c)
    ensures Structure(AfterHit(x, i, w).c)
  {
    var y := AfterHit(x, i, w);
    forall s | 0 <= s < SETS
      ensures SetOk(y.c.slots, s)
    {
      assert SetOk(x.c.slots, s);
    }
    forall k | 0 <= k < |y.c.m.ent|
      ensures EntrySlots(y.c.slots, y.c.m.ent[k]) && EntryOwn(y.c.m.ent[k])
    {
      var e := x.c.m.ent[k];
      assert EntrySlots(x.c.slots, e) && EntryOwn(e);
      var s' := At(y.c.slots, i.addr.idx, w);
      AtPut(x.c.slots, i.addr.idx, w, s', e.addr.idx, 0);
      AtPut(x.c.slots, i.addr.idx, w, s', e.addr.idx, 1);
    }
  }

  /** The line of a store, seen in the flat memory. */
  lemma FlatLine(x: Sys, i: In, line: nat)
    requires i.Ok()
    ensures ReadLine(FlatAfter(x, i), line)
         == if i.we && line == i.addr.Line() then Merge(ReadLine(x.flat, line), i.addr.off, i.size, i.wdata)
            else ReadLine(x.flat, line)
  {
    StoreInLine(x.flat, i.addr, i.size, i.wdata, line);
  }

  /** The way that hits, after the hit. */
  lemma HitSlotSame(x: Sys, i: In, w: nat)
    requires Shape(x.c) && i.Ok() && w < 2 && HitWay(x.c.slots, i.addr, w) && SlotData(x, i.addr.idx, w)
    requires Shape(AfterHit(x, i, w).c)
    ensures SlotData(AfterHit(x, i, w), i.addr.idx, w)
  {
    FlatLine(x, i, i.addr.Line());
  }

  /** A slot of a line that the request does not touch holds what it held. */
  lemma OtherSlotData(x: Sys, i: In, t: Slot, s: nat)
    requires i.Ok() && s < SETS && t.valid && !(t.tag == i.addr.tag && s == i.addr.idx)
    requires t.data == ReadLine(x.flat, LineNo(t.tag, s))
    ensures t.data == ReadLine(FlatAfter(x, i), LineNo(t.tag, s))
  {
    FlatLine(x, i, LineNo(t.tag, s));
    LineNoInjective(t.tag, s, i.addr.tag, i.addr.idx);
  }

  lemma HitSlotOther(x: Sys, i: In, w: nat, s: nat, v: nat)
    requires Shape(x.c) && i.Ok() && w < 2 && HitWay(x.c.slots, i.addr, w) && Shape(AfterHit(x, i, w).c)
    requires s < SETS && v < 2 && SetOk(x.c.slots, s) && SlotData(x, s, v) && (s != i.addr.idx || v != w)
    ensures SlotData(AfterHit(x, i, w), s, v)
  {
    var t := At(x.c.slots, s, v);
    AtPut(x.c.slots, i.addr.idx, w, At(AfterHit(x, i, w).c.slots, i.addr.idx, w), s, v);
    if t.valid {
      assert s == i.addr.idx ==> t.tag != i.addr.tag;
      OtherSlotData(x, i, t, s);
    }
  }

  lemma HitSlotData(x: Sys, i: In, w: nat, s: nat, v: nat)
    requires Shape(x.c) && Structure(x.c) && DataOk(x) && i.Ok() && w < 2 && x.c.f.cnt < FIFO_DEPTH
    requires HitWay(x.c.slots, i.addr, w) && Shape(AfterHit(x, i, w).c) && s < SETS && v < 2
    ensures SlotData(AfterHit(x, i, w), s, v)
  {
    assert SlotData(x, s, v) && SetOk(x.c.slots, s);
    if s == i.addr.idx && v == w {
      HitSlotSame(x, i, w);
    } else {
      HitSlotOther(x, i, w, s, v);
    }
  }

  /** The line that hits is neither fetched nor evicted by an entry in flight. */
  lemma HitElsewhere(x: Sys, i: In, w: nat, e: Entry)
    requires Shape(x.c) && i.Ok() && w < 2 && HitWay(x.c.slots, i.addr, w)
    requires EntryShape(e) && EntrySlots(x.c.slots, e) && EntryOwn(e) && e.Busy()
    ensures e.addr.Line() != i.addr.Line() && (e.vdirty ==> e.vaddr.Line() != i.addr.Line())
  {
    LineNoInjective(e.addr.tag, e.addr.idx, i.addr.tag, i.addr.idx);
    LineNoInjective(e.vaddr.tag, e.vaddr.idx, i.addr.tag, i.addr.idx);
  }

  lemma HitEntryData(x: Sys, i: In, w: nat, e: Entry)
    requires Shape(x.c) && i.Ok() && w < 2 && x.c.f.cnt < FIFO_DEPTH
    requires HitWay(x.c.slots, i.addr, w)
    requires EntryShape(e) && EntrySlots(x.c.slots, e) && EntryOwn(e) && EntryData(x, e)
    ensures EntryData(AfterHit(x, i, w), e)
    ensures e.Busy() ==> ReadLine(FlatAfter(x, i), e.addr.Line()) == ReadLine(x.flat, e.addr.Line())
  {
    if e.Busy() {
      HitElsewhere(x, i, w, e);
      FlatLine(x, i, e.addr.Line());
      FlatLine(x, i, e.vaddr.Line());
    }
  }

  lemma HitLineOk(x: Sys, i: In, w: nat, tag: nat, s: nat)
    requires Shape(x.c) && i.Ok() && w < 2 && x.c.f.cnt < FIFO_DEPTH
    requires HitWay(x.c.slots, i.addr, w) && Shape(AfterHit(x, i, w).c)
    requires s < SETS && LineOk(x, tag, s)
    ensures LineOk(AfterHit(x, i, w), tag, s)
  {
    var y := AfterHit(x, i, w);
    FlatLine(x, i, LineNo(tag, s));
    LineNoInjective(tag, s, i.addr.tag, i.addr.idx);
    AtPut(x.c.slots, i.addr.idx, w, At(y.c.slots, i.addr.idx, w), s, 0);
    AtPut(x.c.slots, i.addr.idx, w, At(y.c.slots, i.addr.idx, w), s, 1);
    if Covered(x.c, tag, s) {
      if !DirtyIn(x.c.slots, tag, s) {
        var k :| 0 <= k < |x.c.m.ent| && Owes(x.c.m.ent[k], tag, s);
        assert Owes(y.c.m.ent[k], tag, s);
      }
    }
  }

  /** A hit changes nothing that an entry in flight has promised. */
  lemma HitPromises(x: Sys, i: In, w: nat)
    requires Core(x) && i.Ok() && w < 2 && x.c.f.cnt < FIFO_DEPTH && HitWay(x.c.slots, i.addr, w)
    ensures Promises(x.c.m.ent, FlatAfter(x, i)) == Promises(x.c.m.ent, x.flat)
  {
    forall k | 0 <= k < |x.c.m.ent| && x.c.m.ent[k].Busy()
      ensures ReadLine(FlatAfter(x, i), x.c.m.ent[k].addr.Line()) == ReadLine(x.flat, x.c.m.ent[k].addr.Line())
    {
      HitEntryData(x, i, w, x.c.m.ent[k]);
    }
    PromisesSame(x.c.m.ent, x.flat, FlatAfter(x, i));
  }

  /** What a hit queues is what flat memory answers. */
  lemma HitExpected(x: Sys, i: In, w: nat)
    requires Shape(x.c) && i.Ok() && w < 2 && HitWay(x.c.slots, i.addr, w) && SlotData(x, i.addr.idx, w)
    ensures Expected(x, i).data
         == if i.we then i.wdata else Extract(At(x.c.slots, i.addr.idx, w).data, i.addr.off, i.size)
  {
    ReadInLine(x.flat, i.addr, i.size);
  }

  lemma HitLedger(x: Sys, i: In, w: nat)
    requires Core(x) && i.Ok() && w < 2 && x.c.f.cnt < FIFO_DEPTH
    requires HitWay(x.c.slots, i.addr, w) && Shape(AfterHit(x, i, w).c)
    ensures LedgerOk(AfterHit(x, i, w))
  {
    assert SlotData(x, i.addr.idx, w);
    HitExpected(x, i, w);
    PushAdds(x.c.f, Expected(x, i));
    HitPromises(x, i, w);
    LedgerAdds(x, AfterHit(x, i, w), Expected(x, i));
  }

  /** Accepting a request and queueing or promising its answer balances. */
  lemma LedgerAdds(x: Sys, y: Sys, r: Resp)
    requires Shape(x.c) && Shape(y.c) && LedgerOk(x) && FifoOk(y.c.f)
    requires Answers(y.c, y.flat) == Answers(x.c, x.flat) + multiset{r}
    requires y.accepted == x.accepted + [r] && y.delivered == x.delivered
    ensures LedgerOk(y)
  {
    assert multiset(x.accepted + [r]) == multiset(x.accepted) + multiset{r};
  }

  lemma HitKeeps(x: Sys, i: In, w: nat)
    requires Core(x) && i.Ok() && w < 2 && x.c.f.cnt < FIFO_DEPTH && HitWay(x.c.slots, i.addr, w)
    ensures Core(AfterHit(x, i, w))
  {
    var y := AfterHit(x, i, w);
    HitShape(x, i, w);
    HitStructure(x, i, w);
    HitLedger(x, i, w);
    forall s, v | 0 <= s < SETS && 0 <= v < 2
      ensures SlotData(y, s, v)
    {
      HitSlotData(x, i, w, s, v);
    }
    forall k | 0 <= k < |y.c.m.ent|
      ensures EntryData(y, y.c.m.ent[k])
    {
      HitEntryData(x, i, w, x.c.m.ent[k]);
    }
    forall tag: nat, s | 0 <= s < SETS
      ensures LineOk(y, tag, s)
    {
      HitLineOk(x, i, w, tag, s);
    }
  }

  // ---------------------------------------------------------------- misses

  /** A miss that takes way `w` and entry `k`. */
  function MissedEntry(x: Sys, i: In, w: nat, k: nat): (e: Entry)
    requires Shape(x.c) && i.Ok() && w < 2 && k < |x.c.m.ent|
    ensures EntryShape(e)
  {
    var v := At(x.c.slots, i.addr.idx, w);
    NewEntry(i.addr, i.tag, i.we, i.size, i.wdata, w, v.valid && v.dirty, Addr(v.tag, i.addr.idx, 0), v.data,
             x.c.m.ent[k].fill)
  }

  function AfterMiss(x: Sys, i: In, w: nat, k: nat): Sys
    requires Shape(x.c) && i.Ok() && w < 2 && k < |x.c.m.ent|
  {
    x.(c := x.c.(slots := Put(x.c.slots, i.addr.idx, w, At(x.c.slots, i.addr.idx, w).(valid := false)),
                 m := Alloc(x.c.m, k, MissedEntry(x, i, w, k))),
       flat := FlatAfter(x, i), accepted := x.accepted + [Expected(x, i)])
  }

  /** The line is nowhere in the cache or in flight, the way is not promised,
      the entry is free. */
  predicate MissOk(c: Cache, i: In, w: nat, k: nat)
    requires Shape(c) && i.Ok()
  {
    && w < 2 && k < |c.m.ent| && c.m.ent[k].st.Idle?
    && !IsHit(c.slots, i.addr) && !Pending(c.m.ent, i.addr) && !WayBusy(c.m.ent, i.addr.idx, w)
  }

  lemma NotPendingMeans(ent: seq<Entry>, a: Addr, j: nat)
    requires !Pending(ent, a) && j < |ent|
    ensures !Claims(ent[j], a)
  {
  }

  lemma NotBusyMeans(ent: seq<Entry>, idx: nat, way: nat, j: nat)
    requires !WayBusy(ent, idx, way) && j < |ent|
    ensures !Holds(ent[j], idx, way)
  {
  }

  lemma MissSlots(x: Sys, i: In, w: nat, k: nat, s: nat, v: nat)
    requires Shape(x.c) && i.Ok() && MissOk(x.c, i, w, k) && s < SETS && v < 2
    ensures At(AfterMiss(x, i, w, k).c.slots, s, v)
         == if s == i.addr.idx && v == w then At(x.c.slots, s, v).(valid := false) else At(x.c.slots, s, v)
  {
    AtPut(x.c.slots, i.addr.idx, w, At(x.c.slots, i.addr.idx, w).(valid := false), s, v);
  }

  lemma MissShape(x: Sys, i: In, w: nat, k: nat)
    requires Shape(x.c) && i.Ok() && MissOk(x.c, i, w, k)
    ensures Shape(AfterMiss(x, i, w, k).c)
  {
    var y := AfterMiss(x, i, w, k);
    forall s, v | 0 <= s < SETS && 0 <= v < 2
      ensures |At(y.c.slots, s, v).data| == LINE
    {
      MissSlots(x, i, w, k, s, v);
    }
  }

  lemma MissOldEntry(x: Sys, i: In, w: nat, k: nat, e: Entry)
    requires Shape(x.c) && i.Ok() && MissOk(x.c, i, w, k)
    requires EntryShape(e) && EntrySlots(x.c.slots, e)
    ensures EntrySlots(AfterMiss(x, i, w, k).c.slots, e)
  {
    MissSlots(x, i, w, k, e.addr.idx, 0);
    MissSlots(x, i, w, k, e.addr.idx, 1);
  }

  lemma MissNewEntry(x: Sys, i: In, w: nat, k: nat)
    requires Shape(x.c) && i.Ok() && MissOk(x.c, i, w, k) && SetOk(x.c.slots, i.addr.idx)
    ensures var e := MissedEntry(x, i, w, k);
            EntrySlots(AfterMiss(x, i, w, k).c.slots, e) && EntryOwn(e)
  {
    MissSlots(x, i, w, k, i.addr.idx, 0);
    MissSlots(x, i, w, k, i.addr.idx, 1);
    assert !HitWay(x.c.slots, i.addr, 0) && !HitWay(x.c.slots, i.addr, 1);
  }

  lemma MissPair(x: Sys, i: In, w: nat, k: nat, j: nat)
    requires Shape(x.c) && i.Ok() && MissOk(x.c, i, w, k) && j < |x.c.m.ent|
    requires EntrySlots(x.c.slots, x.c.m.ent[j]) && EntryOwn(x.c.m.ent[j])
    ensures PairOk(MissedEntry(x, i, w, k), x.c.m.ent[j]) && PairOk(x.c.m.ent[j], MissedEntry(x, i, w, k))
  {
    NotPendingMeans(x.c.m.ent, i.addr, j);
    NotBusyMeans(x.c.m.ent, i.addr.idx, w, j);
  }

  lemma MissStructure(x: Sys, i: In, w: nat, k: nat)
    requires Shape(x.c) && Structure(x.c) && i.Ok() && MissOk(x.c, i, w, k)
    requires Shape(AfterMiss(x, i, w, k).c)
    ensures Structure(AfterMiss(x, i, w, k).c)
  {
    var y := AfterMiss(x, i, w, k);
    forall s | 0 <= s < SETS
      ensures SetOk(y.c.slots, s)
    {
      assert SetOk(x.c.slots, s);
      MissSlots(x, i, w, k, s, 0);
      MissSlots(x, i, w, k, s, 1);
    }
    forall j | 0 <= j < |y.c.m.ent|
      ensures EntrySlots(y.c.slots, y.c.m.ent[j]) && EntryOwn(y.c.m.ent[j])
    {
      assert SetOk(x.c.slots, i.addr.idx);
      if j == k { MissNewEntry(x, i, w, k); } else { MissOldEntry(x, i, w, k, x.c.m.ent[j]); }
    }
    forall a, b | 0 <= a < b < |y.c.m.ent|
      ensures PairOk(y.c.m.ent[a], y.c.m.ent[b])
    {
      if a == k { MissPair(x, i, w, k, b); } else if b == k { MissPair(x, i, w, k, a); } else {
        assert PairOk(x.c.m.ent[a], x.c.m.ent[b]);
      }
    }
  }

  lemma MissSlotData(x: Sys, i: In, w: nat, k: nat, s: nat, v: nat)
    requires Shape(x.c) && i.Ok() && MissOk(x.c, i, w, k) && Shape(AfterMiss(x, i, w, k).c)
    requires s < SETS && v < 2 && SlotData(x, s, v)
    ensures SlotData(AfterMiss(x, i, w, k), s, v)
  {
    var t := At(x.c.slots, s, v);
    MissSlots(x, i, w, k, s, v);
    assert !HitWay(x.c.slots, i.addr, 0) && !HitWay(x.c.slots, i.addr, 1);
    if t.valid && !(s == i.addr.idx && v == w) {
      OtherSlotData(x, i, t, s);
    }
  }

  lemma MissOldData(x: Sys, i: In, w: nat, k: nat, j: nat)
    requires Shape(x.c) && i.Ok() && MissOk(x.c, i, w, k) && j < |x.c.m.ent|
    requires EntryOwn(x.c.m.ent[j]) && EntryData(x, x.c.m.ent[j])
    ensures EntryData(AfterMiss(x, i, w, k), x.c.m.ent[j])
    ensures x.c.m.ent[j].Busy() ==>
      ReadLine(FlatAfter(x, i), x.c.m.ent[j].addr.Line()) == ReadLine(x.flat, x.c.m.ent[j].addr.Line())
  {
    var e := x.c.m.ent[j];
    NotPendingMeans(x.c.m.ent, i.addr, j);
    FlatLine(x, i, e.addr.Line());
    FlatLine(x, i, e.vaddr.Line());
    LineNoInjective(e.addr.tag, e.addr.idx, i.addr.tag, i.addr.idx);
    LineNoInjective(e.vaddr.tag, e.vaddr.idx, i.addr.tag, i.addr.idx);
  }

  /** Nothing newer than memory's copy of the missing line exists. */
  lemma MissUncovered(x: Sys, i: In, w: nat, k: nat)
    requires Shape(x.c) && Structure(x.c) && i.Ok() && MissOk(x.c, i, w, k)
    ensures !Covered(x.c, i.addr.tag, i.addr.idx)
  {
    assert !HitWay(x.c.slots, i.addr, 0) && !HitWay(x.c.slots, i.addr, 1);
    forall j | 0 <= j < |x.c.m.ent|
      ensures !Owes(x.c.m.ent[j], i.addr.tag, i.addr.idx)
    {
      NotPendingMeans(x.c.m.ent, i.addr, j);
      assert EntryOwn(x.c.m.ent[j]);
    }
  }

  /** The line that misses, filled with memory's copy and the waiting store. */
  lemma MissFill(x: Sys, i: In, w: nat, k: nat)
    requires Shape(x.c) && Structure(x.c) && i.Ok() && MissOk(x.c, i, w, k) && LineOk(x, i.addr.tag, i.addr.idx)
    ensures Installed(MissedEntry(x, i, w, k), ReadLine(x.mem, i.addr.Line()))
         == ReadLine(FlatAfter(x, i), i.addr.Line())
  {
    MissUncovered(x, i, w, k);
    FlatLine(x, i, i.addr.Line());
  }

  /** The victim's line is not the one that misses. */
  lemma MissVictim(x: Sys, i: In, w: nat, k: nat)
    requires Shape(x.c) && i.Ok() && MissOk(x.c, i, w, k) && SlotData(x, i.addr.idx, w)
    ensures var e := MissedEntry(x, i, w, k);
            e.st.Wb? ==> e.vdata == ReadLine(FlatAfter(x, i), e.vaddr.Line())
  {
    var v := At(x.c.slots, i.addr.idx, w);
    FlatLine(x, i, LineNo(v.tag, i.addr.idx));
    LineNoInjective(v.tag, i.addr.idx, i.addr.tag, i.addr.idx);
    assert !HitWay(x.c.slots, i.addr, w);
  }

  lemma MissNewData(x: Sys, i: In, w: nat, k: nat)
    requires Shape(x.c) && Structure(x.c) && DataOk(x) && i.Ok() && MissOk(x.c, i, w, k)
    ensures EntryData(AfterMiss(x, i, w, k), MissedEntry(x, i, w, k))
  {
    assert LineOk(x, i.addr.tag, i.addr.idx) && SlotData(x, i.addr.idx, w);
    MissFill(x, i, w, k);
    MissVictim(x, i, w, k);
  }

  lemma MissLineOk(x: Sys, i: In, w: nat, k: nat, tag: nat, s: nat)
    requires Shape(x.c) && i.Ok() && MissOk(x.c, i, w, k) && Shape(AfterMiss(x, i, w, k).c)
    requires s < SETS && LineOk(x, tag, s)
    ensures LineOk(AfterMiss(x, i, w, k), tag, s)
  {
    var y := AfterMiss(x, i, w, k);
    MissSlots(x, i, w, k, s, 0);
    MissSlots(x, i, w, k, s, 1);
    if Owes(y.c.m.ent[k], tag, s) {
      assert Covered(y.c, tag, s);
    } else if DirtyIn(x.c.slots, tag, s) {
      assert DirtyIn(y.c.slots, tag, s);
    } else if Covered(x.c, tag, s) {
      var j :| 0 <= j < |x.c.m.ent| && Owes(x.c.m.ent[j], tag, s);
      assert Owes(y.c.m.ent[j], tag, s);
    } else {
      FlatLine(x, i, LineNo(tag, s));
      LineNoInjective(tag, s, i.addr.tag, i.addr.idx);
    }
  }

  lemma MissData(x: Sys, i: In, w: nat, k: nat)
    requires Core(x) && i.Ok() && MissOk(x.c, i, w, k) && Shape(AfterMiss(x, i, w, k).c)
    ensures DataOk(AfterMiss(x, i, w, k))
  {
    var y := AfterMiss(x, i, w, k);
    forall s, v | 0 <= s < SETS && 0 <= v < 2
      ensures SlotData(y, s, v)
    {
      MissSlotData(x, i, w, k, s, v);
    }
    forall j | 0 <= j < |y.c.m.ent|
      ensures EntryData(y, y.c.m.ent[j])
    {
      if j == k { MissNewData(x, i, w, k); } else { MissOldData(x, i, w, k, j); }
    }
    forall tag: nat, s | 0 <= s < SETS
      ensures LineOk(y, tag, s)
    {
      MissLineOk(x, i, w, k, tag, s);
    }
  }

  lemma MissPromises(x: Sys, i: In, w: nat, k: nat)
    requires Core(x) && i.Ok() && MissOk(x.c, i, w, k) && Shape(AfterMiss(x, i, w, k).c)
    ensures Promises(AfterMiss(x, i, w, k).c.m.ent, FlatAfter(x, i))
         == Promises(x.c.m.ent, x.flat) + multiset{Expected(x, i)}
  {
    var flat' := FlatAfter(x, i);
    var e := MissedEntry(x, i, w, k);
    forall j | 0 <= j < |x.c.m.ent| && x.c.m.ent[j].Busy()
      ensures ReadLine(flat', x.c.m.ent[j].addr.Line()) == ReadLine(x.flat, x.c.m.ent[j].addr.Line())
    {
      MissOldData(x, i, w, k, j);
    }
    PromisesSame(x.c.m.ent, x.flat, flat');
    PromisesUpdate(x.c.m.ent, flat', k, e);
    ReadInLine(x.flat, i.addr, i.size);
    assert Promise(e, flat') == multiset{Expected(x, i)};
  }

  lemma MissLedger(x: Sys, i: In, w: nat, k: nat)
    requires Core(x) && i.Ok() && MissOk(x.c, i, w, k) && Shape(AfterMiss(x, i, w, k).c)
    ensures LedgerOk(AfterMiss(x, i, w, k))
  {
    MissPromises(x, i, w, k);
    LedgerAdds(x, AfterMiss(x, i, w, k), Expected(x, i));
  }

  lemma MissKeeps(x: Sys, i: In, w: nat, k: nat)
    requires Core(x) && i.Ok() && MissOk(x.c, i, w, k)
    ensures Core(AfterMiss(x, i, w, k))
  {
    MissShape(x, i, w, k);
    MissStructure(x, i, w, k);
    MissData(x, i, w, k);
    MissLedger(x, i, w, k);
  }

  // ---------------------------------------------------------------- memory port

  /** Entry `k` puts its request on the port and memory accepts it. */
  function AfterSend(x: Sys, k: nat): Sys
    requires Shape(x.c) && k < |x.c.m.ent|
  {
    var e := x.c.m.ent[k];
    if e.st.Wb? then x.(c := x.c.(m := Send(x.c.m, k)), mem := WriteLine(x.mem, e.vaddr.Line(), e.vdata))
    else x.(c := x.c.(m := Send(x.c.m, k)), pend := true, pendData := ReadLine(x.mem, e.addr.Line()))
  }

  predicate SendOk(c: Cache, k: nat) {
    k < |c.m.ent| && Wanted(KSend, c.m.ent[k]) && !c.m.memBusy
  }

  /** A change of one entry's phase keeps the structure. */
  lemma PhaseStructure(c: Cache, k: nat, e: Entry)
    requires Shape(c) && Structure(c) && k < |c.m.ent| && EntryShape(e)
    requires c.m.ent[k].Busy() && e == c.m.ent[k].(st := e.st, fill := e.fill) && (e.st.Wb? ==> c.m.ent[k].st.Wb?)
    ensures var c' := c.(m := c.m.(ent := c.m.ent[k := e]));
            Shape(c') && Structure(c')
  {
    var ent := c.m.ent[k := e];
    assert EntrySlots(c.slots, c.m.ent[k]) && EntryOwn(c.m.ent[k]);
    forall a, b | 0 <= a < b < |ent|
      ensures PairOk(ent[a], ent[b])
    {
      assert PairOk(c.m.ent[a], c.m.ent[b]);
    }
  }

  /** The bus registers are no part of the structure. */
  lemma BusStructure(c: Cache, busy: bool, idx: nat)
    requires Shape(c) && Structure(c)
    ensures Shape(c.(m := c.m.(memBusy := busy, busyIdx := idx)))
    ensures Structure(c.(m := c.m.(memBusy := busy, busyIdx := idx)))
  {
  }

  lemma SendStructure(x: Sys, k: nat)
    requires Core(x) && SendOk(x.c, k)
    ensures Shape(AfterSend(x, k).c) && Structure(AfterSend(x, k).c)
    ensures PortOk(AfterSend(x, k).c.m, AfterSend(x, k).pend) && |AfterSend(x, k).pendData| == LINE
  {
    var e := x.c.m.ent[k];
    var e' := e.(st := if e.st.Wb? then FillReq else FillWait);
    PhaseStructure(x.c, k, e');
    BusStructure(x.c.(m := x.c.m.(ent := x.c.m.ent[k := e'])), true, k);
  }

  /** A writeback touches no line that another entry fetches. */
  lemma WbElsewhere(x: Sys, k: nat, j: nat)
    requires Shape(x.c) && Structure(x.c) && k < |x.c.m.ent| && j < |x.c.m.ent|
    requires x.c.m.ent[k].st.Wb? && x.c.m.ent[j].Busy()
    ensures x.c.m.ent[j].addr.Line() != x.c.m.ent[k].vaddr.Line()
  {
    var e, f := x.c.m.ent[k], x.c.m.ent[j];
    assert EntryOwn(e);
    LineNoInjective(f.addr.tag, f.addr.idx, e.vaddr.tag, e.vaddr.idx);
    if j < k { assert PairOk(f, e); } else if k < j { assert PairOk(e, f); }
  }

  lemma SendEntryData(x: Sys, k: nat, j: nat)
    requires Core(x) && SendOk(x.c, k) && j < |x.c.m.ent|
    ensures EntryData(AfterSend(x, k), AfterSend(x, k).c.m.ent[j])
  {
    var e, f := x.c.m.ent[k], x.c.m.ent[j];
    assert EntryData(x, f) && EntryData(x, e);
    if e.st.Wb? && f.Busy() {
      WbElsewhere(x, k, j);
      WriteThenReadLine(x.mem, e.vaddr.Line(), e.vdata, f.addr.Line());
    }
  }

  lemma SendLineOk(x: Sys, k: nat, tag: nat, s: nat)
    requires Core(x) && SendOk(x.c, k) && s < SETS && Shape(AfterSend(x, k).c)
    ensures LineOk(AfterSend(x, k), tag, s)
  {
    var y := AfterSend(x, k);
    var e := x.c.m.ent[k];
    assert LineOk(x, tag, s) && EntryData(x, e) && EntryOwn(e);
    LineNoInjective(tag, s, e.vaddr.tag, e.vaddr.idx);
    if e.st.Wb? {
      WriteThenReadLine(x.mem, e.vaddr.Line(), e.vdata, LineNo(tag, s));
    }
    if Covered(x.c, tag, s) && !DirtyIn(x.c.slots, tag, s) {
      var j :| 0 <= j < |x.c.m.ent| && Owes(x.c.m.ent[j], tag, s);
      assert Owes(y.c.m.ent[j], tag, s) || (j == k && e.st.Wb? && e.vaddr.tag == tag);
    }
  }

  lemma SendData(x: Sys, k: nat)
    requires Core(x) && SendOk(x.c, k) && Shape(AfterSend(x, k).c)
    ensures DataOk(AfterSend(x, k))
  {
    var y := AfterSend(x, k);
    forall s, w | 0 <= s < SETS && 0 <= w < 2
      ensures SlotData(y, s, w)
    {
      assert SlotData(x, s, w);
    }
    forall j | 0 <= j < |y.c.m.ent|
      ensures EntryData(y, y.c.m.ent[j])
    {
      SendEntryData(x, k, j);
    }
    forall tag: nat, s | 0 <= s < SETS
      ensures LineOk(y, tag, s)
    {
      SendLineOk(x, k, tag, s);
    }
  }

  lemma SendKeeps(x: Sys, k: nat)
    requires Core(x) && SendOk(x.c, k)
    ensures Core(AfterSend(x, k))
  {
    SendStructure(x, k);
    SendData(x, k);
    PhaseLedger(x, AfterSend(x, k), k);
  }

  /** A change of phase that keeps an entry busy keeps its promise. */
  lemma PhaseLedger(x: Sys, y: Sys, k: nat)
    requires Shape(x.c) && Shape(y.c) && LedgerOk(x) && k < |x.c.m.ent|
    requires y.c.f == x.c.f && y.flat == x.flat && y.accepted == x.accepted && y.delivered == x.delivered
    requires |y.c.m.ent| == |x.c.m.ent| && y.c.m.ent == x.c.m.ent[k := y.c.m.ent[k]]
    requires x.c.m.ent[k].Busy() && y.c.m.ent[k] == x.c.m.ent[k].(st := y.c.m.ent[k].st, fill := y.c.m.ent[k].fill)
    requires y.c.m.ent[k].Busy()
    ensures LedgerOk(y)
  {
    PromisesUpdate(x.c.m.ent, x.flat, k, y.c.m.ent[k]);
    assert Promise(y.c.m.ent[k], x.flat) == Promise(x.c.m.ent[k], x.flat);
    BagCancel(Promises(y.c.m.ent, x.flat), Promises(x.c.m.ent, x.flat), Promise(x.c.m.ent[k], x.flat));
  }

  lemma BagCancel<T>(a: multiset<T>, b: multiset<T>, c: multiset<T>)
    requires a + c == b + c
    ensures a == b
  {
    assert a == (a + c) - c;
    assert b == (b + c) - c;
  }

  /** The outstanding read returns. */
  function AfterAnswer(x: Sys): Sys
    requires Shape(x.c) && x.c.m.busyIdx < |x.c.m.ent|
  {
    x.(c := x.c.(m := Answer(x.c.m, x.c.m.busyIdx, x.pendData)), pend := false)
  }

  lemma AnswerKeeps(x: Sys)
    requires Core(x) && x.pend
    ensures Core(AfterAnswer(x))
  {
    var k := x.c.m.busyIdx;
    var e := x.c.m.ent[k];
    assert e.st.FillWait?;
    var e' := e.(fill := x.pendData, st := Done);
    PhaseStructure(x.c, k, e');
    BusStructure(x.c.(m := x.c.m.(ent := x.c.m.ent[k := e'])), false, k);
    AnswerData(x);
    PhaseLedger(x, AfterAnswer(x), k);
  }

  lemma AnswerData(x: Sys)
    requires Shape(x.c) && PortOk(x.c.m, x.pend) && |x.pendData| == LINE && DataOk(x) && x.pend
    requires Shape(AfterAnswer(x).c)
    ensures DataOk(AfterAnswer(x))
  {
    var y := AfterAnswer(x);
    forall s, w | 0 <= s < SETS && 0 <= w < 2
      ensures SlotData(y, s, w)
    {
      assert SlotData(x, s, w);
    }
    forall j | 0 <= j < |y.c.m.ent|
      ensures EntryData(y, y.c.m.ent[j])
    {
      assert EntryData(x, x.c.m.ent[j]);
    }
    forall tag: nat, s | 0 <= s < SETS
      ensures LineOk(y, tag, s)
    {
      assert LineOk(x, tag, s);
      if Covered(x.c, tag, s) && !DirtyIn(x.c.slots, tag, s) {
        var j :| 0 <= j < |x.c.m.ent| && Owes(x.c.m.ent[j], tag, s);
        assert Owes(y.c.m.ent[j], tag, s);
      }
    }
  }

  // ---------------------------------------------------------------- installing a fill

  function AfterCommit(x: Sys, k: nat): Sys
    requires Shape(x.c) && k < |x.c.m.ent|
  {
    var e := x.c.m.ent[k];
    x.(c := x.c.(slots := Put(x.c.slots, e.addr.idx, e.way, Slot(true, e.addr.tag, e.we, Installed(e, e.fill))),
                 plru := x.c.plru[e.addr.idx := e.way],
                 m := Free(x.c.m, k),
                 f := Push(x.c.f, Resp(e.tag, FillData(e)))))
  }

  predicate CommitOk(c: Cache, k: nat)
    requires Shape(c)
  {
    k < |c.m.ent| && c.m.ent[k].st.Done? && c.f.cnt < FIFO_DEPTH
  }

  lemma CommitAt(x: Sys, k: nat, s: nat, w: nat)
    requires Shape(x.c) && CommitOk(x.c, k) && s < SETS && w < 2
    ensures var e := x.c.m.ent[k];
            At(AfterCommit(x, k).c.slots, s, w) ==
            (if s == e.addr.idx && w == e.way then Slot(true, e.addr.tag, e.we, Installed(e, e.fill))
             else At(x.c.slots, s, w))
  {
    var e := x.c.m.ent[k];
    AtPut(x.c.slots, e.addr.idx, e.way, Slot(true, e.addr.tag, e.we, Installed(e, e.fill)), s, w);
  }

  lemma CommitShape(x: Sys, k: nat)
    requires Shape(x.c) && CommitOk(x.c, k)
    ensures Shape(AfterCommit(x, k).c)
  {
    var y := AfterCommit(x, k);
    forall s, w | 0 <= s < SETS && 0 <= w < 2
      ensures |At(y.c.slots, s, w).data| == LINE
    {
      CommitAt(x, k, s, w);
    }
  }

  lemma CommitStructure(x: Sys, k: nat)
    requires Shape(x.c) && Structure(x.c) && CommitOk(x.c, k) && Shape(AfterCommit(x, k).c)
    ensures Structure(AfterCommit(x, k).c)
  {
    var y, e := AfterCommit(x, k), x.c.m.ent[k];
    assert EntrySlots(x.c.slots, e);
    forall s | 0 <= s < SETS
      ensures SetOk(y.c.slots, s)
    {
      assert SetOk(x.c.slots, s);
      CommitAt(x, k, s, 0);
      CommitAt(x, k, s, 1);
    }
    forall j | 0 <= j < |y.c.m.ent|
      ensures EntrySlots(y.c.slots, y.c.m.ent[j]) && EntryOwn(y.c.m.ent[j])
    {
      CommitEntry(x, k, j);
    }
    forall a, b | 0 <= a < b < |y.c.m.ent|
      ensures PairOk(y.c.m.ent[a], y.c.m.ent[b])
    {
      assert PairOk(x.c.m.ent[a], x.c.m.ent[b]);
    }
  }

  lemma CommitEntry(x: Sys, k: nat, j: nat)
    requires Shape(x.c) && Structure(x.c) && CommitOk(x.c, k) && j < |x.c.m.ent|
    ensures EntrySlots(AfterCommit(x, k).c.slots, AfterCommit(x, k).c.m.ent[j])
    ensures EntryOwn(AfterCommit(x, k).c.m.ent[j])
  {
    var e, f := x.c.m.ent[k], x.c.m.ent[j];
    assert EntrySlots(x.c.slots, f) && EntryOwn(f);
    CommitAt(x, k, f.addr.idx, 0);
    CommitAt(x, k, f.addr.idx, 1);
    if j < k { assert PairOk(f, e); } else if k < j { assert PairOk(e, f); }
  }

  lemma CommitLineOk(x: Sys, k: nat, tag: nat, s: nat)
    requires Shape(x.c) && CommitOk(x.c, k) && Shape(AfterCommit(x, k).c)
    requires EntrySlots(x.c.slots, x.c.m.ent[k]) && EntryData(x, x.c.m.ent[k])
    requires s < SETS && LineOk(x, tag, s)
    ensures LineOk(AfterCommit(x, k), tag, s)
  {
    var y, e := AfterCommit(x, k), x.c.m.ent[k];
    CommitAt(x, k, s, 0);
    CommitAt(x, k, s, 1);
    LineNoInjective(tag, s, e.addr.tag, e.addr.idx);
    if tag == e.addr.tag && s == e.addr.idx {
      assert e.we ==> DirtyIn(y.c.slots, tag, s);
    } else if DirtyIn(x.c.slots, tag, s) {
      assert DirtyIn(y.c.slots, tag, s);
    } else if Covered(x.c, tag, s) {
      var j :| 0 <= j < |x.c.m.ent| && Owes(x.c.m.ent[j], tag, s);
      assert Owes(y.c.m.ent[j], tag, s);
    }
  }

  lemma CommitData(x: Sys, k: nat)
    requires Core(x) && CommitOk(x.c, k) && Shape(AfterCommit(x, k).c)
    ensures DataOk(AfterCommit(x, k))
  {
    var y, e := AfterCommit(x, k), x.c.m.ent[k];
    assert EntryData(x, e) && EntrySlots(x.c.slots, e);
    forall s, w | 0 <= s < SETS && 0 <= w < 2
      ensures SlotData(y, s, w)
    {
      assert SlotData(x, s, w);
      CommitAt(x, k, s, w);
    }
    forall j | 0 <= j < |y.c.m.ent|
      ensures EntryData(y, y.c.m.ent[j])
    {
      assert EntryData(x, x.c.m.ent[j]);
    }
    forall tag: nat, s | 0 <= s < SETS
      ensures LineOk(y, tag, s)
    {
      CommitLineOk(x, k, tag, s);
    }
  }

  lemma CommitLedger(x: Sys, k: nat)
    requires Core(x) && CommitOk(x.c, k) && Shape(AfterCommit(x, k).c)
    ensures LedgerOk(AfterCommit(x, k))
  {
    var y, e := AfterCommit(x, k), x.c.m.ent[k];
    assert EntryData(x, e);
    var r := Resp(e.tag, FillData(e));
    PushAdds(x.c.f, r);
    PromisesUpdate(x.c.m.ent, x.flat, k, e.(st := Idle));
    assert Promise(e, x.flat) == multiset{r};
    BagPass(Queued(x.c.f), Promises(y.c.m.ent, x.flat), multiset{r});
  }

  lemma BagPass<T>(q: multiset<T>, p: multiset<T>, r: multiset<T>)
    ensures (q + r) + p == q + (p + r)
  {
  }

  lemma CommitKeeps(x: Sys, k: nat)
    requires Core(x) && CommitOk(x.c, k)
    ensures Core(AfterCommit(x, k))
  {
    CommitShape(x, k);
    CommitStructure(x, k);
    CommitData(x, k);
    CommitLedger(x, k);
  }

  // ---------------------------------------------------------------- flush

  /** The walk writes back the dirty line at its position. */
  function AfterFlush(x: Sys): Sys
    requires Shape(x.c) && FlushWb(x.c)
  {
    var s := At(x.c.slots, x.c.fl.idx, x.c.fl.way);
    x.(c := x.c.(slots := Put(x.c.slots, x.c.fl.idx, x.c.fl.way, s.(dirty := false))),
       mem := WriteLine(x.mem, LineNo(s.tag, x.c.fl.idx), s.data))
  }

  lemma FlushAt(x: Sys, s: nat, w: nat)
    requires Shape(x.c) && FlushWb(x.c) && s < SETS && w < 2
    ensures At(AfterFlush(x).c.slots, s, w)
         == if s == x.c.fl.idx && w == x.c.fl.way then At(x.c.slots, s, w).(dirty := false) else At(x.c.slots, s, w)
  {
    AtPut(x.c.slots, x.c.fl.idx, x.c.fl.way, At(x.c.slots, x.c.fl.idx, x.c.fl.way).(dirty := false), s, w);
  }

  lemma FlushStructure(x: Sys)
    requires Shape(x.c) && Structure(x.c) && FlushWb(x.c)
    ensures Shape(AfterFlush(x).c) && Structure(AfterFlush(x).c)
  {
    var y := AfterFlush(x);
    forall s, w | 0 <= s < SETS && 0 <= w < 2
      ensures |At(y.c.slots, s, w).data| == LINE
    {
      FlushAt(x, s, w);
    }
    forall s | 0 <= s < SETS
      ensures SetOk(y.c.slots, s)
    {
      assert SetOk(x.c.slots, s);
      FlushAt(x, s, 0);
      FlushAt(x, s, 1);
    }
    forall j | 0 <= j < |y.c.m.ent|
      ensures EntrySlots(y.c.slots, y.c.m.ent[j]) && EntryOwn(y.c.m.ent[j])
    {
      var e := x.c.m.ent[j];
      assert EntrySlots(x.c.slots, e) && EntryOwn(e);
      FlushAt(x, e.addr.idx, 0);
      FlushAt(x, e.addr.idx, 1);
    }
  }

  lemma FlushLineOk(x: Sys, tag: nat, s: nat)
    requires Shape(x.c) && FlushWb(x.c) && AllIdle(x.c.m.ent) && Shape(AfterFlush(x).c)
    requires SetOk(x.c.slots, x.c.fl.idx) && SlotData(x, x.c.fl.idx, x.c.fl.way)
    requires s < SETS && LineOk(x, tag, s)
    ensures LineOk(AfterFlush(x), tag, s)
  {
    var y := AfterFlush(x);
    var v := At(x.c.slots, x.c.fl.idx, x.c.fl.way);
    WriteThenReadLine(x.mem, LineNo(v.tag, x.c.fl.idx), v.data, LineNo(tag, s));
    LineNoInjective(tag, s, v.tag, x.c.fl.idx);
    FlushAt(x, s, 0);
    FlushAt(x, s, 1);
    if Covered(x.c, tag, s) {
      assert DirtyIn(x.c.slots, tag, s);
    }
  }

  lemma FlushKeeps(x: Sys)
    requires Core(x) && FlushWb(x.c) && AllIdle(x.c.m.ent)
    ensures Core(AfterFlush(x))
  {
    var y := AfterFlush(x);
    FlushStructure(x);
    assert SetOk(x.c.slots, x.c.fl.idx) && SlotData(x, x.c.fl.idx, x.c.fl.way);
    forall s, w | 0 <= s < SETS && 0 <= w < 2
      ensures SlotData(y, s, w)
    {
      assert SlotData(x, s, w);
      FlushAt(x, s, w);
    }
    forall tag: nat, s | 0 <= s < SETS
      ensures LineOk(y, tag, s)
    {
      assert LineOk(x, tag, s);
      FlushLineOk(x, tag, s);
    }
  }
}
