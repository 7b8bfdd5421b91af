/** What holds of the cache, its memory and a flat memory in every reachable
    state. */
module L1dInv {
  import opened Bytes
  import opened ByteMemory
  import opened Mshrs
  import opened L1d
  import opened Ring

  /** The cache, the backing memory with its one outstanding read, and beside
      them a flat byte memory that every accepted store updates at once. The
      ledgers list, in order, what each accepted request must be answered with
      and what has been answered. */
  datatype Sys = Sys(c: Cache, mem: Mem, pend: bool, pendData: seq<byte>, flat: Mem,
                     accepted: seq<Resp>, delivered: seq<Resp>)

  // ---------------------------------------------------------------- structure

  /** The two ways of a set hold different lines. */
  predicate SetOk(slots: seq<Slot>, s: nat)
    requires |slots| == 2 * SETS && s < SETS
  {
    At(slots, s, 0).valid && At(slots, s, 1).valid ==> At(slots, s, 0).tag != At(slots, s, 1).tag
  }

  /** An entry in flight reserves an invalid way, and neither its line nor its
      dirty victim is resident. */
  predicate EntrySlots(slots: seq<Slot>, e: Entry)
    requires |slots| == 2 * SETS && EntryShape(e)
  {
    e.Busy() ==>
      && !At(slots, e.addr.idx, e.way).valid
      && NotIn(At(slots, e.addr.idx, 0), e) && NotIn(At(slots, e.addr.idx, 1), e)
  }

  predicate NotIn(s: Slot, e: Entry) {
    s.valid ==> s.tag != e.addr.tag && (e.vdirty ==> s.tag != e.vaddr.tag)
  }

  /** A victim comes from the same set as its line and is another line; an entry
      that still has to write back has something to write. */
  predicate EntryOwn(e: Entry) {
    e.Busy() ==>
      && e.vaddr.idx == e.addr.idx && (e.vdirty ==> e.vaddr.tag != e.addr.tag)
      && (e.st.Wb? ==> e.vdirty)
  }

  /** Two entries of one set reserve different ways, fetch different lines and
      evict different lines, and neither fetches what the other evicts. */
  predicate PairOk(e: Entry, f: Entry) {
    e.Busy() && f.Busy() && e.addr.idx == f.addr.idx ==>
      && e.way != f.way && e.addr.tag != f.addr.tag
      && (e.vdirty ==> e.vaddr.tag != f.addr.tag)
      && (f.vdirty ==> f.vaddr.tag != e.addr.tag)
      && (e.vdirty && f.vdirty ==> e.vaddr.tag != f.vaddr.tag)
  }

  ghost predicate Structure(c: Cache)
    requires Shape(c)
  {
    && (forall s :: 0 <= s < SETS ==> SetOk(c.slots, s))
    && (forall i :: 0 <= i < |c.m.ent| ==> EntrySlots(c.slots, c.m.ent[i]) && EntryOwn(c.m.ent[i]))
    && (forall i, j :: 0 <= i < j < |c.m.ent| ==> PairOk(c.m.ent[i], c.m.ent[j]))
  }

  /** The memory port has a read outstanding exactly when one entry waits for it. */
  ghost predicate PortOk(m: Mshr, pend: bool) {
    && m.memBusy == pend
    && (m.memBusy ==> m.busyIdx < |m.ent|)
    && (forall i :: 0 <= i < |m.ent| ==> (m.ent[i].st.FillWait? <==> m.memBusy && i == m.busyIdx))
  }

  // ---------------------------------------------------------------- data

  function LineNo(tag: nat, s: nat): nat {
    64 * tag + s
  }

  ghost predicate SlotData(x: Sys, s: nat, w: nat)
    requires Shape(x.c) && s < SETS && w < 2
  {
    At(x.c.slots, s, w).valid ==> At(x.c.slots, s, w).data == ReadLine(x.flat, LineNo(At(x.c.slots, s, w).tag, s))
  }

  /** A line in flight: memory's copy with the entry's own store is the flat
      content; what was read is memory's copy; a victim not yet written back is
      the flat content of its own line. */
  ghost predicate EntryData(x: Sys, e: Entry)
    requires EntryShape(e)
  {
    e.Busy() ==>
      && Installed(e, ReadLine(x.mem, e.addr.Line())) == ReadLine(x.flat, e.addr.Line())
      && (e.st.FillWait? ==> x.pendData == ReadLine(x.mem, e.addr.Line()))
      && (e.st.Done? ==> e.fill == ReadLine(x.mem, e.addr.Line()))
      && (e.st.Wb? ==> e.vdata == ReadLine(x.flat, e.vaddr.Line()))
  }

  predicate DirtyIn(slots: seq<Slot>, tag: nat, s: nat)
    requires |slots| == 2 * SETS && s < SETS
  {
    IsDirty(At(slots, s, 0), tag) || IsDirty(At(slots, s, 1), tag)
  }

  predicate IsDirty(s: Slot, tag: nat) {
    s.valid && s.dirty && s.tag == tag
  }

  /** The entry keeps memory's copy of the line from being the newest. */
  predicate Owes(e: Entry, tag: nat, s: nat) {
    e.Busy() && e.addr.idx == s && (e.addr.tag == tag || (e.st.Wb? && e.vaddr.tag == tag))
  }

  ghost predicate Covered(c: Cache, tag: nat, s: nat)
    requires Shape(c) && s < SETS
  {
    DirtyIn(c.slots, tag, s) || exists i :: 0 <= i < |c.m.ent| && Owes(c.m.ent[i], tag, s)
  }

  /** Memory is up to date for every line that is neither dirty in the cache nor
      in flight. */
  ghost predicate LineOk(x: Sys, tag: nat, s: nat)
    requires Shape(x.c) && s < SETS
  {
    Covered(x.c, tag, s) || ReadLine(x.mem, LineNo(tag, s)) == ReadLine(x.flat, LineNo(tag, s))
  }

  ghost predicate DataOk(x: Sys)
    requires Shape(x.c)
  {
    && (forall s, w :: 0 <= s < SETS && 0 <= w < 2 ==> SlotData(x, s, w))
    && (forall i :: 0 <= i < |x.c.m.ent| ==> EntryData(x, x.c.m.ent[i]))
    && (forall tag: nat, s :: 0 <= s < SETS ==> LineOk(x, tag, s))
  }

  // ---------------------------------------------------------------- ledger

  /** What an entry in flight will answer. */
  function Promise(e: Entry, flat: Mem): multiset<Resp>
    requires EntryShape(e)
  {
    if e.Busy()
    then multiset{Resp(e.tag, if e.we then e.wdata else Extract(ReadLine(flat, e.addr.Line()), e.addr.off, e.size))}
    else multiset{}
  }

  predicate AllShaped(ent: seq<Entry>) {
    forall i :: 0 <= i < |ent| ==> EntryShape(ent[i])
  }

  function Promises(ent: seq<Entry>, flat: Mem): multiset<Resp>
    requires AllShaped(ent)
  {
    if ent == [] then multiset{}
    else Promises(ent[..|ent| - 1], flat) + Promise(ent[|ent| - 1], flat)
  }

  function Queued(f: Fifo): multiset<Resp>
    requires |f.buf| == FIFO_DEPTH && f.head < FIFO_DEPTH && f.cnt <= FIFO_DEPTH
  {
    multiset(Window(f.buf, f.head, f.cnt)) + if f.respValid then multiset{f.resp} else multiset{}
  }

  /** Everything accepted and not yet answered. */
  function Answers(c: Cache, flat: Mem): multiset<Resp>
    requires Shape(c)
  {
    Queued(c.f) + Promises(c.m.ent, flat)
  }

  predicate FifoOk(f: Fifo)
    requires |f.buf| == FIFO_DEPTH && f.head < FIFO_DEPTH && f.cnt <= FIFO_DEPTH
  {
    f.tail == Wrap(f.head + f.cnt, FIFO_DEPTH)
  }

  ghost predicate LedgerOk(x: Sys)
    requires Shape(x.c)
  {
    FifoOk(x.c.f) && multiset(x.accepted) == multiset(x.delivered) + Answers(x.c, x.flat)
  }

  // ---------------------------------------------------------------- flush

  predicate AllIdle(ent: seq<Entry>) {
    forall i :: 0 <= i < |ent| ==> !ent[i].Busy()
  }

  /** Every slot the walk has passed is clean. */
  predicate WalkedClean(slots: seq<Slot>, upTo: nat)
    requires |slots| == 2 * SETS
  {
    forall s, w :: 0 <= s < SETS && 0 <= w < 2 && 2 * s + w < upTo ==> !(At(slots, s, w).valid && At(slots, s, w).dirty)
  }

  ghost predicate FlushOk(c: Cache)
    requires Shape(c)
  {
    && (c.fl.busy ==> AllIdle(c.m.ent) && WalkedClean(c.slots, 2 * c.fl.idx + c.fl.way)
                      && (c.fl.idx == SETS ==> c.fl.way == 0))
    && (c.fl.done ==> !c.fl.busy && AllIdle(c.m.ent) && WalkedClean(c.slots, 2 * SETS))
  }

  ghost predicate Inv(x: Sys) {
    && Shape(x.c) && Structure(x.c) && PortOk(x.c.m, x.pend) && |x.pendData| == LINE
    && DataOk(x) && LedgerOk(x) && FlushOk(x.c)
  }

  // ---------------------------------------------------------------- lines of memory

  lemma LineNoInjective(t: nat, s: nat, t': nat, s': nat)
    requires s < SETS && s' < SETS
    ensures LineNo(t, s) == LineNo(t', s') <==> t == t' && s == s'
  {
  }

  /** A store inside one line changes that line alone, as the merge says. */
  lemma StoreInLine(m: Mem, a: Addr, size: nat, v: nat, line: nat)
    requires a.Ok() && size < 4 && a.off + NBytes(size) <= LINE
    ensures ReadLine(WriteValue(m, a.Byte(), size, v), line)
         == if line == a.Line() then Merge(ReadLine(m, line), a.off, size, v) else ReadLine(m, line)
  {
    var n := NBytes(size);
    var b := ToBytes(v, n);
    forall i | 0 <= i < LINE
      ensures ReadLine(WriteValue(m, a.Byte(), size, v), line)[i]
           == if line == a.Line() then Merge(ReadLine(m, line), a.off, size, v)[i] else ReadLine(m, line)[i]
    {
      GetWritten(m, a.Byte(), b, LINE * line + i);
    }
  }

  lemma ReadInLine(m: Mem, a: Addr, size: nat)
    requires a.Ok() && size < 4 && a.off + NBytes(size) <= LINE
    ensures ReadValue(m, a.Byte(), size) == Extract(ReadLine(m, a.Line()), a.off, size)
  {
    assert ReadBytes(m, a.Byte(), NBytes(size)) == ReadLine(m, a.Line())[a.off..a.off + NBytes(size)];
  }
}
