/** The non-blocking L1 data cache (rtl/cache/l1d.sv): two ways, 64 sets,
    write-back and write-allocate, with a response FIFO and a flush walk. */
module L1d {
  import opened Bytes
  import opened ByteMemory
  import opened Mshrs

  const FIFO_DEPTH: nat := 32

  datatype Slot = Slot(valid: bool, tag: nat, dirty: bool, data: seq<byte>)

  /** A response: the request's tag and a 64-bit value. */
  datatype Resp = Resp(tag: nat, data: nat)

  datatype Fifo = Fifo(buf: seq<Resp>, head: nat, tail: nat, cnt: nat, respValid: bool, resp: Resp)

  datatype Flush = Flush(busy: bool, idx: nat, way: nat, done: bool)

  datatype Cache = Cache(slots: seq<Slot>, plru: seq<nat>, m: Mshr, f: Fifo, fl: Flush)

  /** The CPU port, the memory port's replies and the flush request. */
  datatype In = In(valid: bool, addr: Addr, we: bool, size: nat, wdata: nat, tag: nat,
                   memReady: bool, memRespValid: bool, memRdata: seq<byte>, flushAll: bool) {
    /** The access lies within its line and its fields fit their wires. */
    predicate Ok() {
      addr.Ok() && size < 4 && addr.off + NBytes(size) <= LINE
    }
  }

  function ZeroLine(): (r: seq<byte>)
    ensures |r| == LINE
  {
    seq<byte>(LINE, i => 0)
  }

  function Blank(): Entry {
    Entry(Idle, Addr(0, 0, 0), 0, false, 0, 0, 0, false, Addr(0, 0, 0), ZeroLine(), ZeroLine())
  }

  /** The arrays are indexed by set, then way. */
  function At(slots: seq<Slot>, idx: nat, way: nat): Slot
    requires |slots| == 2 * SETS && idx < SETS && way < 2
  {
    slots[2 * idx + way]
  }

  function Put(slots: seq<Slot>, idx: nat, way: nat, s: Slot): (r: seq<Slot>)
    requires |slots| == 2 * SETS && idx < SETS && way < 2
    ensures |r| == |slots|
  {
    slots[2 * idx + way := s]
  }

  lemma AtPut(slots: seq<Slot>, idx: nat, way: nat, s: Slot, idx': nat, way': nat)
    requires |slots| == 2 * SETS && idx < SETS && way < 2 && idx' < SETS && way' < 2
    ensures At(Put(slots, idx, way, s), idx', way')
         == if idx' == idx && way' == way then s else At(slots, idx', way')
  {
  }

  /** The little-endian value of the bytes of `line` an access covers. */
  function Extract(line: seq<byte>, off: nat, size: nat): nat
    requires |line| == LINE && size < 4 && off + NBytes(size) <= LINE
  {
    FromBytes(line[off..off + NBytes(size)])
  }

  function Merge(line: seq<byte>, off: nat, size: nat, wdata: nat): (r: seq<byte>)
    requires |line| == LINE && size < 4 && off + NBytes(size) <= LINE
    ensures |r| == LINE
  {
    line[..off] + ToBytes(wdata, NBytes(size)) + line[off + NBytes(size)..]
  }

  predicate Shape(c: Cache) {
    && |c.slots| == 2 * SETS && |c.plru| == SETS
    && (forall s, w :: 0 <= s < SETS && 0 <= w < 2 ==> |At(c.slots, s, w).data| == LINE)
    && (forall s :: 0 <= s < SETS ==> c.plru[s] < 2)
    && (forall i :: 0 <= i < |c.m.ent| ==> EntryShape(c.m.ent[i]))
    && |c.f.buf| == FIFO_DEPTH && c.f.head < FIFO_DEPTH && c.f.tail < FIFO_DEPTH && c.f.cnt <= FIFO_DEPTH
    && c.fl.idx <= SETS && c.fl.way < 2
  }

  predicate EntryShape(e: Entry) {
    && e.addr.Ok() && e.size < 4 && e.addr.off + NBytes(e.size) <= LINE
    && e.way < 2 && e.vaddr.idx < SETS && |e.vdata| == LINE && |e.fill| == LINE
  }

  // ---------------------------------------------------------------- wires

  predicate HitWay(slots: seq<Slot>, a: Addr, way: nat)
    requires |slots| == 2 * SETS && a.Ok() && way < 2
  {
    At(slots, a.idx, way).valid && At(slots, a.idx, way).tag == a.tag
  }

  predicate IsHit(slots: seq<Slot>, a: Addr)
    requires |slots| == 2 * SETS && a.Ok()
  {
    HitWay(slots, a, 0) || HitWay(slots, a, 1)
  }

  function WhichHit(slots: seq<Slot>, a: Addr): (w: nat)
    requires |slots| == 2 * SETS && a.Ok()
    ensures w < 2
  {
    if HitWay(slots, a, 1) then 1 else 0
  }

  /** Both ways of the set are promised to fills in flight. */
  predicate NoWay(ent: seq<Entry>, idx: nat) {
    WayBusy(ent, idx, 0) && WayBusy(ent, idx, 1)
  }

  /** The way a miss takes: a free empty way, else the less recently used free
      way, else the only free one. */
  function AllocWay(c: Cache, idx: nat): (w: nat)
    requires |c.slots| == 2 * SETS && |c.plru| == SETS && idx < SETS && c.plru[idx] < 2
    ensures w < 2
  {
    var ok0, ok1 := !WayBusy(c.m.ent, idx, 0), !WayBusy(c.m.ent, idx, 1);
    var empty0, empty1 := !At(c.slots, idx, 0).valid, !At(c.slots, idx, 1).valid;
    if !ok0 && !ok1 then 0
    else if ok0 && empty0 then 0
    else if ok1 && empty1 then 1
    else if ok0 && ok1 then 1 - c.plru[idx]
    else if ok0 then 0
    else 1
  }

  /** Room for a hit and a fill in one cycle. */
  predicate Room2(f: Fifo) {
    f.cnt + 2 <= FIFO_DEPTH
  }

  predicate HitAccept(c: Cache, x: In)
    requires |c.slots| == 2 * SETS && x.Ok()
  {
    x.valid && IsHit(c.slots, x.addr) && Room2(c.f)
  }

  predicate MissAccept(c: Cache, x: In)
    requires |c.slots| == 2 * SETS && x.Ok()
  {
    && x.valid && !IsHit(c.slots, x.addr)
    && Lowest(c.m.ent, KFree) < |c.m.ent| && !Pending(c.m.ent, x.addr) && !NoWay(c.m.ent, x.addr.idx) && Room2(c.f)
  }

  /** The request port is ready: always when nothing is asked, else exactly when
      the request is taken. */
  predicate Ready(c: Cache, x: In)
    requires |c.slots| == 2 * SETS && x.Ok()
  {
    x.valid ==> HitAccept(c, x) || MissAccept(c, x)
  }

  predicate CommitFire(c: Cache) {
    Lowest(c.m.ent, KDone) < |c.m.ent| && Room2(c.f) && !c.fl.busy
  }

  function Committing(c: Cache): Entry
    requires CommitFire(c)
  {
    c.m.ent[Lowest(c.m.ent, KDone)]
  }

  /** The entry a miss leaves behind, with its victim. */
  function MissEntry(c: Cache, x: In): Entry
    requires Shape(c) && x.Ok()
  {
    var w := AllocWay(c, x.addr.idx);
    var v := At(c.slots, x.addr.idx, w);
    NewEntry(x.addr, x.tag, x.we, x.size, x.wdata, w, v.valid && v.dirty, Addr(v.tag, x.addr.idx, 0), v.data, v.data)
  }

  function HitData(c: Cache, x: In): nat
    requires Shape(c) && x.Ok()
  {
    if x.we then x.wdata else Extract(At(c.slots, x.addr.idx, WhichHit(c.slots, x.addr)).data, x.addr.off, x.size)
  }

  function FillData(e: Entry): nat
    requires EntryShape(e)
  {
    if e.we then e.wdata else Extract(e.fill, e.addr.off, e.size)
  }

  /** The line as it is installed: the fill, with the miss's own store in it. */
  function Installed(e: Entry, base: seq<byte>): (r: seq<byte>)
    requires EntryShape(e) && |base| == LINE
    ensures |r| == LINE
  {
    if e.we then Merge(base, e.addr.off, e.size, e.wdata) else base
  }

  /** The flush walk is at a line it has to write back. */
  predicate FlushWb(c: Cache)
    requires Shape(c)
  {
    c.fl.busy && c.fl.idx < SETS && At(c.slots, c.fl.idx, c.fl.way).valid && At(c.slots, c.fl.idx, c.fl.way).dirty
  }

  /** The memory port: the flush walk's when it is active, the MSHRs' otherwise. */
  function PortRequest(c: Cache): MemReq
    requires Shape(c)
  {
    if c.fl.busy then
      if FlushWb(c)
      then WriteBack(64 * At(c.slots, c.fl.idx, c.fl.way).tag + c.fl.idx, At(c.slots, c.fl.idx, c.fl.way).data)
      else NoReq
    else Request(c.m)
  }

  // ---------------------------------------------------------------- clock edge

  function Inc5(p: nat): (r: nat)
    requires p < FIFO_DEPTH
    ensures r < FIFO_DEPTH
  {
    if p + 1 == FIFO_DEPTH then 0 else p + 1
  }

  function Push(f: Fifo, r: Resp): Fifo
    requires |f.buf| == FIFO_DEPTH && f.tail < FIFO_DEPTH
  {
    f.(buf := f.buf[f.tail := r], tail := Inc5(f.tail), cnt := f.cnt + 1)
  }

  /** The response register takes the oldest entry, if there is one. */
  function Pop(f: Fifo): Fifo
    requires |f.buf| == FIFO_DEPTH && f.head < FIFO_DEPTH
  {
    if f.cnt > 0 then f.(respValid := true, resp := f.buf[f.head], head := Inc5(f.head), cnt := f.cnt - 1)
    else f.(respValid := false)
  }

  function FifoNext(c: Cache, x: In): Fifo
    requires Shape(c) && x.Ok()
  {
    var f1 := Pop(c.f);
    var f2 := if HitAccept(c, x) then Push(f1, Resp(x.tag, HitData(c, x))) else f1;
    if CommitFire(c) then Push(f2, Resp(Committing(c).tag, FillData(Committing(c)))) else f2
  }

  function FlushNext(c: Cache, x: In): Flush
    requires Shape(c)
  {
    if !c.fl.busy then
      if x.flushAll && BusyCount(c.m.ent) == 0 then Flush(true, 0, 0, false) else c.fl.(done := false)
    else if c.fl.idx == SETS then c.fl.(busy := false, done := true)
    else if FlushWb(c) && !x.memReady then c.fl.(done := false)
    else if c.fl.way == 1 then c.fl.(way := 0, idx := c.fl.idx + 1, done := false)
    else c.fl.(way := 1, done := false)
  }

  function FlushSlots(c: Cache, x: In): (r: seq<Slot>)
    requires Shape(c)
    ensures |r| == 2 * SETS
  {
    if FlushWb(c) && x.memReady
    then Put(c.slots, c.fl.idx, c.fl.way, At(c.slots, c.fl.idx, c.fl.way).(dirty := false))
    else c.slots
  }

  function AcceptSlots(slots: seq<Slot>, c: Cache, x: In): (r: seq<Slot>)
    requires Shape(c) && x.Ok() && |slots| == 2 * SETS
    ensures |r| == 2 * SETS
  {
    if HitAccept(c, x) && x.we then
      var w := WhichHit(c.slots, x.addr);
      var s := At(c.slots, x.addr.idx, w);
      Put(slots, x.addr.idx, w,
          At(slots, x.addr.idx, w).(data := Merge(s.data, x.addr.off, x.size, x.wdata), dirty := true))
    else if MissAccept(c, x) then
      var w := AllocWay(c, x.addr.idx);
      Put(slots, x.addr.idx, w, At(slots, x.addr.idx, w).(valid := false))
    else slots
  }

  function CommitSlots(slots: seq<Slot>, c: Cache): (r: seq<Slot>)
    requires Shape(c) && |slots| == 2 * SETS
    ensures |r| == 2 * SETS
  {
    if CommitFire(c) then
      var e := Committing(c);
      Put(slots, e.addr.idx, e.way, Slot(true, e.addr.tag, e.we, Installed(e, e.fill)))
    else slots
  }

  function PlruNext(c: Cache, x: In): seq<nat>
    requires Shape(c) && x.Ok()
  {
    var p := if HitAccept(c, x) then c.plru[x.addr.idx := WhichHit(c.slots, x.addr)] else c.plru;
    if CommitFire(c) then p[Committing(c).addr.idx := Committing(c).way] else p
  }

  function MshrInput(c: Cache, x: In): MshrIn
    requires Shape(c) && x.Ok()
  {
    MshrIn(MissAccept(c, x), MissEntry(c, x), x.memReady && !c.fl.busy, x.memRespValid && !c.fl.busy, x.memRdata,
           Room2(c.f) && !c.fl.busy)
  }

  /** One clock edge of the whole cache. */
  function CacheNext(c: Cache, x: In): Cache
    requires Shape(c) && x.Ok()
  {
    Cache(CommitSlots(AcceptSlots(FlushSlots(c, x), c, x), c), PlruNext(c, x), MshrNext(c.m, MshrInput(c, x)),
          FifoNext(c, x), FlushNext(c, x))
  }

  /** The combinational signals of a cycle. */
  datatype Wires = Wires(hitAccept: bool, hitWay: nat, hitData: nat, missAccept: bool, allocWay: nat,
                         commitFire: bool, commit: Entry, busyCnt: nat)

  function WiresOf(c: Cache, x: In): Wires
    requires Shape(c) && x.Ok()
  {
    Wires(HitAccept(c, x), WhichHit(c.slots, x.addr), HitData(c, x), MissAccept(c, x), AllocWay(c, x.addr.idx),
          CommitFire(c), if CommitFire(c) then Committing(c) else Blank(), BusyCount(c.m.ent))
  }

  /** The cache's registers, updated block by block as its clocked processes do. */
  class L1dUnit {
    var slots: seq<Slot>
    var plru: seq<nat>
    var fifo: Fifo
    var flush: Flush
    const mshr: MshrUnit

    function View(): Cache
      reads this, mshr
    {
      Cache(slots, plru, mshr.View(), fifo, flush)
    }

    constructor (nMshr: nat)
      ensures fresh(mshr)
      ensures Shape(View()) && View().m.ent == seq(nMshr, i => Blank()) && !View().m.memBusy
      ensures forall s, w :: 0 <= s < SETS && 0 <= w < 2 ==> !At(View().slots, s, w).valid
      ensures View().f.cnt == 0 && View().f.head == View().f.tail && !View().f.respValid
      ensures View().fl == Flush(false, 0, 0, false)
    {
      slots := seq(2 * SETS, i => Slot(false, 0, false, ZeroLine()));
      plru := seq(SETS, i => 0);
      fifo := Fifo(seq(FIFO_DEPTH, i => Resp(0, 0)), 0, 0, 0, false, Resp(0, 0));
      flush := Flush(false, 0, 0, false);
      mshr := new MshrUnit(nMshr, Blank());
    }

    /** Tag lookup and way choice for the presented address. */
    method Lookup(x: In) returns (hit: bool, hitWay: nat, noWay: bool, allocWay: nat)
      requires Shape(View()) && x.Ok()
      ensures hit == IsHit(slots, x.addr) && hitWay == WhichHit(slots, x.addr)
      ensures noWay == NoWay(mshr.ent, x.addr.idx) && allocWay == AllocWay(View(), x.addr.idx)
    {
      var s0, s1 := At(slots, x.addr.idx, 0), At(slots, x.addr.idx, 1);
      var hit0 := s0.valid && s0.tag == x.addr.tag;
      var hit1 := s1.valid && s1.tag == x.addr.tag;
      hit := hit0 || hit1;
      hitWay := if hit1 then 1 else 0;
      var way0Busy, way1Busy := mshr.BusyWays(x.addr.idx);
      noWay, allocWay := false, 0;
      if way0Busy && way1Busy { noWay := true; }
      else if !way0Busy && !s0.valid { allocWay := 0; }
      else if !way1Busy && !s1.valid { allocWay := 1; }
      else if !way0Busy && !way1Busy { allocWay := 1 - plru[x.addr.idx]; }
      else if !way0Busy { allocWay := 0; }
      else { allocWay := 1; }
    }

    method UpdateFifo(ghost c: Cache, x: In, w: Wires)
      requires Shape(c) && x.Ok() && fifo == c.f && w == WiresOf(c, x)
      modifies this`fifo
      ensures fifo == FifoNext(c, x)
    {
      var f := fifo;
      var doPop := f.cnt > 0;
      var numPush := (if w.hitAccept then 1 else 0) + (if w.commitFire then 1 else 0);
      var buf := f.buf;
      if w.hitAccept {
        buf := buf[f.tail := Resp(x.tag, w.hitData)];
      }
      if w.commitFire {
        var data := if w.commit.we then w.commit.wdata else Extract(w.commit.fill, w.commit.addr.off, w.commit.size);
        buf := buf[if w.hitAccept then Inc5(f.tail) else f.tail := Resp(w.commit.tag, data)];
      }
      var tail := if numPush == 2 then Inc5(Inc5(f.tail)) else if numPush == 1 then Inc5(f.tail) else f.tail;
      fifo := if doPop
              then Fifo(buf, Inc5(f.head), tail, f.cnt + numPush - 1, true, f.buf[f.head])
              else Fifo(buf, f.head, tail, f.cnt + numPush, false, f.resp);
    }

    method UpdateFlush(ghost c: Cache, x: In, busyCnt: nat)
      requires Shape(c) && flush == c.fl && slots == c.slots && busyCnt == BusyCount(c.m.ent)
      modifies this`flush, this`slots
      ensures flush == FlushNext(c, x) && slots == FlushSlots(c, x)
    {
      var fl := flush;
      flush := flush.(done := false);
      if !fl.busy {
        if x.flushAll && busyCnt == 0 { flush := Flush(true, 0, 0, false); }
      } else if fl.idx == SETS {
        flush := flush.(busy := false, done := true);
      } else {
        var s := At(slots, fl.idx, fl.way);
        if s.valid && s.dirty {
          if x.memReady {
            slots := Put(slots, fl.idx, fl.way, s.(dirty := false));
            flush := if fl.way == 1 then flush.(way := 0, idx := fl.idx + 1) else flush.(way := 1);
          }
        } else {
          flush := if fl.way == 1 then flush.(way := 0, idx := fl.idx + 1) else flush.(way := 1);
        }
      }
    }

    method UpdateArrays(ghost c: Cache, x: In, w: Wires, hitLine: seq<byte>)
      requires Shape(c) && x.Ok() && plru == c.plru && slots == FlushSlots(c, x) && w == WiresOf(c, x)
      requires hitLine == At(c.slots, x.addr.idx, w.hitWay).data
      modifies this`slots, this`plru
      ensures slots == CommitSlots(AcceptSlots(FlushSlots(c, x), c, x), c) && plru == PlruNext(c, x)
    {
      if w.hitAccept {
        plru := plru[x.addr.idx := w.hitWay];
        if x.we {
          slots := Put(slots, x.addr.idx, w.hitWay,
            At(slots, x.addr.idx, w.hitWay).(data := Merge(hitLine, x.addr.off, x.size, x.wdata), dirty := true));
        }
      }
      if w.missAccept {
        slots := Put(slots, x.addr.idx, w.allocWay, At(slots, x.addr.idx, w.allocWay).(valid := false));
      }
      if w.commitFire {
        plru := plru[w.commit.addr.idx := w.commit.way];
        var data := if w.commit.we then Merge(w.commit.fill, w.commit.addr.off, w.commit.size, w.commit.wdata)
                    else w.commit.fill;
        slots := Put(slots, w.commit.addr.idx, w.commit.way, Slot(true, w.commit.addr.tag, w.commit.we, data));
      }
    }

    /** The request handshake and everything the clocked processes sample. */
    method Decide(x: In) returns (ready: bool, w: Wires)
      requires Shape(View()) && x.Ok()
      ensures w == WiresOf(View(), x)
      ensures ready == Ready(View(), x)
    {
      var hit, hitWay, noWay, allocWay := Lookup(x);
      var free, done, send := mshr.Encode();
      var pending := mshr.CheckPending(x.addr);
      var busyCnt := mshr.CountBusy();
      var room2 := fifo.cnt <= FIFO_DEPTH - 2;
      ready := if x.valid && hit then room2
               else if x.valid && !hit then free < |mshr.ent| && !pending && !noWay && room2
               else true;
      var hitAccept := x.valid && hit && ready;
      var missAccept := x.valid && !hit && ready;
      var commitFire := done < |mshr.ent| && room2 && !flush.busy;
      var hitData := if x.we then x.wdata else Extract(At(slots, x.addr.idx, hitWay).data, x.addr.off, x.size);
      w := Wires(hitAccept, hitWay, hitData, missAccept, allocWay,
                 commitFire, if commitFire then mshr.ent[done] else Blank(), busyCnt);
    }

    /** What the miss registers receive. */
    method Present(x: In, w: Wires) returns (mx: MshrIn)
      requires Shape(View()) && x.Ok() && w == WiresOf(View(), x)
      ensures mx == MshrInput(View(), x)
    {
      var v := At(slots, x.addr.idx, w.allocWay);
      var victimDirty := v.valid && v.dirty;
      var entry := NewEntry(x.addr, x.tag, x.we, x.size, x.wdata, w.allocWay, victimDirty,
                            Addr(v.tag, x.addr.idx, 0), v.data, v.data);
      mx := MshrIn(w.missAccept, entry, x.memReady && !flush.busy, x.memRespValid && !flush.busy, x.memRdata,
                   fifo.cnt <= FIFO_DEPTH - 2 && !flush.busy);
    }

    /** All signals of the cycle, before any register changes. */
    method Settle(x: In) returns (ready: bool, req: MemReq, w: Wires, mx: MshrIn, hitLine: seq<byte>)
      requires Shape(View()) && x.Ok()
      ensures w == WiresOf(View(), x) && mx == MshrInput(View(), x) && req == PortRequest(View())
      ensures ready == Ready(View(), x)
      ensures hitLine == At(slots, x.addr.idx, w.hitWay).data
    {
      ready, w := Decide(x);
      req := Drive();
      mx := Present(x, w);
      hitLine := At(slots, x.addr.idx, w.hitWay).data;
    }

    /** The registers after the edge. */
    method Update(ghost c: Cache, x: In, w: Wires, mx: MshrIn, hitLine: seq<byte>)
      requires c == View() && Shape(c) && x.Ok() && w == WiresOf(c, x) && mx == MshrInput(c, x)
      requires hitLine == At(c.slots, x.addr.idx, w.hitWay).data
      modifies this`slots, this`plru, this`fifo, this`flush, mshr
      ensures View() == CacheNext(c, x)
    {
      mshr.Clock(mx);
      UpdateFifo(c, x, w);
      UpdateFlush(c, x, w.busyCnt);
      UpdateArrays(c, x, w, hitLine);
    }

    /** One clock edge; `ready` and `req` are the cycle's outputs. */
    method Clock(x: In) returns (ready: bool, req: MemReq)
      requires Shape(View()) && x.Ok()
      modifies this`slots, this`plru, this`fifo, this`flush, mshr
      ensures View() == CacheNext(old(View()), x)
      ensures ready == Ready(old(View()), x)
      ensures req == PortRequest(old(View()))
    {
      ghost var c := View();
      var w, mx, hitLine;
      ready, req, w, mx, hitLine := Settle(x);
      Update(c, x, w, mx, hitLine);
    }

    method Drive() returns (req: MemReq)
      requires Shape(View())
      ensures req == PortRequest(View())
    {
      var free, done, send := mshr.Encode();
      if flush.busy {
        if flush.idx != SETS && At(slots, flush.idx, flush.way).valid && At(slots, flush.idx, flush.way).dirty {
          var s := At(slots, flush.idx, flush.way);
          req := WriteBack(64 * s.tag + flush.idx, s.data);
        } else {
          req := NoReq;
        }
      } else if send < |mshr.ent| && !mshr.memBusy {
        var e := mshr.ent[send];
        req := if e.st.Wb? then WriteBack(e.vaddr.Line(), e.vdata) else Fill(e.addr.Line());
      } else {
        req := NoReq;
      }
    }
  }
}
