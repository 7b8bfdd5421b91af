/** Miss-status holding registers of the L1 data cache (rtl/cache/mshr.sv). */
module Mshrs {
  import opened Bytes
  import opened ByteMemory

  const SETS: nat := 64

  /** A byte address cut into the cache's bit fields: `{tag, idx, off}`. */
  datatype Addr = Addr(tag: nat, idx: nat, off: nat) {
    predicate Ok() { idx < SETS && off < LINE }
    /** The line number, address bits [63:6]. */
    function Line(): nat { 64 * tag + idx }
    function Byte(): nat { 64 * Line() + off }
    predicate SameLine(o: Addr) { tag == o.tag && idx == o.idx }
  }

  /** ST_IDLE, ST_WB, ST_FILL_REQ, ST_FILL_WAIT, ST_DONE */
  datatype St = Idle | Wb | FillReq | FillWait | Done

  datatype Entry = Entry(st: St, addr: Addr, tag: nat, we: bool, size: nat, wdata: nat, way: nat,
                         vdirty: bool, vaddr: Addr, vdata: seq<byte>, fill: seq<byte>) {
    predicate Busy() { !st.Idle? }
  }

  datatype Mshr = Mshr(ent: seq<Entry>, memBusy: bool, busyIdx: nat)

  /** What the priority encoders look for. */
  datatype Kind = KFree | KDone | KSend

  predicate Wanted(k: Kind, e: Entry) {
    match k
    case KFree => e.st.Idle?
    case KDone => e.st.Done?
    case KSend => e.st.Wb? || e.st.FillReq?
  }

  /** The lowest entry of a kind, or the number of entries when there is none. */
  function Lowest(ent: seq<Entry>, k: Kind): (i: nat)
    ensures i <= |ent|
    ensures i < |ent| ==> Wanted(k, ent[i])
    ensures forall j :: 0 <= j < i ==> !Wanted(k, ent[j])
  {
    if ent == [] then 0 else if Wanted(k, ent[0]) then 0 else 1 + Lowest(ent[1..], k)
  }

  /** Some entry in flight fetches this line, or carries it as a dirty victim. */
  predicate Pending(ent: seq<Entry>, a: Addr) {
    exists i :: 0 <= i < |ent| && Claims(ent[i], a)
  }

  predicate Claims(e: Entry, a: Addr) {
    e.Busy() && (e.addr.SameLine(a) || (e.vdirty && e.vaddr.SameLine(a)))
  }

  predicate WayBusy(ent: seq<Entry>, idx: nat, way: nat) {
    exists i :: 0 <= i < |ent| && Holds(ent[i], idx, way)
  }

  predicate Holds(e: Entry, idx: nat, way: nat) {
    e.Busy() && e.addr.idx == idx && e.way == way
  }

  function BusyCount(ent: seq<Entry>): (n: nat)
    ensures n <= |ent|
    ensures n == 0 <==> forall i :: 0 <= i < |ent| ==> !ent[i].Busy()
  {
    if ent == [] then 0
    else
      var p := ent[..|ent| - 1];
      assert forall i :: 0 <= i < |p| ==> p[i] == ent[i];
      BusyCount(p) + if ent[|ent| - 1].Busy() then 1 else 0
  }

  predicate ReqValid(m: Mshr) {
    Lowest(m.ent, KSend) < |m.ent| && !m.memBusy
  }

  /** The request on the memory port: a victim writeback or a line fill. */
  datatype MemReq = NoReq | WriteBack(line: nat, data: seq<byte>) | Fill(line: nat)

  function Request(m: Mshr): MemReq {
    if !ReqValid(m) then NoReq
    else
      var e := m.ent[Lowest(m.ent, KSend)];
      if e.st.Wb? then WriteBack(e.vaddr.Line(), e.vdata) else Fill(e.addr.Line())
  }

  /** A new miss as it enters its entry. */
  function NewEntry(a: Addr, tag: nat, we: bool, size: nat, wdata: nat, way: nat,
                    vdirty: bool, vaddr: Addr, vdata: seq<byte>, fill: seq<byte>): Entry {
    Entry(if vdirty then Wb else FillReq, a, tag, we, size, wdata, way, vdirty, vaddr, vdata, fill)
  }

  function Alloc(m: Mshr, i: nat, e: Entry): Mshr
    requires i < |m.ent|
  {
    m.(ent := m.ent[i := e])
  }

  function Send(m: Mshr, i: nat): Mshr
    requires i < |m.ent|
  {
    if m.ent[i].st.Wb? then m.(ent := m.ent[i := m.ent[i].(st := FillReq)])
    else m.(ent := m.ent[i := m.ent[i].(st := FillWait)], memBusy := true, busyIdx := i)
  }

  function Answer(m: Mshr, i: nat, data: seq<byte>): Mshr
    requires i < |m.ent|
  {
    m.(ent := m.ent[i := m.ent[i].(fill := data, st := Done)], memBusy := false)
  }

  function Free(m: Mshr, i: nat): Mshr
    requires i < |m.ent|
  {
    m.(ent := m.ent[i := m.ent[i].(st := Idle)])
  }

  /** What reaches the block in one cycle. */
  datatype MshrIn = MshrIn(allocValid: bool, alloc: Entry, memReady: bool, respValid: bool, respData: seq<byte>,
                           commitReady: bool)

  /** An allocation and a send, of the entries the encoders picked. */
  function Started(m: Mshr, x: MshrIn, free: nat, send: nat, fire: bool): (r: Mshr)
    requires fire ==> send < |m.ent|
    ensures |r.ent| == |m.ent|
  {
    var m1 := if x.allocValid && free < |m.ent| then Alloc(m, free, x.alloc.(fill := m.ent[free].fill)) else m;
    if fire then Send(m1, send) else m1
  }

  /** An answer of memory and a release. */
  function Finished(m: Mshr, x: MshrIn, answered: nat, done: nat): (r: Mshr)
    ensures |r.ent| == |m.ent|
  {
    var m1 := if x.respValid && answered < |m.ent| then Answer(m, answered, x.respData) else m;
    if done < |m.ent| && x.commitReady then Free(m1, done) else m1
  }

  /** One clock edge: an allocation, a send, an answer and a release, each of
      the entry the encoders picked before the edge. */
  function MshrNext(m: Mshr, x: MshrIn): (r: Mshr)
    ensures |r.ent| == |m.ent|
  {
    Finished(Started(m, x, Lowest(m.ent, KFree), Lowest(m.ent, KSend), ReqValid(m) && x.memReady), x, m.busyIdx,
             Lowest(m.ent, KDone))
  }

  class MshrUnit {
    var ent: seq<Entry>
    var memBusy: bool
    var busyIdx: nat

    function View(): Mshr
      reads this
    {
      Mshr(ent, memBusy, busyIdx)
    }

    constructor (n: nat, blank: Entry)
      requires blank.st.Idle?
      ensures View() == Mshr(seq(n, i => blank), false, 0)
    {
      ent := seq(n, i => blank);
      memBusy, busyIdx := false, 0;
    }

    /** The three priority encoders share one downward loop; the last write, of
        the lowest index, wins. */
    method Encode() returns (free: nat, done: nat, send: nat)
      ensures free == Lowest(ent, KFree) && done == Lowest(ent, KDone) && send == Lowest(ent, KSend)
    {
      free, done, send := |ent|, |ent|, |ent|;
      var i := |ent|;
      while i > 0
        invariant 0 <= i <= |ent|
        invariant free == i + Lowest(ent[i..], KFree)
        invariant done == i + Lowest(ent[i..], KDone)
        invariant send == i + Lowest(ent[i..], KSend)
      {
        i := i - 1;
        assert ent[i..][1..] == ent[i + 1..];
        if ent[i].st.Idle? { free := i; }
        if ent[i].st.Done? { done := i; }
        if ent[i].st.Wb? || ent[i].st.FillReq? { send := i; }
      }
      assert ent[0..] == ent;
    }

    method CheckPending(a: Addr) returns (pending: bool)
      ensures pending == Pending(ent, a)
    {
      pending := false;
      for i := 0 to |ent|
        invariant pending == exists k :: 0 <= k < i && Claims(ent[k], a)
      {
        if !ent[i].st.Idle? {
          if ent[i].addr.SameLine(a) { pending := true; }
          if ent[i].vdirty && ent[i].vaddr.SameLine(a) { pending := true; }
        }
      }
    }

    method BusyWays(idx: nat) returns (way0: bool, way1: bool)
      requires forall i :: 0 <= i < |ent| ==> ent[i].way < 2
      ensures way0 == WayBusy(ent, idx, 0) && way1 == WayBusy(ent, idx, 1)
    {
      way0, way1 := false, false;
      for i := 0 to |ent|
        invariant way0 == exists k :: 0 <= k < i && Holds(ent[k], idx, 0)
        invariant way1 == exists k :: 0 <= k < i && Holds(ent[k], idx, 1)
      {
        if !ent[i].st.Idle? && ent[i].addr.idx == idx {
          if ent[i].way == 0 { way0 := true; } else { way1 := true; }
        }
      }
    }

    method CountBusy() returns (n: nat)
      ensures n == BusyCount(ent)
    {
      n := 0;
      for i := 0 to |ent|
        invariant n == BusyCount(ent[..i])
      {
        assert ent[..i + 1][..i] == ent[..i];
        if !ent[i].st.Idle? { n := n + 1; }
      }
      assert ent[..|ent|] == ent;
    }

    method Allocate(x: MshrIn, free: nat)
      modifies this`ent
      ensures var m := old(View());
              View() == if x.allocValid && free < |m.ent| then Alloc(m, free, x.alloc.(fill := m.ent[free].fill)) else m
    {
      if x.allocValid && free < |ent| {
        ent := ent[free := x.alloc.(fill := ent[free].fill)];
      }
    }

    /** The port takes the chosen request: a victim to write, or a line to read. */
    method Issue(send: nat)
      requires send < |ent|
      modifies this`ent, this`memBusy, this`busyIdx
      ensures View() == Send(old(View()), send)
    {
      if ent[send].st.Wb? {
        ent := ent[send := ent[send].(st := FillReq)];
      } else {
        ent := ent[send := ent[send].(st := FillWait)];
        memBusy, busyIdx := true, send;
      }
    }

    /** The line that was read lands in its entry. */
    method Receive(i: nat, data: seq<byte>)
      requires i < |ent|
      modifies this`ent, this`memBusy
      ensures View() == Answer(old(View()), i, data)
    {
      ent := ent[i := ent[i].(fill := data, st := Done)];
      memBusy := false;
    }

    method Release(i: nat)
      requires i < |ent|
      modifies this`ent
      ensures View() == Free(old(View()), i)
    {
      ent := ent[i := ent[i].(st := Idle)];
    }

    /** The answer of memory and the commit, of the entries chosen before the edge. */
    method Finish(x: MshrIn, answered: nat, done: nat)
      modifies this`ent, this`memBusy
      ensures View() == Finished(old(View()), x, answered, done)
    {
      if x.respValid && answered < |ent| { Receive(answered, x.respData); }
      if done < |ent| && x.commitReady { Release(done); }
    }

    /** The allocation and the send, of the entries chosen before the edge. */
    method Start(x: MshrIn, free: nat, send: nat, fire: bool)
      requires fire ==> send < |ent|
      modifies this`ent, this`memBusy, this`busyIdx
      ensures View() == Started(old(View()), x, free, send, fire)
    {
      Allocate(x, free);
      if fire { Issue(send); }
    }

    method Clock(x: MshrIn)
      modifies this
      ensures View() == MshrNext(old(View()), x)
    {
      var free, done, send := Encode();
      var fire := send < |ent| && !memBusy && x.memReady;
      var answered := busyIdx;
      Start(x, free, send, fire);
      Finish(x, answered, done);
    }
  }
}
