/** The load/store queue (rtl/lsq/lsq.sv): two circular queues, a load search
    with store-to-load forwarding, in-order commit and squash. */
module Lsq {
  import opened Bytes
  import opened Ring

  datatype LqEntry = LqEntry(rob: nat, addrV: bool, addr: nat, size: nat, sgn: bool, resolved: bool)

  datatype SqEntry = SqEntry(rob: nat, addrV: bool, addr: nat, size: nat, data: nat)

  /** Both queues; `span` is 2^ROB_IDX_W. */
  datatype Queues = Queues(span: nat, lq: seq<LqEntry>, lqHead: nat, lqTail: nat, lqCnt: nat,
                           sq: seq<SqEntry>, sqHead: nat, sqTail: nat, sqCnt: nat) {
    predicate Shape() {
      && span > 0
      && lqHead < |lq| && lqCnt <= |lq| && lqTail == Wrap(lqHead + lqCnt, |lq|)
      && sqHead < |sq| && sqCnt <= |sq| && sqTail == Wrap(sqHead + sqCnt, |sq|)
      && (forall i :: 0 <= i < |lq| ==> lq[i].rob < span && lq[i].size < 4)
      && (forall i :: 0 <= i < |sq| ==> sq[i].rob < span && sq[i].size < 4)
    }
    /** The live loads and stores, oldest first. */
    function Loads(): seq<LqEntry>
      requires Shape()
    {
      Window(lq, lqHead, lqCnt)
    }
    function Stores(): seq<SqEntry>
      requires Shape()
    {
      Window(sq, sqHead, sqCnt)
    }
  }

  datatype Disp = Disp(valid: bool, isLoad: bool, rob: nat)

  datatype In = In(robHead: nat, disp0: Disp, disp1: Disp,
                   stValid: bool, stIdx: nat, stAddr: nat, stSize: nat, stData: nat,
                   ldValid: bool, ldIdx: nat, ldAddr: nat, ldSize: nat, ldSigned: bool,
                   commitStore: bool, commitLoad: bool, squashValid: bool, squashRob: nat, squashAll: bool) {
    predicate Ok(q: Queues) {
      && robHead < q.span && disp0.rob < q.span && disp1.rob < q.span && squashRob < q.span
      && stIdx < |q.sq| && stSize < 4 && ldIdx < |q.lq| && ldSize < 4
    }
  }

  /** A store leaving for data memory. */
  datatype Write = Write(valid: bool, addr: nat, size: nat, data: nat)

  // ---------------------------------------------------------------- word helpers

  /** The distance of a reorder-buffer index from its head: smaller is older. */
  function Age(rob: nat, head: nat, span: nat): (a: nat)
    requires rob < span && head < span
    ensures a < span
  {
    if rob >= head then rob - head else rob + span - head
  }

  /** The three low address bits of the difference. */
  function Off3(l: nat, s: nat): (o: nat)
    ensures o < 8
    ensures s <= l < s + 8 ==> o == l - s
  {
    (l - s) % 8
  }

  // ---------------------------------------------------------------- load search

  /** What the search has seen of the older stores so far: whether one has no
      address yet, whether one overlaps, and the youngest that does. */
  datatype Seen = Seen(blocked: bool, any: bool, full: bool, age: nat, from: SqEntry)

  predicate Overlaps(l: LqEntry, s: SqEntry)
    requires l.size < 4 && s.size < 4
  {
    !(l.addr + NBytes(l.size) <= s.addr || s.addr + NBytes(s.size) <= l.addr)
  }

  predicate Covers(l: LqEntry, s: SqEntry)
    requires l.size < 4 && s.size < 4
  {
    s.addr <= l.addr && l.addr + NBytes(l.size) <= s.addr + NBytes(s.size)
  }

  function Look(r: Seen, l: LqEntry, s: SqEntry, head: nat, span: nat): Seen
    requires l.size < 4 && s.size < 4 && l.rob < span && s.rob < span && head < span
  {
    if Age(s.rob, head, span) >= Age(l.rob, head, span) then r
    else if !s.addrV then r.(blocked := true)
    else if Overlaps(l, s) && (!r.any || Age(s.rob, head, span) > r.age) then
      Seen(r.blocked, true, Covers(l, s), Age(s.rob, head, span),
           if Covers(l, s) then s else r.from)
    else r
  }

  /** The load's bytes picked out of the store's data. */
  function Forward(l: LqEntry, s: SqEntry): nat
    requires l.size < 4
  {
    Extend(ShiftRight(s.data, Off3(l.addr, s.addr)), l.size, l.sgn)
  }

  /** The search over the stores in queue order. */
  function Search(l: LqEntry, ss: seq<SqEntry>, head: nat, span: nat): Seen
    requires l.size < 4 && l.rob < span && head < span
    requires forall j :: 0 <= j < |ss| ==> ss[j].size < 4 && ss[j].rob < span
  {
    if ss == [] then Seen(false, false, false, 0, SqEntry(0, false, 0, 0, 0))
    else Look(Search(l, ss[..|ss| - 1], head, span), l, ss[|ss| - 1], head, span)
  }

  predicate Resolvable(r: Seen) {
    !r.blocked && (r.any ==> r.full)
  }

  predicate Waits(l: LqEntry) {
    l.addrV && !l.resolved
  }

  /** Load `i` of the queue can be answered this cycle. */
  predicate CanAnswer(q: Queues, head: nat, i: nat)
    requires q.Shape() && head < q.span && i < q.lqCnt
  {
    Waits(q.Loads()[i]) && Resolvable(Search(q.Loads()[i], q.Stores(), head, q.span))
  }

  /** The oldest load that can be answered, or the number of loads. */
  function Found(q: Queues, head: nat, from: nat): (i: nat)
    requires q.Shape() && head < q.span && from <= q.lqCnt
    ensures from <= i <= q.lqCnt
    ensures i < q.lqCnt ==> CanAnswer(q, head, i)
    ensures forall k :: from <= k < i ==> !CanAnswer(q, head, k)
    decreases q.lqCnt - from
  {
    if from == q.lqCnt || CanAnswer(q, head, from) then from else Found(q, head, from + 1)
  }

  /** What the load answers, given the word data memory shows at its address. */
  function Answer(q: Queues, head: nat, i: nat, rdData: nat): nat
    requires q.Shape() && head < q.span && i < q.lqCnt
  {
    var l := q.Loads()[i];
    var r := Search(l, q.Stores(), head, q.span);
    if r.any then Forward(l, r.from) else Extend(rdData, l.size, l.sgn)
  }

  /** Where the answer of load `i` comes from: data memory, or a store's data. */
  predicate Source(q: Queues, head: nat, i: nat, isDmem: bool, fwd: nat)
    requires q.Shape() && head < q.span && i < q.lqCnt
  {
    var r := Search(q.Loads()[i], q.Stores(), head, q.span);
    isDmem == !r.any && (r.any ==> fwd == Forward(q.Loads()[i], r.from))
  }

  // ---------------------------------------------------------------- dispatch, commit, squash

  predicate Squashing(x: In) { x.squashValid || x.squashAll }

  predicate Ready0(q: Queues, x: In)
    requires q.Shape()
  {
    !Squashing(x) && if x.disp0.isLoad then q.lqCnt < |q.lq| else q.sqCnt < |q.sq|
  }

  predicate Takes0(q: Queues, x: In, load: bool)
    requires q.Shape()
  {
    x.disp0.valid && Ready0(q, x) && x.disp0.isLoad == load
  }

  predicate Ready1(q: Queues, x: In)
    requires q.Shape()
  {
    !Squashing(x) &&
    if x.disp1.isLoad then q.lqCnt + (if Takes0(q, x, true) then 1 else 0) < |q.lq|
    else q.sqCnt + (if Takes0(q, x, false) then 1 else 0) < |q.sq|
  }

  predicate Takes1(q: Queues, x: In, load: bool)
    requires q.Shape()
  {
    x.disp1.valid && Ready1(q, x) && x.disp1.isLoad == load
  }

  /** What dispatch is told: who is taken, and the slots on offer in each queue. */
  datatype Offer = Offer(ready0: bool, ready1: bool, lqAt0: nat, sqAt0: nat, lqAt1: nat, sqAt1: nat)

  function LqAt1(q: Queues, x: In): (at: nat)
    requires q.Shape()
    ensures at < |q.lq|
  {
    if Takes0(q, x, true) then Wrap(q.lqTail + 1, |q.lq|) else q.lqTail
  }

  function SqAt1(q: Queues, x: In): (at: nat)
    requires q.Shape()
    ensures at < |q.sq|
  {
    if Takes0(q, x, false) then Wrap(q.sqTail + 1, |q.sq|) else q.sqTail
  }

  function OfferOf(q: Queues, x: In): Offer
    requires q.Shape()
  {
    Offer(Ready0(q, x), Ready1(q, x), q.lqTail, q.sqTail, LqAt1(q, x), SqAt1(q, x))
  }

  function NAlloc(q: Queues, x: In, load: bool): nat
    requires q.Shape()
  {
    (if Takes0(q, x, load) then 1 else 0) + (if Takes1(q, x, load) then 1 else 0)
  }

  function LoadRobs(w: seq<LqEntry>): (r: seq<nat>)
    ensures |r| == |w| && forall i :: 0 <= i < |w| ==> r[i] == w[i].rob
  {
    seq(|w|, i requires 0 <= i < |w| => w[i].rob)
  }

  function StoreRobs(w: seq<SqEntry>): (r: seq<nat>)
    ensures |r| == |w| && forall i :: 0 <= i < |w| ==> r[i] == w[i].rob
  {
    seq(|w|, i requires 0 <= i < |w| => w[i].rob)
  }

  predicate Below(robs: seq<nat>, span: nat) {
    forall i :: 0 <= i < |robs| ==> robs[i] < span
  }

  /** How many of these indices are no younger than the squash point. */
  function Kept(robs: seq<nat>, head: nat, point: nat, span: nat): (n: nat)
    requires head < span && point < span && Below(robs, span)
    ensures n <= |robs|
  {
    if robs == [] then 0
    else Kept(robs[..|robs| - 1], head, point, span)
         + if Age(robs[|robs| - 1], head, span) <= Age(point, head, span) then 1 else 0
  }

  lemma KeptStep(robs: seq<nat>, n: nat, head: nat, point: nat, span: nat)
    requires head < span && point < span && n < |robs| && Below(robs, span)
    ensures Kept(robs[..n + 1], head, point, span)
         == Kept(robs[..n], head, point, span) + if Age(robs[n], head, span) <= Age(point, head, span) then 1 else 0
  {
    assert robs[..n + 1][..n] == robs[..n];
  }

  lemma RobsAre(q: Queues)
    requires q.Shape()
    ensures Below(LoadRobs(q.Loads()), q.span) && Below(StoreRobs(q.Stores()), q.span)
  {
  }

  function LqBase(q: Queues, x: In): (n: nat)
    requires q.Shape() && x.Ok(q)
    ensures n <= q.lqCnt
  {
    if x.squashValid then Kept(LoadRobs(q.Loads()), x.robHead, x.squashRob, q.span) else q.lqCnt
  }

  function SqBase(q: Queues, x: In): (n: nat)
    requires q.Shape() && x.Ok(q)
    ensures n <= q.sqCnt
  {
    if x.squashValid then Kept(StoreRobs(q.Stores()), x.robHead, x.squashRob, q.span) else q.sqCnt
  }

  /** Dispatch never overfills a queue. */
  lemma Room(q: Queues, x: In)
    requires q.Shape()
    ensures q.lqCnt + NAlloc(q, x, true) <= |q.lq| && q.sqCnt + NAlloc(q, x, false) <= |q.sq|
  {
  }

  function Fresh(rob: nat, e: LqEntry): LqEntry {
    e.(rob := rob, addrV := false, resolved := false)
  }

  function FreshStore(rob: nat, e: SqEntry): SqEntry {
    e.(rob := rob, addrV := false)
  }

  function LqDispatched(q: Queues, x: In): (a: seq<LqEntry>)
    requires q.Shape()
    ensures |a| == |q.lq|
  {
    var i1 := LqAt1(q, x);
    var a0 := if Takes0(q, x, true) then q.lq[q.lqTail := Fresh(x.disp0.rob, q.lq[q.lqTail])] else q.lq;
    if Takes1(q, x, true) then a0[i1 := Fresh(x.disp1.rob, a0[i1])] else a0
  }

  function SqDispatched(q: Queues, x: In): (a: seq<SqEntry>)
    requires q.Shape()
    ensures |a| == |q.sq|
  {
    var i1 := SqAt1(q, x);
    var a0 := if Takes0(q, x, false) then q.sq[q.sqTail := FreshStore(x.disp0.rob, q.sq[q.sqTail])] else q.sq;
    if Takes1(q, x, false) then a0[i1 := FreshStore(x.disp1.rob, a0[i1])] else a0
  }

  /** The load array after dispatch, address arrival and the response, in the
      order the clocked process assigns them. */
  function LqArray(q: Queues, x: In): (a: seq<LqEntry>)
    requires q.Shape() && x.Ok(q)
    ensures |a| == |q.lq|
  {
    var a1 := LqDispatched(q, x);
    var a2 := if x.ldValid
              then a1[x.ldIdx := LqEntry(a1[x.ldIdx].rob, true, x.ldAddr, x.ldSize, x.ldSigned, false)]
              else a1;
    var f := Found(q, x.robHead, 0);
    if f < q.lqCnt && !x.squashAll then
      var slot := Wrap(q.lqHead + f, |q.lq|);
      a2[slot := a2[slot].(resolved := true)]
    else a2
  }

  function SqArray(q: Queues, x: In): (a: seq<SqEntry>)
    requires q.Shape() && x.Ok(q)
    ensures |a| == |q.sq|
  {
    var a1 := SqDispatched(q, x);
    if x.stValid then a1[x.stIdx := SqEntry(a1[x.stIdx].rob, true, x.stAddr, x.stSize, x.stData)] else a1
  }

  /** One queue's pointers: the survivors, less a commit, plus what is dispatched. */
  datatype Ptrs = Ptrs(head: nat, tail: nat, cnt: nat)

  function PtrsNext(head: nat, base: nat, commit: bool, alloc: nat, depth: nat): (p: Ptrs)
    requires head < depth && base + alloc <= depth
    ensures p.head < depth && p.cnt <= depth && p.tail == Wrap(p.head + p.cnt, depth)
  {
    var pop := commit && base != 0;
    var head' := if pop then Wrap(head + 1, depth) else head;
    var cnt' := base - (if pop then 1 else 0) + alloc;
    Ptrs(head', Wrap(head' + cnt', depth), cnt')
  }

  function LqPtrs(q: Queues, x: In): Ptrs
    requires q.Shape() && x.Ok(q)
    ensures LqPtrs(q, x).head < |q.lq| && LqPtrs(q, x).cnt <= |q.lq|
    ensures LqPtrs(q, x).tail == Wrap(LqPtrs(q, x).head + LqPtrs(q, x).cnt, |q.lq|)
  {
    if x.squashAll then Ptrs(0, 0, 0) else PtrsNext(q.lqHead, LqBase(q, x), x.commitLoad, NAlloc(q, x, true), |q.lq|)
  }

  function SqPtrs(q: Queues, x: In): Ptrs
    requires q.Shape() && x.Ok(q)
    ensures SqPtrs(q, x).head < |q.sq| && SqPtrs(q, x).cnt <= |q.sq|
    ensures SqPtrs(q, x).tail == Wrap(SqPtrs(q, x).head + SqPtrs(q, x).cnt, |q.sq|)
  {
    if x.squashAll then Ptrs(0, 0, 0) else PtrsNext(q.sqHead, SqBase(q, x), x.commitStore, NAlloc(q, x, false), |q.sq|)
  }

  /** One clock edge. */
  function Next(q: Queues, x: In): (r: Queues)
    requires q.Shape() && x.Ok(q)
    ensures |r.lq| == |q.lq| && |r.sq| == |q.sq| && r.span == q.span
  {
    var l, s := LqPtrs(q, x), SqPtrs(q, x);
    Queues(q.span, LqArray(q, x), l.head, l.tail, l.cnt, SqArray(q, x), s.head, s.tail, s.cnt)
  }

  /** The write port: the head store, or the address and data arriving for it in
      this very cycle. */
  function WritePort(q: Queues, x: In): Write
    requires q.Shape() && x.Ok(q)
  {
    var e := q.sq[q.sqHead];
    if x.stValid && x.stIdx == q.sqHead then Write(x.commitStore && q.sqCnt != 0, x.stAddr, x.stSize, x.stData)
    else Write(x.commitStore && q.sqCnt != 0, e.addr, e.size, e.data)
  }

  /** A load's answer as it leaves the block, with the read it makes of data
      memory; everything is zero when no load is answered. */
  datatype LoadPort = LoadPort(valid: bool, idx: nat, rob: nat, data: nat, rdValid: bool, rdAddr: nat, rdSize: nat)

  function LoadOut(q: Queues, head: nat, rdData: nat): LoadPort
    requires q.Shape() && head < q.span
  {
    var f := Found(q, head, 0);
    if f == q.lqCnt then LoadPort(false, 0, 0, 0, false, 0, 0)
    else
      var l := q.Loads()[f];
      LoadPort(true, Wrap(q.lqHead + f, |q.lq|), l.rob, Answer(q, head, f, rdData),
               !Search(l, q.Stores(), head, q.span).any, l.addr, l.size)
  }

  lemma LookAppend(l: LqEntry, ss: seq<SqEntry>, n: nat, head: nat, span: nat)
    requires l.size < 4 && l.rob < span && head < span && n < |ss|
    requires forall j :: 0 <= j < |ss| ==> ss[j].size < 4 && ss[j].rob < span
    ensures Search(l, ss[..n + 1], head, span) == Look(Search(l, ss[..n], head, span), l, ss[n], head, span)
  {
    assert ss[..n + 1][..n] == ss[..n];
  }

  /** The queue's registers. */
  class LsqUnit {
    const span: nat
    var lq: seq<LqEntry>
    var lqHead: nat
    var lqTail: nat
    var lqCnt: nat
    var sq: seq<SqEntry>
    var sqHead: nat
    var sqTail: nat
    var sqCnt: nat

    function View(): Queues
      reads this
    {
      Queues(span, lq, lqHead, lqTail, lqCnt, sq, sqHead, sqTail, sqCnt)
    }

    constructor (lqDepth: nat, sqDepth: nat, span: nat)
      requires lqDepth > 0 && sqDepth > 0 && span > 0
      ensures View().Shape() && lqCnt == 0 && sqCnt == 0 && |lq| == lqDepth && |sq| == sqDepth
    {
      this.span := span;
      lq := seq(lqDepth, i => LqEntry(0, false, 0, 0, false, false));
      sq := seq(sqDepth, i => SqEntry(0, false, 0, 0, 0));
      lqHead, lqTail, lqCnt, sqHead, sqTail, sqCnt := 0, 0, 0, 0, 0, 0;
    }

    /** One turn of the inner loop of the load search. */
    method LookAt(l: LqEntry, s: SqEntry, robHead: nat, seen: Seen, fwd: nat) returns (r: Seen, data: nat)
      requires robHead < span && l.size < 4 && l.rob < span && s.size < 4 && s.rob < span
      requires seen.any && seen.full ==> fwd == Forward(l, seen.from)
      ensures r == Look(seen, l, s, robHead, span)
      ensures r.any && r.full ==> data == Forward(l, r.from)
    {
      r, data := seen, fwd;
      if Age(s.rob, robHead, span) < Age(l.rob, robHead, span) {
        if !s.addrV {
          r := r.(blocked := true);
        } else if Overlaps(l, s) {
          if !r.any || Age(s.rob, robHead, span) > r.age {
            var full := Covers(l, s);
            r := Seen(r.blocked, true, full, Age(s.rob, robHead, span), if full then s else r.from);
            if full { data := Forward(l, s); }
          }
        }
      }
    }

    /** The inner loop, for one load, over the live stores. */
    method SearchStores(l: LqEntry, robHead: nat, ghost ss: seq<SqEntry>) returns (r: Seen, data: nat)
      requires robHead < span && l.size < 4 && l.rob < span && sqHead < |sq| && |ss| == sqCnt <= |sq|
      requires forall j :: 0 <= j < sqCnt ==> ss[j] == sq[Wrap(sqHead + j, |sq|)] && ss[j].size < 4 && ss[j].rob < span
      ensures r == Search(l, ss, robHead, span)
      ensures r.any && r.full ==> data == Forward(l, r.from)
    {
      r, data := Seen(false, false, false, 0, SqEntry(0, false, 0, 0, 0)), 0;
      for j := 0 to sqCnt
        invariant r == Search(l, ss[..j], robHead, span)
        invariant r.any && r.full ==> data == Forward(l, r.from)
      {
        LookAppend(l, ss, j, robHead, span);
        r, data := LookAt(l, sq[Wrap(sqHead + j, |sq|)], robHead, r, data);
      }
      assert ss[..sqCnt] == ss;
    }

    /** One turn of the outer loop: can load `i` be answered, and from where? */
    method TryLoad(i: nat, robHead: nat) returns (can: bool, isDmem: bool, fwd: nat)
      requires View().Shape() && robHead < span && i < lqCnt
      ensures can == CanAnswer(View(), robHead, i)
      ensures can ==> Source(View(), robHead, i, isDmem, fwd)
    {
      var l := lq[Wrap(lqHead + i, |lq|)];
      var r, data := SearchStores(l, robHead, View().Stores());
      var pending := l.addrV && !l.resolved;
      can, isDmem, fwd := false, false, 0;
      if pending && !r.blocked {
        if r.any && r.full {
          can, isDmem, fwd := true, false, data;
        } else if !r.any {
          can, isDmem := true, true;
        }
      }
    }

    /** The outer loop: the oldest waiting load that can be answered. */
    method FindLoad(robHead: nat) returns (found: bool, at: nat, isDmem: bool, fwd: nat)
      requires View().Shape() && robHead < span
      ensures found <==> at < lqCnt
      ensures at == Found(View(), robHead, 0)
      ensures found ==> Source(View(), robHead, at, isDmem, fwd)
    {
      found, at, isDmem, fwd := false, 0, false, 0;
      for i := 0 to lqCnt
        invariant !found ==> at == i && Found(View(), robHead, 0) == Found(View(), robHead, i)
        invariant found ==> at < lqCnt && at == Found(View(), robHead, 0)
        invariant found ==> Source(View(), robHead, at, isDmem, fwd)
      {
        if !found {
          found, isDmem, fwd := TryLoad(i, robHead);
          at := if found then i else i + 1;
        }
      }
    }

    /** How many entries of each queue a squash leaves. */
    method KeepCounts(robHead: nat, point: nat) returns (loads: nat, stores: nat)
      requires View().Shape() && robHead < span && point < span
      ensures loads == Kept(LoadRobs(View().Loads()), robHead, point, span)
      ensures stores == Kept(StoreRobs(View().Stores()), robHead, point, span)
    {
      RobsAre(View());
      loads := KeepLoads(robHead, point);
      stores := KeepStores(robHead, point);
    }

    method KeepLoads(robHead: nat, point: nat) returns (n: nat)
      requires robHead < span && point < span && lqHead < |lq| && lqCnt <= |lq|
      requires Below(LoadRobs(Window(lq, lqHead, lqCnt)), span)
      ensures n == Kept(LoadRobs(Window(lq, lqHead, lqCnt)), robHead, point, span)
    {
      ghost var robs := LoadRobs(Window(lq, lqHead, lqCnt));
      n := 0;
      for i := 0 to lqCnt
        invariant n == Kept(robs[..i], robHead, point, span)
      {
        KeptStep(robs, i, robHead, point, span);
        if Age(lq[Wrap(lqHead + i, |lq|)].rob, robHead, span) <= Age(point, robHead, span) { n := n + 1; }
      }
      assert robs[..lqCnt] == robs;
    }

    method KeepStores(robHead: nat, point: nat) returns (n: nat)
      requires robHead < span && point < span && sqHead < |sq| && sqCnt <= |sq|
      requires Below(StoreRobs(Window(sq, sqHead, sqCnt)), span)
      ensures n == Kept(StoreRobs(Window(sq, sqHead, sqCnt)), robHead, point, span)
    {
      ghost var robs := StoreRobs(Window(sq, sqHead, sqCnt));
      n := 0;
      for i := 0 to sqCnt
        invariant n == Kept(robs[..i], robHead, point, span)
      {
        KeptStep(robs, i, robHead, point, span);
        if Age(sq[Wrap(sqHead + i, |sq|)].rob, robHead, span) <= Age(point, robHead, span) { n := n + 1; }
      }
      assert robs[..sqCnt] == robs;
    }

    /** Who is taken this cycle, and where. */
    method Announce(x: In) returns (o: Offer)
      requires View().Shape()
      ensures o == OfferOf(View(), x)
    {
      var squash := x.squashValid || x.squashAll;
      var lqFree, sqFree := |lq| - lqCnt, |sq| - sqCnt;
      var ready0 := !squash && if x.disp0.isLoad then lqFree != 0 else sqFree != 0;
      var p0TakesLq := x.disp0.valid && ready0 && x.disp0.isLoad;
      var p0TakesSq := x.disp0.valid && ready0 && !x.disp0.isLoad;
      var lqFree1 := lqFree - if p0TakesLq then 1 else 0;
      var sqFree1 := sqFree - if p0TakesSq then 1 else 0;
      var ready1 := !squash && if x.disp1.isLoad then lqFree1 != 0 else sqFree1 != 0;
      o := Offer(ready0, ready1, lqTail, sqTail,
                 if p0TakesLq then Wrap(lqTail + 1, |lq|) else lqTail,
                 if p0TakesSq then Wrap(sqTail + 1, |sq|) else sqTail);
    }

    /** Dispatched entries enter at the tails of before the edge. */
    method Enter(ghost q: Queues, x: In, o: Offer)
      requires q.Shape() && x.Ok(q) && lq == q.lq && sq == q.sq && o == OfferOf(q, x)
      modifies this`lq, this`sq
      ensures lq == LqDispatched(q, x) && sq == SqDispatched(q, x)
    {
      if x.disp0.valid && o.ready0 {
        if x.disp0.isLoad {
          lq := lq[o.lqAt0 := lq[o.lqAt0].(rob := x.disp0.rob, addrV := false, resolved := false)];
        } else {
          sq := sq[o.sqAt0 := sq[o.sqAt0].(rob := x.disp0.rob, addrV := false)];
        }
      }
      if x.disp1.valid && o.ready1 {
        if x.disp1.isLoad {
          lq := lq[o.lqAt1 := lq[o.lqAt1].(rob := x.disp1.rob, addrV := false, resolved := false)];
        } else {
          sq := sq[o.sqAt1 := sq[o.sqAt1].(rob := x.disp1.rob, addrV := false)];
        }
      }
    }

    /** The load ports. The answer to a load that forwards nothing is the
        extension of what data memory shows at its address. */
    method DriveLoad(robHead: nat, rdData: nat) returns (p: LoadPort)
      requires View().Shape() && robHead < span
      ensures p == LoadOut(View(), robHead, rdData)
    {
      var found, at, isDmem, fwd := FindLoad(robHead);
      if found {
        var slot := Wrap(lqHead + at, |lq|);
        var l := lq[slot];
        p := LoadPort(true, slot, l.rob, if isDmem then Extend(rdData, l.size, l.sgn) else fwd, isDmem, l.addr, l.size);
      } else {
        p := LoadPort(false, 0, 0, 0, false, 0, 0);
      }
    }

    /** The write port, before any register changes. */
    method DriveStore(x: In) returns (write: Write)
      requires View().Shape() && x.Ok(View())
      ensures write == WritePort(View(), x)
    {
      var bypass := x.stValid && x.stIdx == sqHead;
      write := Write(x.commitStore && sqCnt != 0,
                     if bypass then x.stAddr else sq[sqHead].addr,
                     if bypass then x.stSize else sq[sqHead].size,
                     if bypass then x.stData else sq[sqHead].data);
    }

    method UpdateEntries(ghost q: Queues, x: In, o: Offer, resp: bool, slot: nat)
      requires q.Shape() && x.Ok(q) && lq == q.lq && sq == q.sq && o == OfferOf(q, x)
      requires var f := Found(q, x.robHead, 0);
               resp == (f < q.lqCnt) && (resp ==> slot == Wrap(q.lqHead + f, |q.lq|))
      modifies this`lq, this`sq
      ensures lq == LqArray(q, x) && sq == SqArray(q, x)
    {
      Enter(q, x, o);
      if x.stValid { sq := sq[x.stIdx := SqEntry(sq[x.stIdx].rob, true, x.stAddr, x.stSize, x.stData)]; }
      if x.ldValid { lq := lq[x.ldIdx := LqEntry(lq[x.ldIdx].rob, true, x.ldAddr, x.ldSize, x.ldSigned, false)]; }
      if resp && !x.squashAll {
        lq := lq[slot := lq[slot].(resolved := true)];
      }
    }

    /** The outputs of the cycle. */
    method Drive(x: In, rdData: nat) returns (o: Offer, load: LoadPort, write: Write)
      requires View().Shape() && x.Ok(View())
      ensures o == OfferOf(View(), x)
      ensures load == LoadOut(View(), x.robHead, rdData)
      ensures write == WritePort(View(), x)
    {
      o := Announce(x);
      load := DriveLoad(x.robHead, rdData);
      write := DriveStore(x);
    }

    /** The pointers after the edge, from the registers of before it. */
    method Move(ghost q: Queues, x: In, o: Offer)
      requires q == View() && q.Shape() && x.Ok(q) && o == OfferOf(q, x)
      modifies this`lqHead, this`lqTail, this`lqCnt, this`sqHead, this`sqTail, this`sqCnt
      ensures Ptrs(lqHead, lqTail, lqCnt) == LqPtrs(q, x) && Ptrs(sqHead, sqTail, sqCnt) == SqPtrs(q, x)
    {
      var lqKeep, sqKeep := KeepCounts(x.robHead, x.squashRob);
      var lqAlloc, sqAlloc := Allocated(x, o);
      Room(q, x);
      MoveLoads(x, lqKeep, lqAlloc);
      MoveStores(x, sqKeep, sqAlloc);
    }

    /** The registers after the edge. */
    method Update(x: In, o: Offer, resp: bool, slot: nat)
      requires View().Shape() && x.Ok(View()) && o == OfferOf(View(), x)
      requires var f := Found(View(), x.robHead, 0);
               resp == (f < lqCnt) && (resp ==> slot == Wrap(lqHead + f, |lq|))
      modifies this
      ensures View() == Next(old(View()), x)
    {
      ghost var q := View();
      Move(q, x, o);
      UpdateEntries(q, x, o, resp, slot);
    }

    /** One clock edge: the offer to dispatch, the load and store ports, then the
        registers. */
    method Clock(x: In, rdData: nat) returns (o: Offer, load: LoadPort, write: Write)
      requires View().Shape() && x.Ok(View())
      modifies this
      ensures View() == Next(old(View()), x)
      ensures o == OfferOf(old(View()), x)
      ensures load == LoadOut(old(View()), x.robHead, rdData)
      ensures write == WritePort(old(View()), x)
    {
      o, load, write := Drive(x, rdData);
      Update(x, o, load.valid, load.idx);
    }

    method MoveLoads(x: In, keep: nat, alloc: nat)
      requires lqHead < |lq| && keep <= lqCnt && lqCnt + alloc <= |lq|
      modifies this`lqHead, this`lqTail, this`lqCnt
      ensures Ptrs(lqHead, lqTail, lqCnt)
           == if x.squashAll then Ptrs(0, 0, 0)
              else PtrsNext(old(lqHead), if x.squashValid then keep else old(lqCnt), x.commitLoad, alloc, |lq|)
    {
      if x.squashAll {
        lqHead, lqTail, lqCnt := 0, 0, 0;
      } else {
        var base := if x.squashValid then keep else lqCnt;
        var pop := x.commitLoad && base != 0;
        var head := if pop then Wrap(lqHead + 1, |lq|) else lqHead;
        var cnt := base - (if pop then 1 else 0) + alloc;
        lqHead, lqTail, lqCnt := head, Wrap(head + cnt, |lq|), cnt;
      }
    }

    method MoveStores(x: In, keep: nat, alloc: nat)
      requires sqHead < |sq| && keep <= sqCnt && sqCnt + alloc <= |sq|
      modifies this`sqHead, this`sqTail, this`sqCnt
      ensures Ptrs(sqHead, sqTail, sqCnt)
           == if x.squashAll then Ptrs(0, 0, 0)
              else PtrsNext(old(sqHead), if x.squashValid then keep else old(sqCnt), x.commitStore, alloc, |sq|)
    {
      if x.squashAll {
        sqHead, sqTail, sqCnt := 0, 0, 0;
      } else {
        var base := if x.squashValid then keep else sqCnt;
        var pop := x.commitStore && base != 0;
        var head := if pop then Wrap(sqHead + 1, |sq|) else sqHead;
        var cnt := base - (if pop then 1 else 0) + alloc;
        sqHead, sqTail, sqCnt := head, Wrap(head + cnt, |sq|), cnt;
      }
    }

    method Allocated(x: In, o: Offer) returns (loads: nat, stores: nat)
      requires View().Shape() && o == OfferOf(View(), x)
      ensures loads == NAlloc(View(), x, true) && stores == NAlloc(View(), x, false)
    {
      loads, stores := 0, 0;
      if x.disp0.valid && o.ready0 {
        if x.disp0.isLoad { loads := loads + 1; } else { stores := stores + 1; }
      }
      if x.disp1.valid && o.ready1 {
        if x.disp1.isLoad { loads := loads + 1; } else { stores := stores + 1; }
      }
    }
  }
}
