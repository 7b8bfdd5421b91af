/** The queue's golden model (sim/lsq/lsq_model.h) and how far the hardware
    agrees with it, cycle by cycle. */
module LsqGolden {
  import opened Bytes
  import opened ByteMemory
  import opened Ring
  import opened Lsq
  import opened LsqAbs
  import opened LsqSearch
  import opened LsqProof
  import opened LsqLive

  // ---------------------------------------------------------------- the expected value

  /** The model's look at one store: it takes every store's address as known. */
  function GoldLook(r: Seen, l: LqEntry, s: SqEntry, head: nat, span: nat): Seen
    requires l.size < 4 && s.size < 4 && l.rob < span && s.rob < span && head < span
  {
    if Age(s.rob, head, span) < Age(l.rob, head, span) && Overlaps(l, s)
       && (!r.any || Age(s.rob, head, span) > r.age) then
      Seen(false, true, Covers(l, s), Age(s.rob, head, span), if Covers(l, s) then s else r.from)
    else r
  }

  function GoldSearch(l: LqEntry, ss: seq<SqEntry>, head: nat, span: nat): Seen
    requires l.size < 4 && l.rob < span && head < span
    requires forall j :: 0 <= j < |ss| ==> ss[j].size < 4 && ss[j].rob < span
  {
    if ss == [] then Seen(false, false, false, 0, SqEntry(0, false, 0, 0, 0))
    else GoldLook(GoldSearch(l, ss[..|ss| - 1], head, span), l, ss[|ss| - 1], head, span)
  }

  function Expected(l: LqEntry, ss: seq<SqEntry>, head: nat, span: nat, mem: Mem): nat
    requires l.size < 4 && l.rob < span && head < span
    requires forall j :: 0 <= j < |ss| ==> ss[j].size < 4 && ss[j].rob < span
  {
    var r := GoldSearch(l, ss, head, span);
    if r.any && r.full then Forward(l, r.from) else LoadValue(mem, l.addr, l.size, l.sgn)
  }

  /** Once every older store has its address, both searches see the same. */
  lemma {:induction false} SearchesAgree(l: LqEntry, ss: seq<SqEntry>, head: nat, span: nat)
    requires l.size < 4 && l.rob < span && head < span
    requires forall j :: 0 <= j < |ss| ==> ss[j].size < 4 && ss[j].rob < span
    requires !Search(l, ss, head, span).blocked
    ensures GoldSearch(l, ss, head, span) == Search(l, ss, head, span)
  {
    if ss != [] {
      SearchesAgree(l, ss[..|ss| - 1], head, span);
    }
  }

  /** Whenever the hardware answers a load, it answers what the model expects. */
  lemma AnswerIsExpected(x: Sys, i: In, e: Env)
    requires Inv(x) && EnvOk(x, i, e)
    ensures var f := Found(x.q, i.robHead, 0);
            f < x.q.lqCnt ==>
              Answer(x.q, i.robHead, f, e.rdData)
              == Expected(x.q.Loads()[f], x.q.Stores(), i.robHead, x.q.span, x.a.mem)
  {
    var f := Found(x.q, i.robHead, 0);
    if f < x.q.lqCnt {
      var l := x.q.Loads()[f];
      SearchesAgree(l, x.q.Stores(), i.robHead, x.q.span);
      ExtendLow(e.rdData, l.size, l.sgn);
    }
  }

  // ---------------------------------------------------------------- the model's cycle

  function NewLoad(rob: nat): LqEntry { LqEntry(rob, false, 0, 0, false, false) }

  function NewStore(rob: nat): SqEntry { SqEntry(rob, false, 0, 0, 0) }

  function GEnter(q: Queues, load: bool, rob: nat, at: nat): (r: Queues)
    requires at < if load then |q.lq| else |q.sq|
    requires q.lqTail < |q.lq| && q.sqTail < |q.sq|
    ensures r.lqTail < |r.lq| && r.sqTail < |r.sq| && |r.lq| == |q.lq| && |r.sq| == |q.sq|
  {
    if load then q.(lq := q.lq[at := NewLoad(rob)],
                    lqTail := Wrap(q.lqTail + 1, |q.lq|), lqCnt := q.lqCnt + 1)
    else q.(sq := q.sq[at := NewStore(rob)],
            sqTail := Wrap(q.sqTail + 1, |q.sq|), sqCnt := q.sqCnt + 1)
  }

  function GDispatch(q: Queues, x: In): (r: Queues)
    requires q.Shape()
    ensures |r.lq| == |q.lq| && |r.sq| == |q.sq| && r.span == q.span
  {
    var q0 := if x.disp0.valid && Ready0(q, x)
              then GEnter(q, x.disp0.isLoad, x.disp0.rob, if x.disp0.isLoad then q.lqTail else q.sqTail) else q;
    if x.disp1.valid && Ready1(q, x)
    then GEnter(q0, x.disp1.isLoad, x.disp1.rob, if x.disp1.isLoad then LqAt1(q, x) else SqAt1(q, x)) else q0
  }

  function GArrive(q: Queues, x: In): (r: Queues)
    requires x.stIdx < |q.sq| && x.ldIdx < |q.lq|
    ensures |r.lq| == |q.lq| && |r.sq| == |q.sq| && r.span == q.span
  {
    var q0 := if x.stValid
              then q.(sq := q.sq[x.stIdx := SqEntry(q.sq[x.stIdx].rob, true, x.stAddr, x.stSize, x.stData)]) else q;
    if x.ldValid
    then q0.(lq := q.lq[x.ldIdx := LqEntry(q.lq[x.ldIdx].rob, true, x.ldAddr, x.ldSize, x.ldSigned,
                                           q.lq[x.ldIdx].resolved)])
    else q0
  }

  function GCommit(q: Queues, x: In): (r: Queues)
    requires q.lqHead < |q.lq| && q.sqHead < |q.sq|
    ensures r.lq == q.lq && r.sq == q.sq && r.span == q.span
  {
    var s := x.commitStore && q.sqCnt != 0;
    var l := x.commitLoad && q.lqCnt != 0;
    q.(sqHead := if s then Wrap(q.sqHead + 1, |q.sq|) else q.sqHead, sqCnt := if s then q.sqCnt - 1 else q.sqCnt,
       lqHead := if l then Wrap(q.lqHead + 1, |q.lq|) else q.lqHead, lqCnt := if l then q.lqCnt - 1 else q.lqCnt)
  }

  function GSquash(q: Queues, x: In): (r: Queues)
    requires q.Shape() && x.robHead < q.span && x.squashRob < q.span
  {
    if x.squashAll then q.(lqHead := 0, lqTail := 0, lqCnt := 0, sqHead := 0, sqTail := 0, sqCnt := 0)
    else if x.squashValid then
      var l := Kept(LoadRobs(q.Loads()), x.robHead, x.squashRob, q.span);
      var s := Kept(StoreRobs(q.Stores()), x.robHead, x.squashRob, q.span);
      q.(lqCnt := l, lqTail := Wrap(q.lqHead + l, |q.lq|), sqCnt := s, sqTail := Wrap(q.sqHead + s, |q.sq|))
    else q
  }

  /** Each stage leaves registers the next one can start from. */
  lemma GShapes(q: Queues, x: In)
    requires q.Shape() && x.Ok(q)
    ensures GDispatch(q, x).Shape()
    ensures GArrive(GDispatch(q, x), x).Shape()
    ensures GCommit(GArrive(GDispatch(q, x), x), x).Shape()
  {
    DispatchShape(q, x);
    ArriveShape(GDispatch(q, x), x);
    CommitShape(GArrive(GDispatch(q, x), x), x);
  }

  lemma EnterShape(q: Queues, load: bool, rob: nat)
    requires q.Shape() && rob < q.span && if load then q.lqCnt < |q.lq| else q.sqCnt < |q.sq|
    ensures GEnter(q, load, rob, if load then q.lqTail else q.sqTail).Shape()
  {
  }

  lemma DispatchShape(q: Queues, x: In)
    requires q.Shape() && x.Ok(q)
    ensures GDispatch(q, x).Shape()
  {
    if x.disp0.valid && Ready0(q, x) { EnterShape(q, x.disp0.isLoad, x.disp0.rob); }
    var q0 := if x.disp0.valid && Ready0(q, x)
              then GEnter(q, x.disp0.isLoad, x.disp0.rob, if x.disp0.isLoad then q.lqTail else q.sqTail) else q;
    if x.disp1.valid && Ready1(q, x) { EnterShape(q0, x.disp1.isLoad, x.disp1.rob); }
  }

  lemma ArriveShape(q: Queues, x: In)
    requires q.Shape() && x.Ok(q)
    ensures GArrive(q, x).Shape()
  {
  }

  lemma CommitShape(q: Queues, x: In)
    requires q.Shape()
    ensures GCommit(q, x).Shape()
  {
  }

  function GNext(q: Queues, x: In): (r: Queues)
    requires q.Shape() && x.Ok(q)
    ensures |r.lq| == |q.lq| && |r.sq| == |q.sq| && r.span == q.span
  {
    GShapes(q, x);
    GSquash(GCommit(GArrive(GDispatch(q, x), x), x), x)
  }

  // ---------------------------------------------------------------- entries

  predicate LoadMirrors(a: LqEntry, b: LqEntry) {
    && a.rob == b.rob && a.addrV == b.addrV
    && (a.addrV ==> a.addr == b.addr && a.size == b.size && a.sgn == b.sgn)
  }

  predicate StoreMirrors(a: SqEntry, b: SqEntry) {
    && a.rob == b.rob && a.addrV == b.addrV
    && (a.addrV ==> a.addr == b.addr && a.size == b.size && a.data == b.data)
  }

  predicate EntriesMirror(l: seq<LqEntry>, s: seq<SqEntry>, gl: seq<LqEntry>, gs: seq<SqEntry>) {
    && |l| == |gl| && |s| == |gs|
    && (forall k :: 0 <= k < |l| ==> LoadMirrors(l[k], gl[k]))
    && (forall k :: 0 <= k < |s| ==> StoreMirrors(s[k], gs[k]))
  }

  /** The model shows the same registers; whether a load was answered and the
      fields of entries without an address are not part of it. */
  predicate Mirrors(q: Queues, g: Queues) {
    && q.span == g.span && q.lqHead == g.lqHead && q.lqTail == g.lqTail && q.lqCnt == g.lqCnt
    && q.sqHead == g.sqHead && q.sqTail == g.sqTail && q.sqCnt == g.sqCnt
    && EntriesMirror(q.lq, q.sq, g.lq, g.sq)
  }

  /** The arrays the model has after dispatch, as the hardware's are written. */
  lemma GDispatchArrays(g: Queues, x: In)
    requires g.Shape()
    ensures var l0 := if Takes0(g, x, true) then g.lq[g.lqTail := NewLoad(x.disp0.rob)] else g.lq;
            GDispatch(g, x).lq == if Takes1(g, x, true) then l0[LqAt1(g, x) := NewLoad(x.disp1.rob)] else l0
    ensures var s0 := if Takes0(g, x, false) then g.sq[g.sqTail := NewStore(x.disp0.rob)] else g.sq;
            GDispatch(g, x).sq == if Takes1(g, x, false) then s0[SqAt1(g, x) := NewStore(x.disp1.rob)] else s0
  {
  }

  lemma DispatchMirrorsLoad(q: Queues, g: Queues, x: In, k: nat)
    requires q.Shape() && g.Shape() && Mirrors(q, g) && k < |q.lq|
    ensures LoadMirrors(LqDispatched(q, x)[k], GDispatch(g, x).lq[k])
  {
    GDispatchArrays(g, x);
  }

  lemma DispatchMirrorsStore(q: Queues, g: Queues, x: In, k: nat)
    requires q.Shape() && g.Shape() && Mirrors(q, g) && k < |q.sq|
    ensures StoreMirrors(SqDispatched(q, x)[k], GDispatch(g, x).sq[k])
  {
    GDispatchArrays(g, x);
  }

  lemma DispatchMirrors(q: Queues, g: Queues, x: In)
    requires q.Shape() && g.Shape() && Mirrors(q, g)
    ensures EntriesMirror(LqDispatched(q, x), SqDispatched(q, x), GDispatch(g, x).lq, GDispatch(g, x).sq)
  {
    forall k | 0 <= k < |q.lq|
      ensures LoadMirrors(LqDispatched(q, x)[k], GDispatch(g, x).lq[k])
    {
      DispatchMirrorsLoad(q, g, x, k);
    }
    forall k | 0 <= k < |q.sq|
      ensures StoreMirrors(SqDispatched(q, x)[k], GDispatch(g, x).sq[k])
    {
      DispatchMirrorsStore(q, g, x, k);
    }
  }

  lemma ArriveMirrors(l: seq<LqEntry>, s: seq<SqEntry>, g: Queues, x: In)
    requires EntriesMirror(l, s, g.lq, g.sq) && x.ldIdx < |l| && x.stIdx < |s|
    ensures EntriesMirror(
      if x.ldValid then l[x.ldIdx := LqEntry(l[x.ldIdx].rob, true, x.ldAddr, x.ldSize, x.ldSigned, false)] else l,
      if x.stValid then s[x.stIdx := SqEntry(s[x.stIdx].rob, true, x.stAddr, x.stSize, x.stData)] else s,
      GArrive(g, x).lq, GArrive(g, x).sq)
  {
  }

  lemma NextMirrors(q: Queues, g: Queues, x: In)
    requires q.Shape() && g.Shape() && Mirrors(q, g) && x.Ok(q) && x.Ok(g)
    ensures EntriesMirror(Next(q, x).lq, Next(q, x).sq, GNext(g, x).lq, GNext(g, x).sq)
  {
    DispatchMirrors(q, g, x);
    var d := GDispatch(g, x);
    ArriveMirrors(LqDispatched(q, x), SqDispatched(q, x), d, x);
    ResolvedMirrors(q, x, GArrive(d, x).lq);
  }

  lemma ResolvedMirrors(q: Queues, x: In, gl: seq<LqEntry>)
    requires q.Shape() && x.Ok(q) && |gl| == |q.lq|
    requires forall k :: 0 <= k < |gl| ==> LoadMirrors(LqArrived(q, x)[k], gl[k])
    ensures forall k :: 0 <= k < |gl| ==> LoadMirrors(LqArray(q, x)[k], gl[k])
  {
  }

  // ---------------------------------------------------------------- pointers

  predicate Keeps(rob: nat, x: In, span: nat)
    requires rob < span && x.robHead < span && x.squashRob < span
  {
    Age(rob, x.robHead, span) <= Age(x.squashRob, x.robHead, span)
  }

  lemma {:induction false} KeptFront(robs: seq<nat>, head: nat, point: nat, span: nat)
    requires head < span && point < span && robs != [] && Below(robs, span)
    ensures Kept(robs, head, point, span)
         == Kept(robs[1..], head, point, span) + if Age(robs[0], head, span) <= Age(point, head, span) then 1 else 0
  {
    var n := |robs| - 1;
    if n == 0 {
      assert robs[1..] == [] && robs[..0] == [];
    } else {
      KeptFront(robs[..n], head, point, span);
      assert robs[..n][1..] == robs[1..][..n - 1];
    }
  }

  /** A queue as the pointers see it: the indices of its live entries, its head,
      and what a cycle does to it. */
  datatype Lane = Lane(robs: seq<nat>, head: nat, depth: nat, commit: bool, alloc: nat) {
    predicate Ok(x: In, span: nat) {
      && head < depth && |robs| + alloc <= depth && (Squashing(x) ==> alloc == 0)
      && x.robHead < span && x.squashRob < span && Below(robs, span)
    }
  }

  function LoadLane(q: Queues, x: In): Lane
    requires q.Shape()
  {
    Lane(LoadRobs(q.Loads()), q.lqHead, |q.lq|, x.commitLoad, NAlloc(q, x, true))
  }

  function StoreLane(q: Queues, x: In): Lane
    requires q.Shape()
  {
    Lane(StoreRobs(q.Stores()), q.sqHead, |q.sq|, x.commitStore, NAlloc(q, x, false))
  }

  lemma LanesOk(q: Queues, x: In)
    requires q.Shape() && x.Ok(q)
    ensures LoadLane(q, x).Ok(x, q.span) && StoreLane(q, x).Ok(x, q.span)
  {
    Room(q, x);
    RobsAre(q);
  }

  /** When the pointers of a queue agree with the model after the cycle: what
      commits is in the queue, and survives a squash of the same cycle. */
  predicate InStep(n: Lane, x: In, span: nat)
    requires n.Ok(x, span)
  {
    if x.squashAll || !n.commit then true
    else if x.squashValid then
      n.robs != [] ==> Keeps(n.robs[0], x, span) || (n.depth == 1 && Kept(n.robs, x.robHead, x.squashRob, span) == 0)
    else n.robs != [] || n.alloc == 0
  }

  predicate LoadsInStep(q: Queues, x: In)
    requires q.Shape() && x.Ok(q)
  {
    LanesOk(q, x);
    InStep(LoadLane(q, x), x, q.span)
  }

  predicate StoresInStep(q: Queues, x: In)
    requires q.Shape() && x.Ok(q)
  {
    LanesOk(q, x);
    InStep(StoreLane(q, x), x, q.span)
  }

  /** The hardware counts survivors, then pops. */
  function HardPtrs(n: Lane, x: In, span: nat): Ptrs
    requires n.Ok(x, span)
  {
    if x.squashAll then Ptrs(0, 0, 0)
    else PtrsNext(n.head, if x.squashValid then Kept(n.robs, x.robHead, x.squashRob, span) else |n.robs|,
                  n.commit, n.alloc, n.depth)
  }

  predicate Pops1(n: Lane) { n.commit && n.robs != [] }

  /** What the model's pop leaves. */
  function Popped(n: Lane): seq<nat> {
    if Pops1(n) then n.robs[1..] else n.robs
  }

  /** The model pops, then counts survivors. */
  function GoldPtrs(n: Lane, x: In, span: nat): Ptrs
    requires n.Ok(x, span)
  {
    var pop := n.commit && |n.robs| + n.alloc > 0;
    var h := if pop then Wrap(n.head + 1, n.depth) else n.head;
    if x.squashAll then Ptrs(0, 0, 0)
    else if x.squashValid then
      var k := Kept(Popped(n), x.robHead, x.squashRob, span);
      Ptrs(h, Wrap(h + k, n.depth), k)
    else
      var c := |n.robs| + n.alloc - if pop then 1 else 0;
      Ptrs(h, Wrap(h + c, n.depth), c)
  }

  /** Counting survivors before the pop or after it comes to the same pointers
      exactly when what commits is in the queue and survives. */
  lemma PointersIff(n: Lane, x: In, span: nat)
    requires n.Ok(x, span)
    ensures HardPtrs(n, x, span) == GoldPtrs(n, x, span) <==> InStep(n, x, span)
  {
    if x.squashValid && Pops1(n) {
      KeptFront(n.robs, x.robHead, x.squashRob, span);
    }
  }

  function LoadPtrs(g: Queues): Ptrs { Ptrs(g.lqHead, g.lqTail, g.lqCnt) }

  function StorePtrs(g: Queues): Ptrs { Ptrs(g.sqHead, g.sqTail, g.sqCnt) }

  lemma DispatchCounts(q: Queues, x: In)
    requires q.Shape()
    ensures var d := GDispatch(q, x);
            && d.lqHead == q.lqHead && d.lqCnt == q.lqCnt + NAlloc(q, x, true)
            && d.sqHead == q.sqHead && d.sqCnt == q.sqCnt + NAlloc(q, x, false)
            && (Squashing(x) ==> d == q)
  {
  }

  /** An arrival changes no index. */
  lemma ArrivedRobs(q: Queues, x: In)
    requires q.Shape() && x.Ok(q)
    ensures LoadRobs(Window(GArrive(q, x).lq, q.lqHead, q.lqCnt)) == LoadRobs(q.Loads())
    ensures StoreRobs(Window(GArrive(q, x).sq, q.sqHead, q.sqCnt)) == StoreRobs(q.Stores())
  {
  }

  lemma PopLoadRobs(b: seq<LqEntry>, head: nat, n: nat, robs: seq<nat>, pop: bool, head': nat, n': nat)
    requires head < |b| && n <= |b| && (pop ==> n > 0) && LoadRobs(Window(b, head, n)) == robs
    requires head' == (if pop then Wrap(head + 1, |b|) else head) && n' == if pop then n - 1 else n
    ensures |robs| == n && LoadRobs(Window(b, head', n')) == if pop then robs[1..] else robs
  {
    if pop { WindowPop(b, head, n); }
  }

  lemma PopStoreRobs(b: seq<SqEntry>, head: nat, n: nat, robs: seq<nat>, pop: bool, head': nat, n': nat)
    requires head < |b| && n <= |b| && (pop ==> n > 0) && StoreRobs(Window(b, head, n)) == robs
    requires head' == (if pop then Wrap(head + 1, |b|) else head) && n' == if pop then n - 1 else n
    ensures |robs| == n && StoreRobs(Window(b, head', n')) == if pop then robs[1..] else robs
  {
    if pop { WindowPop(b, head, n); }
  }

  /** The model's registers after arrival and commit. */
  lemma CommitRegisters(q: Queues, x: In)
    requires q.Shape() && x.Ok(q)
    ensures var c := GCommit(GArrive(q, x), x);
            var pl, ps := x.commitLoad && q.lqCnt > 0, x.commitStore && q.sqCnt > 0;
            && c.span == q.span && c.lq == GArrive(q, x).lq && c.sq == GArrive(q, x).sq
            && c.lqHead == (if pl then Wrap(q.lqHead + 1, |q.lq|) else q.lqHead) && c.lqTail == q.lqTail
            && c.lqCnt == (if pl then q.lqCnt - 1 else q.lqCnt)
            && c.sqHead == (if ps then Wrap(q.sqHead + 1, |q.sq|) else q.sqHead) && c.sqTail == q.sqTail
            && c.sqCnt == (if ps then q.sqCnt - 1 else q.sqCnt)
  {
  }

  lemma CommittedShape(q: Queues, x: In)
    requires q.Shape() && x.Ok(q)
    ensures GCommit(GArrive(q, x), x).Shape()
  {
    ArriveShape(q, x);
    CommitShape(GArrive(q, x), x);
  }

  lemma CommittedLoads(q: Queues, c: Queues, x: In)
    requires q.Shape() && x.Ok(q) && c.lq == GArrive(q, x).lq
    requires c.lqHead == if x.commitLoad && q.lqCnt > 0 then Wrap(q.lqHead + 1, |q.lq|) else q.lqHead
    requires c.lqCnt == if x.commitLoad && q.lqCnt > 0 then q.lqCnt - 1 else q.lqCnt
    ensures LoadRobs(Window(c.lq, c.lqHead, c.lqCnt)) == Popped(LoadLane(q, x))
  {
    ArrivedRobs(q, x);
    PopLoadRobs(c.lq, q.lqHead, q.lqCnt, LoadRobs(q.Loads()), x.commitLoad && q.lqCnt > 0, c.lqHead, c.lqCnt);
  }

  lemma CommittedStores(q: Queues, c: Queues, x: In)
    requires q.Shape() && x.Ok(q) && c.sq == GArrive(q, x).sq
    requires c.sqHead == if x.commitStore && q.sqCnt > 0 then Wrap(q.sqHead + 1, |q.sq|) else q.sqHead
    requires c.sqCnt == if x.commitStore && q.sqCnt > 0 then q.sqCnt - 1 else q.sqCnt
    ensures StoreRobs(Window(c.sq, c.sqHead, c.sqCnt)) == Popped(StoreLane(q, x))
  {
    ArrivedRobs(q, x);
    PopStoreRobs(c.sq, q.sqHead, q.sqCnt, StoreRobs(q.Stores()), x.commitStore && q.sqCnt > 0, c.sqHead, c.sqCnt);
  }

  lemma SquashingStages(q: Queues, x: In)
    requires q.Shape() && x.Ok(q) && Squashing(x)
    ensures GCommit(GArrive(q, x), x).Shape()
    ensures GNext(q, x) == GSquash(GCommit(GArrive(q, x), x), x)
  {
    DispatchCounts(q, x);
    CommittedShape(q, x);
  }

  lemma RunningPtrs(q: Queues, x: In)
    requires q.Shape() && x.Ok(q) && !Squashing(x) && LoadLane(q, x).Ok(x, q.span) && StoreLane(q, x).Ok(x, q.span)
    ensures LoadPtrs(GNext(q, x)) == GoldPtrs(LoadLane(q, x), x, q.span)
    ensures StorePtrs(GNext(q, x)) == GoldPtrs(StoreLane(q, x), x, q.span)
  {
    DispatchCounts(q, x);
    DispatchShape(q, x);
    CommitRegisters(GDispatch(q, x), x);
  }

  lemma SquashLoadPtrs(q: Queues, c: Queues, x: In)
    requires q.Shape() && x.Ok(q) && Squashing(x) && LoadLane(q, x).Ok(x, q.span)
    requires c.Shape() && c.span == q.span && |c.lq| == |q.lq|
    requires c.lqHead == if x.commitLoad && q.lqCnt > 0 then Wrap(q.lqHead + 1, |q.lq|) else q.lqHead
    requires LoadRobs(c.Loads()) == Popped(LoadLane(q, x))
    ensures LoadPtrs(GSquash(c, x)) == GoldPtrs(LoadLane(q, x), x, q.span)
  {
  }

  lemma SquashStorePtrs(q: Queues, c: Queues, x: In)
    requires q.Shape() && x.Ok(q) && Squashing(x) && StoreLane(q, x).Ok(x, q.span)
    requires c.Shape() && c.span == q.span && |c.sq| == |q.sq|
    requires c.sqHead == if x.commitStore && q.sqCnt > 0 then Wrap(q.sqHead + 1, |q.sq|) else q.sqHead
    requires StoreRobs(c.Stores()) == Popped(StoreLane(q, x))
    ensures StorePtrs(GSquash(c, x)) == GoldPtrs(StoreLane(q, x), x, q.span)
  {
  }

  lemma SquashedPtrs(q: Queues, x: In)
    requires q.Shape() && x.Ok(q) && Squashing(x) && LoadLane(q, x).Ok(x, q.span) && StoreLane(q, x).Ok(x, q.span)
    ensures LoadPtrs(GNext(q, x)) == GoldPtrs(LoadLane(q, x), x, q.span)
    ensures StorePtrs(GNext(q, x)) == GoldPtrs(StoreLane(q, x), x, q.span)
  {
    SquashingStages(q, x);
    CommitRegisters(q, x);
    CommittedLoads(q, GCommit(GArrive(q, x), x), x);
    CommittedStores(q, GCommit(GArrive(q, x), x), x);
    SquashLoadPtrs(q, GCommit(GArrive(q, x), x), x);
    SquashStorePtrs(q, GCommit(GArrive(q, x), x), x);
  }

  /** The pointers of both machines, queue by queue. */
  lemma LanePtrs(q: Queues, x: In)
    requires q.Shape() && x.Ok(q)
    ensures LoadLane(q, x).Ok(x, q.span) && StoreLane(q, x).Ok(x, q.span)
    ensures LqPtrs(q, x) == HardPtrs(LoadLane(q, x), x, q.span) && SqPtrs(q, x) == HardPtrs(StoreLane(q, x), x, q.span)
    ensures LoadPtrs(GNext(q, x)) == GoldPtrs(LoadLane(q, x), x, q.span)
    ensures StorePtrs(GNext(q, x)) == GoldPtrs(StoreLane(q, x), x, q.span)
  {
    LanesOk(q, x);
    if Squashing(x) { SquashedPtrs(q, x); } else { RunningPtrs(q, x); }
  }

  /** The hardware's load pointers and the model's agree after the cycle exactly
      when what commits is in the queue and survives a squash of that cycle. */
  lemma LoadPointersAgree(q: Queues, x: In)
    requires q.Shape() && x.Ok(q)
    ensures LqPtrs(q, x) == LoadPtrs(GNext(q, x)) <==> LoadsInStep(q, x)
  {
    LanePtrs(q, x);
    PointersIff(LoadLane(q, x), x, q.span);
  }

  lemma StorePointersAgree(q: Queues, x: In)
    requires q.Shape() && x.Ok(q)
    ensures SqPtrs(q, x) == StorePtrs(GNext(q, x)) <==> StoresInStep(q, x)
  {
    LanePtrs(q, x);
    PointersIff(StoreLane(q, x), x, q.span);
  }

  /** They do part: a load that commits in the cycle that squashes it is popped by
      the model and merely dropped by the hardware. */
  lemma SquashedCommitDiffers() returns (q: Queues, x: In)
    ensures q.Shape() && x.Ok(q) && x.commitLoad && x.squashValid && q.lqCnt == 1
    ensures LqPtrs(q, x) != LoadPtrs(GNext(q, x))
    ensures SqPtrs(q, x) != StorePtrs(GNext(q, x))
  {
    q := Queues(8, seq(2, i => LqEntry(5, true, 0, 0, false, true)), 0, 1, 1,
                seq(2, i => SqEntry(6, true, 0, 0, 0)), 0, 1, 1);
    var none := Disp(false, false, 0);
    x := In(0, none, none, false, 0, 0, 0, 0, false, 0, 0, 0, false, true, true, true, 2, false);
    LoadPointersAgree(q, x);
    StorePointersAgree(q, x);
  }

  // ---------------------------------------------------------------- cycle by cycle

  lemma LanesMirror(q: Queues, g: Queues, x: In)
    requires q.Shape() && g.Shape() && Mirrors(q, g) && x.Ok(q) && x.Ok(g)
    ensures LoadLane(q, x) == LoadLane(g, x) && StoreLane(q, x) == StoreLane(g, x)
  {
    LaneRobsMirror(q, g);
  }

  lemma LaneRobsMirror(q: Queues, g: Queues)
    requires q.Shape() && g.Shape() && Mirrors(q, g)
    ensures LoadRobs(q.Loads()) == LoadRobs(g.Loads()) && StoreRobs(q.Stores()) == StoreRobs(g.Stores())
  {
  }

  lemma MirrorsByPointers(q: Queues, g: Queues)
    requires q.span == g.span && EntriesMirror(q.lq, q.sq, g.lq, g.sq)
    ensures Mirrors(q, g) <==> LoadPtrs(q) == LoadPtrs(g) && StorePtrs(q) == StorePtrs(g)
  {
  }

  /** One cycle keeps hardware and model alike exactly when whatever commits is in
      its queue and survives a squash of the same cycle. */
  lemma CycleAgrees(q: Queues, g: Queues, x: In)
    requires q.Shape() && g.Shape() && Mirrors(q, g) && x.Ok(q) && x.Ok(g)
    ensures Mirrors(Next(q, x), GNext(g, x)) <==> LoadsInStep(q, x) && StoresInStep(q, x)
  {
    NextMirrors(q, g, x);
    MirrorsByPointers(Next(q, x), GNext(g, x));
    LanesMirror(q, g, x);
    LanePtrs(q, x);
    LanePtrs(g, x);
    PointersIff(LoadLane(q, x), x, q.span);
    PointersIff(StoreLane(q, x), x, q.span);
  }

  /** The commit rule of the core gives exactly that. */
  lemma CommitsInStep(x: Sys, i: In, e: Env)
    requires Inv(x) && EnvOk(x, i, e)
    ensures LoadsInStep(x.q, i) && StoresInStep(x.q, i)
  {
    LoadIndices(x, i, e);
    StoreIndices(x, i, e);
    if i.squashValid && i.commitLoad {
      AgeIsDistance(LoadIds(x.a.loads)[0], e.base, x.q.span);
      AgeIsDistance(e.point, e.base, x.q.span);
    }
    if i.squashValid && i.commitStore {
      AgeIsDistance(StoreIds(x.a.stores)[0], e.base, x.q.span);
      AgeIsDistance(e.point, e.base, x.q.span);
    }
  }

  lemma SquashShape(c: Queues, x: In)
    requires c.Shape() && x.robHead < c.span && x.squashRob < c.span
    ensures GSquash(c, x).Shape()
  {
  }

  lemma GNextShape(g: Queues, x: In)
    requires g.Shape() && x.Ok(g)
    ensures GNext(g, x).Shape()
  {
    GShapes(g, x);
    SquashShape(GCommit(GArrive(GDispatch(g, x), x), x), x);
  }

  lemma MirrorOk(q: Queues, g: Queues, x: In)
    requires Mirrors(q, g) && x.Ok(q)
    ensures x.Ok(g)
  {
  }

  lemma LegalCycleAgrees(x: Sys, g: Queues, i: In, e: Env)
    requires Inv(x) && EnvOk(x, i, e) && g.Shape() && Mirrors(x.q, g)
    ensures i.Ok(g) && GNext(g, i).Shape() && Mirrors(Next(x.q, i), GNext(g, i))
  {
    MirrorOk(x.q, g, i);
    GNextShape(g, i);
    CycleAgrees(x.q, g, i);
    CommitsInStep(x, i, e);
  }

  lemma LegalStepAgrees(x: Sys, g: Queues, i: In, e: Env, y: Sys)
    requires Inv(x) && LegalStep(x, i, e, y) && g.Shape() && Mirrors(x.q, g)
    ensures i.Ok(g) && GNext(g, i).Shape() && Mirrors(y.q, GNext(g, i))
  {
    LegalCycleAgrees(x, g, i, e);
  }

  // ---------------------------------------------------------------- outputs

  /** The model's search on its own entries sees what it would see on the
      hardware's, once the hardware's search is not held up. */
  lemma {:induction false} GoldSearchMirrors(l: LqEntry, gl: LqEntry, ss: seq<SqEntry>, gs: seq<SqEntry>,
                                             head: nat, span: nat)
    requires l.size < 4 && l.rob < span && gl.size < 4 && gl.rob < span && head < span && |ss| == |gs|
    requires forall j :: 0 <= j < |ss| ==> ss[j].size < 4 && ss[j].rob < span && gs[j].size < 4 && gs[j].rob < span
    requires LoadMirrors(l, gl) && l.addrV && forall j :: 0 <= j < |ss| ==> StoreMirrors(ss[j], gs[j])
    requires !Search(l, ss, head, span).blocked
    ensures GoldSearch(gl, gs, head, span) == GoldSearch(l, ss, head, span)
  {
    if ss != [] {
      GoldSearchMirrors(l, gl, ss[..|ss| - 1], gs[..|gs| - 1], head, span);
    }
  }

  lemma ExpectedMirrors(q: Queues, g: Queues, head: nat, f: nat, mem: Mem)
    requires q.Shape() && g.Shape() && Mirrors(q, g) && head < q.span && f < q.lqCnt && CanAnswer(q, head, f)
    ensures g.Loads()[f] == g.lq[Wrap(q.lqHead + f, |g.lq|)] && g.Loads()[f].rob == q.Loads()[f].rob
    ensures Expected(g.Loads()[f], g.Stores(), head, g.span, mem)
         == Expected(q.Loads()[f], q.Stores(), head, q.span, mem)
  {
    GoldSearchMirrors(q.Loads()[f], g.Loads()[f], q.Stores(), g.Stores(), head, q.span);
  }

  /** What the model says leaves with a commit. */
  function PeekStore(g: Queues, commit: bool): Write
    requires g.sqHead < |g.sq|
  {
    var e := g.sq[g.sqHead];
    if g.sqCnt != 0 then Write(commit, e.addr, e.size, e.data) else Write(false, 0, 0, 0)
  }

  /** The model clears an entry that has no address yet. */
  predicate Cleared(sq: seq<SqEntry>) {
    forall k :: 0 <= k < |sq| && !sq[k].addrV ==> sq[k].addr == 0 && sq[k].size == 0 && sq[k].data == 0
  }

  lemma ClearedPut(sq: seq<SqEntry>, k: nat, e: SqEntry)
    requires Cleared(sq) && k < |sq| && (!e.addrV ==> e.addr == 0 && e.size == 0 && e.data == 0)
    ensures Cleared(sq[k := e])
  {
  }

  lemma ClearedDispatch(g: Queues, x: In)
    requires g.Shape() && Cleared(g.sq)
    ensures Cleared(GDispatch(g, x).sq)
  {
    GDispatchArrays(g, x);
    var s0 := if Takes0(g, x, false) then g.sq[g.sqTail := NewStore(x.disp0.rob)] else g.sq;
    ClearedPut(g.sq, g.sqTail, NewStore(x.disp0.rob));
    ClearedPut(s0, SqAt1(g, x), NewStore(x.disp1.rob));
  }

  lemma ClearedNext(g: Queues, x: In)
    requires g.Shape() && x.Ok(g) && Cleared(g.sq)
    ensures Cleared(GNext(g, x).sq)
  {
    var d := GDispatch(g, x);
    ClearedDispatch(g, x);
    ClearedPut(d.sq, x.stIdx, SqEntry(d.sq[x.stIdx].rob, true, x.stAddr, x.stSize, x.stData));
    assert GNext(g, x).sq == GArrive(d, x).sq;
  }

  /** The address and data of the retiring store arrive in this very cycle. */
  predicate Bypasses(q: Queues, i: In) {
    i.stValid && i.stIdx == q.sqHead
  }

  /** The write port and the model's account of it agree on whether a store
      leaves, and on which exactly when no bypass fires: the model does not know
      yet what the bypass forwards, and shows zeros. */
  lemma WritePortAgrees(x: Sys, g: Queues, i: In, e: Env)
    requires Inv(x) && EnvOk(x, i, e) && g.Shape() && Mirrors(x.q, g) && Cleared(g.sq)
    ensures WritePort(x.q, i).valid == PeekStore(g, i.commitStore).valid
    ensures i.commitStore ==>
      (WritePort(x.q, i) == PeekStore(g, i.commitStore) <==>
       (Bypasses(x.q, i) ==> i.stAddr == 0 && i.stSize == 0 && i.stData == 0))
  {
    if i.commitStore {
      assert x.q.Stores()[0] == x.q.sq[x.q.sqHead];
      assert IsStore(x.q.Stores()[0], x.a.stores[0], x.q.span);
      assert StoreMirrors(x.q.sq[x.q.sqHead], g.sq[g.sqHead]);
      assert Bypasses(x.q, i) ==> e.stAt == 0;
    }
  }

  /** All outputs of a cycle against what the model says of them. */
  ghost predicate OutputsAgree(x: Sys, g: Queues, i: In, e: Env)
    requires x.q.Shape() && g.Shape() && i.Ok(x.q) && i.Ok(g)
  {
    && OfferOf(x.q, i) == OfferOf(g, i)
    && (var p := LoadOut(x.q, i.robHead, e.rdData);
        p.valid ==>
          && p.idx < |g.lq| && p.rob == g.lq[p.idx].rob
          && p.data == Expected(g.lq[p.idx], g.Stores(), i.robHead, g.span, x.a.mem))
    && WritePort(x.q, i).valid == PeekStore(g, i.commitStore).valid
    && (i.commitStore && !Bypasses(x.q, i) ==> WritePort(x.q, i) == PeekStore(g, i.commitStore))
  }

  lemma OffersMirror(q: Queues, g: Queues, x: In)
    requires q.Shape() && g.Shape() && Mirrors(q, g)
    ensures OfferOf(q, x) == OfferOf(g, x)
  {
  }

  lemma LoadOutMirrors(q: Queues, g: Queues, head: nat, rdData: nat, mem: Mem)
    requires q.Shape() && g.Shape() && Mirrors(q, g) && head < q.span
    requires var f := Found(q, head, 0);
             f < q.lqCnt ==> Answer(q, head, f, rdData) == Expected(q.Loads()[f], q.Stores(), head, q.span, mem)
    ensures var p := LoadOut(q, head, rdData);
            p.valid ==>
              && p.idx < |g.lq| && p.rob == g.lq[p.idx].rob
              && p.data == Expected(g.lq[p.idx], g.Stores(), head, g.span, mem)
  {
    var f := Found(q, head, 0);
    if f < q.lqCnt {
      ExpectedMirrors(q, g, head, f, mem);
      assert LoadOut(q, head, rdData).idx == Wrap(q.lqHead + f, |q.lq|);
      assert LoadOut(q, head, rdData).data == Answer(q, head, f, rdData);
    }
  }

  /** The answer of a cycle is what the model expects from its own registers. */
  lemma LoadOutAgrees(x: Sys, g: Queues, i: In, e: Env)
    requires Inv(x) && EnvOk(x, i, e) && g.Shape() && Mirrors(x.q, g)
    ensures var p := LoadOut(x.q, i.robHead, e.rdData);
            p.valid ==>
              && p.idx < |g.lq| && p.rob == g.lq[p.idx].rob
              && p.data == Expected(g.lq[p.idx], g.Stores(), i.robHead, g.span, x.a.mem)
  {
    AnswerIsExpected(x, i, e);
    LoadOutMirrors(x.q, g, i.robHead, e.rdData, x.a.mem);
  }

  lemma LegalStepOutputs(x: Sys, g: Queues, i: In, e: Env, y: Sys)
    requires Inv(x) && LegalStep(x, i, e, y) && g.Shape() && Mirrors(x.q, g) && Cleared(g.sq)
    ensures x.q.Shape() && i.Ok(x.q) && i.Ok(g) && OutputsAgree(x, g, i, e)
  {
    MirrorOk(x.q, g, i);
    OffersMirror(x.q, g, i);
    WritePortAgrees(x, g, i, e);
    LoadOutAgrees(x, g, i, e);
  }

  // ---------------------------------------------------------------- whole runs

  /** The model run on the same wires. */
  ghost predicate Follows(gs: seq<Queues>, ins: seq<(In, Env)>) {
    && |gs| == |ins| + 1
    && forall c :: 0 <= c < |ins| ==> gs[c].Shape() && ins[c].0.Ok(gs[c]) ==> gs[c + 1] == GNext(gs[c], ins[c].0)
  }

  /** In every legal run hardware and model show the same registers in every
      cycle. */
  lemma {:induction false} AlwaysAgree(xs: seq<Sys>, ins: seq<(In, Env)>, gs: seq<Queues>, c: nat)
    requires Trace(xs, ins) && Inv(xs[0]) && Follows(gs, ins) && c <= |ins|
    requires gs[0].Shape() && Mirrors(xs[0].q, gs[0]) && Cleared(gs[0].sq)
    ensures gs[c].Shape() && Mirrors(xs[c].q, gs[c]) && Cleared(gs[c].sq)
    decreases c
  {
    if c > 0 {
      AlwaysAgree(xs, ins, gs, c - 1);
      TraceKeeps(xs, ins, c - 1);
      LegalStepAgrees(xs[c - 1], gs[c - 1], ins[c - 1].0, ins[c - 1].1, xs[c]);
      ClearedNext(gs[c - 1], ins[c - 1].0);
    }
  }

  /** And in every cycle the hardware offers the slots, answers the load and
      retires the store that the model expects from its own registers. */
  lemma OutputsAlwaysAgree(xs: seq<Sys>, ins: seq<(In, Env)>, gs: seq<Queues>, c: nat)
    requires Trace(xs, ins) && Inv(xs[0]) && Follows(gs, ins) && c < |ins|
    requires gs[0].Shape() && Mirrors(xs[0].q, gs[0]) && Cleared(gs[0].sq)
    ensures xs[c].q.Shape() && gs[c].Shape() && ins[c].0.Ok(xs[c].q) && ins[c].0.Ok(gs[c])
    ensures OutputsAgree(xs[c], gs[c], ins[c].0, ins[c].1)
  {
    AlwaysAgree(xs, ins, gs, c);
    TraceKeeps(xs, ins, c);
    LegalStepOutputs(xs[c], gs[c], ins[c].0, ins[c].1, xs[c + 1]);
  }
}
