/** When the cache must take a request, which way a miss takes from whom, and when
    it turns to memory. */
module L1dAccept {
  import opened Bytes
  import opened ByteMemory
  import opened Ring
  import opened Mshrs
  import opened L1d
  import opened L1dInv
  import opened L1dSteps
  import opened L1dProof
  import opened L1dResults

  // ---------------------------------------------------------------- readiness

  /** The line is in a way of its set. */
  predicate Resident(c: Cache, a: Addr)
    requires |c.slots| == 2 * SETS && a.Ok()
  {
    exists w :: 0 <= w < 2 && InWay(c, a, w)
  }

  predicate InWay(c: Cache, a: Addr, w: nat)
    requires |c.slots| == 2 * SETS && a.Ok() && w < 2
  {
    At(c.slots, a.idx, w).valid && At(c.slots, a.idx, w).tag == a.tag
  }

  /** No entry in flight fetches the line or evicts it dirty. */
  predicate Untouched(ent: seq<Entry>, a: Addr) {
    forall k :: 0 <= k < |ent| && !ent[k].st.Idle? ==> !Touches(ent[k], a)
  }

  predicate Touches(e: Entry, a: Addr) {
    (e.addr.tag == a.tag && e.addr.idx == a.idx) || (e.vdirty && e.vaddr.tag == a.tag && e.vaddr.idx == a.idx)
  }

  /** No entry in flight waits to fill this way of the set. */
  predicate Unreserved(ent: seq<Entry>, idx: nat, w: nat) {
    forall k :: 0 <= k < |ent| && !ent[k].st.Idle? ==> !(ent[k].addr.idx == idx && ent[k].way == w)
  }

  predicate SomeIdle(ent: seq<Entry>) { exists k :: 0 <= k < |ent| && ent[k].st.Idle? }

  lemma IdleFound(ent: seq<Entry>)
    ensures Lowest(ent, KFree) < |ent| <==> SomeIdle(ent)
  {
  }

  lemma UntouchedIff(ent: seq<Entry>, a: Addr)
    ensures Untouched(ent, a) <==> !Pending(ent, a)
  {
    if Pending(ent, a) {
      var k :| 0 <= k < |ent| && Claims(ent[k], a);
      assert Touches(ent[k], a);
    }
    if !Pending(ent, a) {
      forall k | 0 <= k < |ent| && !ent[k].st.Idle?
        ensures !Touches(ent[k], a)
      {
        assert !Claims(ent[k], a);
      }
    }
  }

  lemma UnreservedIff(ent: seq<Entry>, idx: nat, w: nat)
    ensures Unreserved(ent, idx, w) <==> !WayBusy(ent, idx, w)
  {
    if WayBusy(ent, idx, w) {
      var k :| 0 <= k < |ent| && Holds(ent[k], idx, w);
      assert !ent[k].st.Idle?;
    }
    if !WayBusy(ent, idx, w) {
      forall k | 0 <= k < |ent| && !ent[k].st.Idle?
        ensures !(ent[k].addr.idx == idx && ent[k].way == w)
      {
        assert !Holds(ent[k], idx, w);
      }
    }
  }

  lemma ResidentIff(c: Cache, a: Addr)
    requires |c.slots| == 2 * SETS && a.Ok()
    ensures Resident(c, a) <==> InWay(c, a, 0) || InWay(c, a, 1)
  {
    if InWay(c, a, 0) || InWay(c, a, 1) {
      var w := if InWay(c, a, 0) then 0 else 1;
      assert InWay(c, a, w);
    }
  }

  /** A request to a resident line is taken whenever at most 30 answers are queued,
      whatever is in flight. */
  lemma HitTakenIff(c: Cache, i: In)
    requires Shape(c) && i.Ok() && i.valid && Resident(c, i.addr)
    ensures Ready(c, i) <==> c.f.cnt <= 30
  {
    ResidentIff(c, i.addr);
  }

  /** A request to an absent line needs the same room, an idle entry, a line that
      no entry fetches or evicts dirty, and an unreserved way. */
  lemma MissTakenIff(c: Cache, i: In)
    requires Shape(c) && i.Ok() && i.valid && !Resident(c, i.addr)
    ensures Ready(c, i) <==>
      && c.f.cnt <= 30 && SomeIdle(c.m.ent) && Untouched(c.m.ent, i.addr)
      && (Unreserved(c.m.ent, i.addr.idx, 0) || Unreserved(c.m.ent, i.addr.idx, 1))
  {
    ResidentIff(c, i.addr);
    IdleFound(c.m.ent);
    UntouchedIff(c.m.ent, i.addr);
    UnreservedIff(c.m.ent, i.addr.idx, 0);
    UnreservedIff(c.m.ent, i.addr.idx, 1);
  }

  lemma QuietIsReady(c: Cache, i: In)
    requires Shape(c) && i.Ok() && !i.valid
    ensures Ready(c, i)
  {
  }

  // ---------------------------------------------------------------- the response queue

  predicate FifoShape(f: Fifo) {
    |f.buf| == FIFO_DEPTH && f.head < FIFO_DEPTH && f.cnt <= FIFO_DEPTH && FifoOk(f)
  }

  /** The answers in the queue, oldest first. */
  function Waiters(f: Fifo): seq<Resp>
    requires FifoShape(f)
  {
    Window(f.buf, f.head, f.cnt)
  }

  lemma PopWaiters(f: Fifo)
    requires FifoShape(f)
    ensures var g := Pop(f);
            && FifoShape(g) && g.respValid == (f.cnt > 0) && g.cnt == (if f.cnt > 0 then f.cnt - 1 else 0)
            && Waiters(g) == (if f.cnt > 0 then Waiters(f)[1..] else [])
            && g.resp == (if f.cnt > 0 then Waiters(f)[0] else f.resp)
  {
    if f.cnt > 0 { WindowPop(f.buf, f.head, f.cnt); }
  }

  lemma PushWaiters(f: Fifo, r: Resp)
    requires FifoShape(f) && f.cnt < FIFO_DEPTH
    ensures var g := Push(f, r);
            FifoShape(g) && g.respValid == f.respValid && g.resp == f.resp && Waiters(g) == Waiters(f) + [r]
  {
    WindowPush(f.buf, f.head, f.cnt, r);
  }

  function HitNews(c: Cache, i: In): seq<Resp>
    requires Shape(c) && i.Ok()
  {
    if HitAccept(c, i) then [Resp(i.tag, HitData(c, i))] else []
  }

  function FillNews(c: Cache): seq<Resp>
    requires Shape(c)
  {
    if CommitFire(c) then [Resp(Committing(c).tag, FillData(Committing(c)))] else []
  }

  /** At most one answer is appended. */
  function PushAll(f: Fifo, news: seq<Resp>): Fifo
    requires |f.buf| == FIFO_DEPTH && f.tail < FIFO_DEPTH
  {
    if news == [] then f else Push(f, news[0])
  }

  lemma PushAllWaiters(f: Fifo, news: seq<Resp>)
    requires FifoShape(f) && f.cnt + |news| <= FIFO_DEPTH && |news| <= 1
    ensures var g := PushAll(f, news);
            && FifoShape(g) && g.cnt == f.cnt + |news| && g.respValid == f.respValid && g.resp == f.resp
            && Waiters(g) == Waiters(f) + news
  {
    if news == [] { assert Waiters(f) == Waiters(f) + []; } else { PushWaiters(f, news[0]); }
  }

  lemma NextIsPushes(c: Cache, i: In)
    requires Shape(c) && FifoShape(c.f) && i.Ok()
    ensures FifoShape(Pop(c.f)) && FifoShape(PushAll(Pop(c.f), HitNews(c, i)))
    ensures FifoNext(c, i) == PushAll(PushAll(Pop(c.f), HitNews(c, i)), FillNews(c))
    ensures Pop(c.f).cnt + |HitNews(c, i)| + |FillNews(c)| <= FIFO_DEPTH
  {
    PopWaiters(c.f);
    if HitAccept(c, i) { PushAllWaiters(Pop(c.f), HitNews(c, i)); }
  }

  /** The queued answers after a cycle: the oldest goes to the response register;
      an accepted hit's and then an installed fill's join at the back. */
  lemma QueueNext(c: Cache, i: In)
    requires Shape(c) && FifoShape(c.f) && i.Ok()
    ensures var was, g := Waiters(c.f), FifoNext(c, i);
            && FifoShape(g) && g.respValid == (was != []) && g.resp == (if was != [] then was[0] else c.f.resp)
            && Waiters(g) == (if was == [] then [] else was[1..]) + HitNews(c, i) + FillNews(c)
  {
    NextIsPushes(c, i);
    PopWaiters(c.f);
    PushAllWaiters(Pop(c.f), HitNews(c, i));
    PushAllWaiters(PushAll(Pop(c.f), HitNews(c, i)), FillNews(c));
  }

  // ---------------------------------------------------------------- fills, memory and the walk

  predicate SomeDone(ent: seq<Entry>) { exists k :: 0 <= k < |ent| && ent[k].st.Done? }

  /** A line that has come is installed whenever at most 30 answers are queued and
      no walk is under way: the lowest such entry's. */
  lemma InstalledIff(c: Cache)
    ensures CommitFire(c) <==> SomeDone(c.m.ent) && c.f.cnt <= 30 && !c.fl.busy
    ensures CommitFire(c) ==>
      exists k :: 0 <= k < |c.m.ent| && c.m.ent[k].st.Done? && Committing(c) == c.m.ent[k]
                  && forall j :: 0 <= j < k ==> !c.m.ent[j].st.Done?
  {
  }

  predicate Asks(e: Entry) { e.st.Wb? || e.st.FillReq? }

  /** Outside a walk memory is asked exactly when no read is outstanding and some
      entry still has to write its victim back or to fetch its line: the lowest
      such entry, for that. */
  lemma AskedIff(x: Sys)
    requires Inv(x) && !x.c.fl.busy
    ensures PortRequest(x.c) == NoReq <==> x.pend || forall k :: 0 <= k < |x.c.m.ent| ==> !Asks(x.c.m.ent[k])
    ensures PortRequest(x.c) != NoReq ==>
      exists k :: 0 <= k < |x.c.m.ent| && Asks(x.c.m.ent[k]) && (forall j :: 0 <= j < k ==> !Asks(x.c.m.ent[j]))
                  && PortRequest(x.c) == (if x.c.m.ent[k].st.Wb?
                                          then WriteBack(x.c.m.ent[k].vaddr.Line(), x.c.m.ent[k].vdata)
                                          else Fill(x.c.m.ent[k].addr.Line()))
  {
    var k := Lowest(x.c.m.ent, KSend);
    if k < |x.c.m.ent| { assert Asks(x.c.m.ent[k]); }
  }

  /** A walk starts exactly when it is asked for with nothing in flight, at the
      first slot. */
  lemma WalkStartsIff(c: Cache, i: In)
    requires Shape(c) && i.Ok() && !c.fl.busy
    ensures var g := FlushNext(c, i);
            && (g.busy <==> i.flushAll && AllIdle(c.m.ent)) && (g.busy ==> g.idx == 0 && g.way == 0) && !g.done
  {
  }

  /** The place of the walk: slots in order, set by set, then the end. */
  function Place(fl: Flush): nat { 2 * fl.idx + fl.way }

  /** A walk goes on to the next slot in every cycle, except that it stays at a
      dirty line until memory takes it; behind the last slot it reports once. */
  lemma WalkMoves(c: Cache, i: In)
    requires Shape(c) && i.Ok() && c.fl.busy
    ensures var g := FlushNext(c, i);
            && (c.fl.idx == SETS ==> !g.busy && g.done)
            && (c.fl.idx < SETS ==>
                  var s := At(c.slots, c.fl.idx, c.fl.way);
                  && g.busy && !g.done && g.way < 2
                  && Place(g) == Place(c.fl) + if s.valid && s.dirty && !i.memReady then 0 else 1)
  {
  }

  // ---------------------------------------------------------------- victims

  /** A miss takes an unreserved way, one that holds no line if there is such a
      way, and way 0 of two such. */
  lemma VictimIsSpare(c: Cache, idx: nat)
    requires Shape(c) && idx < SETS && (Unreserved(c.m.ent, idx, 0) || Unreserved(c.m.ent, idx, 1))
    ensures var w := AllocWay(c, idx);
            && Unreserved(c.m.ent, idx, w)
            && (At(c.slots, idx, w).valid ==>
                  forall v: nat :: v < 2 && Unreserved(c.m.ent, idx, v) ==> At(c.slots, idx, v).valid)
            && (Unreserved(c.m.ent, idx, 0) && !At(c.slots, idx, 0).valid ==> w == 0)
  {
    UnreservedIff(c.m.ent, idx, 0);
    UnreservedIff(c.m.ent, idx, 1);
  }

  /** The way of set `s` that a cycle uses: that of an accepted hit, or, last in the
      cycle, that of the lowest line that has come, when it is installed. */
  function Used(c: Cache, i: In, s: nat, before: int): int
    requires Shape(c) && i.Ok() && s < SETS
  {
    var hit := if i.valid && i.addr.idx == s && c.f.cnt <= 30 && InWay(c, i.addr, 0) then 0
               else if i.valid && i.addr.idx == s && c.f.cnt <= 30 && InWay(c, i.addr, 1) then 1 else before;
    var k := FirstDone(c.m.ent);
    if k < |c.m.ent| && c.f.cnt <= 30 && !c.fl.busy && c.m.ent[k].addr.idx == s then c.m.ent[k].way else hit
  }

  /** The lowest entry whose line has come. */
  function FirstDone(ent: seq<Entry>): (k: nat)
    ensures k <= |ent| && (k < |ent| ==> ent[k].st.Done?) && forall j :: 0 <= j < k ==> !ent[j].st.Done?
  {
    if ent == [] || ent[0].st.Done? then 0 else 1 + FirstDone(ent[1..])
  }

  /** The way of set `s` last used in a run, or `before` when the run uses none. */
  function LastUsed(x: Sys, ins: seq<In>, s: nat, before: int): int
    requires LegalRun(x, ins) && s < SETS
    decreases |ins|
  {
    if ins == [] then before else LastUsed(SysNext(x, ins[0]), ins[1..], s, Used(x.c, ins[0], s, before))
  }

  /** The recency bit is the way last used; a resident line was put there by a use. */
  predicate Recent(c: Cache, s: nat, last: int)
    requires Shape(c) && s < SETS
  {
    && (last == -1 || c.plru[s] == last)
    && (At(c.slots, s, 0).valid || At(c.slots, s, 1).valid ==> last >= 0)
  }

  lemma DoneFound(ent: seq<Entry>)
    ensures Lowest(ent, KDone) == FirstDone(ent)
  {
  }

  lemma OneWay(c: Cache, a: Addr)
    requires Shape(c) && a.Ok() && SetOk(c.slots, a.idx)
    ensures InWay(c, a, 0) ==> WhichHit(c.slots, a) == 0
    ensures InWay(c, a, 1) ==> WhichHit(c.slots, a) == 1
  {
  }

  /** The recency bit follows what is used. */
  lemma PlruFollows(c: Cache, i: In, s: nat, before: int)
    requires Shape(c) && i.Ok() && s < SETS && SetOk(c.slots, i.addr.idx)
    requires before == -1 || c.plru[s] == before
    ensures |PlruNext(c, i)| == SETS
    ensures var u := Used(c, i, s, before); u == -1 || PlruNext(c, i)[s] == u
  {
    DoneFound(c.m.ent);
    OneWay(c, i.addr);
  }

  /** A line comes into a set only with a use of it. */
  lemma ValidFollows(c: Cache, i: In, s: nat, before: int)
    requires Shape(c) && i.Ok() && s < SETS && before >= -1
    requires At(c.slots, s, 0).valid || At(c.slots, s, 1).valid ==> before >= 0
    ensures var n := CommitSlots(AcceptSlots(FlushSlots(c, i), c, i), c);
            At(n, s, 0).valid || At(n, s, 1).valid ==> Used(c, i, s, before) >= 0
  {
    DoneFound(c.m.ent);
  }

  lemma RecentStep(x: Sys, i: In, s: nat, last: int)
    requires Inv(x) && EnvOk(x, i) && s < SETS && last >= -1 && Recent(x.c, s, last) && Shape(SysNext(x, i).c)
    ensures Used(x.c, i, s, last) >= -1 && Recent(SysNext(x, i).c, s, Used(x.c, i, s, last))
  {
    assert SetOk(x.c.slots, i.addr.idx);
    PlruFollows(x.c, i, s, last);
    ValidFollows(x.c, i, s, last);
  }

  lemma {:induction false} RecentRun(x: Sys, ins: seq<In>, s: nat, last: int) returns (y: Sys, now: int)
    requires Inv(x) && LegalRun(x, ins) && s < SETS && last >= -1 && Recent(x.c, s, last)
    ensures y == Run(x, ins) && now == LastUsed(x, ins, s, last) && Inv(y) && now >= -1 && Recent(y.c, s, now)
    decreases |ins|
  {
    if ins == [] {
      y, now := x, last;
    } else {
      StepKeeps(x, ins[0]);
      RecentStep(x, ins[0], s, last);
      y, now := RecentRun(SysNext(x, ins[0]), ins[1..], s, Used(x.c, ins[0], s, last));
    }
  }

  lemma FreshRecent(x: Sys, s: nat)
    requires Fresh(x) && s < SETS
    ensures Recent(x.c, s, -1)
  {
  }

  lemma VictimIsOther(c: Cache, s: nat, last: int)
    requires Shape(c) && s < SETS && last >= 0 && Recent(c, s, last)
    requires At(c.slots, s, 0).valid && At(c.slots, s, 1).valid
    requires Unreserved(c.m.ent, s, 0) && Unreserved(c.m.ent, s, 1)
    ensures last < 2 && AllocWay(c, s) == 1 - last
  {
    UnreservedIff(c.m.ent, s, 0);
    UnreservedIff(c.m.ent, s, 1);
  }

  lemma MissEvicts(c: Cache, i: In)
    requires Shape(c) && i.Ok() && i.valid && !Resident(c, i.addr) && Ready(c, i) && !c.fl.busy
    requires Unreserved(c.m.ent, i.addr.idx, 0) && Unreserved(c.m.ent, i.addr.idx, 1)
    ensures var w, n := AllocWay(c, i.addr.idx), CacheNext(c, i).slots;
            !At(n, i.addr.idx, w).valid && At(n, i.addr.idx, 1 - w) == At(c.slots, i.addr.idx, 1 - w)
  {
    ResidentIff(c, i.addr);
  }

  /** The way last used by a hit or an installed fill keeps its line through a miss
      that finds both ways full and unreserved; the other way is given up. */
  lemma VictimStep(c: Cache, i: In, last: int)
    requires Shape(c) && i.Ok() && i.valid && !Resident(c, i.addr) && Ready(c, i) && !c.fl.busy
    requires last >= 0 && Recent(c, i.addr.idx, last)
    requires At(c.slots, i.addr.idx, 0).valid && At(c.slots, i.addr.idx, 1).valid
    requires Unreserved(c.m.ent, i.addr.idx, 0) && Unreserved(c.m.ent, i.addr.idx, 1)
    ensures last < 2
    ensures var s, n := i.addr.idx, CacheNext(c, i).slots;
            !At(n, s, 1 - last).valid && At(n, s, last) == At(c.slots, s, last)
  {
    VictimIsOther(c, i.addr.idx, last);
    MissEvicts(c, i);
  }

  /** A miss that is taken while both ways of its set hold a line and none is
      reserved. */
  predicate MustEvict(c: Cache, i: In)
    requires Shape(c) && i.Ok()
  {
    && i.valid && !Resident(c, i.addr) && Ready(c, i) && !c.fl.busy
    && At(c.slots, i.addr.idx, 0).valid && At(c.slots, i.addr.idx, 1).valid
    && Unreserved(c.m.ent, i.addr.idx, 0) && Unreserved(c.m.ent, i.addr.idx, 1)
  }

  /** The miss takes the other way and leaves way `w` alone. */
  predicate Spares(c: Cache, d: Cache, s: nat, w: int)
    requires Shape(c) && s < SETS
  {
    0 <= w < 2 && |d.slots| == 2 * SETS && !At(d.slots, s, 1 - w).valid && At(d.slots, s, w) == At(c.slots, s, w)
  }

  lemma SparesRecent(x: Sys, i: In, last: int)
    requires Shape(x.c) && i.Ok() && last >= -1 && Recent(x.c, i.addr.idx, last) && MustEvict(x.c, i)
    ensures Spares(x.c, SysNext(x, i).c, i.addr.idx, last)
  {
    VictimStep(x.c, i, last);
  }

  /** In every run from reset, a miss that finds both ways of its set full and
      unreserved gives up the way that was not last used by a hit or an installed
      fill; the way last used keeps its line. */
  lemma VictimNotLastUsed(x: Sys, ins: seq<In>, i: In) returns (y: Sys, w: int)
    requires Fresh(x) && LegalRun(x, ins) && i.Ok()
    ensures y == Run(x, ins) && w == LastUsed(x, ins, i.addr.idx, -1) && Shape(y.c)
    ensures MustEvict(y.c, i) ==> Spares(y.c, SysNext(y, i).c, i.addr.idx, w)
  {
    FreshOk(x);
    FreshRecent(x, i.addr.idx);
    y, w := RecentRun(x, ins, i.addr.idx, -1);
    if MustEvict(y.c, i) { SparesRecent(y, i, w); }
  }
}
