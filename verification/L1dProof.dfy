/** Whole runs of the cache with its memory: every answer is what a flat memory
    held when the request was accepted, and a finished flush leaves memory equal
    to that flat memory. */
module L1dProof {
  import opened Bytes
  import opened ByteMemory
  import opened Mshrs
  import opened MemPort
  import opened L1d
  import opened L1dInv
  import opened L1dSteps
  import opened Ring

  lemma PortRequestShape(c: Cache)
    requires Shape(c)
    ensures ReqShape(PortRequest(c))
  {
    if c.fl.busy && FlushWb(c) {
      assert |At(c.slots, c.fl.idx, c.fl.way).data| == LINE;
    }
  }

  predicate Accepts(c: Cache, i: In)
    requires Shape(c) && i.Ok()
  {
    HitAccept(c, i) || MissAccept(c, i)
  }

  /** One cycle of the cache, its memory and the flat memory. */
  function SysNext(x: Sys, i: In): Sys
    requires Shape(x.c) && i.Ok()
  {
    PortRequestShape(x.c);
    var p := PortStep(Port(x.mem, x.pend, x.pendData), PortRequest(x.c), i.memReady, i.memRespValid);
    Sys(CacheNext(x.c, i), p.mem, p.pend, p.pendData,
        if Accepts(x.c, i) then FlatAfter(x, i) else x.flat,
        x.accepted + (if Accepts(x.c, i) then [Expected(x, i)] else []),
        x.delivered + (if x.c.f.respValid then [x.c.f.resp] else []))
  }

  /** The contract of the two ports: memory answers the read it owes with the
      line it read, and the CPU stays quiet around a flush. */
  predicate EnvOk(x: Sys, i: In) {
    && i.Ok()
    && (i.memRespValid ==> x.pend && i.memRdata == x.pendData)
    && (i.valid ==> !i.flushAll && !x.c.fl.busy)
  }

  // ---------------------------------------------------------------- one cycle in order

  function Stage2(x: Sys, i: In): Sys
    requires Shape(x.c) && i.Ok()
  {
    var y := AfterPop(x);
    if HitAccept(x.c, i) then AfterHit(y, i, WhichHit(x.c.slots, i.addr))
    else if MissAccept(x.c, i) then AfterMiss(y, i, AllocWay(x.c, i.addr.idx), Lowest(x.c.m.ent, KFree))
    else y
  }

  lemma Stage2Keeps(x: Sys, i: In)
    requires Core(x) && i.Ok()
    ensures Core(Stage2(x, i))
  {
    var y := AfterPop(x);
    PopKeeps(x);
    if HitAccept(x.c, i) {
      HitKeeps(y, i, WhichHit(x.c.slots, i.addr));
    } else if MissAccept(x.c, i) {
      AllocWayIsFree(x.c, i.addr.idx);
      MissKeeps(y, i, AllocWay(x.c, i.addr.idx), Lowest(x.c.m.ent, KFree));
    }
  }

  lemma AllocWayIsFree(c: Cache, idx: nat)
    requires Shape(c) && idx < SETS && !NoWay(c.m.ent, idx)
    ensures !WayBusy(c.m.ent, idx, AllocWay(c, idx))
  {
  }

  // The miss registers after an accepted request, a send and an answer.

  function M1(x: Sys, i: In): (m: Mshr)
    requires Shape(x.c) && i.Ok()
    ensures |m.ent| == |x.c.m.ent|
  {
    var free, mx := Lowest(x.c.m.ent, KFree), MshrInput(x.c, i);
    if mx.allocValid && free < |x.c.m.ent| then Alloc(x.c.m, free, mx.alloc.(fill := x.c.m.ent[free].fill)) else x.c.m
  }

  predicate Sends(m: Mshr, i: In) {
    ReqValid(m) && i.memReady
  }

  function M2(x: Sys, i: In): (m: Mshr)
    requires Shape(x.c) && i.Ok()
    ensures |m.ent| == |x.c.m.ent|
  {
    if Sends(x.c.m, i) then Send(M1(x, i), Lowest(x.c.m.ent, KSend)) else M1(x, i)
  }

  function M3(x: Sys, i: In): (m: Mshr)
    requires Shape(x.c) && i.Ok()
    ensures |m.ent| == |x.c.m.ent|
  {
    if i.memRespValid && x.c.m.busyIdx < |x.c.m.ent| then Answer(M2(x, i), x.c.m.busyIdx, i.memRdata) else M2(x, i)
  }

  lemma StagesAreNext(x: Sys, i: In)
    requires Shape(x.c) && i.Ok() && !x.c.fl.busy
    ensures MshrNext(x.c.m, MshrInput(x.c, i))
         == if CommitFire(x.c) then Free(M3(x, i), Lowest(x.c.m.ent, KDone)) else M3(x, i)
  {
  }

  /** An accepted request leaves the entries past idle alone. */
  lemma M1Entry(x: Sys, i: In, k: nat)
    requires Shape(x.c) && i.Ok() && k < |x.c.m.ent| && x.c.m.ent[k].Busy()
    ensures M1(x, i).ent[k] == x.c.m.ent[k]
    ensures M1(x, i).memBusy == x.c.m.memBusy && M1(x, i).busyIdx == x.c.m.busyIdx
  {
  }

  /** A fill that is done waits unchanged through the rest of the cycle. */
  lemma DoneUntouched(x: Sys, i: In, k: nat)
    requires Shape(x.c) && i.Ok() && PortOk(x.c.m, x.pend) && (i.memRespValid ==> x.pend)
    requires k < |x.c.m.ent| && x.c.m.ent[k].st.Done?
    ensures M3(x, i).ent[k] == x.c.m.ent[k]
  {
    M1Entry(x, i, k);
    assert i.memRespValid ==> x.c.m.ent[x.c.m.busyIdx].st.FillWait?;
  }

  lemma PutSame(slots: seq<Slot>, idx: nat, way: nat)
    requires |slots| == 2 * SETS && idx < SETS && way < 2
    ensures Put(slots, idx, way, At(slots, idx, way)) == slots
  {
  }

  lemma Stage2Mshr(x: Sys, i: In)
    requires Shape(x.c) && i.Ok()
    ensures Stage2(x, i).c.m == M1(x, i) && Stage2(x, i).c.fl == x.c.fl
  {
  }

  lemma Stage2Slots(x: Sys, i: In)
    requires Shape(x.c) && i.Ok()
    ensures Stage2(x, i).c.slots == AcceptSlots(x.c.slots, x.c, i)
  {
    if HitAccept(x.c, i) {
      PutSame(x.c.slots, i.addr.idx, WhichHit(x.c.slots, i.addr));
    }
  }

  lemma Stage2Answers(x: Sys, i: In)
    requires Shape(x.c) && i.Ok()
    ensures Stage2(x, i).c.plru
         == (if HitAccept(x.c, i) then x.c.plru[i.addr.idx := WhichHit(x.c.slots, i.addr)] else x.c.plru)
    ensures Stage2(x, i).c.f == if HitAccept(x.c, i) then Push(Pop(x.c.f), Resp(i.tag, HitData(x.c, i))) else Pop(x.c.f)
  {
  }

  /** The cache after an accepted request, array by array. */
  lemma Stage2Arrays(x: Sys, i: In)
    requires Shape(x.c) && i.Ok()
    ensures Stage2(x, i).c.m == M1(x, i) && Stage2(x, i).c.fl == x.c.fl
    ensures Stage2(x, i).c.slots == AcceptSlots(x.c.slots, x.c, i)
    ensures Stage2(x, i).c.plru
         == (if HitAccept(x.c, i) then x.c.plru[i.addr.idx := WhichHit(x.c.slots, i.addr)] else x.c.plru)
    ensures Stage2(x, i).c.f == if HitAccept(x.c, i) then Push(Pop(x.c.f), Resp(i.tag, HitData(x.c, i))) else Pop(x.c.f)
  {
    Stage2Mshr(x, i);
    Stage2Slots(x, i);
    Stage2Answers(x, i);
  }

  lemma Stage2Rest(x: Sys, i: In)
    requires Shape(x.c) && i.Ok()
    ensures Stage2(x, i).mem == x.mem && Stage2(x, i).pend == x.pend && Stage2(x, i).pendData == x.pendData
    ensures Stage2(x, i).flat == (if Accepts(x.c, i) then FlatAfter(x, i) else x.flat)
    ensures Stage2(x, i).accepted == x.accepted + (if Accepts(x.c, i) then [Expected(x, i)] else [])
    ensures Stage2(x, i).delivered == x.delivered + (if x.c.f.respValid then [x.c.f.resp] else [])
  {
  }

  lemma AnswerStage(x: Sys, i: In, y: Sys)
    requires Shape(x.c) && PortOk(x.c.m, x.pend) && EnvOk(x, i) && i.memRespValid
    requires Shape(y.c) && y.c.m == M1(x, i) && y.pendData == x.pendData && x.c.m.busyIdx < |x.c.m.ent|
    ensures !Sends(x.c.m, i) && AfterAnswer(y).c == y.c.(m := M3(x, i))
  {
    M1Bus(x, i);
  }

  /** An accepted request leaves the memory port alone. */
  lemma M1Bus(x: Sys, i: In)
    requires Shape(x.c) && i.Ok()
    ensures M1(x, i).memBusy == x.c.m.memBusy && M1(x, i).busyIdx == x.c.m.busyIdx
  {
  }

  lemma SendStageOk(x: Sys, i: In, y: Sys)
    requires Shape(x.c) && i.Ok() && Sends(x.c.m, i) && y.c.m == M1(x, i)
    ensures SendOk(y.c, Lowest(x.c.m.ent, KSend))
    ensures y.c.m.ent[Lowest(x.c.m.ent, KSend)] == x.c.m.ent[Lowest(x.c.m.ent, KSend)]
  {
    M1Entry(x, i, Lowest(x.c.m.ent, KSend));
  }

  lemma SendStage(x: Sys, i: In, y: Sys)
    requires Shape(x.c) && EnvOk(x, i) && !i.memRespValid && Sends(x.c.m, i)
    requires Shape(y.c) && y.c.m == M1(x, i)
    ensures AfterSend(y, Lowest(x.c.m.ent, KSend)).c == y.c.(m := M3(x, i))
  {
  }

  /** The memory port's part of the cycle, after the request's. */
  function AfterPort(x: Sys, i: In, y: Sys): Sys
    requires Shape(x.c) && Shape(y.c) && |y.c.m.ent| == |x.c.m.ent| && i.Ok()
  {
    if i.memRespValid && y.c.m.busyIdx < |y.c.m.ent| then AfterAnswer(y)
    else if Sends(x.c.m, i) then AfterSend(y, Lowest(x.c.m.ent, KSend))
    else y
  }

  lemma PortStage(x: Sys, i: In, y: Sys)
    requires Shape(x.c) && PortOk(x.c.m, x.pend) && EnvOk(x, i)
    requires Core(y) && y.c.m == M1(x, i) && y.pend == x.pend && y.pendData == x.pendData
    ensures Core(AfterPort(x, i, y))
  {
    M1Bus(x, i);
    if i.memRespValid {
      AnswerKeeps(y);
    } else if Sends(x.c.m, i) {
      SendStageOk(x, i, y);
      SendKeeps(y, Lowest(x.c.m.ent, KSend));
    }
  }

  lemma PortStageCache(x: Sys, i: In, y: Sys)
    requires Shape(x.c) && PortOk(x.c.m, x.pend) && EnvOk(x, i)
    requires Shape(y.c) && y.c.m == M1(x, i) && y.pend == x.pend && y.pendData == x.pendData
    ensures AfterPort(x, i, y).c == y.c.(m := M3(x, i))
  {
    M1Bus(x, i);
    if i.memRespValid {
      AnswerStage(x, i, y);
    } else if Sends(x.c.m, i) {
      SendStage(x, i, y);
    }
  }

  lemma SendStageMem(x: Sys, i: In, y: Sys)
    requires Shape(x.c) && EnvOk(x, i) && !i.memRespValid && !x.c.fl.busy && ReqShape(PortRequest(x.c))
    requires Shape(y.c) && |y.c.m.ent| == |x.c.m.ent| && y.mem == x.mem && y.pend == x.pend && y.pendData == x.pendData
    requires Sends(x.c.m, i) ==> y.c.m.ent[Lowest(x.c.m.ent, KSend)] == x.c.m.ent[Lowest(x.c.m.ent, KSend)]
    ensures var z := if Sends(x.c.m, i) then AfterSend(y, Lowest(x.c.m.ent, KSend)) else y;
            Port(z.mem, z.pend, z.pendData)
            == PortStep(Port(x.mem, x.pend, x.pendData), PortRequest(x.c), i.memReady, false)
  {
  }

  lemma PortStageMem(x: Sys, i: In, y: Sys)
    requires Shape(x.c) && PortOk(x.c.m, x.pend) && EnvOk(x, i) && !x.c.fl.busy && ReqShape(PortRequest(x.c))
    requires Shape(y.c) && y.c.m == M1(x, i) && y.mem == x.mem && y.pend == x.pend && y.pendData == x.pendData
    ensures var z := AfterPort(x, i, y);
            && Port(z.mem, z.pend, z.pendData)
               == PortStep(Port(x.mem, x.pend, x.pendData), PortRequest(x.c), i.memReady, i.memRespValid)
            && z.flat == y.flat && z.accepted == y.accepted && z.delivered == y.delivered
  {
    M1Bus(x, i);
    if !i.memRespValid {
      if Sends(x.c.m, i) { SendStageOk(x, i, y); }
      SendStageMem(x, i, y);
    }
  }

  lemma CommitStage(x: Sys, i: In, y: Sys) returns (z: Sys)
    requires Shape(x.c) && PortOk(x.c.m, x.pend) && EnvOk(x, i) && !x.c.fl.busy
    requires Core(y) && y.c.m == M3(x, i) && y.c.f.cnt <= x.c.f.cnt + 1
    ensures Core(z) && z.c.m == MshrNext(x.c.m, MshrInput(x.c, i))
    ensures z.c.slots == CommitSlots(y.c.slots, x.c) && z.c.fl == y.c.fl
    ensures z.c.plru == if CommitFire(x.c) then y.c.plru[Committing(x.c).addr.idx := Committing(x.c).way] else y.c.plru
    ensures z.c.f
         == if CommitFire(x.c) then Push(y.c.f, Resp(Committing(x.c).tag, FillData(Committing(x.c)))) else y.c.f
    ensures z.(c := y.c) == y
  {
    StagesAreNext(x, i);
    if CommitFire(x.c) {
      var k := Lowest(x.c.m.ent, KDone);
      DoneUntouched(x, i, k);
      CommitKeeps(y, k);
      z := AfterCommit(y, k);
    } else {
      z := y;
    }
  }

  /** The cycle after its request. */
  lemma FirstStage(x: Sys, i: In) returns (y: Sys)
    requires Core(x) && i.Ok()
    ensures Core(y) && y.c.m == M1(x, i) && y.mem == x.mem && y.pend == x.pend && y.pendData == x.pendData
    ensures y.c.slots == AcceptSlots(x.c.slots, x.c, i)
    ensures y.c.plru == (if HitAccept(x.c, i) then x.c.plru[i.addr.idx := WhichHit(x.c.slots, i.addr)] else x.c.plru)
    ensures y.c.f == if HitAccept(x.c, i) then Push(Pop(x.c.f), Resp(i.tag, HitData(x.c, i))) else Pop(x.c.f)
    ensures y.flat == (if Accepts(x.c, i) then FlatAfter(x, i) else x.flat)
    ensures y.accepted == x.accepted + (if Accepts(x.c, i) then [Expected(x, i)] else [])
    ensures y.delivered == x.delivered + (if x.c.f.respValid then [x.c.f.resp] else [])
  {
    y := Stage2(x, i);
    Stage2Keeps(x, i);
    Stage2Arrays(x, i);
    Stage2Rest(x, i);
  }

  lemma SysByParts(x: Sys, i: In, z: Sys)
    requires Shape(x.c) && i.Ok() && ReqShape(PortRequest(x.c))
    requires CacheNext(x.c, i) == z.c.(fl := FlushNext(x.c, i))
    requires Port(z.mem, z.pend, z.pendData)
          == PortStep(Port(x.mem, x.pend, x.pendData), PortRequest(x.c), i.memReady, i.memRespValid)
    requires z.flat == (if Accepts(x.c, i) then FlatAfter(x, i) else x.flat)
    requires z.accepted == x.accepted + (if Accepts(x.c, i) then [Expected(x, i)] else [])
    requires z.delivered == x.delivered + (if x.c.f.respValid then [x.c.f.resp] else [])
    ensures SysNext(x, i) == z.(c := z.c.(fl := FlushNext(x.c, i)))
  {
  }

  /** Outside a flush, a cycle is a request, a turn of the memory port and an
      installed fill, in this order; each keeps the invariant. */
  lemma CycleKeeps(x: Sys, i: In) returns (z: Sys)
    requires Core(x) && EnvOk(x, i) && !x.c.fl.busy
    ensures Core(z) && SysNext(x, i) == z.(c := z.c.(fl := FlushNext(x.c, i)))
  {
    var y := FirstStage(x, i);
    z := LaterStages(x, i, y);
    NextByStages(x.c, i, y.c, z.c);
    SysByParts(x, i, z);
  }

  /** The three stages put together are the next state of the cache. */
  lemma NextByStages(c: Cache, i: In, s2: Cache, z: Cache)
    requires Shape(c) && i.Ok() && !c.fl.busy
    requires s2.slots == AcceptSlots(c.slots, c, i) && |s2.slots| == 2 * SETS && |s2.plru| == SETS
    requires s2.plru == if HitAccept(c, i) then c.plru[i.addr.idx := WhichHit(c.slots, i.addr)] else c.plru
    requires |s2.f.buf| == FIFO_DEPTH && s2.f.tail < FIFO_DEPTH
    requires s2.f == if HitAccept(c, i) then Push(Pop(c.f), Resp(i.tag, HitData(c, i))) else Pop(c.f)
    requires z.slots == CommitSlots(s2.slots, c) && z.m == MshrNext(c.m, MshrInput(c, i))
    requires z.plru == if CommitFire(c) then s2.plru[Committing(c).addr.idx := Committing(c).way] else s2.plru
    requires z.f == if CommitFire(c) then Push(s2.f, Resp(Committing(c).tag, FillData(Committing(c)))) else s2.f
    ensures CacheNext(c, i) == z.(fl := FlushNext(c, i))
  {
  }

  lemma LaterStages(x: Sys, i: In, y: Sys) returns (z: Sys)
    requires Core(x) && EnvOk(x, i) && !x.c.fl.busy
    requires Core(y) && y.c.m == M1(x, i) && y.mem == x.mem && y.pend == x.pend && y.pendData == x.pendData
    requires y.c.f.cnt <= x.c.f.cnt + 1
    ensures Core(z) && z.c.m == MshrNext(x.c.m, MshrInput(x.c, i))
    ensures z.c.slots == CommitSlots(y.c.slots, x.c)
    ensures z.c.plru == if CommitFire(x.c) then y.c.plru[Committing(x.c).addr.idx := Committing(x.c).way] else y.c.plru
    ensures z.c.f
         == if CommitFire(x.c) then Push(y.c.f, Resp(Committing(x.c).tag, FillData(Committing(x.c)))) else y.c.f
    ensures ReqShape(PortRequest(x.c))
    ensures Port(z.mem, z.pend, z.pendData)
         == PortStep(Port(x.mem, x.pend, x.pendData), PortRequest(x.c), i.memReady, i.memRespValid)
    ensures z.flat == y.flat && z.accepted == y.accepted && z.delivered == y.delivered
  {
    PortRequestShape(x.c);
    PortStage(x, i, y);
    PortStageCache(x, i, y);
    PortStageMem(x, i, y);
    z := CommitStage(x, i, AfterPort(x, i, y));
  }

  // ---------------------------------------------------------------- flush cycles

  /** With every entry idle the miss registers and their port do nothing. */
  lemma IdleQuiet(m: Mshr, x: MshrIn)
    requires AllIdle(m.ent) && !x.allocValid && !x.respValid
    ensures !ReqValid(m) && Request(m) == NoReq && MshrNext(m, x) == m
    ensures Lowest(m.ent, KDone) == |m.ent|
  {
  }

  lemma IdlePort(m: Mshr, pend: bool)
    requires AllIdle(m.ent) && PortOk(m, pend)
    ensures !pend
  {
    assert m.memBusy ==> !m.ent[m.busyIdx].Busy();
  }

  function AfterWalk(x: Sys, i: In): Sys
    requires Shape(x.c)
  {
    if FlushWb(x.c) && i.memReady then AfterFlush(x) else x
  }

  /** During a flush, a cycle answers from the FIFO and moves the walk. */
  lemma FlushCycle(x: Sys, i: In) returns (z: Sys)
    requires Core(x) && AllIdle(x.c.m.ent) && EnvOk(x, i) && x.c.fl.busy
    ensures Core(z) && SysNext(x, i) == z.(c := z.c.(fl := FlushNext(x.c, i)))
  {
    z := AfterWalk(AfterPop(x), i);
    IdlePort(x.c.m, x.pend);
    WalkKeeps(x, i);
    FlushCycleParts(x, i);
  }

  lemma WalkKeeps(x: Sys, i: In)
    requires Core(x) && AllIdle(x.c.m.ent)
    ensures Core(AfterWalk(AfterPop(x), i))
  {
    PopKeeps(x);
    if FlushWb(AfterPop(x).c) && i.memReady {
      FlushKeeps(AfterPop(x));
    }
  }

  lemma FlushCycleParts(x: Sys, i: In)
    requires Shape(x.c) && AllIdle(x.c.m.ent) && !x.pend && EnvOk(x, i) && x.c.fl.busy
    ensures var z := AfterWalk(AfterPop(x), i);
            SysNext(x, i) == z.(c := z.c.(fl := FlushNext(x.c, i)))
  {
    IdleQuiet(x.c.m, MshrInput(x.c, i));
  }

  /** Nothing about the walk's own registers enters the rest of the invariant. */
  lemma CoreWithFlush(z: Sys, fl: Flush)
    requires Core(z) && fl.idx <= SETS && fl.way < 2
    ensures Core(z.(c := z.c.(fl := fl)))
  {
    var y := z.(c := z.c.(fl := fl));
    SameData(z, y);
    assert Answers(y.c, y.flat) == Answers(z.c, z.flat);
  }

  lemma WalkOneSlot(x: Sys, i: In)
    requires Shape(x.c) && FlushOk(x.c) && x.c.fl.busy && x.c.fl.idx < SETS && (FlushWb(x.c) ==> i.memReady)
    ensures WalkedClean(AfterWalk(AfterPop(x), i).c.slots, 2 * x.c.fl.idx + x.c.fl.way + 1)
  {
    var y := AfterPop(x);
    var z := AfterWalk(y, i);
    forall s, w | 0 <= s < SETS && 0 <= w < 2 && 2 * s + w < 2 * x.c.fl.idx + x.c.fl.way + 1
      ensures !(At(z.c.slots, s, w).valid && At(z.c.slots, s, w).dirty)
    {
      if FlushWb(x.c) {
        FlushAt(y, s, w);
      }
    }
  }

  lemma FlushOkStep(x: Sys, i: In)
    requires Shape(x.c) && FlushOk(x.c) && !x.pend && EnvOk(x, i) && Shape(SysNext(x, i).c) && x.c.fl.busy
    ensures FlushOk(SysNext(x, i).c)
  {
    FlushCycleParts(x, i);
    if x.c.fl.idx < SETS && (FlushWb(x.c) ==> i.memReady) {
      WalkOneSlot(x, i);
    }
  }

  lemma FlushStartStep(x: Sys, i: In)
    requires Core(x) && EnvOk(x, i) && Shape(SysNext(x, i).c) && !x.c.fl.busy
    ensures FlushOk(SysNext(x, i).c)
  {
    if i.flushAll && BusyCount(x.c.m.ent) == 0 {
      IdlePort(x.c.m, x.pend);
      IdleQuiet(x.c.m, MshrInput(x.c, i));
    }
  }

  lemma WalkCycleCore(x: Sys, i: In)
    requires Inv(x) && EnvOk(x, i) && x.c.fl.busy
    ensures Core(SysNext(x, i))
  {
    var z := FlushCycle(x, i);
    CoreWithFlush(z, FlushNext(x.c, i));
  }

  lemma WalkCycleFlush(x: Sys, i: In)
    requires Inv(x) && EnvOk(x, i) && x.c.fl.busy && Shape(SysNext(x, i).c)
    ensures FlushOk(SysNext(x, i).c)
  {
    IdlePort(x.c.m, x.pend);
    FlushOkStep(x, i);
  }

  lemma PlainCycleCore(x: Sys, i: In)
    requires Inv(x) && EnvOk(x, i) && !x.c.fl.busy
    ensures Core(SysNext(x, i))
  {
    var z := CycleKeeps(x, i);
    CoreWithFlush(z, FlushNext(x.c, i));
  }

  /** Every legal cycle keeps the invariant. */
  lemma StepKeeps(x: Sys, i: In)
    requires Inv(x) && EnvOk(x, i)
    ensures Inv(SysNext(x, i))
  {
    if x.c.fl.busy {
      WalkCycleCore(x, i);
      WalkCycleFlush(x, i);
    } else {
      PlainCycleCore(x, i);
      FlushStartStep(x, i);
    }
  }

  // ---------------------------------------------------------------- runs

  predicate LegalRun(x: Sys, ins: seq<In>)
    decreases |ins|
  {
    ins == [] || (Shape(x.c) && EnvOk(x, ins[0]) && LegalRun(SysNext(x, ins[0]), ins[1..]))
  }

  function Run(x: Sys, ins: seq<In>): Sys
    requires LegalRun(x, ins)
    decreases |ins|
  {
    if ins == [] then x else Run(SysNext(x, ins[0]), ins[1..])
  }

  /** The cache after reset, over any memory, with the flat memory equal to it. */
  predicate Fresh(x: Sys) {
    && Shape(x.c) && (forall s, w :: 0 <= s < SETS && 0 <= w < 2 ==> !At(x.c.slots, s, w).valid)
    && AllIdle(x.c.m.ent) && !x.c.m.memBusy && !x.pend && |x.pendData| == LINE
    && x.c.f.cnt == 0 && x.c.f.head == x.c.f.tail && !x.c.f.respValid && !x.c.fl.busy && !x.c.fl.done
    && x.flat == x.mem && x.accepted == [] && x.delivered == []
  }

  lemma FreshOk(x: Sys)
    requires Fresh(x)
    ensures Inv(x)
  {
    NoPromises(x.c.m.ent, x.flat);
    assert Window(x.c.f.buf, x.c.f.head, 0) == [];
  }

  lemma {:induction false} NoPromises(ent: seq<Entry>, flat: Mem)
    requires AllIdle(ent) && AllShaped(ent)
    ensures Promises(ent, flat) == multiset{}
  {
    if ent != [] {
      assert forall k :: 0 <= k < |ent| - 1 ==> ent[..|ent| - 1][k] == ent[k];
      NoPromises(ent[..|ent| - 1], flat);
    }
  }

  lemma {:induction false} RunKeeps(x: Sys, ins: seq<In>)
    requires Inv(x) && LegalRun(x, ins)
    ensures Inv(Run(x, ins))
    decreases |ins|
  {
    if ins != [] {
      StepKeeps(x, ins[0]);
      RunKeeps(SysNext(x, ins[0]), ins[1..]);
    }
  }
}
