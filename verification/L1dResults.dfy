/** What the cache promises, read off its invariant. */
module L1dResults {
  import opened Bytes
  import opened ByteMemory
  import opened Mshrs
  import opened L1d
  import opened L1dInv
  import opened L1dSteps
  import opened L1dProof
  import opened Ring

  /** In every run, what has been answered and what is still owed are together
      exactly what the flat memory said the accepted requests must be answered
      with, each once. */
  lemma AnswersAreFlat(x: Sys, ins: seq<In>)
    requires Fresh(x) && LegalRun(x, ins)
    ensures var y := Run(x, ins);
            Shape(y.c) && multiset(y.accepted) == multiset(y.delivered) + Answers(y.c, y.flat)
  {
    FreshOk(x);
    RunKeeps(x, ins);
  }

  // ---------------------------------------------------------------- one request

  predicate OwedOnce(p: multiset<Resp>, r: Resp) {
    p[r] == 1 && forall q :: q in p && q.tag == r.tag ==> q == r
  }

  predicate NoneOwed(p: multiset<Resp>, tag: nat) {
    forall q :: q in p ==> q.tag != tag
  }

  function Maybe(b: bool, r: Resp): multiset<Resp> {
    if b then multiset{r} else multiset{}
  }

  /** `r` is owed once, and it is the only answer owed for its tag. */
  predicate Waiting(x: Sys, r: Resp)
    requires Shape(x.c)
  {
    OwedOnce(Answers(x.c, x.flat), r)
  }

  predicate Settled(x: Sys, tag: nat)
    requires Shape(x.c)
  {
    NoneOwed(Answers(x.c, x.flat), tag)
  }

  /** One answer `g` given and one `t` promised, neither of which need happen. */
  lemma WaitingBag(p: multiset<Resp>, q: multiset<Resp>, given: bool, g: Resp, taken: bool, t: Resp, r: Resp)
    requires q + Maybe(given, g) == p + Maybe(taken, t)
    requires (given ==> g in p) && (taken ==> t.tag != r.tag) && OwedOnce(p, r)
    ensures if given && g.tag == r.tag then g == r && NoneOwed(q, r.tag) else OwedOnce(q, r)
  {
    forall z: Resp
      ensures q[z] + Maybe(given, g)[z] == p[z] + Maybe(taken, t)[z]
    {
      assert (q + Maybe(given, g))[z] == (p + Maybe(taken, t))[z];
    }
  }

  lemma SettledBag(p: multiset<Resp>, q: multiset<Resp>, given: bool, g: Resp, taken: bool, t: Resp, tag: nat)
    requires q + Maybe(given, g) == p + Maybe(taken, t)
    requires (given ==> g in p) && (taken ==> t.tag != tag) && NoneOwed(p, tag)
    ensures NoneOwed(q, tag) && (given ==> g.tag != tag)
  {
    forall z | z in q
      ensures z.tag != tag
    {
      assert (q + Maybe(given, g))[z] == (p + Maybe(taken, t))[z];
    }
  }

  lemma AcceptBag(p: multiset<Resp>, q: multiset<Resp>, given: bool, g: Resp, r: Resp)
    requires q + Maybe(given, g) == p + multiset{r} && (given ==> g in p) && NoneOwed(p, r.tag)
    ensures OwedOnce(q, r)
  {
    forall z: Resp
      ensures q[z] + Maybe(given, g)[z] == p[z] + multiset{r}[z]
    {
      assert (q + Maybe(given, g))[z] == (p + multiset{r})[z];
    }
  }

  /** A cycle takes the answer given from what is owed and adds the one newly
      promised. */
  lemma OwedStep(x: Sys, i: In)
    requires Inv(x) && EnvOk(x, i)
    ensures Inv(SysNext(x, i))
    ensures Answers(SysNext(x, i).c, SysNext(x, i).flat) + Maybe(x.c.f.respValid, x.c.f.resp)
         == Answers(x.c, x.flat) + Maybe(Accepts(x.c, i), Expected(x, i))
    ensures x.c.f.respValid ==> x.c.f.resp in Answers(x.c, x.flat)
  {
    StepKeeps(x, i);
    if x.c.f.respValid { RespIsOwed(x); }
    var y := SysNext(x, i);
    var d: seq<Resp> := if x.c.f.respValid then [x.c.f.resp] else [];
    var a: seq<Resp> := if Accepts(x.c, i) then [Expected(x, i)] else [];
    assert multiset(x.accepted + a) == multiset(x.accepted) + multiset(a);
    assert multiset(x.delivered + d) == multiset(x.delivered) + multiset(d);
    Owed(multiset(x.accepted), multiset(x.delivered), Answers(x.c, x.flat), Answers(y.c, y.flat),
         multiset(a), multiset(d));
  }

  lemma Owed<T>(acc: multiset<T>, del: multiset<T>, p: multiset<T>, q: multiset<T>, a: multiset<T>, d: multiset<T>)
    requires acc == del + p && acc + a == (del + d) + q
    ensures q + d == p + a
  {
    calc {
      (q + d) + del;
      { BagAround(del, d, q); }
      (del + p) + a;
      { BagAround(del, a, p); BagSwap(del, p, a); }
      (p + a) + del;
    }
    BagCancel(q + d, p + a, del);
  }

  lemma BagAround<T>(x: multiset<T>, y: multiset<T>, z: multiset<T>)
    ensures (x + y) + z == (z + y) + x
  {
  }

  /** A request under an unused tag is waited for once accepted. */
  lemma AcceptWaits(x: Sys, i: In)
    requires Inv(x) && EnvOk(x, i) && Accepts(x.c, i) && Settled(x, i.tag)
    ensures Inv(SysNext(x, i)) && Waiting(SysNext(x, i), Expected(x, i))
  {
    OwedStep(x, i);
    AcceptBag(Answers(x.c, x.flat), Answers(SysNext(x, i).c, SysNext(x, i).flat), x.c.f.respValid, x.c.f.resp,
              Expected(x, i));
  }

  lemma RespIsOwed(x: Sys)
    requires Shape(x.c) && x.c.f.respValid
    ensures x.c.f.resp in Answers(x.c, x.flat)
  {
    assert x.c.f.resp in multiset{x.c.f.resp};
  }

  /** Until the tag is used again, the answer to it is the promised one; then it
      is settled. */
  lemma WaitingStep(x: Sys, i: In, r: Resp)
    requires Inv(x) && EnvOk(x, i) && Waiting(x, r) && !(Accepts(x.c, i) && i.tag == r.tag)
    ensures Inv(SysNext(x, i))
    ensures if x.c.f.respValid && x.c.f.resp.tag == r.tag then x.c.f.resp == r && Settled(SysNext(x, i), r.tag)
            else Waiting(SysNext(x, i), r)
  {
    OwedStep(x, i);
    WaitingBag(Answers(x.c, x.flat), Answers(SysNext(x, i).c, SysNext(x, i).flat), x.c.f.respValid, x.c.f.resp,
               Accepts(x.c, i), Expected(x, i), r);
  }

  lemma SettledStep(x: Sys, i: In, tag: nat)
    requires Inv(x) && EnvOk(x, i) && Settled(x, tag) && !(Accepts(x.c, i) && i.tag == tag)
    ensures Inv(SysNext(x, i)) && Settled(SysNext(x, i), tag)
    ensures x.c.f.respValid ==> x.c.f.resp.tag != tag
  {
    OwedStep(x, i);
    SettledBag(Answers(x.c, x.flat), Answers(SysNext(x, i).c, SysNext(x, i).flat), x.c.f.respValid, x.c.f.resp,
               Accepts(x.c, i), Expected(x, i), tag);
  }

  /** The run never accepts another request under this tag. */
  predicate NoReuse(x: Sys, ins: seq<In>, tag: nat)
    requires LegalRun(x, ins)
    decreases |ins|
  {
    ins == [] || (!(Accepts(x.c, ins[0]) && ins[0].tag == tag) && NoReuse(SysNext(x, ins[0]), ins[1..], tag))
  }

  lemma NoReuseStep(x: Sys, ins: seq<In>, tag: nat)
    requires LegalRun(x, ins) && NoReuse(x, ins, tag) && ins != []
    ensures Shape(x.c) && EnvOk(x, ins[0]) && !(Accepts(x.c, ins[0]) && ins[0].tag == tag)
    ensures LegalRun(SysNext(x, ins[0]), ins[1..]) && NoReuse(SysNext(x, ins[0]), ins[1..], tag)
  {
  }

  /** The answers given under a tag during a run, in order. */
  function AnswersTo(x: Sys, ins: seq<In>, tag: nat): seq<Resp>
    requires LegalRun(x, ins)
    decreases |ins|
  {
    if ins == [] then []
    else (if x.c.f.respValid && x.c.f.resp.tag == tag then [x.c.f.resp] else [])
         + AnswersTo(SysNext(x, ins[0]), ins[1..], tag)
  }

  lemma {:induction false} SettledIsSilent(x: Sys, ins: seq<In>, tag: nat)
    requires Inv(x) && LegalRun(x, ins) && Settled(x, tag) && NoReuse(x, ins, tag)
    ensures AnswersTo(x, ins, tag) == []
    decreases |ins|
  {
    if ins != [] {
      NoReuseStep(x, ins, tag);
      SettledStep(x, ins[0], tag);
      SettledIsSilent(SysNext(x, ins[0]), ins[1..], tag);
    }
  }

  lemma {:induction false} AnsweredAtMostOnce(x: Sys, ins: seq<In>, r: Resp)
    requires Inv(x) && LegalRun(x, ins) && Waiting(x, r) && NoReuse(x, ins, r.tag)
    ensures AnswersTo(x, ins, r.tag) == [] || AnswersTo(x, ins, r.tag) == [r]
    decreases |ins|
  {
    if ins != [] {
      NoReuseStep(x, ins, r.tag);
      WaitingStep(x, ins[0], r);
      if x.c.f.respValid && x.c.f.resp.tag == r.tag {
        SettledIsSilent(SysNext(x, ins[0]), ins[1..], r.tag);
      } else {
        AnsweredAtMostOnce(SysNext(x, ins[0]), ins[1..], r);
      }
    }
  }

  /** A request accepted under an unused tag is answered, if at all, once, and
      with what the flat memory held when it was accepted, whatever misses,
      evictions, fills and other answers come between. */
  lemma ReadSeesFlatMemory(x: Sys, i: In, ins: seq<In>)
    requires Inv(x) && EnvOk(x, i) && Accepts(x.c, i) && Settled(x, i.tag)
    requires LegalRun(SysNext(x, i), ins) && NoReuse(SysNext(x, i), ins, i.tag)
    ensures var got := AnswersTo(SysNext(x, i), ins, i.tag);
            got == [] || got == [Resp(i.tag, if i.we then i.wdata else ReadValue(x.flat, i.addr.Byte(), i.size))]
  {
    AcceptWaits(x, i);
    AnsweredAtMostOnce(SysNext(x, i), ins, Expected(x, i));
  }

  // ---------------------------------------------------------------- counting

  lemma {:induction false} PromisesCount(ent: seq<Entry>, flat: Mem)
    requires AllShaped(ent)
    ensures |Promises(ent, flat)| == BusyCount(ent)
  {
    if ent != [] {
      assert forall k :: 0 <= k < |ent| - 1 ==> ent[..|ent| - 1][k] == ent[k];
      PromisesCount(ent[..|ent| - 1], flat);
    }
  }

  lemma BagSize(s: seq<Resp>)
    ensures |multiset(s)| == |s|
  {
    if s != [] {
      BagSize(s[..|s| - 1]);
      assert s == s[..|s| - 1] + [s[|s| - 1]];
      assert multiset(s) == multiset(s[..|s| - 1]) + multiset{s[|s| - 1]};
    }
  }

  /** Requests accepted but not answered are exactly the busy entries, the queued
      responses and the one in the response register; the queue never overflows. */
  lemma NothingLost(x: Sys)
    requires Inv(x)
    ensures |x.accepted| - |x.delivered| == BusyCount(x.c.m.ent) + x.c.f.cnt + (if x.c.f.respValid then 1 else 0)
    ensures x.c.f.cnt <= FIFO_DEPTH
  {
    PromisesCount(x.c.m.ent, x.flat);
    BagSize(x.accepted);
    BagSize(x.delivered);
    BagSize(Window(x.c.f.buf, x.c.f.head, x.c.f.cnt));
  }

  /** Once nothing is in flight or queued, every accepted request has been answered
      exactly once, with its tag and its value. */
  lemma AllAnswered(x: Sys)
    requires Inv(x) && AllIdle(x.c.m.ent) && x.c.f.cnt == 0 && !x.c.f.respValid
    ensures multiset(x.accepted) == multiset(x.delivered)
  {
    NoPromises(x.c.m.ent, x.flat);
    assert Window(x.c.f.buf, x.c.f.head, 0) == [];
  }

  // ---------------------------------------------------------------- the memory port

  /** The port carries one transaction at a time: nothing is requested while a
      read is outstanding. */
  lemma OneOutstanding(x: Sys)
    requires Inv(x) && x.pend
    ensures PortRequest(x.c) == NoReq
  {
    assert x.c.m.ent[x.c.m.busyIdx].Busy();
  }

  /** A fill never overtakes a writeback of its own line: while any entry fetches
      a line, no entry still has to write that line back. */
  lemma NoOvertaking(x: Sys, j: nat, k: nat)
    requires Inv(x) && j < |x.c.m.ent| && k < |x.c.m.ent| && x.c.m.ent[j].Busy() && x.c.m.ent[k].st.Wb?
    ensures x.c.m.ent[j].addr.Line() != x.c.m.ent[k].vaddr.Line()
  {
    WbElsewhere(x, k, j);
  }

  /** An entry in flight reserves an empty way, and neither its line nor its dirty
      victim is in a way of its set. */
  lemma OneHome(x: Sys, j: nat, w: nat)
    requires Inv(x) && j < |x.c.m.ent| && x.c.m.ent[j].Busy() && w < 2
    ensures var e := x.c.m.ent[j];
            && !At(x.c.slots, e.addr.idx, e.way).valid
            && (At(x.c.slots, e.addr.idx, w).valid ==>
                 At(x.c.slots, e.addr.idx, w).tag != e.addr.tag
                 && (e.vdirty ==> At(x.c.slots, e.addr.idx, w).tag != e.vaddr.tag))
            && (e.vdirty ==> e.vaddr.Line() != e.addr.Line())
  {
    assert EntrySlots(x.c.slots, x.c.m.ent[j]) && EntryOwn(x.c.m.ent[j]);
  }

  /** Two entries in flight never meet: of one set they reserve different ways,
      and no line is fetched or evicted twice, or fetched by one and evicted by
      the other. */
  lemma EntriesApart(x: Sys, j: nat, k: nat)
    requires Inv(x) && j < |x.c.m.ent| && k < |x.c.m.ent| && j != k
    requires x.c.m.ent[j].Busy() && x.c.m.ent[k].Busy()
    ensures var e, f := x.c.m.ent[j], x.c.m.ent[k];
            && (e.addr.idx == f.addr.idx ==> e.way != f.way)
            && e.addr.Line() != f.addr.Line()
            && (e.vdirty ==> e.vaddr.Line() != f.addr.Line())
            && (f.vdirty ==> f.vaddr.Line() != e.addr.Line())
            && (e.vdirty && f.vdirty ==> e.vaddr.Line() != f.vaddr.Line())
  {
    var e, f := x.c.m.ent[j], x.c.m.ent[k];
    assert EntryOwn(e) && EntryOwn(f);
    if j < k { assert PairOk(e, f); } else { assert PairOk(f, e); }
    LineNoInjective(e.addr.tag, e.addr.idx, f.addr.tag, f.addr.idx);
    LineNoInjective(e.vaddr.tag, e.vaddr.idx, f.addr.tag, f.addr.idx);
    LineNoInjective(f.vaddr.tag, f.vaddr.idx, e.addr.tag, e.addr.idx);
    LineNoInjective(e.vaddr.tag, e.vaddr.idx, f.vaddr.tag, f.vaddr.idx);
  }

  /** No line is in both ways of its set. */
  lemma WaysApart(x: Sys, s: nat)
    requires Inv(x) && s < SETS && At(x.c.slots, s, 0).valid && At(x.c.slots, s, 1).valid
    ensures LineNo(At(x.c.slots, s, 0).tag, s) != LineNo(At(x.c.slots, s, 1).tag, s)
  {
    assert SetOk(x.c.slots, s);
  }

  /** The lowest entry that keeps memory's copy of a line from being the newest. */
  function Owner(ent: seq<Entry>, tag: nat, s: nat): (k: nat)
    ensures k <= |ent|
    ensures k < |ent| ==> Owes(ent[k], tag, s)
    ensures forall j :: 0 <= j < k ==> !Owes(ent[j], tag, s)
  {
    if ent == [] || Owes(ent[0], tag, s) then 0 else 1 + Owner(ent[1..], tag, s)
  }

  /** Where a line's newest content is: a dirty way, the fill in flight with the
      store that missed, a victim not yet written back, or memory. */
  function Abstract(c: Cache, mem: Mem, tag: nat, s: nat): seq<byte>
    requires Shape(c) && s < SETS
  {
    var k := Owner(c.m.ent, tag, s);
    if IsDirty(At(c.slots, s, 0), tag) then At(c.slots, s, 0).data
    else if IsDirty(At(c.slots, s, 1), tag) then At(c.slots, s, 1).data
    else if k < |c.m.ent| then
      var e := c.m.ent[k];
      if e.addr.tag == tag then Installed(e, ReadLine(mem, LineNo(tag, s))) else e.vdata
    else ReadLine(mem, LineNo(tag, s))
  }

  /** An entry that owes a line has its flat content. */
  lemma OwnerHasIt(x: Sys, e: Entry, tag: nat, s: nat)
    requires EntryShape(e) && EntryData(x, e) && EntryOwn(e) && s < SETS && Owes(e, tag, s)
    ensures ReadLine(x.flat, LineNo(tag, s))
         == if e.addr.tag == tag then Installed(e, ReadLine(x.mem, LineNo(tag, s))) else e.vdata
  {
  }

  lemma SlotHasIt(x: Sys, tag: nat, s: nat, w: nat)
    requires Shape(x.c) && s < SETS && w < 2 && SlotData(x, s, w) && IsDirty(At(x.c.slots, s, w), tag)
    ensures ReadLine(x.flat, LineNo(tag, s)) == At(x.c.slots, s, w).data
  {
  }

  /** The flat memory is this function of the hardware state, line by line. */
  lemma FlatIsAbstract(x: Sys, tag: nat, s: nat)
    requires Inv(x) && s < SETS
    ensures ReadLine(x.flat, LineNo(tag, s)) == Abstract(x.c, x.mem, tag, s)
  {
    var k := Owner(x.c.m.ent, tag, s);
    if IsDirty(At(x.c.slots, s, 0), tag) {
      SlotHasIt(x, tag, s, 0);
    } else if IsDirty(At(x.c.slots, s, 1), tag) {
      SlotHasIt(x, tag, s, 1);
    } else if k < |x.c.m.ent| {
      OwnerHasIt(x, x.c.m.ent[k], tag, s);
    } else {
      assert LineOk(x, tag, s) && !Covered(x.c, tag, s);
    }
  }

  // ---------------------------------------------------------------- flush

  /** When the walk reports done, no valid line is dirty and memory holds the
      flat content at every byte. */
  lemma FlushedMemory(x: Sys)
    requires Inv(x) && x.c.fl.done
    ensures Same(x.mem, x.flat)
    ensures forall s, w :: 0 <= s < SETS && 0 <= w < 2 ==> !(At(x.c.slots, s, w).valid && At(x.c.slots, s, w).dirty)
  {
    forall l: nat
      ensures ReadLine(x.mem, l) == ReadLine(x.flat, l)
    {
      var tag, s := l / SETS, l % SETS;
      assert LineNo(tag, s) == l;
      assert LineOk(x, tag, s);
      assert !DirtyIn(x.c.slots, tag, s);
      assert !Covered(x.c, tag, s);
    }
    SameByLines(x.mem, x.flat);
  }

  /** Slots the walk has yet to leave, and the cycle that reports. */
  function StepsLeft(fl: Flush): (n: int)
  {
    if fl.busy then 2 * SETS + 1 - (2 * fl.idx + fl.way) else 0
  }

  /** Memory accepts whatever the walk offers. */
  predicate AlwaysReady(ins: seq<In>) {
    forall k :: 0 <= k < |ins| ==> ins[k].memReady
  }

  lemma ReadyTail(ins: seq<In>)
    requires AlwaysReady(ins) && ins != []
    ensures ins[0].memReady && AlwaysReady(ins[1..])
  {
  }

  lemma WalkStep(x: Sys, i: In)
    requires Shape(x.c) && i.Ok() && i.memReady && x.c.fl.busy && (x.c.fl.idx == SETS ==> x.c.fl.way == 0)
    ensures var fl := SysNext(x, i).c.fl;
            if StepsLeft(x.c.fl) == 1 then fl.done else fl.busy && StepsLeft(fl) == StepsLeft(x.c.fl) - 1
  {
  }

  lemma {:induction false} WalkReports(x: Sys, ins: seq<In>)
    requires Inv(x) && LegalRun(x, ins) && AlwaysReady(ins) && x.c.fl.busy && |ins| == StepsLeft(x.c.fl)
    ensures Run(x, ins).c.fl.done
    decreases |ins|
  {
    ReadyTail(ins);
    StepKeeps(x, ins[0]);
    WalkStep(x, ins[0]);
    if |ins| > 1 {
      WalkReports(SysNext(x, ins[0]), ins[1..]);
    }
  }

  /** A flush in progress reports after exactly as many cycles as there are slots
      left, when memory keeps accepting. */
  lemma FlushFinishes(x: Sys, ins: seq<In>)
    requires Inv(x) && LegalRun(x, ins) && AlwaysReady(ins) && x.c.fl.busy && |ins| == StepsLeft(x.c.fl)
    ensures Run(x, ins).c.fl.done && Inv(Run(x, ins))
    ensures Same(Run(x, ins).mem, Run(x, ins).flat)
  {
    WalkReports(x, ins);
    RunKeeps(x, ins);
    FlushedMemory(Run(x, ins));
  }
}
