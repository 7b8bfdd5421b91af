/** With no new requests, a memory that takes every request and answers each
    read in bounded time, everything in flight is answered in bounded time. */
module L1dDrain {
  import opened Bytes
  import opened ByteMemory
  import opened Mshrs
  import opened L1d
  import opened L1dInv
  import opened L1dSteps
  import opened L1dProof
  import opened L1dResults
  import opened MemPort

  /** Cycles an entry may still keep others waiting, answers included; the time
      of an outstanding read is counted apart. */
  function Effort(e: Entry, latency: nat): nat {
    match e.st
    case Idle => 0
    case Wb => latency + 5
    case FillReq => latency + 4
    case FillWait => 3
    case Done => 3
  }

  function Efforts(ent: seq<Entry>, latency: nat): nat {
    if ent == [] then 0 else Efforts(ent[..|ent| - 1], latency) + Effort(ent[|ent| - 1], latency)
  }

  lemma {:induction false} EffortsUpdate(ent: seq<Entry>, latency: nat, k: nat, e: Entry)
    requires k < |ent|
    ensures Efforts(ent[k := e], latency) + Effort(ent[k], latency) == Efforts(ent, latency) + Effort(e, latency)
  {
    var n := |ent| - 1;
    if k == n {
      assert ent[k := e][..n] == ent[..n];
    } else {
      assert ent[k := e][..n] == ent[..n][k := e];
      EffortsUpdate(ent[..n], latency, k, e);
    }
  }

  lemma {:induction false} NoEfforts(ent: seq<Entry>, latency: nat)
    ensures Efforts(ent, latency) == 0 <==> AllIdle(ent)
  {
    if ent != [] {
      var n := |ent| - 1;
      assert forall k :: 0 <= k < n ==> ent[..n][k] == ent[k];
      NoEfforts(ent[..n], latency);
      assert AllIdle(ent) <==> AllIdle(ent[..n]) && !ent[n].Busy();
    }
  }

  lemma {:induction false} EffortsBound(ent: seq<Entry>, latency: nat)
    ensures Efforts(ent, latency) <= |ent| * (latency + 5)
  {
    if ent != [] {
      var n := |ent| - 1;
      EffortsBound(ent[..n], latency);
      assert n * (latency + 5) + (latency + 5) == (n + 1) * (latency + 5);
    }
  }

  // ---------------------------------------------------------------- one cycle

  /** An upper bound on the cycles until nothing is in flight; `waited` is how
      long the outstanding read, if any, has waited. */
  function Remaining(x: Sys, latency: nat, waited: nat): nat
    requires Shape(x.c) && waited < latency
  {
    Efforts(x.c.m.ent, latency) + (if x.pend then latency - waited else 0) + Unread(x.c.f)
  }

  function Unread(f: Fifo): nat {
    2 * f.cnt + if f.respValid then 1 else 0
  }

  predicate Prompt(x: Sys, i: In, latency: nat, waited: nat) {
    x.pend && !i.memRespValid ==> waited + 1 < latency
  }

  function WaitedNext(x: Sys, i: In, waited: nat): nat {
    if x.pend && !i.memRespValid then waited + 1 else 0
  }

  predicate QuietIn(i: In) {
    !i.valid && i.memReady
  }

  /** Without a request the queue only gives an answer away and takes a fill's. */
  lemma UnreadStep(c: Cache, i: In)
    requires Shape(c) && i.Ok() && !i.valid
    ensures var r := Unread(FifoNext(c, i)) - if CommitFire(c) then 2 else 0;
            if Unread(c.f) == 0 then r == 0 else r < Unread(c.f)
  {
  }

  lemma SendEffort(m: Mshr, latency: nat)
    requires ReqValid(m)
    ensures var k := Lowest(m.ent, KSend);
            Efforts(Send(m, k).ent, latency) == Efforts(m.ent, latency) - if m.ent[k].st.Wb? then 1 else latency + 1
  {
    var k := Lowest(m.ent, KSend);
    EffortsUpdate(m.ent, latency, k, Send(m, k).ent[k]);
  }

  /** A released entry was done and cost three. */
  lemma ReleaseEffort(ent: seq<Entry>, latency: nat, k: nat)
    requires k < |ent| && ent[k].st.Done?
    ensures Efforts(ent[k := ent[k].(st := Idle)], latency) == Efforts(ent, latency) - 3
  {
    EffortsUpdate(ent, latency, k, ent[k].(st := Idle));
  }

  lemma ReceiveEffort(ent: seq<Entry>, latency: nat, k: nat, data: seq<byte>)
    requires k < |ent| && ent[k].st.FillWait?
    ensures Efforts(ent[k := ent[k].(fill := data, st := Done)], latency) == Efforts(ent, latency)
  {
    EffortsUpdate(ent, latency, k, ent[k].(fill := data, st := Done));
  }

  /** The turn of the memory port: what it sends or receives is paid for. */
  lemma PortEffort(x: Sys, i: In, latency: nat, waited: nat)
    requires Shape(x.c) && PortOk(x.c.m, x.pend) && EnvOk(x, i) && QuietIn(i) && !x.c.fl.busy
    requires waited < latency && Prompt(x, i, latency, waited)
    ensures ReqShape(PortRequest(x.c))
    ensures var m := M3(x, i);
            var pend := PortStep(Port(x.mem, x.pend, x.pendData), PortRequest(x.c), i.memReady, i.memRespValid).pend;
            var left := Efforts(m.ent, latency) + if pend then latency - WaitedNext(x, i, waited) else 0;
            var had := Efforts(x.c.m.ent, latency) + if x.pend then latency - waited else 0;
            if x.pend || ReqValid(x.c.m) then left < had else left == had
  {
    PortRequestShape(x.c);
    if i.memRespValid {
      ReceiveEffort(x.c.m.ent, latency, x.c.m.busyIdx, i.memRdata);
    } else if ReqValid(x.c.m) {
      SendEffort(x.c.m, latency);
    }
  }

  lemma CommitEffort(x: Sys, i: In, latency: nat)
    requires Shape(x.c) && PortOk(x.c.m, x.pend) && EnvOk(x, i) && !i.valid && !x.c.fl.busy
    ensures Efforts(MshrNext(x.c.m, MshrInput(x.c, i)).ent, latency)
         == Efforts(M3(x, i).ent, latency) - if CommitFire(x.c) then 3 else 0
  {
    StagesAreNext(x, i);
    if CommitFire(x.c) {
      var k := Lowest(x.c.m.ent, KDone);
      DoneUntouched(x, i, k);
      ReleaseEffort(M3(x, i).ent, latency, k);
    }
  }

  /** With nothing to read and no port business, a busy entry is a done one and
      is installed at once. */
  lemma SomethingMoves(c: Cache, pend: bool)
    requires Shape(c) && PortOk(c.m, pend) && !pend && !ReqValid(c.m) && c.f.cnt == 0 && !c.fl.busy
    ensures AllIdle(c.m.ent) || CommitFire(c)
  {
    if !AllIdle(c.m.ent) {
      var k :| 0 <= k < |c.m.ent| && c.m.ent[k].Busy();
      assert !Wanted(KSend, c.m.ent[k]);
      assert Wanted(KDone, c.m.ent[k]);
    }
  }

  /** The parts of the next state that a drain looks at. */
  lemma QuietNext(x: Sys, i: In)
    requires Shape(x.c) && EnvOk(x, i) && QuietIn(i)
    ensures ReqShape(PortRequest(x.c))
    ensures var y := SysNext(x, i);
            && y.c.m == MshrNext(x.c.m, MshrInput(x.c, i)) && y.c.f == FifoNext(x.c, i) && y.accepted == x.accepted
            && y.pend == PortStep(Port(x.mem, x.pend, x.pendData), PortRequest(x.c), i.memReady, i.memRespValid).pend
  {
    PortRequestShape(x.c);
  }

  lemma WalkRemaining(x: Sys, i: In, latency: nat)
    requires Shape(x.c) && PortOk(x.c.m, x.pend) && AllIdle(x.c.m.ent) && EnvOk(x, i) && QuietIn(i) && x.c.fl.busy
    ensures !x.pend && !SysNext(x, i).pend && Efforts(x.c.m.ent, latency) == 0
    ensures SysNext(x, i).c.m == x.c.m && SysNext(x, i).accepted == x.accepted
    ensures var was, left := Unread(x.c.f), Unread(SysNext(x, i).c.f);
            if was == 0 then left == 0 else left < was
  {
    QuietNext(x, i);
    IdlePort(x.c.m, x.pend);
    IdleQuiet(x.c.m, MshrInput(x.c, i));
    NoEfforts(x.c.m.ent, latency);
    UnreadStep(x.c, i);
  }

  lemma PlainRemaining(x: Sys, i: In, latency: nat, waited: nat)
    requires Shape(x.c) && PortOk(x.c.m, x.pend) && EnvOk(x, i) && QuietIn(i) && !x.c.fl.busy
    requires waited < latency && Prompt(x, i, latency, waited)
    ensures WaitedNext(x, i, waited) < latency
    ensures ReqShape(PortRequest(x.c))
    ensures var pend := PortStep(Port(x.mem, x.pend, x.pendData), PortRequest(x.c), i.memReady, i.memRespValid).pend;
            var left := Efforts(MshrNext(x.c.m, MshrInput(x.c, i)).ent, latency)
                        + (if pend then latency - WaitedNext(x, i, waited) else 0) + Unread(FifoNext(x.c, i));
            if Remaining(x, latency, waited) == 0 then left == 0 else left < Remaining(x, latency, waited)
  {
    PortEffort(x, i, latency, waited);
    CommitEffort(x, i, latency);
    UnreadStep(x.c, i);
    NoEfforts(x.c.m.ent, latency);
    if !x.pend && !ReqValid(x.c.m) && x.c.f.cnt == 0 {
      SomethingMoves(x.c, x.pend);
    }
  }

  /** Every quiet cycle brings the end nearer, and the end is kept. */
  lemma RemainingFalls(x: Sys, i: In, latency: nat, waited: nat)
    requires Shape(x.c) && PortOk(x.c.m, x.pend) && (x.c.fl.busy ==> AllIdle(x.c.m.ent))
    requires EnvOk(x, i) && QuietIn(i) && waited < latency && Prompt(x, i, latency, waited) && Shape(SysNext(x, i).c)
    ensures WaitedNext(x, i, waited) < latency && SysNext(x, i).accepted == x.accepted
    ensures var was, left := Remaining(x, latency, waited), Remaining(SysNext(x, i), latency, WaitedNext(x, i, waited));
            if was == 0 then left == 0 else left < was
  {
    QuietNext(x, i);
    if x.c.fl.busy {
      WalkRemaining(x, i, latency);
    } else {
      PlainRemaining(x, i, latency, waited);
    }
  }

  // ---------------------------------------------------------------- runs

  /** No request comes, and memory takes everything the cache asks for. */
  predicate Quiet(ins: seq<In>) {
    forall k :: 0 <= k < |ins| ==> QuietIn(ins[k])
  }

  lemma QuietTail(ins: seq<In>)
    requires Quiet(ins) && ins != []
    ensures QuietIn(ins[0]) && Quiet(ins[1..])
  {
  }

  /** Every read is answered in at most `latency` cycles; the outstanding one has
      waited `waited` of them. */
  predicate AnsweredWithin(x: Sys, ins: seq<In>, latency: nat, waited: nat)
    requires LegalRun(x, ins)
    decreases |ins|
  {
    ins == [] || (&& Prompt(x, ins[0], latency, waited)
                  && AnsweredWithin(SysNext(x, ins[0]), ins[1..], latency, WaitedNext(x, ins[0], waited)))
  }

  predicate NothingInFlight(c: Cache) {
    AllIdle(c.m.ent) && c.f.cnt == 0 && !c.f.respValid
  }

  lemma {:induction false} RunDrains(x: Sys, ins: seq<In>, latency: nat, waited: nat)
    requires Inv(x) && LegalRun(x, ins) && Quiet(ins) && waited < latency && AnsweredWithin(x, ins, latency, waited)
    requires Remaining(x, latency, waited) <= |ins|
    ensures NothingInFlight(Run(x, ins).c) && Run(x, ins).accepted == x.accepted
    decreases |ins|
  {
    if ins == [] {
      NoEfforts(x.c.m.ent, latency);
    } else {
      QuietTail(ins);
      StepKeeps(x, ins[0]);
      RemainingFalls(x, ins[0], latency, waited);
      RunDrains(SysNext(x, ins[0]), ins[1..], latency, WaitedNext(x, ins[0], waited));
    }
  }

  /** From every reachable state, once requests stop, every accepted request has
      its one answer within this many cycles. */
  lemma EverythingIsAnswered(x: Sys, ins: seq<In>, latency: nat)
    requires Inv(x) && LegalRun(x, ins) && Quiet(ins) && 0 < latency && AnsweredWithin(x, ins, latency, 0)
    requires |ins| >= |x.c.m.ent| * (latency + 5) + latency + 2 * FIFO_DEPTH + 1
    ensures var y := Run(x, ins);
            NothingInFlight(y.c) && y.accepted == x.accepted && multiset(y.delivered) == multiset(x.accepted)
  {
    EffortsBound(x.c.m.ent, latency);
    RunDrains(x, ins, latency, 0);
    RunKeeps(x, ins);
    AllAnswered(Run(x, ins));
  }
}
