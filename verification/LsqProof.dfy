/** The load/store queue beside the program order it serves: whole cycles and
    whole runs. */
module LsqProof {
  import opened Bytes
  import opened ByteMemory
  import opened Ring
  import opened Lsq
  import opened LsqAbs
  import opened LsqSearch

  datatype Sys = Sys(q: Queues, a: Abs)

  /** What the surrounding core knows in a cycle: the program position at the
      head of the reorder buffer, those of the dispatched operations and of the
      squash point, which live entry an arriving address is for, and the word
      data memory shows. */
  datatype Env = Env(base: nat, id0: nat, id1: nat, point: nat, ldAt: nat, stAt: nat, rdData: nat)

  ghost predicate AreLoads(es: seq<LqEntry>, ls: seq<LoadOp>, span: nat)
    requires span > 0
  {
    |es| == |ls| && forall i :: 0 <= i < |ls| ==> IsLoad(es[i], ls[i], span)
  }

  ghost predicate Inv(x: Sys) {
    && x.q.Shape() && AbsInv(x.a)
    && AreLoads(x.q.Loads(), x.a.loads, x.q.span)
    && |x.q.Stores()| == |x.a.stores|
    && forall j :: 0 <= j < |x.a.stores| ==> IsStore(x.q.Stores()[j], x.a.stores[j], x.q.span)
  }

  // ---------------------------------------------------------------- contract of the core

  predicate InWindow(id: nat, base: nat, span: nat) { base <= id < base + span }

  /** All live positions lie in one window from the reorder-buffer head, and the
      wires carry their indices. */
  ghost predicate WindowOk(x: Sys, i: In, e: Env)
    requires x.q.Shape()
  {
    && i.robHead == RobOf(e.base, x.q.span)
    && (forall k :: 0 <= k < |x.a.loads| ==> InWindow(x.a.loads[k].id, e.base, x.q.span))
    && (forall k :: 0 <= k < |x.a.stores| ==> InWindow(x.a.stores[k].id, e.base, x.q.span))
    && i.disp0.rob == RobOf(e.id0, x.q.span) && i.disp1.rob == RobOf(e.id1, x.q.span)
    && (i.squashValid ==> InWindow(e.point, e.base, x.q.span) && i.squashRob == RobOf(e.point, x.q.span))
  }

  /** Dispatched operations are younger than everything before them. */
  predicate DispatchOk(x: Sys, i: In, e: Env)
    requires x.q.Shape()
  {
    && (Takes0(x.q, i, true) || Takes0(x.q, i, false) ==> Youngest(x.a, e.id0))
    && (Takes1(x.q, i, true) || Takes1(x.q, i, false) ==>
          Youngest(x.a, e.id1) && (Takes0(x.q, i, true) || Takes0(x.q, i, false) ==> e.id0 < e.id1))
  }

  /** Each address arrives once, for a live operation. */
  predicate ArrivalOk(x: Sys, i: In, e: Env)
    requires x.q.Shape()
  {
    && (i.ldValid ==> e.ldAt < |x.a.loads| && e.ldAt < x.q.lqCnt && !x.a.loads[e.ldAt].addrV
                      && i.ldIdx == Wrap(x.q.lqHead + e.ldAt, |x.q.lq|))
    && (i.stValid ==> e.stAt < |x.a.stores| && e.stAt < x.q.sqCnt && !x.a.stores[e.stAt].addrV
                      && i.stIdx == Wrap(x.q.sqHead + e.stAt, |x.q.sq|))
  }

  /** Commits are in program order: a load once answered, a store once addressed
      (in this very cycle at the latest), and no survivor of a squash is older
      than what commits. */
  predicate CommitOk(x: Sys, i: In, e: Env) {
    && (i.commitLoad ==>
          && x.a.loads != [] && x.a.loads[0].resolved && (i.squashValid ==> x.a.loads[0].id <= e.point)
          && (x.a.stores == [] || x.a.loads[0].id < x.a.stores[0].id
              || (i.commitStore && (|x.a.stores| == 1 || x.a.loads[0].id < x.a.stores[1].id))))
    && (i.commitStore ==>
          && x.a.stores != [] && (x.a.stores[0].addrV || (i.stValid && e.stAt == 0))
          && (i.squashValid ==> x.a.stores[0].id <= e.point)
          && (x.a.loads == [] || x.a.stores[0].id < x.a.loads[0].id
              || (i.commitLoad && (|x.a.loads| == 1 || x.a.stores[0].id < x.a.loads[1].id))))
  }

  /** Data memory shows the load being answered the bytes it holds. */
  predicate ReadOk(x: Sys, i: In, e: Env)
    requires x.q.Shape() && i.Ok(x.q)
  {
    var f := Found(x.q, i.robHead, 0);
    f < x.q.lqCnt ==>
      var l := x.q.Loads()[f];
      ToBytes(e.rdData, NBytes(l.size)) == ReadBytes(x.a.mem, l.addr, NBytes(l.size))
  }

  ghost predicate EnvOk(x: Sys, i: In, e: Env)
    requires x.q.Shape()
  {
    i.Ok(x.q) && WindowOk(x, i, e) && DispatchOk(x, i, e) && ArrivalOk(x, i, e) && CommitOk(x, i, e) && ReadOk(x, i, e)
  }

  // ---------------------------------------------------------------- the cycle on operations

  function A1(x: Sys, i: In, e: Env): Abs
    requires x.q.Shape() && i.Ok(x.q)
  {
    var f := Found(x.q, i.robHead, 0);
    if f < x.q.lqCnt && f < |x.a.loads| && !i.squashAll then Respond(x.a, f, Answer(x.q, i.robHead, f, e.rdData))
    else x.a
  }

  function Arrive(a: Abs, i: In, e: Env): Abs {
    var b := if i.ldValid && e.ldAt < |a.loads| then ArriveLoad(a, e.ldAt, i.ldAddr, i.ldSize, i.ldSigned) else a;
    if i.stValid && e.stAt < |b.stores| then ArriveStore(b, e.stAt, i.stAddr, i.stSize, i.stData) else b
  }

  /** The commits of the cycle, the older one first. */
  function Commit(a: Abs, i: In): Abs {
    if i.commitLoad && i.commitStore && a.loads != [] && a.stores != [] then
      if a.loads[0].id < a.stores[0].id then RetireStore(RetireLoad(a)) else RetireLoad(RetireStore(a))
    else if i.commitLoad && a.loads != [] then RetireLoad(a)
    else if i.commitStore && a.stores != [] then RetireStore(a)
    else a
  }

  function Squash(a: Abs, i: In, e: Env): Abs {
    if i.squashAll then a.(loads := [], stores := [])
    else if i.squashValid then SquashTo(a, e.point)
    else a
  }

  function Dispatch0(q: Queues, a: Abs, i: In, e: Env): Abs
    requires q.Shape()
  {
    if Takes0(q, i, true) then DispatchLoad(a, e.id0)
    else if Takes0(q, i, false) then DispatchStore(a, e.id0) else a
  }

  function Dispatch1(q: Queues, a: Abs, i: In, e: Env): Abs
    requires q.Shape()
  {
    if Takes1(q, i, true) then DispatchLoad(a, e.id1)
    else if Takes1(q, i, false) then DispatchStore(a, e.id1) else a
  }

  function Dispatch(q: Queues, a: Abs, i: In, e: Env): Abs
    requires q.Shape()
  {
    Dispatch1(q, Dispatch0(q, a, i, e), i, e)
  }

  /** The cycle as the sequence of things that happen to the operations. */
  function AbsNext(x: Sys, i: In, e: Env): Abs
    requires x.q.Shape() && i.Ok(x.q)
  {
    Dispatch(x.q, Squash(Commit(Arrive(A1(x, i, e), i, e), i), i, e), i, e)
  }

  function SysNext(x: Sys, i: In, e: Env): Sys
    requires x.q.Shape() && i.Ok(x.q)
  {
    Sys(Next(x.q, i), AbsNext(x, i, e))
  }

  // ---------------------------------------------------------------- operations stay right

  lemma StoresMatch(x: Sys, i: In, e: Env)
    requires Inv(x) && EnvOk(x, i, e)
    ensures AreStores(x.q.Stores(), x.a.stores, e.base, x.q.span)
  {
  }

  lemma A1Keeps(x: Sys, i: In, e: Env)
    requires Inv(x) && EnvOk(x, i, e)
    ensures AbsInv(A1(x, i, e))
  {
    var f := Found(x.q, i.robHead, 0);
    if f < x.q.lqCnt && !i.squashAll {
      var l, lop := x.q.Loads()[f], x.a.loads[f];
      assert IsLoad(l, lop, x.q.span) && CanAnswer(x.q, i.robHead, f);
      StoresMatch(x, i, e);
      AnswerIsSequential(l, lop.id, x.q.Stores(), x.a.stores, e.base, x.q.span, x.a.mem, e.rdData);
      RespondKeeps(x.a, f, Answer(x.q, i.robHead, f, e.rdData));
    }
  }

  lemma ArriveKeeps(a: Abs, i: In, e: Env)
    requires AbsInv(a) && i.ldSize < 4 && i.stSize < 4
    requires i.stValid && e.stAt < |a.stores| ==> !a.stores[e.stAt].addrV
    ensures AbsInv(Arrive(a, i, e))
  {
    var b := if i.ldValid && e.ldAt < |a.loads| then ArriveLoad(a, e.ldAt, i.ldAddr, i.ldSize, i.ldSigned) else a;
    if i.ldValid && e.ldAt < |a.loads| {
      ArriveLoadKeeps(a, e.ldAt, i.ldAddr, i.ldSize, i.ldSigned);
    }
    if i.stValid && e.stAt < |b.stores| {
      ArriveStoreKeeps(b, e.stAt, i.stAddr, i.stSize, i.stData);
    }
  }

  /** What the commits of a cycle need of the operations. */
  predicate CommitReady(a: Abs, i: In) {
    && (i.commitLoad ==>
          a.loads != [] && a.loads[0].resolved
          && (a.stores == [] || a.loads[0].id < a.stores[0].id
              || (i.commitStore && (|a.stores| == 1 || a.loads[0].id < a.stores[1].id))))
    && (i.commitStore ==>
          a.stores != [] && a.stores[0].addrV
          && (a.loads == [] || a.stores[0].id < a.loads[0].id
              || (i.commitLoad && (|a.loads| == 1 || a.stores[0].id < a.loads[1].id))))
  }

  lemma LoadThenStoreKeeps(a: Abs)
    requires AbsInv(a) && a.loads != [] && a.stores != [] && a.loads[0].resolved && a.stores[0].addrV
    requires a.loads[0].id < a.stores[0].id && (|a.loads| == 1 || a.stores[0].id < a.loads[1].id)
    ensures AbsInv(RetireStore(RetireLoad(a)))
  {
    RetireLoadKeeps(a);
    RetireStoreKeeps(RetireLoad(a));
  }

  lemma StoreThenLoadKeeps(a: Abs)
    requires AbsInv(a) && a.loads != [] && a.stores != [] && a.loads[0].resolved && a.stores[0].addrV
    requires a.stores[0].id < a.loads[0].id && (|a.stores| == 1 || a.loads[0].id < a.stores[1].id)
    ensures AbsInv(RetireLoad(RetireStore(a)))
  {
    RetireStoreKeeps(a);
    RetireLoadKeeps(RetireStore(a));
  }

  lemma CommitKeeps(a: Abs, i: In)
    requires AbsInv(a) && CommitReady(a, i)
    ensures AbsInv(Commit(a, i))
  {
    if i.commitLoad && i.commitStore {
      if a.loads[0].id < a.stores[0].id { LoadThenStoreKeeps(a); } else { StoreThenLoadKeeps(a); }
    } else if i.commitLoad {
      RetireLoadKeeps(a);
    } else if i.commitStore {
      RetireStoreKeeps(a);
    }
  }

  lemma SquashStageKeeps(a: Abs, i: In, e: Env)
    requires AbsInv(a)
    ensures AbsInv(Squash(a, i, e))
  {
    if !i.squashAll && i.squashValid {
      SquashKeeps(a, e.point);
    }
  }

  /** Responses and arrivals change no position. */
  lemma ArriveIds(x: Sys, i: In, e: Env)
    requires x.q.Shape() && i.Ok(x.q)
    ensures var b := Arrive(A1(x, i, e), i, e);
            && |b.loads| == |x.a.loads| && |b.stores| == |x.a.stores| && b.history == x.a.history
            && (forall k :: 0 <= k < |b.loads| ==> b.loads[k].id == x.a.loads[k].id)
            && (forall k :: 0 <= k < |b.stores| ==> b.stores[k].id == x.a.stores[k].id)
  {
  }

  /** They leave what commits ready. */
  lemma ArriveHeads(x: Sys, i: In, e: Env)
    requires x.q.Shape() && i.Ok(x.q) && ArrivalOk(x, i, e) && CommitOk(x, i, e)
    requires x.a.loads != [] && x.a.loads[0].resolved ==> x.a.loads[0].addrV
    ensures var b := Arrive(A1(x, i, e), i, e);
            && (i.commitLoad ==> b.loads != [] && b.loads[0].resolved)
            && (i.commitStore ==> b.stores != [] && b.stores[0].addrV)
  {
  }

  lemma ArriveReady(x: Sys, i: In, e: Env)
    requires Inv(x) && EnvOk(x, i, e)
    ensures CommitReady(Arrive(A1(x, i, e), i, e), i)
  {
    if x.a.loads != [] {
      assert LoadOk(x.a.loads[0], x.a.stores, x.a.mem);
    }
    ArriveIds(x, i, e);
    ArriveHeads(x, i, e);
  }

  lemma CommitYoungest(a: Abs, i: In, id: nat)
    requires Youngest(a, id)
    ensures Youngest(Commit(a, i), id)
  {
  }

  lemma SquashYoungest(a: Abs, i: In, e: Env, id: nat)
    requires Youngest(a, id)
    ensures Youngest(Squash(a, i, e), id)
  {
    var b := Squash(a, i, e);
    assert b.loads <= a.loads && b.stores <= a.stores;
  }

  lemma Dispatch0Keeps(q: Queues, a: Abs, i: In, e: Env)
    requires q.Shape() && AbsInv(a)
    requires Takes0(q, i, true) || Takes0(q, i, false) ==> Youngest(a, e.id0)
    ensures AbsInv(Dispatch0(q, a, i, e))
  {
    if Takes0(q, i, true) { DispatchLoadKeeps(a, e.id0); }
    else if Takes0(q, i, false) { DispatchStoreKeeps(a, e.id0); }
  }

  lemma Dispatch0Youngest(q: Queues, a: Abs, i: In, e: Env)
    requires q.Shape() && Youngest(a, e.id1) && (Takes0(q, i, true) || Takes0(q, i, false) ==> e.id0 < e.id1)
    ensures Youngest(Dispatch0(q, a, i, e), e.id1)
  {
  }

  /** What dispatches comes after everything in flight. */
  predicate Dispatches(q: Queues, a: Abs, i: In, e: Env)
    requires q.Shape()
  {
    && (Takes0(q, i, true) || Takes0(q, i, false) ==> Youngest(a, e.id0))
    && (Takes1(q, i, true) || Takes1(q, i, false) ==>
          Youngest(a, e.id1) && (Takes0(q, i, true) || Takes0(q, i, false) ==> e.id0 < e.id1))
  }

  lemma DispatchStageKeeps(q: Queues, a: Abs, i: In, e: Env)
    requires q.Shape() && AbsInv(a) && Dispatches(q, a, i, e)
    ensures AbsInv(Dispatch(q, a, i, e))
  {
    var b := Dispatch0(q, a, i, e);
    Dispatch0Keeps(q, a, i, e);
    if Takes1(q, i, true) || Takes1(q, i, false) {
      Dispatch0Youngest(q, a, i, e);
      DispatchLoadKeeps(b, e.id1);
      DispatchStoreKeeps(b, e.id1);
    }
  }

  lemma SquashedOk(x: Sys, i: In, e: Env)
    requires Inv(x) && EnvOk(x, i, e)
    ensures var b := Arrive(A1(x, i, e), i, e);
            && AbsInv(A1(x, i, e)) && AbsInv(b) && AbsInv(Commit(b, i)) && AbsInv(Squash(Commit(b, i), i, e))
            && CommitReady(b, i)
  {
    A1Keeps(x, i, e);
    ArriveKeeps(A1(x, i, e), i, e);
    var b := Arrive(A1(x, i, e), i, e);
    ArriveReady(x, i, e);
    CommitKeeps(b, i);
    SquashStageKeeps(Commit(b, i), i, e);
  }

  lemma SquashedYoungest(x: Sys, i: In, e: Env, id: nat)
    requires x.q.Shape() && i.Ok(x.q) && Youngest(x.a, id)
    ensures Youngest(Squash(Commit(Arrive(A1(x, i, e), i, e), i), i, e), id)
  {
    var b := Arrive(A1(x, i, e), i, e);
    ArriveIds(x, i, e);
    assert Youngest(b, id);
    CommitYoungest(b, i, id);
    SquashYoungest(Commit(b, i), i, e, id);
  }

  lemma SquashedDispatches(x: Sys, i: In, e: Env)
    requires x.q.Shape() && i.Ok(x.q) && DispatchOk(x, i, e)
    ensures Dispatches(x.q, Squash(Commit(Arrive(A1(x, i, e), i, e), i), i, e), i, e)
  {
    if Takes0(x.q, i, true) || Takes0(x.q, i, false) { SquashedYoungest(x, i, e, e.id0); }
    if Takes1(x.q, i, true) || Takes1(x.q, i, false) { SquashedYoungest(x, i, e, e.id1); }
  }

  /** The operations stay right through a whole cycle. */
  lemma AbsStepKeeps(x: Sys, i: In, e: Env)
    requires Inv(x) && EnvOk(x, i, e)
    ensures AbsInv(AbsNext(x, i, e))
  {
    SquashedOk(x, i, e);
    SquashedDispatches(x, i, e);
    DispatchStageKeeps(x.q, Squash(Commit(Arrive(A1(x, i, e), i, e), i), i, e), i, e);
  }

  // ---------------------------------------------------------------- queue entries follow

  /** The live loads with the cycle's response and arrival in them. */
  function LoadsMarked(q: Queues, i: In, ldAt: nat): (w: seq<LqEntry>)
    requires q.Shape() && i.Ok(q)
    ensures |w| == q.lqCnt
  {
    var w0 := q.Loads();
    var w1 := if i.ldValid && ldAt < q.lqCnt
              then w0[ldAt := LqEntry(w0[ldAt].rob, true, i.ldAddr, i.ldSize, i.ldSigned, false)] else w0;
    var f := Found(q, i.robHead, 0);
    if f < q.lqCnt && !i.squashAll then w1[f := w1[f].(resolved := true)] else w1
  }

  function StoresMarked(q: Queues, i: In, stAt: nat): (w: seq<SqEntry>)
    requires q.Shape() && i.Ok(q)
    ensures |w| == q.sqCnt
  {
    var w0 := q.Stores();
    if i.stValid && stAt < q.sqCnt
    then w0[stAt := SqEntry(w0[stAt].rob, true, i.stAddr, i.stSize, i.stData)] else w0
  }

  /** What dispatch adds behind them; the other fields are left from before. */
  function LoadsNew(q: Queues, i: In): (w: seq<LqEntry>)
    requires q.Shape()
    ensures |w| == NAlloc(q, i, true)
  {
    var i1 := LqAt1(q, i);
    (if Takes0(q, i, true) then [Fresh(i.disp0.rob, q.lq[q.lqTail])] else [])
    + (if Takes1(q, i, true) then [Fresh(i.disp1.rob, q.lq[i1])] else [])
  }

  function StoresNew(q: Queues, i: In): (w: seq<SqEntry>)
    requires q.Shape()
    ensures |w| == NAlloc(q, i, false)
  {
    var i1 := SqAt1(q, i);
    (if Takes0(q, i, false) then [FreshStore(i.disp0.rob, q.sq[q.sqTail])] else [])
    + (if Takes1(q, i, false) then [FreshStore(i.disp1.rob, q.sq[i1])] else [])
  }

  lemma LqDispatchedWindow(q: Queues, i: In)
    requires q.Shape()
    ensures q.lqCnt + NAlloc(q, i, true) <= |q.lq|
    ensures Window(LqDispatched(q, i), q.lqHead, q.lqCnt + NAlloc(q, i, true)) == q.Loads() + LoadsNew(q, i)
  {
    if Takes0(q, i, true) {
      WindowPush(q.lq, q.lqHead, q.lqCnt, Fresh(i.disp0.rob, q.lq[q.lqTail]));
    }
    if Takes1(q, i, true) {
      var a0 := if Takes0(q, i, true) then q.lq[q.lqTail := Fresh(i.disp0.rob, q.lq[q.lqTail])] else q.lq;
      var n := q.lqCnt + if Takes0(q, i, true) then 1 else 0;
      var i1 := LqAt1(q, i);
      assert i1 == Wrap(q.lqHead + n, |q.lq|);
      WindowPush(a0, q.lqHead, n, Fresh(i.disp1.rob, a0[i1]));
    }
  }

  lemma SqDispatchedWindow(q: Queues, i: In)
    requires q.Shape()
    ensures q.sqCnt + NAlloc(q, i, false) <= |q.sq|
    ensures Window(SqDispatched(q, i), q.sqHead, q.sqCnt + NAlloc(q, i, false)) == q.Stores() + StoresNew(q, i)
  {
    if Takes0(q, i, false) {
      WindowPush(q.sq, q.sqHead, q.sqCnt, FreshStore(i.disp0.rob, q.sq[q.sqTail]));
    }
    if Takes1(q, i, false) {
      var a0 := if Takes0(q, i, false) then q.sq[q.sqTail := FreshStore(i.disp0.rob, q.sq[q.sqTail])] else q.sq;
      var n := q.sqCnt + if Takes0(q, i, false) then 1 else 0;
      var i1 := SqAt1(q, i);
      assert i1 == Wrap(q.sqHead + n, |q.sq|);
      WindowPush(a0, q.sqHead, n, FreshStore(i.disp1.rob, a0[i1]));
    }
  }

  function LqArrived(q: Queues, i: In): (a: seq<LqEntry>)
    requires q.Shape() && i.Ok(q)
    ensures |a| == |q.lq|
  {
    var d := LqDispatched(q, i);
    if i.ldValid then d[i.ldIdx := LqEntry(d[i.ldIdx].rob, true, i.ldAddr, i.ldSize, i.ldSigned, false)] else d
  }

  function LoadsArrived(q: Queues, i: In, ldAt: nat): (w: seq<LqEntry>)
    requires q.Shape() && i.Ok(q)
    ensures |w| == q.lqCnt
  {
    var w0 := q.Loads();
    if i.ldValid && ldAt < q.lqCnt
    then w0[ldAt := LqEntry(w0[ldAt].rob, true, i.ldAddr, i.ldSize, i.ldSigned, false)] else w0
  }

  /** Writing one of the first `|w|` slots of a window changes that element of `w`. */
  lemma WindowMark<T>(a: seq<T>, head: nat, w: seq<T>, news: seq<T>, k: nat, v: T)
    requires head < |a| && |w| + |news| <= |a| && k < |w|
    requires Window(a, head, |w| + |news|) == w + news
    ensures Window(a[Wrap(head + k, |a|) := v], head, |w| + |news|) == w[k := v] + news
  {
    WindowUpdate(a, head, |w| + |news|, k, v);
    assert (w + news)[k := v] == w[k := v] + news;
  }

  lemma WindowElement<T>(a: seq<T>, head: nat, w: seq<T>, news: seq<T>, k: nat)
    requires head < |a| && |w| + |news| <= |a| && k < |w|
    requires Window(a, head, |w| + |news|) == w + news
    ensures a[Wrap(head + k, |a|)] == w[k]
  {
    assert Window(a, head, |w| + |news|)[k] == (w + news)[k];
  }

  /** The window with the arriving address in it, over any dispatched array. */
  lemma LoadArrivesInWindow(q: Queues, i: In, ldAt: nat, d: seq<LqEntry>, news: seq<LqEntry>)
    requires q.Shape() && i.Ok(q) && |d| == |q.lq| && q.lqCnt + |news| <= |d|
    requires i.ldValid ==> ldAt < q.lqCnt && i.ldIdx == Wrap(q.lqHead + ldAt, |q.lq|)
    requires Window(d, q.lqHead, q.lqCnt + |news|) == q.Loads() + news
    ensures var a := if i.ldValid
                     then d[i.ldIdx := LqEntry(d[i.ldIdx].rob, true, i.ldAddr, i.ldSize, i.ldSigned, false)] else d;
            Window(a, q.lqHead, q.lqCnt + |news|) == LoadsArrived(q, i, ldAt) + news
  {
    if i.ldValid {
      WindowElement(d, q.lqHead, q.Loads(), news, ldAt);
      WindowMark(d, q.lqHead, q.Loads(), news, ldAt,
                 LqEntry(d[i.ldIdx].rob, true, i.ldAddr, i.ldSize, i.ldSigned, false));
    }
  }

  lemma LqArrivedWindow(q: Queues, i: In, ldAt: nat)
    requires q.Shape() && i.Ok(q)
    requires i.ldValid ==> ldAt < q.lqCnt && i.ldIdx == Wrap(q.lqHead + ldAt, |q.lq|)
    ensures q.lqCnt + NAlloc(q, i, true) <= |q.lq|
    ensures Window(LqArrived(q, i), q.lqHead, q.lqCnt + NAlloc(q, i, true)) == LoadsArrived(q, i, ldAt) + LoadsNew(q, i)
  {
    LqDispatchedWindow(q, i);
    LoadArrivesInWindow(q, i, ldAt, LqDispatched(q, i), LoadsNew(q, i));
  }

  /** The window with the answered load marked in it, over any array. */
  lemma LoadResolvesInWindow(a: seq<LqEntry>, head: nat, w: seq<LqEntry>, news: seq<LqEntry>, f: nat, found: bool)
    requires head < |a| && |w| + |news| <= |a| && (found ==> f < |w|)
    requires Window(a, head, |w| + |news|) == w + news
    ensures var slot := Wrap(head + (if found then f else 0), |a|);
            Window(if found then a[slot := a[slot].(resolved := true)] else a, head, |w| + |news|)
            == (if found then w[f := w[f].(resolved := true)] else w) + news
  {
    if found {
      WindowElement(a, head, w, news, f);
      WindowMark(a, head, w, news, f, w[f].(resolved := true));
    }
  }

  lemma LqWindow(q: Queues, i: In, ldAt: nat)
    requires q.Shape() && i.Ok(q)
    requires i.ldValid ==> ldAt < q.lqCnt && i.ldIdx == Wrap(q.lqHead + ldAt, |q.lq|)
    ensures q.lqCnt + NAlloc(q, i, true) <= |q.lq|
    ensures Window(LqArray(q, i), q.lqHead, q.lqCnt + NAlloc(q, i, true)) == LoadsMarked(q, i, ldAt) + LoadsNew(q, i)
  {
    LqArrivedWindow(q, i, ldAt);
    var f := Found(q, i.robHead, 0);
    LoadResolvesInWindow(LqArrived(q, i), q.lqHead, LoadsArrived(q, i, ldAt), LoadsNew(q, i), f,
                         f < q.lqCnt && !i.squashAll);
  }

  lemma StoreArrivesInWindow(q: Queues, i: In, stAt: nat, d: seq<SqEntry>, news: seq<SqEntry>)
    requires q.Shape() && i.Ok(q) && |d| == |q.sq| && q.sqCnt + |news| <= |d|
    requires i.stValid ==> stAt < q.sqCnt && i.stIdx == Wrap(q.sqHead + stAt, |q.sq|)
    requires Window(d, q.sqHead, q.sqCnt + |news|) == q.Stores() + news
    ensures var a := if i.stValid then d[i.stIdx := SqEntry(d[i.stIdx].rob, true, i.stAddr, i.stSize, i.stData)] else d;
            Window(a, q.sqHead, q.sqCnt + |news|) == StoresMarked(q, i, stAt) + news
  {
    if i.stValid {
      WindowElement(d, q.sqHead, q.Stores(), news, stAt);
      WindowMark(d, q.sqHead, q.Stores(), news, stAt,
                 SqEntry(d[i.stIdx].rob, true, i.stAddr, i.stSize, i.stData));
    }
  }

  lemma SqWindow(q: Queues, i: In, stAt: nat)
    requires q.Shape() && i.Ok(q)
    requires i.stValid ==> stAt < q.sqCnt && i.stIdx == Wrap(q.sqHead + stAt, |q.sq|)
    ensures q.sqCnt + NAlloc(q, i, false) <= |q.sq|
    ensures Window(SqArray(q, i), q.sqHead, q.sqCnt + NAlloc(q, i, false)) == StoresMarked(q, i, stAt) + StoresNew(q, i)
  {
    SqDispatchedWindow(q, i);
    StoreArrivesInWindow(q, i, stAt, SqDispatched(q, i), StoresNew(q, i));
  }

  /** A window that starts later is the tail of the earlier one. */
  lemma WindowSlice<T>(buf: seq<T>, head: nat, n: nat, c: nat, m: nat)
    requires head < |buf| && n <= |buf| && c + m <= n
    ensures Window(buf, Wrap(head + c, |buf|), m) == Window(buf, head, n)[c..c + m]
  {
  }

  function Pops(commit: bool, base: nat): nat {
    if commit && base != 0 then 1 else 0
  }

  /** The window after the pointers move: the kept part of the marked entries,
      then the new ones. */
  lemma MovedWindow<T>(buf: seq<T>, head: nat, marked: seq<T>, news: seq<T>, base: nat, commit: bool)
    requires head < |buf| && base <= |marked| && |marked| + |news| <= |buf|
    requires base == |marked| || news == []
    requires Window(buf, head, |marked| + |news|) == marked + news
    ensures var p := PtrsNext(head, base, commit, |news|, |buf|);
            Window(buf, p.head, p.cnt) == marked[Pops(commit, base)..base] + news
  {
    var c := Pops(commit, base);
    WindowSlice(buf, head, |marked| + |news|, c, base + |news| - c);
  }

  /** The queue after the edge: the survivors of the squash without the committed
      one, then the dispatched ones. */
  lemma NextLoads(q: Queues, i: In, ldAt: nat)
    requires q.Shape() && i.Ok(q) && !i.squashAll
    requires i.ldValid ==> ldAt < q.lqCnt && i.ldIdx == Wrap(q.lqHead + ldAt, |q.lq|)
    ensures var b := LqBase(q, i);
            Window(LqArray(q, i), LqPtrs(q, i).head, LqPtrs(q, i).cnt)
            == LoadsMarked(q, i, ldAt)[Pops(i.commitLoad, b)..b] + LoadsNew(q, i)
  {
    LqWindow(q, i, ldAt);
    assert i.squashValid ==> LoadsNew(q, i) == [];
    MovedWindow(LqArray(q, i), q.lqHead, LoadsMarked(q, i, ldAt), LoadsNew(q, i), LqBase(q, i), i.commitLoad);
  }

  lemma NextStores(q: Queues, i: In, stAt: nat)
    requires q.Shape() && i.Ok(q) && !i.squashAll
    requires i.stValid ==> stAt < q.sqCnt && i.stIdx == Wrap(q.sqHead + stAt, |q.sq|)
    ensures var b := SqBase(q, i);
            Window(SqArray(q, i), SqPtrs(q, i).head, SqPtrs(q, i).cnt)
            == StoresMarked(q, i, stAt)[Pops(i.commitStore, b)..b] + StoresNew(q, i)
  {
    SqWindow(q, i, stAt);
    assert i.squashValid ==> StoresNew(q, i) == [];
    MovedWindow(SqArray(q, i), q.sqHead, StoresMarked(q, i, stAt), StoresNew(q, i), SqBase(q, i), i.commitStore);
  }

  /** The registers stay well formed. */
  lemma NextShape(q: Queues, i: In)
    requires q.Shape() && i.Ok(q)
    ensures Next(q, i).Shape()
  {
    LqShape(q, i);
    SqShape(q, i);
  }

  predicate LoadOkay(e: LqEntry, span: nat) { e.rob < span && e.size < 4 }

  predicate StoreOkay(e: SqEntry, span: nat) { e.rob < span && e.size < 4 }

  lemma LqDispatchedShape(q: Queues, i: In, k: nat)
    requires q.Shape() && i.Ok(q) && k < |q.lq|
    ensures LoadOkay(LqDispatched(q, i)[k], q.span)
  {
  }

  lemma LqShape(q: Queues, i: In)
    requires q.Shape() && i.Ok(q)
    ensures forall k :: 0 <= k < |q.lq| ==> LoadOkay(LqArray(q, i)[k], q.span)
  {
    forall k | 0 <= k < |q.lq|
      ensures LoadOkay(LqArray(q, i)[k], q.span)
    {
      LqDispatchedShape(q, i, k);
    }
  }

  lemma SqDispatchedShape(q: Queues, i: In, k: nat)
    requires q.Shape() && i.Ok(q) && k < |q.sq|
    ensures StoreOkay(SqDispatched(q, i)[k], q.span)
  {
  }

  lemma SqShape(q: Queues, i: In)
    requires q.Shape() && i.Ok(q)
    ensures forall k :: 0 <= k < |q.sq| ==> StoreOkay(SqArray(q, i)[k], q.span)
  {
    forall k | 0 <= k < |q.sq|
      ensures StoreOkay(SqArray(q, i)[k], q.span)
    {
      SqDispatchedShape(q, i, k);
    }
  }

  // ---------------------------------------------------------------- squash keeps a prefix

  predicate Sorted(ids: seq<nat>) {
    forall i, j :: 0 <= i < j < |ids| ==> ids[i] < ids[j]
  }

  /** The indices are those of the positions, all inside the window of `base`. */
  predicate IndicesOf(robs: seq<nat>, ids: seq<nat>, base: nat, span: nat)
    requires span > 0
  {
    |robs| == |ids| && forall k :: 0 <= k < |ids| ==> robs[k] == RobOf(ids[k], span) && InWindow(ids[k], base, span)
  }

  lemma UpToIff(ids: seq<nat>, point: nat, k: nat)
    requires Sorted(ids) && k < |ids|
    ensures k < UpTo(ids, point) <==> ids[k] <= point
  {
    var n := UpTo(ids, point);
    assert n < k ==> ids[n] < ids[k];
  }

  /** A youngest position joins those up to the point or is left out. */
  lemma {:induction false} UpToSnoc(ids: seq<nat>, id: nat, point: nat)
    requires forall k :: 0 <= k < |ids| ==> ids[k] < id
    ensures UpTo(ids + [id], point) == if id <= point then |ids| + 1 else UpTo(ids, point)
    ensures id <= point ==> UpTo(ids, point) == |ids|
  {
    if ids == [] {
      assert ids + [id] == [id] && [id][1..] == [];
    } else {
      assert (ids + [id])[1..] == ids[1..] + [id];
      UpToSnoc(ids[1..], id, point);
    }
  }

  lemma IndicesFront(robs: seq<nat>, ids: seq<nat>, base: nat, span: nat)
    requires span > 0 && Sorted(ids) && IndicesOf(robs, ids, base, span) && ids != []
    ensures var n := |ids| - 1;
            && Sorted(ids[..n]) && IndicesOf(robs[..n], ids[..n], base, span) && ids == ids[..n] + [ids[n]]
            && robs[n] == RobOf(ids[n], span) && InWindow(ids[n], base, span)
            && forall k :: 0 <= k < n ==> ids[..n][k] < ids[n]
  {
  }

  lemma IndicesBelow(robs: seq<nat>, ids: seq<nat>, base: nat, span: nat)
    requires span > 0 && IndicesOf(robs, ids, base, span)
    ensures Below(robs, span)
  {
  }

  /** Counting the indices no younger than the squash point counts a prefix. */
  lemma {:induction false} KeptAll(robs: seq<nat>, ids: seq<nat>, base: nat, point: nat, span: nat)
    requires span > 0 && Sorted(ids) && InWindow(point, base, span) && IndicesOf(robs, ids, base, span)
    ensures Below(robs, span)
    ensures Kept(robs, RobOf(base, span), RobOf(point, span), span) == UpTo(ids, point)
  {
    IndicesBelow(robs, ids, base, span);
    if ids != [] {
      var n := |ids| - 1;
      IndicesFront(robs, ids, base, span);
      KeptAll(robs[..n], ids[..n], base, point, span);
      AgeIsDistance(ids[n], base, span);
      AgeIsDistance(point, base, span);
      UpToSnoc(ids[..n], ids[n], point);
    }
  }

  /** The survivors of a squash, by position. */
  function Left(ids: seq<nat>, i: In, e: Env): (n: nat)
    ensures n <= |ids|
  {
    if i.squashValid then UpTo(ids, e.point) else |ids|
  }

  lemma LoadIndices(x: Sys, i: In, e: Env)
    requires Inv(x) && i.Ok(x.q) && WindowOk(x, i, e)
    ensures Sorted(LoadIds(x.a.loads)) && IndicesOf(LoadRobs(x.q.Loads()), LoadIds(x.a.loads), e.base, x.q.span)
  {
    forall k | 0 <= k < |x.a.loads|
      ensures x.q.Loads()[k].rob == RobOf(x.a.loads[k].id, x.q.span)
    {
      assert IsLoad(x.q.Loads()[k], x.a.loads[k], x.q.span);
    }
  }

  lemma StoreIndices(x: Sys, i: In, e: Env)
    requires Inv(x) && i.Ok(x.q) && WindowOk(x, i, e)
    ensures Sorted(StoreIds(x.a.stores)) && IndicesOf(StoreRobs(x.q.Stores()), StoreIds(x.a.stores), e.base, x.q.span)
  {
    forall k | 0 <= k < |x.a.stores|
      ensures x.q.Stores()[k].rob == RobOf(x.a.stores[k].id, x.q.span)
    {
      assert IsStore(x.q.Stores()[k], x.a.stores[k], x.q.span);
    }
  }

  /** A squash keeps exactly the entries no younger than its point, a prefix of
      each queue. */
  lemma SquashKeepsPrefix(x: Sys, i: In, e: Env)
    requires Inv(x) && i.Ok(x.q) && WindowOk(x, i, e)
    ensures LqBase(x.q, i) == Left(LoadIds(x.a.loads), i, e)
    ensures SqBase(x.q, i) == Left(StoreIds(x.a.stores), i, e)
  {
    if i.squashValid {
      LoadIndices(x, i, e);
      StoreIndices(x, i, e);
      KeptAll(LoadRobs(x.q.Loads()), LoadIds(x.a.loads), e.base, e.point, x.q.span);
      KeptAll(StoreRobs(x.q.Stores()), StoreIds(x.a.stores), e.base, e.point, x.q.span);
    }
  }

  // ---------------------------------------------------------------- entries and operations stay in step

  function NewLoads(q: Queues, i: In, e: Env): seq<LoadOp>
    requires q.Shape()
  {
    (if Takes0(q, i, true) then [LoadOp(e.id0, false, 0, 0, false, false, 0)] else [])
    + (if Takes1(q, i, true) then [LoadOp(e.id1, false, 0, 0, false, false, 0)] else [])
  }

  function NewStores(q: Queues, i: In, e: Env): seq<StoreOp>
    requires q.Shape()
  {
    (if Takes0(q, i, false) then [StoreOp(e.id0, false, 0, 0, 0)] else [])
    + (if Takes1(q, i, false) then [StoreOp(e.id1, false, 0, 0, 0)] else [])
  }

  lemma DispatchLists(q: Queues, a: Abs, i: In, e: Env)
    requires q.Shape()
    ensures Dispatch(q, a, i, e).loads == a.loads + NewLoads(q, i, e)
    ensures Dispatch(q, a, i, e).stores == a.stores + NewStores(q, i, e)
  {
  }

  lemma CommitLists(a: Abs, i: In)
    requires (i.commitLoad ==> a.loads != []) && (i.commitStore ==> a.stores != [])
    ensures Commit(a, i).loads == a.loads[One(i.commitLoad)..]
    ensures Commit(a, i).stores == a.stores[One(i.commitStore)..]
  {
  }

  lemma UpToTail(ids: seq<nat>, c: nat, point: nat)
    requires c <= 1 && c <= UpTo(ids, point)
    ensures UpTo(ids[c..], point) == UpTo(ids, point) - c
  {
    assert c == 0 ==> ids[c..] == ids;
  }

  lemma LoadIdsTail(ls: seq<LoadOp>, c: nat)
    requires c <= |ls|
    ensures LoadIds(ls[c..]) == LoadIds(ls)[c..]
  {
  }

  lemma SquashLoads(ls: seq<LoadOp>, i: In, e: Env, c: nat)
    requires c <= 1 && c <= Left(LoadIds(ls), i, e)
    ensures (if i.squashValid then LoadsUpTo(ls[c..], e.point) else ls[c..]) == ls[c..Left(LoadIds(ls), i, e)]
  {
    if i.squashValid {
      UpToTail(LoadIds(ls), c, e.point);
      LoadIdsTail(ls, c);
    }
  }

  lemma StoreIdsTail(ss: seq<StoreOp>, c: nat)
    requires c <= |ss|
    ensures StoreIds(ss[c..]) == StoreIds(ss)[c..]
  {
  }

  lemma SquashStores(ss: seq<StoreOp>, i: In, e: Env, c: nat)
    requires c <= 1 && c <= Left(StoreIds(ss), i, e)
    ensures (if i.squashValid then StoresUpTo(ss[c..], e.point) else ss[c..]) == ss[c..Left(StoreIds(ss), i, e)]
  {
    if i.squashValid {
      UpToTail(StoreIds(ss), c, e.point);
      StoreIdsTail(ss, c);
    }
  }

  lemma SquashLists(b: Abs, i: In, e: Env, cl: nat, cs: nat)
    requires !i.squashAll && cl <= 1 && cs <= 1
    requires cl <= Left(LoadIds(b.loads), i, e) && cs <= Left(StoreIds(b.stores), i, e)
    ensures var c := b.(loads := b.loads[cl..], stores := b.stores[cs..]);
            && Squash(c, i, e).loads == b.loads[cl..Left(LoadIds(b.loads), i, e)]
            && Squash(c, i, e).stores == b.stores[cs..Left(StoreIds(b.stores), i, e)]
  {
    SquashLoads(b.loads, i, e, cl);
    SquashStores(b.stores, i, e, cs);
  }

  /** Positions alone decide what survives, and the cycle changes none. */
  lemma LeftByIds(x: Sys, i: In, e: Env)
    requires x.q.Shape() && i.Ok(x.q)
    ensures var b := Arrive(A1(x, i, e), i, e);
            && LoadIds(b.loads) == LoadIds(x.a.loads) && StoreIds(b.stores) == StoreIds(x.a.stores)
  {
    ArriveIds(x, i, e);
  }

  function One(b: bool): (n: nat) { if b then 1 else 0 }

  /** The operations after the cycle, as the entries of the next queue are. */
  lemma AbsLists(x: Sys, i: In, e: Env)
    requires x.q.Shape() && i.Ok(x.q) && CommitOk(x, i, e) && !i.squashAll
    ensures var b := Arrive(A1(x, i, e), i, e);
            var nl, ns := Left(LoadIds(x.a.loads), i, e), Left(StoreIds(x.a.stores), i, e);
            && One(i.commitLoad) <= nl <= |b.loads| && One(i.commitStore) <= ns <= |b.stores|
            && AbsNext(x, i, e).loads == b.loads[One(i.commitLoad)..nl] + NewLoads(x.q, i, e)
            && AbsNext(x, i, e).stores == b.stores[One(i.commitStore)..ns] + NewStores(x.q, i, e)
  {
    var b := Arrive(A1(x, i, e), i, e);
    ArriveIds(x, i, e);
    LeftByIds(x, i, e);
    CommitLists(b, i);
    SquashLists(b, i, e, One(i.commitLoad), One(i.commitStore));
    SquashByLists(Commit(b, i), b.(loads := b.loads[One(i.commitLoad)..], stores := b.stores[One(i.commitStore)..]),
                  i, e);
    DispatchLists(x.q, Squash(Commit(b, i), i, e), i, e);
  }

  lemma SquashByLists(a: Abs, b: Abs, i: In, e: Env)
    requires a.loads == b.loads && a.stores == b.stores
    ensures Squash(a, i, e).loads == Squash(b, i, e).loads && Squash(a, i, e).stores == Squash(b, i, e).stores
  {
  }

  lemma LoadMatches(x: Sys, i: In, e: Env, k: nat)
    requires x.q.Shape() && i.Ok(x.q) && ArrivalOk(x, i, e) && !i.squashAll && k < x.q.lqCnt == |x.a.loads|
    requires IsLoad(x.q.Loads()[k], x.a.loads[k], x.q.span)
    requires var f := Found(x.q, i.robHead, 0);
             f < x.q.lqCnt ==> x.a.loads[f].addrV
    ensures k < |Arrive(A1(x, i, e), i, e).loads|
    ensures IsLoad(LoadsMarked(x.q, i, e.ldAt)[k], Arrive(A1(x, i, e), i, e).loads[k], x.q.span)
  {
  }

  lemma LoadsMatch(x: Sys, i: In, e: Env)
    requires Inv(x) && EnvOk(x, i, e) && !i.squashAll
    ensures AreLoads(LoadsMarked(x.q, i, e.ldAt), Arrive(A1(x, i, e), i, e).loads, x.q.span)
  {
    var f := Found(x.q, i.robHead, 0);
    if f < x.q.lqCnt {
      assert IsLoad(x.q.Loads()[f], x.a.loads[f], x.q.span);
      assert CanAnswer(x.q, i.robHead, f);
    }
    ArriveIds(x, i, e);
    var ls := Arrive(A1(x, i, e), i, e).loads;
    forall k | 0 <= k < |ls|
      ensures IsLoad(LoadsMarked(x.q, i, e.ldAt)[k], ls[k], x.q.span)
    {
      LoadMatches(x, i, e, k);
    }
  }

  lemma StoresMatchMarked(x: Sys, i: In, e: Env)
    requires Inv(x) && EnvOk(x, i, e)
    ensures var ss := Arrive(A1(x, i, e), i, e).stores;
            |ss| == x.q.sqCnt && forall k :: 0 <= k < |ss| ==> IsStore(StoresMarked(x.q, i, e.stAt)[k], ss[k], x.q.span)
  {
  }

  lemma NewsMatch(x: Sys, i: In, e: Env)
    requires x.q.Shape() && i.Ok(x.q) && WindowOk(x, i, e)
    ensures AreLoads(LoadsNew(x.q, i), NewLoads(x.q, i, e), x.q.span)
    ensures |StoresNew(x.q, i)| == |NewStores(x.q, i, e)|
    ensures forall k :: 0 <= k < |NewStores(x.q, i, e)| ==>
      IsStore(StoresNew(x.q, i)[k], NewStores(x.q, i, e)[k], x.q.span)
  {
  }

  lemma LoadsSlice(w: seq<LqEntry>, ls: seq<LoadOp>, wn: seq<LqEntry>, ln: seq<LoadOp>, c: nat, n: nat, span: nat)
    requires span > 0 && AreLoads(w, ls, span) && AreLoads(wn, ln, span) && c <= n <= |w|
    ensures AreLoads(w[c..n] + wn, ls[c..n] + ln, span)
  {
  }

  ghost predicate StoresFollow(w: seq<SqEntry>, ss: seq<StoreOp>, span: nat)
    requires span > 0
  {
    |w| == |ss| && forall k :: 0 <= k < |ss| ==> IsStore(w[k], ss[k], span)
  }

  lemma StoresSlice(w: seq<SqEntry>, ss: seq<StoreOp>, wn: seq<SqEntry>, sn: seq<StoreOp>, c: nat, n: nat, span: nat)
    requires span > 0 && StoresFollow(w, ss, span) && StoresFollow(wn, sn, span) && c <= n <= |w|
    ensures StoresFollow(w[c..n] + wn, ss[c..n] + sn, span)
  {
  }

  /** The surviving entries with the dispatched ones are the surviving operations
      with the new ones. */
  lemma LoadsSliceMatch(x: Sys, i: In, e: Env)
    requires Inv(x) && EnvOk(x, i, e) && !i.squashAll && One(i.commitLoad) <= LqBase(x.q, i)
    ensures var b, n := Arrive(A1(x, i, e), i, e).loads, LqBase(x.q, i);
            && |b| == x.q.lqCnt
            && AreLoads(LoadsMarked(x.q, i, e.ldAt)[One(i.commitLoad)..n] + LoadsNew(x.q, i),
                     b[One(i.commitLoad)..n] + NewLoads(x.q, i, e), x.q.span)
  {
    LoadsMatch(x, i, e);
    NewsMatch(x, i, e);
    LoadsSlice(LoadsMarked(x.q, i, e.ldAt), Arrive(A1(x, i, e), i, e).loads, LoadsNew(x.q, i), NewLoads(x.q, i, e),
               One(i.commitLoad), LqBase(x.q, i), x.q.span);
  }

  lemma LoadsStepMatch(x: Sys, i: In, e: Env)
    requires Inv(x) && EnvOk(x, i, e) && !i.squashAll
    ensures AreLoads(Window(LqArray(x.q, i), LqPtrs(x.q, i).head, LqPtrs(x.q, i).cnt), AbsNext(x, i, e).loads, x.q.span)
  {
    SquashKeepsPrefix(x, i, e);
    AbsLists(x, i, e);
    NextLoads(x.q, i, e.ldAt);
    LoadsSliceMatch(x, i, e);
  }

  /** The surviving entries with the dispatched ones are the surviving operations
      with the new ones. */
  lemma StoresSliceMatch(x: Sys, i: In, e: Env)
    requires Inv(x) && EnvOk(x, i, e) && !i.squashAll && One(i.commitStore) <= SqBase(x.q, i)
    ensures var b, n := Arrive(A1(x, i, e), i, e).stores, SqBase(x.q, i);
            && |b| == x.q.sqCnt
            && StoresFollow(StoresMarked(x.q, i, e.stAt)[One(i.commitStore)..n] + StoresNew(x.q, i),
                     b[One(i.commitStore)..n] + NewStores(x.q, i, e), x.q.span)
  {
    StoresMatchMarked(x, i, e);
    NewsMatch(x, i, e);
    StoresSlice(StoresMarked(x.q, i, e.stAt), Arrive(A1(x, i, e), i, e).stores, StoresNew(x.q, i), NewStores(x.q, i, e),
               One(i.commitStore), SqBase(x.q, i), x.q.span);
  }

  lemma StoresStepMatch(x: Sys, i: In, e: Env)
    requires Inv(x) && EnvOk(x, i, e) && !i.squashAll
    ensures StoresFollow(Window(SqArray(x.q, i), SqPtrs(x.q, i).head, SqPtrs(x.q, i).cnt), AbsNext(x, i, e).stores,
                         x.q.span)
  {
    SquashKeepsPrefix(x, i, e);
    AbsLists(x, i, e);
    NextStores(x.q, i, e.stAt);
    StoresSliceMatch(x, i, e);
  }

  /** A squash of everything leaves both queues and both lists empty. */
  lemma SquashAllMatch(x: Sys, i: In, e: Env)
    requires x.q.Shape() && i.Ok(x.q) && i.squashAll
    ensures LqPtrs(x.q, i).cnt == 0 && SqPtrs(x.q, i).cnt == 0
    ensures AbsNext(x, i, e).loads == [] && AbsNext(x, i, e).stores == []
  {
  }

  /** Every legal cycle keeps the queues and the operations in step, and the
      operations right. */
  lemma StepKeeps(x: Sys, i: In, e: Env)
    requires Inv(x) && EnvOk(x, i, e)
    ensures Inv(SysNext(x, i, e))
  {
    AbsStepKeeps(x, i, e);
    NextShape(x.q, i);
    if i.squashAll {
      SquashAllMatch(x, i, e);
    } else {
      LoadsStepMatch(x, i, e);
      StoresStepMatch(x, i, e);
    }
  }

  // ---------------------------------------------------------------- runs

  ghost predicate LegalRun(x: Sys, ins: seq<(In, Env)>)
    decreases |ins|
  {
    ins == [] || (x.q.Shape() && EnvOk(x, ins[0].0, ins[0].1) && LegalRun(SysNext(x, ins[0].0, ins[0].1), ins[1..]))
  }

  ghost function Run(x: Sys, ins: seq<(In, Env)>): Sys
    requires LegalRun(x, ins)
    decreases |ins|
  {
    if ins == [] then x else Run(SysNext(x, ins[0].0, ins[0].1), ins[1..])
  }

  /** Both queues empty over memory `m`. */
  predicate Empty(x: Sys) {
    x.q.Shape() && x.q.lqCnt == 0 && x.q.sqCnt == 0
    && x.a.loads == [] && x.a.stores == [] && x.a.history == [] && x.a.mem == x.a.m0
  }

  lemma {:induction false} RunKeeps(x: Sys, ins: seq<(In, Env)>)
    requires Inv(x) && LegalRun(x, ins)
    ensures Inv(Run(x, ins))
    decreases |ins|
  {
    if ins != [] {
      StepKeeps(x, ins[0].0, ins[0].1);
      RunKeeps(SysNext(x, ins[0].0, ins[0].1), ins[1..]);
    }
  }

  lemma EmptyOk(x: Sys)
    requires Empty(x)
    ensures Inv(x)
  {
    assert OrderOk(x.a);
    assert ValuesOk(x.a);
    assert HistoryOk(x.a);
  }

  /** In every run from empty queues, the retired operations stand in program
      order, every retired load has the value that executing them one after the
      other on the initial memory gives it, and data memory is what that
      execution leaves. */
  lemma LoadsSeeSequentialMemory(x: Sys, ins: seq<(In, Env)>)
    requires Empty(x) && LegalRun(x, ins)
    ensures var y := Run(x, ins).a;
            Sequential(y.m0, y.history) && y.mem == Replay(y.m0, y.history)
  {
    EmptyOk(x);
    RunKeeps(x, ins);
  }
}
