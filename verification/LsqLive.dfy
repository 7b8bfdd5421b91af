/** When a load is answered, what leaves for memory, and how the queue compares
    with its golden model (sim/lsq/lsq_model.h). */
module LsqLive {
  import opened Bytes
  import opened ByteMemory
  import opened Ring
  import opened Lsq
  import opened LsqAbs
  import opened LsqSearch
  import opened LsqProof

  // ---------------------------------------------------------------- the write port

  /** What leaves for memory with a commit is the retiring store itself, even when
      its address and data arrive in the very cycle it commits. */
  lemma CommitWritesStore(x: Sys, i: In, e: Env)
    requires Inv(x) && EnvOk(x, i, e) && i.commitStore
    ensures var b := Arrive(A1(x, i, e), i, e);
            b.stores != [] && WritePort(x.q, i) == Write(true, b.stores[0].addr, b.stores[0].size, b.stores[0].data)
  {
    assert x.q.Stores()[0] == x.q.sq[x.q.sqHead];
    assert IsStore(x.q.Stores()[0], x.a.stores[0], x.q.span);
    assert i.stValid && i.stIdx == x.q.sqHead ==> e.stAt == 0;
  }

  // ---------------------------------------------------------------- who can be answered

  predicate OpOverlaps(l: LoadOp, s: StoreOp)
    requires l.size < 4 && s.size < 4
  {
    !(l.addr + NBytes(l.size) <= s.addr || s.addr + NBytes(s.size) <= l.addr)
  }

  predicate OpCovers(l: LoadOp, s: StoreOp)
    requires l.size < 4 && s.size < 4
  {
    s.addr <= l.addr && l.addr + NBytes(l.size) <= s.addr + NBytes(s.size)
  }

  predicate Sized(ss: seq<StoreOp>) {
    forall j :: 0 <= j < |ss| ==> ss[j].size < 4
  }

  /** The youngest of the stores that overlaps the load covers it, or none does. */
  predicate NoPartial(l: LoadOp, ss: seq<StoreOp>)
    requires l.size < 4 && Sized(ss)
  {
    ss == [] ||
    (if OpOverlaps(l, ss[|ss| - 1]) then OpCovers(l, ss[|ss| - 1]) else NoPartial(l, ss[..|ss| - 1]))
  }

  predicate SomeOverlap(l: LoadOp, ss: seq<StoreOp>)
    requires l.size < 4 && Sized(ss)
  {
    ss != [] && (OpOverlaps(l, ss[|ss| - 1]) || SomeOverlap(l, ss[..|ss| - 1]))
  }

  /** The load waits, every older store has its address, and none of them covers
      it only in part without a younger one covering it whole. */
  predicate OpCanAnswer(a: Abs, k: nat)
    requires k < |a.loads| && a.loads[k].size < 4 && Sized(a.stores)
  {
    var l := a.loads[k];
    l.addrV && !l.resolved && AllAddr(OlderThan(a.stores, l.id)) && NoPartial(l, OlderThan(a.stores, l.id))
  }

  predicate LooksAlike(e: LqEntry, l: LoadOp) {
    e.size < 4 && e.addr == l.addr && e.size == l.size
  }

  /** What the search has found out about the older stores seen so far. */
  predicate Decided(r: Seen, l: LoadOp, ss: seq<StoreOp>, base: nat)
    requires l.size < 4 && Sized(ss)
  {
    && (r.blocked <==> !AllAddr(ss))
    && (r.any ==> ss != [] && r.age + base <= ss[|ss| - 1].id)
    && (!r.blocked ==> (r.any <==> SomeOverlap(l, ss)) && ((r.any ==> r.full) <==> NoPartial(l, ss)))
  }

  lemma SnocOne(l: LoadOp, ss: seq<StoreOp>, s: StoreOp)
    requires l.size < 4 && Sized(ss) && s.size < 4
    ensures Sized(ss + [s]) && (AllAddr(ss + [s]) <==> AllAddr(ss) && s.addrV)
    ensures NoPartial(l, ss + [s]) <==> if OpOverlaps(l, s) then OpCovers(l, s) else NoPartial(l, ss)
    ensures SomeOverlap(l, ss + [s]) <==> OpOverlaps(l, s) || SomeOverlap(l, ss)
  {
    assert (ss + [s])[..|ss|] == ss && (ss + [s])[|ss|] == s;
    if AllAddr(ss + [s]) {
      assert forall j :: 0 <= j < |ss| ==> (ss + [s])[j] == ss[j];
    }
  }

  lemma DecideOneMore(r: Seen, el: LqEntry, l: LoadOp, e: SqEntry, ss: seq<StoreOp>, s: StoreOp, base: nat, span: nat)
    requires span > 0 && LooksAlike(el, l) && el.rob == RobOf(l.id, span) && base <= l.id < base + span
    requires Sized(ss) && s.size < 4 && IsStore(e, s, span) && base <= s.id < l.id
    requires ss != [] ==> ss[|ss| - 1].id < s.id
    requires Decided(r, l, ss, base)
    ensures Sized(ss + [s]) && Decided(Look(r, el, e, RobOf(base, span), span), l, ss + [s], base)
  {
    AgeIsDistance(l.id, base, span);
    AgeIsDistance(s.id, base, span);
    SnocOne(l, ss, s);
  }

  /** One more turn of the search. */
  lemma DecideTurn(r: Seen, el: LqEntry, l: LoadOp, e: SqEntry, ss: seq<StoreOp>, s: StoreOp, base: nat, span: nat)
    requires span > 0 && LooksAlike(el, l) && el.rob == RobOf(l.id, span) && base <= l.id < base + span
    requires s.size < 4 && IsStore(e, s, span) && base <= s.id < base + span
    requires StoresSorted(ss) && forall j :: 0 <= j < |ss| ==> ss[j].id < s.id
    requires Sized(OlderThan(ss, l.id)) && Decided(r, l, OlderThan(ss, l.id), base)
    ensures Sized(OlderThan(ss + [s], l.id))
    ensures Decided(Look(r, el, e, RobOf(base, span), span), l, OlderThan(ss + [s], l.id), base)
  {
    OlderSnoc(ss, s, l.id);
    if s.id < l.id {
      DecideOneMore(r, el, l, e, ss, s, base, span);
    } else {
      YoungerIgnored(r, el, l.id, e, s, base, span);
    }
  }

  /** The search decides exactly this. */
  lemma {:induction false} SearchDecides(el: LqEntry, l: LoadOp, es: seq<SqEntry>, ss: seq<StoreOp>,
                                         base: nat, span: nat)
    requires span > 0 && LooksAlike(el, l) && el.rob == RobOf(l.id, span) && base <= l.id < base + span
    requires AreStores(es, ss, base, span)
    ensures Sized(OlderThan(ss, l.id))
    ensures Decided(Search(el, es, RobOf(base, span), span), l, OlderThan(ss, l.id), base)
    decreases |ss|
  {
    if ss != [] {
      var n := |ss| - 1;
      AreStoresFront(es, ss, base, span);
      SearchDecides(el, l, es[..n], ss[..n], base, span);
      DecideTurn(Search(el, es[..n], RobOf(base, span), span), el, l, es[n], ss[..n], ss[n], base, span);
    }
  }

  lemma CanAnswerIff(x: Sys, i: In, e: Env, k: nat)
    requires Inv(x) && EnvOk(x, i, e) && k < x.q.lqCnt
    ensures Sized(x.a.stores) && x.a.loads[k].size < 4
    ensures CanAnswer(x.q, i.robHead, k) <==> OpCanAnswer(x.a, k)
  {
    var el, l := x.q.Loads()[k], x.a.loads[k];
    assert IsLoad(el, l, x.q.span) && LoadOk(l, x.a.stores, x.a.mem);
    if l.addrV {
      StoresMatch(x, i, e);
      SearchDecides(el, l, x.q.Stores(), x.a.stores, e.base, x.q.span);
    }
  }

  // ---------------------------------------------------------------- once able, always able

  /** A store that leaves takes its overlap with it. */
  lemma {:induction false} NoPartialFront(l: LoadOp, ss: seq<StoreOp>)
    requires l.size < 4 && Sized(ss) && ss != [] && NoPartial(l, ss)
    ensures Sized(ss[1..]) && NoPartial(l, ss[1..])
  {
    if |ss| > 1 {
      var n := |ss| - 1;
      assert ss[1..][|ss[1..]| - 1] == ss[n];
      if !OpOverlaps(l, ss[n]) {
        NoPartialFront(l, ss[..n]);
        assert ss[..n][1..] == ss[1..][..n - 1];
      }
    }
  }

  /** The load with this position in the list, whatever else happened to it. */
  predicate Ready(a: Abs, id: nat) {
    exists k :: 0 <= k < |a.loads| && ReadyAt(a, id, k)
  }

  predicate ReadyAt(a: Abs, id: nat, k: nat)
    requires k < |a.loads|
  {
    a.loads[k].id == id && a.loads[k].size < 4 && Sized(a.stores) && OpCanAnswer(a, k)
  }

  lemma RespondReady(a: Abs, j: nat, v: nat, id: nat, k: nat)
    requires k < |a.loads| && ReadyAt(a, id, k) && j < |a.loads| && j != k
    ensures ReadyAt(Respond(a, j, v), id, k)
  {
  }

  lemma ArriveLoadReady(a: Abs, j: nat, addr: nat, size: nat, sgn: bool, id: nat, k: nat)
    requires k < |a.loads| && ReadyAt(a, id, k) && j < |a.loads| && !a.loads[j].addrV
    ensures ReadyAt(ArriveLoad(a, j, addr, size, sgn), id, k)
  {
  }

  lemma ArriveStoreReady(a: Abs, j: nat, addr: nat, size: nat, data: nat, id: nat, k: nat)
    requires StoresSorted(a.stores) && k < |a.loads| && ReadyAt(a, id, k)
    requires j < |a.stores| && !a.stores[j].addrV && size < 4
    ensures ReadyAt(ArriveStore(a, j, addr, size, data), id, k)
  {
    var ss := ArriveStore(a, j, addr, size, data).stores;
    var n := OlderN(a.stores, id);
    OlderNUnique(ss, id, n);
    assert forall m :: 0 <= m < n ==> OlderThan(a.stores, id)[m] == a.stores[m];
    assert ss[..n] == a.stores[..n];
  }

  lemma RetireStoreReady(a: Abs, id: nat, k: nat)
    requires k < |a.loads| && ReadyAt(a, id, k) && a.stores != [] && a.stores[0].id < id
    ensures ReadyAt(RetireStore(a), id, k)
  {
    OlderTail(a.stores, id);
    AllAddrTail(OlderThan(a.stores, id));
    NoPartialFront(a.loads[k], OlderThan(a.stores, id));
  }

  lemma RetireLoadReady(a: Abs, id: nat, k: nat)
    requires 0 < k < |a.loads| && ReadyAt(a, id, k)
    ensures ReadyAt(RetireLoad(a), id, k - 1)
  {
  }

  lemma SquashReady(a: Abs, point: nat, id: nat, k: nat)
    requires LoadsSorted(a.loads) && StoresSorted(a.stores) && k < |a.loads| && ReadyAt(a, id, k) && id <= point
    ensures k < |SquashTo(a, point).loads| && ReadyAt(SquashTo(a, point), id, k)
  {
    var ss := StoresUpTo(a.stores, point);
    var n := OlderN(a.stores, id);
    UpToIff(LoadIds(a.loads), point, k);
    assert n <= |ss|;
    OlderNUnique(ss, id, n);
    assert ss[..n] == a.stores[..n];
  }

  lemma DispatchLoadReady(a: Abs, nid: nat, id: nat, k: nat)
    requires k < |a.loads| && ReadyAt(a, id, k)
    ensures ReadyAt(DispatchLoad(a, nid), id, k)
  {
  }

  lemma DispatchStoreReady(a: Abs, nid: nat, id: nat, k: nat)
    requires StoresSorted(a.stores) && k < |a.loads| && ReadyAt(a, id, k)
    requires id < nid && forall j :: 0 <= j < |a.stores| ==> a.stores[j].id < nid
    ensures ReadyAt(DispatchStore(a, nid), id, k)
  {
    OlderPrefix(a.stores, [StoreOp(nid, false, 0, 0, 0)], id);
  }

  // ---------------------------------------------------------------- how long a load waits

  /** The loads before position `k` that still wait for an answer. */
  function Open(ls: seq<LoadOp>, k: nat): (n: nat)
    requires k <= |ls|
    ensures n <= k
    decreases k
  {
    if k == 0 then 0 else (if ls[0].resolved then 0 else 1) + Open(ls[1..], k - 1)
  }

  lemma {:induction false} OpenSame(ls: seq<LoadOp>, ms: seq<LoadOp>, k: nat)
    requires k <= |ls| && k <= |ms| && forall j :: 0 <= j < k ==> ls[j].resolved == ms[j].resolved
    ensures Open(ls, k) == Open(ms, k)
    decreases k
  {
    if k > 0 {
      OpenSame(ls[1..], ms[1..], k - 1);
    }
  }

  lemma {:induction false} OpenAnswered(ls: seq<LoadOp>, f: nat, l: LoadOp, k: nat)
    requires f < k <= |ls| && !ls[f].resolved && l.resolved
    ensures Open(ls[f := l], k) == Open(ls, k) - 1
    decreases k
  {
    if f == 0 {
      assert ls[f := l][1..] == ls[1..];
    } else {
      OpenAnswered(ls[1..], f - 1, l, k - 1);
      assert ls[f := l][1..] == ls[1..][f - 1 := l];
    }
  }

  /** The load waits at position `k` behind `n` unanswered ones, able to be answered. */
  ghost predicate Track(a: Abs, id: nat, k: int, n: nat) {
    0 <= k < |a.loads| && ReadyAt(a, id, k) && Open(a.loads, k) == n
  }

  lemma FoundFirst(q: Queues, head: nat, k: nat)
    requires q.Shape() && head < q.span && k < q.lqCnt && CanAnswer(q, head, k)
    ensures Found(q, head, 0) <= k
  {
  }

  lemma RespondTrack(x: Sys, i: In, e: Env, id: nat, k: nat, n: nat)
    requires Inv(x) && EnvOk(x, i, e) && Track(x.a, id, k, n) && !i.squashAll
    ensures Found(x.q, i.robHead, 0) <= k < x.q.lqCnt
    ensures Found(x.q, i.robHead, 0) < k ==> n > 0 && Track(A1(x, i, e), id, k, n - 1)
  {
    CanAnswerIff(x, i, e, k);
    var f := Found(x.q, i.robHead, 0);
    FoundFirst(x.q, i.robHead, k);
    if f < k {
      assert CanAnswer(x.q, i.robHead, f) && IsLoad(x.q.Loads()[f], x.a.loads[f], x.q.span);
      var v := Answer(x.q, i.robHead, f, e.rdData);
      RespondReady(x.a, f, v, id, k);
      OpenAnswered(x.a.loads, f, x.a.loads[f].(resolved := true, value := v), k);
    }
  }

  /** What arrives meanwhile is for entries that had no address. */
  predicate Arrives(a: Abs, i: In, e: Env) {
    && (i.ldValid && e.ldAt < |a.loads| ==> !a.loads[e.ldAt].addrV)
    && (i.stValid && e.stAt < |a.stores| ==> !a.stores[e.stAt].addrV)
    && i.ldSize < 4 && i.stSize < 4
  }

  lemma A1Arrives(x: Sys, i: In, e: Env)
    requires Inv(x) && EnvOk(x, i, e)
    ensures Arrives(A1(x, i, e), i, e)
  {
  }

  predicate Ordered(a: Abs) {
    && LoadsSorted(a.loads) && StoresSorted(a.stores)
    && forall j :: 0 <= j < |a.loads| && a.loads[j].resolved ==> a.loads[j].addrV
  }

  lemma ArriveTrack(a: Abs, i: In, e: Env, id: nat, k: nat, n: nat)
    requires Ordered(a) && Arrives(a, i, e) && Track(a, id, k, n)
    ensures Track(Arrive(a, i, e), id, k, n)
  {
    var b := if i.ldValid && e.ldAt < |a.loads| then ArriveLoad(a, e.ldAt, i.ldAddr, i.ldSize, i.ldSigned) else a;
    if i.ldValid && e.ldAt < |a.loads| {
      ArriveLoadReady(a, e.ldAt, i.ldAddr, i.ldSize, i.ldSigned, id, k);
    }
    OpenSame(a.loads, b.loads, k);
    if i.stValid && e.stAt < |b.stores| {
      ArriveStoreReady(b, e.stAt, i.stAddr, i.stSize, i.stData, id, k);
    }
  }

  lemma RetireLoadTrack(a: Abs, id: nat, k: nat, n: nat)
    requires Track(a, id, k, n) && a.loads[0].resolved
    ensures k > 0 && Track(RetireLoad(a), id, k - 1, n)
  {
    RetireLoadReady(a, id, k);
  }

  lemma CommitTrack(a: Abs, i: In, id: nat, k: nat, n: nat)
    requires Ordered(a) && CommitReady(a, i) && Track(a, id, k, n)
    ensures Track(Commit(a, i), id, k - One(i.commitLoad), n)
  {
    assert forall j :: 0 <= j < k ==> a.loads[j].id < a.loads[k].id;
    if i.commitLoad && i.commitStore {
      if a.loads[0].id < a.stores[0].id {
        RetireLoadTrack(a, id, k, n);
        RetireStoreReady(RetireLoad(a), id, k - 1);
      } else {
        RetireStoreReady(a, id, k);
        RetireLoadTrack(RetireStore(a), id, k, n);
      }
    } else if i.commitLoad {
      RetireLoadTrack(a, id, k, n);
    } else if i.commitStore {
      RetireStoreReady(a, id, k);
    }
  }

  predicate Spared(i: In, e: Env, id: nat) { !i.squashAll && (i.squashValid ==> id <= e.point) }

  lemma SquashTrack(a: Abs, i: In, e: Env, id: nat, k: nat, n: nat)
    requires Ordered(a) && Track(a, id, k, n) && Spared(i, e, id)
    ensures Track(Squash(a, i, e), id, k, n)
  {
    if i.squashValid {
      SquashReady(a, e.point, id, k);
      OpenSame(a.loads, LoadsUpTo(a.loads, e.point), k);
    }
  }

  lemma DispatchOneTrack(a: Abs, nid: nat, load: bool, id: nat, k: nat, n: nat)
    requires Ordered(a) && Track(a, id, k, n) && Youngest(a, nid)
    ensures Track(if load then DispatchLoad(a, nid) else DispatchStore(a, nid), id, k, n)
  {
    if load {
      DispatchLoadReady(a, nid, id, k);
      OpenSame(a.loads, DispatchLoad(a, nid).loads, k);
    } else {
      DispatchStoreReady(a, nid, id, k);
    }
  }

  lemma Dispatch0Ordered(q: Queues, a: Abs, i: In, e: Env)
    requires q.Shape() && Ordered(a) && Dispatches(q, a, i, e)
    ensures Ordered(Dispatch0(q, a, i, e))
  {
  }

  lemma DispatchTrack(q: Queues, a: Abs, i: In, e: Env, id: nat, k: nat, n: nat)
    requires q.Shape() && Ordered(a) && Track(a, id, k, n) && Dispatches(q, a, i, e)
    ensures Track(Dispatch(q, a, i, e), id, k, n)
  {
    var b := Dispatch0(q, a, i, e);
    Dispatch0Ordered(q, a, i, e);
    if Takes0(q, i, true) || Takes0(q, i, false) {
      DispatchOneTrack(a, e.id0, Takes0(q, i, true), id, k, n);
    }
    if Takes1(q, i, true) || Takes1(q, i, false) {
      Dispatch0Youngest(q, a, i, e);
      DispatchOneTrack(b, e.id1, Takes1(q, i, true), id, k, n);
    }
  }

  lemma OrderedIfInv(a: Abs)
    requires AbsInv(a)
    ensures Ordered(a)
  {
    forall j | 0 <= j < |a.loads| && a.loads[j].resolved
      ensures a.loads[j].addrV
    {
      assert LoadOk(a.loads[j], a.stores, a.mem);
    }
  }

  /** What the stages after the response need, all the way through a cycle. */
  ghost predicate StagesOk(q: Queues, a: Abs, i: In, e: Env)
    requires q.Shape()
  {
    var b := Arrive(a, i, e);
    var c := Commit(b, i);
    var d := Squash(c, i, e);
    && Ordered(a) && Ordered(b) && Ordered(c) && Ordered(d)
    && Arrives(a, i, e) && CommitReady(b, i) && Dispatches(q, d, i, e)
  }

  lemma CycleStages(x: Sys, i: In, e: Env)
    requires Inv(x) && EnvOk(x, i, e)
    ensures StagesOk(x.q, A1(x, i, e), i, e)
  {
    SquashedOk(x, i, e);
    A1Arrives(x, i, e);
    SquashedDispatches(x, i, e);
    var b := Arrive(A1(x, i, e), i, e);
    OrderedIfInv(A1(x, i, e));
    OrderedIfInv(b);
    OrderedIfInv(Commit(b, i));
    OrderedIfInv(Squash(Commit(b, i), i, e));
  }

  /** Arrivals and commits leave the load where it can be answered. */
  lemma FirstHalfTrack(a: Abs, i: In, e: Env, id: nat, k: nat, n: nat)
    requires Ordered(a) && Ordered(Arrive(a, i, e)) && Arrives(a, i, e) && CommitReady(Arrive(a, i, e), i)
    requires Track(a, id, k, n)
    ensures Track(Commit(Arrive(a, i, e), i), id, k - One(i.commitLoad), n)
  {
    ArriveTrack(a, i, e, id, k, n);
    CommitTrack(Arrive(a, i, e), i, id, k, n);
  }

  /** So do a squash that spares it and what is dispatched. */
  lemma SecondHalfTrack(q: Queues, c: Abs, i: In, e: Env, id: nat, k: nat, n: nat)
    requires q.Shape() && Ordered(c) && Ordered(Squash(c, i, e)) && Dispatches(q, Squash(c, i, e), i, e)
    requires Track(c, id, k, n) && Spared(i, e, id)
    ensures Track(Dispatch(q, Squash(c, i, e), i, e), id, k, n)
  {
    SquashTrack(c, i, e, id, k, n);
    DispatchTrack(q, Squash(c, i, e), i, e, id, k, n);
  }

  /** The rest of the cycle leaves the load where it can be answered. */
  lemma RestTrack(q: Queues, a: Abs, i: In, e: Env, id: nat, k: nat, n: nat)
    requires q.Shape() && StagesOk(q, a, i, e) && Track(a, id, k, n) && Spared(i, e, id)
    ensures Track(Dispatch(q, Squash(Commit(Arrive(a, i, e), i), i, e), i, e), id, k - One(i.commitLoad), n)
  {
    FirstHalfTrack(a, i, e, id, k, n);
    SecondHalfTrack(q, Commit(Arrive(a, i, e), i), i, e, id, k - One(i.commitLoad), n);
  }

  /** A load that can be answered and is not squashed is answered in this cycle,
      or an older one is and it can still be answered in the next. */
  lemma OnceAbleAlwaysAble(x: Sys, i: In, e: Env, id: nat, k: nat, n: nat)
    requires Inv(x) && EnvOk(x, i, e) && Track(x.a, id, k, n) && Spared(i, e, id)
    ensures Found(x.q, i.robHead, 0) <= k < x.q.lqCnt
    ensures Found(x.q, i.robHead, 0) < k ==>
      n > 0 && Track(AbsNext(x, i, e), id, k - One(i.commitLoad), n - 1)
  {
    RespondTrack(x, i, e, id, k, n);
    if Found(x.q, i.robHead, 0) < k {
      CycleStages(x, i, e);
      RestTrack(x.q, A1(x, i, e), i, e, id, k, n - 1);
    }
  }

  /** The load is the one answered in this cycle. */
  predicate Answers(x: Sys, i: In, id: nat) {
    && x.q.Shape() && i.Ok(x.q)
    && var f := Found(x.q, i.robHead, 0);
       f < x.q.lqCnt && f < |x.a.loads| && x.a.loads[f].id == id
  }

  lemma FoundAnswers(x: Sys, i: In, id: nat, k: nat)
    requires x.q.Shape() && i.Ok(x.q) && k < |x.a.loads| && x.a.loads[k].id == id
    ensures Found(x.q, i.robHead, 0) == k < x.q.lqCnt ==> Answers(x, i, id)
  {
  }

  /** If the cycle does not answer the load, it can still be answered in the next
      one, and one fewer is unanswered before it. */
  ghost predicate Closer(x: Sys, i: In, y: Sys, id: nat) {
    forall k: int, n: nat :: Track(x.a, id, k, n) && !Answers(x, i, id) ==>
      n > 0 && Track(y.a, id, k - One(i.commitLoad), n - 1)
  }

  /** One legal cycle leads from `x` to `y`. */
  ghost predicate LegalStep(x: Sys, i: In, e: Env, y: Sys) {
    x.q.Shape() && EnvOk(x, i, e) && y == SysNext(x, i, e)
  }

  lemma CycleCloser(x: Sys, i: In, e: Env, y: Sys, id: nat)
    requires Inv(x) && LegalStep(x, i, e, y) && Spared(i, e, id)
    ensures Closer(x, i, y, id)
  {
    forall k: int, n: nat | Track(x.a, id, k, n) && !Answers(x, i, id)
      ensures n > 0 && Track(SysNext(x, i, e).a, id, k - One(i.commitLoad), n - 1)
    {
      OnceAbleAlwaysAble(x, i, e, id, k, n);
      FoundAnswers(x, i, id, k);
    }
  }

  lemma LegalStepKeeps(x: Sys, i: In, e: Env, y: Sys)
    requires Inv(x) && LegalStep(x, i, e, y)
    ensures Inv(y)
  {
    StepKeeps(x, i, e);
  }

  /** The states a legal run goes through. */
  ghost predicate Trace(xs: seq<Sys>, ins: seq<(In, Env)>) {
    |xs| == |ins| + 1 && forall c :: 0 <= c < |ins| ==> LegalStep(xs[c], ins[c].0, ins[c].1, xs[c + 1])
  }

  lemma TraceStep(xs: seq<Sys>, ins: seq<(In, Env)>, c: nat)
    requires Trace(xs, ins) && c < |ins| && Inv(xs[c])
    ensures Inv(xs[c + 1])
  {
    LegalStepKeeps(xs[c], ins[c].0, ins[c].1, xs[c + 1]);
  }

  lemma {:induction false} TraceKeeps(xs: seq<Sys>, ins: seq<(In, Env)>, c: nat)
    requires Trace(xs, ins) && Inv(xs[0]) && c < |xs|
    ensures Inv(xs[c])
    decreases c
  {
    if c > 0 {
      TraceKeeps(xs, ins, c - 1);
      TraceStep(xs, ins, c - 1);
    }
  }

  /** No cycle squashes the load. */
  predicate AllSpared(ins: seq<(In, Env)>, id: nat) {
    forall c :: 0 <= c < |ins| ==> Spared(ins[c].0, ins[c].1, id)
  }

  lemma TraceCloser(xs: seq<Sys>, ins: seq<(In, Env)>, id: nat, c: nat)
    requires Trace(xs, ins) && Inv(xs[0]) && AllSpared(ins, id) && c < |ins|
    ensures Closer(xs[c], ins[c].0, xs[c + 1], id)
  {
    TraceKeeps(xs, ins, c);
    CycleCloser(xs[c], ins[c].0, ins[c].1, xs[c + 1], id);
  }

  lemma {:induction false} CloserAnswered(xs: seq<Sys>, ins: seq<(In, Env)>, c: nat, id: nat, k: int, n: nat)
    returns (d: nat)
    requires |xs| == |ins| + 1 && forall d :: 0 <= d < |ins| ==> Closer(xs[d], ins[d].0, xs[d + 1], id)
    requires c + n < |ins| && Track(xs[c].a, id, k, n)
    ensures c <= d <= c + n && Answers(xs[d], ins[d].0, id)
    decreases n
  {
    assert Closer(xs[c], ins[c].0, xs[c + 1], id);
    if Answers(xs[c], ins[c].0, id) {
      d := c;
    } else {
      d := CloserAnswered(xs, ins, c + 1, id, k - One(ins[c].0.commitLoad), n - 1);
    }
  }

  /** In every run a load that can be answered in cycle `c` and is never squashed
      is answered after at most as many cycles as there are unanswered loads
      before it: at queue position `k`, in one of the next `k + 1` cycles. */
  lemma AnsweredInTime(xs: seq<Sys>, ins: seq<(In, Env)>, c: nat, id: nat, k: nat) returns (d: nat)
    requires Trace(xs, ins) && Inv(xs[0]) && AllSpared(ins, id) && c < |xs|
    requires k < |xs[c].a.loads| && ReadyAt(xs[c].a, id, k) && c + Open(xs[c].a.loads, k) < |ins|
    ensures c <= d <= c + Open(xs[c].a.loads, k) <= c + k
    ensures Answers(xs[d], ins[d].0, id)
  {
    forall d | 0 <= d < |ins|
      ensures Closer(xs[d], ins[d].0, xs[d + 1], id)
    {
      TraceCloser(xs, ins, id, d);
    }
    d := CloserAnswered(xs, ins, c, id, k, Open(xs[c].a.loads, k));
  }
}
