/** Memory operations in flight and the sequential execution they must look
    like (the role of sim/lsq/lsq_model.h). */
module LsqAbs {
  import opened Bytes
  import opened ByteMemory
  import opened Lsq

  /** A load in flight; `id` is its place in program order. */
  datatype LoadOp = LoadOp(id: nat, addrV: bool, addr: nat, size: nat, sgn: bool, resolved: bool, value: nat)

  datatype StoreOp = StoreOp(id: nat, addrV: bool, addr: nat, size: nat, data: nat)

  /** A retired operation, with the value a load was given. */
  datatype Op = LoadDone(id: nat, addr: nat, size: nat, sgn: bool, value: nat)
              | StoreDone(id: nat, addr: nat, size: nat, data: nat)

  /** What is in flight, data memory, and everything retired so far. */
  datatype Abs = Abs(loads: seq<LoadOp>, stores: seq<StoreOp>, mem: Mem, m0: Mem, history: seq<Op>)

  // ---------------------------------------------------------------- sequential meaning

  function Store(m: Mem, s: StoreOp): Mem {
    if s.size < 4 then WriteValue(m, s.addr, s.size, s.data) else m
  }

  /** Memory after the stores, in order. */
  function SeqMem(m: Mem, ss: seq<StoreOp>): Mem {
    if ss == [] then m else Store(SeqMem(m, ss[..|ss| - 1]), ss[|ss| - 1])
  }

  /** What a load returns when it executes on memory `m`. */
  function LoadValue(m: Mem, addr: nat, size: nat, sgn: bool): nat
    requires size < 4
  {
    Extend(ReadValue(m, addr, size), size, sgn)
  }

  /** Memory after replaying the retired operations in order. */
  function Replay(m0: Mem, h: seq<Op>): Mem {
    if h == [] then m0
    else
      var m := Replay(m0, h[..|h| - 1]);
      match h[|h| - 1]
      case LoadDone(_, _, _, _, _) => m
      case StoreDone(id, addr, size, data) => Store(m, StoreOp(id, true, addr, size, data))
  }

  /** Every retired load has the value the replay gives it at its place. */
  ghost predicate Sequential(m0: Mem, h: seq<Op>) {
    && (forall k :: 0 <= k < |h| && h[k].LoadDone? ==>
          h[k].size < 4 && h[k].value == LoadValue(Replay(m0, h[..k]), h[k].addr, h[k].size, h[k].sgn))
    && (forall j, k :: 0 <= j < k < |h| ==> h[j].id < h[k].id)
  }

  // ---------------------------------------------------------------- invariant

  predicate LoadsSorted(ls: seq<LoadOp>) {
    forall i, j :: 0 <= i < j < |ls| ==> ls[i].id < ls[j].id
  }

  predicate StoresSorted(ss: seq<StoreOp>) {
    forall i, j :: 0 <= i < j < |ss| ==> ss[i].id < ss[j].id
  }

  /** How many of the stores are older than `id`; they come first. */
  function OlderN(ss: seq<StoreOp>, id: nat): (n: nat)
    ensures n <= |ss|
    ensures forall j :: 0 <= j < n ==> ss[j].id < id
    ensures n < |ss| ==> ss[n].id >= id
  {
    if ss == [] || ss[0].id >= id then 0 else 1 + OlderN(ss[1..], id)
  }

  predicate AllAddr(ss: seq<StoreOp>) {
    forall j :: 0 <= j < |ss| ==> ss[j].addrV
  }

  function OlderThan(ss: seq<StoreOp>, id: nat): seq<StoreOp> {
    ss[..OlderN(ss, id)]
  }

  /** A resolved load holds the value sequential execution gives it: the one read
      after memory's contents and all older stores, whose addresses are known. */
  ghost predicate LoadOk(l: LoadOp, ss: seq<StoreOp>, mem: Mem) {
    && l.size < 4
    && (l.resolved ==>
          && l.addrV && AllAddr(OlderThan(ss, l.id))
          && l.value == LoadValue(SeqMem(mem, OlderThan(ss, l.id)), l.addr, l.size, l.sgn))
  }

  /** Each list is in program order, no position is used twice, and everything
      retired is older than everything in flight. */
  predicate OrderOk(a: Abs) {
    && LoadsSorted(a.loads) && StoresSorted(a.stores)
    && (forall i, j :: 0 <= i < |a.loads| && 0 <= j < |a.stores| ==> a.loads[i].id != a.stores[j].id)
    && (forall k, i :: 0 <= k < |a.history| && 0 <= i < |a.loads| ==> a.history[k].id < a.loads[i].id)
    && (forall k, j :: 0 <= k < |a.history| && 0 <= j < |a.stores| ==> a.history[k].id < a.stores[j].id)
  }

  ghost predicate ValuesOk(a: Abs) {
    && (forall i :: 0 <= i < |a.loads| ==> LoadOk(a.loads[i], a.stores, a.mem))
    && (forall j :: 0 <= j < |a.stores| ==> a.stores[j].size < 4)
  }

  ghost predicate HistoryOk(a: Abs) {
    a.mem == Replay(a.m0, a.history) && Sequential(a.m0, a.history)
  }

  ghost predicate AbsInv(a: Abs) {
    OrderOk(a) && ValuesOk(a) && HistoryOk(a)
  }

  // ---------------------------------------------------------------- actions

  function Respond(a: Abs, i: nat, v: nat): Abs
    requires i < |a.loads|
  {
    a.(loads := a.loads[i := a.loads[i].(resolved := true, value := v)])
  }

  function ArriveLoad(a: Abs, i: nat, addr: nat, size: nat, sgn: bool): Abs
    requires i < |a.loads|
  {
    a.(loads := a.loads[i := a.loads[i].(addrV := true, addr := addr, size := size, sgn := sgn, resolved := false)])
  }

  function ArriveStore(a: Abs, j: nat, addr: nat, size: nat, data: nat): Abs
    requires j < |a.stores|
  {
    a.(stores := a.stores[j := a.stores[j].(addrV := true, addr := addr, size := size, data := data)])
  }

  function RetireLoad(a: Abs): Abs
    requires a.loads != []
  {
    var l := a.loads[0];
    a.(loads := a.loads[1..], history := a.history + [LoadDone(l.id, l.addr, l.size, l.sgn, l.value)])
  }

  function RetireStore(a: Abs): Abs
    requires a.stores != []
  {
    var s := a.stores[0];
    a.(stores := a.stores[1..], mem := Store(a.mem, s),
       history := a.history + [StoreDone(s.id, s.addr, s.size, s.data)])
  }

  /** How many positions come up to program position `point`; they come first. */
  function UpTo(ids: seq<nat>, point: nat): (n: nat)
    ensures n <= |ids|
    ensures forall i :: 0 <= i < n ==> ids[i] <= point
    ensures n < |ids| ==> ids[n] > point
  {
    if ids == [] || ids[0] > point then 0 else 1 + UpTo(ids[1..], point)
  }

  function LoadIds(ls: seq<LoadOp>): (r: seq<nat>)
    ensures |r| == |ls| && forall i :: 0 <= i < |ls| ==> r[i] == ls[i].id
  {
    seq(|ls|, i requires 0 <= i < |ls| => ls[i].id)
  }

  function StoreIds(ss: seq<StoreOp>): (r: seq<nat>)
    ensures |r| == |ss| && forall i :: 0 <= i < |ss| ==> r[i] == ss[i].id
  {
    seq(|ss|, i requires 0 <= i < |ss| => ss[i].id)
  }

  /** Drop everything younger than program position `point`. */
  function LoadsUpTo(ls: seq<LoadOp>, point: nat): seq<LoadOp> {
    ls[..UpTo(LoadIds(ls), point)]
  }

  function StoresUpTo(ss: seq<StoreOp>, point: nat): seq<StoreOp> {
    ss[..UpTo(StoreIds(ss), point)]
  }

  function SquashTo(a: Abs, point: nat): Abs {
    a.(loads := LoadsUpTo(a.loads, point), stores := StoresUpTo(a.stores, point))
  }

  function DispatchLoad(a: Abs, id: nat): Abs {
    a.(loads := a.loads + [LoadOp(id, false, 0, 0, false, false, 0)])
  }

  function DispatchStore(a: Abs, id: nat): Abs {
    a.(stores := a.stores + [StoreOp(id, false, 0, 0, 0)])
  }

  // ---------------------------------------------------------------- what the actions keep

  /** The older stores are decided by the first store that is not older. */
  lemma OlderNUnique(ss: seq<StoreOp>, id: nat, n: nat)
    requires StoresSorted(ss) && n <= |ss|
    requires forall j :: 0 <= j < n ==> ss[j].id < id
    requires n < |ss| ==> ss[n].id >= id
    ensures OlderN(ss, id) == n
  {
    assert OlderN(ss, id) <= n;
    assert n <= OlderN(ss, id);
  }

  lemma RespondKeeps(a: Abs, i: nat, v: nat)
    requires AbsInv(a) && i < |a.loads| && a.loads[i].addrV
    requires AllAddr(OlderThan(a.stores, a.loads[i].id))
    requires v == LoadValue(SeqMem(a.mem, OlderThan(a.stores, a.loads[i].id)), a.loads[i].addr, a.loads[i].size,
                            a.loads[i].sgn)
    ensures AbsInv(Respond(a, i, v))
  {
  }

  lemma ArriveLoadKeeps(a: Abs, i: nat, addr: nat, size: nat, sgn: bool)
    requires AbsInv(a) && i < |a.loads| && size < 4
    ensures AbsInv(ArriveLoad(a, i, addr, size, sgn))
  {
  }

  /** An address that arrives once arrives at no store that a resolved load has
      already looked past. */
  lemma ArriveStoreLoad(a: Abs, j: nat, addr: nat, size: nat, data: nat, l: LoadOp)
    requires AbsInv(a) && j < |a.stores| && !a.stores[j].addrV && size < 4
    requires LoadOk(l, a.stores, a.mem)
    ensures LoadOk(l, ArriveStore(a, j, addr, size, data).stores, a.mem)
  {
    var ss := ArriveStore(a, j, addr, size, data).stores;
    var n := OlderN(a.stores, l.id);
    OlderNUnique(ss, l.id, n);
    if l.resolved {
      assert forall k :: 0 <= k < n ==> OlderThan(a.stores, l.id)[k] == a.stores[k];
      assert ss[..n] == a.stores[..n];
    }
  }

  lemma ArriveStoreKeeps(a: Abs, j: nat, addr: nat, size: nat, data: nat)
    requires AbsInv(a) && j < |a.stores| && !a.stores[j].addrV && size < 4
    ensures AbsInv(ArriveStore(a, j, addr, size, data))
  {
    forall i | 0 <= i < |a.loads|
      ensures LoadOk(a.loads[i], ArriveStore(a, j, addr, size, data).stores, a.mem)
    {
      ArriveStoreLoad(a, j, addr, size, data, a.loads[i]);
    }
  }

  lemma {:induction false} SeqMemFront(m: Mem, ss: seq<StoreOp>)
    requires ss != []
    ensures SeqMem(m, ss) == SeqMem(Store(m, ss[0]), ss[1..])
  {
    var n := |ss| - 1;
    if n == 0 {
      assert ss[..0] == [] && ss[1..] == [];
    } else {
      SeqMemFront(m, ss[..n]);
      assert ss[..n][1..] == ss[1..][..n - 1];
    }
  }

  lemma HistoryExtends(a: Abs, op: Op)
    requires HistoryOk(a)
    requires forall k :: 0 <= k < |a.history| ==> a.history[k].id < op.id
    requires op.LoadDone? ==> op.size < 4 && op.value == LoadValue(a.mem, op.addr, op.size, op.sgn)
    ensures Sequential(a.m0, a.history + [op])
    ensures Replay(a.m0, a.history + [op])
         == match op case LoadDone(_, _, _, _, _) => a.mem
            case StoreDone(id, addr, size, data) => Store(a.mem, StoreOp(id, true, addr, size, data))
  {
    var h := a.history + [op];
    assert h[..|a.history|] == a.history;
    forall k | 0 <= k < |h| && h[k].LoadDone?
      ensures h[k].size < 4 && h[k].value == LoadValue(Replay(a.m0, h[..k]), h[k].addr, h[k].size, h[k].sgn)
    {
      if k < |a.history| {
        assert h[..k] == a.history[..k];
        assert h[k] == a.history[k];
      }
    }
  }

  lemma RetireLoadOrder(a: Abs)
    requires OrderOk(a) && a.loads != [] && (a.stores == [] || a.loads[0].id < a.stores[0].id)
    ensures OrderOk(RetireLoad(a))
  {
  }

  lemma RetireLoadValues(a: Abs)
    requires ValuesOk(a) && a.loads != []
    ensures ValuesOk(RetireLoad(a))
  {
  }

  lemma RetireLoadHistory(a: Abs)
    requires OrderOk(a) && HistoryOk(a) && a.loads != [] && a.loads[0].resolved
    requires LoadOk(a.loads[0], a.stores, a.mem) && (a.stores == [] || a.loads[0].id < a.stores[0].id)
    ensures HistoryOk(RetireLoad(a))
  {
    var l := a.loads[0];
    assert OlderThan(a.stores, l.id) == [];
    HistoryExtends(a, LoadDone(l.id, l.addr, l.size, l.sgn, l.value));
  }

  /** Retiring the oldest load, once it is older than every store left: it has
      the value of memory as it stands. */
  lemma RetireLoadKeeps(a: Abs)
    requires AbsInv(a) && a.loads != [] && a.loads[0].resolved
    requires a.stores == [] || a.loads[0].id < a.stores[0].id
    ensures AbsInv(RetireLoad(a))
  {
    RetireLoadOrder(a);
    RetireLoadValues(a);
    RetireLoadHistory(a);
  }

  lemma AllAddrTail(ss: seq<StoreOp>)
    requires ss != [] && AllAddr(ss)
    ensures AllAddr(ss[1..])
  {
  }

  lemma OlderTail(ss: seq<StoreOp>, id: nat)
    requires ss != [] && ss[0].id < id
    ensures OlderThan(ss, id) != [] && OlderThan(ss, id)[0] == ss[0]
    ensures OlderThan(ss[1..], id) == OlderThan(ss, id)[1..]
  {
  }

  lemma RetireStoreLoad(ss: seq<StoreOp>, mem: Mem, l: LoadOp)
    requires ss != [] && ss[0].id < l.id && LoadOk(l, ss, mem)
    ensures LoadOk(l, ss[1..], Store(mem, ss[0]))
  {
    if l.resolved {
      OlderTail(ss, l.id);
      AllAddrTail(OlderThan(ss, l.id));
      SeqMemFront(mem, OlderThan(ss, l.id));
    }
  }

  lemma RetireStoreOrder(a: Abs)
    requires OrderOk(a) && a.stores != [] && (a.loads == [] || a.stores[0].id < a.loads[0].id)
    ensures OrderOk(RetireStore(a))
  {
  }

  lemma RetireStoreValues(a: Abs)
    requires OrderOk(a) && ValuesOk(a) && a.stores != [] && (a.loads == [] || a.stores[0].id < a.loads[0].id)
    ensures ValuesOk(RetireStore(a))
  {
    forall i | 0 <= i < |a.loads|
      ensures LoadOk(a.loads[i], a.stores[1..], Store(a.mem, a.stores[0]))
    {
      RetireStoreLoad(a.stores, a.mem, a.loads[i]);
    }
  }

  lemma RetireStoreHistory(a: Abs)
    requires OrderOk(a) && HistoryOk(a) && a.stores != [] && a.stores[0].addrV
    ensures HistoryOk(RetireStore(a))
  {
    var s := a.stores[0];
    HistoryExtends(a, StoreDone(s.id, s.addr, s.size, s.data));
  }

  /** Retiring the oldest store, once it is older than every load left: memory
      moves, and every waiting load still sees the same sequence of stores. */
  lemma RetireStoreKeeps(a: Abs)
    requires AbsInv(a) && a.stores != [] && a.stores[0].addrV
    requires a.loads == [] || a.stores[0].id < a.loads[0].id
    ensures AbsInv(RetireStore(a))
  {
    RetireStoreOrder(a);
    RetireStoreValues(a);
    RetireStoreHistory(a);
  }

  lemma SquashLoad(a: Abs, point: nat, l: LoadOp)
    requires AbsInv(a) && LoadOk(l, a.stores, a.mem) && l.id <= point
    ensures LoadOk(l, StoresUpTo(a.stores, point), a.mem)
  {
    var ss := StoresUpTo(a.stores, point);
    var n := OlderN(a.stores, l.id);
    assert n <= |ss|;
    OlderNUnique(ss, l.id, n);
    assert ss[..n] == a.stores[..n];
  }

  /** A squash leaves the value of every surviving load as it was. */
  lemma SquashKeeps(a: Abs, point: nat)
    requires AbsInv(a)
    ensures AbsInv(SquashTo(a, point))
  {
    var b := SquashTo(a, point);
    forall i | 0 <= i < |b.loads|
      ensures LoadOk(b.loads[i], b.stores, b.mem)
    {
      assert b.loads[i] == a.loads[i];
      SquashLoad(a, point, a.loads[i]);
    }
  }

  /** `id` comes after everything in flight or retired. */
  predicate Youngest(a: Abs, id: nat) {
    && (forall i :: 0 <= i < |a.loads| ==> a.loads[i].id < id)
    && (forall j :: 0 <= j < |a.stores| ==> a.stores[j].id < id)
    && (forall k :: 0 <= k < |a.history| ==> a.history[k].id < id)
  }

  lemma DispatchLoadKeeps(a: Abs, id: nat)
    requires AbsInv(a) && Youngest(a, id)
    ensures AbsInv(DispatchLoad(a, id))
  {
  }

  lemma DispatchStoreLoad(a: Abs, id: nat, l: LoadOp)
    requires StoresSorted(a.stores) && Youngest(a, id) && LoadOk(l, a.stores, a.mem) && l.id < id
    ensures LoadOk(l, DispatchStore(a, id).stores, a.mem)
  {
    var ss := DispatchStore(a, id).stores;
    var n := OlderN(a.stores, l.id);
    OlderNUnique(ss, l.id, n);
    assert ss[..n] == a.stores[..n];
  }

  lemma DispatchStoreKeeps(a: Abs, id: nat)
    requires AbsInv(a) && Youngest(a, id)
    ensures AbsInv(DispatchStore(a, id))
  {
    forall i | 0 <= i < |a.loads|
      ensures LoadOk(a.loads[i], DispatchStore(a, id).stores, a.mem)
    {
      DispatchStoreLoad(a, id, a.loads[i]);
    }
  }
}
