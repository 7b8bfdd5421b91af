/** Why the rename unit is right: the in-flight instructions are kept beside it
    in program order, and the map, the free ring and every checkpoint are shown
    to be functions of that list. */
module RenameProof {
  import opened Ring
  import opened Rename

  /** A renamed instruction that has not retired. `rd == 0` has no destination. */
  datatype InFlight = InFlight(rs1: nat, rs2: nat, rd: nat, prs1: nat, prs2: nat, prd: nat, prev: nat,
                               hasCkpt: bool, ckptId: nat)

  /** The renamer, the instructions in flight (oldest first), and the map the
      retired instructions left behind. */
  datatype Sys = Sys(s: State, rob: seq<InFlight>, arch: RegMap)

  // ---------------------------------------------------------------- meaning

  function Apply(m: RegMap, e: InFlight): (r: RegMap)
    ensures |r| == |m|
  {
    if e.rd != 0 && e.rd < |m| then m[e.rd := e.prd] else m
  }

  /** The map after renaming all of `rob` on top of `m`. */
  function Chain(m: RegMap, rob: seq<InFlight>): (r: RegMap)
    ensures |r| == |m|
  {
    if rob == [] then m else Apply(Chain(m, rob[..|rob| - 1]), rob[|rob| - 1])
  }

  /** The destination registers in flight, oldest first. */
  function Prds(rob: seq<InFlight>): (r: seq<nat>)
    ensures |r| <= |rob|
  {
    if rob == [] then []
    else Prds(rob[..|rob| - 1]) + if rob[|rob| - 1].rd != 0 then [rob[|rob| - 1].prd] else []
  }

  /** The displaced registers in flight, oldest first. */
  function Prevs(rob: seq<InFlight>): (r: seq<nat>) {
    if rob == [] then []
    else Prevs(rob[..|rob| - 1]) + if rob[|rob| - 1].rd != 0 then [rob[|rob| - 1].prev] else []
  }

  /** The number of checkpoint ids held in flight. */
  function Ckpts(rob: seq<InFlight>): (n: nat) {
    if rob == [] then 0 else Ckpts(rob[..|rob| - 1]) + if rob[|rob| - 1].hasCkpt then 1 else 0
  }

  function FreeList(s: State): seq<nat>
    requires s.Shape() && 0 <= s.count <= DEPTH
  {
    Window(s.fl, s.head, s.count)
  }

  function Bag(a: seq<nat>): multiset<nat> {
    multiset(a)
  }

  function AllRegs(): seq<nat> {
    seq(NUM_PREGS, i requires 0 <= i => i)
  }

  // ---------------------------------------------------------------- invariant

  /** Each in-flight instruction read and displaced what the map held when it
      was renamed. */
  ghost predicate Recorded(arch: RegMap, rob: seq<InFlight>)
    requires |arch| == ARCH_REGS
  {
    forall j :: 0 <= j < |rob| ==>
      && rob[j].rs1 < ARCH_REGS && rob[j].rs2 < ARCH_REGS && rob[j].rd < ARCH_REGS
      && rob[j].prs1 == Chain(arch, rob[..j])[rob[j].rs1]
      && rob[j].prs2 == Chain(arch, rob[..j])[rob[j].rs2]
      && rob[j].prev == Chain(arch, rob[..j])[rob[j].rd]
  }

  ghost predicate Shaped(x: Sys) {
    x.s.Shape() && |x.arch| == ARCH_REGS && x.arch[0] == 0
  }

  /** The ring read from its tail: the registers in flight in order, then the
      free list. */
  ghost predicate RingOk(x: Sys)
    requires x.s.Shape()
  {
    && |Prds(x.rob)| + x.s.count == DEPTH && 0 <= x.s.count
    && x.s.head == Wrap(x.s.tail + |Prds(x.rob)|, DEPTH)
    && Window(x.s.fl, x.s.tail, |Prds(x.rob)|) == Prds(x.rob)
  }

  /** The retired map and the whole ring together hold each register once. */
  ghost predicate Conserved(x: Sys)
    requires x.s.Shape()
  {
    Bag(x.arch) + Bag(Window(x.s.fl, x.s.tail, DEPTH)) == Bag(AllRegs())
  }

  ghost predicate MapOk(x: Sys)
    requires Shaped(x)
  {
    x.s.map_ == Chain(x.arch, x.rob) && Recorded(x.arch, x.rob)
  }

  /** The checkpoint of instruction `j` holds the map and the free-list position
      right after it, under the id that the number of older checkpoints
      dictates. */
  ghost predicate CkptOk(s: State, arch: RegMap, rob: seq<InFlight>, j: nat)
    requires s.Shape() && 0 <= s.ckptCount <= N_CKPT && j < |rob|
  {
    var id := rob[j].ckptId;
    && id < N_CKPT && Ckpts(rob[..j]) < s.ckptCount
    && id == ModCkpt(Oldest(s) + Ckpts(rob[..j]))
    && s.ckptMap[id] == Chain(arch, rob[..j + 1])
    && |Prds(rob[..j + 1])| <= DEPTH
    && s.ckptFlHead[id] == Wrap(s.tail + |Prds(rob[..j + 1])|, DEPTH)
  }

  /** The id of the oldest live checkpoint, if there is one. */
  function Oldest(s: State): (r: nat)
    requires s.Shape() && 0 <= s.ckptCount <= N_CKPT
    ensures r < N_CKPT
  {
    ModCkpt(s.ckptHead - s.ckptCount)
  }

  ghost predicate CkptsOk(x: Sys)
    requires x.s.Shape()
  {
    && x.s.ckptCount == Ckpts(x.rob) && x.s.ckptCount <= N_CKPT
    && forall j :: 0 <= j < |x.rob| && x.rob[j].hasCkpt ==> CkptOk(x.s, x.arch, x.rob, j)
  }

  ghost predicate Inv(x: Sys) {
    Shaped(x) && RingOk(x) && Conserved(x) && MapOk(x) && CkptsOk(x)
  }

  // ---------------------------------------------------------------- lists

  lemma {:induction false} ChainAppend(m: RegMap, a: seq<InFlight>, b: seq<InFlight>)
    ensures Chain(m, a + b) == Chain(Chain(m, a), b)
    decreases |b|
  {
    if b == [] {
      assert a + b == a;
    } else {
      var c := b[..|b| - 1];
      assert (a + b)[..|a + b| - 1] == a + c;
      ChainAppend(m, a, c);
    }
  }

  lemma AppendFront(a: seq<InFlight>, b: seq<InFlight>)
    requires b != []
    ensures (a + b)[..|a + b| - 1] == a + b[..|b| - 1] && (a + b)[|a + b| - 1] == b[|b| - 1]
  {
  }

  lemma {:induction false} PrdsAppend(a: seq<InFlight>, b: seq<InFlight>)
    ensures Prds(a + b) == Prds(a) + Prds(b)
    decreases |b|
  {
    if b == [] {
      assert a + b == a;
    } else {
      AppendFront(a, b);
      PrdsAppend(a, b[..|b| - 1]);
    }
  }

  lemma {:induction false} PrevsAppend(a: seq<InFlight>, b: seq<InFlight>)
    ensures Prevs(a + b) == Prevs(a) + Prevs(b)
    decreases |b|
  {
    if b == [] {
      assert a + b == a;
    } else {
      AppendFront(a, b);
      PrevsAppend(a, b[..|b| - 1]);
    }
  }

  lemma {:induction false} CkptsAppend(a: seq<InFlight>, b: seq<InFlight>)
    ensures Ckpts(a + b) == Ckpts(a) + Ckpts(b)
    decreases |b|
  {
    if b == [] {
      assert a + b == a;
    } else {
      AppendFront(a, b);
      CkptsAppend(a, b[..|b| - 1]);
    }
  }

  lemma ListsAppend(a: seq<InFlight>, b: seq<InFlight>)
    ensures Prds(a + b) == Prds(a) + Prds(b)
    ensures Prevs(a + b) == Prevs(a) + Prevs(b)
    ensures Ckpts(a + b) == Ckpts(a) + Ckpts(b)
  {
    PrdsAppend(a, b);
    PrevsAppend(a, b);
    CkptsAppend(a, b);
  }

  lemma Splits(rob: seq<InFlight>, k: nat)
    requires k <= |rob|
    ensures rob == rob[..k] + rob[k..]
  {
  }

  /** Peeling the oldest instruction off a list. */
  lemma PopFront(m: RegMap, rob: seq<InFlight>)
    requires rob != []
    ensures Chain(m, rob) == Chain(Apply(m, rob[0]), rob[1..])
    ensures Prds(rob) == (if rob[0].rd != 0 then [rob[0].prd] else []) + Prds(rob[1..])
    ensures Ckpts(rob) == (if rob[0].hasCkpt then 1 else 0) + Ckpts(rob[1..])
  {
    var a := [rob[0]];
    assert rob == a + rob[1..];
    ChainAppend(m, a, rob[1..]);
    ListsAppend(a, rob[1..]);
    assert a[..0] == [];
    assert Chain(m, a) == Apply(Chain(m, []), rob[0]) == Apply(m, rob[0]);
    assert Prds(a) == Prds([]) + if rob[0].rd != 0 then [rob[0].prd] else [];
  }

  lemma PushBack(m: RegMap, rob: seq<InFlight>, e: InFlight)
    ensures Chain(m, rob + [e]) == Apply(Chain(m, rob), e)
    ensures Prds(rob + [e]) == Prds(rob) + if e.rd != 0 then [e.prd] else []
    ensures Ckpts(rob + [e]) == Ckpts(rob) + if e.hasCkpt then 1 else 0
  {
    assert (rob + [e])[..|rob|] == rob;
  }

  /** A prefix holds no more than the whole. */
  lemma PrefixBounds(rob: seq<InFlight>, j: nat)
    requires j <= |rob|
    ensures |Prds(rob[..j])| <= |Prds(rob)| && Prds(rob[..j]) == Prds(rob)[..|Prds(rob[..j])|]
    ensures Ckpts(rob[..j]) <= Ckpts(rob)
    ensures Ckpts(rob) == Ckpts(rob[..j]) + Ckpts(rob[j..])
    ensures |Prds(rob)| == |Prds(rob[..j])| + |Prds(rob[j..])|
  {
    assert rob == rob[..j] + rob[j..];
    ListsAppend(rob[..j], rob[j..]);
  }

  lemma CkptsPushBack(rob: seq<InFlight>, e: InFlight)
    ensures Ckpts(rob + [e]) == Ckpts(rob) + if e.hasCkpt then 1 else 0
  {
    assert (rob + [e])[..|rob|] == rob;
  }

  /** A checkpoint at `j` is counted by the prefix that contains it. */
  lemma RankStrict(rob: seq<InFlight>, j: nat)
    requires j < |rob| && rob[j].hasCkpt
    ensures Ckpts(rob[..j]) < Ckpts(rob)
  {
    var p, q := rob[..j + 1], rob[j + 1..];
    assert rob == p + q && p == rob[..j] + [rob[j]];
    CkptsAppend(p, q);
    CkptsPushBack(rob[..j], rob[j]);
  }

  // ---------------------------------------------------------------- counting registers

  lemma {:induction false} IotaOnce(n: nat, x: nat)
    ensures Bag(seq(n, i requires 0 <= i => i))[x] <= 1
    ensures x >= n ==> Bag(seq(n, i requires 0 <= i => i))[x] == 0
  {
    if n > 0 {
      var p := seq(n - 1, i requires 0 <= i => i);
      assert seq(n, i requires 0 <= i => i) == p + [n - 1];
      IotaOnce(n - 1, x);
    }
  }

  lemma TwiceCounted(a: seq<nat>, i: nat, j: nat)
    requires i < j < |a| && a[i] == a[j]
    ensures Bag(a)[a[i]] >= 2
  {
    assert a == a[..j] + [a[j]] + a[j + 1..];
    assert a[..j][i] == a[i];
  }

  /** No register occurs twice in a list that fits into the register file. */
  lemma NoRepeat(a: seq<nat>, rest: multiset<nat>, i: nat, j: nat)
    requires Bag(a) + rest == Bag(AllRegs())
    requires i < j < |a|
    ensures a[i] != a[j]
  {
    IotaOnce(NUM_PREGS, a[i]);
    if a[i] == a[j] {
      TwiceCounted(a, i, j);
    }
  }

  lemma BagAppend(a: seq<nat>, b: seq<nat>)
    ensures Bag(a + b) == Bag(a) + Bag(b)
  {
  }

  lemma BagUpdate(a: seq<nat>, i: nat, v: nat)
    requires i < |a|
    ensures Bag(a[i := v]) + multiset{a[i]} == Bag(a) + multiset{v}
  {
    assert a == a[..i] + [a[i]] + a[i + 1..];
    assert a[i := v] == a[..i] + [v] + a[i + 1..];
  }

  /** Swapping one element out of `c` and into `v` keeps the balance. */
  lemma Rebalance(c: multiset<nat>, c': multiset<nat>, v: multiset<nat>, m: multiset<nat>, p: multiset<nat>,
                  a: nat, b: nat)
    requires c' + multiset{a} == c + multiset{b} && c + v == m + p
    ensures c' + (v + multiset{a}) == m + (p + multiset{b})
  {
    calc {
      c' + (v + multiset{a});
      (c' + multiset{a}) + v;
      (c + v) + multiset{b};
    }
  }

  lemma RecordedPrefix(m: RegMap, rob: seq<InFlight>, n: nat)
    requires |m| == ARCH_REGS && Recorded(m, rob) && n <= |rob|
    ensures Recorded(m, rob[..n])
  {
    forall j | 0 <= j < n
      ensures rob[..n][j] == rob[j] && rob[..n][..j] == rob[..j]
    {
    }
  }

  /** Renaming moves registers between the map and the displaced list, and
      nothing is lost on the way. */
  lemma {:induction false} ChainConserves(m: RegMap, rob: seq<InFlight>)
    requires |m| == ARCH_REGS && Recorded(m, rob)
    ensures Bag(Chain(m, rob)) + Bag(Prevs(rob)) == Bag(m) + Bag(Prds(rob))
    decreases |rob|
  {
    if rob != [] {
      var n := |rob| - 1;
      var p, e := rob[..n], rob[n];
      RecordedPrefix(m, rob, n);
      ChainConserves(m, p);
      var c := Chain(m, p);
      if e.rd == 0 {
        assert Prevs(rob) == Prevs(p) && Prds(rob) == Prds(p);
      } else {
        BagUpdate(c, e.rd, e.prd);
        BagAppend(Prevs(p), [e.prev]);
        BagAppend(Prds(p), [e.prd]);
        assert Bag([e.prev]) == multiset{c[e.rd]} && Bag([e.prd]) == multiset{e.prd};
        Rebalance(Bag(c), Bag(c[e.rd := e.prd]), Bag(Prevs(p)), Bag(m), Bag(Prds(p)), c[e.rd], e.prd);
        assert Chain(m, rob) == c[e.rd := e.prd];
        assert Prevs(rob) == Prevs(p) + [e.prev] && Prds(rob) == Prds(p) + [e.prd];
      }
    }
  }

  /** Free, mapped and displaced registers are together exactly all the
      registers, each once. */
  lemma Partition(x: Sys)
    requires Inv(x)
    ensures Bag(x.s.map_) + Bag(FreeList(x.s)) + Bag(Prevs(x.rob)) == Bag(AllRegs())
  {
    ChainConserves(x.arch, x.rob);
    RingIsInFlightThenFree(x);
    BagAppend(Prds(x.rob), FreeList(x.s));
    Exchange(Bag(x.s.map_), Bag(Prevs(x.rob)), Bag(x.arch), Bag(Prds(x.rob)), Bag(FreeList(x.s)));
  }

  lemma RingIsInFlightThenFree(x: Sys)
    requires x.s.Shape() && RingOk(x)
    ensures x.s.count <= DEPTH
    ensures Window(x.s.fl, x.s.tail, DEPTH) == Prds(x.rob) + FreeList(x.s)
  {
    WindowSplit(x.s.fl, x.s.tail, |Prds(x.rob)|, x.s.count);
  }

  lemma Exchange(m: multiset<nat>, v: multiset<nat>, a: multiset<nat>, p: multiset<nat>, f: multiset<nat>)
    requires m + v == a + p
    ensures m + f + v == a + (p + f)
  {
    calc {
      m + f + v;
      (m + v) + f;
      (a + p) + f;
    }
  }

  /** Three lists that make up the register file share no register, and miss none. */
  lemma ThreeWayDisjoint(m: seq<nat>, f: seq<nat>, v: seq<nat>, p: nat)
    requires Bag(m) + Bag(f) + Bag(v) == Bag(AllRegs())
    ensures p in f ==> p !in m && p !in v
    ensures p in v ==> p !in m
    ensures p < NUM_PREGS ==> p in m || p in f || p in v
  {
    IotaOnce(NUM_PREGS, p);
    assert Bag(AllRegs())[p] == Bag(m)[p] + Bag(f)[p] + Bag(v)[p];
    assert p in m <==> Bag(m)[p] > 0;
    assert p in f <==> Bag(f)[p] > 0;
    assert p in v <==> Bag(v)[p] > 0;
    if p < NUM_PREGS {
      assert AllRegs()[p] == p;
      assert Bag(AllRegs())[p] > 0;
    }
  }

  /** The partition read off: the map is injective, x0 keeps p0, and the three
      groups share no register. */
  lemma PartitionMeans(x: Sys)
    requires Inv(x)
    ensures x.s.map_[0] == 0
    ensures forall i, j :: 0 <= i < j < ARCH_REGS ==> x.s.map_[i] != x.s.map_[j]
    ensures forall p: nat :: p in FreeList(x.s) ==> p !in x.s.map_ && p !in Prevs(x.rob)
    ensures forall p: nat :: p in Prevs(x.rob) ==> p !in x.s.map_
    ensures forall p: nat :: p < NUM_PREGS ==> p in x.s.map_ || p in FreeList(x.s) || p in Prevs(x.rob)
  {
    Partition(x);
    ChainKeepsZero(x.arch, x.rob);
    var m, f, v := x.s.map_, FreeList(x.s), Prevs(x.rob);
    forall i, j | 0 <= i < j < ARCH_REGS
      ensures m[i] != m[j]
    {
      BagAssoc(Bag(m), Bag(f), Bag(v));
      NoRepeat(m, Bag(f) + Bag(v), i, j);
    }
    forall p: nat
      ensures p in f ==> p !in m && p !in v
      ensures p in v ==> p !in m
      ensures p < NUM_PREGS ==> p in m || p in f || p in v
    {
      ThreeWayDisjoint(m, f, v, p);
    }
  }

  lemma BagAssoc(a: multiset<nat>, b: multiset<nat>, c: multiset<nat>)
    ensures a + b + c == a + (b + c)
  {
  }

  lemma {:induction false} ChainKeepsZero(m: RegMap, rob: seq<InFlight>)
    requires |m| > 0
    ensures Chain(m, rob)[0] == m[0]
    decreases |rob|
  {
    if rob != [] {
      ChainKeepsZero(m, rob[..|rob| - 1]);
    }
  }

  // ---------------------------------------------------------------- steps

  function EntryOf(i: Slot, o: SlotOut): InFlight {
    InFlight(i.rs1, i.rs2, i.rd, o.prs1, o.prs2, o.prd, o.prevPrd, i.WantsCkpt(), o.ckptId)
  }

  function AfterSlot(x: Sys, i: Slot): (r: Sys)
    requires x.s.Shape() && i.Ok()
    ensures r.s == RenameSlot(x.s, i)
  {
    if i.valid then Sys(RenameSlot(x.s, i), x.rob + [EntryOf(i, SlotView(x.s, i))], x.arch) else x
  }

  /** What the reorder buffer hands over when it retires its oldest entry. */
  predicate RetireOk(rob: seq<InFlight>, c: Commit) {
    c.valid ==> rob != [] && c.prevPrd == (if rob[0].rd != 0 then rob[0].prev else 0) && c.release == rob[0].hasCkpt
  }

  function AfterRetire(x: Sys, c: Commit): (r: Sys)
    requires x.s.Shape() && RetireOk(x.rob, c)
    ensures r.s == Retire(x.s, c)
  {
    if c.valid then Sys(Retire(x.s, c), x.rob[1..], Apply(x.arch, x.rob[0])) else x
  }

  lemma PrefixOfPush(rob: seq<InFlight>, e: InFlight, j: nat)
    requires j <= |rob|
    ensures (rob + [e])[..j] == rob[..j]
  {
  }

  /** One rename, field by field, beside the list it extends. */
  lemma SlotFields(x: Sys, i: Slot)
    requires Shaped(x) && i.Ok() && i.valid && x.s.map_ == Chain(x.arch, x.rob) && x.s.ckptCount == Ckpts(x.rob)
    ensures var y, k := AfterSlot(x, i), if i.WantsReg() then 1 else 0;
            && y.s.fl == x.s.fl && y.s.tail == x.s.tail && y.arch == x.arch
            && y.s.count == x.s.count - k && y.s.head == ModDepth(x.s.head + k)
            && Prds(y.rob) == Prds(x.rob) + (if i.WantsReg() then [x.s.fl[x.s.head]] else [])
            && y.s.map_ == Chain(y.arch, y.rob)
            && y.s.ckptCount == Ckpts(y.rob)
            && y.s.ckptCount == x.s.ckptCount + (if i.WantsCkpt() then 1 else 0)
            && y.s.ckptHead == ModCkpt(x.s.ckptHead + (if i.WantsCkpt() then 1 else 0))
  {
    PushBack(x.arch, x.rob, EntryOf(i, SlotView(x.s, i)));
  }

  /** Taking the register at the head extends the in-flight part of the ring. */
  lemma RingTake(fl: seq<nat>, tail: nat, n: nat, head: nat)
    requires |fl| == DEPTH && tail < DEPTH && n < DEPTH && head == Wrap(tail + n, DEPTH)
    ensures ModDepth(head + 1) == Wrap(tail + n + 1, DEPTH)
    ensures Window(fl, tail, n + 1) == Window(fl, tail, n) + [fl[head]]
  {
    WindowSplit(fl, tail, n, 1);
    assert Window(fl, head, 1) == [fl[head]];
  }

  /** Renaming one instruction keeps the ring split into in-flight and free. */
  lemma SlotKeepsRing(x: Sys, i: Slot)
    requires Shaped(x) && RingOk(x) && i.Ok() && i.valid
    requires x.s.map_ == Chain(x.arch, x.rob) && x.s.ckptCount == Ckpts(x.rob)
    requires i.WantsReg() ==> x.s.count >= 1
    ensures RingOk(AfterSlot(x, i))
  {
    SlotFields(x, i);
    if i.WantsReg() {
      RingTake(x.s.fl, x.s.tail, |Prds(x.rob)|, x.s.head);
    }
  }

  lemma SlotKeepsRecorded(x: Sys, i: Slot)
    requires Shaped(x) && MapOk(x) && i.Ok() && i.valid
    ensures Recorded(x.arch, AfterSlot(x, i).rob)
  {
    var e := EntryOf(i, SlotView(x.s, i));
    var rob' := x.rob + [e];
    forall j | 0 <= j < |rob'|
      ensures rob'[..j] == x.rob[..j]
      ensures j < |x.rob| ==> rob'[j] == x.rob[j]
    {
      PrefixOfPush(x.rob, e, j);
    }
    assert x.rob[..|x.rob|] == x.rob;
  }

  /** An older checkpoint is out of reach of the slot the new one takes. */
  lemma SlotKeepsCheckpoint(x: Sys, i: Slot, j: nat)
    requires Shaped(x) && i.Ok() && i.valid && 0 <= x.s.ckptCount
    requires x.s.ckptCount + (if i.WantsCkpt() then 1 else 0) <= N_CKPT
    requires j < |x.rob| && CkptOk(x.s, x.arch, x.rob, j)
    ensures var y := AfterSlot(x, i);
            y.rob[j] == x.rob[j] && CkptOk(y.s, x.arch, y.rob, j)
  {
    var e := EntryOf(i, SlotView(x.s, i));
    PrefixOfPush(x.rob, e, j);
    PrefixOfPush(x.rob, e, j + 1);
    assert Oldest(AfterSlot(x, i).s) == Oldest(x.s);
    assert i.WantsCkpt() ==> x.rob[j].ckptId != x.s.ckptHead;
  }

  /** A new checkpoint records the map and the head as they are after the rename,
      under the next id. */
  lemma SlotRecords(s: State, i: Slot)
    requires s.Shape() && i.Ok() && i.WantsCkpt() && 0 <= s.ckptCount < N_CKPT
    ensures var r := RenameSlot(s, i);
            && r.ckptMap[s.ckptHead] == r.map_ && r.ckptFlHead[s.ckptHead] == r.head && r.ckptCount == s.ckptCount + 1
            && s.ckptHead == ModCkpt(Oldest(r) + s.ckptCount)
  {
  }

  lemma LastCkptOk(s: State, arch: RegMap, rob: seq<InFlight>, e: InFlight)
    requires s.Shape() && 0 <= s.ckptCount <= N_CKPT && Ckpts(rob) < s.ckptCount
    requires e.ckptId < N_CKPT && e.ckptId == ModCkpt(Oldest(s) + Ckpts(rob))
    requires s.ckptMap[e.ckptId] == Chain(arch, rob + [e]) && |Prds(rob + [e])| <= DEPTH
    requires s.ckptFlHead[e.ckptId] == Wrap(s.tail + |Prds(rob + [e])|, DEPTH)
    ensures CkptOk(s, arch, rob + [e], |rob|)
  {
    assert (rob + [e])[..|rob| + 1] == rob + [e] && (rob + [e])[..|rob|] == rob;
  }

  lemma SlotMakesCheckpoint(x: Sys, i: Slot)
    requires Shaped(x) && RingOk(x) && i.Ok() && i.valid && i.WantsCkpt()
    requires x.s.map_ == Chain(x.arch, x.rob) && x.s.ckptCount == Ckpts(x.rob)
    requires i.WantsReg() ==> x.s.count >= 1
    requires 0 <= x.s.ckptCount < N_CKPT
    ensures 0 <= AfterSlot(x, i).s.ckptCount <= N_CKPT
    ensures CkptOk(AfterSlot(x, i).s, x.arch, AfterSlot(x, i).rob, |x.rob|)
  {
    SlotFields(x, i);
    SlotKeepsRing(x, i);
    SlotRecords(x.s, i);
    LastCkptOk(AfterSlot(x, i).s, x.arch, x.rob, EntryOf(i, SlotView(x.s, i)));
  }

  lemma SlotKeepsCheckpoints(x: Sys, i: Slot)
    requires Shaped(x) && RingOk(x) && CkptsOk(x) && i.Ok() && i.valid
    requires x.s.map_ == Chain(x.arch, x.rob)
    requires i.WantsReg() ==> x.s.count >= 1
    requires i.WantsCkpt() ==> x.s.ckptCount < N_CKPT
    ensures CkptsOk(AfterSlot(x, i))
  {
    var y := AfterSlot(x, i);
    SlotFields(x, i);
    forall j | 0 <= j < |y.rob| && y.rob[j].hasCkpt
      ensures CkptOk(y.s, y.arch, y.rob, j)
    {
      if j < |x.rob| {
        assert y.rob[j] == x.rob[j];
        SlotKeepsCheckpoint(x, i, j);
      } else {
        SlotMakesCheckpoint(x, i);
      }
    }
  }

  lemma SlotKeeps(x: Sys, i: Slot)
    requires Inv(x) && i.Ok()
    requires i.WantsReg() ==> x.s.count >= 1
    requires i.WantsCkpt() ==> x.s.ckptCount < N_CKPT
    ensures Inv(AfterSlot(x, i))
  {
    if i.valid {
      SlotFields(x, i);
      SlotKeepsRing(x, i);
      SlotKeepsRecorded(x, i);
      SlotKeepsCheckpoints(x, i);
    }
  }

  // ---------------------------------------------------------------- retirement

  lemma PrefixOfTail(rob: seq<InFlight>, j: nat)
    requires 0 < |rob| && j < |rob|
    ensures rob[1..][..j] == rob[..j + 1][1..] && rob[..j + 1][0] == rob[0]
  {
  }

  /** What a prefix of the remaining list means over the map after retiring. */
  lemma RetiredPrefix(arch: RegMap, rob: seq<InFlight>, j: nat)
    requires 0 < |rob| && j < |rob|
    ensures Chain(Apply(arch, rob[0]), rob[1..][..j]) == Chain(arch, rob[..j + 1])
    ensures |Prds(rob[..j + 1])| == (if rob[0].rd != 0 then 1 else 0) + |Prds(rob[1..][..j])|
    ensures Ckpts(rob[..j + 1]) == (if rob[0].hasCkpt then 1 else 0) + Ckpts(rob[1..][..j])
  {
    PrefixOfTail(rob, j);
    PopFront(arch, rob[..j + 1]);
  }

  lemma RetireKeepsRecorded(arch: RegMap, rob: seq<InFlight>)
    requires |arch| == ARCH_REGS && rob != [] && Recorded(arch, rob)
    ensures Recorded(Apply(arch, rob[0]), rob[1..])
  {
    forall j | 0 <= j < |rob| - 1
      ensures Chain(Apply(arch, rob[0]), rob[1..][..j]) == Chain(arch, rob[..j + 1])
      ensures rob[1..][j] == rob[j + 1]
    {
      RetiredPrefix(arch, rob, j);
    }
  }

  /** The register an instruction displaced is never p0. */
  lemma DisplacedIsNotZero(x: Sys)
    requires Inv(x) && x.rob != [] && x.rob[0].rd != 0
    ensures x.rob[0].prev == x.arch[x.rob[0].rd] && x.rob[0].prev != 0
    ensures x.s.fl[x.s.tail] == x.rob[0].prd
  {
    assert x.rob[..0] == [];
    NoRepeat(x.arch, Bag(Window(x.s.fl, x.s.tail, DEPTH)), 0, x.rob[0].rd);
    PopFront(x.arch, x.rob);
    assert Window(x.s.fl, x.s.tail, |Prds(x.rob)|)[0] == x.s.fl[x.s.tail];
  }

  lemma RingGiveRest(fl: seq<nat>, tail: nat, n: nat, v: nat)
    requires |fl| == DEPTH && tail < DEPTH && 1 <= n <= DEPTH
    ensures Window(fl[tail := v], ModDepth(tail + 1), n - 1) == Window(fl, tail, n)[1..]
    ensures Wrap(tail + n, DEPTH) == Wrap(ModDepth(tail + 1) + (n - 1), DEPTH)
  {
    var tail' := ModDepth(tail + 1);
    WindowPop(fl, tail, n);
    assert tail == Wrap(tail' + (DEPTH - 1), DEPTH);
    WindowUpdate(fl, tail', n - 1, DEPTH - 1, v);
  }

  lemma RingGiveBag(fl: seq<nat>, tail: nat, v: nat)
    requires |fl| == DEPTH && tail < DEPTH
    ensures Bag(Window(fl[tail := v], ModDepth(tail + 1), DEPTH)) + multiset{fl[tail]}
         == Bag(Window(fl, tail, DEPTH)) + multiset{v}
  {
    var fl', tail' := fl[tail := v], ModDepth(tail + 1);
    var w := Window(fl, tail', DEPTH - 1);
    RingGiveRest(fl, tail, DEPTH, v);
    WindowPop(fl, tail, DEPTH);
    WindowSplit(fl', tail', DEPTH - 1, 1);
    assert Wrap(tail' + (DEPTH - 1), DEPTH) == tail;
    assert Window(fl', tail, 1) == [v];
    BagAppend(w, [v]);
    BagAppend([fl[tail]], w);
  }

  /** Handing the displaced register to the slot behind the tail: the in-flight
      part loses its oldest register and the ring exchanges it. */
  lemma RingGive(fl: seq<nat>, tail: nat, n: nat, v: nat)
    requires |fl| == DEPTH && tail < DEPTH && 1 <= n <= DEPTH
    ensures var fl', tail' := fl[tail := v], ModDepth(tail + 1);
            && Window(fl', tail', n - 1) == Window(fl, tail, n)[1..]
            && Wrap(tail + n, DEPTH) == Wrap(tail' + (n - 1), DEPTH)
            && Bag(Window(fl', tail', DEPTH)) + multiset{fl[tail]} == Bag(Window(fl, tail, DEPTH)) + multiset{v}
  {
    RingGiveRest(fl, tail, n, v);
    RingGiveBag(fl, tail, v);
  }

  /** What retiring does to the registers, when the oldest instruction has a
      destination. */
  lemma RetireSwaps(x: Sys, c: Commit)
    requires x.s.Shape() && x.rob != [] && c.valid && RetireOk(x.rob, c) && x.rob[0].rd != 0 && x.rob[0].prev != 0
    ensures var e, y := x.rob[0], AfterRetire(x, c);
            && y.s.fl == x.s.fl[x.s.tail := e.prev] && y.s.tail == ModDepth(x.s.tail + 1) && y.s.count == x.s.count + 1
            && y.s.head == x.s.head && y.arch == Apply(x.arch, e)
            && |Prds(x.rob)| > 0 && Prds(y.rob) == Prds(x.rob)[1..] && Prds(x.rob)[0] == e.prd
  {
    PopFront(x.arch, x.rob);
  }

  lemma RetireRing(x: Sys, c: Commit)
    requires Shaped(x) && RingOk(x) && x.rob != [] && c.valid && RetireOk(x.rob, c)
    requires x.rob[0].rd != 0 && x.rob[0].prev != 0
    ensures RingOk(AfterRetire(x, c))
  {
    RetireSwaps(x, c);
    RingGive(x.s.fl, x.s.tail, |Prds(x.rob)|, x.rob[0].prev);
  }

  lemma RetireConserves(x: Sys, c: Commit)
    requires Shaped(x) && Conserved(x) && x.rob != [] && c.valid && RetireOk(x.rob, c)
    requires 0 < x.rob[0].rd < ARCH_REGS && x.rob[0].prev != 0
    requires x.rob[0].prev == x.arch[x.rob[0].rd] && x.s.fl[x.s.tail] == x.rob[0].prd
    ensures Conserved(AfterRetire(x, c))
  {
    var e, y := x.rob[0], AfterRetire(x, c);
    RingGive(x.s.fl, x.s.tail, 1, e.prev);
    BagUpdate(x.arch, e.rd, e.prd);
    BothExchange(Bag(x.arch), Bag(y.arch), Bag(Window(x.s.fl, x.s.tail, DEPTH)),
                 Bag(Window(y.s.fl, y.s.tail, DEPTH)), e.prev, e.prd);
  }

  lemma RetireWithoutDest(x: Sys, c: Commit)
    requires Shaped(x) && RingOk(x) && Conserved(x) && x.rob != [] && c.valid && RetireOk(x.rob, c) && x.rob[0].rd == 0
    ensures Shaped(AfterRetire(x, c)) && RingOk(AfterRetire(x, c)) && Conserved(AfterRetire(x, c))
  {
    PopFront(x.arch, x.rob);
  }

  lemma OldestHasDest(x: Sys)
    requires Shaped(x) && MapOk(x) && x.rob != []
    ensures x.rob[0].rd < ARCH_REGS
  {
  }

  lemma RetireKeepsRing(x: Sys, c: Commit)
    requires Inv(x) && c.valid && RetireOk(x.rob, c)
    ensures Shaped(AfterRetire(x, c)) && RingOk(AfterRetire(x, c)) && Conserved(AfterRetire(x, c))
  {
    if x.rob[0].rd == 0 {
      RetireWithoutDest(x, c);
    } else {
      OldestHasDest(x);
      DisplacedIsNotZero(x);
      RetireRing(x, c);
      RetireConserves(x, c);
    }
  }

  /** One element changes sides. */
  lemma BothExchange(a: multiset<nat>, a': multiset<nat>, w: multiset<nat>, w': multiset<nat>, p: nat, q: nat)
    requires a' + multiset{p} == a + multiset{q}
    requires w' + multiset{q} == w + multiset{p}
    ensures a' + w' == a + w
  {
    forall r: nat
      ensures (a' + w')[r] == (a + w)[r]
    {
      assert (a' + multiset{p})[r] == (a + multiset{q})[r];
      assert (w' + multiset{q})[r] == (w + multiset{p})[r];
    }
  }

  lemma RetireOldest(s: State, c: Commit)
    requires s.Shape() && 0 <= s.ckptCount <= N_CKPT && c.valid && (c.release ==> s.ckptCount > 0)
    ensures 0 <= Retire(s, c).ckptCount <= N_CKPT
    ensures Oldest(Retire(s, c)) == if c.release then ModCkpt(Oldest(s) + 1) else Oldest(s)
  {
  }

  /** The ranks that remain count from the next id on. */
  lemma NextRank(o: nat, r: nat, first: bool)
    requires o < N_CKPT && r < N_CKPT && (first ==> r > 0)
    ensures ModCkpt(o + r) == if first then ModCkpt(ModCkpt(o + 1) + (r - 1)) else ModCkpt(o + r)
  {
  }

  lemma NextPlace(tail: nat, n: nat, first: bool)
    requires tail < DEPTH && n <= DEPTH && (first ==> n > 0)
    ensures Wrap(tail + n, DEPTH) == if first then Wrap(ModDepth(tail + 1) + (n - 1), DEPTH) else Wrap(tail + n, DEPTH)
  {
  }

  /** What a checkpoint two places on says about the place after the retired one. */
  lemma RetireKeepsRank(s: State, arch: RegMap, rob: seq<InFlight>, c: Commit, j: nat)
    requires s.Shape() && |arch| == ARCH_REGS && 0 <= s.ckptCount <= N_CKPT
    requires c.valid && RetireOk(rob, c) && (c.release ==> s.ckptCount > 0)
    requires j + 1 < |rob| && CkptOk(s, arch, rob, j + 1)
    ensures 0 <= Retire(s, c).ckptCount <= N_CKPT
    ensures Ckpts(rob[1..][..j]) < Retire(s, c).ckptCount
    ensures rob[j + 1].ckptId == ModCkpt(Oldest(Retire(s, c)) + Ckpts(rob[1..][..j]))
  {
    RetiredPrefix(arch, rob, j);
    RetireOldest(s, c);
    NextRank(Oldest(s), Ckpts(rob[..j + 1]), c.release);
  }

  lemma RetireKeepsPlace(s: State, arch: RegMap, rob: seq<InFlight>, c: Commit, j: nat)
    requires s.Shape() && |arch| == ARCH_REGS && 0 <= s.ckptCount <= N_CKPT
    requires c.valid && RetireOk(rob, c) && (rob[0].rd != 0 ==> c.prevPrd != 0)
    requires j + 1 < |rob| && CkptOk(s, arch, rob, j + 1)
    ensures var id, y := rob[j + 1].ckptId, Retire(s, c);
            && id < N_CKPT && y.ckptMap[id] == Chain(Apply(arch, rob[0]), rob[1..][..j + 1])
            && |Prds(rob[1..][..j + 1])| <= DEPTH
            && y.ckptFlHead[id] == Wrap(y.tail + |Prds(rob[1..][..j + 1])|, DEPTH)
  {
    RetiredPrefix(arch, rob, j + 1);
    NextPlace(s.tail, |Prds(rob[..j + 2])|, rob[0].rd != 0);
  }

  lemma RetireKeepsCheckpoint(x: Sys, c: Commit, j: nat)
    requires Shaped(x) && c.valid && RetireOk(x.rob, c) && 0 <= x.s.ckptCount <= N_CKPT
    requires j + 1 < |x.rob| && CkptOk(x.s, x.arch, x.rob, j + 1)
    requires x.rob[0].rd != 0 ==> c.prevPrd != 0
    requires c.release ==> x.s.ckptCount > 0
    ensures 0 <= AfterRetire(x, c).s.ckptCount <= N_CKPT
    ensures CkptOk(AfterRetire(x, c).s, Apply(x.arch, x.rob[0]), x.rob[1..], j)
  {
    assert x.rob[1..][j] == x.rob[j + 1];
    RetireKeepsRank(x.s, x.arch, x.rob, c, j);
    RetireKeepsPlace(x.s, x.arch, x.rob, c, j);
  }

  lemma RetireKeepsCheckpoints(x: Sys, c: Commit)
    requires Shaped(x) && CkptsOk(x) && c.valid && RetireOk(x.rob, c)
    requires x.rob[0].rd != 0 ==> c.prevPrd != 0
    ensures CkptsOk(AfterRetire(x, c))
  {
    var y := AfterRetire(x, c);
    PopFront(x.arch, x.rob);
    forall j | 0 <= j < |y.rob| && y.rob[j].hasCkpt
      ensures CkptOk(y.s, y.arch, y.rob, j)
    {
      assert x.rob[j + 1].hasCkpt;
      RetireKeepsCheckpoint(x, c, j);
    }
  }

  lemma RetireKeepsMap(x: Sys, c: Commit)
    requires Shaped(x) && MapOk(x) && c.valid && RetireOk(x.rob, c) && Shaped(AfterRetire(x, c))
    ensures MapOk(AfterRetire(x, c))
  {
    PopFront(x.arch, x.rob);
    RetireKeepsRecorded(x.arch, x.rob);
  }

  lemma RetireKeeps(x: Sys, c: Commit)
    requires Inv(x) && RetireOk(x.rob, c)
    ensures Inv(AfterRetire(x, c))
  {
    if c.valid {
      if x.rob[0].rd != 0 { DisplacedIsNotZero(x); }
      RetireKeepsRing(x, c);
      RetireKeepsMap(x, c);
      RetireKeepsCheckpoints(x, c);
    }
  }

  // ---------------------------------------------------------------- restore

  /** The position of the live checkpoint `id`, or the length of the list. */
  function FindCkpt(rob: seq<InFlight>, id: nat): (j: nat)
    ensures j <= |rob|
    ensures j < |rob| ==> rob[j].hasCkpt && rob[j].ckptId == id
  {
    if rob == [] then 0
    else if rob[0].hasCkpt && rob[0].ckptId == id then 0
    else 1 + FindCkpt(rob[1..], id)
  }

  /** The instructions that survive a misprediction of the branch at `j`, which
      keeps its place but gives up its checkpoint. */
  function Survivors(rob: seq<InFlight>, j: nat): (r: seq<InFlight>)
    requires j < |rob|
    ensures |r| == j + 1
  {
    rob[..j] + [rob[j].(hasCkpt := false)]
  }

  function AfterRestore(x: Sys, id: nat): (r: Sys)
    requires x.s.Shape() && id < N_CKPT && FindCkpt(x.rob, id) < |x.rob|
    ensures r.s == Restore(x.s, id)
  {
    Sys(Restore(x.s, id), Survivors(x.rob, FindCkpt(x.rob, id)), x.arch)
  }

  /** The two ring differences of a restore stay below their ring sizes: fewer
      than DEPTH registers were handed out behind the checkpoint, and the
      checkpoint is not the oldest of N_CKPT. */
  predicate RestoreInRange(x: Sys, id: nat)
    requires FindCkpt(x.rob, id) < |x.rob|
  {
    var j := FindCkpt(x.rob, id);
    |Prds(x.rob[j + 1..])| < DEPTH && Ckpts(x.rob[j..]) < N_CKPT
  }

  lemma SurvivorLists(m: RegMap, rob: seq<InFlight>, j: nat)
    requires j < |rob| && rob[j].hasCkpt
    ensures Chain(m, Survivors(rob, j)) == Chain(m, rob[..j + 1])
    ensures Prds(Survivors(rob, j)) == Prds(rob[..j + 1])
    ensures Ckpts(Survivors(rob, j)) == Ckpts(rob[..j])
    ensures |Prds(rob)| == |Prds(Survivors(rob, j))| + |Prds(rob[j + 1..])|
    ensures Ckpts(rob) == Ckpts(Survivors(rob, j)) + Ckpts(rob[j..])
  {
    assert rob[..j + 1] == rob[..j] + [rob[j]];
    PushBack(m, rob[..j], rob[j]);
    PushBack(m, rob[..j], rob[j].(hasCkpt := false));
    PrefixBounds(rob, j + 1);
    PrefixBounds(rob, j);
  }

  lemma SurvivorPrefix(rob: seq<InFlight>, j: nat, k: nat)
    requires j < |rob| && k <= j
    ensures Survivors(rob, j)[..k] == rob[..k]
  {
  }

  /** The distance between two positions of a ring, as the restore takes it:
      right unless the whole ring lies between them. */
  lemma RingDistance(tail: nat, n: nat, m: nat)
    requires tail < DEPTH && m <= n <= DEPTH
    ensures ModDepth(Wrap(tail + n, DEPTH) - Wrap(tail + m, DEPTH)) == if n - m < DEPTH then n - m else 0
  {
  }

  lemma CkptDistance(head: nat, count: nat, r: nat)
    requires head < N_CKPT && r < count <= N_CKPT
    ensures var id := ModCkpt(ModCkpt(head - count) + r);
            && ModCkpt(head - id) == (if count - r < N_CKPT then count - r else 0)
            && ModCkpt(id - r) == ModCkpt(head - count)
  {
  }

  /** The map and free list a restore computes, and what its register count
      misses when the ring difference comes out as zero. */
  lemma RestoreRegs(x: Sys, id: nat)
    requires Shaped(x) && RingOk(x) && 0 <= x.s.ckptCount <= N_CKPT
    requires id < N_CKPT && FindCkpt(x.rob, id) < |x.rob|
    requires CkptOk(x.s, x.arch, x.rob, FindCkpt(x.rob, id))
    ensures var j, y := FindCkpt(x.rob, id), AfterRestore(x, id);
            && y.s.map_ == Chain(y.arch, y.rob)
            && |Prds(y.rob)| <= DEPTH && y.s.head == Wrap(y.s.tail + |Prds(y.rob)|, DEPTH)
            && y.s.count + |Prds(y.rob)| == (if |Prds(x.rob[j + 1..])| < DEPTH then DEPTH else 0)
  {
    var j := FindCkpt(x.rob, id);
    SurvivorLists(x.arch, x.rob, j);
    RestoreCount(x.s, id, |Prds(x.rob)|, |Prds(x.rob[..j + 1])|);
  }

  lemma RestoreCount(s: State, id: nat, n: nat, m: nat)
    requires s.Shape() && id < N_CKPT && m <= n && n + s.count == DEPTH && s.count >= 0
    requires s.head == Wrap(s.tail + n, DEPTH) && s.ckptFlHead[id] == Wrap(s.tail + m, DEPTH)
    ensures Restore(s, id).count + m == if n - m < DEPTH then DEPTH else 0
  {
    RingDistance(s.tail, n, m);
  }

  /** The same for the checkpoint ids. */
  lemma RestoreCkpts(x: Sys, id: nat)
    requires Shaped(x) && x.s.ckptCount <= N_CKPT && x.s.ckptCount == Ckpts(x.rob)
    requires id < N_CKPT && FindCkpt(x.rob, id) < |x.rob|
    requires CkptOk(x.s, x.arch, x.rob, FindCkpt(x.rob, id))
    ensures var j, y := FindCkpt(x.rob, id), AfterRestore(x, id);
            && y.s.ckptCount == Ckpts(y.rob) + (if Ckpts(x.rob[j..]) < N_CKPT then 0 else N_CKPT)
            && (Ckpts(x.rob[j..]) < N_CKPT ==> y.s.ckptCount <= N_CKPT && Oldest(y.s) == Oldest(x.s))
  {
    var j := FindCkpt(x.rob, id);
    SurvivorLists(x.arch, x.rob, j);
    CkptDistance(x.s.ckptHead, x.s.ckptCount, Ckpts(x.rob[..j]));
  }

  lemma RestoreKeepsRing(x: Sys, id: nat)
    requires Inv(x) && id < N_CKPT && FindCkpt(x.rob, id) < |x.rob| && RestoreInRange(x, id)
    ensures RingOk(AfterRestore(x, id))
  {
    var j, y := FindCkpt(x.rob, id), AfterRestore(x, id);
    assert CkptOk(x.s, x.arch, x.rob, j);
    RestoreRegs(x, id);
    SurvivorLists(x.arch, x.rob, j);
    PrefixBounds(x.rob, j + 1);
    WindowPrefix(x.s.fl, x.s.tail, |Prds(x.rob)|, |Prds(y.rob)|);
  }

  lemma WindowPrefix(fl: seq<nat>, tail: nat, n: nat, m: nat)
    requires tail < |fl| && m <= n <= |fl|
    ensures Window(fl, tail, m) == Window(fl, tail, n)[..m]
  {
  }

  lemma RestoreKeepsRecorded(arch: RegMap, rob: seq<InFlight>, j: nat)
    requires |arch| == ARCH_REGS && Recorded(arch, rob) && j < |rob|
    ensures Recorded(arch, Survivors(rob, j))
  {
    forall k | 0 <= k <= j
      ensures Survivors(rob, j)[..k] == rob[..k]
    {
      SurvivorPrefix(rob, j, k);
    }
  }

  /** An older checkpoint is untouched by a restore to a younger one. */
  lemma RestoreKeepsCheckpoint(x: Sys, id: nat, k: nat)
    requires Shaped(x) && 0 <= x.s.ckptCount <= N_CKPT
    requires id < N_CKPT && k < FindCkpt(x.rob, id) < |x.rob| && x.rob[k].hasCkpt
    requires CkptOk(x.s, x.arch, x.rob, k)
    requires var y := AfterRestore(x, id);
             0 <= y.s.ckptCount <= N_CKPT && Oldest(y.s) == Oldest(x.s) && y.s.ckptCount == Ckpts(y.rob)
    ensures var y := AfterRestore(x, id);
            y.rob[k] == x.rob[k] && CkptOk(y.s, y.arch, y.rob, k)
  {
    var j, y := FindCkpt(x.rob, id), AfterRestore(x, id);
    SurvivorPrefix(x.rob, j, k);
    SurvivorPrefix(x.rob, j, k + 1);
    RankStrict(y.rob, k);
  }

  lemma RestoreKeepsCheckpoints(x: Sys, id: nat)
    requires Inv(x) && id < N_CKPT && FindCkpt(x.rob, id) < |x.rob| && RestoreInRange(x, id)
    ensures CkptsOk(AfterRestore(x, id))
  {
    var j, y := FindCkpt(x.rob, id), AfterRestore(x, id);
    assert CkptOk(x.s, x.arch, x.rob, j);
    RestoreCkpts(x, id);
    forall k | 0 <= k < |y.rob| && y.rob[k].hasCkpt
      ensures CkptOk(y.s, y.arch, y.rob, k)
    {
      assert k < j && x.rob[k].hasCkpt;
      RestoreKeepsCheckpoint(x, id, k);
    }
  }

  lemma RestoreInRangeKeeps(x: Sys, id: nat)
    requires Inv(x) && id < N_CKPT && FindCkpt(x.rob, id) < |x.rob| && RestoreInRange(x, id)
    ensures Inv(AfterRestore(x, id))
  {
    assert CkptOk(x.s, x.arch, x.rob, FindCkpt(x.rob, id));
    RestoreRegs(x, id);
    RestoreKeepsRing(x, id);
    RestoreKeepsRecorded(x.arch, x.rob, FindCkpt(x.rob, id));
    RestoreKeepsCheckpoints(x, id);
  }

  lemma RestoreRegsOut(x: Sys, id: nat)
    requires Inv(x) && id < N_CKPT && FindCkpt(x.rob, id) < |x.rob|
    ensures var j, y := FindCkpt(x.rob, id), AfterRestore(x, id);
            |Prds(x.rob[j + 1..])| >= DEPTH ==> |Prds(y.rob)| + y.s.count == 0
  {
    assert CkptOk(x.s, x.arch, x.rob, FindCkpt(x.rob, id));
    RestoreRegs(x, id);
  }

  lemma RestoreCkptsOut(x: Sys, id: nat)
    requires Inv(x) && id < N_CKPT && FindCkpt(x.rob, id) < |x.rob|
    ensures var j, y := FindCkpt(x.rob, id), AfterRestore(x, id);
            Ckpts(x.rob[j..]) >= N_CKPT ==> y.s.ckptCount == Ckpts(y.rob) + N_CKPT
  {
    assert CkptOk(x.s, x.arch, x.rob, FindCkpt(x.rob, id));
    RestoreCkpts(x, id);
  }

  /** Out of range, the registers or the checkpoint ids no longer add up. */
  lemma RestoreOutOfRange(x: Sys, id: nat)
    requires Inv(x) && id < N_CKPT && FindCkpt(x.rob, id) < |x.rob| && !RestoreInRange(x, id)
    ensures !Balanced(AfterRestore(x, id))
  {
    RestoreRegsOut(x, id);
    RestoreCkptsOut(x, id);
  }

  /** The two counters agree with the list. */
  predicate Balanced(x: Sys) {
    |Prds(x.rob)| + x.s.count == DEPTH && x.s.ckptCount == Ckpts(x.rob)
  }

  /** Restoring a live checkpoint is right exactly when both ring differences
      are in range. */
  lemma RestoreExact(x: Sys, id: nat)
    requires Inv(x) && id < N_CKPT && FindCkpt(x.rob, id) < |x.rob|
    ensures Inv(AfterRestore(x, id)) <==> RestoreInRange(x, id)
  {
    if RestoreInRange(x, id) {
      RestoreInRangeKeeps(x, id);
    } else {
      RestoreOutOfRange(x, id);
    }
  }
}
