/** Whole runs of the rename unit: what every step keeps, which register a
    source operand gets, and what a restore undoes. */
module RenameRuns {
  import opened Ring
  import opened Rename
  import opened RenameProof

  /** The list the retiring instructions are taken from. */
  function Before(x: Sys, i: Inputs): seq<InFlight>
    requires x.s.Shape() && i.Ok()
  {
    if i.restoreValid && FindCkpt(x.rob, i.restoreId) < |x.rob|
    then Survivors(x.rob, FindCkpt(x.rob, i.restoreId))
    else x.rob
  }

  /** The contract of the surrounding core: a restore names a live checkpoint,
      and instructions retire from the front of the list, none of them renamed
      in the same cycle. */
  predicate Legal(x: Sys, i: Inputs)
    requires x.s.Shape()
  {
    && i.Ok()
    && (i.restoreValid ==> FindCkpt(x.rob, i.restoreId) < |x.rob|)
    && RetireOk(Before(x, i), i.commit0)
    && RetireOk(Left(Before(x, i), i.commit0), i.commit1)
  }

  function Left(rob: seq<InFlight>, c: Commit): seq<InFlight>
    requires RetireOk(rob, c)
  {
    if c.valid then rob[1..] else rob
  }

  function Front(x: Sys, i: Inputs): (r: Sys)
    requires x.s.Shape() && Legal(x, i)
    ensures r.s == Rename.Front(x.s, i)
    ensures r.arch == x.arch
    ensures Before(x, i) <= r.rob
  {
    if i.restoreValid then AfterRestore(x, i.restoreId)
    else if Ready(x.s, i) then AfterSlot(AfterSlot(x, i.slot0), i.slot1)
    else x
  }

  lemma FrontRetires(x: Sys, i: Inputs)
    requires x.s.Shape() && Legal(x, i)
    ensures RetireOk(Front(x, i).rob, i.commit0)
    ensures RetireOk(AfterRetire(Front(x, i), i.commit0).rob, i.commit1)
  {
    var a, b := Before(x, i), Front(x, i).rob;
    if i.commit0.valid {
      assert a[1..] <= b[1..];
    }
  }

  /** One cycle of the renamer beside the list of in-flight instructions. */
  function SysNext(x: Sys, i: Inputs): (r: Sys)
    requires x.s.Shape() && Legal(x, i)
    ensures r.s == Next(x.s, i)
  {
    FrontRetires(x, i);
    AfterRetire(AfterRetire(Front(x, i), i.commit0), i.commit1)
  }

  /** The entry made for a slot records the outputs of the cycle. */
  lemma EntriesAreOutputs(x: Sys, i: Inputs)
    requires x.s.Shape() && Legal(x, i) && !i.restoreValid && Ready(x.s, i)
    ensures Front(x, i).rob == x.rob
      + (if i.slot0.valid then [EntryOf(i.slot0, SlotView(x.s, i.slot0))] else [])
      + (if i.slot1.valid then [EntryOf(i.slot1, SlotView(RenameSlot(x.s, i.slot0), i.slot1))] else [])
  {
  }

  predicate SafeRestore(x: Sys, i: Inputs)
    requires x.s.Shape() && Legal(x, i)
  {
    i.restoreValid ==> RestoreInRange(x, i.restoreId)
  }

  lemma BothSlotsKeep(x: Sys, i: Inputs)
    requires Inv(x) && Legal(x, i) && !i.restoreValid && Ready(x.s, i)
    ensures Inv(AfterSlot(AfterSlot(x, i.slot0), i.slot1))
  {
    SlotKeeps(x, i.slot0);
    SlotKeeps(AfterSlot(x, i.slot0), i.slot1);
  }

  lemma FrontKeeps(x: Sys, i: Inputs)
    requires Inv(x) && Legal(x, i) && SafeRestore(x, i)
    ensures Inv(Front(x, i))
  {
    if i.restoreValid {
      RestoreInRangeKeeps(x, i.restoreId);
    } else if Ready(x.s, i) {
      BothSlotsKeep(x, i);
    }
  }

  lemma SafeStepKeeps(x: Sys, i: Inputs)
    requires Inv(x) && Legal(x, i) && SafeRestore(x, i)
    ensures Inv(SysNext(x, i))
  {
    FrontRetires(x, i);
    FrontKeeps(x, i);
    RetireKeeps(Front(x, i), i.commit0);
    RetireKeeps(AfterRetire(Front(x, i), i.commit0), i.commit1);
  }

  lemma UnsafeStepBreaks(x: Sys, i: Inputs)
    requires Inv(x) && Legal(x, i) && !SafeRestore(x, i)
    ensures !Balanced(SysNext(x, i))
  {
    FrontRetires(x, i);
    var f := Front(x, i);
    RestoreOutOfRange(x, i.restoreId);
    RestoreGivesBack(x, i.restoreId);
    RetireLeavesUnbalanced(f, i.commit0);
    RetireLeavesUnbalanced(AfterRetire(f, i.commit0), i.commit1);
  }

  /** A step keeps the invariant exactly when its restore, if any, is in range. */
  lemma StepKeeps(x: Sys, i: Inputs)
    requires Inv(x) && Legal(x, i)
    ensures Inv(SysNext(x, i)) <==> SafeRestore(x, i)
  {
    if SafeRestore(x, i) { SafeStepKeeps(x, i); } else { UnsafeStepBreaks(x, i); }
  }

  /** What a retirement needs to move registers one for one. */
  ghost predicate GivesBack(rob: seq<InFlight>) {
    forall j :: 0 <= j < |rob| && rob[j].rd != 0 ==> rob[j].prev != 0
  }

  lemma RestoreGivesBack(x: Sys, id: nat)
    requires Inv(x) && id < N_CKPT && FindCkpt(x.rob, id) < |x.rob|
    ensures GivesBack(AfterRestore(x, id).rob)
  {
    forall j | 0 <= j < |x.rob| && x.rob[j].rd != 0
      ensures x.rob[j].prev != 0
    {
      PrevNotZero(x, j);
    }
    SurvivorsGiveBack(x.rob, FindCkpt(x.rob, id));
  }

  lemma SurvivorsGiveBack(rob: seq<InFlight>, j: nat)
    requires GivesBack(rob) && j < |rob|
    ensures GivesBack(Survivors(rob, j))
  {
  }

  /** No in-flight instruction displaced p0. */
  lemma PrevNotZero(x: Sys, j: nat)
    requires Inv(x) && j < |x.rob| && x.rob[j].rd != 0
    ensures x.rob[j].prev != 0
  {
    var p := x.rob[..j];
    var m := Chain(x.arch, p);
    ChainKeepsZero(x.arch, p);
    assert x.rob[j].prev == m[x.rob[j].rd] && m[0] == 0;
    if x.rob[j].prev == 0 {
      MapOnce(x, j);
    }
  }

  /** Every map on the way is injective. */
  lemma MapOnce(x: Sys, j: nat)
    requires Inv(x) && j <= |x.rob|
    ensures var m := Chain(x.arch, x.rob[..j]);
            forall a, b :: 0 <= a < b < ARCH_REGS ==> m[a] != m[b]
  {
    var m := Chain(x.arch, x.rob[..j]);
    var rest := PrefixRest(x, j);
    forall a, b | 0 <= a < b < ARCH_REGS
      ensures m[a] != m[b]
    {
      NoRepeat(m, rest, a, b);
    }
  }

  /** The registers outside the map after `j` instructions: displaced by then,
      or still in the ring behind them. */
  lemma PrefixRest(x: Sys, j: nat) returns (rest: multiset<nat>)
    requires Inv(x) && j <= |x.rob|
    ensures Bag(Chain(x.arch, x.rob[..j])) + rest == Bag(AllRegs())
    ensures Bag(FreeList(x.s)) <= rest
  {
    RecordedPrefix(x.arch, x.rob, j);
    Splits(x.rob, j);
    RingIsInFlightThenFree(x);
    rest := PrefixBalance(x.arch, x.rob[..j], x.rob[j..], FreeList(x.s));
  }

  lemma PrefixBalance(arch: RegMap, p: seq<InFlight>, q: seq<InFlight>, f: seq<nat>) returns (rest: multiset<nat>)
    requires |arch| == ARCH_REGS && Recorded(arch, p)
    ensures Bag(Chain(arch, p)) + rest == Bag(arch) + Bag(Prds(p + q) + f)
    ensures Bag(f) <= rest
  {
    ChainConserves(arch, p);
    ListsAppend(p, q);
    BagAppend(Prds(p) + Prds(q), f);
    BagAppend(Prds(p), Prds(q));
    rest := Bag(Prevs(p)) + Bag(Prds(q)) + Bag(f);
    RestAddsUp(Bag(Chain(arch, p)), Bag(Prevs(p)), Bag(arch), Bag(Prds(p)), Bag(Prds(q)), Bag(f));
  }

  lemma RestAddsUp(m: multiset<nat>, v: multiset<nat>, a: multiset<nat>, p: multiset<nat>, q: multiset<nat>,
                   f: multiset<nat>)
    requires m + v == a + p
    ensures m + (v + q + f) == a + ((p + q) + f)
    ensures f <= v + q + f
  {
    calc {
      m + (v + q + f);
      (m + v) + (q + f);
      (a + p) + (q + f);
      a + ((p + q) + f);
    }
  }

  /** Retirement moves the free count and the list together, so it repairs
      nothing that is out of balance. */
  lemma RetireLeavesUnbalanced(x: Sys, c: Commit)
    requires x.s.Shape() && RetireOk(x.rob, c) && GivesBack(x.rob) && !Balanced(x)
    ensures GivesBack(AfterRetire(x, c).rob) && !Balanced(AfterRetire(x, c))
  {
    if c.valid {
      PopFront(x.arch, x.rob);
    }
  }

  // ---------------------------------------------------------------- runs

  /** A run of legal cycles whose restores are all in range. */
  predicate LegalRun(x: Sys, ins: seq<Inputs>)
    decreases |ins|
  {
    ins == [] || (x.s.Shape() && Legal(x, ins[0]) && SafeRestore(x, ins[0]) && LegalRun(SysNext(x, ins[0]), ins[1..]))
  }

  function Run(x: Sys, ins: seq<Inputs>): Sys
    requires LegalRun(x, ins)
    decreases |ins|
  {
    if ins == [] then x else Run(SysNext(x, ins[0]), ins[1..])
  }

  lemma RunStep(x: Sys, ins: seq<Inputs>)
    requires LegalRun(x, ins) && ins != []
    ensures x.s.Shape() && Legal(x, ins[0]) && SafeRestore(x, ins[0])
    ensures LegalRun(SysNext(x, ins[0]), ins[1..]) && Run(x, ins) == Run(SysNext(x, ins[0]), ins[1..])
  {
  }

  function Reset(): Sys {
    Sys(Initial(), [], seq(ARCH_REGS, i requires 0 <= i => i))
  }

  lemma ResetOk()
    ensures Inv(Reset())
  {
    var x := Reset();
    assert Window(x.s.fl, 0, 0) == [];
    assert Window(x.s.fl, 0, DEPTH) == x.s.fl;
    assert x.arch + x.s.fl == AllRegs();
    BagAppend(x.arch, x.s.fl);
  }

  /** Every reachable state satisfies the invariant, so the registers are
      partitioned in every one of them. */
  lemma {:induction false} RunKeeps(x: Sys, ins: seq<Inputs>)
    requires Inv(x) && LegalRun(x, ins)
    ensures Inv(Run(x, ins))
    decreases |ins|
  {
    if ins != [] {
      StepKeeps(x, ins[0]);
      RunKeeps(SysNext(x, ins[0]), ins[1..]);
    }
  }

  lemma ReachablePartition(ins: seq<Inputs>)
    requires LegalRun(Reset(), ins)
    ensures var x := Run(Reset(), ins);
            && x.s.Shape() && 0 <= x.s.count <= DEPTH
            && Bag(x.s.map_) + Bag(FreeList(x.s)) + Bag(Prevs(x.rob)) == Bag(AllRegs())
            && x.s.map_[0] == 0
  {
    ResetOk();
    RunKeeps(Reset(), ins);
    var x := Run(Reset(), ins);
    Partition(x);
    PartitionMeans(x);
  }

  // ---------------------------------------------------------------- dataflow

  /** The youngest in-flight writer of `r`, or -1. */
  function LastWriter(rob: seq<InFlight>, r: nat): (j: int)
    ensures -1 <= j < |rob|
    ensures j >= 0 ==> rob[j].rd == r
    ensures forall k :: j < k < |rob| ==> rob[k].rd != r
  {
    if rob == [] then -1
    else if rob[|rob| - 1].rd == r then |rob| - 1
    else
      var p := rob[..|rob| - 1];
      assert forall k :: 0 <= k < |p| ==> p[k] == rob[k];
      LastWriter(p, r)
  }

  /** The register that holds the value of `r` after `rob`. */
  function Producer(arch: RegMap, rob: seq<InFlight>, r: nat): nat
    requires r < |arch|
  {
    var j := LastWriter(rob, r);
    if r == 0 || j < 0 then arch[r] else rob[j].prd
  }

  lemma {:induction false} ChainReads(arch: RegMap, rob: seq<InFlight>, r: nat)
    requires |arch| == ARCH_REGS && r < ARCH_REGS
    ensures Chain(arch, rob)[r] == Producer(arch, rob, r)
    decreases |rob|
  {
    if rob != [] {
      ChainReads(arch, rob[..|rob| - 1], r);
    }
  }

  /** Each source operand of a renamed bundle gets the register of its latest
      surviving older writer, slot 0 included for slot 1. */
  lemma SourcesFollowWriters(x: Sys, i: Inputs)
    requires Inv(x) && Legal(x, i) && !i.restoreValid && Ready(x.s, i)
    ensures var v := SlotView(x.s, i.slot0);
            && v.prs1 == Producer(x.arch, x.rob, i.slot0.rs1)
            && v.prs2 == Producer(x.arch, x.rob, i.slot0.rs2)
    ensures var y := AfterSlot(x, i.slot0);
            var v := SlotView(RenameSlot(x.s, i.slot0), i.slot1);
            && v.prs1 == Producer(x.arch, y.rob, i.slot1.rs1)
            && v.prs2 == Producer(x.arch, y.rob, i.slot1.rs2)
  {
    var y := AfterSlot(x, i.slot0);
    SlotKeeps(x, i.slot0);
    ChainReads(x.arch, x.rob, i.slot0.rs1);
    ChainReads(x.arch, x.rob, i.slot0.rs2);
    ChainReads(x.arch, y.rob, i.slot1.rs1);
    ChainReads(x.arch, y.rob, i.slot1.rs2);
  }

  lemma NotInBoth(m: seq<nat>, f: seq<nat>, rest: multiset<nat>, p: nat)
    requires Bag(m) + rest == Bag(AllRegs()) && Bag(f) <= rest && p in m
    ensures p !in f
  {
    IotaOnce(NUM_PREGS, p);
    assert Bag(AllRegs())[p] == Bag(m)[p] + rest[p];
    assert Bag(m)[p] > 0;
    assert p in f ==> Bag(f)[p] > 0 && Bag(f)[p] <= rest[p];
  }

  /** The operands of every in-flight instruction stay off the free list, so
      none is handed out again before its reader retires. */
  lemma OperandsNotFree(x: Sys, j: nat)
    requires Inv(x) && j < |x.rob|
    ensures x.rob[j].prs1 !in FreeList(x.s) && x.rob[j].prs2 !in FreeList(x.s)
  {
    var m := Chain(x.arch, x.rob[..j]);
    var rest := PrefixRest(x, j);
    assert x.rob[j].prs1 == m[x.rob[j].rs1] && x.rob[j].prs2 == m[x.rob[j].rs2];
    NotInBoth(m, FreeList(x.s), rest, x.rob[j].prs1);
    NotInBoth(m, FreeList(x.s), rest, x.rob[j].prs2);
  }

  /** The registers a bundle is given come off the free list, and are two. */
  lemma GrantsAreFree(x: Sys, i: Inputs)
    requires Inv(x) && Legal(x, i) && !i.restoreValid && Ready(x.s, i)
    ensures var v0, v1 := SlotView(x.s, i.slot0), SlotView(RenameSlot(x.s, i.slot0), i.slot1);
            && (i.slot0.WantsReg() ==> v0.prd in FreeList(x.s))
            && (i.slot1.WantsReg() ==> v1.prd in FreeList(x.s))
            && (i.slot0.WantsReg() && i.slot1.WantsReg() ==> v0.prd != v1.prd)
  {
    var f := FreeList(x.s);
    assert f[0] == x.s.fl[x.s.head] && f[1] == x.s.fl[ModDepth(x.s.head + 1)];
    Partition(x);
    BagRotate(Bag(x.s.map_), Bag(f), Bag(Prevs(x.rob)));
    NoRepeat(f, Bag(x.s.map_) + Bag(Prevs(x.rob)), 0, 1);
  }

  lemma BagRotate(a: multiset<nat>, b: multiset<nat>, c: multiset<nat>)
    ensures a + b + c == b + (a + c)
  {
  }

  // ---------------------------------------------------------------- the free list, cycle by cycle

  /** The tail is where the free list ends. */
  predicate Ringed(s: State) {
    s.Shape() && 0 <= s.count <= DEPTH && s.tail == Wrap(s.head + s.count, DEPTH)
  }

  lemma InvRinged(x: Sys)
    requires Inv(x)
    ensures Ringed(x.s)
  {
  }

  lemma SlotFreeList(s: State, i: Slot)
    requires Ringed(s) && i.Ok() && s.count >= 1
    ensures var n := if i.WantsReg() then 1 else 0;
            && Ringed(RenameSlot(s, i)) && RenameSlot(s, i).count == s.count - n
            && FreeList(RenameSlot(s, i)) == FreeList(s)[n..]
  {
    if i.WantsReg() { WindowPop(s.fl, s.head, s.count); }
  }

  lemma RetireFreeList(s: State, c: Commit)
    requires Ringed(s) && (c.Frees() ==> s.count < DEPTH)
    ensures Ringed(Retire(s, c)) && FreeList(Retire(s, c)) == FreeList(s) + Freed(c)
  {
    if c.Frees() {
      WindowPush(s.fl, s.head, s.count, c.prevPrd);
    }
  }

  lemma RoomToFree(x: Sys, c: Commit)
    requires x.s.Shape() && RingOk(x) && RetireOk(x.rob, c) && c.Frees()
    ensures x.s.count < DEPTH
  {
    PopFront(x.arch, x.rob);
  }

  lemma SurvivorPrds(rob: seq<InFlight>, j: nat)
    requires j < |rob|
    ensures Prds(Survivors(rob, j)) == Prds(rob[..j + 1])
  {
    assert rob[..j + 1] == rob[..j] + [rob[j]];
    PushBack([], rob[..j], rob[j]);
    PushBack([], rob[..j], rob[j].(hasCkpt := false));
  }

  lemma SquashedPrds(rob: seq<InFlight>, j: nat)
    requires j < |rob|
    ensures Prds(rob) == Prds(Survivors(rob, j)) + Prds(rob[j + 1..])
  {
    SurvivorPrds(rob, j);
    Splits(rob, j + 1);
    PrdsAppend(rob[..j + 1], rob[j + 1..]);
  }

  lemma RingsAgree(x: Sys, y: Sys, p: seq<nat>)
    requires x.s.Shape() && y.s.Shape() && RingOk(x) && RingOk(y)
    requires y.s.fl == x.s.fl && y.s.tail == x.s.tail && Prds(x.rob) == Prds(y.rob) + p
    ensures x.s.count <= DEPTH && y.s.count <= DEPTH && FreeList(y.s) == p + FreeList(x.s)
  {
    RingIsInFlightThenFree(x);
    RingIsInFlightThenFree(y);
    SameFront(Prds(y.rob), FreeList(y.s), p, FreeList(x.s));
  }

  /** A restore puts back, in order, what the squashed instructions were given. */
  lemma RestoreFreeList(x: Sys, id: nat)
    requires x.s.Shape() && RingOk(x) && id < N_CKPT && FindCkpt(x.rob, id) < |x.rob| && RingOk(AfterRestore(x, id))
    ensures x.s.count <= DEPTH && AfterRestore(x, id).s.count <= DEPTH
    ensures FreeList(AfterRestore(x, id).s) == Prds(x.rob[FindCkpt(x.rob, id) + 1..]) + FreeList(x.s)
  {
    SquashedPrds(x.rob, FindCkpt(x.rob, id));
    RingsAgree(x, AfterRestore(x, id), Prds(x.rob[FindCkpt(x.rob, id) + 1..]));
  }

  lemma SameFront(a: seq<nat>, f: seq<nat>, p: seq<nat>, g: seq<nat>)
    requires a + f == (a + p) + g
    ensures f == p + g
  {
    assert f == (a + f)[|a|..];
    assert p + g == ((a + p) + g)[|a|..];
  }

  /** How many registers a cycle hands out. */
  function Granted(x: Sys, i: Inputs): nat
    requires x.s.Shape()
  {
    if i.restoreValid || !Ready(x.s, i) then 0
    else (if i.slot0.WantsReg() then 1 else 0) + (if i.slot1.WantsReg() then 1 else 0)
  }

  /** The registers a cycle takes back from retiring instructions. */
  function Returned(i: Inputs): seq<nat> {
    Freed(i.commit0) + Freed(i.commit1)
  }

  function Freed(c: Commit): seq<nat> {
    if c.Frees() then [c.prevPrd] else []
  }

  /** The registers a cycle's restore takes back from squashed instructions. */
  function Reclaimed(x: Sys, i: Inputs): seq<nat>
    requires x.s.Shape() && Legal(x, i)
  {
    if i.restoreValid then Prds(x.rob[FindCkpt(x.rob, i.restoreId) + 1..]) else []
  }

  lemma BothSlotsFreeList(s: State, i: Inputs)
    requires Ringed(s) && i.Ok() && s.count >= 2
    ensures var n := (if i.slot0.WantsReg() then 1 else 0) + (if i.slot1.WantsReg() then 1 else 0);
            var r := RenameSlot(RenameSlot(s, i.slot0), i.slot1);
            0 <= r.count <= DEPTH && FreeList(r) == FreeList(s)[n..]
  {
    SlotFreeList(s, i.slot0);
    SlotFreeList(RenameSlot(s, i.slot0), i.slot1);
  }

  lemma FrontFreeList(x: Sys, i: Inputs)
    requires Ringed(x.s) && RingOk(x) && Legal(x, i) && RingOk(Front(x, i))
    ensures Granted(x, i) <= x.s.count && Front(x, i).s.count <= DEPTH
    ensures FreeList(Front(x, i).s) == Reclaimed(x, i) + FreeList(x.s)[Granted(x, i)..]
  {
    if i.restoreValid {
      RestoreFreeList(x, i.restoreId);
    } else if Ready(x.s, i) {
      BothSlotsFreeList(x.s, i);
    }
  }

  lemma RetiredOnce(f: Sys, c: Commit) returns (g: Sys)
    requires Inv(f) && RetireOk(f.rob, c)
    ensures g == AfterRetire(f, c) && Inv(g) && FreeList(g.s) == FreeList(f.s) + Freed(c)
  {
    InvRinged(f);
    if c.Frees() { RoomToFree(f, c); }
    RetireFreeList(f.s, c);
    RetireKeeps(f, c);
    g := AfterRetire(f, c);
  }

  lemma RetiredFreeList(f: Sys, i: Inputs)
    requires Inv(f) && RetireOk(f.rob, i.commit0) && RetireOk(AfterRetire(f, i.commit0).rob, i.commit1)
    ensures var y := AfterRetire(AfterRetire(f, i.commit0), i.commit1);
            0 <= y.s.count <= DEPTH && FreeList(y.s) == FreeList(f.s) + Returned(i)
  {
    var g := RetiredOnce(f, i.commit0);
    var y := RetiredOnce(g, i.commit1);
    Concat(FreeList(f.s), Freed(i.commit0), Freed(i.commit1));
  }

  lemma Concat(a: seq<nat>, b: seq<nat>, c: seq<nat>)
    ensures (a + b) + c == a + (b + c)
  {
  }

  /** The free list after a cycle: what a restore reclaims, the old list without
      what is granted, what retirement gives back, in this order. */
  lemma FreeListNext(x: Sys, i: Inputs)
    requires Inv(x) && Legal(x, i) && SafeRestore(x, i)
    ensures Inv(SysNext(x, i)) && Granted(x, i) <= x.s.count
    ensures FreeList(SysNext(x, i).s) == Reclaimed(x, i) + FreeList(x.s)[Granted(x, i)..] + Returned(i)
  {
    StepKeeps(x, i);
    FrontKeeps(x, i);
    InvRinged(x);
    FrontFreeList(x, i);
    FrontRetires(x, i);
    RetiredFreeList(Front(x, i), i);
  }

  /** In no cycle of the run does an instruction that displaced `p` retire, or a
      restore undo the grant of `p`. */
  predicate KeepsAway(x: Sys, ins: seq<Inputs>, p: nat)
    requires LegalRun(x, ins)
    decreases |ins|
  {
    ins == [] || (&& p !in Returned(ins[0]) && p !in Reclaimed(x, ins[0])
                  && KeepsAway(SysNext(x, ins[0]), ins[1..], p))
  }

  lemma OffListStep(x: Sys, i: Inputs, p: nat)
    requires Inv(x) && Legal(x, i) && SafeRestore(x, i) && p !in FreeList(x.s)
    ensures Inv(SysNext(x, i))
    ensures p in FreeList(SysNext(x, i).s) ==> p in Returned(i) || p in Reclaimed(x, i)
  {
    FreeListNext(x, i);
    assert forall q :: q in FreeList(x.s)[Granted(x, i)..] ==> q in FreeList(x.s);
  }

  /** A register off the free list comes back only with the retirement of an
      instruction that displaced it, or with a restore that undoes its grant. */
  lemma {:induction false} StaysOffList(x: Sys, ins: seq<Inputs>, p: nat)
    requires Inv(x) && LegalRun(x, ins) && KeepsAway(x, ins, p) && p !in FreeList(x.s)
    ensures Inv(Run(x, ins)) && p !in FreeList(Run(x, ins).s)
    decreases |ins|
  {
    if ins != [] {
      OffListStep(x, ins[0], p);
      StaysOffList(SysNext(x, ins[0]), ins[1..], p);
    }
  }

  /** The register the writer in slot 0, or else in slot 1, is given. */
  predicate Grants(x: Sys, i: Inputs, p: nat)
    requires x.s.Shape() && i.Ok()
  {
    && !i.restoreValid && Ready(x.s, i)
    && (|| (i.slot0.WantsReg() && p == SlotView(x.s, i.slot0).prd)
        || (i.slot1.WantsReg() && p == SlotView(RenameSlot(x.s, i.slot0), i.slot1).prd))
  }

  lemma GrantIsHead(x: Sys, i: Inputs, p: nat) returns (k: nat)
    requires Inv(x) && i.Ok() && Grants(x, i, p)
    ensures k < Granted(x, i) <= x.s.count && FreeList(x.s)[k] == p
  {
    var f := FreeList(x.s);
    assert f[0] == x.s.fl[x.s.head] && f[1] == x.s.fl[ModDepth(x.s.head + 1)];
    k := if i.slot0.WantsReg() && p == SlotView(x.s, i.slot0).prd then 0 else Granted(x, i) - 1;
  }

  /** A register on the free list is displaced by nobody in flight. */
  lemma FreeIsNotDisplaced(x: Sys, i: Inputs, p: nat)
    requires Inv(x) && Legal(x, i) && !i.restoreValid && p in FreeList(x.s)
    ensures p !in Returned(i)
  {
    PartitionMeans(x);
    if i.commit0.Frees() {
      PrevsHas(x.rob, 0);
    }
    if i.commit1.Frees() {
      PrevsHas(x.rob, if i.commit0.valid then 1 else 0);
    }
  }

  lemma {:induction false} PrevsHas(rob: seq<InFlight>, j: nat)
    requires j < |rob| && rob[j].rd != 0
    ensures rob[j].prev in Prevs(rob)
    decreases |rob|
  {
    if j < |rob| - 1 { PrevsHas(rob[..|rob| - 1], j); }
  }

  lemma FreeIsListedOnce(x: Sys, k: nat, n: nat)
    requires Inv(x) && k < n <= x.s.count
    ensures FreeList(x.s)[k] !in FreeList(x.s)[n..]
  {
    var f := FreeList(x.s);
    Partition(x);
    BagRotate(Bag(x.s.map_), Bag(f), Bag(Prevs(x.rob)));
    forall j | n <= j < |f|
      ensures f[j] != f[k]
    {
      NoRepeat(f, Bag(x.s.map_) + Bag(Prevs(x.rob)), k, j);
    }
  }

  lemma GrantLeavesList(x: Sys, i: Inputs, p: nat)
    requires Inv(x) && Legal(x, i) && Grants(x, i, p)
    ensures Inv(SysNext(x, i)) && p !in FreeList(SysNext(x, i).s)
  {
    var k := GrantIsHead(x, i, p);
    FreeListNext(x, i);
    FreeIsListedOnce(x, k, Granted(x, i));
    FreeIsNotDisplaced(x, i, p);
  }

  /** A granted register stays off the free list in every later state of the run,
      until an instruction that displaced it retires or a restore undoes the
      grant. */
  lemma GrantIsHeld(x: Sys, i: Inputs, p: nat, ins: seq<Inputs>)
    requires Inv(x) && Legal(x, i) && Grants(x, i, p)
    requires LegalRun(SysNext(x, i), ins) && KeepsAway(SysNext(x, i), ins, p)
    ensures Inv(Run(SysNext(x, i), ins)) && p !in FreeList(Run(SysNext(x, i), ins).s)
  {
    GrantLeavesList(x, i, p);
    StaysOffList(SysNext(x, i), ins, p);
  }

  // ---------------------------------------------------------------- undo

  /** The same cycle with nothing renamed and nothing restored. */
  function OnlyRetire(i: Inputs): Inputs {
    i.(slot0 := i.slot0.(valid := false), slot1 := i.slot1.(valid := false), restoreValid := false)
  }

  /** `a` is `b` with younger instructions renamed behind the branch that holds
      checkpoint `id`. */
  ghost predicate Ahead(a: Sys, b: Sys, id: nat) {
    && Inv(a) && Inv(b) && Extends(a, b)
    && b.rob != [] && Last(b.rob).hasCkpt && Last(b.rob).ckptId == id
  }

  predicate Extends(a: Sys, b: Sys) {
    a.arch == b.arch && a.s.fl == b.s.fl && a.s.tail == b.s.tail && b.rob <= a.rob
  }

  function Last(rob: seq<InFlight>): InFlight
    requires rob != []
  {
    rob[|rob| - 1]
  }

  function Retiring(i: Inputs): nat {
    (if i.commit0.valid then 1 else 0) + (if i.commit1.valid then 1 else 0)
  }

  /** A run of `a` that leaves the branch in flight: it never retires, and no
      restore goes back to it or beyond. `k` is the branch's place in the list. */
  predicate Speculates(a: Sys, k: nat, ins: seq<Inputs>)
    decreases |ins|
  {
    ins == [] ||
    (a.s.Shape() && Legal(a, ins[0]) && SafeRestore(a, ins[0])
     && (ins[0].restoreValid ==> k < FindCkpt(a.rob, ins[0].restoreId))
     && Retiring(ins[0]) <= k
     && Speculates(SysNext(a, ins[0]), k - Retiring(ins[0]), ins[1..]))
  }

  /** The twin run: the same retirements, no renames, no restores. */
  function Twin(b: Sys, ins: seq<Inputs>): (r: Sys)
    decreases |ins|
  {
    if ins == [] || !b.s.Shape() || !Legal(b, OnlyRetire(ins[0])) then b
    else Twin(SysNext(b, OnlyRetire(ins[0])), ins[1..])
  }

  /** A retirement does the same to both lists. */
  lemma RetireHalf(a: Sys, b: Sys, c: Commit)
    requires a.s.Shape() && b.s.Shape() && Extends(a, b) && RetireOk(a.rob, c)
    requires b.rob != [] && (c.valid ==> 1 < |b.rob|)
    ensures RetireOk(b.rob, c)
    ensures var a', b' := AfterRetire(a, c), AfterRetire(b, c);
            && Extends(a', b') && |b'.rob| == |b.rob| - (if c.valid then 1 else 0)
            && b'.rob != [] && Last(b'.rob) == Last(b.rob)
  {
    if c.valid {
      assert b.rob[0] == a.rob[0];
      assert b.rob[1..] <= a.rob[1..];
    }
  }

  lemma RetireHalves(a: Sys, b: Sys, c0: Commit, c1: Commit)
    requires a.s.Shape() && b.s.Shape() && Extends(a, b)
    requires RetireOk(a.rob, c0) && RetireOk(AfterRetire(a, c0).rob, c1)
    requires (if c0.valid then 1 else 0) + (if c1.valid then 1 else 0) < |b.rob|
    ensures RetireOk(b.rob, c0) && RetireOk(AfterRetire(b, c0).rob, c1)
    ensures var a', b' := AfterRetire(AfterRetire(a, c0), c1), AfterRetire(AfterRetire(b, c0), c1);
            && Extends(a', b')
            && |b'.rob| == |b.rob| - (if c0.valid then 1 else 0) - (if c1.valid then 1 else 0)
            && b'.rob != [] && Last(b'.rob) == Last(b.rob)
  {
    RetireHalf(a, b, c0);
    RetireHalf(AfterRetire(a, c0), AfterRetire(b, c0), c1);
  }

  /** The front half of a speculating cycle leaves the older part alone. */
  lemma FrontHalf(a: Sys, b: Sys, i: Inputs)
    requires a.s.Shape() && Legal(a, i) && Extends(a, b)
    requires i.restoreValid ==> |b.rob| <= FindCkpt(a.rob, i.restoreId)
    ensures Extends(Front(a, i), b)
  {
  }

  lemma StepExtends(a: Sys, b: Sys, i: Inputs)
    requires a.s.Shape() && b.s.Shape() && Extends(a, b) && Legal(a, i) && Retiring(i) < |b.rob|
    requires i.restoreValid ==> |b.rob| <= FindCkpt(a.rob, i.restoreId)
    ensures Legal(b, OnlyRetire(i))
    ensures var b' := SysNext(b, OnlyRetire(i));
            && Extends(SysNext(a, i), b') && |b'.rob| == |b.rob| - Retiring(i)
            && b'.rob != [] && Last(b'.rob) == Last(b.rob)
  {
    FrontHalf(a, b, i);
    FrontRetires(a, i);
    RetireHalves(Front(a, i), b, i.commit0, i.commit1);
    assert Legal(b, OnlyRetire(i));
    NothingRenamed(b, i);
  }

  lemma StepStaysAhead(a: Sys, b: Sys, id: nat, i: Inputs) returns (a': Sys, b': Sys)
    requires Ahead(a, b, id) && Legal(a, i) && SafeRestore(a, i) && Retiring(i) < |b.rob|
    requires i.restoreValid ==> |b.rob| <= FindCkpt(a.rob, i.restoreId)
    ensures Legal(b, OnlyRetire(i)) && a' == SysNext(a, i) && b' == SysNext(b, OnlyRetire(i))
    ensures Ahead(a', b', id) && |b'.rob| == |b.rob| - Retiring(i)
  {
    StepExtends(a, b, i);
    SafeStepKeeps(a, i);
    SafeStepKeeps(b, OnlyRetire(i));
    a', b' := SysNext(a, i), SysNext(b, OnlyRetire(i));
  }

  lemma NothingRenamed(b: Sys, i: Inputs)
    requires b.s.Shape() && Legal(b, OnlyRetire(i))
    ensures Front(b, OnlyRetire(i)) == b
  {
  }

  lemma SpeculatesStep(a: Sys, k: nat, ins: seq<Inputs>)
    requires Speculates(a, k, ins) && ins != []
    ensures a.s.Shape() && Legal(a, ins[0]) && SafeRestore(a, ins[0]) && Retiring(ins[0]) <= k
    ensures ins[0].restoreValid ==> k < FindCkpt(a.rob, ins[0].restoreId)
    ensures Speculates(SysNext(a, ins[0]), k - Retiring(ins[0]), ins[1..])
  {
  }

  lemma TwinStep(b: Sys, ins: seq<Inputs>)
    requires ins != [] && b.s.Shape() && Legal(b, OnlyRetire(ins[0]))
    ensures Twin(b, ins) == Twin(SysNext(b, OnlyRetire(ins[0])), ins[1..])
  {
  }

  lemma {:induction false} SpeculatesIsLegal(a: Sys, k: nat, ins: seq<Inputs>)
    requires Speculates(a, k, ins)
    ensures LegalRun(a, ins)
    decreases |ins|
  {
    if ins != [] {
      SpeculatesStep(a, k, ins);
      SpeculatesIsLegal(SysNext(a, ins[0]), k - Retiring(ins[0]), ins[1..]);
    }
  }

  /** The rest of a speculating run and of its twin. */
  lemma SpeculatingRest(a: Sys, b: Sys, k: nat, ins: seq<Inputs>)
    requires Speculates(a, k, ins) && LegalRun(a, ins) && ins != [] && b.s.Shape() && Legal(b, OnlyRetire(ins[0]))
    ensures a.s.Shape() && Legal(a, ins[0]) && SafeRestore(a, ins[0]) && Retiring(ins[0]) <= k
    ensures ins[0].restoreValid ==> k < FindCkpt(a.rob, ins[0].restoreId)
    ensures Speculates(SysNext(a, ins[0]), k - Retiring(ins[0]), ins[1..]) && LegalRun(SysNext(a, ins[0]), ins[1..])
    ensures Run(a, ins) == Run(SysNext(a, ins[0]), ins[1..])
    ensures Twin(b, ins) == Twin(SysNext(b, OnlyRetire(ins[0])), ins[1..])
  {
    SpeculatesStep(a, k, ins);
    RunStep(a, ins);
    TwinStep(b, ins);
  }

  /** One cycle of a speculating run and of its twin; the branch moves from place
      `k` to place `k'`. */
  lemma SpeculatingCycle(a: Sys, b: Sys, id: nat, k: nat, ins: seq<Inputs>) returns (a': Sys, b': Sys, k': nat)
    requires Ahead(a, b, id) && k + 1 == |b.rob| && Speculates(a, k, ins) && LegalRun(a, ins) && ins != []
    ensures Ahead(a', b', id) && k' + 1 == |b'.rob| && Speculates(a', k', ins[1..]) && LegalRun(a', ins[1..])
    ensures Run(a, ins) == Run(a', ins[1..]) && Twin(b, ins) == Twin(b', ins[1..])
  {
    SpeculatesStep(a, k, ins);
    a', b' := StepStaysAhead(a, b, id, ins[0]);
    SpeculatingRest(a, b, k, ins);
    k' := k - Retiring(ins[0]);
  }

  /** The run `x` and its twin `y` stay as the two states started. */
  lemma {:induction false} RunStaysAhead(a: Sys, b: Sys, id: nat, k: nat, ins: seq<Inputs>) returns (x: Sys, y: Sys)
    requires Ahead(a, b, id) && k + 1 == |b.rob| && Speculates(a, k, ins) && LegalRun(a, ins)
    ensures x == Run(a, ins) && y == Twin(b, ins) && Ahead(x, y, id)
    decreases |ins|
  {
    if ins == [] {
      x, y := a, b;
    } else {
      var a', b', k' := SpeculatingCycle(a, b, id, k, ins);
      x, y := RunStaysAhead(a', b', id, k', ins[1..]);
    }
  }

  /** The registers that the list and the ring decide. */
  predicate Decided(x: Sys) {
    && x.s.Shape() && x.s.map_ == Chain(x.arch, x.rob) && |Prds(x.rob)| + x.s.count == DEPTH && 0 <= x.s.count
    && x.s.head == Wrap(x.s.tail + |Prds(x.rob)|, DEPTH) && x.s.ckptCount == Ckpts(x.rob)
  }

  lemma InvDecided(x: Sys)
    requires Inv(x)
    ensures Decided(x)
  {
  }

  /** Two states over the same retired map, ring and list agree on the map and
      on the whole free list. */
  lemma ListDecides(a: Sys, b: Sys, j: nat)
    requires Decided(a) && Decided(b) && a.arch == b.arch && a.s.fl == b.s.fl && a.s.tail == b.s.tail
    requires |b.rob| == j + 1 && b.rob[j].hasCkpt && a.rob == Survivors(b.rob, j)
    ensures a.s.map_ == b.s.map_ && a.s.head == b.s.head && a.s.count == b.s.count
    ensures FreeList(a.s) == FreeList(b.s)
    ensures a.s.ckptCount == b.s.ckptCount - 1
  {
    LastSurvives(a.arch, b.rob);
  }

  lemma LastSurvives(m: RegMap, rob: seq<InFlight>)
    requires rob != [] && Last(rob).hasCkpt
    ensures var r := Survivors(rob, |rob| - 1);
            Chain(m, r) == Chain(m, rob) && Prds(r) == Prds(rob) && Ckpts(r) == Ckpts(rob) - 1
  {
    var j := |rob| - 1;
    PushBack(m, rob[..j], rob[j]);
    PushBack(m, rob[..j], rob[j].(hasCkpt := false));
    assert rob == rob[..j] + [rob[j]];
  }

  /** `a` is `b` with the checkpoint of its youngest branch given back. */
  predicate Resolves(a: Sys, b: Sys) {
    && a.arch == b.arch && a.s.fl == b.s.fl && a.s.tail == b.s.tail
    && b.rob != [] && Last(b.rob).hasCkpt && a.rob == Survivors(b.rob, |b.rob| - 1)
  }

  lemma RetireResolves(a: Sys, b: Sys, c: Commit)
    requires a.s.Shape() && b.s.Shape() && Resolves(a, b) && RetireOk(a.rob, c)
    requires c.valid ==> 1 < |b.rob|
    ensures RetireOk(b.rob, c)
    ensures Resolves(AfterRetire(a, c), AfterRetire(b, c))
    ensures |AfterRetire(b, c).rob| == |b.rob| - (if c.valid then 1 else 0)
  {
    if c.valid {
      assert a.rob[0] == b.rob[0];
      assert a.rob[1..] == Survivors(b.rob[1..], |b.rob| - 2);
    }
  }

  /** The checkpoint leads back to the youngest branch of the twin. */
  lemma ForkPoint(x: Sys, y: Sys, id: nat)
    requires Ahead(x, y, id)
    ensures FindCkpt(x.rob, id) == |y.rob| - 1
  {
    var j := |y.rob| - 1;
    assert x.rob[j] == y.rob[j];
    CkptIdsDiffer(x, id, j);
  }

  lemma ForkResolves(x: Sys, y: Sys, id: nat)
    requires x.s.Shape() && Extends(x, y) && id < N_CKPT && y.rob != [] && Last(y.rob).hasCkpt
    requires FindCkpt(x.rob, id) == |y.rob| - 1
    ensures Resolves(AfterRestore(x, id), y)
  {
    var j := |y.rob| - 1;
    assert x.rob[..j] == y.rob[..j] && x.rob[j] == y.rob[j];
  }

  lemma RestoreResolves(x: Sys, y: Sys, id: nat)
    requires Ahead(x, y, id) && id < N_CKPT && FindCkpt(x.rob, id) < |x.rob|
    ensures Resolves(AfterRestore(x, id), y)
  {
    ForkPoint(x, y, id);
    ForkResolves(x, y, id);
  }

  /** The restoring cycle, with its own retirements, against the twin's cycle. */
  lemma UndoStep(x: Sys, y: Sys, i: Inputs)
    requires x.s.Shape() && y.s.Shape() && Legal(x, i) && i.restoreValid
    requires Resolves(AfterRestore(x, i.restoreId), y) && Retiring(i) < |y.rob|
    ensures Legal(y, OnlyRetire(i))
    ensures Resolves(SysNext(x, i), SysNext(y, OnlyRetire(i)))
  {
    FrontRetires(x, i);
    var f := AfterRestore(x, i.restoreId);
    RetireResolves(f, y, i.commit0);
    RetireResolves(AfterRetire(f, i.commit0), AfterRetire(y, i.commit0), i.commit1);
    assert Legal(y, OnlyRetire(i));
    NothingRenamed(y, i);
  }

  lemma UndoOne(x: Sys, y: Sys, i: Inputs)
    requires Ahead(x, y, i.restoreId) && Legal(x, i) && i.restoreValid && SafeRestore(x, i)
    requires Retiring(i) < |y.rob|
    ensures Legal(y, OnlyRetire(i))
    ensures Undone(SysNext(x, i), SysNext(y, OnlyRetire(i)))
  {
    RestoreResolves(x, y, i.restoreId);
    UndoStep(x, y, i);
    StepKeeps(x, i);
    StepKeeps(y, OnlyRetire(i));
    var z := SysNext(y, OnlyRetire(i));
    InvDecided(SysNext(x, i));
    InvDecided(z);
    ListDecides(SysNext(x, i), z, |z.rob| - 1);
  }

  /** Same map, same free list, same ring; the lists differ only in that the
      youngest branch of `y` has given back its checkpoint in `x`. */
  ghost predicate Undone(x: Sys, y: Sys) {
    && Inv(x) && Inv(y) && Resolves(x, y)
    && x.s.map_ == y.s.map_ && x.s.fl == y.s.fl && x.s.head == y.s.head && x.s.tail == y.s.tail
    && x.s.count == y.s.count && FreeList(x.s) == FreeList(y.s)
    && x.s.ckptCount == y.s.ckptCount - 1
  }

  /** Restoring undoes the speculation: after any speculating run, the cycle
      that restores to the branch leaves the map and the free list as in the
      twin run, where the younger instructions were never renamed but the same
      ones retired, with the branch's checkpoint id and all younger ones given
      back. */
  lemma RestoreUndoes(a: Sys, b: Sys, ins: seq<Inputs>, i: Inputs)
    requires Ahead(a, b, i.restoreId) && Speculates(a, |b.rob| - 1, ins)
    requires LegalRun(a, ins) && Run(a, ins).s.Shape() && Legal(Run(a, ins), i)
    requires i.restoreValid && SafeRestore(Run(a, ins), i)
    requires Retiring(i) < |Twin(b, ins).rob|
    ensures Twin(b, ins).s.Shape() && Legal(Twin(b, ins), OnlyRetire(i))
    ensures Undone(SysNext(Run(a, ins), i), SysNext(Twin(b, ins), OnlyRetire(i)))
    ensures SysNext(Run(a, ins), i).s.ckptHead == i.restoreId
  {
    var x, y := RunStaysAhead(a, b, i.restoreId, |b.rob| - 1, ins);
    UndoOne(x, y, i);
    RestoreReclaims(x, i);
  }

  /** The next id handed out is the restored one. */
  lemma RestoreReclaims(x: Sys, i: Inputs)
    requires x.s.Shape() && Legal(x, i) && i.restoreValid
    ensures SysNext(x, i).s.ckptHead == i.restoreId
  {
    assert SysNext(x, i).s == Next(x.s, i);
  }

  lemma CkptRank(x: Sys, j: nat)
    requires Inv(x) && j < |x.rob| && x.rob[j].hasCkpt
    ensures 0 <= x.s.ckptCount <= N_CKPT && Ckpts(x.rob[..j]) < N_CKPT
    ensures x.rob[j].ckptId == ModCkpt(Oldest(x.s) + Ckpts(x.rob[..j]))
  {
    assert CkptOk(x.s, x.arch, x.rob, j);
  }

  /** A live checkpoint id names one instruction. */
  lemma CkptIdsDiffer(x: Sys, id: nat, j: nat)
    requires Inv(x) && j < |x.rob| && x.rob[j].hasCkpt && x.rob[j].ckptId == id
    ensures FindCkpt(x.rob, id) == j
  {
    FindsFirst(x.rob, id, j);
    var k := FindCkpt(x.rob, id);
    CkptRank(x, k);
    CkptRank(x, j);
    if k < j {
      RanksGrow(x.rob, k, j);
    }
  }

  lemma RanksGrow(rob: seq<InFlight>, k: nat, j: nat)
    requires k < j <= |rob| && rob[k].hasCkpt
    ensures Ckpts(rob[..k]) < Ckpts(rob[..j])
  {
    RankStrict(rob[..j], k);
    assert rob[..j][..k] == rob[..k];
  }

  lemma {:induction false} FindsFirst(rob: seq<InFlight>, id: nat, j: nat)
    requires j < |rob| && rob[j].hasCkpt && rob[j].ckptId == id
    ensures FindCkpt(rob, id) <= j
  {
    if j > 0 && !(rob[0].hasCkpt && rob[0].ckptId == id) {
      FindsFirst(rob[1..], id, j - 1);
    }
  }

  /** Taking the checkpoint starts the speculation: slot 1 of the same bundle is
      already younger than a branch in slot 0. */
  lemma BranchStartsSpeculation(x: Sys, i: Inputs)
    requires Inv(x) && Legal(x, i) && !i.restoreValid && Ready(x.s, i) && i.slot0.WantsCkpt()
    ensures Legal(x, i.(slot1 := i.slot1.(valid := false)))
    ensures Ahead(SysNext(x, i), SysNext(x, i.(slot1 := i.slot1.(valid := false))), x.s.ckptHead)
  {
    var i' := i.(slot1 := i.slot1.(valid := false));
    FirstSlotOnly(x, i);
    var a, b := Front(x, i), Front(x, i');
    StepKeeps(x, i);
    StepKeeps(x, i');
    FrontRetires(x, i);
    FrontRetires(x, i');
    RetireHalves(a, b, i.commit0, i.commit1);
  }

  lemma FirstSlotOnly(x: Sys, i: Inputs)
    requires x.s.Shape() && Legal(x, i) && !i.restoreValid && Ready(x.s, i) && i.slot0.WantsCkpt()
    ensures var i' := i.(slot1 := i.slot1.(valid := false));
            && Legal(x, i') && Extends(Front(x, i), Front(x, i')) && Retiring(i) < |Front(x, i').rob|
            && Last(Front(x, i').rob).hasCkpt && Last(Front(x, i').rob).ckptId == x.s.ckptHead
  {
    assert Front(x, i.(slot1 := i.slot1.(valid := false))) == AfterSlot(x, i.slot0);
    assert Retiring(i) <= |x.rob|;
  }

  /** A branch in slot 1 is the youngest instruction of its bundle. */
  lemma BranchInSlot1StartsSpeculation(x: Sys, i: Inputs)
    requires Inv(x) && Legal(x, i) && !i.restoreValid && Ready(x.s, i) && i.slot1.WantsCkpt()
    ensures var y := SysNext(x, i);
            Ahead(y, y, SlotView(RenameSlot(x.s, i.slot0), i.slot1).ckptId)
  {
    StepKeeps(x, i);
    FrontRetires(x, i);
    assert Retiring(i) <= |x.rob|;
    RetireHalves(Front(x, i), Front(x, i), i.commit0, i.commit1);
  }

  // ---------------------------------------------------------------- where undo fails

  const IDLE: Commit := Commit(false, 0, false)

  function Bundle(a: Slot, b: Slot): Inputs {
    Inputs(a, b, false, 0, IDLE, IDLE)
  }

  function UndoTo(id: nat): Inputs {
    var none := Slot(false, 0, 0, 0, false, false);
    Bundle(none, none).(restoreValid := true, restoreId := id)
  }

  lemma RunCons(x: Sys, i: Inputs, ins: seq<Inputs>)
    requires x.s.Shape() && Legal(x, i) && SafeRestore(x, i) && LegalRun(SysNext(x, i), ins)
    ensures LegalRun(x, [i] + ins) && Run(x, [i] + ins) == Run(SysNext(x, i), ins)
  {
    assert ([i] + ins)[1..] == ins;
  }

  lemma {:induction false} RunSnoc(x: Sys, ins: seq<Inputs>, i: Inputs)
    requires LegalRun(x, ins) && Run(x, ins).s.Shape() && Legal(Run(x, ins), i) && SafeRestore(Run(x, ins), i)
    ensures LegalRun(x, ins + [i]) && Run(x, ins + [i]) == SysNext(Run(x, ins), i)
    decreases |ins|
  {
    if ins == [] {
      RunCons(x, i, []);
      assert [i] + [] == [] + [i];
    } else {
      RunStep(x, ins);
      RunSnoc(SysNext(x, ins[0]), ins[1..], i);
      RunCons(x, ins[0], ins[1..] + [i]);
      assert [ins[0]] + (ins[1..] + [i]) == ins + [i];
    }
  }

  /** One branch, then `t` bundles of two destinations each. */
  lemma {:induction false} DrainRun(t: nat) returns (ins: seq<Inputs>)
    requires t <= 16
    ensures LegalRun(Reset(), ins) && Inv(Run(Reset(), ins))
    ensures var x := Run(Reset(), ins);
            && x.s.count == DEPTH - 2 * t && x.s.ckptCount == 1
            && x.rob != [] && x.rob[0].hasCkpt && x.rob[0].ckptId == 0 && |Prds(x.rob[1..])| == 2 * t
  {
    if t == 0 {
      var i := Bundle(Slot(true, 0, 0, 0, true, true), Slot(false, 0, 0, 0, false, false));
      ResetOk();
      ins := [];
      RunSnoc(Reset(), ins, i);
      ins := [] + [i];
      StepKeeps(Reset(), i);
    } else {
      ins := DrainRun(t - 1);
      var x := Run(Reset(), ins);
      var i := Bundle(Slot(true, 0, 0, 1, false, false), Slot(true, 0, 0, 2, false, false));
      DrainStep(x, i);
      RunSnoc(Reset(), ins, i);
      ins := ins + [i];
    }
  }

  lemma DrainPrds(rob: seq<InFlight>, e0: InFlight, e1: InFlight)
    requires rob != [] && e0.rd != 0 && e1.rd != 0
    ensures |Prds((rob + [e0] + [e1])[1..])| == |Prds(rob[1..])| + 2
  {
    assert (rob + [e0] + [e1])[1..] == (rob[1..] + [e0]) + [e1];
    PushBack([], rob[1..], e0);
    PushBack([], rob[1..] + [e0], e1);
  }

  lemma DrainCounts(x: Sys, i: Inputs)
    requires x.s.Shape() && x.s.count >= 2 && x.s.ckptCount == 1 && x.rob != []
    requires i == Bundle(Slot(true, 0, 0, 1, false, false), Slot(true, 0, 0, 2, false, false))
    ensures Legal(x, i) && SafeRestore(x, i) && Ready(x.s, i)
    ensures SysNext(x, i).s.count == x.s.count - 2 && SysNext(x, i).s.ckptCount == 1
    ensures SysNext(x, i).rob == Front(x, i).rob
  {
  }

  lemma DrainStep(x: Sys, i: Inputs)
    requires Inv(x) && x.s.count >= 2 && x.s.ckptCount == 1 && x.rob != []
    requires i == Bundle(Slot(true, 0, 0, 1, false, false), Slot(true, 0, 0, 2, false, false))
    ensures Legal(x, i) && SafeRestore(x, i) && Inv(SysNext(x, i))
    ensures var y := SysNext(x, i);
            && y.s.count == x.s.count - 2 && y.s.ckptCount == 1
            && y.rob != [] && y.rob[0] == x.rob[0] && |Prds(y.rob[1..])| == |Prds(x.rob[1..])| + 2
  {
    DrainCounts(x, i);
    StepKeeps(x, i);
    EntriesAreOutputs(x, i);
    DrainPrds(x.rob, EntryOf(i.slot0, SlotView(x.s, i.slot0)),
              EntryOf(i.slot1, SlotView(RenameSlot(x.s, i.slot0), i.slot1)));
  }

  lemma LostWhenFull(x: Sys, i: Inputs)
    requires Inv(x) && x.s.count == 0 && i == UndoTo(0)
    requires x.rob != [] && x.rob[0].hasCkpt && x.rob[0].ckptId == 0 && |Prds(x.rob[1..])| == DEPTH
    ensures Legal(x, i) && !SafeRestore(x, i) && !Inv(SysNext(x, i)) && SysNext(x, i).s.count == 0
  {
    assert FindCkpt(x.rob, 0) == 0;
    assert Legal(x, i);
    StepKeeps(x, i);
    NothingFreed(x);
    assert SysNext(x, i).s == Restore(x.s, 0);
  }

  lemma NothingFreed(x: Sys)
    requires Inv(x) && x.s.count == 0 && x.rob != []
    requires x.rob[0].hasCkpt && x.rob[0].ckptId == 0 && |Prds(x.rob[1..])| == DEPTH
    ensures Restore(x.s, 0).count == 0
  {
    assert FindCkpt(x.rob, 0) == 0;
    assert CkptOk(x.s, x.arch, x.rob, 0);
    RestoreRegs(x, 0);
    SurvivorLists(x.arch, x.rob, 0);
  }

  /** Sixteen bundles behind a checkpoint take all of a full free list: the
      restore then finds head and checkpoint equal and frees nothing. */
  lemma FullDrainIsLost() returns (ins: seq<Inputs>, i: Inputs)
    ensures LegalRun(Reset(), ins) && Inv(Run(Reset(), ins)) && Legal(Run(Reset(), ins), i) && i.restoreValid
    ensures !SafeRestore(Run(Reset(), ins), i) && !Inv(SysNext(Run(Reset(), ins), i))
    ensures SysNext(Run(Reset(), ins), i).s.count == 0
  {
    ins := DrainRun(16);
    i := UndoTo(0);
    var x := Run(Reset(), ins);
    LostWhenFull(x, i);
  }

  /** `t` bundles of one branch each. */
  lemma {:induction false} BranchRun(t: nat) returns (ins: seq<Inputs>, x: Sys)
    requires 1 <= t <= N_CKPT
    ensures LegalRun(Reset(), ins) && x == Run(Reset(), ins) && Inv(x)
    ensures x.s.count == DEPTH && x.s.ckptCount == t && x.rob != [] && x.rob[0].hasCkpt && x.rob[0].ckptId == 0
  {
    if t == 1 {
      ins := DrainRun(0);
      x := Run(Reset(), ins);
    } else {
      var before, y := BranchRun(t - 1);
      var i := Bundle(Slot(true, 0, 0, 0, true, true), Slot(false, 0, 0, 0, false, false));
      BranchStep(y, i);
      RunSnoc(Reset(), before, i);
      ins, x := before + [i], SysNext(y, i);
    }
  }

  lemma BranchStep(x: Sys, i: Inputs)
    requires Inv(x) && x.s.count == DEPTH && x.s.ckptCount < N_CKPT && x.rob != []
    requires i == Bundle(Slot(true, 0, 0, 0, true, true), Slot(false, 0, 0, 0, false, false))
    ensures Legal(x, i) && SafeRestore(x, i) && Inv(SysNext(x, i))
    ensures var y := SysNext(x, i);
            y.s.count == DEPTH && y.s.ckptCount == x.s.ckptCount + 1 && y.rob != [] && y.rob[0] == x.rob[0]
  {
    StepKeeps(x, i);
  }

  lemma OldestNotGivenBack(x: Sys)
    requires Inv(x) && x.s.ckptCount == N_CKPT && x.rob != [] && x.rob[0].hasCkpt && x.rob[0].ckptId == 0
    ensures FindCkpt(x.rob, 0) == 0 && !RestoreInRange(x, 0) && Restore(x.s, 0).ckptCount == N_CKPT
  {
    assert FindCkpt(x.rob, 0) == 0 && x.rob[0..] == x.rob && x.rob[..0] == [];
    assert CkptOk(x.s, x.arch, x.rob, 0);
  }

  lemma OldestIsLost(x: Sys, i: Inputs)
    requires Inv(x) && x.s.ckptCount == N_CKPT && i == UndoTo(0)
    requires x.rob != [] && x.rob[0].hasCkpt && x.rob[0].ckptId == 0
    ensures Legal(x, i) && !SafeRestore(x, i) && !Inv(SysNext(x, i)) && SysNext(x, i).s.ckptCount == N_CKPT
  {
    OldestNotGivenBack(x);
    StepKeeps(x, i);
    assert SysNext(x, i).s == Restore(x.s, 0);
  }

  /** Eight branches hold all eight ids: restoring the oldest finds its id equal to
      the next one and gives none of them back. */
  lemma OldestOfAllIsLost() returns (ins: seq<Inputs>, i: Inputs)
    ensures LegalRun(Reset(), ins) && Inv(Run(Reset(), ins)) && Legal(Run(Reset(), ins), i) && i.restoreValid
    ensures !SafeRestore(Run(Reset(), ins), i) && !Inv(SysNext(Run(Reset(), ins), i))
    ensures SysNext(Run(Reset(), ins), i).s.ckptCount == N_CKPT
  {
    var x;
    ins, x := BranchRun(N_CKPT);
    i := UndoTo(0);
    OldestIsLost(x, i);
  }
}
