/** The two-wide register rename unit (sim/rename/rename_model.h): a rename map,
    a circular free list and checkpoints of both. */
module Rename {
  const NUM_PREGS: nat := 64
  const ARCH_REGS: nat := 32
  const N_CKPT: nat := 8
  const DEPTH: nat := 32

  type RegMap = seq<nat>

  /** One instruction offered to the renamer. */
  datatype Slot = Slot(valid: bool, rs1: nat, rs2: nat, rd: nat, isBranch: bool, ckptTake: bool) {
    predicate Ok() { rs1 < ARCH_REGS && rs2 < ARCH_REGS && rd < ARCH_REGS }
    predicate WantsReg() { valid && rd != 0 }
    predicate WantsCkpt() { valid && isBranch && ckptTake }
  }

  /** One retiring instruction: the register it displaced (0 for none) and
      whether it hands back a checkpoint id. */
  datatype Commit = Commit(valid: bool, prevPrd: nat, release: bool) {
    predicate Frees() { valid && prevPrd != 0 }
    predicate Releases() { valid && release }
  }

  datatype Inputs = Inputs(slot0: Slot, slot1: Slot, restoreValid: bool, restoreId: nat,
                           commit0: Commit, commit1: Commit) {
    /** Every field fits its wires. */
    predicate Ok() {
      slot0.Ok() && slot1.Ok() && restoreId < N_CKPT
    }
  }

  datatype SlotOut = SlotOut(prs1: nat, prs2: nat, prd: nat, prevPrd: nat, ckptId: nat)

  datatype Outputs = Outputs(ready: bool, freeCount: int, ckptFreeCount: int, out0: SlotOut, out1: SlotOut)

  datatype State = State(map_: RegMap, fl: seq<nat>, head: nat, tail: nat, count: int,
                         ckptMap: seq<RegMap>, ckptFlHead: seq<nat>, ckptHead: nat, ckptCount: int) {
    predicate Shape() {
      && |map_| == ARCH_REGS && |fl| == DEPTH && head < DEPTH && tail < DEPTH
      && |ckptMap| == N_CKPT && |ckptFlHead| == N_CKPT && ckptHead < N_CKPT
      && (forall i :: 0 <= i < N_CKPT ==> |ckptMap[i]| == ARCH_REGS)
      && (forall i :: 0 <= i < N_CKPT ==> ckptFlHead[i] < DEPTH)
    }
  }

  /** `x % DEPTH` for the sum or difference of two ring positions. */
  function ModDepth(x: int): (r: nat)
    requires -32 <= x < 64
    ensures r < DEPTH
  {
    if x < 0 then x + 32 else if x < 32 then x else x - 32
  }

  /** `x % N_CKPT` likewise. */
  function ModCkpt(x: int): (r: nat)
    requires -8 <= x < 16
    ensures r < N_CKPT
  {
    if x < 0 then x + 8 else if x < 8 then x else x - 8
  }

  lemma ResiduesAreExact(x: int)
    ensures -32 <= x < 64 ==> ModDepth(x) == x % 32
    ensures -8 <= x < 16 ==> ModCkpt(x) == x % 8
  {
  }

  function CkptsWanted(i0: Slot, i1: Slot): int {
    (if i0.WantsCkpt() then 1 else 0) + (if i1.WantsCkpt() then 1 else 0)
  }

  predicate Ready(s: State, x: Inputs) {
    s.count >= 2 && N_CKPT - s.ckptCount >= CkptsWanted(x.slot0, x.slot1)
  }

  function TakeReg(s: State, rd: nat): (r: State)
    requires s.Shape() && rd < ARCH_REGS
    ensures r.Shape()
  {
    s.(map_ := s.map_[rd := s.fl[s.head]], head := ModDepth(s.head + 1), count := s.count - 1)
  }

  function TakeCkpt(s: State): (r: State)
    requires s.Shape()
    ensures r.Shape()
  {
    s.(ckptMap := s.ckptMap[s.ckptHead := s.map_],
       ckptFlHead := s.ckptFlHead[s.ckptHead := s.head],
       ckptHead := ModCkpt(s.ckptHead + 1),
       ckptCount := s.ckptCount + 1)
  }

  function RenameSlot(s: State, i: Slot): (r: State)
    requires s.Shape() && i.Ok()
    ensures r.Shape()
  {
    var s1 := if i.WantsReg() then TakeReg(s, i.rd) else s;
    if i.WantsCkpt() then TakeCkpt(s1) else s1
  }

  /** What the instruction in a slot sees when it is renamed in state `s`. */
  function SlotView(s: State, i: Slot): SlotOut
    requires s.Shape() && i.Ok()
  {
    SlotOut(s.map_[i.rs1], s.map_[i.rs2], if i.WantsReg() then s.fl[s.head] else 0, s.map_[i.rd], s.ckptHead)
  }

  function Retire(s: State, c: Commit): (r: State)
    requires s.Shape()
    ensures r.Shape()
  {
    if !c.valid then s
    else
      var s1 := if c.prevPrd == 0 then s
                else s.(fl := s.fl[s.tail := c.prevPrd], tail := ModDepth(s.tail + 1), count := s.count + 1);
      s1.(ckptCount := s1.ckptCount - if c.release then 1 else 0)
  }

  function Restore(s: State, id: nat): (r: State)
    requires s.Shape() && id < N_CKPT
    ensures r.Shape()
  {
    s.(map_ := s.ckptMap[id],
       head := s.ckptFlHead[id],
       count := s.count + ModDepth(s.head - s.ckptFlHead[id]),
       ckptHead := id,
       ckptCount := s.ckptCount - ModCkpt(s.ckptHead - id))
  }

  /** The rename half of a cycle: undo to a checkpoint, or rename the two slots
      in order, or nothing when the bundle is held off. */
  function Front(s: State, x: Inputs): (r: State)
    requires s.Shape() && x.Ok()
    ensures r.Shape()
  {
    if x.restoreValid then Restore(s, x.restoreId)
    else if Ready(s, x) then RenameSlot(RenameSlot(s, x.slot0), x.slot1)
    else s
  }

  /** The meaning of one cycle, one instruction at a time. */
  function Next(s: State, x: Inputs): (r: State)
    requires s.Shape() && x.Ok()
    ensures r.Shape()
  {
    Retire(Retire(Front(s, x), x.commit0), x.commit1)
  }

  function Initial(): (r: State)
    ensures r.Shape()
  {
    var zero := seq(ARCH_REGS, i => 0);
    State(seq(ARCH_REGS, i requires 0 <= i => i), seq(DEPTH, i requires 0 <= i => ARCH_REGS + i), 0, 0, DEPTH,
          seq(N_CKPT, i => zero), seq(N_CKPT, i => 0), 0, 0)
  }

  /** The wires of a cycle: which requests are granted, and the two registers
      at the head of the free list. */
  datatype Wires = Wires(ready: bool, a0: bool, a1: bool, g0: bool, g1: bool, alloc0: nat, alloc1: nat)

  function WiresOf(s: State, x: Inputs): Wires
    requires s.Shape()
  {
    var go := Ready(s, x) && !x.restoreValid;
    var a0 := go && x.slot0.WantsReg();
    Wires(Ready(s, x), a0, go && x.slot1.WantsReg(), go && x.slot0.WantsCkpt(), go && x.slot1.WantsCkpt(),
          s.fl[s.head], s.fl[ModDepth(s.head + if a0 then 1 else 0)])
  }

  /** The registers the rename half writes, each as one expression over the
      registers before the edge. */
  function FrontEdge(s: State, x: Inputs): State
    requires s.Shape() && x.Ok()
  {
    var w := WiresOf(s, x);
    var h0 := ModDepth(s.head + if w.a0 then 1 else 0);
    var h1 := ModDepth(h0 + if w.a1 then 1 else 0);
    var k0 := ModCkpt(s.ckptHead + if w.g0 then 1 else 0);
    var m0 := if w.a0 then s.map_[x.slot0.rd := w.alloc0] else s.map_;
    var m1 := if w.a1 then m0[x.slot1.rd := w.alloc1] else m0;
    var maps0 := if w.g0 then s.ckptMap[s.ckptHead := m0] else s.ckptMap;
    var heads0 := if w.g0 then s.ckptFlHead[s.ckptHead := h0] else s.ckptFlHead;
    State(if x.restoreValid then s.ckptMap[x.restoreId] else m1,
          s.fl,
          if x.restoreValid then s.ckptFlHead[x.restoreId] else h1,
          s.tail,
          if x.restoreValid then s.count + ModDepth(s.head - s.ckptFlHead[x.restoreId])
          else s.count - (if w.a0 then 1 else 0) - (if w.a1 then 1 else 0),
          if w.g1 then maps0[k0 := m1] else maps0,
          if w.g1 then heads0[k0 := h1] else heads0,
          if x.restoreValid then x.restoreId else ModCkpt(k0 + if w.g1 then 1 else 0),
          if x.restoreValid then s.ckptCount - ModCkpt(s.ckptHead - x.restoreId)
          else s.ckptCount + (if w.g0 then 1 else 0) + (if w.g1 then 1 else 0))
  }

  /** The registers the retire half writes. */
  function RetireEdge(s: State, c0: Commit, c1: Commit): State
    requires s.Shape()
  {
    var f0, f1 := c0.Frees(), c1.Frees();
    var t0 := ModDepth(s.tail + if f0 then 1 else 0);
    var fl0 := if f0 then s.fl[s.tail := c0.prevPrd] else s.fl;
    s.(fl := if f1 then fl0[t0 := c1.prevPrd] else fl0,
       tail := ModDepth(s.tail + (if f0 then 1 else 0) + (if f1 then 1 else 0)),
       count := s.count + (if f0 then 1 else 0) + (if f1 then 1 else 0),
       ckptCount := s.ckptCount - (if c0.Releases() then 1 else 0) - (if c1.Releases() then 1 else 0))
  }

  /** What the second slot is told, read off the registers before the edge,
      whether or not the bundle is taken: the bypasses from the first slot do
      not wait for the grant, the register and the checkpoint id do. */
  function EdgeView1(s: State, x: Inputs): SlotOut
    requires s.Shape() && x.Ok()
  {
    var w, a0 := WiresOf(s, x), x.slot0.WantsReg();
    SlotOut(if a0 && x.slot1.rs1 == x.slot0.rd then w.alloc0 else s.map_[x.slot1.rs1],
            if a0 && x.slot1.rs2 == x.slot0.rd then w.alloc0 else s.map_[x.slot1.rs2],
            if x.slot1.WantsReg() then w.alloc1 else 0,
            if a0 && x.slot1.valid && x.slot1.rd == x.slot0.rd then w.alloc0 else s.map_[x.slot1.rd],
            ModCkpt(s.ckptHead + if w.g0 then 1 else 0))
  }

  /** When the bundle is taken, that is what renaming in order shows it. */
  lemma EdgeView1IsSlotView(s: State, x: Inputs)
    requires s.Shape() && x.Ok() && Ready(s, x) && !x.restoreValid && x.slot1.valid
    ensures EdgeView1(s, x) == SlotView(RenameSlot(s, x.slot0), x.slot1)
  {
  }

  lemma TakenMaps(s: State, x: Inputs)
    requires s.Shape() && x.Ok() && Ready(s, x) && !x.restoreValid
    ensures FrontEdge(s, x).map_ == Front(s, x).map_ && FrontEdge(s, x).ckptMap == Front(s, x).ckptMap
  {
  }

  lemma TakenHeads(s: State, x: Inputs)
    requires s.Shape() && x.Ok() && Ready(s, x) && !x.restoreValid
    ensures FrontEdge(s, x).head == Front(s, x).head && FrontEdge(s, x).ckptFlHead == Front(s, x).ckptFlHead
    ensures FrontEdge(s, x).fl == Front(s, x).fl && FrontEdge(s, x).tail == Front(s, x).tail
  {
  }

  lemma TakenCounts(s: State, x: Inputs)
    requires s.Shape() && x.Ok() && Ready(s, x) && !x.restoreValid
    ensures FrontEdge(s, x).count == Front(s, x).count
    ensures FrontEdge(s, x).ckptHead == Front(s, x).ckptHead && FrontEdge(s, x).ckptCount == Front(s, x).ckptCount
  {
  }

  lemma NotTaken(s: State, x: Inputs)
    requires s.Shape() && x.Ok() && (x.restoreValid || !Ready(s, x))
    ensures FrontEdge(s, x) == Front(s, x)
  {
  }

  /** Both renames at once are the two renames in order. */
  lemma FrontEdgeIsFront(s: State, x: Inputs)
    requires s.Shape() && x.Ok()
    ensures FrontEdge(s, x) == Front(s, x)
  {
    if x.restoreValid || !Ready(s, x) {
      NotTaken(s, x);
    } else {
      TakenMaps(s, x);
      TakenHeads(s, x);
      TakenCounts(s, x);
    }
  }

  /** Both retirements at once are the two retirements in order. */
  lemma RetireEdgeIsRetire(s: State, c0: Commit, c1: Commit)
    requires s.Shape()
    ensures RetireEdge(s, c0, c1) == Retire(Retire(s, c0), c1)
  {
  }

  /** The register updates of one edge, both halves at once. */
  function Edge(s: State, x: Inputs): State
    requires s.Shape() && x.Ok()
  {
    FrontEdgeIsFront(s, x);
    RetireEdge(FrontEdge(s, x), x.commit0, x.commit1)
  }

  lemma EdgeIsNext(s: State, x: Inputs)
    requires s.Shape() && x.Ok()
    ensures Edge(s, x) == Next(s, x)
  {
    FrontEdgeIsFront(s, x);
    RetireEdgeIsRetire(Front(s, x), x.commit0, x.commit1);
  }

  /** C++ remainder: rounds the quotient toward zero. */
  function CRem(a: int, d: int): int
    requires d > 0
  {
    if a >= 0 then a % d else -((-a) % d)
  }

  lemma TwiceRem32(delta: int)
    requires -32 < delta < 32
    ensures CRem(CRem(delta, 32) + 32, 32) == ModDepth(delta)
  {
    assert CRem(delta, 32) == delta;
  }

  lemma TwiceRem8(delta: int)
    requires -8 < delta < 8
    ensures CRem(CRem(delta, 8) + 8, 8) == ModCkpt(delta)
  {
    assert CRem(delta, 8) == delta;
  }

  /** The code takes the remainder twice to get the residue of a difference of
      two ring positions. */
  method Residue(delta: int, d: nat) returns (r: nat)
    requires d == 32 || d == 8
    requires 0 - d < delta < d
    ensures d == 32 ==> r == ModDepth(delta)
    ensures d == 8 ==> r == ModCkpt(delta)
  {
    if d == 32 {
      TwiceRem32(delta);
    } else {
      TwiceRem8(delta);
    }
    r := CRem(CRem(delta, d) + d, d);
  }

  /** The golden model's object: `Step` is one clock edge. */
  class RenameModel {
    var map_: RegMap
    var ckptMap: seq<RegMap>
    var fl: seq<nat>
    var head: nat
    var tail: nat
    var count: int
    var ckptFlHead: seq<nat>
    var ckptHead: nat
    var ckptCount: int

    function View(): State
      reads this
    {
      State(map_, fl, head, tail, count, ckptMap, ckptFlHead, ckptHead, ckptCount)
    }

    constructor ()
      ensures View() == Initial()
    {
      map_ := seq(ARCH_REGS, i requires 0 <= i => i);
      var zero := seq(ARCH_REGS, i => 0);
      ckptMap := seq(N_CKPT, i => zero);
      fl := seq(DEPTH, i requires 0 <= i => ARCH_REGS + i);
      head, tail, count := 0, 0, DEPTH;
      ckptFlHead := seq(N_CKPT, i => 0);
      ckptHead, ckptCount := 0, 0;
    }

    /** The cycle's combinational wires. */
    method Decide(x: Inputs) returns (w: Wires)
      requires View().Shape()
      ensures w == WiresOf(View(), x)
    {
      var needsPrd0 := x.slot0.valid && x.slot0.rd != 0;
      var needsPrd1 := x.slot1.valid && x.slot1.rd != 0;
      var wantCkpt0 := x.slot0.valid && x.slot0.isBranch && x.slot0.ckptTake;
      var wantCkpt1 := x.slot1.valid && x.slot1.isBranch && x.slot1.ckptTake;
      var neededCkpts := (if wantCkpt0 then 1 else 0) + (if wantCkpt1 then 1 else 0);

      var pregOk := count >= 2;
      var ckptOk := N_CKPT - ckptCount >= neededCkpts;
      var ready := pregOk && ckptOk;

      var doA0 := needsPrd0 && ready && !x.restoreValid && count >= 1;
      var doA1 := needsPrd1 && ready && !x.restoreValid && count >= (if doA0 then 2 else 1);
      var idx1 := ModDepth(head + if doA0 then 1 else 0);
      w := Wires(ready, doA0, doA1, wantCkpt0 && ready && !x.restoreValid, wantCkpt1 && ready && !x.restoreValid,
                 fl[head], fl[idx1]);
    }

    /** The outputs, read from the registers before the edge. */
    method Drive(x: Inputs, w: Wires) returns (o: Outputs)
      requires View().Shape() && x.Ok() && w == WiresOf(View(), x)
      ensures o.ready == w.ready && o.freeCount == count && o.ckptFreeCount == N_CKPT - ckptCount
      ensures o.out0 == SlotView(View(), x.slot0)
      ensures o.out1 == EdgeView1(View(), x)
    {
      var needsPrd0 := x.slot0.valid && x.slot0.rd != 0;
      var needsPrd1 := x.slot1.valid && x.slot1.rd != 0;
      var prs1 := if needsPrd0 && x.slot1.rs1 == x.slot0.rd then w.alloc0 else map_[x.slot1.rs1];
      var prs2 := if needsPrd0 && x.slot1.rs2 == x.slot0.rd then w.alloc0 else map_[x.slot1.rs2];
      var prd0 := if needsPrd0 then w.alloc0 else 0;
      var prd1 := if needsPrd1 then w.alloc1 else 0;
      var sameRdHazard := needsPrd0 && x.slot1.valid && x.slot1.rd == x.slot0.rd;
      var prevPrd1 := if sameRdHazard then w.alloc0 else map_[x.slot1.rd];
      o := Outputs(w.ready, count, N_CKPT - ckptCount,
                   SlotOut(map_[x.slot0.rs1], map_[x.slot0.rs2], prd0, map_[x.slot0.rd], ckptHead),
                   SlotOut(prs1, prs2, prd1, prevPrd1, ModCkpt(ckptHead + if w.g0 then 1 else 0)));
    }

    method FreeCommitted(c0: Commit, c1: Commit)
      requires View().Shape()
      modifies this`fl, this`tail
      ensures fl == RetireEdge(old(View()), c0, c1).fl
      ensures tail == RetireEdge(old(View()), c0, c1).tail
    {
      var doF0 := c0.valid && c0.prevPrd != 0;
      var doF1 := c1.valid && c1.prevPrd != 0;
      var fidx0 := tail;
      var fidx1 := ModDepth(tail + if doF0 then 1 else 0);
      if doF0 { fl := fl[fidx0 := c0.prevPrd]; }
      if doF1 { fl := fl[fidx1 := c1.prevPrd]; }
      tail := ModDepth(tail + (if doF0 then 1 else 0) + (if doF1 then 1 else 0));
    }

    method MoveHead(ghost s: State, x: Inputs, w: Wires) returns (headAfter0: nat, headAfter1: nat)
      requires s.Shape() && x.Ok() && w == WiresOf(s, x)
      requires head == s.head && count == s.count && ckptFlHead == s.ckptFlHead
      modifies this`head, this`count
      ensures headAfter0 == ModDepth(s.head + if w.a0 then 1 else 0)
      ensures headAfter1 == ModDepth(headAfter0 + if w.a1 then 1 else 0)
      ensures head == FrontEdge(s, x).head
      ensures count == FrontEdge(s, x).count
                     + (if x.commit0.Frees() then 1 else 0) + (if x.commit1.Frees() then 1 else 0)
    {
      var doF0 := x.commit0.valid && x.commit0.prevPrd != 0;
      var doF1 := x.commit1.valid && x.commit1.prevPrd != 0;
      headAfter0 := ModDepth(head + if w.a0 then 1 else 0);
      headAfter1 := ModDepth(headAfter0 + if w.a1 then 1 else 0);
      var countAfterFrees := count + (if doF0 then 1 else 0) + (if doF1 then 1 else 0);
      if x.restoreValid {
        var undoneAllocs := Residue(head - ckptFlHead[x.restoreId], DEPTH);
        head := ckptFlHead[x.restoreId];
        count := countAfterFrees + undoneAllocs;
      } else {
        head := headAfter1;
        count := countAfterFrees - (if w.a0 then 1 else 0) - (if w.a1 then 1 else 0);
      }
    }

    method SaveHeads(ghost s: State, x: Inputs, w: Wires, headAfter0: nat, headAfter1: nat)
      requires s.Shape() && x.Ok() && w == WiresOf(s, x) && ckptFlHead == s.ckptFlHead && ckptHead == s.ckptHead
      requires headAfter0 == ModDepth(s.head + if w.a0 then 1 else 0)
      requires headAfter1 == ModDepth(headAfter0 + if w.a1 then 1 else 0)
      modifies this`ckptFlHead
      ensures ckptFlHead == FrontEdge(s, x).ckptFlHead
    {
      var id1 := ModCkpt(ckptHead + if w.g0 then 1 else 0);
      if w.g0 { ckptFlHead := ckptFlHead[ckptHead := headAfter0]; }
      if w.g1 { ckptFlHead := ckptFlHead[id1 := headAfter1]; }
    }

    method UpdateMap(ghost s: State, x: Inputs, w: Wires)
      requires s.Shape() && x.Ok() && w == WiresOf(s, x)
      requires map_ == s.map_ && ckptMap == s.ckptMap && ckptHead == s.ckptHead
      modifies this`map_, this`ckptMap
      ensures map_ == FrontEdge(s, x).map_ && ckptMap == FrontEdge(s, x).ckptMap
    {
      var nxt0 := if w.ready && x.slot0.valid && x.slot0.rd != 0 then map_[x.slot0.rd := w.alloc0] else map_;
      var nxt1 := if w.ready && x.slot1.valid && x.slot1.rd != 0 then nxt0[x.slot1.rd := w.alloc1] else nxt0;
      var id1 := ModCkpt(ckptHead + if w.g0 then 1 else 0);
      if x.restoreValid {
        map_ := ckptMap[x.restoreId];
      } else {
        map_ := nxt1;
        if w.g0 { ckptMap := ckptMap[ckptHead := nxt0]; }
        if w.g1 { ckptMap := ckptMap[id1 := nxt1]; }
      }
    }

    method UpdateCkptIds(ghost s: State, x: Inputs, w: Wires)
      requires s.Shape() && x.Ok() && w == WiresOf(s, x)
      requires ckptHead == s.ckptHead && ckptCount == s.ckptCount
      modifies this`ckptHead, this`ckptCount
      ensures ckptHead == FrontEdge(s, x).ckptHead
      ensures ckptCount == FrontEdge(s, x).ckptCount
                         - (if x.commit0.Releases() then 1 else 0) - (if x.commit1.Releases() then 1 else 0)
    {
      var releaseCount := (if x.commit0.valid && x.commit0.release then 1 else 0)
                        + (if x.commit1.valid && x.commit1.release then 1 else 0);
      var countAfterRelease := ckptCount - releaseCount;
      var ckptHeadAfter0 := ModCkpt(ckptHead + if w.g0 then 1 else 0);
      var ckptHeadAfter1 := ModCkpt(ckptHeadAfter0 + if w.g1 then 1 else 0);
      if x.restoreValid {
        var undoneCkpts := Residue(ckptHead - x.restoreId, N_CKPT);
        ckptHead := x.restoreId;
        ckptCount := countAfterRelease - undoneCkpts;
      } else {
        ckptHead := ckptHeadAfter1;
        ckptCount := countAfterRelease + (if w.g0 then 1 else 0) + (if w.g1 then 1 else 0);
      }
    }

    /** The registers after the edge: the free list, the map and the checkpoint
        ids, in the order of the model's code, all from the registers and wires
        before the edge. */
    method Update(ghost s: State, x: Inputs, w: Wires)
      requires s == View() && s.Shape() && x.Ok() && w == WiresOf(s, x)
      modifies this
      ensures View() == Edge(s, x)
    {
      FreeCommitted(x.commit0, x.commit1);
      var headAfter0, headAfter1 := MoveHead(s, x, w);
      SaveHeads(s, x, w, headAfter0, headAfter1);
      UpdateMap(s, x, w);
      UpdateCkptIds(s, x, w);
    }

    /** One clock edge; the outcome is the cycle's meaning one instruction at a
        time. */
    method Step(x: Inputs) returns (o: Outputs)
      requires View().Shape() && x.Ok()
      modifies this
      ensures View() == Next(old(View()), x)
      ensures o.ready == Ready(old(View()), x)
      ensures o.freeCount == old(count) && o.ckptFreeCount == N_CKPT - old(ckptCount)
      ensures o.out0 == SlotView(old(View()), x.slot0)
      ensures o.out1 == EdgeView1(old(View()), x)
      ensures o.ready && !x.restoreValid && x.slot1.valid ==>
        o.out1 == SlotView(RenameSlot(old(View()), x.slot0), x.slot1)
    {
      ghost var s := View();
      var w := Decide(x);
      o := Drive(x, w);
      if w.ready && !x.restoreValid && x.slot1.valid { EdgeView1IsSlotView(s, x); }
      EdgeIsNext(s, x);
      Update(s, x, w);
    }

    /** The free list from its head, read out by walking the ring. */
    method FreeListContents() returns (v: seq<nat>)
      requires View().Shape() && 0 <= count <= DEPTH
      ensures |v| == count
      ensures forall i :: 0 <= i < count ==> v[i] == fl[ModDepth(head + i)]
    {
      v := [];
      for i := 0 to count
        invariant |v| == i
        invariant forall k :: 0 <= k < i ==> v[k] == fl[ModDepth(head + k)]
      {
        v := v + [fl[ModDepth(head + i)]];
      }
    }
  }
}
