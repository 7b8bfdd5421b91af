/** When the renamer takes a bundle, and which of its branches get a checkpoint. */
module RenameReady {
  import opened Rename
  import opened RenameProof
  import opened RenameRuns

  /** A valid branch that asks for a checkpoint. */
  function Asks(i: Slot): nat { if i.valid && i.isBranch && i.ckptTake then 1 else 0 }

  /** A bundle can be taken exactly when two registers are free, needed or not, and
      there are checkpoint ids for what is in flight and for its own branches. */
  lemma TakenIff(x: Sys, i: Inputs)
    requires Inv(x)
    ensures Ready(x.s, i) <==> |FreeList(x.s)| >= 2 && Ckpts(x.rob) + Asks(i.slot0) + Asks(i.slot1) <= 8
  {
  }

  lemma OneMore(rob: seq<InFlight>, i: Slot, o: SlotOut)
    requires i.valid
    ensures Ckpts(rob + [EntryOf(i, o)]) == Ckpts(rob) + Asks(i)
  {
    CkptsPushBack(rob, EntryOf(i, o));
  }

  /** A bundle that is taken holds one id more for each such branch, and enters the
      instructions in flight in order; one that is not taken changes nothing. */
  lemma TakenHolds(x: Sys, i: Inputs)
    requires Inv(x) && Legal(x, i) && !i.restoreValid
    ensures Ready(x.s, i) ==> Ckpts(RenameRuns.Front(x, i).rob) == Ckpts(x.rob) + Asks(i.slot0) + Asks(i.slot1)
    ensures !Ready(x.s, i) ==> RenameRuns.Front(x, i) == x
  {
    if Ready(x.s, i) {
      var y := AfterSlot(x, i.slot0);
      if i.slot0.valid { OneMore(x.rob, i.slot0, SlotView(x.s, i.slot0)); }
      if i.slot1.valid { OneMore(y.rob, i.slot1, SlotView(y.s, i.slot1)); }
    }
  }
}
