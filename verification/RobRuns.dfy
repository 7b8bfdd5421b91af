/** Whole runs of the reorder buffer: what commits, in which order, and what
    never does. */
module RobRuns {
  import opened Ring
  import opened Rob

  // ---------------------------------------------------------------- allocation indices

  /** The slot announced to request `i`. */
  function AllocIdx(q: Queue, i: nat): nat
    requires q.Shape() && |q.items| + i < q.depth
  {
    Wrap(q.head + (|q.items| + i), q.depth)
  }

  lemma {:induction false} NewItemsAt(allocs: seq<AllocReq>, i: nat)
    requires i < |allocs| && allocs[i].valid
    ensures var p := |NewItems(allocs[..i])|; p < |NewItems(allocs)| && NewItems(allocs)[p] == Entered(allocs[i])
    decreases |allocs|
  {
    var n := |allocs| - 1;
    if i < n {
      NewItemsAt(allocs[..n], i);
      assert allocs[..n][..i] == allocs[..i];
    }
  }

  lemma {:induction false} NewItemsFull(allocs: seq<AllocReq>)
    ensures |NewItems(allocs)| == |allocs| <==> forall j :: 0 <= j < |allocs| ==> allocs[j].valid
  {
    if allocs != [] {
      var n := |allocs| - 1;
      NewItemsFull(allocs[..n]);
      assert forall j :: 0 <= j < n ==> allocs[..n][j] == allocs[j];
    }
  }

  /** An accepted request is in the slot announced to it exactly when every
      request before it is valid too. */
  lemma AllocIdxIff(q: Queue, allocs: seq<AllocReq>, i: nat)
    requires q.Shape() && |allocs| <= q.width && AllocReady(q) && !FlushOf(q).valid && i < |allocs| && allocs[i].valid
    ensures var m := Moved(q, allocs);
            var p := |q.items| - Commits(q.items, q.width) + |NewItems(allocs[..i])|;
            && p < |m.items| && m.items[p] == Entered(allocs[i])
            && (Wrap(m.head + p, q.depth) == AllocIdx(q, i) <==> forall j :: 0 <= j < i ==> allocs[j].valid)
  {
    NewItemsAt(allocs, i);
    NewItemsFull(allocs[..i]);
    assert forall j :: 0 <= j < i ==> allocs[..i][j] == allocs[j];
  }

  /** Behind a hole they part: the valid request sits in slot 0, slot 1 was
      announced. */
  lemma HoleMovesRequest() returns (q: Queue, allocs: seq<AllocReq>)
    ensures q.Shape() && |allocs| == q.width == 2 && AllocReady(q) && !FlushOf(q).valid
    ensures !allocs[0].valid && allocs[1].valid
    ensures var m := Moved(q, allocs);
            m.items == [Entered(allocs[1])] && Wrap(m.head, q.depth) == 0 && AllocIdx(q, 1) == 1
  {
    var none, one := AllocReq(false, 0, 0, 0, 0, false, false), AllocReq(true, 4, 1, 33, 1, false, false);
    q, allocs := Queue(4, 2, 0, []), [none, one];
    assert [none, one][..1] == [none] && [none][..0] == [];
    assert NewItems([none]) == [];
  }

  // ---------------------------------------------------------------- runs

  /** The queue with a number for every entry, in allocation order, and what has
      become of them. */
  datatype Log = Log(q: Queue, ids: seq<nat>, next: nat, committed: seq<nat>, squashed: set<nat>,
                     results: map<nat, WbReq>)

  /** The wires of a cycle; `of[i]` is the entry writeback `i` is meant for. */
  datatype In = In(allocs: seq<AllocReq>, wbs: seq<WbReq>, of: seq<nat>)

  function Elements(s: seq<nat>): set<nat> { set x | x in s }

  function Numbers(from: nat, n: nat): (s: seq<nat>)
    ensures |s| == n
    ensures forall k :: 0 <= k < n ==> s[k] == from + k
  {
    seq(n, k => from + k)
  }

  predicate WiresOk(g: Log, x: In) {
    |x.allocs| <= g.q.width && WbsOk(x.wbs, g.q.depth) && |x.of| == |x.wbs|
  }

  function IdsMoved(g: Log, x: In): seq<nat>
    requires g.q.Shape() && |g.ids| == |g.q.items| && WiresOk(g, x)
  {
    if FlushOf(g.q).valid then []
    else g.ids[Commits(g.q.items, g.q.width)..]
         + Numbers(g.next, if AllocReady(g.q) then |NewItems(x.allocs)| else 0)
  }

  /** A writeback names the slot of the entry it is meant for; if that entry is
      no longer in flight, the slot is free. */
  predicate WbMeant(ids: seq<nat>, head: nat, depth: nat, wbs: seq<WbReq>, of: seq<nat>)
    requires head < depth && WbsOk(wbs, depth) && |of| == |wbs|
  {
    forall i :: 0 <= i < |wbs| && wbs[i].valid ==>
      var k := Place(wbs[i].robIdx, head, depth);
      if k < |ids| then ids[k] == of[i] else of[i] !in ids
  }

  /** The one rule for a cycle. */
  predicate Legal(g: Log, x: In)
    requires g.q.Shape() && |g.ids| == |g.q.items|
  {
    WiresOk(g, x) && var m := Moved(g.q, x.allocs); WbMeant(IdsMoved(g, x), m.head, m.depth, x.wbs, x.of)
  }

  function Record(r: map<nat, WbReq>, wbs: seq<WbReq>, of: seq<nat>): map<nat, WbReq>
    requires |of| == |wbs|
  {
    if wbs == [] then r
    else
      var n := |wbs| - 1;
      var before := Record(r, wbs[..n], of[..n]);
      if wbs[n].valid then before[of[n] := wbs[n]] else before
  }

  function LogNext(g: Log, x: In): Log
    requires g.q.Shape() && |g.ids| == |g.q.items| && WiresOk(g, x)
  {
    var n := Commits(g.q.items, g.q.width);
    var f := FlushOf(g.q);
    var ids := IdsMoved(g, x);
    Log(Next(g.q, x.allocs, x.wbs), ids,
        if f.valid then g.next else g.next + |ids| - (|g.ids| - n),
        g.committed + g.ids[..n],
        if f.valid then g.squashed + Elements(g.ids[n..]) else g.squashed,
        if f.full then g.results else Record(g.results, x.wbs, x.of))
  }

  // ---------------------------------------------------------------- invariant

  predicate Increasing(s: seq<nat>) { forall i, j :: 0 <= i < j < |s| ==> s[i] < s[j] }

  /** Everything allocated has committed, is in flight or was squashed, and never
      two of these; commits are in allocation order. */
  predicate Ordered(g: Log) {
    && Increasing(g.committed + g.ids)
    && (forall k :: 0 <= k < |g.committed| ==> g.committed[k] < g.next && g.committed[k] !in g.squashed)
    && (forall k :: 0 <= k < |g.ids| ==> g.ids[k] < g.next && g.ids[k] !in g.squashed)
    && (forall id :: id in g.squashed ==> id < g.next)
    && (forall id: nat :: id < g.next ==> id in g.committed || id in g.ids || id in g.squashed)
  }

  predicate Agrees(e: Entry, w: WbReq) {
    e.exception == w.exception && e.mispredict == w.mispredict && e.redirectPc == w.redirectPc
  }

  /** An entry is done only by a writeback meant for it, and carries the flags of
      the last one. */
  predicate DoneRight(items: seq<Entry>, ids: seq<nat>, r: map<nat, WbReq>) {
    |ids| == |items| && forall k :: 0 <= k < |ids| ==> items[k].done ==> ids[k] in r && Agrees(items[k], r[ids[k]])
  }

  predicate Inv(g: Log) {
    && g.q.Shape() && Ordered(g) && DoneRight(g.q.items, g.ids, g.results)
    && forall k :: 0 <= k < |g.committed| ==> g.committed[k] in g.results
  }

  lemma NumbersContinue(s: seq<nat>, next: nat, m: nat)
    requires Increasing(s) && forall i :: 0 <= i < |s| ==> s[i] < next
    ensures Increasing(s + Numbers(next, m))
  {
  }

  lemma PrefixIncreasing(s: seq<nat>, n: nat)
    requires Increasing(s) && n <= |s|
    ensures Increasing(s[..n])
  {
  }

  lemma AppendedIncreasing(c: seq<nat>, ids: seq<nat>, n: nat, next: nat, m: nat)
    requires n <= |ids| && Increasing(c + ids) && forall i :: 0 <= i < |c + ids| ==> (c + ids)[i] < next
    ensures Increasing(c + ids[..n]) && Increasing((c + ids[..n]) + (ids[n..] + Numbers(next, m)))
  {
    PrefixIncreasing(c + ids, |c| + n);
    assert c + ids[..n] == (c + ids)[..|c| + n];
    NumbersContinue(c + ids, next, m);
    assert (c + ids[..n]) + (ids[n..] + Numbers(next, m)) == (c + ids) + Numbers(next, m);
  }

  lemma IncreasingKept(g: Log, x: In)
    requires g.q.Shape() && |g.ids| == |g.q.items| && WiresOk(g, x) && Ordered(g)
    ensures var h := LogNext(g, x); Increasing(h.committed + h.ids)
  {
    var n := Commits(g.q.items, g.q.width);
    AppendedIncreasing(g.committed, g.ids, n, g.next, if AllocReady(g.q) then |NewItems(x.allocs)| else 0);
    assert g.committed + g.ids[..n] + [] == g.committed + g.ids[..n];
  }

  /** What a flush squashes is younger than everything committed. */
  lemma SquashedApart(g: Log, x: In)
    requires g.q.Shape() && |g.ids| == |g.q.items| && WiresOk(g, x) && Ordered(g)
    ensures var h := LogNext(g, x);
            && (forall k :: 0 <= k < |h.committed| ==> h.committed[k] < h.next && h.committed[k] !in h.squashed)
            && (forall k :: 0 <= k < |h.ids| ==> h.ids[k] < h.next && h.ids[k] !in h.squashed)
            && (forall id :: id in h.squashed ==> id < h.next)
  {
    var h := LogNext(g, x);
    var n := Commits(g.q.items, g.q.width);
    var all := g.committed + g.ids;
    var c := |g.committed|;
    if FlushOf(g.q).valid {
      forall k | 0 <= k < |h.committed|
        ensures h.committed[k] < h.next && h.committed[k] !in h.squashed
      {
        assert h.committed[k] == all[k];
        forall j | n <= j < |g.ids|
          ensures g.ids[j] != all[k]
        {
          assert g.ids[j] == all[c + j];
        }
      }
    } else {
      assert forall k :: 0 <= k < |h.committed| ==> h.committed[k] == all[k];
    }
  }

  lemma OrderedKept(g: Log, x: In)
    requires g.q.Shape() && |g.ids| == |g.q.items| && WiresOk(g, x) && Ordered(g)
    ensures Ordered(LogNext(g, x))
  {
    IncreasingKept(g, x);
    SquashedApart(g, x);
    KnownKept(g, x);
  }

  /** Nothing allocated gets lost. */
  lemma KnownKept(g: Log, x: In)
    requires g.q.Shape() && |g.ids| == |g.q.items| && WiresOk(g, x) && Ordered(g)
    ensures var h := LogNext(g, x);
            forall id: nat :: id < h.next ==> id in h.committed || id in h.ids || id in h.squashed
  {
    var h := LogNext(g, x);
    var n := Commits(g.q.items, g.q.width);
    assert g.ids == g.ids[..n] + g.ids[n..];
    forall id: nat | id < h.next
      ensures id in h.committed || id in h.ids || id in h.squashed
    {
      if id >= g.next {
        assert h.ids[|g.ids| - n + (id - g.next)] == id;
      }
    }
  }

  lemma MovedRight(g: Log, x: In)
    requires g.q.Shape() && DoneRight(g.q.items, g.ids, g.results) && WiresOk(g, x)
    ensures DoneRight(Moved(g.q, x.allocs).items, IdsMoved(g, x), g.results)
  {
  }

  predicate Distinct(s: seq<nat>) { forall i, j :: 0 <= i < j < |s| ==> s[i] != s[j] }

  lemma WriteOneRight(items: seq<Entry>, ids: seq<nat>, r: map<nat, WbReq>, head: nat, depth: nat, w: WbReq, id: nat)
    requires head < depth && w.robIdx < depth && Distinct(ids) && DoneRight(items, ids, r) && w.valid
    requires var k := Place(w.robIdx, head, depth); if k < |ids| then ids[k] == id else id !in ids
    ensures DoneRight(WriteOne(items, head, depth, w), ids, r[id := w])
  {
  }

  lemma {:induction false} WrittenRight(items: seq<Entry>, ids: seq<nat>, r: map<nat, WbReq>, head: nat, depth: nat,
                                        wbs: seq<WbReq>, of: seq<nat>)
    requires head < depth && WbsOk(wbs, depth) && Distinct(ids) && DoneRight(items, ids, r)
    requires |of| == |wbs| && WbMeant(ids, head, depth, wbs, of)
    ensures DoneRight(Written(items, head, depth, wbs), ids, Record(r, wbs, of))
    ensures r.Keys <= Record(r, wbs, of).Keys
    decreases |wbs|
  {
    if wbs != [] {
      var n := |wbs| - 1;
      forall i | 0 <= i < n && wbs[..n][i].valid
        ensures var k := Place(wbs[..n][i].robIdx, head, depth);
                if k < |ids| then ids[k] == of[..n][i] else of[..n][i] !in ids
      {
        assert wbs[..n][i] == wbs[i] && of[..n][i] == of[i];
      }
      WrittenRight(items, ids, r, head, depth, wbs[..n], of[..n]);
      if wbs[n].valid {
        WriteOneRight(Written(items, head, depth, wbs[..n]), ids, Record(r, wbs[..n], of[..n]), head, depth,
                      wbs[n], of[n]);
      }
    }
  }

  lemma IdsDistinct(g: Log)
    requires Increasing(g.committed + g.ids)
    ensures Distinct(g.ids)
  {
    forall i, j | 0 <= i < j < |g.ids|
      ensures g.ids[i] != g.ids[j]
    {
      assert g.ids[i] == (g.committed + g.ids)[|g.committed| + i];
      assert g.ids[j] == (g.committed + g.ids)[|g.committed| + j];
    }
  }

  lemma ResultsKept(g: Log, x: In)
    requires Inv(g) && Legal(g, x)
    ensures var h := LogNext(g, x);
            DoneRight(h.q.items, h.ids, h.results) && g.results.Keys <= h.results.Keys
  {
    var m := Moved(g.q, x.allocs);
    var ids := IdsMoved(g, x);
    MovedRight(g, x);
    if !FlushOf(g.q).full {
      OrderedKept(g, x);
      IdsDistinct(LogNext(g, x));
      WrittenRight(m.items, ids, g.results, m.head, m.depth, x.wbs, x.of);
    }
  }

  /** What commits was done, so its result had come. */
  lemma CommittedKept(g: Log, x: In, r: map<nat, WbReq>)
    requires g.q.Shape() && WiresOk(g, x) && DoneRight(g.q.items, g.ids, g.results) && g.results.Keys <= r.Keys
    requires forall k :: 0 <= k < |g.committed| ==> g.committed[k] in g.results
    ensures forall k :: 0 <= k < |LogNext(g, x).committed| ==> LogNext(g, x).committed[k] in r
  {
    var n := Commits(g.q.items, g.q.width);
    forall k | 0 <= k < n
      ensures g.ids[k] in r
    {
      assert g.q.items[k].done;
    }
    AllIn(g.committed, g.ids[..n], r);
  }

  lemma AllIn(a: seq<nat>, b: seq<nat>, r: map<nat, WbReq>)
    requires forall k :: 0 <= k < |a| ==> a[k] in r
    requires forall k :: 0 <= k < |b| ==> b[k] in r
    ensures forall k :: 0 <= k < |a + b| ==> (a + b)[k] in r
  {
  }

  /** Every legal cycle keeps the invariant. */
  lemma StepKeeps(g: Log, x: In)
    requires Inv(g) && Legal(g, x)
    ensures Inv(LogNext(g, x))
  {
    NextShape(g.q, x.allocs, x.wbs);
    OrderedKept(g, x);
    ResultsKept(g, x);
    CommittedKept(g, x, LogNext(g, x).results);
  }

  // ---------------------------------------------------------------- whole runs

  /** The logs a legal run goes through, from an empty buffer. */
  predicate Trace(gs: seq<Log>, ins: seq<In>) {
    && |gs| == |ins| + 1
    && gs[0].q.Shape() && gs[0].q.items == [] && gs[0].ids == [] && gs[0].next == 0
    && gs[0].committed == [] && gs[0].squashed == {}
    && forall c :: 0 <= c < |ins| ==>
         && gs[c].q.Shape() && |gs[c].ids| == |gs[c].q.items| && Legal(gs[c], ins[c])
         && gs[c + 1] == LogNext(gs[c], ins[c])
  }

  lemma {:induction false} TraceKeeps(gs: seq<Log>, ins: seq<In>, c: nat)
    requires Trace(gs, ins) && c < |gs|
    ensures Inv(gs[c])
    decreases c
  {
    if c > 0 {
      TraceKeeps(gs, ins, c - 1);
      StepKeeps(gs[c - 1], ins[c - 1]);
    }
  }

  lemma {:induction false} SquashedStays(gs: seq<Log>, ins: seq<In>, c: nat, d: nat)
    requires Trace(gs, ins) && c <= d < |gs|
    ensures gs[c].squashed <= gs[d].squashed
    decreases d
  {
    if c < d {
      SquashedStays(gs, ins, c, d - 1);
      assert gs[d] == LogNext(gs[d - 1], ins[d - 1]);
    }
  }

  lemma OrderedMeans(g: Log)
    requires Increasing(g.committed + g.ids)
    ensures Increasing(g.committed)
    ensures forall k :: 0 <= k < |g.committed| ==> g.committed[k] !in g.ids
  {
    var all := g.committed + g.ids;
    PrefixIncreasing(all, |g.committed|);
    assert all[..|g.committed|] == g.committed;
    forall k, j | 0 <= k < |g.committed| && 0 <= j < |g.ids|
      ensures g.committed[k] != g.ids[j]
    {
      assert all[k] < all[|g.committed| + j];
    }
  }

  /** In every run entries commit at most once and in allocation order, only once
      a writeback meant for them has come, and every entry ever allocated has
      committed, is in flight or was squashed. */
  lemma CommitsInOrder(gs: seq<Log>, ins: seq<In>, c: nat)
    requires Trace(gs, ins) && c < |gs|
    ensures Increasing(gs[c].committed)
    ensures forall k :: 0 <= k < |gs[c].committed| ==> gs[c].committed[k] in gs[c].results
    ensures forall id: nat :: id < gs[c].next ==> id in gs[c].committed || id in gs[c].ids || id in gs[c].squashed
    ensures forall k :: 0 <= k < |gs[c].committed| ==>
      gs[c].committed[k] !in gs[c].squashed && gs[c].committed[k] !in gs[c].ids
  {
    TraceKeeps(gs, ins, c);
    OrderedMeans(gs[c]);
  }

  lemma TraceStep(gs: seq<Log>, ins: seq<In>, c: nat)
    requires Trace(gs, ins) && c < |ins|
    ensures gs[c].q.Shape() && |gs[c].ids| == |gs[c].q.items| && WiresOk(gs[c], ins[c])
    ensures gs[c + 1] == LogNext(gs[c], ins[c])
  {
  }

  lemma FlushSquashes(g: Log, x: In, k: nat)
    requires g.q.Shape() && |g.ids| == |g.q.items| && WiresOk(g, x) && FlushOf(g.q).valid
    requires Commits(g.q.items, g.q.width) <= k < |g.ids|
    ensures g.ids[k] in LogNext(g, x).squashed
  {
    var n := Commits(g.q.items, g.q.width);
    assert g.ids[n..][k - n] == g.ids[k];
  }

  lemma SquashedIsNotCommitted(g: Log, id: nat)
    requires Ordered(g) && id in g.squashed
    ensures id !in g.committed
  {
  }

  /** Whatever is in flight behind an entry that commits with an exception or a
      misprediction never commits, in no later cycle of the run. */
  lemma FlushedNeverCommits(gs: seq<Log>, ins: seq<In>, c: nat, d: nat, k: nat)
    requires Trace(gs, ins) && c < d < |gs| && gs[c].q.Shape() && FlushOf(gs[c].q).valid
    requires Commits(gs[c].q.items, gs[c].q.width) <= k < |gs[c].ids|
    ensures gs[c].ids[k] !in gs[d].committed
  {
    TraceStep(gs, ins, c);
    FlushSquashes(gs[c], ins[c], k);
    SquashedStays(gs, ins, c + 1, d);
    TraceKeeps(gs, ins, d);
    SquashedIsNotCommitted(gs[d], gs[c].ids[k]);
  }
}
