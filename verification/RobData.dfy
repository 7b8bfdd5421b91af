/** What a commit says: the fields of the request that was allocated under the
    same number, and the result that last came for it. */
module RobData {
  import opened Ring
  import opened Rob
  import opened RobRuns

  /** How many of the requests are valid. */
  function Valids(allocs: seq<AllocReq>): (n: nat)
    ensures n <= |allocs|
  {
    if allocs == [] then 0 else Valids(allocs[..|allocs| - 1]) + if allocs[|allocs| - 1].valid then 1 else 0
  }

  /** The requests by entry number, the valid ones numbered from `next` on. */
  function Filed(r: map<nat, AllocReq>, next: nat, allocs: seq<AllocReq>): map<nat, AllocReq> {
    if allocs == [] then r
    else
      var n := |allocs| - 1;
      var before := Filed(r, next, allocs[..n]);
      if allocs[n].valid then before[next + Valids(allocs[..n]) := allocs[n]] else before
  }

  /** There is room for a full bundle, and nothing is flushed. */
  predicate Room(g: Log)
    requires g.q.Shape()
  {
    !FlushOf(g.q).valid && |g.q.items| + g.q.width <= g.q.depth
  }

  /** The log with every request that was ever allocated. */
  datatype Book = Book(g: Log, reqs: map<nat, AllocReq>)

  function BookNext(b: Book, x: In): Book
    requires b.g.q.Shape() && |b.g.ids| == |b.g.q.items| && WiresOk(b.g, x)
  {
    Book(LogNext(b.g, x), if Room(b.g) then Filed(b.reqs, b.g.next, x.allocs) else b.reqs)
  }

  predicate Carries(e: Entry, a: AllocReq) {
    e.pc == a.pc && e.rdArch == a.rdArch && e.prd == a.prd && e.prevPrd == a.prevPrd && e.isStore == a.isStore
  }

  /** Every entry in flight carries its request. */
  predicate AllCarry(items: seq<Entry>, ids: seq<nat>, reqs: map<nat, AllocReq>) {
    |ids| == |items| && forall k :: 0 <= k < |ids| ==> ids[k] in reqs && Carries(items[k], reqs[ids[k]])
  }

  predicate Inv(b: Book) {
    RobRuns.Inv(b.g) && AllCarry(b.g.q.items, b.g.ids, b.reqs)
  }

  // ---------------------------------------------------------------- one cycle

  lemma {:induction false} FiledOld(r: map<nat, AllocReq>, next: nat, allocs: seq<AllocReq>, id: nat)
    requires id < next
    ensures (id in Filed(r, next, allocs) <==> id in r) && (id in r ==> Filed(r, next, allocs)[id] == r[id])
  {
    if allocs != [] { FiledOld(r, next, allocs[..|allocs| - 1], id); }
  }

  lemma {:induction false} NewItemsCount(allocs: seq<AllocReq>)
    ensures |NewItems(allocs)| == Valids(allocs)
  {
    if allocs != [] { NewItemsCount(allocs[..|allocs| - 1]); }
  }

  lemma CarryOneMore(items: seq<Entry>, ids: seq<nat>, r: map<nat, AllocReq>, id: nat, a: AllocReq)
    requires AllCarry(items, ids, r) && id !in ids
    ensures AllCarry(items + [Entered(a)], ids + [id], r[id := a])
  {
  }

  /** The new entries carry the requests filed under their numbers. */
  lemma {:induction false} NewCarry(r: map<nat, AllocReq>, next: nat, allocs: seq<AllocReq>)
    ensures AllCarry(NewItems(allocs), Numbers(next, Valids(allocs)), Filed(r, next, allocs))
  {
    if allocs != [] {
      var n := |allocs| - 1;
      var v := Valids(allocs[..n]);
      NewCarry(r, next, allocs[..n]);
      if allocs[n].valid {
        CarryOneMore(NewItems(allocs[..n]), Numbers(next, v), Filed(r, next, allocs[..n]), next + v, allocs[n]);
        assert Numbers(next, v + 1) == Numbers(next, v) + [next + v];
      }
    }
  }

  lemma OldCarry(items: seq<Entry>, ids: seq<nat>, r: map<nat, AllocReq>, next: nat, allocs: seq<AllocReq>)
    requires AllCarry(items, ids, r) && forall k :: 0 <= k < |ids| ==> ids[k] < next
    ensures AllCarry(items, ids, Filed(r, next, allocs))
  {
    forall k | 0 <= k < |ids|
      ensures ids[k] in Filed(r, next, allocs) && Filed(r, next, allocs)[ids[k]] == r[ids[k]]
    {
      FiledOld(r, next, allocs, ids[k]);
    }
  }

  lemma CarryTail(items: seq<Entry>, ids: seq<nat>, r: map<nat, AllocReq>, n: nat)
    requires AllCarry(items, ids, r) && n <= |ids|
    ensures AllCarry(items[n..], ids[n..], r)
  {
  }

  lemma CarryJoin(a: seq<Entry>, b: seq<Entry>, i: seq<nat>, j: seq<nat>, r: map<nat, AllocReq>)
    requires AllCarry(a, i, r) && AllCarry(b, j, r)
    ensures AllCarry(a + b, i + j, r)
  {
  }

  /** Before the writebacks. */
  lemma MovedCarry(b: Book, x: In)
    requires Inv(b) && WiresOk(b.g, x)
    ensures AllCarry(Moved(b.g.q, x.allocs).items, IdsMoved(b.g, x), BookNext(b, x).reqs)
  {
    var n := Commits(b.g.q.items, b.g.q.width);
    if !FlushOf(b.g.q).valid {
      CarryTail(b.g.q.items, b.g.ids, b.reqs, n);
      NewItemsCount(x.allocs);
      if Room(b.g) {
        NewCarry(b.reqs, b.g.next, x.allocs);
        OldCarry(b.g.q.items[n..], b.g.ids[n..], b.reqs, b.g.next, x.allocs);
        CarryJoin(b.g.q.items[n..], NewItems(x.allocs), b.g.ids[n..], Numbers(b.g.next, Valids(x.allocs)),
                  Filed(b.reqs, b.g.next, x.allocs));
      } else {
        CarryJoin(b.g.q.items[n..], [], b.g.ids[n..], Numbers(b.g.next, 0), b.reqs);
      }
    }
  }

  /** A writeback changes no field of a request. */
  lemma {:induction false} WrittenCarry(items: seq<Entry>, ids: seq<nat>, r: map<nat, AllocReq>, head: nat, depth: nat,
                                        wbs: seq<WbReq>)
    requires head < depth && WbsOk(wbs, depth) && AllCarry(items, ids, r)
    ensures AllCarry(Written(items, head, depth, wbs), ids, r)
    decreases |wbs|
  {
    if wbs != [] { WrittenCarry(items, ids, r, head, depth, wbs[..|wbs| - 1]); }
  }

  lemma BookKeeps(b: Book, x: In)
    requires Inv(b) && Legal(b.g, x)
    ensures Inv(BookNext(b, x))
  {
    StepKeeps(b.g, x);
    MovedCarry(b, x);
    var m := Moved(b.g.q, x.allocs);
    WrittenCarry(m.items, IdsMoved(b.g, x), BookNext(b, x).reqs, m.head, m.depth, x.wbs);
  }

  // ---------------------------------------------------------------- what is taken

  /** Requests are taken when there is room for a full bundle and nothing is
      flushed, and then all the valid ones: each gets the next number and stands
      behind what is left of the queue. */
  lemma TakenWhenRoom(g: Log, x: In)
    requires RobRuns.Inv(g) && Legal(g, x)
    ensures var h, n := LogNext(g, x), |LogNext(g, x).committed| - |g.committed|;
            && (Room(g) ==> h.next == g.next + Valids(x.allocs))
            && (Room(g) ==> h.ids == g.ids[n..] + Numbers(g.next, Valids(x.allocs)))
            && (!Room(g) ==> h.next == g.next)
            && (!Room(g) && !FlushOf(g.q).valid ==> h.ids == g.ids[n..])
            && |h.q.items| == |h.ids|
  {
    NewItemsCount(x.allocs);
    StepKeeps(g, x);
  }

  // ---------------------------------------------------------------- what a commit says

  predicate Reports(o: CommitOut, a: AllocReq) {
    && o.valid && o.pc == a.pc && o.rdArch == a.rdArch && o.prd == a.prd && o.prevPrd == a.prevPrd
    && o.isStore == a.isStore
  }

  /** In a cycle the valid outputs come first, one for each number that joins the
      committed ones, in order, and each reports the request of that number. */
  lemma CommitsReport(b: Book, x: In, i: nat)
    requires Inv(b) && Legal(b.g, x) && i < b.g.q.width
    ensures var o, h := Outputs(b.g.q.items, b.g.q.width), LogNext(b.g, x);
            var n := |h.committed| - |b.g.committed|;
            && b.g.committed <= h.committed && n <= b.g.q.width
            && (o[i].valid <==> i < n)
            && (i < n ==> h.committed[|b.g.committed| + i] in b.reqs
                          && Reports(o[i], b.reqs[h.committed[|b.g.committed| + i]]))
            && (i >= n ==> o[i] == CommitOut(false, 0, 0, 0, 0, false))
  {
    OutputAt(b.g.q.items, b.g.q.width, i);
    var n := Commits(b.g.q.items, b.g.q.width);
    if i < n { assert LogNext(b.g, x).committed[|b.g.committed| + i] == b.g.ids[i]; }
  }

  /** What a result asks for: a full flush on an exception, otherwise one from the
      slot on a misprediction, each with the target; else none. */
  function AskedBy(w: WbReq, slot: nat): Flush {
    if w.exception then Flush(true, true, w.redirectPc, 0)
    else if w.mispredict then Flush(true, false, w.redirectPc, slot)
    else Flush(false, false, 0, 0)
  }

  lemma LastCommits(g: Log, x: In)
    requires RobRuns.Inv(g) && Legal(g, x)
    ensures var h, n := LogNext(g, x), Commits(g.q.items, g.q.width);
            && |h.committed| == |g.committed| + n && n <= |g.ids| == |g.q.items|
            && (n > 0 ==> h.committed[|h.committed| - 1] == g.ids[n - 1] && g.q.items[n - 1].done)
  {
  }

  /** Nothing but the last number to commit can flush, and it does what its last
      result asks for. */
  lemma FlushReports(g: Log, x: In)
    requires RobRuns.Inv(g) && Legal(g, x)
    ensures var f, h := FlushOf(g.q), LogNext(g, x);
            var n := |h.committed| - |g.committed|;
            && 0 <= n <= |g.ids|
            && (n == 0 ==> f == Flush(false, false, 0, 0))
            && (n > 0 ==>
                  var id := h.committed[|h.committed| - 1];
                  && id == g.ids[n - 1] && id in g.results
                  && f == AskedBy(g.results[id], Wrap(g.q.head + (n - 1), g.q.depth)))
  {
    LastCommits(g, x);
    var n := Commits(g.q.items, g.q.width);
    if n > 0 { DoneAsks(g, n - 1); }
  }

  lemma DoneAsks(g: Log, k: nat)
    requires RobRuns.Inv(g) && k < |g.ids| == |g.q.items| && g.q.items[k].done
    ensures g.ids[k] in g.results
    ensures var e, w := g.q.items[k], g.results[g.ids[k]];
            e.exception == w.exception && e.mispredict == w.mispredict && e.redirectPc == w.redirectPc
  {
  }

  /** After a flush nothing is in flight; the next request takes slot 0, or the one
      behind the branch. */
  lemma FlushEmpties(g: Log, x: In)
    requires RobRuns.Inv(g) && Legal(g, x) && FlushOf(g.q).valid
    ensures var f, h := FlushOf(g.q), LogNext(g, x);
            h.ids == [] && h.q.items == [] && h.q.head == if f.full then 0 else Wrap(f.branchIdx + 1, g.q.depth)
  {
    var n := Commits(g.q.items, g.q.width);
    assert n > 0;
    StepKeeps(g, x);
  }

  // ---------------------------------------------------------------- whole runs

  /** The books a legal run goes through, from an empty buffer. */
  predicate BookTrace(bs: seq<Book>, ins: seq<In>) {
    && |bs| == |ins| + 1
    && bs[0].g.q.Shape() && bs[0].g.q.items == [] && bs[0].g.ids == [] && bs[0].g.next == 0
    && bs[0].g.committed == [] && bs[0].g.squashed == {}
    && forall c :: 0 <= c < |ins| ==> BookStep(bs[c], ins[c], bs[c + 1])
  }

  predicate BookStep(b: Book, x: In, d: Book) {
    b.g.q.Shape() && |b.g.ids| == |b.g.q.items| && Legal(b.g, x) && d == BookNext(b, x)
  }

  lemma BookStepKeeps(b: Book, x: In, d: Book)
    requires Inv(b) && BookStep(b, x, d)
    ensures Inv(d)
  {
    BookKeeps(b, x);
  }

  lemma {:induction false} BookTraceKeeps(bs: seq<Book>, ins: seq<In>, c: nat)
    requires BookTrace(bs, ins) && c < |bs|
    ensures Inv(bs[c])
    decreases c
  {
    if c > 0 {
      BookTraceKeeps(bs, ins, c - 1);
      BookStepKeeps(bs[c - 1], ins[c - 1], bs[c]);
    }
  }

  /** Output `i` of the cycle from `b` to `d` is valid exactly when more than `i`
      numbers join the committed ones in it, and reports the request of the one at
      that place. */
  predicate SaysRequest(b: Book, d: Book, i: nat)
    requires i < b.g.q.width
  {
    var o, before, after := Outputs(b.g.q.items, b.g.q.width)[i], b.g.committed, d.g.committed;
    && before <= after && (o.valid <==> i < |after| - |before|)
    && (i < |after| - |before| ==> after[|before| + i] in b.reqs && Reports(o, b.reqs[after[|before| + i]]))
  }

  lemma BookStepReports(b: Book, x: In, d: Book, i: nat)
    requires Inv(b) && BookStep(b, x, d) && i < b.g.q.width
    ensures SaysRequest(b, d, i)
  {
    CommitsReport(b, x, i);
  }

  lemma BookTraceStep(bs: seq<Book>, ins: seq<In>, c: nat)
    requires BookTrace(bs, ins) && c < |ins|
    ensures BookStep(bs[c], ins[c], bs[c + 1])
  {
  }

  /** In every cycle of every run the outputs report, in order, the requests of the
      numbers that commit in it. */
  lemma RunsReport(bs: seq<Book>, ins: seq<In>, c: nat, i: nat)
    requires BookTrace(bs, ins) && c < |ins| && i < bs[c].g.q.width
    ensures SaysRequest(bs[c], bs[c + 1], i)
  {
    BookTraceKeeps(bs, ins, c);
    BookTraceStep(bs, ins, c);
    BookStepReports(bs[c], ins[c], bs[c + 1], i);
  }
}
