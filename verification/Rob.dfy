/** The reorder buffer (sim/ooo/rob/rob_model.h): a circular buffer with
    several commits a cycle, and the plain queue it stands for. */
module Rob {
  import opened Ring

  datatype Entry = Entry(valid: bool, done: bool, exception: bool, mispredict: bool, pc: nat, redirectPc: nat,
                         rdArch: nat, prd: nat, prevPrd: nat, isStore: bool)

  datatype AllocReq = AllocReq(valid: bool, pc: nat, rdArch: nat, prd: nat, prevPrd: nat, isBranch: bool, isStore: bool)

  datatype WbReq = WbReq(valid: bool, robIdx: nat, exception: bool, mispredict: bool, redirectPc: nat)

  datatype CommitOut = CommitOut(valid: bool, pc: nat, rdArch: nat, prd: nat, prevPrd: nat, isStore: bool)

  datatype Flush = Flush(valid: bool, full: bool, pc: nat, branchIdx: nat)

  function Blank(): Entry { Entry(false, false, false, false, 0, 0, 0, 0, 0, false) }

  function NoCommit(): CommitOut { CommitOut(false, 0, 0, 0, 0, false) }

  // ---------------------------------------------------------------- the plain queue

  /** The live entries in program order, and the slot of the oldest. */
  datatype Queue = Queue(depth: nat, width: nat, head: nat, items: seq<Entry>) {
    predicate Shape() {
      1 <= width <= depth && head < depth && |items| <= depth && AllValid(items)
    }
  }

  predicate Flagged(e: Entry) { e.exception || e.mispredict }

  /** How many entries commit: the done ones from the oldest on, at most `w`, up
      to and with the first that excepts or was mispredicted. */
  function Commits(items: seq<Entry>, w: nat): (n: nat)
    ensures n <= w && n <= |items|
    ensures forall k :: 0 <= k < n ==> items[k].done
    ensures forall k :: 0 <= k < n - 1 ==> !Flagged(items[k])
    ensures n == w || n == |items| || !items[n].done || (n > 0 && Flagged(items[n - 1]))
  {
    if w == 0 || items == [] || !items[0].done then 0
    else if Flagged(items[0]) then 1
    else 1 + Commits(items[1..], w - 1)
  }

  /** No other length has these properties. */
  lemma CommitsUnique(items: seq<Entry>, w: nat, n: nat)
    requires n <= w && n <= |items|
    requires forall k :: 0 <= k < n ==> items[k].done
    requires forall k :: 0 <= k < n - 1 ==> !Flagged(items[k])
    requires n == w || n == |items| || !items[n].done || (n > 0 && Flagged(items[n - 1]))
    ensures n == Commits(items, w)
  {
    var m := Commits(items, w);
    assert n >= m;
    assert m >= n;
  }

  function Output(e: Entry): CommitOut { CommitOut(true, e.pc, e.rdArch, e.prd, e.prevPrd, e.isStore) }

  function Outputs(items: seq<Entry>, w: nat): (o: seq<CommitOut>)
    ensures |o| == w
  {
    var n := Commits(items, w);
    seq(w, i requires 0 <= i < w => if i < n then Output(items[i]) else NoCommit())
  }

  lemma OutputAt(items: seq<Entry>, w: nat, i: nat)
    requires i < w
    ensures Outputs(items, w)[i] == if i < Commits(items, w) then Output(items[i]) else NoCommit()
    ensures Outputs(items, w)[..i + 1] == Outputs(items, w)[..i] + [Outputs(items, w)[i]]
  {
  }

  /** The flush comes from the last entry that commits. */
  function FlushAt(items: seq<Entry>, w: nat, head: nat, depth: nat): Flush
    requires head < depth && w <= depth
  {
    var n := Commits(items, w);
    if n == 0 || !Flagged(items[n - 1]) then Flush(false, false, 0, 0)
    else if items[n - 1].exception then Flush(true, true, items[n - 1].redirectPc, 0)
    else Flush(true, false, items[n - 1].redirectPc, Wrap(head + n - 1, depth))
  }

  function FlushOf(q: Queue): Flush
    requires q.Shape()
  {
    FlushAt(q.items, q.width, q.head, q.depth)
  }

  predicate AllocReady(q: Queue) { q.depth - |q.items| >= q.width }

  function Entered(a: AllocReq): Entry {
    Entry(true, false, false, false, a.pc, 0, a.rdArch, a.prd, a.prevPrd, a.isStore)
  }

  function NewItems(allocs: seq<AllocReq>): (n: seq<Entry>)
    ensures |n| <= |allocs|
    ensures forall k :: 0 <= k < |n| ==> n[k].valid && !n[k].done
  {
    if allocs == [] then []
    else NewItems(allocs[..|allocs| - 1])
         + if allocs[|allocs| - 1].valid then [Entered(allocs[|allocs| - 1])] else []
  }

  /** The place of a slot in the queue that starts at `head`. */
  function Place(i: nat, head: nat, depth: nat): (k: nat)
    requires i < depth && head < depth
    ensures k < depth && Wrap(head + k, depth) == i
  {
    if i >= head then i - head else i + depth - head
  }

  function Mark(e: Entry, w: WbReq): Entry {
    e.(done := true, exception := w.exception, mispredict := w.mispredict, redirectPc := w.redirectPc)
  }

  predicate WbsOk(wbs: seq<WbReq>, depth: nat) { forall i :: 0 <= i < |wbs| ==> wbs[i].robIdx < depth }

  function WriteOne(items: seq<Entry>, head: nat, depth: nat, w: WbReq): (r: seq<Entry>)
    requires head < depth && w.robIdx < depth
    ensures |r| == |items|
  {
    var k := Place(w.robIdx, head, depth);
    if w.valid && k < |items| then items[k := Mark(items[k], w)] else items
  }

  /** Writebacks land on the entry that now holds their slot; on none if the slot
      is free. */
  function Written(items: seq<Entry>, head: nat, depth: nat, wbs: seq<WbReq>): (r: seq<Entry>)
    requires head < depth && WbsOk(wbs, depth)
    ensures |r| == |items|
  {
    if wbs == [] then items
    else WriteOne(Written(items, head, depth, wbs[..|wbs| - 1]), head, depth, wbs[|wbs| - 1])
  }

  /** The queue before its writebacks. */
  function Moved(q: Queue, allocs: seq<AllocReq>): (r: Queue)
    requires q.Shape() && |allocs| <= q.width
    ensures r.depth == q.depth && r.width == q.width && r.head < r.depth && |r.items| <= r.depth
  {
    var n := Commits(q.items, q.width);
    var f := FlushOf(q);
    if f.full then q.(head := 0, items := [])
    else if f.valid then q.(head := Wrap(q.head + n, q.depth), items := [])
    else q.(head := Wrap(q.head + n, q.depth), items := q.items[n..] + if AllocReady(q) then NewItems(allocs) else [])
  }

  /** One clock edge of the plain queue. */
  function Next(q: Queue, allocs: seq<AllocReq>, wbs: seq<WbReq>): (r: Queue)
    requires q.Shape() && |allocs| <= q.width && WbsOk(wbs, q.depth)
    ensures r.depth == q.depth && r.width == q.width
  {
    var m := Moved(q, allocs);
    if FlushOf(q).full then m else m.(items := Written(m.items, m.head, m.depth, wbs))
  }

  predicate AllValid(items: seq<Entry>) { forall k :: 0 <= k < |items| ==> items[k].valid }

  lemma {:induction false} WrittenValid(items: seq<Entry>, head: nat, depth: nat, wbs: seq<WbReq>)
    requires head < depth && WbsOk(wbs, depth) && AllValid(items)
    ensures AllValid(Written(items, head, depth, wbs))
  {
    if wbs != [] {
      var before := Written(items, head, depth, wbs[..|wbs| - 1]);
      WrittenValid(items, head, depth, wbs[..|wbs| - 1]);
      assert AllValid(before);
      assert AllValid(WriteOne(before, head, depth, wbs[|wbs| - 1]));
    }
  }

  lemma MovedShape(q: Queue, allocs: seq<AllocReq>)
    requires q.Shape() && |allocs| <= q.width
    ensures Moved(q, allocs).Shape()
  {
  }

  lemma NextShape(q: Queue, allocs: seq<AllocReq>, wbs: seq<WbReq>)
    requires q.Shape() && |allocs| <= q.width && WbsOk(wbs, q.depth)
    ensures Next(q, allocs, wbs).Shape()
  {
    var m := Moved(q, allocs);
    MovedShape(q, allocs);
    WrittenValid(m.items, m.head, m.depth, wbs);
  }

  // ---------------------------------------------------------------- the circular buffer

  /** Slot `k` after the first `n` slots from `head` were freed. */
  function Freed(b: seq<Entry>, head: nat, n: nat, k: nat): Entry
    requires head < |b| && k < |b|
  {
    if Place(k, head, |b|) < n then b[k].(valid := false) else b[k]
  }

  /** The valid slots are the `count` slots from `head` on. */
  predicate ValidSlots(b: seq<Entry>, head: nat, count: nat)
    requires head < |b|
  {
    forall i :: 0 <= i < |b| ==> (b[i].valid <==> Place(i, head, |b|) < count)
  }

  lemma FreedWindow(b: seq<Entry>, c: seq<Entry>, head: nat, count: nat, n: nat)
    requires head < |b| == |c| && n <= count <= |b| && ValidSlots(b, head, count)
    requires forall k :: 0 <= k < |b| ==> c[k] == Freed(b, head, n, k)
    ensures ValidSlots(c, Wrap(head + n, |b|), count - n)
    ensures Window(c, Wrap(head + n, |b|), count - n) == Window(b, head, count)[n..]
  {
    var h := Wrap(head + n, |b|);
    forall k | 0 <= k < count - n
      ensures Window(c, h, count - n)[k] == Window(b, head, count)[n..][k]
    {
      var i := Wrap(h + k, |b|);
      assert Place(i, head, |b|) == n + k;
    }
  }

  lemma NewItemsStep(allocs: seq<AllocReq>, i: nat)
    requires i < |allocs|
    ensures NewItems(allocs[..i + 1]) == NewItems(allocs[..i]) + if allocs[i].valid then [Entered(allocs[i])] else []
  {
    assert allocs[..i + 1][..i] == allocs[..i];
  }

  lemma NewItemsGrow(first: seq<Entry>, allocs: seq<AllocReq>, i: nat)
    requires i < |allocs|
    ensures first + NewItems(allocs[..i + 1])
         == first + NewItems(allocs[..i]) + if allocs[i].valid then [Entered(allocs[i])] else []
  {
    NewItemsStep(allocs, i);
  }

  lemma EnterSlot(b: seq<Entry>, head: nat, count: nat, e: Entry)
    requires head < |b| && count < |b| && ValidSlots(b, head, count) && e.valid
    ensures var c := b[Wrap(head + count, |b|) := e];
            ValidSlots(c, head, count + 1) && Window(c, head, count + 1) == Window(b, head, count) + [e]
  {
    WindowPush(b, head, count, e);
  }

  lemma WrittenStep(items: seq<Entry>, head: nat, depth: nat, wbs: seq<WbReq>, i: nat)
    requires head < depth && WbsOk(wbs, depth) && i < |wbs|
    ensures Written(items, head, depth, wbs[..i + 1])
         == WriteOne(Written(items, head, depth, wbs[..i]), head, depth, wbs[i])
  {
    assert wbs[..i + 1][..i] == wbs[..i];
  }

  lemma MarkSlot(b: seq<Entry>, head: nat, count: nat, w: WbReq)
    requires head < |b| && count <= |b| && w.robIdx < |b| && w.valid && ValidSlots(b, head, count)
    ensures var c := b[w.robIdx := Mark(b[w.robIdx], w)];
            ValidSlots(c, head, count) && Window(c, head, count) == WriteOne(Window(b, head, count), head, |b|, w)
  {
    var k := Place(w.robIdx, head, |b|);
    WindowUpdate(b, head, count, k, Mark(b[w.robIdx], w));
  }

  class RobModel {
    const depth: nat
    const width: nat
    const buf: array<Entry>
    var head: nat
    var tail: nat
    var count: nat

    /** The valid slots are exactly the `count` slots from the head on. */
    ghost predicate Valid()
      reads this, buf
    {
      && 1 <= width <= depth == buf.Length && head < depth && count <= depth
      && tail == Wrap(head + count, depth)
      && ValidSlots(buf[..], head, count)
    }

    ghost function Contents(): Queue
      requires Valid()
      reads this, buf
    {
      Queue(depth, width, head, Window(buf[..], head, count))
    }

    constructor (depth: nat, width: nat)
      requires 1 <= width <= depth
      ensures Valid() && Contents() == Queue(depth, width, 0, []) && fresh(buf)
    {
      this.depth, this.width := depth, width;
      buf := new Entry[depth](_ => Blank());
      head, tail, count := 0, 0, 0;
    }

    lemma ContentsShape()
      requires Valid()
      ensures Contents().Shape()
    {
    }

    method IsAllocReady() returns (ready: bool)
      requires Valid()
      ensures ready == AllocReady(Contents())
    {
      ready := depth - count >= width;
    }

    function IdxAt(offset: nat): nat
      requires head < depth && offset <= depth
      reads this
    {
      Wrap(head + offset, depth)
    }

    /** The oldest slots hold these entries, and no others are valid among them. */
    ghost predicate Shows(items: seq<Entry>)
      reads this, buf
    {
      && 1 <= width <= depth == buf.Length && head < depth
      && forall i :: 0 <= i < width ==>
           (buf[IdxAt(i)].valid <==> i < |items|) && (i < |items| ==> items[i] == buf[IdxAt(i)])
    }

    lemma ShowsContents()
      requires Valid()
      ensures Shows(Contents().items)
    {
      forall i | 0 <= i < width
        ensures buf[IdxAt(i)].valid <==> i < count
        ensures i < count ==> Contents().items[i] == buf[IdxAt(i)]
      {
        assert Place(IdxAt(i), head, depth) == i;
        assert buf[..][IdxAt(i)] == buf[IdxAt(i)];
      }
    }

    /** Which of the oldest slots commit. */
    method Eligible(ghost items: seq<Entry>) returns (can: seq<bool>)
      requires Shows(items)
      ensures |can| == width
      ensures forall i :: 0 <= i < width ==> (can[i] <==> i < Commits(items, width))
    {
      ghost var n := Commits(items, width);
      can := [buf[IdxAt(0)].valid && buf[IdxAt(0)].done];
      for i := 1 to width
        invariant |can| == i
        invariant forall j :: 0 <= j < i ==> (can[j] <==> j < n)
      {
        var before, here := buf[IdxAt(i - 1)], buf[IdxAt(i)];
        can := can + [can[i - 1] && !before.exception && !before.mispredict && here.valid && here.done];
      }
    }

    /** The commit outputs and their number. */
    method Emit(ghost items: seq<Entry>, can: seq<bool>) returns (out: seq<CommitOut>, n: nat)
      requires Shows(items) && |can| == width
      requires forall i :: 0 <= i < width ==> (can[i] <==> i < Commits(items, width))
      ensures out == Outputs(items, width) && n == Commits(items, width)
    {
      ghost var m, o := Commits(items, width), Outputs(items, width);
      out, n := [], 0;
      for i := 0 to width
        invariant out == o[..i] && n == if i < m then i else m
      {
        OutputAt(items, width, i);
        if can[i] {
          var e := buf[IdxAt(i)];
          out := out + [CommitOut(true, e.pc, e.rdArch, e.prd, e.prevPrd, e.isStore)];
          n := n + 1;
        } else {
          out := out + [CommitOut(false, 0, 0, 0, 0, false)];
        }
      }
      assert o[..width] == o;
    }

    /** The first committing entry that excepts, or else was mispredicted. */
    method DetectFlush(ghost items: seq<Entry>, can: seq<bool>) returns (f: Flush)
      requires Shows(items) && |can| == width
      requires forall i :: 0 <= i < width ==> (can[i] <==> i < Commits(items, width))
      ensures f == FlushAt(items, width, head, depth)
    {
      ghost var m := Commits(items, width);
      var full, branch, idx, pc := false, false, 0, 0;
      for i := 0 to width
        invariant Flush(full || branch, full, pc, idx)
               == if i < m then Flush(false, false, 0, 0) else FlushAt(items, width, head, depth)
      {
        var e := buf[IdxAt(i)];
        if can[i] && e.exception && !full && !branch {
          full, pc := true, e.redirectPc;
        } else if can[i] && e.mispredict && !full && !branch {
          branch, idx, pc := true, IdxAt(i), e.redirectPc;
        }
      }
      f := Flush(full || branch, full, pc, idx);
    }

    method Clear()
      requires 1 <= width <= depth == buf.Length
      modifies this, buf
      ensures Valid() && Contents() == Queue(depth, width, 0, [])
    {
      for i := 0 to depth
        modifies buf
        invariant forall k :: 0 <= k < i ==> buf[k] == Blank()
      {
        buf[i] := Blank();
      }
      head, tail, count := 0, 0, 0;
    }

    method FreeSlots(can: seq<bool>, n: nat)
      requires 1 <= width <= depth == buf.Length && head < depth && |can| == width && n <= width
      requires forall i :: 0 <= i < width ==> (can[i] <==> i < n)
      modifies buf
      ensures forall k :: 0 <= k < depth ==> buf[k] == Freed(old(buf[..]), head, n, k)
    {
      ghost var b := buf[..];
      for i := 0 to width
        invariant forall k :: 0 <= k < depth ==> buf[k] == Freed(b, head, if i < n then i else n, k)
      {
        if can[i] { buf[IdxAt(i)] := buf[IdxAt(i)].(valid := false); }
      }
    }

    /** The window without its `n` oldest entries, whose slots are now free. */
    method FreeOldest(can: seq<bool>, n: nat)
      requires 1 <= width <= depth == buf.Length && head < depth && count <= depth && ValidSlots(buf[..], head, count)
      requires |can| == width && n <= width && n <= count && forall i :: 0 <= i < width ==> (can[i] <==> i < n)
      modifies buf
      ensures ValidSlots(buf[..], Wrap(head + n, depth), count - n)
      ensures Window(buf[..], Wrap(head + n, depth), count - n) == Window(old(buf[..]), head, count)[n..]
    {
      ghost var b := buf[..];
      FreeSlots(can, n);
      ghost var c := buf[..];
      assert forall k :: 0 <= k < depth ==> c[k] == Freed(b, head, n, k);
      FreedWindow(b, c, head, count, n);
    }

    /** The committed slots become free and the head moves past them. */
    method Retire(can: seq<bool>, n: nat)
      requires Valid() && |can| == width && n <= width && n <= count
      requires forall i :: 0 <= i < width ==> (can[i] <==> i < n)
      modifies this`head, this`count, buf
      ensures Valid() && Contents() == Queue(depth, width, Wrap(old(head) + n, depth), old(Contents()).items[n..])
    {
      FreeOldest(can, n);
      head := Wrap(head + n, depth);
      count := count - n;
    }

    /** Everything younger than the mispredicted branch in slot `idx` goes. */
    method Squash(idx: nat)
      requires Valid() && idx < depth && head == Wrap(idx + 1, depth)
      modifies this`tail, this`count, buf
      ensures Valid() && Contents() == Queue(depth, width, head, [])
    {
      ghost var b := buf[..];
      for k := 0 to count
        invariant forall i :: 0 <= i < depth ==> buf[i] == Freed(b, head, k, i)
      {
        assert Place(Wrap(idx + 1 + k, depth), head, depth) == k;
        buf[Wrap(idx + 1 + k, depth)] := buf[Wrap(idx + 1 + k, depth)].(valid := false);
      }
      tail := Wrap(idx + 1, depth);
      count := 0;
    }

    /** One request enters behind the first `n` entries. */
    method EnterAt(a: AllocReq, n: nat, at: nat)
      requires head < depth == buf.Length && n < depth && at == Wrap(head + n, depth) && ValidSlots(buf[..], head, n)
      modifies buf
      ensures ValidSlots(buf[..], head, n + 1)
      ensures Window(buf[..], head, n + 1) == Window(old(buf[..]), head, n) + [Entered(a)]
    {
      EnterSlot(buf[..], head, n, Entered(a));
      ghost var b := buf[..];
      buf[at] := Entry(true, false, false, false, a.pc, 0, a.rdArch, a.prd, a.prevPrd, a.isStore);
      assert buf[..] == b[at := Entered(a)];
    }

    /** The valid requests enter at consecutive slots from the tail on. */
    method EnterAll(allocs: seq<AllocReq>) returns (slot: nat)
      requires head < depth == buf.Length && count + |allocs| <= depth && tail == Wrap(head + count, depth)
      requires ValidSlots(buf[..], head, count)
      modifies buf
      ensures slot == |NewItems(allocs)| && ValidSlots(buf[..], head, count + slot)
      ensures Window(buf[..], head, count + slot) == Window(old(buf[..]), head, count) + NewItems(allocs)
    {
      slot := 0;
      ghost var first := Window(buf[..], head, count);
      ghost var now := first;
      for i := 0 to |allocs|
        invariant slot <= i && now == first + NewItems(allocs[..i]) && |now| == count + slot
        invariant ValidSlots(buf[..], head, count + slot)
        invariant Window(buf[..], head, count + slot) == now
      {
        NewItemsGrow(first, allocs, i);
        now := first + NewItems(allocs[..i + 1]);
        if allocs[i].valid {
          EnterAt(allocs[i], count + slot, Wrap(tail + slot, depth));
          slot := slot + 1;
        }
      }
      assert allocs[..|allocs|] == allocs;
    }

    method Allocate(allocs: seq<AllocReq>)
      requires Valid() && count + |allocs| <= depth
      modifies this`tail, this`count, buf
      ensures Valid()
      ensures Contents() == Queue(depth, width, head, old(Contents()).items + NewItems(allocs))
    {
      var slot := EnterAll(allocs);
      tail := Wrap(tail + slot, depth);
      count := count + slot;
    }

    /** Results land in the slots they name, valid or not. */
    method WriteBack(wbs: seq<WbReq>)
      requires Valid() && WbsOk(wbs, depth)
      modifies buf
      ensures Valid()
      ensures Contents() == Queue(depth, width, head, Written(old(Contents()).items, head, depth, wbs))
    {
      ghost var items := Contents().items;
      for i := 0 to |wbs|
        invariant WbsOk(wbs[..i], depth)
        invariant ValidSlots(buf[..], head, count)
        invariant Window(buf[..], head, count) == Written(items, head, depth, wbs[..i])
      {
        var w := wbs[i];
        WrittenStep(items, head, depth, wbs, i);
        if w.valid {
          MarkSlot(buf[..], head, count, w);
          ghost var b := buf[..];
          buf[w.robIdx] := Mark(buf[w.robIdx], w);
          assert buf[..] == b[w.robIdx := Mark(b[w.robIdx], w)];
        }
      }
      assert wbs[..|wbs|] == wbs;
    }

    /** Commits and flush of the cycle, from the registers before the edge. */
    method Decide() returns (can: seq<bool>, out: seq<CommitOut>, n: nat, f: Flush)
      requires Valid()
      ensures |can| == width && n == Commits(Contents().items, width)
      ensures forall i :: 0 <= i < width ==> (can[i] <==> i < n)
      ensures out == Outputs(Contents().items, width) && f == FlushAt(Contents().items, width, head, depth)
    {
      ghost var items := Contents().items;
      ShowsContents();
      can := Eligible(items);
      out, n := Emit(items, can);
      f := DetectFlush(items, can);
    }

    /** The commits, then the squash or the requests, when nothing excepts. */
    method Advance(can: seq<bool>, n: nat, f: Flush, allocs: seq<AllocReq>)
      requires Valid() && |allocs| <= width && |can| == width && n <= width && n <= count && !f.full
      requires forall i :: 0 <= i < width ==> (can[i] <==> i < n)
      requires f.valid ==> n > 0 && f.branchIdx == Wrap(head + n - 1, depth)
      modifies this, buf
      ensures Valid()
      ensures var q := old(Contents());
              Contents() == Queue(depth, width, Wrap(q.head + n, depth),
                                  if f.valid then []
                                  else q.items[n..] + if depth - |q.items| >= width then NewItems(allocs) else [])
    {
      var allocReady := depth - count >= width;
      Retire(can, n);
      if f.valid {
        Squash(f.branchIdx);
      } else if allocReady {
        Allocate(allocs);
      }
    }

    /** Everything but the writebacks. */
    method Move(can: seq<bool>, n: nat, f: Flush, allocs: seq<AllocReq>)
      requires Valid() && Contents().Shape() && |allocs| <= width
      requires |can| == width && n == Commits(Contents().items, width) && f == FlushOf(Contents())
      requires forall i :: 0 <= i < width ==> (can[i] <==> i < n)
      modifies this, buf
      ensures Valid() && Contents() == Moved(old(Contents()), allocs)
    {
      if f.full { Clear(); } else { Advance(can, n, f, allocs); }
    }

    /** One clock edge: commits and flush as seen before it, then the plain queue's
        step on the buffer. */
    method Step(allocs: seq<AllocReq>, wbs: seq<WbReq>) returns (out: seq<CommitOut>, f: Flush)
      requires Valid() && |allocs| <= width && WbsOk(wbs, depth)
      modifies this, buf
      ensures Valid() && old(Contents()).Shape() && Contents() == Next(old(Contents()), allocs, wbs)
      ensures out == Outputs(old(Contents()).items, width) && f == FlushOf(old(Contents()))
    {
      ContentsShape();
      var can, n;
      can, out, n, f := Decide();
      Move(can, n, f, allocs);
      if !f.full { WriteBack(wbs); }
    }
  }
}
