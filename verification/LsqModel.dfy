/** The golden model as the object the harness drives (sim/lsq/lsq_model.h). */
module LsqModel {
  import opened Bytes
  import opened ByteMemory
  import opened Ring
  import opened Lsq
  import opened LsqAbs
  import opened LsqGolden

  lemma {:induction false} FromBytesSnoc(s: seq<byte>, x: byte)
    ensures FromBytes(s + [x]) == FromBytes(s) + x * Pow256(|s|)
  {
    if s == [] {
      assert [x][1..] == [];
    } else {
      FromBytesSnoc(s[1..], x);
      assert (s + [x])[1..] == s[1..] + [x];
      assert 256 * (x * Pow256(|s| - 1)) == x * (256 * Pow256(|s| - 1));
    }
  }

  lemma GoldLookAppend(l: LqEntry, ss: seq<SqEntry>, n: nat, head: nat, span: nat)
    requires l.size < 4 && l.rob < span && head < span && n < |ss|
    requires forall j :: 0 <= j < |ss| ==> ss[j].size < 4 && ss[j].rob < span
    ensures GoldSearch(l, ss[..n + 1], head, span) == GoldLook(GoldSearch(l, ss[..n], head, span), l, ss[n], head, span)
  {
    assert ss[..n + 1][..n] == ss[..n];
  }

  class Model {
    const span: nat
    var lq: seq<LqEntry>
    var lqHead: nat
    var lqTail: nat
    var lqCnt: nat
    var sq: seq<SqEntry>
    var sqHead: nat
    var sqTail: nat
    var sqCnt: nat

    function View(): Queues
      reads this
    {
      Queues(span, lq, lqHead, lqTail, lqCnt, sq, sqHead, sqTail, sqCnt)
    }

    constructor (lqDepth: nat, sqDepth: nat, span: nat)
      requires lqDepth > 0 && sqDepth > 0 && span > 0
      ensures View().Shape() && lqCnt == 0 && sqCnt == 0 && |lq| == lqDepth && |sq| == sqDepth
    {
      this.span := span;
      lq := seq(lqDepth, i => LqEntry(0, false, 0, 0, false, false));
      sq := seq(sqDepth, i => SqEntry(0, false, 0, 0, 0));
      lqHead, lqTail, lqCnt, sqHead, sqTail, sqCnt := 0, 0, 0, 0, 0, 0;
    }

    /** The bytes of the access, joined least significant first. */
    static method RawValue(mem: Mem, addr: nat, n: nat) returns (raw: nat)
      ensures raw == FromBytes(ReadBytes(mem, addr, n))
    {
      raw := 0;
      for b := 0 to n
        invariant raw == FromBytes(ReadBytes(mem, addr, b))
      {
        FromBytesSnoc(ReadBytes(mem, addr, b), Get(mem, addr + b));
        assert ReadBytes(mem, addr, b + 1) == ReadBytes(mem, addr, b) + [Get(mem, addr + b)];
        raw := raw + Get(mem, addr + b) * Pow256(b);
      }
    }

    method LookAt(l: LqEntry, s: SqEntry, robHead: nat, seen: Seen, fwd: nat) returns (r: Seen, data: nat)
      requires robHead < span && l.size < 4 && l.rob < span && s.size < 4 && s.rob < span
      requires !seen.blocked && (seen.any && seen.full ==> fwd == Forward(l, seen.from))
      ensures r == GoldLook(seen, l, s, robHead, span) && !r.blocked
      ensures r.any && r.full ==> data == Forward(l, r.from)
    {
      r, data := seen, fwd;
      if Age(s.rob, robHead, span) < Age(l.rob, robHead, span) && Overlaps(l, s) {
        var a := Age(s.rob, robHead, span);
        if !r.any || a > r.age {
          var full := Covers(l, s);
          r := Seen(r.blocked, true, full, a, if full then s else r.from);
          if full {
            data := Extend(ShiftRight(s.data, l.addr - s.addr), l.size, l.sgn);
          }
        }
      }
    }

    /** The youngest older store that overlaps the load, and what it forwards. */
    method SearchStores(l: LqEntry, robHead: nat, ghost ss: seq<SqEntry>) returns (r: Seen, data: nat)
      requires robHead < span && l.size < 4 && l.rob < span && sqHead < |sq| && |ss| == sqCnt <= |sq|
      requires forall j :: 0 <= j < sqCnt ==> ss[j] == sq[Wrap(sqHead + j, |sq|)] && ss[j].size < 4 && ss[j].rob < span
      ensures r == GoldSearch(l, ss, robHead, span)
      ensures r.any && r.full ==> data == Forward(l, r.from)
    {
      r, data := Seen(false, false, false, 0, SqEntry(0, false, 0, 0, 0)), 0;
      for i := 0 to sqCnt
        invariant r == GoldSearch(l, ss[..i], robHead, span) && !r.blocked
        invariant r.any && r.full ==> data == Forward(l, r.from)
      {
        GoldLookAppend(l, ss, i, robHead, span);
        r, data := LookAt(l, sq[Wrap(sqHead + i, |sq|)], robHead, r, data);
      }
      assert ss[..sqCnt] == ss;
    }

    /** What a load answering now should return. */
    method ExpectedLoadValue(slot: nat, robHead: nat, mem: Mem) returns (v: nat, forwarded: bool)
      requires View().Shape() && robHead < span && slot < |lq|
      ensures v == Expected(lq[slot], View().Stores(), robHead, span, mem)
      ensures var r := GoldSearch(lq[slot], View().Stores(), robHead, span);
              forwarded <==> r.any && r.full
    {
      var l := lq[slot];
      var r, data := SearchStores(l, robHead, View().Stores());
      forwarded := r.any && r.full;
      if forwarded {
        v := data;
      } else {
        var raw := RawValue(mem, l.addr, NBytes(l.size));
        v := Extend(raw, l.size, l.sgn);
      }
    }

    method Enter(load: bool, rob: nat, at: nat)
      requires lqTail < |lq| && sqTail < |sq| && at < if load then |lq| else |sq|
      modifies this`lq, this`lqTail, this`lqCnt, this`sq, this`sqTail, this`sqCnt
      ensures View() == GEnter(old(View()), load, rob, at)
    {
      if load {
        lq := lq[at := NewLoad(rob)];
        lqTail := Wrap(lqTail + 1, |lq|);
        lqCnt := lqCnt + 1;
      } else {
        sq := sq[at := NewStore(rob)];
        sqTail := Wrap(sqTail + 1, |sq|);
        sqCnt := sqCnt + 1;
      }
    }

    /** Which requests enter, and where. */
    method PeekDispatch(x: In) returns (ready0: bool, ready1: bool, at0: nat, at1: nat)
      requires View().Shape()
      ensures var o := OfferOf(View(), x);
              && ready0 == o.ready0 && ready1 == o.ready1
              && at0 == (if x.disp0.isLoad then o.lqAt0 else o.sqAt0)
              && at1 == (if x.disp1.isLoad then o.lqAt1 else o.sqAt1)
    {
      var squash := x.squashValid || x.squashAll;
      var lqFree, sqFree := |lq| - lqCnt, |sq| - sqCnt;
      ready0 := !squash && if x.disp0.isLoad then lqFree > 0 else sqFree > 0;
      var lq0, sq0 := x.disp0.valid && ready0 && x.disp0.isLoad, x.disp0.valid && ready0 && !x.disp0.isLoad;
      var lqFree1, sqFree1 := lqFree - (if lq0 then 1 else 0), sqFree - (if sq0 then 1 else 0);
      ready1 := !squash && if x.disp1.isLoad then lqFree1 > 0 else sqFree1 > 0;
      at0 := if x.disp0.isLoad then lqTail else sqTail;
      at1 := if x.disp1.isLoad then if lq0 then Wrap(lqTail + 1, |lq|) else lqTail
             else if sq0 then Wrap(sqTail + 1, |sq|) else sqTail;
    }

    /** What should leave for memory this cycle. */
    method PeekStoreCommit(commit: bool) returns (w: Write)
      requires View().Shape()
      ensures w == PeekStore(View(), commit)
    {
      w := Write(commit && sqCnt != 0, 0, 0, 0);
      if sqCnt != 0 {
        var e := sq[sqHead];
        w := w.(addr := e.addr, size := e.size, data := e.data);
      }
    }

    method ApplyDispatch(x: In)
      requires View().Shape()
      modifies this`lq, this`lqTail, this`lqCnt, this`sq, this`sqTail, this`sqCnt
      ensures View() == GDispatch(old(View()), x)
    {
      var ready0, ready1, at0, at1 := PeekDispatch(x);
      if x.disp0.valid && ready0 { Enter(x.disp0.isLoad, x.disp0.rob, at0); }
      if x.disp1.valid && ready1 { Enter(x.disp1.isLoad, x.disp1.rob, at1); }
    }

    method ApplyAddresses(x: In)
      requires x.stIdx < |sq| && x.ldIdx < |lq|
      modifies this`lq, this`sq
      ensures View() == GArrive(old(View()), x)
    {
      if x.stValid { sq := sq[x.stIdx := SqEntry(sq[x.stIdx].rob, true, x.stAddr, x.stSize, x.stData)]; }
      if x.ldValid {
        lq := lq[x.ldIdx := lq[x.ldIdx].(addrV := true, addr := x.ldAddr, size := x.ldSize, sgn := x.ldSigned)];
      }
    }

    method ApplyCommit(x: In)
      requires lqHead < |lq| && sqHead < |sq|
      modifies this`lqHead, this`lqCnt, this`sqHead, this`sqCnt
      ensures View() == GCommit(old(View()), x)
    {
      if x.commitStore && sqCnt != 0 {
        sqHead := Wrap(sqHead + 1, |sq|);
        sqCnt := sqCnt - 1;
      }
      if x.commitLoad && lqCnt != 0 {
        lqHead := Wrap(lqHead + 1, |lq|);
        lqCnt := lqCnt - 1;
      }
    }

    /** How many of the live entries are no younger than the squash point. */
    method KeepCounts(robHead: nat, point: nat) returns (loads: nat, stores: nat)
      requires View().Shape() && robHead < span && point < span
      ensures loads == Kept(LoadRobs(View().Loads()), robHead, point, span)
      ensures stores == Kept(StoreRobs(View().Stores()), robHead, point, span)
    {
      RobsAre(View());
      loads := KeepLoads(robHead, point);
      stores := KeepStores(robHead, point);
    }

    method KeepLoads(robHead: nat, point: nat) returns (n: nat)
      requires robHead < span && point < span && lqHead < |lq| && lqCnt <= |lq|
      requires Below(LoadRobs(Window(lq, lqHead, lqCnt)), span)
      ensures n == Kept(LoadRobs(Window(lq, lqHead, lqCnt)), robHead, point, span)
    {
      ghost var robs := LoadRobs(Window(lq, lqHead, lqCnt));
      n := 0;
      for i := 0 to lqCnt
        invariant n == Kept(robs[..i], robHead, point, span)
      {
        KeptStep(robs, i, robHead, point, span);
        if Age(lq[Wrap(lqHead + i, |lq|)].rob, robHead, span) <= Age(point, robHead, span) { n := n + 1; }
      }
      assert robs[..lqCnt] == robs;
    }

    method KeepStores(robHead: nat, point: nat) returns (n: nat)
      requires robHead < span && point < span && sqHead < |sq| && sqCnt <= |sq|
      requires Below(StoreRobs(Window(sq, sqHead, sqCnt)), span)
      ensures n == Kept(StoreRobs(Window(sq, sqHead, sqCnt)), robHead, point, span)
    {
      ghost var robs := StoreRobs(Window(sq, sqHead, sqCnt));
      n := 0;
      for i := 0 to sqCnt
        invariant n == Kept(robs[..i], robHead, point, span)
      {
        KeptStep(robs, i, robHead, point, span);
        if Age(sq[Wrap(sqHead + i, |sq|)].rob, robHead, span) <= Age(point, robHead, span) { n := n + 1; }
      }
      assert robs[..sqCnt] == robs;
    }

    /** Only the oldest `l` loads and `s` stores stay. */
    method Keep(l: nat, s: nat)
      requires lqHead + l < 2 * |lq| && sqHead + s < 2 * |sq|
      modifies this`lqTail, this`lqCnt, this`sqTail, this`sqCnt
      ensures View() == old(View()).(lqCnt := l, lqTail := Wrap(old(lqHead) + l, |old(lq)|),
                                     sqCnt := s, sqTail := Wrap(old(sqHead) + s, |old(sq)|))
    {
      lqCnt, lqTail := l, Wrap(lqHead + l, |lq|);
      sqCnt, sqTail := s, Wrap(sqHead + s, |sq|);
    }

    method ApplySquash(x: In)
      requires View().Shape() && x.robHead < span && x.squashRob < span
      modifies this`lqHead, this`lqTail, this`lqCnt, this`sqHead, this`sqTail, this`sqCnt
      ensures View() == GSquash(old(View()), x)
    {
      if x.squashAll {
        lqHead, lqTail, lqCnt := 0, 0, 0;
        sqHead, sqTail, sqCnt := 0, 0, 0;
      } else if x.squashValid {
        var l, s := KeepCounts(x.robHead, x.squashRob);
        Keep(l, s);
      }
    }

    /** The order the harness applies a cycle in. */
    method Cycle(x: In)
      requires View().Shape() && x.Ok(View())
      modifies this
      ensures View() == GNext(old(View()), x)
    {
      GShapes(View(), x);
      ApplyDispatch(x);
      ApplyAddresses(x);
      ApplyCommit(x);
      ApplySquash(x);
    }
  }
}
