/** What an assembled program is, byte for byte: which lines are accepted, where
    every statement and label goes, and what the image holds. */
module AsmImage {
  import opened Arith
  import opened Bytes
  import opened ByteMemory
  import opened RiscvM
  import Iss
  import opened CoreMem
  import opened Asm
  import opened AsmProof
  import opened AsmLayout

  // ---------------------------------------------------------------- first pass

  /** Where the program counter goes from `pc` over a statement. An alignment
      leads to the first multiple that the rounding finds. */
  predicate Moves(s: Maybe<Stmt>, pc: int, next: int) {
    match s
    case None => next == pc
    case Some(Word(_)) => next == pc + 4
    case Some(DWord(_)) => next == pc + 8
    case Some(Code(_)) => next == pc + 4
    case Some(Org(to)) => next == to
    case Some(Align(n)) =>
      && (n > 0 ==> pc <= next < pc + n && next % n == 0)
      && (n < 0 ==> pc + n - 1 <= next < pc - 1 && next % -n == 0)
      && n != 0
  }

  /** The statement of one line with its address: an alignment or `.org` stands
      where it leads to, everything else where it starts. */
  function Listed(s: Maybe<Stmt>, pc: int, next: int): seq<Placed> {
    match s
    case None => []
    case Some(st) => [Placed(st, if st.Align? || st.Org? then next else pc)]
  }

  /** The statements of all lines. */
  function Listing(lines: seq<Line>, pcs: seq<int>): seq<Placed>
    requires |pcs| == |lines| + 1
  {
    if lines == [] then []
    else
      var n := |lines| - 1;
      Listing(lines[..n], pcs[..n + 1]) + Listed(lines[n].stmt, pcs[n], pcs[n + 1])
  }

  /** `pcs[n]` is the address at which line `n` starts. */
  predicate Walks(lines: seq<Line>, pcs: seq<int>) {
    && |pcs| == |lines| + 1 && pcs[0] == 0
    && forall n :: 0 <= n < |lines| ==> Moves(lines[n].stmt, pcs[n], pcs[n + 1])
  }

  /** Labels are the names on the lines, each with its line's address. */
  predicate Names(lines: seq<Line>, pcs: seq<int>, labels: Labels)
    requires |pcs| == |lines| + 1
  {
    && (forall n :: 0 <= n < |lines| && lines[n].name.Some? ==>
          lines[n].name.get in labels && labels[lines[n].name.get] == pcs[n])
    && (forall l :: l in labels ==> exists n :: 0 <= n < |lines| && lines[n].name == Some(l))
  }

  /** No label twice, no alignment to zero. */
  predicate WellFormed(lines: seq<Line>) {
    && (forall m, n :: 0 <= m < n < |lines| && lines[m].name.Some? ==> lines[m].name != lines[n].name)
    && (forall n :: 0 <= n < |lines| ==> lines[n].stmt != Some(Align(0)))
  }

  lemma MultipleOf(q: int, n: nat)
    requires n > 0
    ensures (q * n) % n == 0
  {
    assert q * n == n * q + 0;
    DivUnique(q * n, n, q, 0);
  }

  /** Rounding down to a multiple. */
  lemma RoundDown(x: int, n: nat)
    requires n > 0
    ensures x - n < (x / n) * n <= x && ((x / n) * n) % n == 0
  {
    DivModAgain(x, n);
    assert (x / n) * n == n * (x / n);
    MultipleOf(x / n, n);
  }

  lemma AlignMoves(pc: int, n: int)
    requires n != 0
    ensures Moves(Some(Align(n)), pc, FloorDiv(pc + n - 1, n) * n)
  {
    if n > 0 {
      RoundDown(pc + n - 1, n);
    } else {
      var q := -(pc + n - 1) / -n;
      RoundDown(-(pc + n - 1), -n);
      assert q * n == (-q) * -n;
      MultipleOf(-q, -n);
      NegativeProduct(q, n);
    }
  }

  lemma StepWalks(lines: seq<Line>, pcs: seq<int>, p: Pass)
    requires lines != []
    requires Walks(lines[..|lines| - 1], pcs) && p.pc == pcs[|lines| - 1]
    requires TakeLine(p, lines[|lines| - 1]).Ok?
    ensures Walks(lines, pcs + [TakeLine(p, lines[|lines| - 1]).value.pc])
  {
    var m := |lines| - 1;
    var s := lines[m].stmt;
    if s.Some? && s.get.Align? { AlignMoves(p.pc, s.get.n); }
    var next := TakeLine(p, lines[m]).value.pc;
    assert Moves(s, p.pc, next);
    forall n | 0 <= n < |lines|
      ensures Moves(lines[n].stmt, (pcs + [next])[n], (pcs + [next])[n + 1])
    {
      if n < m { assert lines[..m][n] == lines[n]; }
    }
  }

  lemma StepNames(lines: seq<Line>, pcs: seq<int>, p: Pass, next: int)
    requires lines != [] && |pcs| == |lines| && p.pc == pcs[|lines| - 1]
    requires Names(lines[..|lines| - 1], pcs, p.labels)
    requires Define(p, lines[|lines| - 1].name).Ok?
    ensures Names(lines, pcs + [next], Define(p, lines[|lines| - 1].name).value.labels)
  {
    var m := |lines| - 1;
    var labels := Define(p, lines[m].name).value.labels;
    forall n | 0 <= n < |lines| && lines[n].name.Some?
      ensures lines[n].name.get in labels && labels[lines[n].name.get] == (pcs + [next])[n]
    {
      if n < m { assert lines[..m][n] == lines[n]; }
    }
    forall l | l in labels
      ensures exists n :: 0 <= n < |lines| && lines[n].name == Some(l)
    {
      if l in p.labels {
        var n :| 0 <= n < m && lines[..m][n].name == Some(l);
        assert lines[n].name == Some(l);
      } else {
        assert lines[m].name == Some(l);
      }
    }
  }

  /** The address, label and listing parts for what the first pass yields. */
  predicate Means(lines: seq<Line>, pcs: seq<int>, p: Pass) {
    && Walks(lines, pcs) && p.pc == pcs[|lines|]
    && Names(lines, pcs, p.labels)
    && p.stmts == Listing(lines, pcs)
  }

  lemma TakeListed(p: Pass, l: Line)
    requires TakeLine(p, l).Ok?
    ensures var q := TakeLine(p, l).value; q.stmts == p.stmts + Listed(l.stmt, p.pc, q.pc)
  {
    if l.stmt.None? { assert p.stmts == p.stmts + []; }
  }

  lemma ListingSnoc(lines: seq<Line>, pcs: seq<int>, next: int)
    requires lines != [] && |pcs| == |lines|
    ensures var m := |lines| - 1;
            Listing(lines, pcs + [next]) == Listing(lines[..m], pcs) + Listed(lines[m].stmt, pcs[m], next)
  {
    assert (pcs + [next])[..|lines|] == pcs;
  }

  lemma StepListing(lines: seq<Line>, pcs: seq<int>, p: Pass)
    requires lines != [] && |pcs| == |lines| && p.pc == pcs[|lines| - 1]
    requires p.stmts == Listing(lines[..|lines| - 1], pcs)
    requires TakeLine(p, lines[|lines| - 1]).Ok?
    ensures var q := TakeLine(p, lines[|lines| - 1]).value; q.stmts == Listing(lines, pcs + [q.pc])
  {
    TakeListed(p, lines[|lines| - 1]);
    ListingSnoc(lines, pcs, TakeLine(p, lines[|lines| - 1]).value.pc);
  }

  lemma StepMeans(lines: seq<Line>, pcs: seq<int>, p: Pass)
    requires lines != [] && Means(lines[..|lines| - 1], pcs, p) && TakeLine(p, lines[|lines| - 1]).Ok?
    ensures var q := TakeLine(p, lines[|lines| - 1]).value; Means(lines, pcs + [q.pc], q)
  {
    StepWalks(lines, pcs, p);
    StepNames(lines, pcs, p, TakeLine(p, lines[|lines| - 1]).value.pc);
    StepListing(lines, pcs, p);
  }

  /** What the first pass yields for an accepted program. */
  lemma {:induction false} FirstPassMeans(lines: seq<Line>) returns (pcs: seq<int>)
    requires Pass1(lines).Ok?
    ensures Walks(lines, pcs) && Pass1(lines).value.pc == pcs[|lines|]
    ensures Names(lines, pcs, Pass1(lines).value.labels)
    ensures Pass1(lines).value.stmts == Listing(lines, pcs)
    decreases |lines|
  {
    if lines == [] {
      pcs := [0];
    } else {
      pcs := FirstPassMeans(lines[..|lines| - 1]);
      StepMeans(lines, pcs, Pass1(lines[..|lines| - 1]).value);
      pcs := pcs + [Pass1(lines).value.pc];
    }
  }

  /** A first pass that fails on no line before the last. */
  lemma {:induction false} FirstPassIff(lines: seq<Line>)
    ensures Pass1(lines).Ok? <==> WellFormed(lines)
    decreases |lines|
  {
    if lines != [] {
      var n := |lines| - 1;
      FirstPassIff(lines[..n]);
      if Pass1(lines[..n]).Ok? {
        var pcs := FirstPassMeans(lines[..n]);
        LastLineIff(lines, pcs, Pass1(lines[..n]).value);
      } else {
        ShorterFormed(lines);
      }
    }
  }

  lemma ShorterFormed(lines: seq<Line>)
    requires lines != []
    ensures WellFormed(lines) ==> WellFormed(lines[..|lines| - 1])
  {
  }

  lemma LastLineIff(lines: seq<Line>, pcs: seq<int>, p: Pass)
    requires lines != [] && |pcs| == |lines| && WellFormed(lines[..|lines| - 1])
    requires Names(lines[..|lines| - 1], pcs, p.labels)
    ensures TakeLine(p, lines[|lines| - 1]).Ok? <==> WellFormed(lines)
  {
    var m := |lines| - 1;
    if lines[m].name.Some? && lines[m].name.get in p.labels {
      var n :| 0 <= n < m && lines[..m][n].name == Some(lines[m].name.get);
      assert lines[n].name == lines[m].name;
    }
    if TakeLine(p, lines[m]).Ok? {
      forall j, k | 0 <= j < k < |lines| && lines[j].name.Some?
        ensures lines[j].name != lines[k].name
      {
        assert lines[..m][j].name == lines[j].name;
        if k < m { assert lines[..m][k].name == lines[k].name; }
      }
      forall k | 0 <= k < |lines|
        ensures lines[k].stmt != Some(Align(0))
      {
        if k < m { assert lines[..m][k].stmt == lines[k].stmt; }
      }
    }
  }

  // ---------------------------------------------------------------- second pass

  /** The statement can be turned into bytes: data is a number or a known label
      (no addend), and some word says what an instruction says. */
  ghost predicate Writable(p: Placed, labels: Labels) {
    match p.stmt
    case Word(t) => exists v :: Reaches(t, 0, labels, v)
    case DWord(t) => exists v :: Reaches(t, 0, labels, v)
    case Align(_) => true
    case Org(_) => true
    case Code(i) => UpperFits(i) && exists w: nat :: w < TWO32 && ReadsBack(i, p.addr, labels, w)
  }

  lemma DataIff(t: Target, labels: Labels)
    ensures Offset(t, 0, labels).Ok? <==> exists v :: Reaches(t, 0, labels, v)
  {
    if Offset(t, 0, labels).Ok? {
      assert Reaches(t, 0, labels, Offset(t, 0, labels).value);
    }
  }

  lemma WritableIff(buf: seq<byte>, p: Placed, labels: Labels)
    requires p.stmt.Code? ==> p.stmt.i.Parsed()
    ensures Emit(buf, p, labels).Ok? <==> Writable(p, labels)
  {
    match p.stmt
    case Word(t) => DataIff(t, labels);
    case DWord(t) => DataIff(t, labels);
    case Code(i) => AcceptedIff(i, p.addr, labels);
    case _ =>
  }

  predicate AllParsed(stmts: seq<Placed>) {
    forall k :: 0 <= k < |stmts| && stmts[k].stmt.Code? ==> stmts[k].stmt.i.Parsed()
  }

  ghost predicate AllWritable(stmts: seq<Placed>, labels: Labels) {
    forall k :: 0 <= k < |stmts| ==> Writable(stmts[k], labels)
  }

  lemma AllWritableSnoc(stmts: seq<Placed>, labels: Labels)
    requires stmts != []
    ensures var n := |stmts| - 1;
            AllWritable(stmts, labels) <==> AllWritable(stmts[..n], labels) && Writable(stmts[n], labels)
  {
    var n := |stmts| - 1;
    if AllWritable(stmts[..n], labels) && Writable(stmts[n], labels) {
      forall k | 0 <= k < |stmts|
        ensures Writable(stmts[k], labels)
      {
        if k < n { assert stmts[..n][k] == stmts[k]; }
      }
    }
  }

  lemma AllParsedPrefix(stmts: seq<Placed>)
    requires AllParsed(stmts) && stmts != []
    ensures AllParsed(stmts[..|stmts| - 1])
  {
  }

  /** The second pass succeeds exactly when every statement can be written. */
  lemma {:induction false} SecondPassIff(stmts: seq<Placed>, labels: Labels)
    requires AllParsed(stmts)
    ensures Pass2(stmts, labels).Ok? <==> AllWritable(stmts, labels)
    decreases |stmts|
  {
    if stmts != [] {
      var n := |stmts| - 1;
      AllParsedPrefix(stmts);
      AllWritableSnoc(stmts, labels);
      SecondPassIff(stmts[..n], labels);
      var b := Pass2(stmts[..n], labels);
      if b.Ok? { WritableIff(b.value, stmts[n], labels); }
    }
  }

  // ---------------------------------------------------------------- the image

  /** A program without backward `.org` that assembles. */
  predicate Assembles(lines: seq<Line>) {
    && Forward(lines) && Pass1(lines).Ok?
    && Pass2(Pass1(lines).value.stmts, Pass1(lines).value.labels).Ok?
  }

  function Image(lines: seq<Line>): seq<byte>
    requires Assembles(lines)
  {
    Pass2(Pass1(lines).value.stmts, Pass1(lines).value.labels).value
  }

  predicate Is32(t: Target, labels: Labels, v: nat) {
    match t
    case Label(name) => name in labels && v == labels[name] % 0x1_0000_0000
    case Number(n) => v == n % 0x1_0000_0000
    case LabelPlus(_, _) => false
  }

  predicate Is64(t: Target, labels: Labels, v: nat) {
    match t
    case Label(name) => name in labels && v == labels[name] % 0x1_0000_0000_0000_0000
    case Number(n) => v == n % 0x1_0000_0000_0000_0000
    case LabelPlus(_, _) => false
  }

  /** Splitting a number that fits and joining it again. */
  lemma Joined(v: nat, n: nat)
    requires (n == 4 && v < TWO32) || (n == 8 && v < TWO64)
    ensures FromBytes(ToBytes(v, n)) == v
  {
    RoundTrip(v, n);
    Pow256Values();
    DivUnique(v, Pow256(n), 0, v);
  }

  lemma DWordValue(p: Placed, labels: Labels)
    requires p.stmt.DWord? && Contents(p, labels).Ok?
    ensures |Contents(p, labels).value| == 8 && Is64(p.stmt.d, labels, FromBytes(Contents(p, labels).value))
  {
    Joined(Offset(p.stmt.d, 0, labels).value % TWO64, 8);
  }

  lemma WordValue(p: Placed, labels: Labels)
    requires p.stmt.Word? && Contents(p, labels).Ok?
    ensures |Contents(p, labels).value| == 4 && Is32(p.stmt.w, labels, FromBytes(Contents(p, labels).value))
  {
    Joined(Offset(p.stmt.w, 0, labels).value % TWO32, 4);
  }

  lemma LoadsBack(buf: seq<byte>, a: nat, n: nat)
    requires a + n <= |buf| && a + n <= Iss.IMAGE && n > 0
    ensures n == 4 ==> Iss.Load32(Loaded(buf), a) == FromBytes(buf[a..a + n])
    ensures n == 8 ==> Iss.Load64(Loaded(buf), a) == FromBytes(buf[a..a + n])
  {
    DivUnique(a, Iss.IMAGE, 0, a);
    assert ReadBytes(Loaded(buf), a, n) == buf[a..a + n];
    if n == 4 { Load32Is(Loaded(buf), a); }
    if n == 8 { Load64Is(Loaded(buf), a); }
  }

  /** The eight bytes at `a`, least significant first, are the value of `t`, and a
      doubleword load from there gives it. */
  predicate DWordAt(buf: seq<byte>, a: int, t: Target, labels: Labels) {
    && 0 <= a && a + 8 <= |buf| && Is64(t, labels, FromBytes(buf[a..a + 8]))
    && (a + 8 <= Iss.IMAGE ==> Is64(t, labels, Iss.Load64(Loaded(buf), a)))
  }

  /** The same for four bytes and a word load. */
  predicate WordAt(buf: seq<byte>, a: int, t: Target, labels: Labels) {
    && 0 <= a && a + 4 <= |buf| && Is32(t, labels, FromBytes(buf[a..a + 4]))
    && (a + 4 <= Iss.IMAGE ==> Is32(t, labels, Iss.Load32(Loaded(buf), a)))
  }

  lemma WrittenDWord(buf: seq<byte>, p: Placed, labels: Labels)
    requires p.stmt.DWord? && Written(buf, p, labels)
    ensures DWordAt(buf, p.addr, p.stmt.d, labels)
  {
    DWordValue(p, labels);
    if p.addr + 8 <= Iss.IMAGE { LoadsBack(buf, p.addr, 8); }
  }

  lemma WrittenWord(buf: seq<byte>, p: Placed, labels: Labels)
    requires p.stmt.Word? && Written(buf, p, labels)
    ensures WordAt(buf, p.addr, p.stmt.w, labels)
  {
    WordValue(p, labels);
    if p.addr + 4 <= Iss.IMAGE { LoadsBack(buf, p.addr, 4); }
  }

  lemma PlacedIntact(lines: seq<Line>, k: nat)
    requires Assembles(lines) && k < |Pass1(lines).value.stmts| && !Marks(Pass1(lines).value.stmts[k].stmt)
    ensures Written(Image(lines), Pass1(lines).value.stmts[k], Pass1(lines).value.labels)
  {
    Pass1Packed(lines);
    Intact(Pass1(lines).value.stmts, Pass1(lines).value.labels, k);
  }

  /** Every `.dword` of an assembled program is in the image with its value. */
  lemma DWordIntact(lines: seq<Line>, k: nat, t: Target, a: int)
    requires Assembles(lines) && k < |Pass1(lines).value.stmts|
    requires Pass1(lines).value.stmts[k] == Placed(DWord(t), a)
    ensures DWordAt(Image(lines), a, t, Pass1(lines).value.labels)
  {
    PlacedIntact(lines, k);
    WrittenDWord(Image(lines), Pass1(lines).value.stmts[k], Pass1(lines).value.labels);
  }

  /** And every `.word`. */
  lemma WordIntact(lines: seq<Line>, k: nat, t: Target, a: int)
    requires Assembles(lines) && k < |Pass1(lines).value.stmts|
    requires Pass1(lines).value.stmts[k] == Placed(Stmt.Word(t), a)
    ensures WordAt(Image(lines), a, t, Pass1(lines).value.labels)
  {
    PlacedIntact(lines, k);
    WrittenWord(Image(lines), Pass1(lines).value.stmts[k], Pass1(lines).value.labels);
  }

  /** The first pass ends where its last statement does. */
  lemma {:induction false} PcIsEnd(lines: seq<Line>)
    requires Pass1(lines).Ok?
    ensures Pass1(lines).value.pc == End(Pass1(lines).value.stmts)
    decreases |lines|
  {
    if lines != [] {
      PcIsEnd(lines[..|lines| - 1]);
    }
  }

  /** The image is as long as the program, and what no statement covers is zero. */
  lemma ImageExtent(lines: seq<Line>, a: nat)
    requires Assembles(lines)
    ensures |Image(lines)| == Pass1(lines).value.pc
    ensures a < |Image(lines)| && Uncovered(Pass1(lines).value.stmts, a) ==> Image(lines)[a] == 0
  {
    var p := Pass1(lines).value;
    Pass1Packed(lines);
    PcIsEnd(lines);
    ImageEnds(p.stmts, p.labels);
    if a < |Image(lines)| && Uncovered(p.stmts, a) {
      GapsAreZero(p.stmts, p.labels, a);
    }
  }

  // ---------------------------------------------------------------- below address 0

  lemma BoundsBelow(n: nat, k: nat, m: nat)
    requires 0 < m <= k <= n
    ensures Bound(0 - k, n) == n - k && Bound(m - k, n) == if m < k then n - k + m else 0
  {
  }

  lemma SpliceBelow(buf: seq<byte>, k: nat, s: seq<byte>)
    requires 0 < |s| <= k <= |buf|
    ensures var at := |buf| - k;
            Splice(buf, 0 - k, s) == buf[..at] + s + buf[if |s| < k then at + |s| else at..]
  {
    BoundsBelow(|buf|, k, |s|);
  }

  /** `.org` may set a negative address. Bytes placed `k` before address 0 go `k`
      before the end of the image so far; they replace what is there, except that
      bytes which would end exactly at address 0 are inserted instead. */
  lemma BelowZero(buf: seq<byte>, p: Placed, labels: Labels, k: nat)
    requires p.addr == 0 - k && 0 < Size(p.stmt) <= k <= |buf| && Emit(buf, p, labels).Ok?
    ensures Contents(p, labels).Ok?
    ensures var s, at := Contents(p, labels).value, |buf| - k;
            && |s| == Size(p.stmt)
            && Emit(buf, p, labels).value == buf[..at] + s + buf[if |s| < k then at + |s| else at..]
  {
    SpliceBelow(buf, k, Contents(p, labels).value);
  }
}
