/** Who enters the load/store queue, and behind whom. */
module LsqDispatch {
  import opened Bytes
  import opened Ring
  import opened Lsq
  import opened LsqAbs
  import opened LsqSearch
  import opened LsqProof

  /** The queue a request is for has a place left, `taken` of them being given away
      before it. */
  predicate Fits(q: Queues, load: bool, taken: nat)
    requires q.Shape()
  {
    if load then |q.Loads()| + taken < |q.lq| else |q.Stores()| + taken < |q.sq|
  }

  /** A request is taken exactly when no squash is under way and its queue has a
      place, counting the place of a first request for the same queue. */
  lemma TakenIff(q: Queues, x: In)
    requires q.Shape()
    ensures var o := OfferOf(q, x);
            var first := x.disp0.valid && o.ready0 && x.disp0.isLoad == x.disp1.isLoad;
            && (o.ready0 <==> !x.squashValid && !x.squashAll && Fits(q, x.disp0.isLoad, 0))
            && (o.ready1 <==> !x.squashValid && !x.squashAll && Fits(q, x.disp1.isLoad, if first then 1 else 0))
  {
  }

  /** The indices of the requests of one kind that are taken, in order. */
  function Entering(o: Offer, x: In, load: bool): seq<nat> {
    (if x.disp0.valid && o.ready0 && x.disp0.isLoad == load then [x.disp0.rob] else [])
    + (if x.disp1.valid && o.ready1 && x.disp1.isLoad == load then [x.disp1.rob] else [])
  }

  /** What a commit leaves of a queue. */
  function Behind(robs: seq<nat>, commit: bool): seq<nat> {
    if commit && robs != [] then robs[1..] else robs
  }

  lemma MarkedRobs(q: Queues, x: In, ldAt: nat, stAt: nat)
    requires q.Shape() && x.Ok(q)
    ensures LoadRobs(LoadsMarked(q, x, ldAt)) == LoadRobs(q.Loads())
    ensures StoreRobs(StoresMarked(q, x, stAt)) == StoreRobs(q.Stores())
  {
  }

  lemma NewRobs(q: Queues, x: In)
    requires q.Shape()
    ensures LoadRobs(LoadsNew(q, x)) == Entering(OfferOf(q, x), x, true)
    ensures StoreRobs(StoresNew(q, x)) == Entering(OfferOf(q, x), x, false)
  {
  }

  lemma LoadRobsJoin(w: seq<LqEntry>, news: seq<LqEntry>, c: nat)
    requires c <= |w|
    ensures LoadRobs(w[c..] + news) == LoadRobs(w)[c..] + LoadRobs(news)
  {
  }

  lemma StoreRobsJoin(w: seq<SqEntry>, news: seq<SqEntry>, c: nat)
    requires c <= |w|
    ensures StoreRobs(w[c..] + news) == StoreRobs(w)[c..] + StoreRobs(news)
  {
  }

  /** Without a squash each queue is what it was, less what commits, followed by
      the requests that were taken, in order. */
  lemma LoadsEnter(q: Queues, x: In, ldAt: nat)
    requires q.Shape() && x.Ok(q) && !Squashing(x)
    requires x.ldValid ==> ldAt < q.lqCnt && x.ldIdx == Wrap(q.lqHead + ldAt, |q.lq|)
    ensures var n := LqPtrs(q, x);
            LoadRobs(Window(LqArray(q, x), n.head, n.cnt))
            == Behind(LoadRobs(q.Loads()), x.commitLoad) + Entering(OfferOf(q, x), x, true)
  {
    NextLoads(q, x, ldAt);
    MarkedRobs(q, x, ldAt, 0);
    NewRobs(q, x);
    var w, c := LoadsMarked(q, x, ldAt), Pops(x.commitLoad, q.lqCnt);
    assert w[c..q.lqCnt] == w[c..];
    LoadRobsJoin(w, LoadsNew(q, x), c);
  }

  lemma StoresEnter(q: Queues, x: In, stAt: nat)
    requires q.Shape() && x.Ok(q) && !Squashing(x)
    requires x.stValid ==> stAt < q.sqCnt && x.stIdx == Wrap(q.sqHead + stAt, |q.sq|)
    ensures var n := SqPtrs(q, x);
            StoreRobs(Window(SqArray(q, x), n.head, n.cnt))
            == Behind(StoreRobs(q.Stores()), x.commitStore) + Entering(OfferOf(q, x), x, false)
  {
    NextStores(q, x, stAt);
    MarkedRobs(q, x, 0, stAt);
    NewRobs(q, x);
    var w, c := StoresMarked(q, x, stAt), Pops(x.commitStore, q.sqCnt);
    assert w[c..q.sqCnt] == w[c..];
    StoreRobsJoin(w, StoresNew(q, x), c);
  }

  lemma LoadSitsWhereTold(q: Queues, x: In)
    requires q.Shape() && x.Ok(q)
    ensures var o, lq := OfferOf(q, x), LqArray(q, x);
            && (x.disp0.valid && o.ready0 && x.disp0.isLoad ==> lq[o.lqAt0].rob == x.disp0.rob)
            && (x.disp1.valid && o.ready1 && x.disp1.isLoad ==> lq[o.lqAt1].rob == x.disp1.rob)
  {
  }

  lemma StoreSitsWhereTold(q: Queues, x: In)
    requires q.Shape() && x.Ok(q)
    ensures var o, sq := OfferOf(q, x), SqArray(q, x);
            && (x.disp0.valid && o.ready0 && !x.disp0.isLoad ==> sq[o.sqAt0].rob == x.disp0.rob)
            && (x.disp1.valid && o.ready1 && !x.disp1.isLoad ==> sq[o.sqAt1].rob == x.disp1.rob)
  {
  }

  /** And each sits in the slot that was announced to it. */
  lemma EntersWhereTold(q: Queues, x: In)
    requires q.Shape() && x.Ok(q)
    ensures var o, r := OfferOf(q, x), Next(q, x);
            && (x.disp0.valid && o.ready0 && x.disp0.isLoad ==> r.lq[o.lqAt0].rob == x.disp0.rob)
            && (x.disp0.valid && o.ready0 && !x.disp0.isLoad ==> r.sq[o.sqAt0].rob == x.disp0.rob)
            && (x.disp1.valid && o.ready1 && x.disp1.isLoad ==> r.lq[o.lqAt1].rob == x.disp1.rob)
            && (x.disp1.valid && o.ready1 && !x.disp1.isLoad ==> r.sq[o.sqAt1].rob == x.disp1.rob)
  {
    LoadSitsWhereTold(q, x);
    StoreSitsWhereTold(q, x);
  }
}
