/** Circular buffers: the sequence held by a window of consecutive slots that
    may wrap around the end of a fixed array. The free list, the reorder
    buffer, both memory queues and the response FIFO are all read this way. */
module Ring {
  import opened Arith

  /** The slot reached by walking `x` steps from slot 0 of a `d`-slot buffer,
      for a walk that wraps at most once. */
  function Wrap(x: nat, d: nat): (r: nat)
    requires x < 2 * d
    ensures r < d
  {
    if x < d then x else x - d
  }

  lemma WrapIsMod(x: nat, d: nat)
    requires 0 < d && x < 2 * d
    ensures Wrap(x, d) == x % d
  {
    if x >= d {
      DivUnique(x, d, 1, x - d);
    } else {
      DivUnique(x, d, 0, x);
    }
  }

  /** The `n` elements starting at slot `head`, in order. */
  function Window<T>(buf: seq<T>, head: nat, n: nat): (w: seq<T>)
    requires head < |buf| && n <= |buf|
    ensures |w| == n
    ensures forall i :: 0 <= i < n ==> w[i] == buf[Wrap(head + i, |buf|)]
  {
    seq(n, i requires 0 <= i < n => buf[Wrap(head + i, |buf|)])
  }

  /** Writing the slot `k` steps after the head replaces element `k` of the
      window, or nothing when the slot lies past the window. */
  lemma WindowUpdate<T>(buf: seq<T>, head: nat, n: nat, k: nat, v: T)
    requires head < |buf| && n <= |buf| && k < |buf|
    ensures Window(buf[Wrap(head + k, |buf|) := v], head, n)
         == if k < n then Window(buf, head, n)[k := v] else Window(buf, head, n)
  {
  }

  lemma WindowPush<T>(buf: seq<T>, head: nat, n: nat, v: T)
    requires head < |buf| && n < |buf|
    ensures Window(buf[Wrap(head + n, |buf|) := v], head, n + 1) == Window(buf, head, n) + [v]
  {
  }

  lemma WindowSplit<T>(buf: seq<T>, head: nat, n: nat, m: nat)
    requires head < |buf| && n + m <= |buf|
    ensures Window(buf, head, n + m) == Window(buf, head, n) + Window(buf, Wrap(head + n, |buf|), m)
  {
  }

  lemma WindowPop<T>(buf: seq<T>, head: nat, n: nat)
    requires head < |buf| && 0 < n <= |buf|
    ensures Window(buf, head, n) == [buf[head]] + Window(buf, Wrap(head + 1, |buf|), n - 1)
  {
  }
}
