/** Which requests the allocator answers, and with which block. */
module SmmAnswers {
  import opened Common
  import opened SmmHeap
  import opened SmmTheory
  import opened SmmRuns

  /** The length asked for, at least 8 bytes. */
  function AtLeastEight(size: nat): nat { if size < 8 then 8 else size }

  /** Blocks of class c answer requests of `size` bytes: at least twice and less than four times the request. */
  predicate Serves(c: nat, size: nat) {
    4 <= c <= 11 && 0 < size <= 1024 && 2 * AtLeastEight(size) <= Pow(c) < 4 * AtLeastEight(size)
  }

  /** One class serves a request. */
  lemma OneClass(c: nat, d: nat, x: nat)
    requires 2 * x <= Pow(c) < 4 * x && 2 * x <= Pow(d) < 4 * x
    ensures c == d
  {
    Doubles(c, d);
    Doubles(d, c);
  }

  lemma Doubles(a: nat, b: nat)
    ensures a < b ==> 2 * Pow(a) <= Pow(b)
  {
    if a < b { PowMono(a + 1, b); }
  }

  lemma ServingClass(c: nat, size: nat)
    requires Serves(c, size)
    ensures ClassOf(AtLeastEight(size)) == c
  {
    ClassBounds(AtLeastEight(size));
    OneClass(c, ClassOf(AtLeastEight(size)), AtLeastEight(size));
  }

  /** A request of 1..1024 bytes is answered if and only if its class has a free block or a page is left:
      with the first free block, or with the start of that page, whose other blocks become free.  A refused
      request changes nothing. */
  lemma SmallAnsweredIff(h: Heap, size: nat, c: nat)
    requires Good(h) && Serves(c, size)
    ensures var (h', r) := Malloc(h, size);
            && (r.Some? <==> h.free[c] != [] || h.brk + PAGE <= h.size)
            && (r.None? ==> h' == h)
            && (h.free[c] != [] ==>
                  && r == Some(h.free[c][0].off) && h'.live == h.live + [h.free[c][0]]
                  && h'.free == h.free[c := h.free[c][1..]] && h'.brk == h.brk)
            && (h.free[c] == [] && r.Some? ==>
                  && r == Some(h.brk) && h'.live == h.live + [Block(h.brk, Pow(c))] && h'.brk == h.brk + PAGE
                  && |h'.free| == 13 && (forall d | 0 <= d < 13 && d != c :: h'.free[d] == h.free[d])
                  && Cut(h'.free[c], h.brk, Pow(c)))
  {
    ServingClass(c, size);
    SmallPaths(h, c);
    if h.free[c] == [] { FreshBlocks(h, c); }
  }

  /** The blocks of a fresh page. */
  lemma FreshBlocks(h: Heap, c: nat)
    requires |h.free| == 13 && 4 <= c <= 11
    ensures var h' := Split(h, c);
            && h'.live == h.live + [Block(h.brk, Pow(c))] && h'.brk == h.brk + PAGE
            && |h'.free| == 13 && (forall d | 0 <= d < 13 && d != c :: h'.free[d] == h.free[d])
            && Cut(h'.free[c], h.brk, Pow(c))
  {
    PageSplits(c);
    CarvedCut(h.brk, c, SubCount(c) - 1, Pow(c));
  }

  lemma CarvedCut(page: int, c: nat, n: nat, p: nat)
    requires p == Pow(c) && (n + 1) * p == PAGE
    ensures Cut(Carved(page, c, n), page, p)
  {
  }

  /** All blocks of p bytes of the page but its first one, last one first. */
  predicate Cut(bs: seq<Block>, page: int, p: nat) {
    (|bs| + 1) * p == PAGE && forall k | 0 <= k < |bs| :: bs[k] == Block(page + (|bs| - k) * p, p)
  }

  /** A request above 2048 bytes that does not wrap is answered if and only if its pages fit below the
      heap's end, with the pages at the break. */
  lemma LargeAnsweredIff(h: Heap, size: nat, n: nat)
    requires Good(h) && 2048 < size && Sane(h, size) && n % PAGE == 0 && size <= n < size + PAGE
    ensures var (h', r) := Malloc(h, size);
            && (r.Some? <==> h.brk + n <= h.size)
            && (r.None? ==> h' == h)
            && (r.Some? ==>
                  && r == Some(h.brk) && h'.brk == h.brk + n && h'.live == h.live + [Block(h.brk, n)]
                  && h'.free == h.free)
  {
    LargeFits(h, size);
    OneMultiple(n / PAGE, Pages(size), size);
    assert n == n / PAGE * PAGE;
  }

  lemma OneMultiple(a: nat, b: nat, size: nat)
    requires size <= a * PAGE < size + PAGE && size <= b * PAGE < size + PAGE
    ensures a == b
  {
  }

  // --- Runs -------------------------------------------------------------------------------------------------

  /** Class c has no free block and no page is left for it. */
  predicate Exhausted(h: Heap, c: nat) {
    c < |h.free| && h.free[c] == [] && h.brk + PAGE > h.size
  }

  lemma StaysExhausted(h: Heap, size: nat, c: nat)
    requires Good(h) && Sane(h, size) && c <= 11 && Exhausted(h, c)
    ensures Exhausted(Malloc(h, size).0, c)
  {
    if size > 2048 {
      LargeFits(h, size);
    } else if size > 0 {
      var sz := if size <= 7 then 8 else size;
      ClassBounds(sz);
      SmallPaths(h, ClassOf(sz));
    }
  }

  lemma {:induction false} ExhaustedLater(size: nat, hs: seq<Heap>, reqs: seq<nat>, c: nat, i: nat, j: nat)
    requires IsRun(size, hs, reqs) && i <= j < |hs| && c <= 11 && Exhausted(hs[i], c)
    ensures Exhausted(hs[j], c)
    decreases j
  {
    if i < j {
      ExhaustedLater(size, hs, reqs, c, i, j - 1);
      RunGood(size, hs, reqs, j - 1);
      StaysExhausted(hs[j - 1], reqs[j - 1], c);
    }
  }

  /** In every run: a request of 1..1024 bytes is refused exactly when its class is exhausted, and then so
      is every later request of the same class. */
  lemma RefusedForGood(size: nat, hs: seq<Heap>, reqs: seq<nat>, c: nat, i: nat, j: nat)
    requires IsRun(size, hs, reqs) && i <= j < |reqs| && Serves(c, reqs[i]) && Serves(c, reqs[j])
    ensures Malloc(hs[i], reqs[i]).1.None? <==> Exhausted(hs[i], c)
    ensures Malloc(hs[i], reqs[i]).1.None? ==> Malloc(hs[j], reqs[j]).1.None?
  {
    RunGood(size, hs, reqs, i);
    RunGood(size, hs, reqs, j);
    SmallAnsweredIff(hs[i], reqs[i], c);
    SmallAnsweredIff(hs[j], reqs[j], c);
    if Exhausted(hs[i], c) { ExhaustedLater(size, hs, reqs, c, i, j); }
  }

  lemma {:induction false} BreakGrows(size: nat, hs: seq<Heap>, reqs: seq<nat>, i: nat, j: nat)
    requires IsRun(size, hs, reqs) && i <= j < |hs|
    ensures hs[i].brk <= hs[j].brk && hs[j].size == size
    decreases j
  {
    SameStart(size, hs, reqs, j);
    if i < j {
      BreakGrows(size, hs, reqs, i, j - 1);
      RunGood(size, hs, reqs, j - 1);
      BreakStep(hs[j - 1], reqs[j - 1]);
    }
  }

  lemma BreakStep(h: Heap, size: nat)
    requires Good(h) && Sane(h, size)
    ensures h.brk <= Malloc(h, size).0.brk
  {
    if size > 2048 {
      LargeFits(h, size);
    } else if size > 0 {
      var sz := if size <= 7 then 8 else size;
      ClassBounds(sz);
      SmallPaths(h, ClassOf(sz));
    }
  }

  /** A refused large request is followed by refusals of all that are at least as large. */
  lemma LargeRefusedForGood(size: nat, hs: seq<Heap>, reqs: seq<nat>, i: nat, j: nat)
    requires IsRun(size, hs, reqs) && i <= j < |reqs| && 2048 < reqs[i] <= reqs[j]
    requires Malloc(hs[i], reqs[i]).1.None?
    ensures Malloc(hs[j], reqs[j]).1.None?
  {
    RunGood(size, hs, reqs, i);
    RunGood(size, hs, reqs, j);
    BreakGrows(size, hs, reqs, i, j);
    SameStart(size, hs, reqs, i);
    LargeFits(hs[i], reqs[i]);
    LargeFits(hs[j], reqs[j]);
  }

  /** The first request: on a heap with a page left 1..1024 bytes are answered with the first data page. */
  lemma FirstSmall(size: nat, req: nat, c: nat)
    requires 0 < size < TWO31 - 2 * PAGE && DataStart(size) + PAGE <= size && Serves(c, req)
    ensures Malloc(InitHeap(size), req).1 == Some(DataStart(size))
  {
    InitGood(size);
    SmallAnsweredIff(InitHeap(size), req, c);
  }
}
