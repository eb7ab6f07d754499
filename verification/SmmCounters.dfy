/** The split counters of the page table do not count what they are there for: taking a block decrements
    the counter of the page behind it. */
module SmmCounters {
  import opened Common
  import opened SmmHeap
  import opened SmmTheory
  import opened SmmWords
  import opened SmmAnswers
  import opened SmmHeapCode

  /** Requests of a, b and a bytes, of classes c and d: the first two split a page each, the third takes a
      block of the first page. */
  predicate Plan(h: Heap, a: nat, b: nat, c: nat, d: nat) {
    && Good(h) && Serves(c, a) && Serves(d, b) && c != d
    && h.free[c] == [] && h.free[d] == [] && h.brk + 2 * PAGE <= h.size
  }

  lemma FirstHeap(h0: Heap, h1: Heap, a: nat, b: nat, c: nat, d: nat)
    requires Plan(h0, a, b, c, d) && h1 == Malloc(h0, a).0
    ensures Good(h1) && h1.size == h0.size && h1.start == h0.start && h1.brk == h0.brk + PAGE && h1.free[d] == []
    ensures h1.free[c] != [] && h0.brk < h1.free[c][0].off < h0.brk + PAGE
  {
    MallocGood(h0, a);
    SmallAnsweredIff(h0, a, c);
    FirstOfPage(h1.free[c], h0.brk, c);
  }

  /** A split page has a second block, and its last one is the first on the list. */
  lemma FirstOfPage(bs: seq<Block>, page: int, c: nat)
    requires 4 <= c <= 11 && Cut(bs, page, Pow(c))
    ensures bs != [] && page < bs[0].off < page + PAGE
  {
    PowValues();
    assert bs == [] ==> (|bs| + 1) * Pow(c) == Pow(c);
    if bs != [] { assert bs[0] == Block(page + (|bs| - 0) * Pow(c), Pow(c)); }
  }

  lemma SecondHeap(h1: Heap, h2: Heap, b: nat, c: nat, d: nat)
    requires Good(h1) && Serves(d, b) && c != d && c <= 11 && h1.free[d] == [] && h1.brk + PAGE <= h1.size
    requires h2 == Malloc(h1, b).0
    ensures Good(h2) && h2.start == h1.start && h2.free[c] == h1.free[c]
  {
    MallocGood(h1, b);
    SmallAnsweredIff(h1, b, d);
  }

  lemma TableOfSplit(m: seq<int>, m': seq<int>, h: Heap, size: nat, c: nat)
    requires Good(h) && Serves(c, size) && h.free[c] == [] && h.brk + PAGE <= h.size && Tabled(m, m', h, size)
    ensures SplitEntered(m, m', h, c)
  {
    ServingClass(c, size);
    SmallAnsweredIff(h, size, c);
  }

  lemma TableOfPop(m: seq<int>, m': seq<int>, h: Heap, size: nat, c: nat)
    requires Good(h) && Serves(c, size) && h.free[c] != [] && Tabled(m, m', h, size)
    ensures PopEntered(m, m', h, c)
  {
    ServingClass(c, size);
    SmallAnsweredIff(h, size, c);
  }

  /** Entry p counts all but one block of its page of class c, entry p + 1 all but two of its page of class d. */
  predicate Miscounted(m: seq<int>, p: int, c: nat, d: nat) {
    && p >= 1 && Pte(p + 1) + 2 < |m|
    && c <= 12 && d <= 12 && m[Pte(p) + 1] == SubCount(c) - 1 && m[Pte(p + 1) + 1] == SubCount(d) - 2
  }

  lemma Places(n: nat, h0: Heap, h1: Heap, b: Block)
    requires BreakOk(h0) && BreakOk(h1) && Mapped(n, h0) && h1.size == h0.size && h1.start == h0.start
    requires h1.brk == h0.brk + PAGE && h1.brk + PAGE <= h1.size && h0.brk < b.off < h0.brk + PAGE
    ensures var p := h0.brk / PAGE;
            && p >= 1 && h1.brk / PAGE == p + 1 && PopEntry(b) == p + 1 && 4 * (Pte(p + 1) + 2) < h0.start
  {
    SplitEntry(n, h1);
    NextPage(h0.brk, b.off);
  }

  lemma NextPage(brk: int, off: int)
    requires brk % PAGE == 0 && brk < off < brk + PAGE && brk >= PAGE
    ensures (brk + PAGE) / PAGE == brk / PAGE + 1 && off / PAGE == brk / PAGE && brk / PAGE >= 1
  {
  }

  lemma SmallCount(d: nat)
    requires 4 <= d <= 11
    ensures 2 <= SubCount(d) <= 256
  {
    PowMono(1, 12 - d);
    PowMono(12 - d, 8);
    PowValues();
  }

  /** The entries after the three requests. */
  lemma Entries(m0: seq<int>, m1: seq<int>, m2: seq<int>, m3: seq<int>, h0: Heap, h1: Heap, h2: Heap,
                c: nat, d: nat, p: nat)
    requires SplitEntered(m0, m1, h0, c) && SplitEntered(m1, m2, h1, d) && c <= 11 && d <= 11
    requires c < |h2.free| && h2.free[c] != [] && PopEntered(m2, m3, h2, c)
    requires h0.brk / PAGE == p && h1.brk / PAGE == p + 1 && PopEntry(h2.free[c][0]) == p + 1 && p >= 1
    requires h1.start == h0.start && h2.start == h0.start && 4 * (Pte(p + 1) + 2) < h0.start
    ensures |m3| == |m0| && Miscounted(m3, p, c, d)
  {
    SmallCount(d);
  }

  /** After three requests that no check refuses and nothing disturbs, on any heap with two pages left: the
      first page, of which two blocks are handed out, counts as if one were, and the second, of which one is
      handed out, as if two were. */
  method WrongCounter(heap: SharedHeap, a: nat, b: nat, ghost c: nat, ghost d: nat, ghost h: Heap)
    requires heap.Valid(h) && Plan(h, a, b, c, d)
    modifies heap.mem
    ensures Miscounted(heap.mem[..], h.brk / PAGE, c, d)
  {
    ghost var m0, h1 := heap.mem[..], Malloc(h, a).0;
    var _, _ := heap.Request(a, h);
    FirstHeap(h, h1, a, b, c, d);
    ghost var m1, h2 := heap.mem[..], Malloc(h1, b).0;
    var _, _ := heap.Request(b, h1);
    SecondHeap(h1, h2, b, c, d);
    ghost var m2 := heap.mem[..];
    var _, _ := heap.Request(a, h2);
    ThreeTables(m0, m1, m2, heap.mem[..], h, h1, h2, a, b, c, d);
  }

  lemma ThreeTables(m0: seq<int>, m1: seq<int>, m2: seq<int>, m3: seq<int>, h0: Heap, h1: Heap, h2: Heap,
                    a: nat, b: nat, c: nat, d: nat)
    requires Plan(h0, a, b, c, d) && Mapped(|m0|, h0)
    requires h1 == Malloc(h0, a).0 && |h1.free| == 13 && h2 == Malloc(h1, b).0 && |h2.free| == 13
    requires Tabled(m0, m1, h0, a) && Tabled(m1, m2, h1, b) && Tabled(m2, m3, h2, a)
    ensures |m3| == |m0| && Miscounted(m3, h0.brk / PAGE, c, d)
  {
    FirstHeap(h0, h1, a, b, c, d);
    SecondHeap(h1, h2, b, c, d);
    TableOfSplit(m0, m1, h0, a, c);
    TableOfSplit(m1, m2, h1, b, d);
    TableOfPop(m2, m3, h2, a, c);
    Places(|m0|, h0, h1, h2.free[c][0]);
    Entries(m0, m1, m2, m3, h0, h1, h2, c, d, h0.brk / PAGE);
  }
}
