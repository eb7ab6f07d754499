/** Allocation safety, bounds and accounting of the shared-memory heap. */
module SmmTheory {
  import opened Common
  import opened SmmHeap

  // --- The invariant --------------------------------------------------------------------------

  predicate Apart(a: Block, b: Block) { a.off + a.len <= b.off || b.off + b.len <= a.off }

  /** A block lies between the first data page and the break. */
  predicate Inside(h: Heap, b: Block) { h.start <= b.off && 0 < b.len && b.off + b.len <= h.brk }

  /** No two of the blocks handed out and the blocks on free lists overlap. */
  predicate Separate(h: Heap)
    requires |h.free| == 13
  {
    LiveApart(h) && ListApart(h) && ListsApart(h) && LiveFreeApart(h)
  }

  predicate LiveApart(h: Heap) { forall i, j | 0 <= i < j < |h.live| :: Apart(h.live[i], h.live[j]) }

  predicate ListApart(h: Heap)
    requires |h.free| == 13
  {
    forall c, i, j | 4 <= c <= 11 && 0 <= i < j < |h.free[c]| :: Apart(h.free[c][i], h.free[c][j])
  }

  predicate ListsApart(h: Heap)
    requires |h.free| == 13
  {
    forall c, d, i, j | 4 <= c < d <= 11 && 0 <= i < |h.free[c]| && 0 <= j < |h.free[d]| ::
      Apart(h.free[c][i], h.free[d][j])
  }

  predicate LiveFreeApart(h: Heap)
    requires |h.free| == 13
  {
    forall i, c, j | 4 <= c <= 11 && 0 <= i < |h.live| && 0 <= j < |h.free[c]| ::
      Apart(h.live[i], h.free[c][j])
  }

  /** A free block of class c: aligned, of the class size, and never at the start of a page,
      because the first block of a carved page is handed out at once. */
  predicate FreeBlock(h: Heap, c: nat, b: Block) {
    Inside(h, b) && b.len == Pow(c) && b.off % Pow(c) == 0 && b.off % PAGE != 0
  }

  predicate Lists(h: Heap) {
    && |h.free| == 13
    && (forall c | 0 <= c < 13 && !(4 <= c <= 11) :: h.free[c] == [])
    && (forall c, i | 4 <= c <= 11 && 0 <= i < |h.free[c]| :: FreeBlock(h, c, h.free[c][i]))
  }

  /** Total number and total size of the free blocks of the classes below c. */
  function FreeNumber(free: seq<seq<Block>>, c: nat): nat
    requires c <= |free|
  {
    if c == 0 then 0 else FreeNumber(free, c - 1) + |free[c - 1]|
  }

  function SumLen(bs: seq<Block>): int { if bs == [] then 0 else bs[0].len + SumLen(bs[1..]) }

  function FreeSize(free: seq<seq<Block>>, c: nat): int
    requires c <= |free|
  {
    if c == 0 then 0 else FreeSize(free, c - 1) + SumLen(free[c - 1])
  }

  predicate Accounts(h: Heap)
    requires |h.free| == 13
  {
    && h.nfree == FreeNumber(h.free, |h.free|)
    && h.freeBytes == FreeSize(h.free, |h.free|)
    && h.used + h.freeBytes == h.brk - h.start
    && h.allocs == |h.live|
    && 16 * |h.live| <= h.used
  }

  /** The break is page-aligned and inside the heap; the size leaves signed room. */
  predicate BreakOk(h: Heap) {
    && h.size < TWO31 - 2 * PAGE && h.start < TWO31 - 2 * PAGE
    && 2 * PAGE <= h.start && h.brk % PAGE == 0 && h.start <= h.brk
    && (h.brk <= h.size || h.brk == h.start)
  }

  predicate Good(h: Heap) {
    && BreakOk(h)
    && Lists(h)
    && (forall i | 0 <= i < |h.live| :: Inside(h, h.live[i]))
    && Separate(h)
    && Accounts(h)
  }

  lemma InitGood(size: nat)
    requires 0 < size < TWO31 - 2 * PAGE && DataStart(size) < TWO31 - 2 * PAGE
    ensures Good(InitHeap(size))
  {
    var h := InitHeap(size);
    NoneFree(h.free, |h.free|);
  }

  lemma {:induction false} NoneFree(free: seq<seq<Block>>, c: nat)
    requires c <= |free| && forall i | 0 <= i < |free| :: free[i] == []
    ensures FreeNumber(free, c) == 0 && FreeSize(free, c) == 0
  {
    if c > 0 { NoneFree(free, c - 1); }
  }

  // --- Large requests ---------------------------------------------------------------------------

  /** No 32-bit step of a large request wraps: the page count, its byte count as a signed
      number, and the new break. */
  predicate Fits(h: Heap, size: nat) { size <= TWO32 - PAGE && Pages(size) * PAGE + h.brk < TWO31 }

  /** Division truncates toward zero: the remainder is less than a page and has the sign of x. */
  lemma PageDivTruncates(x: int)
    ensures var r := x - PAGE * PageDiv(x); -PAGE < r < PAGE && (x >= 0 ==> r >= 0) && (x <= 0 ==> r <= 0)
  {
  }

  lemma PagesExact(size: nat)
    requires 0 < size <= TWO32 - PAGE
    ensures 0 < Pages(size) && size <= Pages(size) * PAGE < size + PAGE
  {
  }

  lemma Signed(x: int)
    ensures -TWO31 <= x < TWO31 ==> I32(x) == x
    ensures TWO31 <= x < TWO32 ==> I32(x) == x - TWO32
    ensures 0 <= x < TWO32 ==> U32(x) == x
  {
  }

  lemma LargeFits(h: Heap, size: nat)
    requires BreakOk(h) && 2048 < size < TWO32 && Fits(h, size)
    ensures Pages(size) > 0 && size <= Pages(size) * PAGE < size + PAGE
    ensures var n := Pages(size) * PAGE;
            Large(h, size) == if h.brk + n > h.size then (h, None) else
              (h.(brk := h.brk + n, live := h.live + [Block(h.brk, n)], allocs := h.allocs + 1,
                  used := U32(h.used + n)), Some(h.brk))
  {
    PagesExact(size);
    var n := Pages(size) * PAGE;
    Signed(n);
    Signed(n + h.brk);
    Signed(n + h.brk - PAGE);
  }

  /** The large path either refuses and changes nothing, or hands out bytes between the first
      data page and the end of the heap -- if and only if nothing wraps. */
  lemma LargeSafeIff(h: Heap, size: nat)
    requires BreakOk(h) && h.brk <= h.size && 2048 < size < TWO32
    ensures var (h', r) := Large(h, size);
            Fits(h, size) <==>
            ((r.None? ==> h' == h) && (r.Some? ==> h.start <= r.value && r.value + size <= h.size))
  {
    if Fits(h, size) {
      LargeFits(h, size);
    } else {
      LargeWraps(h, size);
    }
  }

  lemma LargeWraps(h: Heap, size: nat)
    requires BreakOk(h) && h.brk <= h.size && 2048 < size < TWO32 && !Fits(h, size)
    ensures var (h', r) := Large(h, size);
            (r.None? && h' != h) || (r.Some? && (r.value < h.start || r.value + size > h.size))
  {
    if size <= TWO32 - PAGE {
      PagesExact(size);
      var n := Pages(size) * PAGE;
      Signed(n);
      assert I32(I32(n) + h.brk) == n + h.brk - TWO32;
    } else {
      assert U32(size + 4095) == size + 4095 - TWO32;
      assert Pages(size) == 0;
    }
  }

  lemma TimesMono(a: int, b: int, s: nat)
    requires a <= b
    ensures a * s <= b * s
  {
    assert (b - a) * s == b * s - a * s;
  }

  // --- Counting the free lists --------------------------------------------------------------------

  lemma {:induction false} FreeUpdate(free: seq<seq<Block>>, c: nat, bs: seq<Block>, k: nat)
    requires c < |free| && k <= |free|
    ensures FreeNumber(free[c := bs], k) == FreeNumber(free, k) + (if c < k then |bs| - |free[c]| else 0)
    ensures FreeSize(free[c := bs], k) == FreeSize(free, k) + (if c < k then SumLen(bs) - SumLen(free[c]) else 0)
  {
    if k > 0 { FreeUpdate(free, c, bs, k - 1); }
  }

  predicate Positive(bs: seq<Block>) { forall i | 0 <= i < |bs| :: bs[i].len > 0 }

  lemma {:induction false} SumLenAtLeast(bs: seq<Block>)
    requires Positive(bs)
    ensures |bs| <= SumLen(bs)
  {
    if bs != [] { SumLenAtLeast(bs[1..]); }
  }

  /** There are no more free blocks than free bytes. */
  lemma {:induction false} NumberBelowSize(free: seq<seq<Block>>, k: nat)
    requires k <= |free| && forall c | 0 <= c < |free| :: Positive(free[c])
    ensures FreeNumber(free, k) <= FreeSize(free, k)
  {
    if k > 0 {
      NumberBelowSize(free, k - 1);
      SumLenAtLeast(free[k - 1]);
    }
  }

  lemma {:induction false} SomeFree(free: seq<seq<Block>>, c: nat, k: nat)
    requires c < k <= |free| && free[c] != []
    ensures FreeNumber(free, k) >= 1
  {
    if c < k - 1 { SomeFree(free, c, k - 1); }
  }

  // --- Each path keeps the invariant ----------------------------------------------------------------

  /** The heap with n more bytes, all one block. */
  function Extended(h: Heap, n: nat): Heap {
    h.(brk := h.brk + n, live := h.live + [Block(h.brk, n)], allocs := h.allocs + 1, used := h.used + n)
  }

  lemma ExtendedSeparate(h: Heap, n: nat)
    requires |h.free| == 13 && Separate(h) && BelowBreak(h)
    ensures Separate(Extended(h, n))
  {
  }

  lemma ExtendedLists(h: Heap, n: nat)
    requires Lists(h)
    ensures Lists(Extended(h, n))
  {
    forall c, i | 4 <= c <= 11 && 0 <= i < |h.free[c]| ensures FreeBlock(Extended(h, n), c, h.free[c][i]) {
      assert FreeBlock(h, c, h.free[c][i]);
    }
  }

  lemma LargeGood(h: Heap, size: nat)
    requires Good(h) && 2048 < size < TWO32 && Fits(h, size)
    ensures Good(Large(h, size).0)
  {
    LargeFits(h, size);
    var n := Pages(size) * PAGE;
    Signed(h.used + n);
    if h.brk + n <= h.size {
      GoodBelow(h);
      ExtendedSeparate(h, n);
      ExtendedLists(h, n);
      assert Large(h, size).0 == Extended(h, n);
      ExtendedGood(h, n);
    }
  }

  lemma ExtendedGood(h: Heap, n: nat)
    requires BreakOk(h) && Lists(h) && (forall i | 0 <= i < |h.live| :: Inside(h, h.live[i])) && Accounts(h)
    requires 16 <= n && n % PAGE == 0 && h.brk + n <= h.size
    requires Separate(Extended(h, n)) && Lists(Extended(h, n))
    ensures Good(Extended(h, n))
  {
    var h' := Extended(h, n);
    forall i | 0 <= i < |h'.live| ensures Inside(h', h'.live[i]) {
      if i < |h.live| { assert Inside(h, h.live[i]); }
    }
    assert Accounts(h') && BreakOk(h');
  }

  /** Taking the head of a free list. */
  function Popped(h: Heap, c: nat): Heap
    requires |h.free| == 13 && 4 <= c <= 11 && h.free[c] != []
  {
    h.(free := h.free[c := h.free[c][1..]], live := h.live + [h.free[c][0]], allocs := h.allocs + 1,
       used := U32(h.used + Pow(c)), nfree := U32(h.nfree - 1), freeBytes := U32(h.freeBytes - Pow(c)))
  }

  lemma PoppedSeparate(h: Heap, c: nat)
    requires Good(h) && 4 <= c <= 11 && h.free[c] != []
    ensures Separate(Popped(h, c)) && Lists(Popped(h, c))
  {
    var h' := Popped(h, c);
    assert forall d, i | 4 <= d <= 11 && 0 <= i < |h'.free[d]| ::
        h'.free[d][i] == h.free[d][if d == c then i + 1 else i];
  }

  lemma PoppedAccounts(h: Heap, c: nat)
    requires BreakOk(h) && Lists(h) && Accounts(h) && 4 <= c <= 11 && h.free[c] != []
    ensures Accounts(Popped(h, c))
  {
    var free := h.free;
    FreeUpdate(free, c, free[c][1..], |free|);
    assert SumLen(free[c]) == free[c][0].len + SumLen(free[c][1..]);
    assert FreeBlock(h, c, free[c][0]);
    ListsPositive(h);
    NumberBelowSize(free[c := free[c][1..]], |free|);
    NumberBelowSize(free, |free|);
    SomeFree(free, c, |free|);
    PowRange(c);
    Signed(h.used + Pow(c));
    Signed(h.nfree - 1);
    Signed(h.freeBytes - Pow(c));
  }

  lemma ListsPositive(h: Heap)
    requires Lists(h)
    ensures forall c | 0 <= c < |h.free| :: Positive(h.free[c])
  {
    assert forall c, i | 4 <= c <= 11 && 0 <= i < |h.free[c]| :: FreeBlock(h, c, h.free[c][i]);
  }

  lemma PoppedGood(h: Heap, c: nat)
    requires Good(h) && 4 <= c <= 11 && h.free[c] != []
    ensures Good(Popped(h, c))
  {
    PoppedSeparate(h, c);
    PoppedAccounts(h, c);
  }

  // --- Carving a page ---------------------------------------------------------------------------------

  lemma Multiple(q: int, s: nat)
    requires s > 0
    ensures q * s % s == 0
  {
    var x := q * s;
    var d := q - x / s;
    assert d * s == x % s by { assert d * s == q * s - x / s * s; }
    if d >= 1 { TimesMono(1, d, s); }
    if d <= -1 { TimesMono(d, -1, s); }
  }

  lemma BlockAligned(page: int, s: nat, n: nat, j: nat)
    requires s > 0 && n * s == PAGE && page % PAGE == 0
    ensures (page + j * s) % s == 0
  {
    var q := page / PAGE;
    calc {
      page + j * s;
      q * (n * s) + j * s;
      (q * n) * s + j * s;
      (q * n + j) * s;
    }
    Multiple(q * n + j, s);
  }

  /** Block j of a page that n blocks of s bytes fill. */
  lemma CarvedBlock(page: int, s: nat, n: nat, j: nat)
    requires s > 0 && n * s == PAGE && page % PAGE == 0 && 1 <= j < n
    ensures var off := page + j * s;
            page + s <= off && off + s <= page + PAGE && off % s == 0 && off % PAGE != 0
  {
    TimesMono(1, j, s);
    TimesMono(j + 1, n, s);
    BlockAligned(page, s, n, j);
    var x := j * s;
    assert (j + 1) * s == x + s;
    assert 0 < x < PAGE;
  }

  lemma PowRange(c: nat)
    requires 4 <= c <= 12
    ensures 16 <= Pow(c) <= PAGE
  {
    PowValues();
  }

  lemma PageSplits(c: nat)
    requires 4 <= c <= 12
    ensures SubCount(c) * Pow(c) == PAGE && SubCount(c) >= 1 && (c == 12 <==> SubCount(c) == 1)
  {
    PowValues();
    assert Pow(0) == 1 && Pow(1) == 2 && Pow(2) == 4;
  }

  /** A fresh page cut into blocks of class c: the first is handed out, the others are free. */
  function Split(h: Heap, c: nat): Heap
    requires |h.free| == 13 && 4 <= c <= 12
  {
    var n := SubCount(c);
    h.(brk := h.brk + PAGE, live := h.live + [Block(h.brk, Pow(c))],
       free := h.free[c := Carved(h.brk, c, n - 1)],
       allocs := h.allocs + 1, used := h.used + Pow(c), nfree := h.nfree + n - 1,
       freeBytes := h.freeBytes + PAGE - Pow(c))
  }

  lemma {:induction false} CarvedSum(page: int, c: nat, n: nat)
    ensures SumLen(Carved(page, c, n)) == n * Pow(c)
  {
    if n > 0 {
      CarvedSum(page, c, n - 1);
      assert Carved(page, c, n)[1..] == Carved(page, c, n - 1);
      assert n * Pow(c) == Pow(c) + (n - 1) * Pow(c);
    }
  }

  lemma CarvedTotal(page: int, c: nat)
    requires 4 <= c <= 12
    ensures var n := SubCount(c); n >= 1 && SumLen(Carved(page, c, n - 1)) == PAGE - Pow(c)
  {
    PageSplits(c);
    var n := SubCount(c);
    CarvedSum(page, c, n - 1);
    assert n * Pow(c) == (n - 1) * Pow(c) + Pow(c);
  }

  /** The heap with one more page, whose blocks are `first` and the list `bs` of class c. */
  function Grown(h: Heap, c: nat, first: Block, bs: seq<Block>): Heap
    requires |h.free| == 13 && c <= 12
  {
    h.(brk := h.brk + PAGE, live := h.live + [first], free := h.free[c := bs])
  }

  predicate PageCut(page: int, c: nat, first: Block, bs: seq<Block>) {
    && first == Block(page, Pow(c)) && 0 < first.len <= PAGE
    && (c == 12 ==> bs == [])
    && (forall k | 0 <= k < |bs| ::
          && bs[k].len == Pow(c) && page + Pow(c) <= bs[k].off && bs[k].off + Pow(c) <= page + PAGE
          && bs[k].off % Pow(c) == 0 && bs[k].off % PAGE != 0)
    && (forall i, k | 0 <= i < k < |bs| :: Apart(bs[i], bs[k]))
  }

  lemma GrownLists(h: Heap, c: nat, first: Block, bs: seq<Block>)
    requires Good(h) && 4 <= c <= 12 && h.free[c] == [] && PageCut(h.brk, c, first, bs)
    ensures Lists(Grown(h, c, first, bs))
  {
    var h' := Grown(h, c, first, bs);
    forall d, i | 4 <= d <= 11 && 0 <= i < |h'.free[d]|
      ensures FreeBlock(h', d, h'.free[d][i])
    {
      if d != c { assert FreeBlock(h, d, h.free[d][i]); }
    }
  }

  /** Every block ends at or before the break. */
  predicate BelowBreak(h: Heap)
    requires |h.free| == 13
  {
    && (forall i | 0 <= i < |h.live| :: h.live[i].off + h.live[i].len <= h.brk)
    && (forall d, i | 4 <= d <= 11 && 0 <= i < |h.free[d]| :: h.free[d][i].off + h.free[d][i].len <= h.brk)
  }

  lemma GoodBelow(h: Heap)
    requires Good(h)
    ensures BelowBreak(h)
  {
    assert forall d, i | 4 <= d <= 11 && 0 <= i < |h.free[d]| :: FreeBlock(h, d, h.free[d][i]);
    assert forall i | 0 <= i < |h.live| :: Inside(h, h.live[i]);
  }

  lemma GrownLive(h: Heap, c: nat, first: Block, bs: seq<Block>)
    requires |h.free| == 13 && LiveApart(h) && BelowBreak(h) && c <= 12 && first.off == h.brk
    ensures LiveApart(Grown(h, c, first, bs))
  {
  }

  lemma GrownFree(h: Heap, c: nat, first: Block, bs: seq<Block>)
    requires |h.free| == 13 && ListApart(h) && ListsApart(h) && BelowBreak(h) && 4 <= c <= 12
    requires PageCut(h.brk, c, first, bs)
    ensures ListApart(Grown(h, c, first, bs)) && ListsApart(Grown(h, c, first, bs))
  {
    var h' := Grown(h, c, first, bs);
    assert forall d | 4 <= d <= 11 && d != c :: h'.free[d] == h.free[d];
  }

  lemma GrownLiveFree(h: Heap, c: nat, first: Block, bs: seq<Block>)
    requires |h.free| == 13 && LiveFreeApart(h) && BelowBreak(h) && 4 <= c <= 12
    requires PageCut(h.brk, c, first, bs)
    ensures LiveFreeApart(Grown(h, c, first, bs))
  {
    var h' := Grown(h, c, first, bs);
    assert forall d | 4 <= d <= 11 && d != c :: h'.free[d] == h.free[d];
  }

  lemma GrownSeparate(h: Heap, c: nat, first: Block, bs: seq<Block>)
    requires Good(h) && 4 <= c <= 12 && PageCut(h.brk, c, first, bs)
    ensures Separate(Grown(h, c, first, bs))
  {
    GoodBelow(h);
    GrownLive(h, c, first, bs);
    GrownFree(h, c, first, bs);
    GrownLiveFree(h, c, first, bs);
  }

  lemma CarvedPair(page: int, c: nat, n: nat, i: nat, k: nat)
    requires i < k < n
    ensures Apart(Carved(page, c, n)[i], Carved(page, c, n)[k])
  {
    var s := Pow(c);
    TimesMono(n - k + 1, n - i, s);
    assert (n - k + 1) * s == (n - k) * s + s;
  }

  lemma CarvedEach(page: int, c: nat, k: nat)
    requires 4 <= c <= 12 && page % PAGE == 0 && k < SubCount(c) - 1
    ensures var b := Carved(page, c, SubCount(c) - 1)[k];
            && b.len == Pow(c) && page + Pow(c) <= b.off && b.off + Pow(c) <= page + PAGE
            && b.off % Pow(c) == 0 && b.off % PAGE != 0
  {
    PageSplits(c);
    CarvedBlock(page, Pow(c), SubCount(c), SubCount(c) - 1 - k);
  }

  lemma CarvedCut(page: int, c: nat)
    requires 4 <= c <= 12 && page % PAGE == 0
    ensures PageCut(page, c, Block(page, Pow(c)), Carved(page, c, SubCount(c) - 1))
  {
    PowRange(c);
    PageSplits(c);
    var n := SubCount(c) - 1;
    var bs := Carved(page, c, n);
    forall k | 0 <= k < n
      ensures && bs[k].len == Pow(c) && page + Pow(c) <= bs[k].off && bs[k].off + Pow(c) <= page + PAGE
              && bs[k].off % Pow(c) == 0 && bs[k].off % PAGE != 0
    {
      CarvedEach(page, c, k);
    }
    forall i, k | 0 <= i < k < n
      ensures Apart(bs[i], bs[k])
    {
      CarvedPair(page, c, n, i, k);
    }
  }

  lemma SplitGood(h: Heap, c: nat)
    requires Good(h) && 4 <= c <= 12 && h.brk + PAGE <= h.size && h.free[c] == []
    ensures Good(Split(h, c))
  {
    CarvedCut(h.brk, c);
    var first, bs := Block(h.brk, Pow(c)), Carved(h.brk, c, SubCount(c) - 1);
    GrownLists(h, c, first, bs);
    GrownSeparate(h, c, first, bs);
    SplitAccounts(h, c);
    SplitRest(h, c);
  }

  lemma SplitAccounts(h: Heap, c: nat)
    requires BreakOk(h) && Lists(h) && Accounts(h) && 4 <= c <= 12 && h.free[c] == []
    ensures Accounts(Split(h, c))
  {
    PowRange(c);
    CarvedTotal(h.brk, c);
    FreeUpdate(h.free, c, Carved(h.brk, c, SubCount(c) - 1), |h.free|);
  }

  lemma SplitRest(h: Heap, c: nat)
    requires BreakOk(h) && |h.free| == 13 && (forall i | 0 <= i < |h.live| :: Inside(h, h.live[i]))
    requires 4 <= c <= 12 && h.brk + PAGE <= h.size
    ensures BreakOk(Split(h, c))
    ensures forall i | 0 <= i < |Split(h, c).live| :: Inside(Split(h, c), Split(h, c).live[i])
  {
    PowRange(c);
    var h' := Split(h, c);
    forall i | 0 <= i < |h'.live| ensures Inside(h', h'.live[i]) {
      if i < |h.live| { assert Inside(h, h.live[i]); }
    }
  }

  // --- __shmalloc ----------------------------------------------------------------------------------------

  lemma PageRequest(h: Heap)
    requires BreakOk(h) && h.used <= h.brk
    ensures Large(h, PAGE) ==
            if h.brk + PAGE > h.size then (h, None)
            else (h.(brk := h.brk + PAGE, live := h.live + [Block(h.brk, PAGE)], allocs := h.allocs + 1,
                     used := h.used + PAGE), Some(h.brk))
  {
    LargeFits(h, PAGE);
    Signed(h.used + PAGE);
  }

  lemma SplitPath(h: Heap, c: nat)
    requires Good(h) && 4 <= c <= 12 && !(c == 12 && h.allocs != 0) && h.free[c] == [] && h.brk + PAGE <= h.size
    ensures Small(h, c) == (Split(h, c), Some(h.brk))
  {
    PageRequest(h);
    SplitBounds(h, c);
    Signed(h.nfree - 1 + SubCount(c));
    Signed(h.used + Pow(c));
    Signed(h.freeBytes + PAGE - Pow(c));
  }

  /** What a small request does, path by path. */
  lemma SmallPaths(h: Heap, c: nat)
    requires Good(h) && 4 <= c <= 12
    ensures Small(h, c) ==
            if c == 12 && h.allocs != 0 then (h, None)
            else if h.free[c] != [] then (Popped(h, c), Some(h.free[c][0].off))
            else if h.brk + PAGE > h.size then (h, None)
            else (Split(h, c), Some(h.brk))
  {
    PageRequest(h);
    if !(c == 12 && h.allocs != 0) && h.free[c] == [] && h.brk + PAGE <= h.size {
      SplitPath(h, c);
    }
  }

  lemma SplitBounds(h: Heap, c: nat)
    requires Good(h) && 4 <= c <= 12
    ensures 16 <= Pow(c) <= PAGE && h.used + PAGE < TWO32 && h.freeBytes + PAGE < TWO32
    ensures 1 <= SubCount(c) && h.nfree + SubCount(c) < TWO32
  {
    PowRange(c);
    ListsPositive(h);
    NumberBelowSize(h.free, |h.free|);
    PowMono(12 - c, 12);
    PowValues();
  }

  /** Requests that no 32-bit step of __shmalloc wraps. */
  predicate Sane(h: Heap, size: nat) { size < TWO32 && (size > 2048 ==> Fits(h, size)) }

  lemma MallocGood(h: Heap, size: nat)
    requires Good(h) && Sane(h, size)
    ensures Good(Malloc(h, size).0)
  {
    if size > 2048 {
      LargeGood(h, size);
    } else if size > 0 {
      var sz := if size <= 7 then 8 else size;
      ClassBounds(sz);
      var c := ClassOf(sz);
      SmallPaths(h, c);
      if !(c == 12 && h.allocs != 0) {
        if h.free[c] != [] { PoppedGood(h, c); } else if h.brk + PAGE <= h.size { SplitGood(h, c); }
      }
    }
  }
}
