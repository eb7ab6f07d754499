/** The allocator as the driver runs it: header words, page table and free lists updated in place
    in shared memory.  Each method is proved to implement the heap of SmmHeap.dfy. */
module SmmHeapCode {
  import opened Common
  import opened SmmHeap
  import opened SmmTheory
  import opened SmmWords
  import opened SmmRuns

  function BreakAddress(hp: nat, hv: nat, base: int, brk: int, a2: int): nat {
    if U32(base + brk) == U32(a2) then 0 else U32(hv - hp + base + brk - a2)
  }

  lemma Congruent(x: int, y: int, k: int)
    requires x == y + k * TWO32
    ensures U32(x) == U32(y) && I32(x) == I32(y)
  {
  }

  lemma BreakAddresses(hp: nat, hv: nat, brk: nat, a2: int, nb: int)
    requires nb == I32(a2 + brk) && 0 < hp + brk < TWO32 && 0 < hv + brk < TWO32
    ensures BreakAddress(hp, hv, hp, U32(nb), a2) == hv + brk
    ensures I32(hv + brk + a2 - (hv + PAGE)) == I32(nb - PAGE)
  {
    var q := (a2 + brk) / TWO32;
    var k := if U32(a2 + brk) < TWO31 then q else q + 1;
    assert nb == a2 + brk - k * TWO32;
    assert U32(nb) == a2 + brk - q * TWO32;
    Congruent(hp + U32(nb), a2 + (hp + brk), -q);
    Congruent(hv - hp + hp + U32(nb) - a2, hv + brk, -q);
    Congruent(nb - PAGE, brk + a2 - PAGE, -k);
    NotCongruent(a2, hp + brk);
  }

  lemma NotCongruent(x: int, d: int)
    requires 0 < d < TWO32
    ensures U32(x + d) != U32(x)
  {
  }

  lemma CounterBounds(h: Heap)
    requires Good(h)
    ensures Counting(h)
  {
    ListsPositive(h);
    NumberBelowSize(h.free, |h.free|);
  }

  /** No counter is about to wrap. */
  predicate Counting(h: Heap) {
    h.allocs + 1 < TWO31 && h.used < TWO31 && h.nfree < TWO31 && h.freeBytes < TWO31
  }

  /** The table entry of the page at the break lies in memory. */
  lemma BreakEntry(n: nat, h: Heap)
    requires BreakOk(h) && Mapped(n, h)
    ensures var e := (h.brk - PAGE) / PAGE + 1;
            && e == h.brk / PAGE && 1 <= e && Pte(e) + 2 < n
            && Beside(h, Pte(e)) && Beside(h, Pte(e) + 1) && Beside(h, Pte(e) + 2)
            && (h.brk / PAGE < PageCount(h.size) ==> 4 * (Pte(e) + 2) < h.start)
  {
    StartAligned(h.size);
  }

  /** Only the break words change and, when n pages were entered in entry e, that entry and the counters. */
  ghost predicate PagesEntered(m: seq<int>, m': seq<int>, e: int, n: nat, entered: bool) {
    && |m'| == |m| && 1027 <= e && e + 1 < |m| && (entered ==> m'[e] == 0 && m'[e + 1] == n)
    && forall w | 0 <= w < |m| && w != 4 && w != 45 && !(entered && w in {41, 42, e, e + 1}) :: m'[w] == m[w]
  }

  ghost predicate EntryWritten(m: seq<int>, m': seq<int>, e: int, n: nat) {
    && |m'| == |m| && 1027 <= e && e + 1 < |m| && m'[e] == 0 && m'[e + 1] == n
    && forall w | 0 <= w < |m| && w != 41 && w != 42 && w != e && w != e + 1 :: m'[w] == m[w]
  }

  lemma BreakWords(m: seq<int>, m': seq<int>, e: int, n: nat, x: int, y: int)
    requires |m| >= 1027 && 1027 <= e && e + 1 < |m| && (m' == m || m' == m[45 := x] || m' == m[45 := x][4 := y])
    ensures PagesEntered(m, m', e, n, false)
  {
  }

  lemma EntryAfterBreak(m: seq<int>, m1: seq<int>, m2: seq<int>, e: int, n: nat)
    requires PagesEntered(m, m1, e, n, false) && EntryWritten(m1, m2, e, n)
    ensures PagesEntered(m, m2, e, n, true)
  {
  }

  lemma PagesTabled(m: seq<int>, m': seq<int>, h: Heap, n: nat)
    requires PagesEntered(m, m', Pte(h.brk / PAGE), n, true)
    ensures LargeEntered(m, m', h, n)
  {
  }

  lemma NothingTabled(m: seq<int>, m': seq<int>, h: Heap, n: nat)
    requires PagesEntered(m, m', Pte(h.brk / PAGE), n, false)
    ensures TableKept(m, m', h, 0, 0, 0)
  {
  }

  /** What the words written for fresh pages leave alone. */
  lemma FreshFrame(m: seq<int>, m': seq<int>, h: Heap, n: nat, entered: bool)
    requires BreakOk(h) && Mapped(|m|, h) && PagesEntered(m, m', Pte(h.brk / PAGE), n, entered)
    ensures forall w | 0 <= w < |m| && !Beside(h, w) :: m'[w] == m[w]
    ensures h.brk / PAGE < PageCount(h.size) || !entered ==>
              forall w | 0 <= w < |m| && h.start <= 4 * w :: m'[w] == m[w]
  {
    BreakEntry(|m|, h);
  }

  lemma HeaderBreak(m: seq<int>, hp: nat, h: Heap, nb: int, p: int)
    requires |m| >= 1027 && HeaderRep(m, hp, h)
    ensures HeaderRep(m[45 := U32(nb)], hp, h.(brk := nb)) && HeaderRep(m[45 := U32(nb)][4 := p], hp, h.(brk := nb))
  {
  }

  /** The table entry that a pop of the block at `off` decrements, as the driver computes it. */
  lemma PopWord(n: nat, h: Heap, off: int)
    requires Mapped(n, h) && off % PAGE != 0 && h.start <= off < h.brk <= h.size < TWO31 && h.brk % PAGE == 0
    ensures var p := U32(off - PAGE + 4095) / PAGE;
            && p == off / PAGE && 1 <= p && Pte(p + 1) + 2 < n && off / 4 < n
            && Beside(h, Pte(p + 1) + 1) && Beside(h, Pte(p + 1) + 2) && Pte(p + 1) + 2 < off / 4
  {
    assert off / PAGE < h.brk / PAGE <= PageCount(h.size);
  }

  /** The words of m' are those of m, except that entry e's split counter is decremented and, if it
      becomes 0, the next word of the entry is set to x. */
  ghost predicate Dropped(m: seq<int>, m': seq<int>, e: int, x: int) {
    && |m'| == |m| && 0 <= e && e + 2 < |m| && m'[e + 1] == U32(m[e + 1] - 1)
    && (m'[e + 1] == 0 ==> m'[e + 2] == x)
    && forall w | 0 <= w < |m| && w != e + 1 && !(w == e + 2 && U32(m[e + 1] - 1) == 0) :: m'[w] == m[w]
  }

  lemma Quarter(x: int, w: int)
    requires x % PAGE == 0
    ensures x % 4 == 0 && (x + 4 * w) % 4 == 0
  {
  }

  /** The header does not depend on the blocks. */
  lemma HeaderOf(m: seq<int>, hp: nat, h: Heap, h': Heap)
    requires |m| >= 1027 && HeaderRep(m, hp, h)
    requires h' == h.(free := h'.free, live := h'.live)
    ensures HeaderRep(m, hp, h')
  {
  }

  lemma SameHeader(m: seq<int>, m': seq<int>, hp: nat, h: Heap)
    requires |m| >= 1027 && |m'| == |m| && HeaderRep(m, hp, h)
    requires forall w | 0 <= w < 1027 && !(5 <= w <= 39) :: m'[w] == m[w]
    ensures HeaderRep(m', hp, h)
  {
  }

  lemma UnlinkHeader(m: seq<int>, hp: nat, c: nat, ws: seq<nat>, h: Heap)
    requires |m| >= 1027 && 4 <= c <= 11 && ws != [] && (forall k | 0 <= k < |ws| :: 2048 <= ws[k] && ws[k] + 1 < |m|)
    requires HeaderRep(m, hp, h)
    ensures HeaderRep(Unlink(m, hp, Head(c), ws), hp, h)
  {
    SameHeader(m, Unlink(m, hp, Head(c), ws), hp, h);
  }

  /** The table entry of a page that ends inside the heap. */
  lemma SplitEntry(n: nat, h: Heap)
    requires BreakOk(h) && Mapped(n, h) && h.brk + PAGE <= h.size
    ensures var e := Pte((h.brk - PAGE) / PAGE + 1);
            1027 <= e && e + 2 < n && e + 2 <= Pte(PageCount(h.size)) + 2 && 4 * (e + 2) < h.start
    ensures h.brk / PAGE < PageCount(h.size) && Pte((h.brk - PAGE) / PAGE + 1) == Pte(h.brk / PAGE)
  {
    StartAligned(h.size);
  }

  /** h2 is h1, the heap h with a page at the break, after that page was split for class c. */
  predicate SplitOf(h: Heap, h1: Heap, h2: Heap, c: nat)
    requires |h.free| == 13 && 4 <= c <= 12
  {
    && h1.size == h.size && h1.start == h.start
    && h2 == h1.(free := h.free[c := Carved(h.brk, c, SubCount(c) - 1)], live := h2.live,
                 nfree := U32(h1.nfree - 1 + SubCount(c)), used := U32(h1.used - PAGE + Pow(c)),
                 freeBytes := U32(h1.freeBytes + PAGE - Pow(c)))
  }

  lemma SmallSplits(h: Heap, c: nat)
    requires |h.free| == 13 && 4 <= c <= 12 && h.free[c] == [] && (c == 12 ==> h.allocs == 0)
    requires Large(h, PAGE).1 == Some(h.brk)
    ensures SplitOf(h, Large(h, PAGE).0, Small(h, c).0, c)
  {
  }

  /** Chaining and entering a page leave the pages before it alone. */
  lemma DataFrame(h: Heap, m: seq<int>, m1: seq<int>, m2: seq<int>)
    requires BreakOk(h) && Mapped(|m|, h) && h.brk + PAGE <= h.size && |m1| == |m| && |m2| == |m|
    requires h.brk / 4 <= |m| && forall w | 0 <= w < h.brk / 4 && !(25 <= w <= 39) :: m1[w] == m[w]
    requires var e := Pte((h.brk - PAGE) / PAGE + 1);
             forall w | 0 <= w < |m| && !(e <= w <= e + 2) && !(42 <= w <= 44) :: m2[w] == m1[w]
    ensures forall w | h.start <= 4 * w < h.brk && 0 <= w < |m| :: m2[w] == m[w]
  {
    SplitEntry(|m|, h);
  }

  /** The same for the page table. */
  lemma TableFrame(h: Heap, m: seq<int>, m1: seq<int>, m2: seq<int>)
    requires BreakOk(h) && Mapped(|m|, h) && h.brk + PAGE <= h.size && |m1| == |m| && |m2| == |m|
    requires h.brk / 4 <= |m| && forall w | 0 <= w < h.brk / 4 && !(25 <= w <= 39) :: m1[w] == m[w]
    requires var e := Pte((h.brk - PAGE) / PAGE + 1);
             forall w | 0 <= w < |m| && !(e <= w <= e + 2) && !(42 <= w <= 44) :: m2[w] == m1[w]
    ensures TableKept(m, m2, h, Pte(h.brk / PAGE), Pte(h.brk / PAGE) + 3, 0)
  {
  }

  lemma BesideEntry(h: Heap, e: int, m: seq<int>, m': seq<int>)
    requires 1027 <= e <= Pte(PageCount(h.size)) && |m'| == |m|
    requires forall w | 0 <= w < |m| && !(e <= w <= e + 2) && !(42 <= w <= 44) :: m'[w] == m[w]
    ensures forall w | 0 <= w < |m| && !Beside(h, w) :: m'[w] == m[w]
  {
  }

  /** The region has a place in the 32-bit address space, page-aligned, its kernel mapping at or
      above its physical address, which is at least its size. */
  predicate PlacedAt(hp: nat, hv: nat, h: Heap) {
    && hp % PAGE == 0 && hv % PAGE == 0 && h.size <= hp <= hv && h.start <= hp
    && hv + h.size + PAGE < TWO32 && hv + h.start + PAGE < TWO32
  }

  /** What the methods need to know of a heap. */
  predicate Ready(n: nat, hp: nat, hv: nat, h: Heap) {
    && Mapped(n, h) && BreakOk(h) && PlacedAt(hp, hv, h) && Counting(h) && Placement(h)
    && h.used <= h.brk && h.allocs <= hp
  }

  /** Unlinking the first block of class c leaves the lists of the heap without it. */
  ghost predicate CanPop(m: seq<int>, hp: nat, h: Heap, c: nat)
    requires 4 <= c <= 11 && |m| >= 1027 && |h.free| == 13 && h.free[c] != []
  {
    && h.free[c][0].off % PAGE != 0 && Placement(Popped(h, c))
    && (forall k | 0 <= k < |h.free[c]| :: Words(h.free[c])[k] + 1 < |m|)
    && ListsRep(Unlink(m, hp, Head(c), Words(h.free[c])), hp, Popped(h, c).free)
    && Unlink(m, hp, Head(c), Words(h.free[c]))[Words(h.free[c])[0]] % PAGE / Pow(c) == NextIndex(h, c)
  }

  ghost predicate SmallReady(m: seq<int>, hp: nat, h: Heap, c: nat)
    requires 4 <= c <= 12 && |m| >= 1027 && |h.free| == 13
  {
    if c == 12 && h.allocs != 0 then true
    else if h.free[c] != [] then c <= 11 && CanPop(m, hp, h, c)
    else Placement(Small(h, c).0)
  }

  lemma GoodReady(n: nat, hp: nat, hv: nat, h: Heap)
    requires Good(h) && Mapped(n, h) && PlacedAt(hp, hv, h)
    ensures Ready(n, hp, hv, h)
  {
    CounterBounds(h);
    GoodPlacement(h);
  }

  lemma GoodSmallReady(m: seq<int>, hp: nat, h: Heap, c: nat)
    requires Good(h) && Rep(m, hp, h) && 4 <= c <= 12 && hp % PAGE == 0
    ensures SmallReady(m, hp, h, c)
  {
    SmallPaths(h, c);
    if c == 12 && h.allocs != 0 {
    } else if h.free[c] != [] {
      GoodCanPop(m, hp, h, c);
    } else if h.brk + PAGE <= h.size {
      SplitGood(h, c);
      GoodPlacement(Split(h, c));
    } else {
      GoodPlacement(h);
    }
  }

  lemma UnlinkedFirst(m: seq<int>, hp: nat, head: nat, ws: seq<nat>)
    requires head < |m| && ws != [] && Linked(m, hp, head, ws) && Spread(head, ws)
    ensures Unlink(m, hp, head, ws)[ws[0]] == if |ws| > 1 then hp + 4 * ws[1] else 0
  {
    assert Node(m, hp, head, ws, 0);
    if |ws| > 1 { assert Away(ws[0], ws[1]); }
  }

  lemma ModShift(x: int, y: int)
    requires x % PAGE == 0
    ensures (x + y) % PAGE == y % PAGE
  {
  }

  /** The link in the first block gives the number of the second block within its page. */
  lemma LinkIndex(m: seq<int>, hp: nat, h: Heap, c: nat)
    requires Good(h) && Rep(m, hp, h) && 4 <= c <= 11 && h.free[c] != [] && hp % PAGE == 0
    ensures forall k | 0 <= k < |h.free[c]| :: Words(h.free[c])[k] + 1 < |m|
    ensures Unlink(m, hp, Head(c), Words(h.free[c]))[Words(h.free[c])[0]] % PAGE / Pow(c) == NextIndex(h, c)
  {
    var ws := Words(h.free[c]);
    assert Linked(m, hp, Head(c), ws);
    FreeSpread(h, c);
    UnlinkedFirst(m, hp, Head(c), ws);
    if |ws| > 1 { FreePlace(h, c, 1); }
    LinkValue(Unlink(m, hp, Head(c), ws)[ws[0]], hp, h, c);
  }

  lemma LinkValue(x: int, hp: nat, h: Heap, c: nat)
    requires |h.free| == 13 && c < 13 && hp % PAGE == 0
    requires x == if |h.free[c]| > 1 then hp + h.free[c][1].off else 0
    ensures x % PAGE / Pow(c) == NextIndex(h, c)
  {
    if |h.free[c]| > 1 {
      ModShift(hp, h.free[c][1].off);
      SameNumber(x, h.free[c][1].off, Pow(c));
    } else {
      ZeroDiv(Pow(c));
    }
  }

  lemma SameNumber(x: int, y: int, p: nat)
    requires p > 0 && x % PAGE == y % PAGE
    ensures x % PAGE / p == y % PAGE / p
  {
  }

  lemma ZeroDiv(p: nat)
    requires p > 0
    ensures 0 / p == 0
  {
  }

  lemma GoodCanPop(m: seq<int>, hp: nat, h: Heap, c: nat)
    requires Good(h) && Rep(m, hp, h) && 4 <= c <= 11 && h.free[c] != [] && hp % PAGE == 0
    ensures CanPop(m, hp, h, c)
  {
    assert FreeBlock(h, c, h.free[c][0]);
    LinkIndex(m, hp, h, c);
    PopLists(m, hp, h, c);
    PoppedGood(h, c);
    GoodPlacement(Popped(h, c));
  }

  /** The first word of a list translates to the kernel address of its first block. */
  lemma HeadAddress(m: seq<int>, hp: nat, hv: nat, h: Heap, c: nat)
    requires Ready(|m|, hp, hv, h) && HeaderRep(m, hp, h) && ListsRep(m, hp, h.free) && 4 <= c <= 12
    ensures c == 12 ==> m[Head(c)] == h.allocs && U32(m[Head(c)] + hv - hp) == h.allocs + hv - hp <= hv
    ensures c < 12 && h.free[c] == [] ==> m[Head(c)] == 0
    ensures c < 12 && h.free[c] != [] ==>
              && U32(m[Head(c)] + hv - hp) == hv + h.free[c][0].off && m[Head(c)] != 0
              && h.start <= h.free[c][0].off < h.brk <= h.size && h.free[c][0].off == 4 * Words(h.free[c])[0]
              && (forall k | 0 <= k < |h.free[c]| :: Words(h.free[c])[k] >= 2048 && 4 * Words(h.free[c])[k] < h.size)
  {
    if c < 12 {
      assert Linked(m, hp, Head(c), Words(h.free[c]));
      forall k | 0 <= k < |h.free[c]| ensures Words(h.free[c])[k] >= 2048 && 4 * Words(h.free[c])[k] < h.size {
        assert Held(h, h.free[c][k]);
      }
      if h.free[c] != [] { assert Held(h, h.free[c][0]); }
    }
  }

  lemma EmptyLists(m: seq<int>, hp: nat, free: seq<seq<Block>>)
    requires |m| >= 1027 && |free| == 13 && (forall c | 0 <= c < 13 :: free[c] == [])
    requires forall w | 5 <= w < 41 :: m[w] == 0
    ensures ListsRep(m, hp, free)
  {
    forall c | 4 <= c <= 11 ensures Linked(m, hp, Head(c), Words(free[c])) {
      assert Words(free[c]) == [];
    }
  }

  /** The words of m' are those of m1, except for the counters and for entry e, whose split counter is
      decremented and, if it becomes 0, followed by x. */
  ghost predicate PopWritten(m1: seq<int>, m': seq<int>, e: int, x: int) {
    && |m'| == |m1| && 1027 <= e && e + 2 < |m1| && m'[e + 1] == U32(m1[e + 1] - 1)
    && (m'[e + 1] == 0 ==> m'[e + 2] == x)
    && forall w | 0 <= w < |m1| && !(41 <= w <= 44) && w != e + 1 && !(w == e + 2 && U32(m1[e + 1] - 1) == 0) ::
         m'[w] == m1[w]
  }

  lemma DroppedHeader(m1: seq<int>, m2: seq<int>, hp: nat, h: Heap, e: int, x: int)
    requires |m1| >= 1027 && HeaderRep(m1, hp, h) && Dropped(m1, m2, e, x) && 1027 <= e
    ensures HeaderRep(m2, hp, h)
  {
    SameHeader(m1, m2, hp, h);
  }

  lemma CountedPop(m1: seq<int>, m2: seq<int>, m3: seq<int>, e: int, x: int)
    requires Dropped(m1, m2, e, x) && 1027 <= e && |m3| == |m2|
    requires forall w | 0 <= w < |m2| && !(41 <= w <= 44) :: m3[w] == m2[w]
    ensures PopWritten(m1, m3, e, x)
  {
  }

  /** What a pop starts from and what it writes. */
  ghost predicate PopState(m: seq<int>, m1: seq<int>, m': seq<int>, hp: nat, h: Heap, c: nat) {
    && Placement(h) && BreakOk(h) && Mapped(|m|, h) && 4 <= c <= 11 && h.free[c] != []
    && (forall k | 0 <= k < |h.free[c]| :: Words(h.free[c])[k] + 1 < |m|)
    && m1 == Unlink(m, hp, Head(c), Words(h.free[c]))
    && PopWritten(m1, m', Pte(PopEntry(h.free[c][0])), NextIndex(h, c))
  }

  /** What the words written by a pop leave alone. */
  lemma PopFrame(m: seq<int>, m1: seq<int>, m': seq<int>, hp: nat, h: Heap, c: nat)
    requires PopState(m, m1, m', hp, h, c)
    ensures |m'| == |m|
    ensures !PopSpills(m, h, c) ==> DataKept(m, m', h, c)
  {
    var b, ws := h.free[c][0], Words(h.free[c]);
    assert Held(h, b);
    PopReaches(h, b, 1);
    PopReaches(h, b, 2);
    EntryKept(m, m1, m', hp, h, c);
    if |ws| > 1 { assert Held(h, h.free[c][1]); }
    StartAligned(h.size);
  }

  lemma EntryKept(m: seq<int>, m1: seq<int>, m': seq<int>, hp: nat, h: Heap, c: nat)
    requires PopState(m, m1, m', hp, h, c)
    ensures var e := Pte(PopEntry(h.free[c][0])); e + 1 < |m| && m1[e + 1] == m[e + 1]
  {
    var b, ws := h.free[c][0], Words(h.free[c]);
    assert Held(h, b);
    if |ws| > 1 {
      assert Held(h, h.free[c][1]);
      PopReaches(h, b, 1);
      StartAligned(h.size);
      EntrySpills(h.size, 1);
    }
  }

  lemma PopSpillsOver(m: seq<int>, m1: seq<int>, m': seq<int>, hp: nat, h: Heap, c: nat)
    requires PopState(m, m1, m', hp, h, c)
    ensures PopSpills(m, h, c) ==> Spilled(m, m', h, c)
  {
    EntryKept(m, m1, m', hp, h, c);
  }

  lemma PopTabled(m: seq<int>, m1: seq<int>, m': seq<int>, hp: nat, h: Heap, c: nat)
    requires PopState(m, m1, m', hp, h, c)
    ensures PopEntered(m, m', h, c)
  {
    EntryKept(m, m1, m', hp, h, c);
    if |h.free[c]| > 1 { assert Held(h, h.free[c][1]); }
  }

  lemma PopBeside(m1: seq<int>, m': seq<int>, h: Heap, h': Heap, b: Block, x: int)
    requires BreakOk(h) && Mapped(|m1|, h) && Held(h, b) && h'.size == h.size
    requires PopWritten(m1, m', Pte(PopEntry(b)), x)
    ensures forall w | 0 <= w < |m1| && !Beside(h', w) :: m'[w] == m1[w]
  {
    PopReaches(h, b, 1);
  }

  /** Memory after a pop represents the heap without the block. */
  lemma PopDone(m: seq<int>, m1: seq<int>, m': seq<int>, hp: nat, h: Heap, c: nat)
    requires PopState(m, m1, m', hp, h, c) && CanPop(m, hp, h, c)
    ensures |m'| == |m| && ListsRep(m', hp, Popped(h, c).free)
  {
    assert Held(h, h.free[c][0]);
    PopBeside(m1, m', h, Popped(h, c), h.free[c][0], NextIndex(h, c));
    BesideLists(m1, m', hp, Popped(h, c));
  }

  /** The heap after a pop has counted its block. */
  function PopCounted(h: Heap, c: nat): Heap {
    h.(allocs := h.allocs + 1, used := U32(h.used + Pow(c)), nfree := U32(h.nfree - 1),
       freeBytes := U32(h.freeBytes - Pow(c)))
  }

  lemma PopEnd(m: seq<int>, m': seq<int>, hp: nat, hv: nat, h: Heap, c: nat)
    requires Ready(|m|, hp, hv, h) && 4 <= c <= 11 && h.free[c] != [] && CanPop(m, hp, h, c)
    requires var m1, w := Unlink(m, hp, Head(c), Words(h.free[c])), Words(h.free[c])[0];
             PopWritten(m1, m', Pte(4 * w / PAGE + 1), m1[w] % PAGE / Pow(c))
    requires HeaderRep(m', hp, PopCounted(h, c))
    ensures Rep(m', hp, Popped(h, c))
    ensures !PopSpills(m, h, c) ==> DataKept(m, m', h, c)
    ensures PopSpills(m, h, c) ==> Spilled(m, m', h, c)
    ensures PopEntered(m, m', h, c)
  {
    var m1 := Unlink(m, hp, Head(c), Words(h.free[c]));
    assert Held(h, h.free[c][0]);
    assert PopState(m, m1, m', hp, h, c);
    PopDone(m, m1, m', hp, h, c);
    PopFrame(m, m1, m', hp, h, c);
    PopSpillsOver(m, m1, m', hp, h, c);
    PopTabled(m, m1, m', hp, h, c);
    HeaderOf(m', hp, PopCounted(h, c), Popped(h, c));
  }

  /** A large request that does not wrap leaves the blocks handed out alone. */
  lemma LargeKeepsLive(m: seq<int>, m': seq<int>, h: Heap, size: nat)
    requires Good(h) && 2048 < size && Sane(h, size) && |m'| == |m|
    requires h.brk / PAGE < PageCount(h.size) || Large(h, size).1.None? ==>
               forall w | 0 <= w < |m| && h.start <= 4 * w :: m'[w] == m[w]
    ensures LiveKept(m, m', h)
  {
    LargeFits(h, size);
    PageBelow(h.brk, h.size);
    forall i, w | 0 <= i < |h.live| && 0 <= w < |m| && InBlock(h.live[i], w) ensures m'[w] == m[w] {
      assert Inside(h, h.live[i]);
    }
  }

  /** The words of a split page's entry. */
  ghost predicate EntrySplit(m: seq<int>, e: int, c: nat) {
    && 0 <= e && e + 2 < |m| && 4 <= c <= 12
    && m[e] == c && m[e + 1] == SubCount(c) - 1 && m[e + 2] == SubCount(c) - 1
  }

  lemma EntryStays(m: seq<int>, m': seq<int>, e: int, c: nat)
    requires EntrySplit(m, e, c) && |m'| == |m| && 1027 <= e
    requires forall w | 0 <= w < |m| && !(42 <= w <= 44) :: m'[w] == m[w]
    ensures EntrySplit(m', e, c)
  {
  }

  lemma SplitTabled(m: seq<int>, m1: seq<int>, m2: seq<int>, h: Heap, c: nat)
    requires |m1| == |m| && |m2| == |m| && 4 <= c <= 12 && |m| >= 1027 && h.brk % PAGE == 0
    requires m1[c + 5] == U32(m[c + 5] + 1) && TableKept(m, m1, h, Pte(h.brk / PAGE), Pte(h.brk / PAGE) + 2, c + 5)
    requires EntrySplit(m2, Pte(h.brk / PAGE), c) && TableKept(m1, m2, h, Pte(h.brk / PAGE), Pte(h.brk / PAGE) + 3, 0)
    ensures SplitEntered(m, m2, h, c)
  {
  }

  lemma OnePage()
    ensures Pages(PAGE) == 1
  {
  }

  lemma LargeEnd(m: seq<int>, m': seq<int>, h: Heap, size: nat, done: bool)
    requires Good(h) && 2048 < size && Sane(h, size) && done == Large(h, size).1.Some?
    requires |m'| == |m|
    requires Pages(size) > 0 ==> PagesEntered(m, m', Pte(h.brk / PAGE), Pages(size), done)
    requires h.brk / PAGE < PageCount(h.size) || !done ==>
               forall w | 0 <= w < |m| && h.start <= 4 * w :: m'[w] == m[w]
    ensures LiveKept(m, m', h) && Tabled(m, m', h, size)
  {
    LargeKeepsLive(m, m', h, size);
    LargeFits(h, size);
    if done { PagesTabled(m, m', h, Pages(size)); } else { NothingTabled(m, m', h, Pages(size)); }
  }

  lemma PageBelow(brk: int, size: nat)
    requires 0 <= brk
    ensures brk + PAGE <= size ==> brk / PAGE < PageCount(size)
  {
  }

  lemma AlignedSum(x: int, y: int)
    requires x % PAGE == 0 && y % PAGE == 0
    ensures (x + y) % PAGE == 0
  {
  }

  /** The words that Trid_SMM_Init writes represent the initial heap. */
  lemma InitWords(m: seq<int>, hp: nat, size: nat)
    requires Mapped(|m|, InitHeap(size)) && DataStart(size) < TWO31
    requires m[0] == hp + PAGE && m[1] == hp + PAGE && m[2] == PageCount(size)
    requires m[45] == DataStart(size) && m[46] == size && m[47] == hp
    requires m[1024] == 0 && m[1025] == 0 && m[1026] == 0
    requires forall w | 3 <= w < 45 :: m[w] == 0
    ensures Rep(m, hp, InitHeap(size))
  {
    Signed(DataStart(size));
    EmptyLists(m, hp, InitHeap(size).free);
  }

  /** What a request on memory m leaves in m' and answers. */
  ghost predicate Done(m: seq<int>, m': seq<int>, hp: nat, hv: nat, h: Heap, size: nat, r: int, warned: bool) {
    && |h.free| == 13 && size < TWO32 && |m'| == |m| && Rep(m', hp, Malloc(h, size).0)
    && r == (if Malloc(h, size).1.None? then 0 else hv + Malloc(h, size).1.value)
    && (warned <==> 1024 < size <= 2048 && h.live != [])
    && (Sane(h, size) && !Spills(m, h, size) ==> LiveKept(m, m', h))
    && (Spills(m, h, size) ==> Spilled(m, m', h, SmallClass(size)))
    && (Sane(h, size) ==> Tabled(m, m', h, size))
  }

  /** The same for a request of class c. */
  ghost predicate SmallDone(m: seq<int>, m': seq<int>, hp: nat, hv: nat, h: Heap, c: nat, r: int, warned: bool) {
    && |h.free| == 13 && 4 <= c <= 12 && |m'| == |m| && Rep(m', hp, Small(h, c).0)
    && r == (if Small(h, c).1.None? then 0 else hv + Small(h, c).1.value)
    && (warned <==> c == 12 && h.allocs != 0)
    && (!PopSpills(m, h, c) ==> LiveKept(m, m', h)) && (PopSpills(m, h, c) ==> Spilled(m, m', h, c))
    && if r == 0 then TableKept(m, m', h, 0, 0, 0)
       else if h.free[c] != [] then PopEntered(m, m', h, c) else SplitEntered(m, m', h, c)
  }

  lemma SmallIsDone(m: seq<int>, m': seq<int>, hp: nat, hv: nat, h: Heap, size: nat, r: int, warned: bool)
    requires 0 < size <= 2048 && SmallDone(m, m', hp, hv, h, SmallClass(size), r, warned) && h.allocs == |h.live|
    requires 0 < hv && forall x | Small(h, SmallClass(size)).1 == Some(x) :: x >= 0
    ensures Done(m, m', hp, hv, h, size, r, warned)
  {
    ClassBounds(if size <= 7 then 8 else size);
  }

  lemma MallocPlaced(hp: nat, hv: nat, h: Heap, size: nat)
    requires |h.free| == 13 && size < TWO32 && PlacedAt(hp, hv, h)
    ensures PlacedAt(hp, hv, Malloc(h, size).0)
  {
  }

  /** Answers are not null. */
  lemma AnswerPositive(h: Heap, c: nat)
    requires Good(h) && 4 <= c <= 12
    ensures forall x | Small(h, c).1 == Some(x) :: x >= 0
  {
    SmallPaths(h, c);
    if c <= 11 && h.free[c] != [] { assert FreeBlock(h, c, h.free[c][0]); }
  }

  class SharedHeap {
    /** The mapped words from the heap header on, its physical and its kernel address. */
    const mem: array<int>
    const hp: nat
    const hv: nat

    ghost predicate Valid(h: Heap)
      reads mem
    {
      Good(h) && PlacedAt(hp, hv, h) && Rep(mem[..], hp, h)
    }

    function Address(r: Option<int>): int { if r.None? then 0 else hv + r.value }

    /** Trid_SMM_Init on the mapped words m of a region at kernel address `base`; the region's kernel
        and physical addresses differ by vbase - pbase.  Only the header page is cleared, so that
        the sentinel entry of the page table is empty is asked of the memory. */
    constructor (m: array<int>, base: nat, size: nat, vbase: nat, pbase: nat)
      requires PageUp(base) + pbase >= vbase
      requires var h := InitHeap(size); Mapped(m.Length, h) && PlacedAt(PageUp(base) + pbase - vbase, PageUp(base), h)
      requires 0 < size < TWO31 - 2 * PAGE && DataStart(size) < TWO31 - 2 * PAGE
      requires m[1024] == 0 && m[1025] == 0 && m[1026] == 0
      modifies m
      ensures mem == m && hv == PageUp(base) && hp == hv + pbase - vbase
      ensures Valid(InitHeap(size))
    {
      mem := m;
      hv := PageUp(base);
      hp := PageUp(base) + pbase - vbase;
      new;
      ClearHeader();
      var pages := PageCount(size);
      mem[0] := hv + PAGE - vbase + pbase;
      mem[1] := hv + PAGE - vbase + pbase;
      mem[2] := pages;
      mem[45] := (12 * pages + 4095) / PAGE * PAGE + PAGE;
      mem[46] := size;
      mem[47] := hv - vbase + pbase;
      InitGood(size);
      InitWords(mem[..], hp, size);
    }

    /** Clears the header page. */
    method ClearHeader()
      requires mem.Length >= 1024
      modifies mem
      ensures forall w | 0 <= w < 1024 :: mem[w] == 0
      ensures forall w | 1024 <= w < mem.Length :: mem[w] == old(mem[w])
    {
      var i := 0;
      while i < 1024
        invariant 0 <= i <= 1024 && forall w | 0 <= w < i :: mem[w] == 0
        invariant forall w | 1024 <= w < mem.Length :: mem[w] == old(mem[w])
      {
        mem[i] := 0;
        i := i + 1;
      }
    }

    /** __shmalloc_brk */
    method Brk(a2: int) returns (ptr: int)
      requires mem.Length >= 48
      modifies mem
      ensures var m := old(mem[..]);
              var nb := I32(a2 + I32(m[45]));
              if a2 != 0 && nb > I32(m[46]) then ptr == 0 && mem[..] == m
              else
                && mem[..] == (if a2 == 0 then m else m[45 := U32(nb)])
                && ptr == BreakAddress(hp, hv, m[47], mem[45], a2)
    {
      if a2 != 0 {
        var newBreak := I32(a2 + I32(mem[45]));
        if newBreak > I32(mem[46]) {
          return 0;
        }
        mem[45] := U32(newBreak);
      }
      var cur := U32(mem[47] + mem[45]);
      if cur != U32(a2) {
        return U32(hv - hp + mem[47] + mem[45] - a2);
      }
      return 0;
    }

    /** Moves the break of a well-formed heap and answers where it was. */
    method MoveBreak(a2: int, ghost h: Heap) returns (ptr: int)
      requires mem.Length >= 1027 && HeaderRep(mem[..], hp, h) && BreakOk(h) && PlacedAt(hp, hv, h) && a2 != 0
      modifies mem
      ensures var nb := I32(a2 + h.brk);
              if nb > h.size then ptr == 0 && mem[..] == old(mem[..])
              else
                && ptr == hv + h.brk && ptr % PAGE == 0 && mem[..] == old(mem[..])[45 := U32(nb)]
                && I32(ptr + a2 - (hv + PAGE)) == I32(nb - PAGE)
    {
      Signed(h.brk);
      Signed(h.size);
      ghost var nb := I32(a2 + h.brk);
      ptr := Brk(a2);
      if nb <= h.size {
        BreakAddresses(hp, hv, h.brk, a2, nb);
        AlignedSum(hv, h.brk);
      }
    }

    /** morecore.  The break is page-aligned, so nothing is wasted on alignment. */
    method Morecore(a2: int, ghost h: Heap) returns (ptr: int)
      requires mem.Length >= 1027 && HeaderRep(mem[..], hp, h) && BreakOk(h) && PlacedAt(hp, hv, h) && a2 != 0
      modifies mem
      ensures var m, nb := old(mem[..]), I32(a2 + h.brk);
              var pages := PageDiv(I32(nb - PAGE)) + 1;
              if nb > h.size then ptr == 0 && mem[..] == m
              else if pages > PageCount(h.size) then ptr == 0 && mem[..] == m[45 := U32(nb)]
              else ptr == hv + h.brk && mem[..] == m[45 := U32(nb)][4 := U32(pages)]
    {
      ptr := MoveBreak(a2, h);
      if ptr != 0 {
        var table := mem[0] + hv - hp;
        var pages := PageDiv(I32(ptr + a2 - table)) + 1;
        if pages > mem[2] {
          return 0;
        }
        mem[4] := U32(pages);
      }
    }

    /** Takes a whole run of free pages off the page list; here the empty sentinel. */
    method TakeWhole(page: nat, n: nat, ghost h: Heap)
      requires mem.Length >= 1027 && HeaderRep(mem[..], hp, h) && Counting(h) && page == 0 && n == 0
      modifies mem
      ensures HeaderRep(mem[..], hp, h.(allocs := h.allocs + 1, nfree := U32(h.nfree - 1)))
      ensures forall w | 0 <= w < mem.Length && w != 3 && !(41 <= w <= 44) && !(1024 <= w < 1027) ::
                mem[w] == old(mem[w])
    {
      mem[Pte(mem[Pte(page) + 1]) + 2] := mem[Pte(page) + 2];
      mem[Pte(mem[Pte(page) + 2]) + 1] := mem[Pte(page) + 1];
      mem[3] := mem[Pte(page) + 1];
      mem[43] := U32(mem[43] - 1);
      mem[Pte(page)] := 0;
      mem[Pte(page) + 1] := n;
      mem[41] := U32(mem[41] + 1);
      mem[42] := U32(mem[42] + n * PAGE);
      mem[44] := U32(mem[44] - n * PAGE);
    }

    /** Enters a fresh run of n pages, at kernel address r, in the page table and the counters;
        h1 is the heap h with the break moved. */
    method EnterPages(r: int, n: nat, ghost h: Heap, ghost h1: Heap)
      requires Mapped(mem.Length, h) && BreakOk(h) && r == hv + h.brk && HeaderRep(mem[..], hp, h1) && Counting(h1)
      modifies mem
      ensures HeaderRep(mem[..], hp, h1.(live := h1.live + [Block(h.brk, n * PAGE)], allocs := h1.allocs + 1,
                                         used := U32(h1.used + n * PAGE)))
      ensures EntryWritten(old(mem[..]), mem[..], Pte(h.brk / PAGE), n)
    {
      BreakEntry(mem.Length, h);
      assert r - (mem[0] + hv - hp) == h.brk - PAGE;
      var e := (r - (mem[0] + hv - hp)) / PAGE + 1;
      mem[Pte(e)] := 0;
      mem[Pte(e) + 1] := n;
      mem[41] := U32(mem[41] + 1);
      mem[42] := U32(mem[42] + n * PAGE);
    }

    /** n fresh pages at the break. */
    method FreshPages(n: nat, ghost h: Heap) returns (r: int)
      requires Mapped(mem.Length, h) && HeaderRep(mem[..], hp, h) && BreakOk(h) && PlacedAt(hp, hv, h) && Counting(h)
      requires 0 < n * PAGE < TWO32
      modifies mem
      ensures HeaderRep(mem[..], hp, Fresh(h, n).0) && r == Address(Fresh(h, n).1)
      ensures PagesEntered(old(mem[..]), mem[..], Pte(h.brk / PAGE), n, r != 0)
      ensures h.brk / PAGE < PageCount(h.size) || r == 0 ==>
                forall w | 0 <= w < mem.Length && h.start <= 4 * w :: mem[w] == old(mem[w])
      ensures forall w | 0 <= w < mem.Length && !Beside(h, w) :: mem[w] == old(mem[w])
    {
      ghost var m := mem[..];
      r := MovePages(n, h);
      FreshFrame(m, mem[..], h, n, r != 0);
    }

    method MovePages(n: nat, ghost h: Heap) returns (r: int)
      requires Mapped(mem.Length, h) && HeaderRep(mem[..], hp, h) && BreakOk(h) && PlacedAt(hp, hv, h) && Counting(h)
      requires 0 < n * PAGE < TWO32
      modifies mem
      ensures HeaderRep(mem[..], hp, Fresh(h, n).0) && r == Address(Fresh(h, n).1)
      ensures PagesEntered(old(mem[..]), mem[..], Pte(h.brk / PAGE), n, r != 0)
    {
      ghost var m, nb := mem[..], I32(I32(n * PAGE) + h.brk);
      BreakEntry(mem.Length, h);
      r := Morecore(I32(n * PAGE), h);
      ghost var m1, e, y := mem[..], Pte(h.brk / PAGE), U32(PageDiv(I32(nb - PAGE)) + 1);
      HeaderBreak(m, hp, h, nb, y);
      BreakWords(m, m1, e, n, U32(nb), y);
      if r != 0 {
        EnterPages(r, n, h, h.(brk := nb));
        EntryAfterBreak(m, m1, mem[..], e, n);
      }
    }

    /** Requests above 2048 bytes.  The list of free pages holds only the empty sentinel entry 0,
        which links to itself: the walk ends after one step, and only a page count that wrapped to 0
        matches.  The last free run never ends at the break, so every request moves the break. */
    method LargePath(size: nat, ghost h: Heap) returns (r: int)
      requires Mapped(mem.Length, h) && HeaderRep(mem[..], hp, h) && BreakOk(h) && PlacedAt(hp, hv, h) && Counting(h)
      requires 2048 < size < TWO32
      modifies mem
      ensures HeaderRep(mem[..], hp, Large(h, size).0) && r == Address(Large(h, size).1)
      ensures Pages(size) > 0 ==> PagesEntered(old(mem[..]), mem[..], Pte(h.brk / PAGE), Pages(size), r != 0)
      ensures h.brk / PAGE < PageCount(h.size) || r == 0 ==>
                forall w | 0 <= w < mem.Length && h.start <= 4 * w :: mem[w] == old(mem[w])
      ensures forall w | 0 <= w < mem.Length && !Beside(h, w) :: mem[w] == old(mem[w])
    {
      var n := U32(size + 4095) / PAGE;
      var page := mem[3];
      if n <= mem[Pte(page)] {
        r := mem[0] + hv - hp + (page - 1) * PAGE;
        TakeWhole(page, n, h);
      } else {
        assert mem[Pte(page) + 1] == page;
        assert mem[4] == 0 || mem[4] != mem[Pte(0) + 2] + mem[Pte(mem[Pte(0) + 2])];
        r := FreshPages(n, h);
      }
    }

    /** Unlinks the first block of a list.  No pointer check of the driver fires. */
    method UnlinkHead(c: nat, ptr: int, ghost ws: seq<nat>)
      requires 4 <= c <= 11 && mem.Length >= 1027 && 0 < hp && hp % 4 == 0 && hv % 4 == 0
      requires ws != [] && Linked(mem[..], hp, Head(c), ws) && ptr == hv + 4 * ws[0]
      requires mem[47] == hp && 4 * Head(c) < mem[46]
      requires forall k | 0 <= k < |ws| :: 1027 <= ws[k] && 4 * ws[k] < mem[46]
      modifies mem
      ensures mem[..] == Unlink(old(mem[..]), hp, Head(c), ws)
    {
      ghost var m := mem[..];
      var b := (ptr - hv) / 4;
      FirstNode(m, hp, Head(c), ws);
      var prev := mem[b + 1];
      assert prev == hp + 4 * Head(c);
      assert mem[47] < prev < mem[47] + mem[46] && prev % 4 == 0;
      var next := mem[b];
      assert next == if |ws| == 1 then 0 else hp + 4 * ws[1];
      if next != 0 {
        var n := next + hv - hp;
        assert hv < n < hv + mem[46] && n % 4 == 0;
        mem[(n - hv) / 4 + 1] := prev;
      }
      mem[(prev - hp) / 4] := next;
    }

    /** Counts a block of s bytes that leaves its list. */
    method CountPop(s: nat, ghost h: Heap)
      requires mem.Length >= 1027 && HeaderRep(mem[..], hp, h) && Counting(h)
      modifies mem
      ensures HeaderRep(mem[..], hp, h.(allocs := h.allocs + 1, used := U32(h.used + s),
                                        nfree := U32(h.nfree - 1), freeBytes := U32(h.freeBytes - s)))
      ensures forall w | 0 <= w < mem.Length && !(41 <= w <= 44) :: mem[w] == old(mem[w])
    {
      mem[41] := U32(mem[41] + 1);
      mem[42] := U32(mem[42] + s);
      mem[43] := U32(mem[43] - 1);
      mem[44] := U32(mem[44] - s);
    }

    /** The split counter that is decremented is that of the page after the block's page. */
    method DropSplit(c: nat, ptr: int, ghost h: Heap, ghost off: int)
      requires Mapped(mem.Length, h) && mem[0] == hp + PAGE && ptr == hv + off && off % PAGE != 0
      requires h.start <= off < h.brk <= h.size < TWO31 && h.brk % PAGE == 0
      modifies mem
      ensures Dropped(old(mem[..]), mem[..], Pte(off / PAGE + 1), old(mem[off / 4]) % PAGE / Pow(c))
    {
      PopWord(mem.Length, h, off);
      var page := U32(ptr - (mem[0] + hv - hp) + 4095) / PAGE;
      var e := Pte(page + 1);
      mem[e + 1] := U32(mem[e + 1] - 1);
      if mem[e + 1] == 0 {
        mem[e + 2] := mem[(ptr - hv) / 4] % PAGE / Pow(c);
      }
    }

    /** The page table and the counters after the block at `off` was unlinked. */
    method CountOut(c: nat, ptr: int, ghost h: Heap, ghost off: int)
      requires Mapped(mem.Length, h) && HeaderRep(mem[..], hp, h) && Counting(h) && 4 <= c <= 11
      requires ptr == hv + off && off % PAGE != 0 && h.start <= off < h.brk <= h.size < TWO31 && h.brk % PAGE == 0
      modifies mem
      ensures HeaderRep(mem[..], hp, PopCounted(h, c))
      ensures PopWritten(old(mem[..]), mem[..], Pte(off / PAGE + 1), old(mem[off / 4]) % PAGE / Pow(c))
    {
      ghost var m1, x := mem[..], mem[off / 4] % PAGE / Pow(c);
      PopWord(mem.Length, h, off);
      DropSplit(c, ptr, h, off);
      ghost var m2, e := mem[..], Pte(off / PAGE + 1);
      DroppedHeader(m1, m2, hp, h, e, x);
      CountPop(Pow(c), h);
      CountedPop(m1, m2, mem[..], e, x);
    }

    /** Takes the first block of class c off its list: unlinks it and updates the page table and
        the counters. */
    method PopWords(c: nat, ptr: int, ghost h: Heap, ghost ws: seq<nat>)
      requires Mapped(mem.Length, h) && HeaderRep(mem[..], hp, h) && Counting(h) && 4 <= c <= 11
      requires 0 < hp && hp % 4 == 0 && hv % 4 == 0 && h.brk <= h.size < TWO31 && h.brk % PAGE == 0
      requires 4 * Head(c) < h.size && ws != [] && Linked(mem[..], hp, Head(c), ws) && ptr == hv + 4 * ws[0]
      requires forall k | 0 <= k < |ws| :: 2048 <= ws[k] && 4 * ws[k] < h.size
      requires 4 * ws[0] % PAGE != 0 && h.start <= 4 * ws[0] < h.brk
      modifies mem
      ensures HeaderRep(mem[..], hp, PopCounted(h, c))
      ensures var m1 := Unlink(old(mem[..]), hp, Head(c), ws);
              PopWritten(m1, mem[..], Pte(4 * ws[0] / PAGE + 1), m1[ws[0]] % PAGE / Pow(c))
    {
      ghost var m := mem[..];
      UnlinkHead(c, ptr, ws);
      UnlinkHeader(m, hp, c, ws, h);
      CountOut(c, ptr, h, 4 * ws[0]);
    }

    /** Pushes block j of the page. */
    method CarveOne(c: nat, page: int, j: nat, ghost h: Heap)
      requires 4 <= c <= 11 && Placement(h) && h.brk % PAGE == 0 && h.brk >= 8192 && page == hv + h.brk && 0 < hp
      requires mem.Length >= 2048 && h.brk + PAGE <= 4 * mem.Length && 1 <= j < SubCount(c)
      requires Carving(mem[..], hp, h, c, Carved(h.brk, c, j - 1))
      modifies mem
      ensures Carving(mem[..], hp, h, c, Carved(h.brk, c, j))
      ensures forall w | 0 <= w < h.brk / 4 && w != Head(c) :: mem[w] == old(mem[w])
    {
      CarveStep(mem[..], hp, h, c, j);
      CarvedWords(h.brk, c, j - 1);
      PushBlock(c, page + j * Pow(c), Words(Carved(h.brk, c, j - 1)), h.brk / 4);
    }

    /** Cuts the page at `page` into blocks of class c and chains all but the first. */
    method Carve(c: nat, page: int, ghost h: Heap)
      requires 4 <= c <= 11 && Placement(h) && h.brk % PAGE == 0 && h.brk >= 8192 && page == hv + h.brk && 0 < hp
      requires mem.Length >= 2048 && h.brk + PAGE <= 4 * mem.Length && Carving(mem[..], hp, h, c, [])
      modifies mem
      ensures Carving(mem[..], hp, h, c, Carved(h.brk, c, SubCount(c) - 1))
      ensures forall w | 0 <= w < h.brk / 4 && w != Head(c) :: mem[w] == old(mem[w])
    {
      var n := SubCount(c);
      var j := 1;
      while j < n
        invariant 1 <= j <= n && Carving(mem[..], hp, h, c, Carved(h.brk, c, j - 1))
        invariant forall w | 0 <= w < h.brk / 4 && w != Head(c) :: mem[w] == old(mem[w])
      {
        CarveOne(c, page, j, h);
        j := j + 1;
      }
    }

    /** Pushes the block at kernel address `block` on the list of class c.  Words below `lo`, apart from
        the head, are not touched. */
    method PushBlock(c: nat, block: int, ghost ws: seq<nat>, ghost lo: nat)
      requires 4 <= c <= 11 && mem.Length >= 2048 && 0 < hp && Linked(mem[..], hp, Head(c), ws)
      requires (block - hv) % 4 == 0 && (block - hv) / 4 + 1 < mem.Length
      requires 2048 <= lo <= (block - hv) / 4 && forall k | 0 <= k < |ws| :: lo <= ws[k]
      modifies mem
      ensures mem[..] == Push(old(mem[..]), hp, Head(c), ws, (block - hv) / 4)
      ensures forall w | 0 <= w < lo && w != Head(c) :: mem[w] == old(mem[w])
    {
      var b := (block - hv) / 4;
      mem[b] := mem[Head(c)];
      mem[b + 1] := hp + 4 * Head(c);
      mem[Head(c)] := block + hp - hv;
      var oldHead := mem[b];
      if oldHead != 0 {
        mem[(oldHead - hp) / 4 + 1] := block + hp - hv;
      }
    }

    /** Corrects the counters for a page of n blocks of s bytes of which one is handed out. */
    method CountSplit(n: nat, s: nat, ghost h: Heap)
      requires mem.Length >= 1027 && HeaderRep(mem[..], hp, h)
      modifies mem
      ensures HeaderRep(mem[..], hp, h.(nfree := U32(h.nfree - 1 + n), used := U32(h.used - PAGE + s),
                                        freeBytes := U32(h.freeBytes + PAGE - s)))
      ensures forall w | 0 <= w < mem.Length && !(42 <= w <= 44) :: mem[w] == old(mem[w])
    {
      mem[43] := U32(mem[43] - 1 + n);
      mem[42] := U32(mem[42] - PAGE + s);
      mem[44] := U32(mem[44] + PAGE - s);
    }

    /** Enters a page split into blocks of class c in the page table. */
    method EnterSplit(c: nat, page: int)
      requires 4 <= c <= 12 && mem.Length >= 1 && mem[0] == hp + PAGE
      requires page >= hv + 2 * PAGE && Pte((page - hv - PAGE) / PAGE + 1) + 2 < mem.Length
      modifies mem
      ensures var e := Pte((page - hv - PAGE) / PAGE + 1);
              && EntrySplit(mem[..], e, c)
              && forall w | 0 <= w < mem.Length && !(e <= w <= e + 2) :: mem[w] == old(mem[w])
    {
      var n := SubCount(c);
      var e := Pte((page - (mem[0] + hv - hp)) / PAGE + 1);
      mem[e] := c;
      mem[e + 1] := n - 1;
      mem[e + 2] := n - 1;
    }

    /** Requests the page that is to be split and counts it. */
    method RequestPage(c: nat, ghost h: Heap) returns (r: int)
      requires Mapped(mem.Length, h) && HeaderRep(mem[..], hp, h) && BreakOk(h) && PlacedAt(hp, hv, h) && Counting(h)
      requires Placement(h) && ListsRep(mem[..], hp, h.free) && 4 <= c <= 12
      modifies mem
      ensures HeaderRep(mem[..], hp, Large(h, PAGE).0) && ListsRep(mem[..], hp, h.free)
      ensures r == Address(Large(h, PAGE).1)
      ensures r == 0 ==> TableKept(old(mem[..]), mem[..], h, 0, 0, 0)
      ensures r != 0 ==>
                var e := Pte(h.brk / PAGE);
                && mem[c + 5] == U32(old(mem[c + 5]) + 1) && TableKept(old(mem[..]), mem[..], h, e, e + 2, c + 5)
      ensures h.brk / PAGE < PageCount(h.size) || r == 0 ==>
                forall w | 0 <= w < mem.Length && h.start <= 4 * w :: mem[w] == old(mem[w])
    {
      ghost var m := mem[..];
      r := LargePath(PAGE, h);
      OnePage();
      if r == 0 { NothingTabled(m, mem[..], h, 1); }
      if r != 0 {
        ghost var m1 := mem[..];
        PagesTabled(m, m1, h, 1);
        mem[c + 5] := U32(mem[c + 5] + 1);
        SameHeader(m1, mem[..], hp, Large(h, PAGE).0);
      }
      BesideLists(m, mem[..], hp, h);
    }

    /** Requests a page and splits it.  For class 12 there is nothing to chain. */
    method SplitPath(c: nat, ghost h: Heap) returns (r: int)
      requires Mapped(mem.Length, h) && HeaderRep(mem[..], hp, h) && BreakOk(h) && PlacedAt(hp, hv, h) && Counting(h)
      requires Placement(h) && ListsRep(mem[..], hp, h.free) && h.used <= h.brk
      requires 4 <= c <= 12 && h.free[c] == [] && (c == 12 ==> h.allocs == 0)
      requires Placement(Small(h, c).0)
      modifies mem
      ensures Rep(mem[..], hp, Small(h, c).0) && r == Address(Small(h, c).1)
      ensures forall w | h.start <= 4 * w < h.brk && 0 <= w < mem.Length :: mem[w] == old(mem[w])
      ensures if r == 0 then TableKept(old(mem[..]), mem[..], h, 0, 0, 0)
              else SplitEntered(old(mem[..]), mem[..], h, c)
    {
      ghost var m := mem[..];
      PageRequest(h);
      r := RequestPage(c, h);
      if r != 0 {
        ghost var m1 := mem[..];
        SplitEntry(mem.Length, h);
        SmallSplits(h, c);
        SplitRest(c, r, h, Large(h, PAGE).0, Small(h, c).0);
        SplitTabled(m, m1, mem[..], h, c);
      }
    }

    /** Chains the blocks of the page.  For class 12 there is nothing to chain. */
    method ChainPage(c: nat, page: int, ghost h: Heap)
      requires 4 <= c <= 12 && Placement(h) && h.brk % PAGE == 0 && h.brk >= 8192 && page == hv + h.brk && 0 < hp
      requires mem.Length >= 2048 && h.brk + PAGE <= 4 * mem.Length && ListsRep(mem[..], hp, h.free) && h.free[c] == []
      modifies mem
      ensures ListsRep(mem[..], hp, h.free[c := Carved(h.brk, c, SubCount(c) - 1)])
      ensures forall w | 0 <= w < h.brk / 4 && !(25 <= w <= 39) :: mem[w] == old(mem[w])
    {
      if c < 12 {
        assert Words(h.free[c]) == Words([]);
        Carve(c, page, h);
      }
    }

    /** The rest of a split: h1 is the heap with the page, h2 the heap with the page split. */
    method SplitRest(c: nat, page: int, ghost h: Heap, ghost h1: Heap, ghost h2: Heap)
      requires Mapped(mem.Length, h) && BreakOk(h) && Placement(h)
      requires h.brk + PAGE <= h.size && page == hv + h.brk && 0 < hp
      requires 4 <= c <= 12 && h.free[c] == []
      requires HeaderRep(mem[..], hp, h1) && SplitOf(h, h1, h2, c)
      requires ListsRep(mem[..], hp, h.free) && Placement(h2)
      modifies mem
      ensures Rep(mem[..], hp, h2)
      ensures forall w | h.start <= 4 * w < h.brk && 0 <= w < mem.Length :: mem[w] == old(mem[w])
      ensures EntrySplit(mem[..], Pte(h.brk / PAGE), c)
      ensures TableKept(old(mem[..]), mem[..], h, Pte(h.brk / PAGE), Pte(h.brk / PAGE) + 3, 0)
    {
      ghost var m := mem[..];
      ChainPage(c, page, h);
      SameHeader(m, mem[..], hp, h1);
      ghost var m1 := mem[..];
      SplitEntry(mem.Length, h);
      FinishSplit(c, page, h, h1);
      HeaderOf(mem[..], hp, h1.(nfree := h2.nfree, used := h2.used, freeBytes := h2.freeBytes), h2);
      BesideEntry(h2, Pte((h.brk - PAGE) / PAGE + 1), m1, mem[..]);
      BesideLists(m1, mem[..], hp, h2);
      DataFrame(h, m, m1, mem[..]);
      TableFrame(h, m, m1, mem[..]);
    }

    /** Enters the chained page in the page table and the counters. */
    method FinishSplit(c: nat, page: int, ghost h: Heap, ghost h1: Heap)
      requires Mapped(mem.Length, h) && BreakOk(h) && h.brk + PAGE <= h.size && page == hv + h.brk && 4 <= c <= 12
      requires HeaderRep(mem[..], hp, h1)
      modifies mem
      ensures HeaderRep(mem[..], hp, h1.(nfree := U32(h1.nfree - 1 + SubCount(c)), used := U32(h1.used - PAGE + Pow(c)),
                                         freeBytes := U32(h1.freeBytes + PAGE - Pow(c))))
      ensures var e := Pte((h.brk - PAGE) / PAGE + 1);
              && EntrySplit(mem[..], e, c)
              && forall w | 0 <= w < mem.Length && !(e <= w <= e + 2) && !(42 <= w <= 44) :: mem[w] == old(mem[w])
    {
      ghost var m := mem[..];
      SplitEntry(mem.Length, h);
      assert page - hv - PAGE == h.brk - PAGE;
      EnterSplit(c, page);
      ghost var m1 := mem[..];
      SameHeader(m, m1, hp, h1);
      CountSplit(SubCount(c), Pow(c), h1);
      EntryStays(m1, mem[..], Pte((h.brk - PAGE) / PAGE + 1), c);
    }

    /** Takes the first block of class c. */
    method PopPath(c: nat, ptr: int, ghost h: Heap)
      requires Ready(mem.Length, hp, hv, h) && HeaderRep(mem[..], hp, h) && ListsRep(mem[..], hp, h.free)
      requires 4 <= c <= 11 && h.free[c] != [] && CanPop(mem[..], hp, h, c) && ptr == hv + h.free[c][0].off
      modifies mem
      ensures Rep(mem[..], hp, Popped(h, c))
      ensures !PopSpills(old(mem[..]), h, c) ==> DataKept(old(mem[..]), mem[..], h, c)
      ensures PopSpills(old(mem[..]), h, c) ==> Spilled(old(mem[..]), mem[..], h, c)
      ensures PopEntered(old(mem[..]), mem[..], h, c)
    {
      ghost var m, ws := mem[..], Words(h.free[c]);
      HeadAddress(m, hp, hv, h, c);
      Quarter(hp, 0);
      Quarter(hv, 0);
      assert Linked(m, hp, Head(c), ws);
      PopWords(c, ptr, h, ws);
      PopEnd(m, mem[..], hp, hv, h, c);
    }

    /** Requests of 8..2048 bytes.  The only pointer check that fires is the one on the head of
        class 12, whose word counts the allocations. */
    method SmallPath(c: nat, ghost h: Heap) returns (r: int, warned: bool)
      requires Ready(mem.Length, hp, hv, h) && HeaderRep(mem[..], hp, h) && ListsRep(mem[..], hp, h.free)
      requires 4 <= c <= 12 && h.free[12] == [] && SmallReady(mem[..], hp, h, c)
      modifies mem
      ensures Rep(mem[..], hp, Small(h, c).0) && r == Address(Small(h, c).1)
      ensures warned <==> c == 12 && h.allocs != 0
      ensures !PopSpills(old(mem[..]), h, c) ==> DataKept(old(mem[..]), mem[..], h, c)
      ensures PopSpills(old(mem[..]), h, c) ==> Spilled(old(mem[..]), mem[..], h, c)
      ensures if r == 0 then TableKept(old(mem[..]), mem[..], h, 0, 0, 0)
              else if h.free[c] != [] then PopEntered(old(mem[..]), mem[..], h, c)
              else SplitEntered(old(mem[..]), mem[..], h, c)
    {
      HeadAddress(mem[..], hp, hv, h, c);
      var head := mem[Head(c)];
      var ptr := U32(head + hv - hp);
      warned := false;
      if head != 0 && ptr != 0 {
        if ptr <= hv || ptr >= hv + mem[46] {
          return 0, true;
        }
        PopPath(c, ptr, h);
        r := ptr;
      } else {
        r := SplitPath(c, h);
      }
    }

    /** The same on a heap that satisfies the invariant. */
    method SmallRequest(c: nat, ghost h: Heap) returns (r: int, warned: bool)
      requires Valid(h) && 4 <= c <= 12
      modifies mem
      ensures SmallDone(old(mem[..]), mem[..], hp, hv, h, c, r, warned)
    {
      ghost var m := mem[..];
      GoodReady(mem.Length, hp, hv, h);
      GoodSmallReady(m, hp, h, c);
      r, warned := SmallPath(c, h);
      if !PopSpills(m, h, c) { DataKeepsLive(m, mem[..], h, c); }
    }

    /** Requests above 2048 bytes on a heap that satisfies the invariant. */
    method LargeRequest(size: nat, ghost h: Heap) returns (r: int)
      requires Valid(h) && 2048 < size < TWO32
      modifies mem
      ensures Rep(mem[..], hp, Large(h, size).0) && r == Address(Large(h, size).1)
      ensures Sane(h, size) ==> LiveKept(old(mem[..]), mem[..], h) && Tabled(old(mem[..]), mem[..], h, size)
    {
      ghost var m := mem[..];
      GoodReady(mem.Length, hp, hv, h);
      r := LargePath(size, h);
      BesideLists(m, mem[..], hp, h);
      if Sane(h, size) { LargeEnd(m, mem[..], h, size, r != 0); }
    }

    /** The size class, by shifting. */
    method SizeClass(size: nat) returns (i: nat)
      requires size > 0
      ensures i == ClassOf(size)
    {
      var v := size - 1;
      i := 1;
      while v != 0
        invariant v >= 0 && i + Bits(v) == 1 + Bits(size - 1)
      {
        i := i + 1;
        v := v / 2;
      }
    }

    /** __shmalloc */
    method Shmalloc(size: nat, ghost h: Heap) returns (r: int, warned: bool)
      requires Valid(h) && size < TWO32
      modifies mem
      ensures Rep(mem[..], hp, Malloc(h, size).0) && r == Address(Malloc(h, size).1)
      ensures warned <==> 1024 < size <= 2048 && h.live != []
      ensures Sane(h, size) && !Spills(old(mem[..]), h, size) ==> LiveKept(old(mem[..]), mem[..], h)
      ensures Spills(old(mem[..]), h, size) ==> Spilled(old(mem[..]), mem[..], h, SmallClass(size))
      ensures Sane(h, size) ==> Tabled(old(mem[..]), mem[..], h, size)
    {
      ghost var m := mem[..];
      if size == 0 {
        return 0, false;
      }
      var sz := if size <= 7 then 8 else size;
      if sz > 2048 {
        r := LargeRequest(sz, h);
        warned := false;
      } else {
        ClassBounds(sz);
        var c := SizeClass(sz);
        r, warned := SmallRequest(c, h);
        AnswerPositive(h, c);
        SmallIsDone(m, mem[..], hp, hv, h, size, r, warned);
      }
    }

    /** A request that does not wrap leaves the heap ready for the next one.  It changes no word of a
        block handed out, unless it takes a block of the last page and the table leaves no room for one
        more entry: then it decrements a word of the data pages. */
    method Request(size: nat, ghost h: Heap) returns (r: int, warned: bool)
      requires Valid(h) && Sane(h, size)
      modifies mem
      ensures Valid(Malloc(h, size).0) && r == Address(Malloc(h, size).1)
      ensures warned <==> 1024 < size <= 2048 && h.live != []
      ensures !Spills(old(mem[..]), h, size) ==> LiveKept(old(mem[..]), mem[..], h)
      ensures Spills(old(mem[..]), h, size) ==> Spilled(old(mem[..]), mem[..], h, SmallClass(size))
      ensures Tabled(old(mem[..]), mem[..], h, size)
    {
      MallocGood(h, size);
      MallocPlaced(hp, hv, h, size);
      r, warned := Shmalloc(size, h);
    }
  }
}
