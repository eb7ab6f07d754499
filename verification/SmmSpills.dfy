/** When the allocator writes into blocks it has handed out, and when their owners may write. */
module SmmSpills {
  import opened Common
  import opened SmmHeap
  import opened SmmTheory
  import opened SmmRuns
  import opened SmmWords

  /** A heap whose size is not a multiple of the page size never spills. */
  lemma UnalignedNeverSpills(m: seq<int>, h: Heap, c: nat)
    requires Good(h) && h.start == DataStart(h.size) && 4 <= c <= 11 && h.size % PAGE != 0
    ensures !PopSpills(m, h, c)
  {
    if h.free[c] != [] {
      FreePlace(h, c, 0);
      PopReaches(h, h.free[c][0], 1);
    }
  }

  /** The first block handed out starts at the first data page; before it the heap is the initial one. */
  lemma {:induction false} FirstBlock(size: nat, hs: seq<Heap>, reqs: seq<nat>, k: nat)
    requires IsRun(size, hs, reqs) && k < |hs|
    ensures if hs[k].live == [] then hs[k] == InitHeap(size)
            else hs[k].live[0].off == DataStart(size) && hs[k].live[0].len >= 16
  {
    if k > 0 {
      FirstBlock(size, hs, reqs, k - 1);
      RunGood(size, hs, reqs, k - 1);
      MallocBlock(hs[k - 1], reqs[k - 1]);
      FirstRequest(hs[k - 1], reqs[k - 1]);
    }
  }

  lemma FirstRequest(h: Heap, size: nat)
    requires Good(h) && Sane(h, size) && (h.live == [] ==> forall c | 0 <= c < 13 :: h.free[c] == [])
    ensures var (h', r) := Malloc(h, size);
            h.live == [] && r.Some? ==> r.value == h.brk && |h'.live| == 1 && h'.live[0].len >= 16
  {
    if size > 2048 {
      LargeFits(h, size);
    } else if size > 0 {
      var sz := if size <= 7 then 8 else size;
      ClassBounds(sz);
      SmallPaths(h, ClassOf(sz));
      PowRange(ClassOf(sz));
    }
  }

  /** The words that a spilling request writes lie in the first block ever handed out.  When the second
      word of the entry is past the table, that block's contents change; when only the third is, that
      word of the block becomes the number of the next free block. */
  lemma SpillHitsLive(size: nat, hs: seq<Heap>, reqs: seq<nat>, k: nat, m: seq<int>, m': seq<int>)
    requires IsRun(size, hs, reqs) && k < |reqs| && |m'| == |m| && Spills(m, hs[k], reqs[k])
    ensures hs[k].live != [] && hs[k].size == size
    ensures InBlock(hs[k].live[0], Pte(PageCount(size)) + (if PastTable(PageCount(size), 1) then 1 else 2))
    ensures PastTable(PageCount(size), 1) && Spilled(m, m', hs[k], SmallClass(reqs[k])) ==> !LiveKept(m, m', hs[k])
    ensures !PastTable(PageCount(size), 1) && Spilled(m, m', hs[k], SmallClass(reqs[k])) ==>
              m'[Pte(PageCount(size)) + 2] == NextIndex(hs[k], SmallClass(reqs[k]))
  {
    var h := hs[k];
    RunGood(size, hs, reqs, k);
    SameStart(size, hs, reqs, k);
    FirstBlock(size, hs, reqs, k);
    EntrySpills(size, 1);
    EntrySpills(size, 2);
    StartAligned(size);
    assert h.live != [] by { assert InitHeap(size).free[SmallClass(reqs[k])] == []; }
    assert InBlock(h.live[0], Pte(PageCount(size)) + (if PastTable(PageCount(size), 1) then 1 else 2));
  }

  const FOUR_MB := 0x40_0000

  lemma ManyPages(size: nat, h1: Heap)
    requires size == FOUR_MB && h1 == Malloc(InitHeap(size), 4173824).0
    ensures PageCount(size) == 1024 && DataStart(size) == 16384 && Sane(InitHeap(size), 4173824)
    ensures Good(h1) && h1.size == size && h1.brk == 4190208 && h1.free == InitHeap(size).free
    ensures Malloc(InitHeap(size), 4173824).1 == Some(16384)
  {
    InitGood(size);
    LargeFits(InitHeap(size), 4173824);
    MallocGood(InitHeap(size), 4173824);
  }

  lemma TwoSmall(h1: Heap, h2: Heap, n: nat)
    requires n == 8 && Good(h1) && h1.size == FOUR_MB && h1.brk == 4190208 && h1.free[4] == [] && h2 == Malloc(h1, n).0
    ensures h2 == Split(h1, 4) && Good(h2) && Sane(h1, n) && Sane(h2, n) && Malloc(h2, n).1.Some?
    ensures h2.free[4] != [] && PopEntry(h2.free[4][0]) == 1024
  {
    ClassOfEight(n);
    SmallPaths(h1, 4);
    MallocGood(h1, n);
    LastPage(h1, h2);
    SmallPaths(h2, 4);
  }

  lemma ClassOfEight(n: nat)
    requires n == 8
    ensures ClassOf(n) == 4
  {
  }

  /** Three requests on a heap of 4 MB: 1019 pages, then 8 bytes twice.  The third takes a block of the
      last page and decrements a word of the block that answered the first. */
  lemma ThirdRequestSpills(m: seq<int>) returns (size: nat, hs: seq<Heap>, reqs: seq<nat>)
    ensures size == FOUR_MB && reqs == [4173824, 8, 8] && IsRun(size, hs, reqs)
    ensures Malloc(hs[0], reqs[0]).1 == Some(16384) && Malloc(hs[2], reqs[2]).1.Some?
    ensures Spills(m, hs[2], reqs[2])
    ensures hs[2].live != [] && InBlock(hs[2].live[0], Pte(PageCount(size)) + 1)
  {
    size, reqs := FOUR_MB, [4173824, 8, 8];
    var h0 := InitHeap(size);
    var h1 := Malloc(h0, reqs[0]).0;
    ManyPages(size, h1);
    var h2 := Malloc(h1, reqs[1]).0;
    TwoSmall(h1, h2, reqs[1]);
    hs := [h0, h1, h2, Malloc(h2, reqs[2]).0];
    forall i | 0 <= i < |reqs|
      ensures |hs[i].free| == 13 && Sane(hs[i], reqs[i]) && hs[i + 1] == Malloc(hs[i], reqs[i]).0
    {
      assert i == 0 || i == 1 || i == 2;
    }
    assert IsRun(size, hs, reqs);
    ClassOfEight(reqs[2]);
    SpillHitsLive(size, hs, reqs, 2, m, m);
  }

  lemma LastPage(h1: Heap, h2: Heap)
    requires |h1.free| == 13 && h1.brk == 4190208 && h2 == Split(h1, 4)
    ensures h2.free[4] != [] && PopEntry(h2.free[4][0]) == 1024
  {
    PowValues();
    assert SubCount(4) == 256;
    assert h2.free[4] == Carved(h1.brk, 4, 255);
    assert h2.free[4][0] == Block(h1.brk + 255 * Pow(4), Pow(4));
  }

  /** The owners of blocks may write into them, in any way, without disturbing the heap. */
  lemma ClientWrites(m: seq<int>, m': seq<int>, hp: nat, h: Heap)
    requires Good(h) && Rep(m, hp, h) && |m'| == |m|
    requires forall w | 0 <= w < |m| && m'[w] != m[w] :: exists i :: 0 <= i < |h.live| && InBlock(h.live[i], w)
    ensures Rep(m', hp, h)
  {
    forall w | 0 <= w < |m| && 4 * w < h.start ensures m'[w] == m[w] {
      assert forall i | 0 <= i < |h.live| :: Inside(h, h.live[i]);
    }
    forall c | 4 <= c <= 11 ensures Linked(m', hp, Head(c), Words(h.free[c])) {
      var ws := Words(h.free[c]);
      assert Linked(m, hp, Head(c), ws);
      forall k | 0 <= k < |ws| ensures m'[ws[k]] == m[ws[k]] && m'[ws[k] + 1] == m[ws[k] + 1] {
        FreePlace(h, c, k);
        FreeNotLive(h, c, k, ws[k]);
        FreeNotLive(h, c, k, ws[k] + 1);
      }
      LinkedFrame(m, m', hp, Head(c), ws);
    }
  }

  lemma FreeNotLive(h: Heap, c: nat, k: nat, w: int)
    requires Good(h) && 4 <= c <= 11 && k < |h.free[c]| && InBlock(h.free[c][k], w)
    ensures forall i | 0 <= i < |h.live| :: !InBlock(h.live[i], w)
  {
    forall i | 0 <= i < |h.live| ensures !InBlock(h.live[i], w) {
      assert Apart(h.live[i], h.free[c][k]);
    }
  }
}
