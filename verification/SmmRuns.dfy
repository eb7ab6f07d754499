/** Whole sequences of allocations on the shared-memory heap. */
module SmmRuns {
  import opened Common
  import opened SmmHeap
  import opened SmmTheory

  function Alignment(size: nat): nat
    requires 0 < size
  {
    if size > 2048 then PAGE else Pow(ClassOf(if size <= 7 then 8 else size))
  }

  lemma PageAligned(off: int, c: nat)
    requires 4 <= c <= 12 && off % PAGE == 0
    ensures off % Pow(c) == 0
  {
    PageSplits(c);
    BlockAligned(off, Pow(c), SubCount(c), 0);
  }

  /** A request either leaves the heap as it was, or appends one block to the blocks handed out:
      at least as long as requested, aligned to its class (or to a page), inside the heap. */
  lemma MallocBlock(h: Heap, size: nat)
    requires Good(h) && Sane(h, size)
    ensures size == 0 ==> Malloc(h, size).1.None?
    ensures var (h', r) := Malloc(h, size);
            if r.None? then h' == h
            else
              && |h'.live| == |h.live| + 1 && h.live <= h'.live
              && var b := h'.live[|h.live|];
                 && b.off == r.value && 0 < size <= b.len && b.off % Alignment(size) == 0
                 && Inside(h', b)
  {
    MallocGood(h, size);
    if size > 2048 {
      LargeFits(h, size);
    } else if size > 0 {
      var sz := if size <= 7 then 8 else size;
      ClassBounds(sz);
      var c := ClassOf(sz);
      SmallPaths(h, c);
      if c == 12 && h.allocs != 0 {
      } else if h.free[c] != [] {
        assert FreeBlock(h, c, h.free[c][0]);
      } else {
        PageAligned(h.brk, c);
      }
    }
  }

  /** A request of 1025..2048 bytes belongs to class 12, whose list head is the word that counts
      allocations: it succeeds if and only if nothing was allocated before and a page is left. */
  lemma ClassTwelve(h: Heap, size: nat)
    requires Good(h) && 1024 < size <= 2048
    ensures Malloc(h, size).1.Some? <==> h.live == [] && h.brk + PAGE <= h.size
    ensures Malloc(h, size).1.Some? ==> Malloc(h, size).1 == Some(h.brk)
    ensures Malloc(h, size).1.None? ==> Malloc(h, size).0 == h
  {
    ClassBounds(size);
    SmallPaths(h, 12);
  }

  /** A page count that wraps to zero: a request of the last 4095 sizes is answered with the heap
      header itself, and counted as an allocation of a free block. */
  lemma HugeRequestReturnsHeader(h: Heap, size: nat)
    requires |h.free| == 13 && TWO32 - PAGE < size < TWO32
    ensures Malloc(h, size).1 == Some(0)
    ensures Malloc(h, size).0 == h.(allocs := h.allocs + 1, nfree := (h.nfree - 1) % 0x1_0000_0000)
  {
    assert U32(size + 4095) == size + 4095 - TWO32;
    assert Pages(size) == 0;
  }

  // --- Runs -----------------------------------------------------------------------------------

  /** `hs[i + 1]` is the heap after request `reqs[i]`; no request wraps. */
  ghost predicate IsRun(size: nat, hs: seq<Heap>, reqs: seq<nat>) {
    && 0 < size < TWO31 - 2 * PAGE && DataStart(size) < TWO31 - 2 * PAGE
    && |hs| == |reqs| + 1
    && hs[0] == InitHeap(size)
    && forall i | 0 <= i < |reqs| ::
         |hs[i].free| == 13 && Sane(hs[i], reqs[i]) && hs[i + 1] == Malloc(hs[i], reqs[i]).0
  }

  lemma {:induction false} RunGood(size: nat, hs: seq<Heap>, reqs: seq<nat>, i: nat)
    requires IsRun(size, hs, reqs) && i < |hs|
    ensures Good(hs[i])
  {
    if i == 0 {
      InitGood(size);
    } else {
      RunGood(size, hs, reqs, i - 1);
      MallocGood(hs[i - 1], reqs[i - 1]);
    }
  }

  lemma {:induction false} LiveGrows(size: nat, hs: seq<Heap>, reqs: seq<nat>, i: nat, j: nat)
    requires IsRun(size, hs, reqs) && i <= j < |hs|
    ensures hs[i].live <= hs[j].live
    decreases j - i
  {
    if i < j {
      LiveGrows(size, hs, reqs, i, j - 1);
      RunGood(size, hs, reqs, j - 1);
      MallocBlock(hs[j - 1], reqs[j - 1]);
    }
  }

  /** Block k handed out by h answers a request of `size` bytes with the offset `off`. */
  predicate Answers(h: Heap, k: nat, off: int, size: nat) {
    && k < |h.live| && h.live[k].off == off && 0 < size <= h.live[k].len
    && off % Alignment(size) == 0 && Inside(h, h.live[k])
  }

  /** The result of request i is a block of at least the requested size, aligned, after the
      header and the page table and before the break, in every later heap of the run. */
  lemma ResultStays(size: nat, hs: seq<Heap>, reqs: seq<nat>, i: nat, n: nat)
    requires IsRun(size, hs, reqs) && i < n <= |reqs| && Malloc(hs[i], reqs[i]).1.Some?
    ensures Answers(hs[n], |hs[i].live|, Malloc(hs[i], reqs[i]).1.value, reqs[i])
    ensures hs[n].start == DataStart(size)
  {
    RunGood(size, hs, reqs, i);
    RunGood(size, hs, reqs, n);
    MallocBlock(hs[i], reqs[i]);
    LiveGrows(size, hs, reqs, i + 1, n);
    SameStart(size, hs, reqs, n);
  }

  /** Allocation safety over a whole run: at any later time n the results of two requests are
      different, disjoint blocks, and both are apart from every block on a free list. */
  lemma AllocationSafety(size: nat, hs: seq<Heap>, reqs: seq<nat>, i: nat, j: nat, n: nat)
    requires IsRun(size, hs, reqs) && i < j < n <= |reqs|
    requires Malloc(hs[i], reqs[i]).1.Some? && Malloc(hs[j], reqs[j]).1.Some?
    ensures Answers(hs[n], |hs[i].live|, Malloc(hs[i], reqs[i]).1.value, reqs[i])
    ensures Answers(hs[n], |hs[j].live|, Malloc(hs[j], reqs[j]).1.value, reqs[j])
    ensures Apart(hs[n].live[|hs[i].live|], hs[n].live[|hs[j].live|])
    ensures |hs[n].free| == 13
    ensures forall c, k | 4 <= c <= 11 && 0 <= k < |hs[n].free[c]| ::
              && Apart(hs[n].live[|hs[i].live|], hs[n].free[c][k])
              && Apart(hs[n].live[|hs[j].live|], hs[n].free[c][k])
  {
    ResultStays(size, hs, reqs, i, n);
    ResultStays(size, hs, reqs, j, n);
    ResultStays(size, hs, reqs, i, j);
    RunGood(size, hs, reqs, n);
    assert |hs[i].live| < |hs[j].live|;
  }

  lemma {:induction false} SameStart(size: nat, hs: seq<Heap>, reqs: seq<nat>, i: nat)
    requires IsRun(size, hs, reqs) && i < |hs|
    ensures hs[i].start == DataStart(size) && hs[i].size == size
  {
    if i > 0 { SameStart(size, hs, reqs, i - 1); }
  }

  /** Accounting over a whole run: bytes in use plus free bytes is what the break has moved;
      the free words are the number and the total size of the blocks on the lists. */
  lemma Accounting(size: nat, hs: seq<Heap>, reqs: seq<nat>, i: nat)
    requires IsRun(size, hs, reqs) && i < |hs|
    ensures var h := hs[i];
            && h.used + h.freeBytes == h.brk - hs[0].brk
            && |h.free| == 13 && h.nfree == FreeNumber(h.free, |h.free|) && h.freeBytes == FreeSize(h.free, |h.free|)
            && h.allocs == |h.live|
  {
    RunGood(size, hs, reqs, i);
    SameStart(size, hs, reqs, i);
  }

  // --- Bounds -------------------------------------------------------------------------------------

  function PageUp(x: nat): nat { (x + 4095) / PAGE * PAGE }

  /** Trid_SMM_Init rounds the base up and keeps the size, so base + size may pass the end of the
      region; the break is page-aligned and therefore never does.  The region ends where raw + size
      does, or one byte later as InitCommMem calls it. */
  lemma BreakInRegion(size: nat, hs: seq<Heap>, reqs: seq<nat>, i: nat, raw: nat, end: nat)
    requires IsRun(size, hs, reqs) && i < |hs|
    requires end % PAGE == 0 && raw + size <= end <= raw + size + 1 && DataStart(size) <= size
    ensures hs[i].brk % PAGE == 0 && PageUp(raw) + hs[i].brk <= end
    ensures hs[i].brk / PAGE <= PageCount(size)
    ensures forall k | 0 <= k < |hs[i].live| ::
              var b := hs[i].live[k];
              PageUp(raw) <= PageUp(raw) + b.off && PageUp(raw) + b.off + b.len <= end &&
              0 <= b.off / PAGE < PageCount(size)
  {
    RunGood(size, hs, reqs, i);
    SameStart(size, hs, reqs, i);
    var h := hs[i];
    assert h.brk <= size;
    BreakBelowEnd(raw, size, end, h.brk);
    forall k | 0 <= k < |h.live|
      ensures var b := h.live[k];
              PageUp(raw) + b.off + b.len <= end && 0 <= b.off / PAGE < PageCount(size)
    {
      assert Inside(h, h.live[k]);
      PageIndex(h.live[k].off, h.brk, size);
    }
  }

  lemma PageIndex(off: int, brk: int, size: nat)
    requires 0 <= off < brk <= size && brk % PAGE == 0
    ensures 0 <= off / PAGE < PageCount(size)
  {
  }

  lemma BreakBelowEnd(raw: nat, size: nat, end: nat, brk: int)
    requires end % PAGE == 0 && raw + size <= end <= raw + size + 1 && 0 <= brk <= size && brk % PAGE == 0
    ensures PageUp(raw) + brk <= end && brk / PAGE <= PageCount(size)
  {
    var x, y, z := PageUp(raw) / PAGE, brk / PAGE, end / PAGE;
    assert PageUp(raw) == PAGE * x && brk == PAGE * y && end == PAGE * z;
    assert PAGE * x < raw + PAGE;
    assert PAGE * (x + y) < PAGE * (z + 1);
  }
}
