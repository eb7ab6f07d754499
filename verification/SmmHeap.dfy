/** The shared-memory heap of cpu_comm_mem.c: a page break, power-of-two size classes and
    page-granular large requests.  Addresses are byte offsets from the heap header; free
    lists are sequences here, and SmmHeapCode.dfy shows them in the heap's own words. */
module SmmHeap {
  import opened Common

  const PAGE := 4096
  const TWO31 := 0x8000_0000
  const TWO32 := 0x1_0000_0000

  datatype Block = Block(off: int, len: int)

  /** `start` is the offset of the first data page.  `free[c]` is the list of size class c (4..11), head first.
      `live` are the blocks handed out, oldest first.  The counters are header words 41..44, `brk` is word 45. */
  datatype Heap = Heap(size: nat, start: nat, brk: int, free: seq<seq<Block>>, live: seq<Block>,
                       allocs: nat, used: nat, nfree: nat, freeBytes: nat)

  // --- 32-bit arithmetic ----------------------------------------------------------------

  function U32(x: int): nat { x % TWO32 }

  function I32(x: int): int { if U32(x) < TWO31 then U32(x) else U32(x) - TWO32 }

  /** C division by the page size: truncates toward zero. */
  function PageDiv(x: int): int { if x >= 0 then x / PAGE else -(-x / PAGE) }

  function Pow(c: nat): (p: nat)
    ensures p > 0
  {
    if c == 0 then 1 else 2 * Pow(c - 1)
  }

  // --- Layout ------------------------------------------------------------------------------

  /** Number of page-table entries that Trid_SMM_Init reserves. */
  function PageCount(size: nat): nat { (size + 4095) / PAGE }

  /** Offset of the first data page: one header page and the page table. */
  function DataStart(size: nat): nat { (12 * PageCount(size) + 4095) / PAGE * PAGE + PAGE }

  function InitHeap(size: nat): Heap {
    Heap(size, DataStart(size), DataStart(size), seq(13, _ => []), [], 0, 0, 0, 0)
  }

  // --- Requests ------------------------------------------------------------------------------

  function Bits(v: nat): nat { if v == 0 then 0 else 1 + Bits(v / 2) }

  /** The class the driver's shift loop computes: one more than the bit length of size - 1. */
  function ClassOf(size: nat): nat
    requires size > 0
  {
    1 + Bits(size - 1)
  }

  function Pages(size: nat): nat { U32(size + 4095) / PAGE }

  /** Requests above 2048 bytes.  A page count that wrapped to 0 matches the empty sentinel
      entry 0, whose page is the one before the page table: the heap header. */
  function Large(h: Heap, size: nat): (Heap, Option<int>) {
    var n := Pages(size);
    if n == 0 then (h.(allocs := h.allocs + 1, nfree := U32(h.nfree - 1)), Some(0)) else Fresh(h, n)
  }

  /** n fresh pages at the break. */
  function Fresh(h: Heap, n: nat): (Heap, Option<int>) {
    var newBrk := I32(I32(n * PAGE) + h.brk);
    if newBrk > h.size then (h, None)
    else if PageDiv(I32(newBrk - PAGE)) + 1 > PageCount(h.size) then (h.(brk := newBrk), None)
    else (h.(brk := newBrk, live := h.live + [Block(h.brk, n * PAGE)], allocs := h.allocs + 1,
             used := U32(h.used + n * PAGE)), Some(h.brk))
  }

  /** The blocks 1, ..., n of class c in the page at `page`, last one first: the order in which
      pushing them one after the other leaves them on the list. */
  function Carved(page: int, c: nat, n: nat): (bs: seq<Block>)
    ensures |bs| == n
    ensures forall k | 0 <= k < n :: bs[k] == Block(page + (n - k) * Pow(c), Pow(c))
  {
    if n == 0 then [] else [Block(page + n * Pow(c), Pow(c))] + Carved(page, c, n - 1)
  }

  /** Blocks of class c in a page: 4096 >> c. */
  function SubCount(c: nat): nat
    requires c <= 12
  {
    Pow(12 - c)
  }

  /** Requests of 8..2048 bytes. */
  function Small(h: Heap, c: nat): (Heap, Option<int>)
    requires 4 <= c <= 12 && |h.free| == 13
  {
    if c == 12 && h.allocs != 0 then (h, None)
    else if h.free[c] != [] then
      var b := h.free[c][0];
      (h.(free := h.free[c := h.free[c][1..]], live := h.live + [b], allocs := h.allocs + 1,
          used := U32(h.used + Pow(c)), nfree := U32(h.nfree - 1), freeBytes := U32(h.freeBytes - Pow(c))), Some(b.off))
    else
      var (p, r) := Large(h, PAGE);
      if r.None? then (p, None)
      else
        var n := SubCount(c);
        (p.(free := p.free[c := Carved(r.value, c, n - 1)],
            live := h.live + [Block(r.value, Pow(c))],
            nfree := U32(p.nfree - 1 + n),
            used := U32(p.used - PAGE + Pow(c)),
            freeBytes := U32(p.freeBytes + PAGE - Pow(c))), r)
  }

  /** __shmalloc.  The result is an offset from the heap header, or None for a null pointer. */
  function Malloc(h: Heap, size: nat): (Heap, Option<int>)
    requires |h.free| == 13 && size < TWO32
  {
    if size == 0 then (h, None)
    else
      var sz := if size <= 7 then 8 else size;
      if sz > 2048 then Large(h, sz)
      else
        ClassBounds(sz);
        Small(h, ClassOf(sz))
  }

  // --- Size classes ----------------------------------------------------------------------------

  lemma {:induction false} BitsBound(v: nat, k: nat)
    requires v < Pow(k)
    ensures Bits(v) <= k
  {
    if v > 0 {
      BitsBound(v / 2, k - 1);
    }
  }

  lemma {:induction false} BitsPow(v: nat)
    ensures v < Pow(Bits(v))
    ensures v > 0 ==> Pow(Bits(v) - 1) <= v
  {
    if v > 0 { BitsPow(v / 2); }
  }

  lemma {:induction false} PowMono(a: nat, b: nat)
    requires a <= b
    ensures 0 < Pow(a) <= Pow(b)
    decreases b
  {
    if a < b { PowMono(a, b - 1); } else if a > 0 { PowMono(a - 1, b - 1); }
  }

  lemma PowValues()
    ensures Pow(3) == 8 && Pow(4) == 16 && Pow(5) == 32 && Pow(6) == 64 && Pow(7) == 128 && Pow(8) == 256
    ensures Pow(9) == 512 && Pow(10) == 1024 && Pow(11) == 2048 && Pow(12) == 4096
  {
    assert Pow(2) == 4 && Pow(3) == 8;
    assert Pow(5) == 32 && Pow(6) == 64;
    assert Pow(8) == 256 && Pow(9) == 512;
  }

  /** A block of the computed class is at least twice, and less than four times, the request;
      exactly the requests above 1024 bytes get class 12. */
  lemma ClassBounds(size: nat)
    requires 8 <= size <= 2048
    ensures 4 <= ClassOf(size) <= 12
    ensures 2 * size <= Pow(ClassOf(size)) < 4 * size
    ensures ClassOf(size) == 12 <==> size > 1024
  {
    PowValues();
    BitsPow(size - 1);
    BitsBound(size - 1, 11);
    var b := Bits(size - 1);
    if b <= 2 { PowMono(b, 2); }
    if size > 1024 {
      if b <= 10 { PowMono(b, 10); }
    } else {
      BitsBound(size - 1, 10);
    }
  }
}
