/** The heap in memory: header words, page table and intrusive free lists, as 32-bit words
    indexed from the heap header.  Pointers stored in the heap are physical addresses. */
module SmmWords {
  import opened Common
  import opened SmmHeap
  import opened SmmTheory

  // --- Doubly linked lists of words ----------------------------------------------------------------

  /** Node k holds its successor (or 0) and the address of the word that points to it. */
  predicate Node(m: seq<int>, hp: nat, head: nat, ws: seq<nat>, k: nat)
    requires k < |ws| && ws[k] + 1 < |m|
  {
    && m[ws[k]] == (if k + 1 < |ws| then hp + 4 * ws[k + 1] else 0)
    && m[ws[k] + 1] == (if k == 0 then hp + 4 * head else hp + 4 * ws[k - 1])
  }

  /** The doubly linked list whose head is word `head` and whose nodes start at the words ws. */
  ghost predicate Linked(m: seq<int>, hp: nat, head: nat, ws: seq<nat>)
    requires head < |m|
  {
    && (forall k | 0 <= k < |ws| :: ws[k] + 1 < |m|)
    && m[head] == (if ws == [] then 0 else hp + 4 * ws[0])
    && (forall k | 0 <= k < |ws| :: Node(m, hp, head, ws, k))
  }

  predicate Away(a: nat, b: nat) { a + 1 < b || b + 1 < a }

  /** Nodes do not overlap each other or the head. */
  predicate Spread(head: nat, ws: seq<nat>) {
    && (forall k | 0 <= k < |ws| :: head < ws[k])
    && (forall i, j | 0 <= i < j < |ws| :: Away(ws[i], ws[j]))
  }

  /** Word w is no part of the list. */
  predicate Clear(head: nat, ws: seq<nat>, w: int) {
    w != head && forall k | 0 <= k < |ws| :: w != ws[k] && w != ws[k] + 1
  }

  /** A list depends on its own words only. */
  lemma LinkedFrame(m: seq<int>, m': seq<int>, hp: nat, head: nat, ws: seq<nat>)
    requires head < |m| && |m'| == |m| && Linked(m, hp, head, ws) && m'[head] == m[head]
    requires forall k | 0 <= k < |ws| :: m'[ws[k]] == m[ws[k]] && m'[ws[k] + 1] == m[ws[k] + 1]
    ensures Linked(m', hp, head, ws)
  {
    forall k | 0 <= k < |ws| ensures Node(m', hp, head, ws, k) {
      assert Node(m, hp, head, ws, k);
    }
  }

  lemma FirstNode(m: seq<int>, hp: nat, head: nat, ws: seq<nat>)
    requires head < |m| && ws != [] && Linked(m, hp, head, ws)
    ensures ws[0] + 1 < |m| && m[head] == hp + 4 * ws[0] && m[ws[0] + 1] == hp + 4 * head
    ensures m[ws[0]] == if |ws| == 1 then 0 else hp + 4 * ws[1]
  {
    assert Node(m, hp, head, ws, 0);
  }

  /** Memory after the first node is unlinked: the successor's back link, then the head. */
  function Unlink(m: seq<int>, hp: nat, head: nat, ws: seq<nat>): seq<int>
    requires head < |m| && ws != [] && forall k | 0 <= k < |ws| :: ws[k] + 1 < |m|
  {
    if |ws| == 1 then m[head := 0] else m[ws[1] + 1 := hp + 4 * head][head := hp + 4 * ws[1]]
  }

  lemma UnlinkLinked(m: seq<int>, hp: nat, head: nat, ws: seq<nat>)
    requires head < |m| && ws != [] && Linked(m, hp, head, ws) && Spread(head, ws)
    ensures Linked(Unlink(m, hp, head, ws), hp, head, ws[1..])
  {
    var m', t := Unlink(m, hp, head, ws), ws[1..];
    forall k | 0 <= k < |t| ensures Node(m', hp, head, t, k) {
      assert Node(m, hp, head, ws, k + 1);
      assert k > 0 ==> Away(ws[1], ws[k + 1]);
    }
  }

  /** Memory after a node is pushed in front. */
  function Push(m: seq<int>, hp: nat, head: nat, ws: seq<nat>, b: nat): seq<int>
    requires head < |m| && b + 1 < |m| && forall k | 0 <= k < |ws| :: ws[k] + 1 < |m|
  {
    var m' := m[b := m[head]][b + 1 := hp + 4 * head][head := hp + 4 * b];
    if ws == [] then m' else m'[ws[0] + 1 := hp + 4 * b]
  }

  lemma PushLinked(m: seq<int>, hp: nat, head: nat, ws: seq<nat>, b: nat)
    requires head < b && b + 1 < |m| && Linked(m, hp, head, ws) && Spread(head, ws)
    requires forall k | 0 <= k < |ws| :: Away(b, ws[k])
    ensures Linked(Push(m, hp, head, ws, b), hp, head, [b] + ws)
  {
    var m', t := Push(m, hp, head, ws, b), [b] + ws;
    forall k | 0 <= k < |t| ensures Node(m', hp, head, t, k) {
      if k > 0 {
        assert t[k] == ws[k - 1];
        assert Node(m, hp, head, ws, k - 1);
        assert k > 1 ==> Away(ws[0], ws[k - 1]);
      }
    }
  }

  /** Two lists share no word. */
  predicate Disjoint(head: nat, ws: seq<nat>, head': nat, ws': seq<nat>) {
    && head != head'
    && (forall k | 0 <= k < |ws| :: Clear(head', ws', ws[k]) && Clear(head', ws', ws[k] + 1))
    && (forall k | 0 <= k < |ws'| :: head != ws'[k] && head != ws'[k] + 1)
  }

  lemma UnlinkOther(m: seq<int>, hp: nat, head: nat, ws: seq<nat>, head': nat, ws': seq<nat>)
    requires head < |m| && head' < |m| && ws != [] && (forall k | 0 <= k < |ws| :: ws[k] + 1 < |m|)
    requires Linked(m, hp, head', ws') && Disjoint(head, ws, head', ws')
    ensures Linked(Unlink(m, hp, head, ws), hp, head', ws')
  {
    var m' := Unlink(m, hp, head, ws);
    if |ws| > 1 { assert Clear(head', ws', ws[1] + 1); }
    forall k | 0 <= k < |ws'| ensures m'[ws'[k]] == m[ws'[k]] && m'[ws'[k] + 1] == m[ws'[k] + 1] {}
    LinkedFrame(m, m', hp, head', ws');
  }

  lemma PushOther(m: seq<int>, hp: nat, head: nat, ws: seq<nat>, b: nat, head': nat, ws': seq<nat>)
    requires head < |m| && head' < |m| && b + 1 < |m| && (forall k | 0 <= k < |ws| :: ws[k] + 1 < |m|)
    requires Linked(m, hp, head', ws') && Disjoint(head, [b] + ws, head', ws')
    ensures Linked(Push(m, hp, head, ws, b), hp, head', ws')
  {
    var m', t := Push(m, hp, head, ws, b), [b] + ws;
    assert t[0] == b;
    assert Clear(head', ws', b) && Clear(head', ws', b + 1);
    if ws != [] {
      assert t[1] == ws[0];
      assert Clear(head', ws', ws[0] + 1);
    }
    forall k | 0 <= k < |ws'| ensures m'[ws'[k]] == m[ws'[k]] && m'[ws'[k] + 1] == m[ws'[k] + 1] {}
    LinkedFrame(m, m', hp, head', ws');
  }

  // --- The heap in words ------------------------------------------------------------------------------

  /** Word of the list head of class c. */
  function Head(c: nat): nat { 2 * c + 17 }

  /** First word of page-table entry e. */
  function Pte(e: int): int { 1024 + 3 * e }

  function WordOf(b: Block): nat { if b.off < 0 then 0 else b.off / 4 }

  function Words(bs: seq<Block>): (ws: seq<nat>)
    ensures |ws| == |bs| && forall k | 0 <= k < |bs| :: ws[k] == WordOf(bs[k])
  {
    seq(|bs|, k requires 0 <= k < |bs| => WordOf(bs[k]))
  }

  ghost predicate ListsRep(m: seq<int>, hp: nat, free: seq<seq<Block>>)
    requires |m| >= 1027 && |free| == 13
  {
    forall c | 4 <= c <= 11 :: Linked(m, hp, Head(c), Words(free[c]))
  }

  /** Fixed words, the counters, and the empty sentinel of the page table. */
  ghost predicate HeaderRep(m: seq<int>, hp: nat, h: Heap)
    requires |m| >= 1027
  {
    && m[0] == hp + PAGE && m[1] == hp + PAGE && m[2] == PageCount(h.size) && m[3] == 0
    && m[41] == h.allocs && m[42] == h.used && m[43] == h.nfree && m[44] == h.freeBytes
    && m[45] == U32(h.brk) && m[46] == h.size && m[47] == hp
    && m[1024] == 0 && m[1025] == 0 && m[1026] == 0
  }

  /** Memory reaches to the first data page and to the last whole page of the heap. */
  predicate Mapped(n: nat, h: Heap) {
    n >= 2048 && 4 * n >= h.start && 4 * n >= h.size / PAGE * PAGE && h.start == DataStart(h.size)
  }

  ghost predicate Rep(m: seq<int>, hp: nat, h: Heap) {
    |h.free| == 13 && Mapped(|m|, h) && HeaderRep(m, hp, h) && ListsRep(m, hp, h.free)
  }

  // --- Where free blocks lie ---------------------------------------------------------------------

  lemma {:induction false} SixteenDivides(c: nat)
    requires c >= 4
    ensures Pow(c) % 16 == 0
  {
    if c == 4 { PowValues(); } else { SixteenDivides(c - 1); }
  }

  lemma ModMod(x: int, p: nat)
    requires p > 0 && p % 16 == 0 && x % p == 0
    ensures x % 16 == 0
  {
    var q, r := x / p, p / 16;
    assert x == q * p && p == 16 * r;
    assert q * (16 * r) == 16 * (q * r);
    assert x == 16 * (q * r);
  }

  lemma StartAligned(size: nat)
    ensures DataStart(size) % PAGE == 0 && DataStart(size) >= PAGE && DataStart(size) >= 4 * Pte(PageCount(size))
  {
  }

  lemma PastStart(off: int, start: int)
    requires off % 16 == 0 && off % PAGE != 0 && start % PAGE == 0 && start <= off
    ensures start + 16 <= off
  {
    var s := start / PAGE;
    assert start == 16 * (256 * s);
  }

  /** A free block is 16-aligned and starts at least 16 bytes after the first data page starts. */
  lemma FreePlace(h: Heap, c: nat, k: nat)
    requires Good(h) && h.start == DataStart(h.size) && 4 <= c <= 11 && k < |h.free[c]|
    ensures var b := h.free[c][k];
            b.off % 16 == 0 && h.start + 16 <= b.off && b.off + 16 <= h.brk <= h.size && 16 <= b.len
    ensures 4 * WordOf(h.free[c][k]) == h.free[c][k].off
    ensures Pte(PageCount(h.size)) + 4 <= WordOf(h.free[c][k]) && 2048 <= WordOf(h.free[c][k])
  {
    var b := h.free[c][k];
    assert FreeBlock(h, c, b);
    PowRange(c);
    SixteenDivides(c);
    StartAligned(h.size);
    FreeBlockPlace(b, Pow(c), h.start);
  }

  lemma FreeBlockPlace(b: Block, s: nat, start: int)
    requires s > 0 && s % 16 == 0 && b.off % s == 0 && b.off % PAGE != 0 && 0 <= start <= b.off && start % PAGE == 0
    ensures b.off % 16 == 0 && start + 16 <= b.off && 4 * WordOf(b) == b.off
  {
    ModMod(b.off, s);
    PastStart(b.off, start);
    WordExact(b);
  }

  /** A free block lies between the first words of the first data page and the break. */
  predicate Held(h: Heap, b: Block) {
    b.off == 4 * WordOf(b) && 2048 <= WordOf(b) && h.start + 16 <= b.off && b.off + 16 <= h.brk
  }

  predicate Placement(h: Heap) {
    |h.free| == 13 && forall c, k | 4 <= c <= 11 && 0 <= k < |h.free[c]| :: Held(h, h.free[c][k])
  }

  lemma GoodPlacement(h: Heap)
    requires Good(h) && h.start == DataStart(h.size)
    ensures Placement(h)
  {
    forall c, k | 4 <= c <= 11 && 0 <= k < |h.free[c]| ensures Held(h, h.free[c][k]) { FreePlace(h, c, k); }
  }

  lemma ApartWords(a: Block, b: Block)
    requires Apart(a, b) && a.off % 16 == 0 && b.off % 16 == 0 && 16 <= a.len && 16 <= b.len && a.off >= 0 && b.off >= 0
    ensures Away(WordOf(a), WordOf(b))
  {
  }

  lemma FreeSpread(h: Heap, c: nat)
    requires Good(h) && h.start == DataStart(h.size) && 4 <= c <= 11
    ensures Spread(Head(c), Words(h.free[c]))
  {
    var bs, ws := h.free[c], Words(h.free[c]);
    forall k | 0 <= k < |ws| ensures Head(c) < ws[k] { FreePlace(h, c, k); }
    forall i, j | 0 <= i < j < |ws| ensures Away(ws[i], ws[j]) {
      FreePlace(h, c, i);
      FreePlace(h, c, j);
      ApartWords(bs[i], bs[j]);
    }
  }

  lemma FreeAway(h: Heap, c: nat, i: nat, d: nat, j: nat)
    requires Good(h) && h.start == DataStart(h.size) && 4 <= c <= 11 && 4 <= d <= 11 && c != d
    requires i < |h.free[c]| && j < |h.free[d]|
    ensures Away(WordOf(h.free[c][i]), WordOf(h.free[d][j]))
  {
    FreePlace(h, c, i);
    FreePlace(h, d, j);
    if c < d {
      assert Apart(h.free[c][i], h.free[d][j]);
    } else {
      assert Apart(h.free[d][j], h.free[c][i]);
    }
    ApartWords(h.free[c][i], h.free[d][j]);
  }

  lemma FreeDisjoint(h: Heap, c: nat, d: nat)
    requires Good(h) && h.start == DataStart(h.size) && 4 <= c <= 11 && 4 <= d <= 11 && c != d
    ensures Disjoint(Head(c), Words(h.free[c]), Head(d), Words(h.free[d]))
  {
    var ws, ds := Words(h.free[c]), Words(h.free[d]);
    forall i | 0 <= i < |ws| ensures Clear(Head(d), ds, ws[i]) && Clear(Head(d), ds, ws[i] + 1) {
      FreePlace(h, c, i);
      forall j | 0 <= j < |ds| ensures Away(ws[i], ds[j]) { FreeAway(h, c, i, d, j); }
    }
    forall j | 0 <= j < |ds| ensures Head(c) < ds[j] { FreePlace(h, d, j); }
  }

  // --- Frames -----------------------------------------------------------------------------------------

  /** A word of the header other than a list head, or of a table entry up to the one after the
      last page. */
  predicate Beside(h: Heap, w: int) {
    && (w < 2048 || w <= Pte(PageCount(h.size)) + 2 || h.brk == h.start)
    && (w < 25 || 39 < w || w % 2 == 0)
  }

  /** Such writes keep the lists, even when an entry lies past the end of the table, in the first
      words of the first data page. */
  lemma BesideLists(m: seq<int>, m': seq<int>, hp: nat, h: Heap)
    requires Placement(h) && h.start == DataStart(h.size) && |m'| == |m| && |m| >= 2048 && ListsRep(m, hp, h.free)
    requires forall w | 0 <= w < |m| && !Beside(h, w) :: m'[w] == m[w]
    ensures ListsRep(m', hp, h.free)
  {
    StartAligned(h.size);
    forall c | 4 <= c <= 11 ensures Linked(m', hp, Head(c), Words(h.free[c])) {
      var ws := Words(h.free[c]);
      assert Linked(m, hp, Head(c), ws);
      assert !Beside(h, Head(c));
      forall k | 0 <= k < |ws| ensures m'[ws[k]] == m[ws[k]] && m'[ws[k] + 1] == m[ws[k] + 1] {
        assert Held(h, h.free[c][k]);
        assert !Beside(h, ws[k]) && !Beside(h, ws[k] + 1);
      }
      LinkedFrame(m, m', hp, Head(c), ws);
    }
  }

  /** Word f of entry n lies past the pages of a table of n entries. */
  predicate PastTable(n: nat, f: nat) {
    n % 1024 == 0 || (n % 1024 == 341 && f >= 1) || (n % 1024 == 682 && f == 2)
  }

  lemma EntrySpills(size: nat, f: nat)
    requires f <= 2
    ensures 4 * (Pte(PageCount(size)) + f) >= DataStart(size) <==> PastTable(PageCount(size), f)
  {
    var q, r := PageCount(size) / 1024, PageCount(size) % 1024;
    assert PageCount(size) == 1024 * q + r;
    DivShift(12 * r + 4095, 3 * q);
    TablePages(r);
    PastPages(r, if r == 0 then 0 else if r <= 341 then 1 else if r <= 682 then 2 else 3, f);
  }

  lemma DivShift(x: int, k: int)
    ensures (PAGE * k + x) / PAGE == k + x / PAGE
  {
  }

  lemma PastPages(r: nat, t: nat, f: nat)
    requires r < 1024 && f <= 2 && t == if r == 0 then 0 else if r <= 341 then 1 else if r <= 682 then 2 else 3
    ensures 12 * r + 4 * f >= PAGE * t <==> r == 0 || (r == 341 && f >= 1) || (r == 682 && f == 2)
  {
  }

  /** The entry whose split counter a pop of block b decrements: the one after its page's. */
  function PopEntry(b: Block): int { b.off / PAGE + 1 }

  /** That entry's words reach into the data pages exactly when b lies in the last page of the heap and
      the table fills its pages so far; never when the heap's size is not a multiple of the page size. */
  lemma PopReaches(h: Heap, b: Block, f: nat)
    requires h.start == DataStart(h.size) && h.start <= b.off < h.brk <= h.size && h.brk % PAGE == 0 && f <= 2
    ensures 2 <= PopEntry(b) <= PageCount(h.size)
    ensures h.start <= 4 * (Pte(PopEntry(b)) + f) <==>
            PopEntry(b) == PageCount(h.size) && PastTable(PageCount(h.size), f)
    ensures h.size % PAGE != 0 ==> PopEntry(b) < PageCount(h.size)
  {
    EntrySpills(h.size, f);
    StartAligned(h.size);
    assert b.off / PAGE < h.brk / PAGE <= h.size / PAGE;
  }

  /** Taking the first block of class c writes into the data pages: it decrements the second word of
      the entry, and when that becomes 0 it also writes the third. */
  predicate PopSpills(m: seq<int>, h: Heap, c: nat) {
    var n := PageCount(h.size);
    && c < |h.free| && h.free[c] != [] && PopEntry(h.free[c][0]) == n
    && (PastTable(n, 1) || (PastTable(n, 2) && Pte(n) + 1 < |m| && U32(m[Pte(n) + 1] - 1) == 0))
  }

  /** The class of a request of at most 2048 bytes. */
  function SmallClass(size: nat): nat
    requires size > 0
  {
    ClassOf(if size <= 7 then 8 else size)
  }

  /** The request takes a block off a free list and writes into the data pages. */
  predicate Spills(m: seq<int>, h: Heap, size: nat) {
    0 < size <= 2048 && PopSpills(m, h, SmallClass(size))
  }

  /** Number of the second block of class c within its page, or 0 if there is none. */
  function NextIndex(h: Heap, c: nat): int
    requires c < |h.free|
  {
    if |h.free[c]| > 1 then h.free[c][1].off % PAGE / Pow(c) else 0
  }

  /** The second word of the entry after the last one goes down by one; when it becomes 0 the third word
      is set to the number of the next free block. */
  predicate Spilled(m: seq<int>, m': seq<int>, h: Heap, c: nat) {
    var w := Pte(PageCount(h.size)) + 1;
    && w < |m| && w + 1 < |m'| && m'[w] == U32(m[w] - 1) != m[w]
    && (m'[w] == 0 && c < |h.free| ==> m'[w + 1] == NextIndex(h, c))
  }

  // --- What a request enters in the page table ---------------------------------------------------

  /** The split counts in words 5..17 and the table below the data pages stay, except word x and the words
      from lo to hi. */
  ghost predicate TableKept(m: seq<int>, m': seq<int>, h: Heap, lo: int, hi: int, x: int)
    requires |m'| == |m|
  {
    forall w | 0 <= w < |m| && ((5 <= w <= 17 && w != x) || (1027 <= w && 4 * w < h.start && !(lo <= w < hi))) ::
      m'[w] == m[w]
  }

  /** n pages at the break were handed out as a whole: their first entry has class 0 and the number of pages. */
  ghost predicate LargeEntered(m: seq<int>, m': seq<int>, h: Heap, n: nat) {
    var e := Pte(h.brk / PAGE);
    && |m'| == |m| && 0 <= e && e + 1 < |m|
    && m'[e] == 0 && m'[e + 1] == n && TableKept(m, m', h, e, e + 2, 0)
  }

  /** The page at the break was split for class c: its entry has the class and twice the number of blocks
      that are left, and the class counts one more split page. */
  ghost predicate SplitEntered(m: seq<int>, m': seq<int>, h: Heap, c: nat) {
    var e := Pte(h.brk / PAGE);
    && |m'| == |m| && 0 <= e && e + 2 < |m| && 4 <= c <= 12 && c + 5 < |m|
    && m'[e] == c && m'[e + 1] == SubCount(c) - 1 && m'[e + 2] == SubCount(c) - 1
    && m'[c + 5] == U32(m[c + 5] + 1) && TableKept(m, m', h, e, e + 3, c + 5)
  }

  /** The first block of class c was taken: the counter of the entry after that of its page goes down, and
      the word behind it is set when the counter becomes 0. */
  ghost predicate PopEntered(m: seq<int>, m': seq<int>, h: Heap, c: nat)
    requires c < |h.free| && h.free[c] != []
  {
    var e := Pte(PopEntry(h.free[c][0]));
    && |m'| == |m| && 0 <= e && e + 2 < |m|
    && m'[e + 1] == U32(m[e + 1] - 1) && m'[e + 2] == (if m'[e + 1] == 0 then NextIndex(h, c) else m[e + 2])
    && TableKept(m, m', h, e + 1, e + 3, 0)
  }

  /** What a request that does not wrap does to the page table. */
  ghost predicate Tabled(m: seq<int>, m': seq<int>, h: Heap, size: nat)
    requires |h.free| == 13 && size < TWO32
  {
    if Malloc(h, size).1.None? then |m'| == |m| && TableKept(m, m', h, 0, 0, 0)
    else if size > 2048 then LargeEntered(m, m', h, Pages(size))
    else if size > 0 && SmallClass(size) < 13 && h.free[SmallClass(size)] != [] then
      PopEntered(m, m', h, SmallClass(size))
    else size > 0 && SplitEntered(m, m', h, SmallClass(size))
  }

  // --- Blocks handed out ---------------------------------------------------------------------------

  /** No word of a block handed out changes. */
  ghost predicate LiveKept(m: seq<int>, m': seq<int>, h: Heap)
    requires |m'| == |m|
  {
    forall i, w | 0 <= i < |h.live| && 0 <= w < |m| && InBlock(h.live[i], w) :: m'[w] == m[w]
  }

  predicate InBlock(b: Block, w: int) { b.off <= 4 * w < b.off + b.len }

  /** No word of the data pages changes except the back link of the second block of class c. */
  ghost predicate DataKept(m: seq<int>, m': seq<int>, h: Heap, c: nat)
    requires |m'| == |m| && c < |h.free|
  {
    forall w | 0 <= w < |m| && h.start <= 4 * w < h.brk && !(|h.free[c]| > 1 && w == WordOf(h.free[c][1]) + 1) ::
      m'[w] == m[w]
  }

  lemma DataKeepsLive(m: seq<int>, m': seq<int>, h: Heap, c: nat)
    requires Good(h) && h.start == DataStart(h.size) && |m'| == |m| && 4 <= c <= 12 && DataKept(m, m', h, c)
    ensures LiveKept(m, m', h)
  {
    forall i, w | 0 <= i < |h.live| && 0 <= w < |m| && InBlock(h.live[i], w) ensures m'[w] == m[w] {
      assert Inside(h, h.live[i]);
      if |h.free[c]| > 1 {
        assert c <= 11;
        FreePlace(h, c, 1);
        assert Apart(h.live[i], h.free[c][1]);
      }
    }
  }

  lemma TablePages(r: nat)
    requires r < 1024
    ensures (12 * r + 4095) / PAGE == if r == 0 then 0 else if r <= 341 then 1 else if r <= 682 then 2 else 3
  {
  }

  // --- Popping a block -----------------------------------------------------------------------------------

  lemma PopLists(m: seq<int>, hp: nat, h: Heap, c: nat)
    requires Rep(m, hp, h) && Good(h) && 4 <= c <= 11 && h.free[c] != []
    ensures ListsRep(Unlink(m, hp, Head(c), Words(h.free[c])), hp, h.free[c := h.free[c][1..]])
  {
    var ws := Words(h.free[c]);
    var m' := Unlink(m, hp, Head(c), ws);
    FreeSpread(h, c);
    UnlinkLinked(m, hp, Head(c), ws);
    assert Words(h.free[c][1..]) == ws[1..];
    forall d | 4 <= d <= 11 && d != c ensures Linked(m', hp, Head(d), Words(h.free[d])) {
      FreeDisjoint(h, c, d);
      UnlinkOther(m, hp, Head(c), ws, Head(d), Words(h.free[d]));
    }
  }

  // --- Carving a page ------------------------------------------------------------------------------------

  /** All lists while a page of class c at the old break is being carved into bs. */
  ghost predicate Carving(m: seq<int>, hp: nat, h: Heap, c: nat, bs: seq<Block>)
    requires |m| >= 1027 && |h.free| == 13 && c <= 11
  {
    && Linked(m, hp, Head(c), Words(bs))
    && forall d | 4 <= d <= 11 && d != c :: Linked(m, hp, Head(d), Words(h.free[d]))
  }

  lemma CarvedPlace(page: int, c: nat, n: nat, k: nat)
    requires 4 <= c <= 11 && page % PAGE == 0 && page >= 8192 && k < n < SubCount(c)
    ensures var b := Carved(page, c, n)[k];
            && b.off % 16 == 0 && page + 16 <= b.off && b.off + 16 <= page + PAGE && b.len >= 16
            && 4 * WordOf(b) == b.off
  {
    PageSplits(c);
    PowRange(c);
    SixteenDivides(c);
    var b := Carved(page, c, n)[k];
    PlaceOf(page, Pow(c), SubCount(c), n - k, b);
  }

  lemma PlaceOf(page: int, s: nat, n: nat, j: nat, b: Block)
    requires s >= 16 && s % 16 == 0 && n * s == PAGE && page % PAGE == 0 && page >= 0 && 1 <= j < n
    requires b == Block(page + j * s, s)
    ensures b.off % 16 == 0 && page + 16 <= b.off && b.off + 16 <= page + PAGE && 4 * WordOf(b) == b.off
  {
    SixteenBlock(page, s, n, j);
    WordExact(b);
  }

  lemma WordExact(b: Block)
    requires b.off >= 0 && b.off % 16 == 0
    ensures 4 * WordOf(b) == b.off
  {
  }

  lemma SixteenBlock(page: int, s: nat, n: nat, j: nat)
    requires s >= 16 && s % 16 == 0 && n * s == PAGE && page % PAGE == 0 && 1 <= j < n
    ensures var off := page + j * s; off % 16 == 0 && page + 16 <= off && off + 16 <= page + PAGE
  {
    CarvedBlock(page, s, n, j);
    ModMod(page + j * s, s);
  }

  lemma CarvedSpread(page: int, c: nat, n: nat)
    requires 4 <= c <= 11 && page % PAGE == 0 && page >= 8192 && n < SubCount(c)
    ensures Spread(Head(c), Words(Carved(page, c, n)))
  {
    var bs := Carved(page, c, n);
    forall k | 0 <= k < n ensures Head(c) < WordOf(bs[k]) { CarvedPlace(page, c, n, k); }
    forall i, j | 0 <= i < j < n ensures Away(WordOf(bs[i]), WordOf(bs[j])) {
      CarvedPlace(page, c, n, i);
      CarvedPlace(page, c, n, j);
      CarvedPair(page, c, n, i, j);
      ApartWords(bs[i], bs[j]);
    }
  }

  /** Blocks carved at the break share no word with a list of another class. */
  lemma CarvedDisjoint(h: Heap, c: nat, n: nat, d: nat)
    requires Placement(h) && h.brk % PAGE == 0 && h.brk >= 8192
    requires 4 <= c <= 11 && 4 <= d <= 11 && c != d && n < SubCount(c)
    ensures Disjoint(Head(c), Words(Carved(h.brk, c, n)), Head(d), Words(h.free[d]))
  {
    var bs, ds := Carved(h.brk, c, n), h.free[d];
    forall j | 0 <= j < |ds| ensures Head(c) < WordOf(ds[j]) && 4 * WordOf(ds[j]) + 16 <= h.brk {
      assert Held(h, ds[j]);
    }
    forall k | 0 <= k < n
      ensures Clear(Head(d), Words(ds), WordOf(bs[k])) && Clear(Head(d), Words(ds), WordOf(bs[k]) + 1)
    {
      CarvedPlace(h.brk, c, n, k);
    }
  }

  lemma CarveStep(m: seq<int>, hp: nat, h: Heap, c: nat, j: nat)
    requires Placement(h) && h.brk % PAGE == 0 && h.brk >= 8192 && 4 <= c <= 11 && 1 <= j < SubCount(c)
    requires |m| >= 2048 && h.brk + PAGE <= 4 * |m|
    requires Carving(m, hp, h, c, Carved(h.brk, c, j - 1))
    ensures var b := WordOf(Block(h.brk + j * Pow(c), Pow(c)));
            && b + 1 < |m| && h.brk + j * Pow(c) == 4 * b && h.brk / 4 < b
            && Carving(Push(m, hp, Head(c), Words(Carved(h.brk, c, j - 1)), b), hp, h, c, Carved(h.brk, c, j))
  {
    var bs, t := Carved(h.brk, c, j - 1), Carved(h.brk, c, j);
    var b := WordOf(t[0]);
    CarvedPlace(h.brk, c, j, 0);
    CarvedSpread(h.brk, c, j);
    CarvedSpread(h.brk, c, j - 1);
    assert Words(t) == [b] + Words(bs);
    forall k | 0 <= k < |bs| ensures Away(b, Words(bs)[k]) {
      assert Words(t)[k + 1] == Words(bs)[k];
    }
    PushLinked(m, hp, Head(c), Words(bs), b);
    forall d | 4 <= d <= 11 && d != c
      ensures Linked(Push(m, hp, Head(c), Words(bs), b), hp, Head(d), Words(h.free[d]))
    {
      CarvedDisjoint(h, c, j, d);
      PushOther(m, hp, Head(c), Words(bs), b, Head(d), Words(h.free[d]));
    }
  }

  lemma CarvedWords(page: int, c: nat, n: nat)
    requires 4 <= c <= 11 && page % PAGE == 0 && page >= 8192 && n < SubCount(c)
    ensures forall k | 0 <= k < n :: page / 4 <= Words(Carved(page, c, n))[k]
  {
    forall k | 0 <= k < n ensures page / 4 <= Words(Carved(page, c, n))[k] { CarvedPlace(page, c, n, k); }
  }
}
