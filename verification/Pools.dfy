/** The object pools kept in ring FIFOs: the 20 wait objects of a socket and the 20 call entries of
    a shared record. */
module Pools {
  import opened Common
  import opened Fifo

  const POOL := 20

  // --- Wait objects ------------------------------------------------------------------------------------

  /** Address of wait object i of the socket: eight words each, the first at word 73. */
  function WaitObject(sock: int, i: nat): int { sock + 4 * (73 + 8 * i) }

  function WaitObjects(sock: int, n: nat): (s: seq<int>)
    ensures |s| == n && forall i | 0 <= i < n :: s[i] == WaitObject(sock, i)
  {
    seq(n, i requires 0 <= i < n => WaitObject(sock, i))
  }

  /** Wait objects lie behind each other, from the end of the ring buffer in words 52..72 of the socket to
      before the semaphore at byte 936, and do not overlap. */
  lemma WaitObjectsApart(sock: int, i: nat, j: nat)
    requires i < j
    ensures WaitObject(sock, i) + 32 <= WaitObject(sock, j)
    ensures j == i + 1 ==> WaitObject(sock, i) + 32 == WaitObject(sock, j)
    ensures sock + 4 * (52 + 21) == WaitObject(sock, 0) <= WaitObject(sock, i)
    ensures j < POOL ==> WaitObject(sock, j) + 32 <= sock + 936
  {
  }

  /** The part of InitCommSeqMem that fills FreeWait: no write finds the FIFO full, and the statistic
      of the lowest occupancy starts at 20. */
  method PrefillWaits(fifo: CommFifo, sock: int)
    requires fifo.Valid() && fifo.cap == 21 && fifo.Items() == [] && fifo.stat == 0 && fifo.mode == 1
    modifies fifo, fifo.slots
    ensures fifo.Valid() && fifo.Items() == WaitObjects(sock, POOL) && fifo.stat == POOL && fifo.mode == 0
  {
    var i := 0;
    while i < POOL
      invariant 0 <= i <= POOL && fifo.Valid() && fifo.mode == 1
      invariant fifo.Items() == WaitObjects(sock, i) && fifo.stat == i
    {
      var ok := fifo.PutItem(WaitObject(sock, i));
      assert ok && WaitObjects(sock, i + 1) == WaitObjects(sock, i) + [WaitObject(sock, i)];
      i := i + 1;
    }
    fifo.SetMode(0);
  }

  /** GetFreeWaitComm */
  method GetFreeWait(fifo: CommFifo) returns (found: bool, w: int)
    requires fifo.Valid()
    modifies fifo
    ensures fifo.Valid() && found == (old(fifo.Items()) != [])
    ensures fifo.Items() == if found then old(fifo.Items())[1..] else []
    ensures w == if found then old(fifo.Items())[0] else 0
  {
    var item := fifo.GetItemRd();
    if item == 0 {
      return false, 0;
    }
    w := fifo.slots[fifo.rd];
    found := true;
    var _ := fifo.ItemRdNext();
  }

  /** ReleaseWaitComm.  `sem` is the count of the semaphore around the FIFO, `left` the count afterwards: on a
      full FIFO the object is lost and the semaphore is not given back. */
  method ReleaseWait(fifo: CommFifo, sem: nat, w: int) returns (released: bool, left: nat)
    requires fifo.Valid() && sem > 0
    modifies fifo, fifo.slots
    ensures fifo.Valid() && released == (old(|fifo.Items()|) + 1 < fifo.cap)
    ensures fifo.Items() == if released then old(fifo.Items()) + [w] else old(fifo.Items())
    ensures left == if released then sem else sem - 1
  {
    released, left := PutUnder(fifo, sem, w);
  }

  /** Writes an item with the semaphore around the FIFO taken; on a full FIFO the semaphore is not given
      back. */
  method PutUnder(fifo: CommFifo, sem: nat, v: int) returns (ok: bool, left: nat)
    requires fifo.Valid() && sem > 0
    modifies fifo`wr, fifo`stat, fifo.slots
    ensures fifo.Valid() && ok == (old(|fifo.Items()|) + 1 < fifo.cap)
    ensures fifo.Items() == if ok then old(fifo.Items()) + [v] else old(fifo.Items())
    ensures left == if ok then sem else sem - 1
  {
    left := sem - 1;
    ok := fifo.PutItem(v);
    if ok {
      left := left + 1;
    }
  }

  // --- Call entries ---------------------------------------------------------------------------------------

  /** Kernel address of entry j of the record. */
  function EntryAddress(record: int, j: nat): int { record + 360 + 104 * j }

  /** Number of the entry at a kernel address. */
  function EntryNumber(record: int, e: int): int { (e - record - 360) / 104 }

  lemma EntryNumbers(record: int, j: nat)
    ensures EntryNumber(record, EntryAddress(record, j)) == j
  {
  }

  /** Physical addresses of the entries numbered ns; kernel addresses are `shift` higher. */
  function Physical(record: int, shift: int, ns: seq<nat>): (s: seq<int>)
    ensures |s| == |ns| && forall i | 0 <= i < |s| :: s[i] == EntryAddress(record, ns[i]) - shift
  {
    seq(|ns|, i requires 0 <= i < |ns| => EntryAddress(record, ns[i]) - shift)
  }

  /** Where an entry is: in the FIFO, with a sender or a receiver, or lost after a faulted copy. */
  datatype Place = Free | Used | Lost

  /** The FIFO holds exactly the entries that are free, each once. */
  predicate Partition(free: seq<nat>, place: seq<Place>) {
    && |place| == POOL && Distinct(free)
    && (forall i | 0 <= i < |free| :: free[i] < POOL && place[free[i]] == Free)
    && (forall j | 0 <= j < POOL && place[j] == Free :: j in free)
  }

  /** Distinct numbers below n are at most n. */
  lemma {:induction false} Pigeonhole(ns: seq<nat>, n: nat)
    requires Distinct(ns) && forall i | 0 <= i < |ns| :: ns[i] < n
    ensures |ns| <= n
  {
    if ns != [] {
      assert ns[0] < n;
      if k :| 0 <= k < |ns| && ns[k] == n - 1 {
        Pigeonhole(Without(ns, k), n - 1);
      } else {
        Pigeonhole(ns, n - 1);
      }
    }
  }

  /** With an entry in use or lost the FIFO of 21 slots is not full. */
  lemma RoomForRelease(free: seq<nat>, place: seq<Place>, j: nat)
    requires Partition(free, place) && j < POOL && place[j] != Free
    ensures |free| < POOL
  {
    Pigeonhole([j] + free, POOL);
  }

  lemma PartitionTake(free: seq<nat>, place: seq<Place>)
    requires Partition(free, place) && free != []
    ensures Partition(free[1..], place[free[0] := Used])
  {
    forall j | 0 <= j < POOL && place[free[0] := Used][j] == Free ensures j in free[1..] {
      var i :| 0 <= i < |free| && free[i] == j;
      assert free[1..][i - 1] == j;
    }
  }

  lemma PartitionPut(free: seq<nat>, place: seq<Place>, j: nat)
    requires Partition(free, place) && j < POOL && place[j] != Free
    ensures Partition(free + [j], place[j := Free])
  {
    var free', place' := free + [j], place[j := Free];
    forall k | 0 <= k < POOL && place'[k] == Free ensures k in free' {
      if k == j { assert free'[|free|] == j; } else { assert k in free; }
    }
  }

  function Numbers(n: nat): (ns: seq<nat>)
    ensures |ns| == n && forall i | 0 <= i < n :: ns[i] == i
  {
    seq(n, i => i)
  }

  lemma PhysicalSnoc(record: int, shift: int, ns: seq<nat>, j: nat)
    ensures Physical(record, shift, ns + [j]) == Physical(record, shift, ns) + [EntryAddress(record, j) - shift]
  {
  }

  lemma PhysicalTail(record: int, shift: int, ns: seq<nat>)
    requires ns != []
    ensures Physical(record, shift, ns)[1..] == Physical(record, shift, ns[1..])
  {
  }

  method PrefillCall(fifo: CommFifo, index: array<int>, v: int, j: nat)
    requires fifo.Valid() && |fifo.Items()| == j && fifo.stat == j && fifo.mode == 1 && j + 1 < fifo.cap
    requires j < index.Length && index != fifo.slots
    modifies fifo`wr, fifo`stat, fifo.slots, index
    ensures fifo.Valid() && fifo.Items() == old(fifo.Items()) + [v] && fifo.stat == j + 1
    ensures index[j] == j && forall i | 0 <= i < j :: index[i] == old(index[i])
  {
    index[j] := j;
    var ok := fifo.PutItem(v);
    assert ok;
  }

  /** The loop of InitCommShareSeqMem: no write finds the FIFO full. */
  method PrefillCalls(fifo: CommFifo, index: array<int>, record: int, shift: int)
    requires fifo.Valid() && fifo.cap == 21 && fifo.Items() == [] && fifo.stat == 0 && fifo.mode == 1
    requires index.Length == POOL && index != fifo.slots
    modifies fifo, fifo.slots, index
    ensures fifo.Valid() && fifo.Items() == Physical(record, shift, Numbers(POOL))
    ensures fifo.stat == POOL && fifo.mode == 0
    ensures forall j | 0 <= j < POOL :: index[j] == j
  {
    var j := 0;
    while j < POOL
      invariant 0 <= j <= POOL && fifo.Valid() && fifo.mode == 1
      invariant fifo.Items() == Physical(record, shift, Numbers(j)) && fifo.stat == j
      invariant forall i | 0 <= i < j :: index[i] == i
    {
      PhysicalSnoc(record, shift, Numbers(j), j);
      assert Numbers(j + 1) == Numbers(j) + [j];
      PrefillCall(fifo, index, EntryAddress(record, j) - shift, j);
      j := j + 1;
    }
    fifo.SetMode(0);
  }

  /** The free call entries of a record: a FIFO of physical addresses and the slot-index word of the
      entries, which a message copy overwrites. */
  class CallPool {
    const record: int
    const shift: int
    const fifo: CommFifo
    const index: array<int>
    /** Numbers of the free entries, oldest first, and the place of every entry. */
    ghost var free: seq<nat>
    ghost var place: seq<Place>

    ghost predicate Valid()
      reads this, fifo, fifo.slots, index
    {
      && fifo.Valid() && fifo.cap == POOL + 1 && index.Length == POOL && index != fifo.slots
      && 0 < record && 0 <= shift <= record
      && fifo.base == record + 192 - shift && fifo.itemSize == 4
      && fifo.Items() == Physical(record, shift, free)
      && Partition(free, place)
      && (forall j | 0 <= j < POOL && place[j] != Lost :: index[j] == j)
    }

    /** InitCommShareSeqMem, for one record. */
    constructor (record: int, shift: int)
      requires 0 < record && 0 <= shift <= record
      ensures Valid() && free == Numbers(POOL) && fresh(fifo) && fresh(fifo.slots) && fresh(index)
      ensures fifo.stat == POOL && fifo.mode == 0 && this.record == record && this.shift == shift
    {
      this.record, this.shift := record, shift;
      var f := new CommFifo(POOL + 1, 4, record + 192 - shift);
      var ix := new int[POOL];
      fifo, index := f, ix;
      free, place := Numbers(POOL), seq(POOL, _ => Free);
      new;
      PrefillCalls(f, ix, record, shift);
      forall j | 0 <= j < POOL ensures j in free { assert free[j] == j; }
    }

    /** The ring of physical addresses ends before the first entry, and the entries end with the record. */
    lemma RingBeforeEntries(j: nat)
      requires Valid() && j < POOL
      ensures fifo.Address(fifo.cap) + shift <= EntryAddress(record, 0) <= EntryAddress(record, j)
      ensures EntryAddress(record, j) + 104 <= record + 2440
    {
    }

    /** Comm_GetFreeCall: the kernel address of the oldest free entry, or 0 if there is none.  Its
        slot index is its number, so the range check never fires. */
    method GetFreeCall() returns (e: int)
      requires Valid()
      modifies this`free, this`place, fifo
      ensures Valid()
      ensures e == 0 <==> old(free) == []
      ensures e == 0 ==> free == old(free) && place == old(place)
      ensures e != 0 ==>
                && e == EntryAddress(record, old(free)[0]) && old(place)[old(free)[0]] == Free
                && free == old(free)[1..] && place == old(place)[old(free)[0] := Used]
    {
      var item := fifo.GetItemRd();
      if item == 0 {
        return 0;
      }
      PartitionTake(free, place);
      PhysicalTail(record, shift, free);
      EntryNumbers(record, free[0]);
      e := fifo.slots[fifo.rd] + shift;
      var j := EntryNumber(record, e);
      assert index[j] <= 19;
      place := place[free[0] := Used];
      free := free[1..];
      var _ := fifo.ItemRdNext();
    }

    /** Steps 9 to 13 of SendComm2CPUEx on entry n in use: the copied message brings a slot index of
        its own, the entry's index is put back, and the address check passes.  A copy that faults
        returns with the entry lost. */
    method Fill(e: int, copied: int, fault: bool, ghost n: nat) returns (mismatch: bool)
      requires Valid() && n < POOL && place[n] == Used && e == EntryAddress(record, n)
      modifies index, this`place
      ensures Valid() && !mismatch
      ensures place == if fault then old(place)[n := Lost] else old(place)
      ensures fault ==> index[n] == copied
    {
      EntryNumbers(record, n);
      var j := EntryNumber(record, e);
      var slot := index[j];
      index[j] := copied;
      if fault {
        place := place[n := Lost];
        return false;
      }
      index[j] := slot;
      mismatch := e != record + 104 * slot + 360;
    }

    /** Comm_ReleaseFreeCall of entry n in use: the FIFO is not full, so that the semaphore around it, whose
        count is `sem`, is always given back. */
    method ReleaseFreeCall(e: int, sem: nat, ghost n: nat) returns (released: bool, left: nat)
      requires Valid() && n < POOL && place[n] == Used && e == EntryAddress(record, n) && sem > 0
      modifies this`free, this`place, fifo, fifo.slots
      ensures Valid() && released && free == old(free) + [n] && place == old(place)[n := Free]
      ensures left == sem
    {
      RoomForRelease(free, place, n);
      PhysicalSnoc(record, shift, free, n);
      released, left := PutUnder(fifo, sem, e - shift);
      PartitionPut(free, place, n);
      free, place := free + [n], place[n := Free];
    }
  }
}
