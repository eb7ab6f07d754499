/** The ring FIFO of cpu_comm_fifo.c: two indices, one wasted slot, a statistic word. */
module Fifo {
  /** Occupancy that the indices stand for. */
  function Count(rd: nat, wr: nat, cap: nat): int {
    if wr >= rd then wr - rd else cap - rd + wr
  }

  function Advance(i: nat, cap: nat): nat
    requires cap > 0
  {
    (i + 1) % cap
  }

  /** The n items from slot i on, wrapping at the end. */
  function Window(slots: seq<int>, i: nat, n: nat): (w: seq<int>)
    requires i < |slots|
    ensures |w| == n
    decreases n
  {
    if n == 0 then [] else [slots[i]] + Window(slots, Advance(i, |slots|), n - 1)
  }

  lemma Wrap(i: nat, cap: nat)
    requires i < cap
    ensures Advance(i, cap) == if i + 1 == cap then 0 else i + 1
  {
    if i + 1 == cap { assert Advance(i, cap) == cap % cap; }
  }

  /** Slot after n steps from slot i. */
  function Ahead(i: nat, n: nat, cap: nat): nat
    requires i < cap && n <= cap
  {
    if i + n < cap then i + n else i + n - cap
  }

  lemma {:induction false} WindowSnoc(slots: seq<int>, i: nat, n: nat)
    requires i < |slots| && n < |slots|
    ensures Window(slots, i, n + 1) == Window(slots, i, n) + [slots[Ahead(i, n, |slots|)]]
    decreases n
  {
    Wrap(i, |slots|);
    if n > 0 {
      WindowSnoc(slots, Advance(i, |slots|), n - 1);
    }
  }

  lemma WindowTail(slots: seq<int>, i: nat, n: nat)
    requires i < |slots| && 0 < n
    ensures Window(slots, i, n)[0] == slots[i]
    ensures Window(slots, i, n)[1..] == Window(slots, if i + 1 == |slots| then 0 else i + 1, n - 1)
  {
    Wrap(i, |slots|);
  }

  /** A write outside the window leaves it alone. */
  lemma {:induction false} WindowFrame(slots: seq<int>, i: nat, n: nat, j: nat, v: int)
    requires i < |slots| && j < |slots| && n < |slots|
    requires forall k | 0 <= k < n :: Ahead(i, k, |slots|) != j
    ensures Window(slots[j := v], i, n) == Window(slots, i, n)
    decreases n
  {
    Wrap(i, |slots|);
    if n > 0 {
      assert Ahead(i, 0, |slots|) == i;
      forall k | 0 <= k < n - 1 ensures Ahead(Advance(i, |slots|), k, |slots|) != j {
        assert Ahead(i, k + 1, |slots|) != j;
      }
      WindowFrame(slots, Advance(i, |slots|), n - 1, j, v);
    }
  }

  /** FIFO words: rd, wr, statistic, tracking mode, capacity, item size and base address, and the
      slots behind the base. */
  class CommFifo {
    var rd: nat
    var wr: nat
    var stat: int
    var mode: int
    const cap: nat
    const itemSize: nat
    const base: nat
    const slots: array<int>

    ghost predicate Valid()
      reads this
    {
      0 < cap && rd < cap && wr < cap && slots.Length == cap && 0 < base
    }

    /** The queued items, oldest first. */
    ghost function Items(): seq<int>
      requires Valid()
      reads this, slots
    {
      Window(slots[..], rd, Count(rd, wr, cap))
    }

    ghost function Usage(): Use
      requires Valid()
      reads this, slots
    {
      Use(|Items()|, stat)
    }

    /** An empty FIFO that tracks its highest occupancy. */
    constructor (cap: nat, itemSize: nat, base: nat)
      requires 0 < cap && 0 < base
      ensures Valid() && Items() == [] && stat == 0 && mode == 1
      ensures this.cap == cap && this.itemSize == itemSize && this.base == base && fresh(slots)
    {
      rd, wr, stat, mode := 0, 0, 0, 1;
      this.cap, this.itemSize, this.base := cap, itemSize, base;
      slots := new int[cap](_ => 0);
    }

    function Address(i: nat): (a: nat)
      ensures a >= base
    {
      base + itemSize * i
    }

    /** Slots lie behind each other, do not overlap and end where the buffer does. */
    lemma SlotsApart(i: nat, j: nat)
      requires i < j
      ensures Address(0) == base && Address(i) + itemSize <= Address(j)
      ensures j == i + 1 ==> Address(i) + itemSize == Address(j)
      ensures j <= cap ==> Address(i) + itemSize <= base + itemSize * cap
    {
      var d := j - i - 1;
      assert itemSize * j == itemSize * i + itemSize + itemSize * d;
      if j <= cap {
        var e := cap - i - 1;
        assert itemSize * cap == itemSize * i + itemSize + itemSize * e;
      }
    }

    /** fifo_getCount */
    method GetCount() returns (n: int)
      requires Valid()
      ensures n == |Items()|
    {
      n := if wr >= rd then wr - rd else cap - rd + wr;
    }

    /** fifo_getItemWr: the address of the write slot, or 0 exactly when cap - 1 items are queued. */
    method GetItemWr() returns (a: nat)
      requires Valid()
      ensures a == 0 <==> |Items()| == cap - 1
      ensures a != 0 ==> a == Address(wr)
    {
      Wrap(wr, cap);
      if rd == (wr + 1) % cap {
        return 0;
      }
      a := Address(wr);
    }

    /** The producer's write through the address of the write slot: nothing queued changes. */
    method WriteSlot(v: int)
      requires Valid()
      modifies slots
      ensures Valid() && Items() == old(Items()) && slots[wr] == v
    {
      forall k | 0 <= k < Count(rd, wr, cap) ensures Ahead(rd, k, cap) != wr {}
      WindowFrame(slots[..], rd, Count(rd, wr, cap), wr, v);
      assert slots[..][wr := v] == slots[..][..wr] + [v] + slots[..][wr + 1..];
      slots[wr] := v;
    }

    /** fifo_requestItemWr: queues what the write slot holds, unless the FIFO is full.  The documented
        result, 0 when the FIFO is full afterwards, is returned if and only if the call does not take
        the last free slot. */
    method RequestItemWr() returns (a: nat)
      requires Valid()
      modifies this`wr, this`stat
      ensures Valid() && (a == 0 <==> old(|Items()|) == cap - 1)
      ensures Items() == if a == 0 then old(Items()) else old(Items()) + [old(slots[wr])]
      ensures a != 0 ==> a == Address(wr)
      ensures Usage() == Step(cap, mode, old(Usage()), Put)
      ensures (a == 0 <==> |Items()| == cap - 1) <==> old(|Items()|) != cap - 2
    {
      Wrap(wr, cap);
      var next := (wr + 1) % cap;
      if rd == next {
        return 0;
      }
      WindowSnoc(slots[..], rd, Count(rd, wr, cap));
      wr := next;
      if mode != 0 {
        var count := GetCount();
        if count > stat {
          stat := count;
        }
      }
      a := Address(next);
    }

    /** The write pattern of every user: get the slot, write it, commit.  Fails only on a full FIFO. */
    method PutItem(v: int) returns (ok: bool)
      requires Valid()
      modifies this`wr, this`stat, slots
      ensures Valid() && ok == (old(|Items()|) + 1 < cap)
      ensures Items() == if ok then old(Items()) + [v] else old(Items())
      ensures Usage() == Step(cap, mode, old(Usage()), Put)
    {
      var slot := GetItemWr();
      if slot == 0 {
        return false;
      }
      WriteSlot(v);
      var _ := RequestItemWr();
      ok := true;
    }

    /** fifo_getItemRd: the address of the oldest item, or 0 exactly when nothing is queued. */
    method GetItemRd() returns (a: nat)
      requires Valid()
      ensures a == 0 <==> Items() == []
      ensures a != 0 ==> a == Address(rd) && slots[rd] == Items()[0]
    {
      if rd == wr {
        return 0;
      }
      a := Address(rd);
    }

    /** fifo_ItemRdNext: drops the oldest item, if any; the result is the next item's address. */
    method ItemRdNext() returns (a: nat)
      requires Valid()
      modifies this`rd, this`stat
      ensures Valid()
      ensures Items() == if old(Items()) == [] then [] else old(Items())[1..]
      ensures Usage() == Step(cap, mode, old(Usage()), Take)
      ensures a == 0 <==> Items() == []
      ensures a != 0 ==> a == Address(rd) && slots[rd] == Items()[0]
    {
      if rd == wr {
        return 0;
      }
      Wrap(rd, cap);
      WindowTail(slots[..], rd, Count(rd, wr, cap));
      var next := (rd + 1) % cap;
      rd := next;
      if mode == 0 {
        var count := GetCount();
        if count < stat {
          stat := count;
        }
      }
      if wr == next {
        return 0;
      }
      a := Address(next);
    }

    /** fifo_isNearlyFull */
    method IsNearlyFull(margin: int) returns (b: bool)
      requires Valid()
      ensures b <==> |Items()| + margin >= cap - 1
    {
      var count := GetCount();
      b := count >= cap - 1 - margin;
    }

    /** fifo_setmode */
    method SetMode(m: int)
      requires Valid()
      modifies this`mode
      ensures Valid() && Items() == old(Items()) && mode == m
    {
      mode := m;
    }
  }

  /** A FIFO of two slots: the first item fills it, and the answer is not 0. */
  method FullWithoutZero(base: nat) returns (fifo: CommFifo, a: nat)
    requires 0 < base
    ensures fifo.Valid() && fifo.cap == 2 && |fifo.Items()| == fifo.cap - 1 && a != 0
  {
    fifo := new CommFifo(2, 4, base);
    a := fifo.RequestItemWr();
  }

  // --- The statistic word over whole histories -----------------------------------------------------

  datatype Op = Put | Take

  /** Occupancy and statistic. */
  datatype Use = Use(n: nat, stat: int)

  function Step(cap: nat, mode: int, u: Use, op: Op): Use {
    match op
    case Put => if u.n + 1 >= cap then u else Use(u.n + 1, if mode != 0 && u.n + 1 > u.stat then u.n + 1 else u.stat)
    case Take => if u.n == 0 then u else Use(u.n - 1, if mode == 0 && u.n - 1 < u.stat then u.n - 1 else u.stat)
  }

  ghost predicate IsHistory(cap: nat, mode: int, us: seq<Use>, ops: seq<Op>) {
    |us| == |ops| + 1 && forall i | 0 <= i < |ops| :: us[i + 1] == Step(cap, mode, us[i], ops[i])
  }

  predicate IsMax(us: seq<Use>, k: nat, m: int)
    requires k < |us|
  {
    (exists i | 0 <= i <= k :: us[i].n == m) && forall i | 0 <= i <= k :: us[i].n <= m
  }

  predicate IsMin(us: seq<Use>, k: nat, m: int)
    requires k < |us|
  {
    (exists i | 0 <= i <= k :: us[i].n == m) && forall i | 0 <= i <= k :: us[i].n >= m
  }

  /** In mode 1 the statistic is the highest occupancy reached since it was equal to the occupancy. */
  lemma {:induction false} StatIsHighest(cap: nat, mode: int, us: seq<Use>, ops: seq<Op>, k: nat)
    requires IsHistory(cap, mode, us, ops) && mode != 0 && us[0].stat == us[0].n && k < |us|
    ensures IsMax(us, k, us[k].stat)
  {
    if k > 0 {
      StatIsHighest(cap, mode, us, ops, k - 1);
      var i :| 0 <= i <= k - 1 && us[i].n == us[k - 1].stat;
      assert us[k] == Step(cap, mode, us[k - 1], ops[k - 1]);
      if us[k].stat == us[k - 1].stat { assert us[i].n == us[k].stat; } else { assert us[k].n == us[k].stat; }
    }
  }

  /** In mode 0 it is the lowest. */
  lemma {:induction false} StatIsLowest(cap: nat, mode: int, us: seq<Use>, ops: seq<Op>, k: nat)
    requires IsHistory(cap, mode, us, ops) && mode == 0 && us[0].stat == us[0].n && k < |us|
    ensures IsMin(us, k, us[k].stat)
  {
    if k > 0 {
      StatIsLowest(cap, mode, us, ops, k - 1);
      var i :| 0 <= i <= k - 1 && us[i].n == us[k - 1].stat;
      assert us[k] == Step(cap, mode, us[k - 1], ops[k - 1]);
      if us[k].stat == us[k - 1].stat { assert us[i].n == us[k].stat; } else { assert us[k].n == us[k].stat; }
    }
  }

  /** A pool prefilled with n items in mode 1 and then switched to mode 0 starts its lowest-occupancy
      record at n. */
  lemma {:induction false} Prefill(cap: nat, us: seq<Use>, ops: seq<Op>, k: nat)
    requires IsHistory(cap, 1, us, ops) && us[0] == Use(0, 0) && |ops| < cap && k < |us|
    requires forall i | 0 <= i < |ops| :: ops[i] == Put
    ensures us[k] == Use(k, k)
  {
    if k > 0 {
      Prefill(cap, us, ops, k - 1);
      assert us[k] == Step(cap, 1, us[k - 1], ops[k - 1]);
    }
  }

  lemma PoolStatistic(cap: nat, fill: seq<Use>, puts: seq<Op>, us: seq<Use>, ops: seq<Op>)
    requires IsHistory(cap, 1, fill, puts) && fill[0] == Use(0, 0) && |puts| < cap
    requires forall i | 0 <= i < |puts| :: puts[i] == Put
    requires IsHistory(cap, 0, us, ops) && us[0] == fill[|puts|]
    ensures us[0] == Use(|puts|, |puts|) && IsMin(us, |ops|, us[|ops|].stat)
  {
    Prefill(cap, fill, puts, |puts|);
    StatIsLowest(cap, 0, us, ops, |ops|);
  }
}
