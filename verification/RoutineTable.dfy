/** The shared hash table of routines (cpu_comm_rpc.c): 1024 buckets, 200 overflow slots,
    chains linked by slot index.  A table is a value here; class `RoutineTable` in
    RoutineTableCode.dfy runs the driver's loops over an array against these definitions. */
module Routines {
  import opened Common

  const BUCKETS := 1024
  const SLOTS := 1224
  const MAX_INDEX := 1223

  const EINVAL := -22
  const EFAULT := -14
  const FULL := -2

  /** A routine descriptor without its link word.  `data` are the words at offsets 12..75;
      the registering pid is the word at offset 28. */
  datatype Routine = Routine(name: nat, cpu: nat, flags: nat, key: nat, data: seq<nat>, pad: nat,
                             callbacks: nat, pad2: nat)

  datatype Slot = Slot(r: Routine, next: int)

  /** The fields FindRoutineEx copies out. */
  datatype Found = Found(name: nat, cpu: nat, flags: nat, key: nat, data: seq<nat>, callbacks: nat)

  datatype Table = Table(version: nat, count: int, slots: seq<Slot>)

  function Bump(v: nat): nat { (v + 1) % 0x1_0000_0000 }

  function Home(key: nat): nat { key % BUCKETS }

  function Fields(r: Routine): Found { Found(r.name, r.cpu, r.flags, r.key, r.data, r.callbacks) }

  function Pid(r: Routine): nat { if |r.data| > 4 then r.data[4] else 0 }

  // --- Shape --------------------------------------------------------------------------

  /** Links are in range and `rank` falls along every link, so chains are acyclic. */
  predicate Linked(t: seq<Slot>, rank: seq<nat>) {
    && |t| == SLOTS && |rank| == SLOTS
    && forall i | 0 <= i < SLOTS ::
         -1 <= t[i].next < SLOTS && (t[i].next >= 0 ==> rank[t[i].next] < rank[i])
  }

  ghost predicate Acyclic(t: seq<Slot>) { exists rank :: Linked(t, rank) }

  ghost function SomeRank(t: seq<Slot>): (rank: seq<nat>)
    requires Acyclic(t)
    ensures Linked(t, rank)
  {
    var rank :| Linked(t, rank);
    rank
  }

  /** An empty slot ends its chain. */
  predicate EmptyEnds(t: seq<Slot>) {
    forall i | 0 <= i < |t| :: t[i].r.key == 0 ==> t[i].next == -1
  }

  // --- Chain walks ----------------------------------------------------------------------

  /** Index of the first slot with `key` on the chain from `i`, or -1. */
  function FindIdx(t: seq<Slot>, ghost rank: seq<nat>, i: int, key: nat): (x: int)
    requires Linked(t, rank) && 0 <= i < SLOTS
    ensures -1 <= x < SLOTS
    ensures x >= 0 ==> t[x].r.key == key && rank[x] <= rank[i]
    decreases rank[i]
  {
    if t[i].r.key == key then i
    else if t[i].next < 0 then -1
    else FindIdx(t, rank, t[i].next, key)
  }

  /** The answer does not depend on which ranking shows the table acyclic. */
  lemma {:induction false} FindAnyRank(t: seq<Slot>, rank: seq<nat>, rank': seq<nat>, i: int, key: nat)
    requires Linked(t, rank) && Linked(t, rank') && 0 <= i < SLOTS
    ensures FindIdx(t, rank, i, key) == FindIdx(t, rank', i, key)
    decreases rank[i]
  {
    if t[i].r.key != key && t[i].next >= 0 {
      FindAnyRank(t, rank, rank', t[i].next, key);
    }
  }

  /** FindRoutineEx: the count word is checked before the chain is walked. */
  function Find(s: Table, ghost rank: seq<nat>, key: nat): Option<Found>
    requires Linked(s.slots, rank)
  {
    if s.count > MAX_INDEX then None
    else
      var x := FindIdx(s.slots, rank, Home(key), key);
      if x < 0 then None else Some(Fields(s.slots[x].r))
  }

  datatype Walk = Corrupt | Stop(prev: int, cur: int)

  /** AddInRoutine's walk to the end of a chain; `cur` is -1 when it ran off the end. */
  function WalkChain(t: seq<Slot>, ghost rank: seq<nat>, prev: int, i: int): (w: Walk)
    requires Linked(t, rank) && 0 <= i < SLOTS
    requires prev == -1 || (0 <= prev < SLOTS && t[prev].r.key != 0)
    ensures w.Stop? ==> w.prev == -1 || (0 <= w.prev < SLOTS && t[w.prev].r.key != 0)
    ensures w.Stop? && w.cur >= 0 ==> w.cur < SLOTS && t[w.cur].r.key == 0
    ensures w.Stop? && w.cur < 0 ==> w.prev >= 0 && t[w.prev].next == -1
    decreases rank[i]
  {
    if t[i].r.key == 0 then Stop(prev, i)
    else if t[i].r.cpu > 1 then Corrupt
    else if t[i].next < 0 then Stop(i, -1)
    else WalkChain(t, rank, i, t[i].next)
  }

  /** First empty slot at or after `i`, or SLOTS. */
  function FirstFree(t: seq<Slot>, i: int): (o: int)
    requires |t| == SLOTS && 0 <= i <= SLOTS
    ensures i <= o <= SLOTS
    ensures o < SLOTS ==> t[o].r.key == 0
    ensures forall j | i <= j < o :: t[j].r.key != 0
    decreases SLOTS - i
  {
    if i == SLOTS || t[i].r.key == 0 then i else FirstFree(t, i + 1)
  }

  // --- The four mutators ------------------------------------------------------------------

  function Placed(t: seq<Slot>, i: int, d: Routine): seq<Slot>
    requires 0 <= i < |t|
  {
    t[i := Slot(d, -1)]
  }

  function LinkedTo(t: seq<Slot>, prev: int, o: int): seq<Slot>
    requires prev < |t|
  {
    if prev >= 0 then t[prev := t[prev].(next := o)] else t
  }

  /** The part of AddInRoutine under the spinlock. */
  function Insert(s: Table, ghost rank: seq<nat>, d: Routine): (Table, int)
    requires Linked(s.slots, rank)
  {
    var v1 := Bump(s.version);
    match WalkChain(s.slots, rank, -1, Home(d.key))
    case Corrupt => (s.(version := v1), EINVAL)
    case Stop(prev, cur) =>
      if cur >= 0 && s.slots[cur].next == -1 then
        (Table(Bump(v1), s.count + 1, Placed(s.slots, cur, d)), 0)
      else
        var o := FirstFree(s.slots, BUCKETS);
        if o == SLOTS then (s.(version := Bump(v1)), FULL)
        else if s.slots[o].next != -1 then (s.(version := v1), EINVAL)
        else (Table(Bump(v1), s.count + 1, LinkedTo(Placed(s.slots, o, d), prev, o)), 0)
  }

  /** AddInRoutine, with nothing in between: the count and the duplicate are checked before the
      spinlock is taken. */
  function Add(s: Table, ghost rank: seq<nat>, d: Routine): (Table, int)
    requires Linked(s.slots, rank)
  {
    if s.count > MAX_INDEX then (s, EINVAL)
    else if FindIdx(s.slots, rank, Home(d.key), d.key) >= 0 then (s, 0)
    else Insert(s, rank, d)
  }

  /** The slots after RemoveRoutine emptied slot `i`: its successor, if any, moves into it. */
  function Emptied(t: seq<Slot>, i: int): seq<Slot>
    requires 0 <= i < |t| && t[i].next < |t|
  {
    var n := t[i].next;
    if n >= 0 then t[i := t[n]][n := Slot(t[n].r.(key := 0), -1)]
    else t[i := t[i].(r := t[i].r.(key := 0))]
  }

  /** The descriptor names this routine, which belongs to CPU `cpu`. */
  predicate Matches(d: Routine, r: Routine, cpu: nat) { d.name == r.name && d.flags == r.flags && r.cpu == cpu }

  /** RemoveRoutine.  The result compares the descriptor with whatever the slot holds after
      the successor was moved into it. */
  function Remove(s: Table, ghost rank: seq<nat>, d: Routine, ourCpu: nat): (Table, int)
    requires Linked(s.slots, rank)
  {
    if s.count > MAX_INDEX then (s, EINVAL)
    else
      var v1 := Bump(s.version);
      var i := FindIdx(s.slots, rank, Home(d.key), d.key);
      if i < 0 then (s.(version := Bump(v1)), -1)
      else if s.slots[i].r.cpu > 1 then (s.(version := v1), EFAULT)
      else
        var t := Emptied(s.slots, i);
        (Table(Bump(v1), s.count - 1, t), if Matches(d, t[i].r, ourCpu) then 0 else 1)
  }

  predicate Doomed(r: Routine, byPid: bool, x: nat) {
    r.key != 0 && (if byPid then Pid(r) == x else r.cpu == x)
  }

  function Wiped(t: seq<Slot>, byPid: bool, x: nat): (t': seq<Slot>)
    ensures |t'| == |t|
  {
    seq(|t|, i requires 0 <= i < |t| =>
      if Doomed(t[i].r, byPid, x) then t[i].(r := t[i].r.(key := 0)) else t[i])
  }

  function Occupied(t: seq<Slot>): nat {
    if |t| == 0 then 0
    else Occupied(t[..|t| - 1]) + (if t[|t| - 1].r.key != 0 then 1 else 0)
  }

  /** RemovePidRoutines (`byPid`) and RoutineCleanupInCPUReset: keys are zeroed, links stay. */
  function Wipe(s: Table, byPid: bool, x: nat): Table {
    var t := Wiped(s.slots, byPid, x);
    Table(Bump(Bump(s.version)), s.count - (Occupied(s.slots) - Occupied(t)), t)
  }

  /** The table InitCommMem leaves behind. */
  predicate Fresh(s: Table) {
    s.version == 0 && s.count == 0 && |s.slots| == SLOTS &&
    forall i | 0 <= i < SLOTS :: s.slots[i].r.key == 0 && s.slots[i].next == -1
  }
}
