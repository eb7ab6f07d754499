/** What the routine table does outside its own lock and its own documentation: registrations and
    removals that overlap, and the result of RemoveRoutine. */
module RoutineRaces {
  import opened Common
  import opened Routines
  import opened RoutineTheory
  import opened RoutineHistories

  // --- The result of RemoveRoutine ------------------------------------------------------------------

  /** What the comment above RemoveRoutine promises: 0 if the removed entry is the described one of our
      CPU, 1 if it is not, -1 if the key is not in the table. */
  function Documented(s: Table, ghost rank: seq<nat>, d: Routine, ourCpu: nat): int
    requires Linked(s.slots, rank)
  {
    var i := FindIdx(s.slots, rank, Home(d.key), d.key);
    if i < 0 then -1
    else
      var r := s.slots[i].r;
      if d.name == r.name && d.flags == r.flags && r.cpu == ourCpu then 0 else 1
  }

  /** The result is the documented one if and only if the removed entry ends its chain or its successor
      matches the descriptor exactly when the removed entry does. */
  lemma RemoveResultIff(s: Table, rank: seq<nat>, d: Routine, ourCpu: nat)
    requires Linked(s.slots, rank) && s.count <= MAX_INDEX
    requires var i := FindIdx(s.slots, rank, Home(d.key), d.key); i >= 0 ==> s.slots[i].r.cpu <= 1
    ensures var i := FindIdx(s.slots, rank, Home(d.key), d.key);
            Remove(s, rank, d, ourCpu).1 == Documented(s, rank, d, ourCpu) <==>
            (i < 0 || s.slots[i].next < 0 ||
             var r, n := s.slots[i].r, s.slots[s.slots[i].next].r;
             (d.name == n.name && d.flags == n.flags && n.cpu == ourCpu) ==
             (d.name == r.name && d.flags == r.flags && r.cpu == ourCpu))
  {
  }

  function Named(key: nat, name: nat): Routine { Plain(key).(name := name) }

  /** Two routines of one bucket with different names: removing the first, by its own descriptor and on
      its own CPU, succeeds and reports that it was another CPU's. */
  lemma WrongRemoveResult(s0: Table) returns (s: Table, rank: seq<nat>)
    requires Fresh(s0)
    ensures Reaches(s0, Then(Then(Start, DoAdd(Plain(1))), DoAdd(Named(1025, 5))), s) && Linked(s.slots, rank)
    ensures Documented(s, rank, Plain(1), 0) == 0 && Remove(s, rank, Plain(1), 0).1 == 1
    ensures Remove(s, rank, Plain(1), 0).0.count == s.count - 1
  {
    var e1, e2, e3 := s0.slots[1], s0.slots[2], s0.slots[1024];
    var a, a', c := Slot(Plain(1), -1), Slot(Plain(1), 1024), Slot(Named(1025, 5), -1);
    assert Three(s0, e1, e2, e3) == s0.slots;
    assert Reaches(s0, Start, Table(0, 0, Three(s0, e1, e2, e3)));
    SampleStep(s0, Start, DoAdd(Plain(1)), 0, 1, e1, e2, e3, a, e2, e3);
    var h := Then(Start, DoAdd(Plain(1)));
    SampleStep(s0, h, DoAdd(Named(1025, 5)), 1, 2, a, e2, e3, a', e2, c);
    var v :| Reaches(s0, Then(h, DoAdd(Named(1025, 5))), Table(v, 2, Three(s0, a', e2, c)));
    s, rank := Table(v, 2, Three(s0, a', e2, c)), TwoLevels();
    assert FindIdx(s.slots, rank, 1, 1) == 1;
  }

  // --- Registrations that overlap ------------------------------------------------------------------------

  /** How many slots hold the key. */
  function Copies(t: seq<Slot>, key: nat): nat {
    if t == [] then 0 else Copies(t[..|t| - 1], key) + (if t[|t| - 1].r.key == key then 1 else 0)
  }

  lemma {:induction false} CopiesUpdate(t: seq<Slot>, i: int, x: Slot, key: nat)
    requires 0 <= i < |t|
    ensures Copies(t[i := x], key) ==
            Copies(t, key) - (if t[i].r.key == key then 1 else 0) + (if x.r.key == key then 1 else 0)
  {
    var n := |t| - 1;
    if i == n {
      assert t[i := x][..n] == t[..n];
    } else {
      assert t[i := x][..n] == t[..n][i := x];
      CopiesUpdate(t[..n], i, x, key);
    }
  }

  lemma {:induction false} NoCopies(t: seq<Slot>, key: nat)
    requires forall j | 0 <= j < |t| :: t[j].r.key != key
    ensures Copies(t, key) == 0
  {
    if t != [] { NoCopies(t[..|t| - 1], key); }
  }

  /** A ranking of the table that Insert leaves. */
  function InsertRank(s: Table, rank: seq<nat>, d: Routine): (rank': seq<nat>)
    requires Linked(s.slots, rank)
    ensures Linked(Insert(s, rank, d).0.slots, rank')
  {
    if Insert(s, rank, d).1 != 0 then rank
    else
      var w := WalkChain(s.slots, rank, -1, Home(d.key));
      if w.cur >= 0 && s.slots[w.cur].next == -1 then
        PlacedLinked(s.slots, rank, w.cur, d);
        rank
      else
        var o := FirstFree(s.slots, BUCKETS);
        PlacedLinked(s.slots, rank, o, d);
        LinkedToLinked(Placed(s.slots, o, d), rank, w.prev, o);
        Above(rank, o)
  }

  /** Every successful insertion adds one slot with its key, whether or not the key was there. */
  lemma InsertCopies(s: Table, rank: seq<nat>, d: Routine, key: nat)
    requires Linked(s.slots, rank) && d.key != 0 && key != 0
    ensures Copies(Insert(s, rank, d).0.slots, key) ==
            Copies(s.slots, key) + (if Insert(s, rank, d).1 == 0 && key == d.key then 1 else 0)
  {
    if Insert(s, rank, d).1 == 0 {
      var t, w := s.slots, WalkChain(s.slots, rank, -1, Home(d.key));
      if w.cur >= 0 && t[w.cur].next == -1 {
        CopiesUpdate(t, w.cur, Slot(d, -1), key);
      } else {
        var o := FirstFree(t, BUCKETS);
        CopiesUpdate(t, o, Slot(d, -1), key);
        var p := Placed(t, o, d);
        if w.prev >= 0 { CopiesUpdate(p, w.prev, p[w.prev].(next := o), key); }
      }
    }
  }

  /** What occupied slots hold and where they link to stays. */
  predicate Extends(t: seq<Slot>, t': seq<Slot>) {
    |t| == SLOTS && |t'| == SLOTS && forall j | 0 <= j < SLOTS && t[j].r.key != 0 ::
      t'[j].r == t[j].r && (t[j].next >= 0 ==> t'[j].next == t[j].next)
  }

  lemma {:induction false} FindKept(t: seq<Slot>, rank: seq<nat>, t': seq<Slot>, rank': seq<nat>, i: int, key: nat)
    requires Linked(t, rank) && Linked(t', rank') && EmptyEnds(t) && Extends(t, t') && 0 <= i < SLOTS
    requires key != 0 && FindIdx(t, rank, i, key) >= 0
    ensures FindIdx(t', rank', i, key) == FindIdx(t, rank, i, key)
    decreases rank[i]
  {
    if t[i].r.key != key { FindKept(t, rank, t', rank', t[i].next, key); }
  }

  /** Every key in the table is found. */
  predicate Seen(t: seq<Slot>, rank: seq<nat>)
    requires Linked(t, rank)
  {
    EmptyEnds(t) && forall j | 0 <= j < SLOTS && t[j].r.key != 0 :: FindIdx(t, rank, Home(t[j].r.key), t[j].r.key) >= 0
  }

  lemma InsertExtends(s: Table, rank: seq<nat>, d: Routine)
    requires Linked(s.slots, rank) && EmptyEnds(s.slots) && d.key != 0
    ensures Extends(s.slots, Insert(s, rank, d).0.slots) && EmptyEnds(Insert(s, rank, d).0.slots)
    ensures forall j | 0 <= j < SLOTS && Insert(s, rank, d).0.slots[j].r.key != 0 ::
              Insert(s, rank, d).0.slots[j].r.key == d.key || s.slots[j].r.key == Insert(s, rank, d).0.slots[j].r.key
  {
  }

  /** A key that is found stays found where it was: a second registration of it is never seen while the
      first one is there. */
  lemma InsertFinds(s: Table, rank: seq<nat>, d: Routine, key: nat)
    requires Linked(s.slots, rank) && EmptyEnds(s.slots) && d.key != 0 && key != 0
    ensures var x := FindIdx(s.slots, rank, Home(key), key);
            var t', rank' := Insert(s, rank, d).0.slots, InsertRank(s, rank, d);
            && (x >= 0 ==> FindIdx(t', rank', Home(key), key) == x)
            && (x < 0 && key == d.key && Insert(s, rank, d).1 == 0 ==> FindIdx(t', rank', Home(key), key) >= 0)
  {
    var t, t', rank' := s.slots, Insert(s, rank, d).0.slots, InsertRank(s, rank, d);
    if FindIdx(t, rank, Home(key), key) >= 0 {
      InsertExtends(s, rank, d);
      FindKept(t, rank, t', rank', Home(key), key);
    } else if key == d.key && Insert(s, rank, d).1 == 0 {
      InsertFindsNew(s, rank, d);
    }
  }

  lemma InsertFindsNew(s: Table, rank: seq<nat>, d: Routine)
    requires Linked(s.slots, rank) && EmptyEnds(s.slots) && d.key != 0
    requires FindIdx(s.slots, rank, Home(d.key), d.key) < 0 && Insert(s, rank, d).1 == 0
    ensures FindIdx(Insert(s, rank, d).0.slots, InsertRank(s, rank, d), Home(d.key), d.key) >= 0
  {
    var t, t', rank' := s.slots, Insert(s, rank, d).0.slots, InsertRank(s, rank, d);
    InsertExtends(s, rank, d);
    var w := WalkChain(t, rank, -1, Home(d.key));
    WalkFinds(t, rank, t', rank', -1, Home(d.key), if w.cur >= 0 then w.cur else FirstFree(t, BUCKETS), d.key);
  }

  lemma InsertSeen(s: Table, rank: seq<nat>, d: Routine)
    requires Linked(s.slots, rank) && Seen(s.slots, rank) && d.key != 0
    ensures Seen(Insert(s, rank, d).0.slots, InsertRank(s, rank, d))
  {
    var t, t', rank' := s.slots, Insert(s, rank, d).0.slots, InsertRank(s, rank, d);
    InsertExtends(s, rank, d);
    if Insert(s, rank, d).1 == 0 {
      forall j | 0 <= j < SLOTS && t'[j].r.key != 0 ensures FindIdx(t', rank', Home(t'[j].r.key), t'[j].r.key) >= 0 {
        InsertFinds(s, rank, d, t'[j].r.key);
      }
    }
  }

  /** The locked parts of AddInRoutine and of RemoveRoutine. */
  datatype Locked = Put(d: Routine) | Drop(d: Routine, cpu: nat)

  function AfterLocked(s: Table, ghost rank: seq<nat>, e: Locked): (Table, int)
    requires Linked(s.slots, rank)
  {
    match e
    case Put(d) => Insert(s, rank, d)
    case Drop(d, cpu) => Remove(s, rank, d, cpu)
  }

  /** Any sequence of insertions and removals, by any number of threads; a thread that inserts has
      checked some earlier table. */
  ghost predicate IsRace(ss: seq<Table>, ranks: seq<seq<nat>>, es: seq<Locked>) {
    && |ss| == |es| + 1 && |ranks| == |ss| && Fresh(ss[0])
    && (forall k | 0 <= k < |ss| :: Linked(ss[k].slots, ranks[k]))
    && (forall k | 0 <= k < |es| :: es[k].d.key != 0 && ss[k + 1] == AfterLocked(ss[k], ranks[k], es[k]).0)
  }

  lemma {:induction false} RaceSeen(ss: seq<Table>, ranks: seq<seq<nat>>, es: seq<Locked>, k: nat)
    requires IsRace(ss, ranks, es) && k < |ss| && forall j | 0 <= j < k :: es[j].Put?
    ensures Seen(ss[k].slots, ranks[k])
  {
    if k > 0 {
      RaceSeen(ss, ranks, es, k - 1);
      assert es[k - 1].Put?;
      InsertSeen(ss[k - 1], ranks[k - 1], es[k - 1].d);
      var t, r := ss[k].slots, InsertRank(ss[k - 1], ranks[k - 1], es[k - 1].d);
      forall j | 0 <= j < SLOTS && t[j].r.key != 0 ensures FindIdx(t, ranks[k], Home(t[j].r.key), t[j].r.key) >= 0 {
        FindAnyRank(t, r, ranks[k], Home(t[j].r.key), t[j].r.key);
      }
    }
  }

  /** By how much the locked part changes the number of slots that hold the key. */
  ghost function Change(s: Table, rank: seq<nat>, e: Locked, key: nat): int
    requires Linked(s.slots, rank)
  {
    if e.d.key != key then 0
    else if e.Put? then (if Insert(s, rank, e.d).1 == 0 then 1 else 0)
    else if Removes(s, rank, e.d) then -1 else 0
  }

  /** RemoveRoutine finds the key and empties its slot. */
  predicate Removes(s: Table, ghost rank: seq<nat>, d: Routine)
    requires Linked(s.slots, rank)
  {
    var i := FindIdx(s.slots, rank, Home(d.key), d.key);
    s.count <= MAX_INDEX && i >= 0 && s.slots[i].r.cpu <= 1
  }

  lemma RemoveCopies(s: Table, rank: seq<nat>, d: Routine, cpu: nat, key: nat)
    requires Linked(s.slots, rank) && d.key != 0 && key != 0
    ensures Copies(Remove(s, rank, d, cpu).0.slots, key) ==
            Copies(s.slots, key) - (if Removes(s, rank, d) && key == d.key then 1 else 0)
  {
    if Removes(s, rank, d) {
      var t, i := s.slots, FindIdx(s.slots, rank, Home(d.key), d.key);
      var n := t[i].next;
      if n >= 0 {
        CopiesUpdate(t, i, t[n], key);
        CopiesUpdate(t[i := t[n]], n, Slot(t[n].r.(key := 0), -1), key);
      } else {
        CopiesUpdate(t, i, t[i].(r := t[i].r.(key := 0)), key);
      }
    }
  }

  lemma CopiesStep(ss: seq<Table>, ranks: seq<seq<nat>>, es: seq<Locked>, k: nat, key: nat)
    requires IsRace(ss, ranks, es) && k < |es| && key != 0
    ensures Copies(ss[k + 1].slots, key) == Copies(ss[k].slots, key) + Change(ss[k], ranks[k], es[k], key)
  {
    var s, r, e := ss[k], ranks[k], es[k];
    assert ss[k + 1] == AfterLocked(s, r, e).0;
    match e
    case Put(d) => InsertCopies(s, r, d, key);
    case Drop(d, cpu) => RemoveCopies(s, r, d, cpu, key);
  }

  ghost function Changes(ss: seq<Table>, ranks: seq<seq<nat>>, es: seq<Locked>, key: nat): (cs: seq<int>)
    requires IsRace(ss, ranks, es)
    ensures |cs| == |es| && forall k | 0 <= k < |es| :: cs[k] == Change(ss[k], ranks[k], es[k], key)
  {
    seq(|es|, k requires 0 <= k < |es| => Change(ss[k], ranks[k], es[k], key))
  }

  /** The sum of the entries p, ..., q - 1. */
  function Sum(cs: seq<int>, p: nat, q: nat): int
    requires p <= q <= |cs|
    decreases q
  {
    if p == q then 0 else Sum(cs, p, q - 1) + cs[q - 1]
  }

  lemma {:induction false} Accumulates(counts: seq<int>, cs: seq<int>, p: nat, q: nat)
    requires |counts| == |cs| + 1 && p <= q <= |cs|
    requires forall k | 0 <= k < |cs| :: counts[k + 1] == counts[k] + cs[k]
    ensures counts[q] == counts[p] + Sum(cs, p, q)
    decreases q
  {
    if p < q {
      Accumulates(counts, cs, p, q - 1);
      assert counts[q - 1 + 1] == counts[q - 1] + cs[q - 1];
    }
  }

  /** Successful insertions of the key minus successful removals, from table p to table q. */
  ghost function Net(ss: seq<Table>, ranks: seq<seq<nat>>, es: seq<Locked>, key: nat, p: nat, q: nat): int
    requires IsRace(ss, ranks, es) && p <= q <= |es|
  {
    Sum(Changes(ss, ranks, es, key), p, q)
  }

  /** However insertions and removals interleave, the slots that hold a key are the insertions that
      succeeded minus the removals that did. */
  lemma CopiesAreNet(ss: seq<Table>, ranks: seq<seq<nat>>, es: seq<Locked>, p: nat, q: nat, key: nat)
    requires IsRace(ss, ranks, es) && p <= q <= |es| && key != 0
    ensures Copies(ss[q].slots, key) == Copies(ss[p].slots, key) + Net(ss, ranks, es, key, p, q)
  {
    var cs := Changes(ss, ranks, es, key);
    var counts := seq(|ss|, k requires 0 <= k < |ss| => Copies(ss[k].slots, key) as int);
    forall k | 0 <= k < |cs| ensures counts[k + 1] == counts[k] + cs[k] { CopiesStep(ss, ranks, es, k, key); }
    Accumulates(counts, cs, p, q);
  }

  lemma Absent(t: seq<Slot>, rank: seq<nat>, key: nat)
    requires Linked(t, rank) && Seen(t, rank) && key != 0 && FindIdx(t, rank, Home(key), key) < 0
    ensures Copies(t, key) == 0
  {
    NoCopies(t, key);
  }

  /** A registration whose check at table p found nothing and whose insertion at table q succeeds leaves
      one copy for itself, and one for every insertion of the same key in between that was not removed
      again: the key is registered twice if and only if there was one. */
  lemma RegisteredTwiceIff(ss: seq<Table>, ranks: seq<seq<nat>>, es: seq<Locked>, p: nat, q: nat)
    requires IsRace(ss, ranks, es) && p <= q < |es| && es[q].Put? && forall j | 0 <= j < p :: es[j].Put?
    requires FindIdx(ss[p].slots, ranks[p], Home(es[q].d.key), es[q].d.key) < 0
    requires Insert(ss[q], ranks[q], es[q].d).1 == 0
    ensures var n := Net(ss, ranks, es, es[q].d.key, p, q);
            && n >= 0 && Copies(ss[q + 1].slots, es[q].d.key) == 1 + n
            && (Copies(ss[q + 1].slots, es[q].d.key) >= 2 <==> n >= 1)
  {
    var key := es[q].d.key;
    RaceSeen(ss, ranks, es, p);
    Absent(ss[p].slots, ranks[p], key);
    CopiesAreNet(ss, ranks, es, p, q, key);
    CopiesStep(ss, ranks, es, q, key);
  }

  lemma {:induction false} EmptiedAgain(t: seq<Slot>, rank: seq<nat>, i: int, j: int, key: nat)
    requires Linked(t, rank) && 0 <= j < SLOTS && key != 0 && i >= 0 && FindIdx(t, rank, j, key) == i
    ensures Linked(Emptied(t, i), rank)
    ensures var n := t[i].next;
            var y := if n < 0 then -1 else FindIdx(t, rank, n, key);
            FindIdx(Emptied(t, i), rank, j, key) == if y >= 0 && y == n then i else y
    decreases rank[j]
  {
    EmptiedLinked(t, rank, i);
    var n := t[i].next;
    if j != i {
      EmptiedAgain(t, rank, i, t[j].next, key);
    } else if n >= 0 && t[n].r.key != key && t[n].next >= 0 {
      BelowEmptied(t, rank, i, t[n].next, key);
    }
  }

  /** Removing a key shows its next copy: the key is still found after a removal if and only if a second
      copy lies behind the first one on its chain, and then that copy is what is found. */
  lemma NextCopyAppears(s: Table, rank: seq<nat>, d: Routine, cpu: nat)
    requires Linked(s.slots, rank) && d.key != 0 && Removes(s, rank, d)
    ensures var s', n := Remove(s, rank, d, cpu).0, s.slots[FindIdx(s.slots, rank, Home(d.key), d.key)].next;
            var y := if n < 0 then -1 else FindIdx(s.slots, rank, n, d.key);
            && Linked(s'.slots, rank)
            && Find(s', rank, d.key) == if y < 0 then None else Some(Fields(s.slots[y].r))
  {
    EmptiedAgain(s.slots, rank, FindIdx(s.slots, rank, Home(d.key), d.key), Home(d.key), d.key);
  }

  /** The race is real: two threads that both find a key missing from the fresh table both register
      it, and two slots hold it. */
  lemma DoubleRegistration(s0: Table, d: Routine) returns (ss: seq<Table>, ranks: seq<seq<nat>>)
    requires Fresh(s0) && d.key != 0 && d.cpu <= 1
    ensures IsRace(ss, ranks, [Put(d), Put(d)]) && ss[0] == s0
    ensures FindIdx(s0.slots, ranks[0], Home(d.key), d.key) < 0
    ensures Copies(ss[2].slots, d.key) == 2
  {
    var r0 := seq(SLOTS, _ => 0);
    var s1, r1 := Insert(s0, r0, d).0, InsertRank(s0, r0, d);
    var s2, r2 := Insert(s1, r1, d).0, InsertRank(s1, r1, d);
    ss, ranks := [s0, s1, s2], [r0, r1, r2];
    var es := [Put(d), Put(d)];
    assert IsRace(ss, ranks, es);
    assert Insert(s0, r0, d).1 == 0 && Insert(s1, r1, d).1 == 0 by {
      assert FirstFree(s1.slots, BUCKETS) == BUCKETS;
    }
    NoCopies(s0.slots, d.key);
    InsertCopies(s0, r0, d, d.key);
    InsertCopies(s1, r1, d, d.key);
  }
}
