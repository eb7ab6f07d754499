/** The routine table after removals by pid or by CPU.  They zero keys and leave links, so that chains
    run through empty slots: the way back from a full table, and what registrations do there. */
module RoutineWipes {
  import opened Common
  import opened Routines
  import opened RoutineTheory
  import opened RoutineHistories

  // --- The way back from a full table ------------------------------------------------------------------

  lemma {:induction false} WipedFind(t: seq<Slot>, rank: seq<nat>, byPid: bool, x: nat, i: int, key: nat)
    requires Linked(t, rank) && 0 <= i < SLOTS && key != 0
    requires forall j | 0 <= j < SLOTS && t[j].r.key == key :: !Doomed(t[j].r, byPid, x)
    ensures Linked(Wiped(t, byPid, x), rank)
    ensures FindIdx(Wiped(t, byPid, x), rank, i, key) == FindIdx(t, rank, i, key)
    decreases rank[i]
  {
    if t[i].r.key != key && t[i].next >= 0 { WipedFind(t, rank, byPid, x, t[i].next, key); }
  }

  lemma {:induction false} WipedFewer(t: seq<Slot>, byPid: bool, x: nat)
    ensures Occupied(Wiped(t, byPid, x)) <= Occupied(t)
    ensures (exists i :: 0 <= i < |t| && Doomed(t[i].r, byPid, x)) ==> Occupied(Wiped(t, byPid, x)) < Occupied(t)
  {
    if t != [] {
      var n := |t| - 1;
      assert Wiped(t, byPid, x)[..n] == Wiped(t[..n], byPid, x);
      WipedFewer(t[..n], byPid, x);
      if i :| 0 <= i < |t| && Doomed(t[i].r, byPid, x) {
        if i < n { assert Doomed(t[..n][i].r, byPid, x); }
      }
    }
  }

  /** RemovePidRoutines and RoutineCleanupInCPUReset do not look at the count: on a full table, where
      nothing is found, one that removes at least one routine brings back into sight every routine that
      it spares and that the chain of its bucket still reaches. */
  lemma WipeRevives(s: Table, rank: seq<nat>, byPid: bool, x: nat, i: nat)
    requires Linked(s.slots, rank) && s.count == Occupied(s.slots) == SLOTS
    requires i < SLOTS && Doomed(s.slots[i].r, byPid, x)
    ensures var s' := Wipe(s, byPid, x);
            && Linked(s'.slots, rank) && s'.count <= MAX_INDEX
            && (forall key | key != 0 :: Find(s, rank, key) == None)
            && (forall key | key != 0 && Spares(s.slots, key, byPid, x) ::
                  var y := FindIdx(s.slots, rank, Home(key), key);
                  Find(s', rank, key) == if y < 0 then None else Some(Fields(s.slots[y].r)))
  {
    var s' := Wipe(s, byPid, x);
    WipedFewer(s.slots, byPid, x);
    forall key | key != 0 && Spares(s.slots, key, byPid, x)
      ensures var y := FindIdx(s.slots, rank, Home(key), key);
              Find(s', rank, key) == if y < 0 then None else Some(Fields(s.slots[y].r))
    {
      WipedFind(s.slots, rank, byPid, x, Home(key), key);
    }
  }

  /** No entry of the key is removed. */
  predicate Spares(t: seq<Slot>, key: nat, byPid: bool, x: nat) {
    forall j | 0 <= j < |t| && t[j].r.key == key :: !Doomed(t[j].r, byPid, x)
  }

  // --- Lookups after a removal by CPU or by pid ----------------------------------------------------------

  /** What is found afterwards is an entry of the key on its chain that was not emptied. */
  lemma {:induction false} WipedFindIff(t: seq<Slot>, rank: seq<nat>, byPid: bool, x: nat, i: int, key: nat)
    requires Linked(t, rank) && 0 <= i < SLOTS && key != 0
    ensures Linked(Wiped(t, byPid, x), rank)
    ensures var y := FindIdx(Wiped(t, byPid, x), rank, i, key);
            && (y >= 0 ==> OnChain(t, rank, i, y) && t[y].r.key == key && !Doomed(t[y].r, byPid, x))
            && (y < 0 ==> forall j | 0 <= j < SLOTS && OnChain(t, rank, i, j) && t[j].r.key == key ::
                            Doomed(t[j].r, byPid, x))
    decreases rank[i]
  {
    if (t[i].r.key != key || Doomed(t[i].r, byPid, x)) && t[i].next >= 0 {
      WipedFindIff(t, rank, byPid, x, t[i].next, key);
    }
  }

  /** After RoutineCleanupInCPUReset a key is found if and only if an entry of it that the chain of its
      bucket reaches belongs to another CPU; what is found belongs to another CPU. */
  lemma ResetLookup(s: Table, rank: seq<nat>, cpu: nat, key: nat)
    requires Linked(s.slots, rank) && key != 0 && s.count <= MAX_INDEX
    ensures Linked(Wipe(s, false, cpu).slots, rank)
    ensures var f := Find(Wipe(s, false, cpu), rank, key);
            && (f.Some? <==> exists j :: 0 <= j < SLOTS && OnChain(s.slots, rank, Home(key), j) &&
                                         s.slots[j].r.key == key && s.slots[j].r.cpu != cpu)
            && (f.Some? ==> f.value.cpu != cpu && f.value.key == key)
  {
    WipedFewer(s.slots, false, cpu);
    WipedFindIff(s.slots, rank, false, cpu, Home(key), key);
  }

  /** The word at offset 28 of a descriptor. */
  function PidWord(data: seq<nat>): nat { if |data| > 4 then data[4] else 0 }

  /** The same for RemovePidRoutines and the word that holds the pid. */
  lemma ExitLookup(s: Table, rank: seq<nat>, pid: nat, key: nat)
    requires Linked(s.slots, rank) && key != 0 && s.count <= MAX_INDEX
    ensures Linked(Wipe(s, true, pid).slots, rank)
    ensures var f := Find(Wipe(s, true, pid), rank, key);
            && (f.Some? <==> exists j :: 0 <= j < SLOTS && OnChain(s.slots, rank, Home(key), j) &&
                                         s.slots[j].r.key == key && PidWord(s.slots[j].r.data) != pid)
            && (f.Some? ==> PidWord(f.value.data) != pid && f.value.key == key)
  {
    WipedFewer(s.slots, true, pid);
    WipedFindIff(s.slots, rank, true, pid, Home(key), key);
  }

  // --- Registrations in any table -----------------------------------------------------------------------

  /** The walk for `key` from slot j goes past slot p without having met the key. */
  predicate Passes(t: seq<Slot>, ghost rank: seq<nat>, j: int, p: int, key: nat)
    requires Linked(t, rank) && 0 <= j < SLOTS
    decreases rank[j]
  {
    t[j].r.key != key && (j == p || (t[j].next >= 0 && Passes(t, rank, t[j].next, p, key)))
  }

  /** AddInRoutine's walk for the key stops at an empty slot that still has a successor. */
  predicate Gap(t: seq<Slot>, ghost rank: seq<nat>, key: nat)
    requires Linked(t, rank)
  {
    var w := WalkChain(t, rank, -1, Home(key));
    w.Stop? && w.cur >= 0 && t[w.cur].next >= 0
  }

  /** The gap is the bucket itself and the overflow slot to be used is not on its chain: the new entry
      is linked to nothing. */
  predicate Lost(t: seq<Slot>, ghost rank: seq<nat>, key: nat)
    requires Linked(t, rank)
  {
    && Gap(t, rank, key) && WalkChain(t, rank, -1, Home(key)).prev < 0
    && !OnChain(t, rank, Home(key), FirstFree(t, BUCKETS))
  }

  /** The gap comes after an entry whose link is redirected to the new one: the walk for `other` goes
      past that entry. */
  predicate Cut(t: seq<Slot>, ghost rank: seq<nat>, key: nat, other: nat)
    requires Linked(t, rank)
  {
    var w := WalkChain(t, rank, -1, Home(key));
    Gap(t, rank, key) && w.prev >= 0 && Passes(t, rank, Home(other), w.prev, other)
  }

  /** A routine placed in an empty chain end is found from every slot whose chain reaches it. */
  lemma {:induction false} PlacedFinds(t: seq<Slot>, rank: seq<nat>, o: int, d: Routine, i: int)
    requires Linked(t, rank) && 0 <= o < SLOTS && 0 <= i < SLOTS && t[o].next == -1
    requires d.key != 0 && FindIdx(t, rank, i, d.key) < 0
    ensures Linked(Placed(t, o, d), rank)
    ensures FindIdx(Placed(t, o, d), rank, i, d.key) == if OnChain(t, rank, i, o) then o else -1
    decreases rank[i]
  {
    if i != o && t[i].next >= 0 { PlacedFinds(t, rank, o, d, t[i].next); }
  }

  lemma {:induction false} WalkOnChain(t: seq<Slot>, rank: seq<nat>, prev: int, i: int)
    requires Linked(t, rank) && 0 <= i < SLOTS
    requires prev == -1 || (0 <= prev < SLOTS && t[prev].r.key != 0)
    ensures var w := WalkChain(t, rank, prev, i); w.Stop? && w.cur >= 0 ==> OnChain(t, rank, i, w.cur)
    decreases rank[i]
  {
    if t[i].r.key != 0 && t[i].r.cpu <= 1 && t[i].next >= 0 { WalkOnChain(t, rank, i, t[i].next); }
  }

  /** Redirecting the link of slot p to the new entry in slot o hides what lay behind p. */
  lemma {:induction false} RedirectedFind(t: seq<Slot>, rank: seq<nat>, p: int, o: int, d: Routine, i: int, key: nat)
    requires Linked(t, rank) && 0 <= p < SLOTS && 0 <= o < SLOTS && 0 <= i < SLOTS
    requires t[p].r.key != 0 && t[o].r.key == 0 && t[o].next == -1 && key != 0 && key != d.key
    ensures var t' := LinkedTo(Placed(t, o, d), p, o);
            && Linked(t', Above(rank, o))
            && FindIdx(t', Above(rank, o), i, key) ==
               if Passes(t, rank, i, p, key) then -1 else FindIdx(t, rank, i, key)
    decreases rank[i]
  {
    PlacedLinked(t, rank, o, d);
    LinkedToLinked(Placed(t, o, d), rank, p, o);
    if i != o && i != p && t[i].r.key != key && t[i].next >= 0 {
      RedirectedFind(t, rank, p, o, d, t[i].next, key);
    }
  }

  /** The new entry itself is reached through slot p. */
  lemma {:induction false} RedirectedFinds(t: seq<Slot>, rank: seq<nat>, p: int, o: int, d: Routine, i: int)
    requires Linked(t, rank) && 0 <= o < SLOTS && 0 <= i < SLOTS && t[i].r.key != 0
    requires var w := WalkChain(t, rank, -1, i); w.Stop? && w.prev == p >= 0
    requires t[o].r.key == 0 && t[o].next == -1 && d.key != 0 && FindIdx(t, rank, i, d.key) < 0
    ensures var t' := LinkedTo(Placed(t, o, d), p, o);
            Linked(t', Above(rank, o)) && FindIdx(t', Above(rank, o), i, d.key) == o
    decreases rank[i]
  {
    PlacedLinked(t, rank, o, d);
    LinkedToLinked(Placed(t, o, d), rank, p, o);
    if t[i].next >= 0 && t[t[i].next].r.key != 0 {
      WalkFrom(t, rank, i, t[i].next);
      RedirectedFinds(t, rank, p, o, d, t[i].next);
    } else if i == p {
      assert FindIdx(LinkedTo(Placed(t, o, d), p, o), Above(rank, o), o, d.key) == o;
    }
  }

  /** From an occupied slot the walk does not depend on where it came from. */
  lemma WalkFrom(t: seq<Slot>, rank: seq<nat>, prev: int, i: int)
    requires Linked(t, rank) && 0 <= i < SLOTS && t[i].r.key != 0
    requires 0 <= prev < SLOTS && t[prev].r.key != 0
    ensures WalkChain(t, rank, prev, i) == WalkChain(t, rank, -1, i)
  {
  }

  /** What a registration that returns 0 does to the key itself. */
  lemma AddedFinds(s: Table, rank: seq<nat>, d: Routine)
    requires Linked(s.slots, rank) && d.key != 0 && s.count <= MAX_INDEX
    requires FindIdx(s.slots, rank, Home(d.key), d.key) < 0 && Add(s, rank, d).1 == 0
    ensures var t', rank' := Add(s, rank, d).0.slots, AddRank(s, rank, d);
            var x := FindIdx(t', rank', Home(d.key), d.key);
            (x >= 0 <==> !Lost(s.slots, rank, d.key)) && (x >= 0 ==> t'[x].r == d)
  {
    var t, w, o := s.slots, WalkChain(s.slots, rank, -1, Home(d.key)), FirstFree(s.slots, BUCKETS);
    WalkOnChain(t, rank, -1, Home(d.key));
    if w.cur >= 0 && t[w.cur].next == -1 {
      PlacedFinds(t, rank, w.cur, d, Home(d.key));
    } else if w.prev >= 0 {
      RedirectedFinds(t, rank, w.prev, o, d, Home(d.key));
    } else {
      PlacedFinds(t, rank, o, d, Home(d.key));
      FindAnyRank(Placed(t, o, d), rank, AddRank(s, rank, d), Home(d.key), d.key);
    }
  }

  /** And to every other key. */
  lemma AddedKeeps(s: Table, rank: seq<nat>, d: Routine, key: nat)
    requires Linked(s.slots, rank) && d.key != 0 && key != 0 && key != d.key && s.count <= MAX_INDEX
    requires FindIdx(s.slots, rank, Home(d.key), d.key) < 0 && Add(s, rank, d).1 == 0
    ensures var t', rank', x := Add(s, rank, d).0.slots, AddRank(s, rank, d), FindIdx(s.slots, rank, Home(key), key);
            && FindIdx(t', rank', Home(key), key) == (if Cut(s.slots, rank, d.key, key) then -1 else x)
            && (x >= 0 ==> t'[x].r == s.slots[x].r)
  {
    var t, w, o := s.slots, WalkChain(s.slots, rank, -1, Home(d.key)), FirstFree(s.slots, BUCKETS);
    if w.cur >= 0 && t[w.cur].next == -1 {
      PlacedFind(t, rank, w.cur, d, Home(key), key);
    } else if w.prev < 0 {
      PlacedFind(t, rank, o, d, Home(key), key);
      FindAnyRank(Placed(t, o, d), rank, AddRank(s, rank, d), Home(key), key);
    } else if w.cur < 0 {
      OverflowFind(t, rank, w.prev, o, d, Home(key), key);
    } else {
      RedirectedFind(t, rank, w.prev, o, d, Home(key), key);
    }
  }

  /** In every table reachable by any mix of the four mutators: a registration of a new key that returns
      0 and leaves at most 1223 entries makes the key found if and only if it is not lost, and hides
      exactly the other keys whose walk it cuts. */
  lemma RegistrationAnywhere(s0: Table, h: History, s: Table, rank: seq<nat>, d: Routine)
    requires Reaches(s0, h, s) && Linked(s.slots, rank) && s.count < MAX_INDEX
    requires NewKey(s, d.key) && Add(s, rank, d).1 == 0
    ensures var s' := Add(s, rank, d).0;
            && Acyclic(s'.slots)
            && Lookup(s', d.key) == (if Lost(s.slots, rank, d.key) then None else Some(Fields(d)))
            && forall k | k != 0 && k != d.key ::
                 Lookup(s', k) == if Cut(s.slots, rank, d.key, k) then None else Lookup(s, k)
  {
    var s', rank' := Add(s, rank, d).0, AddRank(s, rank, d);
    LookupIsFind(s, rank, d.key);
    AddedFinds(s, rank, d);
    LookupIsFind(s', rank', d.key);
    forall k | k != 0 && k != d.key
      ensures Lookup(s', k) == if Cut(s.slots, rank, d.key, k) then None else Lookup(s, k)
    {
      AddedKeeps(s, rank, d, k);
      LookupIsFind(s, rank, k);
      LookupIsFind(s', rank', k);
    }
  }

  // --- A blocked overflow area ----------------------------------------------------------------------------

  /** The first empty overflow slot still has a successor. */
  predicate Blocked(t: seq<Slot>) {
    |t| == SLOTS && FirstFree(t, BUCKETS) < SLOTS && t[FirstFree(t, BUCKETS)].next != -1
  }

  /** The walk ends at an empty slot without successor: no overflow slot is needed. */
  predicate HasRoom(t: seq<Slot>, ghost rank: seq<nat>, key: nat)
    requires Linked(t, rank)
  {
    var w := WalkChain(t, rank, -1, Home(key));
    w.Stop? && w.cur >= 0 && t[w.cur].next == -1
  }

  lemma {:induction false} FirstFreeSame(t: seq<Slot>, t': seq<Slot>, i: int)
    requires |t| == SLOTS && |t'| == SLOTS && 0 <= i <= SLOTS
    requires var o := FirstFree(t, i); o < SLOTS && t'[o] == t[o]
    requires forall j | 0 <= j < SLOTS && t[j].r.key != 0 :: t'[j].r.key != 0
    ensures FirstFree(t', i) == FirstFree(t, i)
    decreases SLOTS - i
  {
    if t[i].r.key != 0 { FirstFreeSame(t, t', i + 1); }
  }

  /** While it is blocked every registration of a new key that needs an overflow slot is refused with
      -EINVAL although slots are free, and no registration removes the block. */
  lemma BlockedRefuses(s: Table, rank: seq<nat>, d: Routine)
    requires Linked(s.slots, rank) && Blocked(s.slots) && d.key != 0 && s.count <= MAX_INDEX
    ensures FindIdx(s.slots, rank, Home(d.key), d.key) < 0 ==>
              (Add(s, rank, d).1 == EINVAL <==> !HasRoom(s.slots, rank, d.key))
    ensures Blocked(Add(s, rank, d).0.slots)
    ensures FirstFree(Add(s, rank, d).0.slots, BUCKETS) == FirstFree(s.slots, BUCKETS)
  {
    if FindIdx(s.slots, rank, Home(d.key), d.key) < 0 && HasRoom(s.slots, rank, d.key) {
      FirstFreeSame(s.slots, Add(s, rank, d).0.slots, BUCKETS);
    }
  }

  /** Any registrations, one after the other. */
  ghost predicate Registers(ss: seq<Table>, ranks: seq<seq<nat>>, ds: seq<Routine>) {
    && |ss| == |ds| + 1 && |ranks| == |ss|
    && (forall k | 0 <= k < |ss| :: Linked(ss[k].slots, ranks[k]))
    && (forall k | 0 <= k < |ds| :: ds[k].key != 0 && ss[k + 1] == Add(ss[k], ranks[k], ds[k]).0)
  }

  lemma {:induction false} BlockedForGood(ss: seq<Table>, ranks: seq<seq<nat>>, ds: seq<Routine>, k: nat)
    requires Registers(ss, ranks, ds) && k < |ss| && Blocked(ss[0].slots)
    ensures Blocked(ss[k].slots) && FirstFree(ss[k].slots, BUCKETS) == FirstFree(ss[0].slots, BUCKETS)
  {
    if k > 0 {
      BlockedForGood(ss, ranks, ds, k - 1);
      if ss[k - 1].count <= MAX_INDEX { BlockedRefuses(ss[k - 1], ranks[k - 1], ds[k - 1]); }
    }
  }

  // --- Runs that get there ---------------------------------------------------------------------------------

  /** A routine of the process `pid`. */
  function Of(key: nat, pid: nat): Routine { Plain(key).(data := [0, 0, 0, 0, pid]) }

  /** Ranks for chains that go from the buckets to 1024, on to 1025 and on to 1026. */
  function Levels(): (rank: seq<nat>)
    ensures |rank| == SLOTS
  {
    seq(SLOTS, i => if i == 1024 then 2 else if i == 1025 then 1 else if i == 1026 then 0 else 3)
  }

  /** Some table with these slots and at most n routines is reached. */
  ghost predicate At(s0: Table, h: History, n: nat, t: seq<Slot>) {
    Linked(t, Levels()) && exists v, c :: c <= n && Reaches(s0, h, Table(v, c, t))
  }

  lemma AtFirst(s0: Table)
    requires Fresh(s0)
    ensures At(s0, Start, 0, s0.slots)
  {
    assert Reaches(s0, Start, Table(0, 0, s0.slots));
  }

  /** Registration in an empty bucket. */
  lemma AddHome(s0: Table, h: History, n: nat, t: seq<Slot>, d: Routine)
    requires At(s0, h, n, t) && n < 10 && d.key != 0
    requires t[Home(d.key)].r.key == 0 && t[Home(d.key)].next == -1
    ensures At(s0, Then(h, DoAdd(d)), n + 1, t[Home(d.key) := Slot(d, -1)])
  {
    var v, c :| c <= n && Reaches(s0, h, Table(v, c, t));
    Extend(s0, h, Table(v, c, t), DoAdd(d), Levels());
  }

  /** The overflow slot o is the one to be used behind the end p of the key's chain. */
  predicate Behind(t: seq<Slot>, rank: seq<nat>, key: nat, p: nat, o: nat)
    requires Linked(t, rank) && p < SLOTS && o < SLOTS
  {
    && FindIdx(t, rank, Home(key), key) < 0 && WalkChain(t, rank, -1, Home(key)) == Stop(p, -1)
    && FirstFree(t, BUCKETS) == o && t[o].next == -1 && rank[o] < rank[p]
  }

  lemma AddedBehind(s: Table, rank: seq<nat>, d: Routine, p: nat, o: nat)
    requires Linked(s.slots, rank) && d.key != 0 && s.count < 10 && p < SLOTS && o < SLOTS
    requires Behind(s.slots, rank, d.key, p, o)
    ensures var s' := Add(s, rank, d).0;
            && s'.count == s.count + 1 && Linked(s'.slots, rank)
            && s'.slots == s.slots[o := Slot(d, -1)][p := s.slots[p].(next := o)]
  {
  }

  /** Registration at the end p of a chain, in the overflow slot o. */
  lemma AddBehind(s0: Table, h: History, n: nat, t: seq<Slot>, d: Routine, p: nat, o: nat)
    requires At(s0, h, n, t) && n < 10 && d.key != 0 && p < SLOTS && o < SLOTS && Behind(t, Levels(), d.key, p, o)
    ensures At(s0, Then(h, DoAdd(d)), n + 1, t[o := Slot(d, -1)][p := t[p].(next := o)])
  {
    var v, c :| c <= n && Reaches(s0, h, Table(v, c, t));
    AddedBehind(Table(v, c, t), Levels(), d, p, o);
    Extend(s0, h, Table(v, c, t), DoAdd(d), Levels());
  }

  lemma WipePid(s0: Table, h: History, n: nat, t: seq<Slot>, pid: nat)
    requires At(s0, h, n, t)
    ensures At(s0, Then(h, DoWipe(true, pid)), n, Wiped(t, true, pid))
  {
    var v, c :| c <= n && Reaches(s0, h, Table(v, c, t));
    WipedFewer(t, true, pid);
    Extend(s0, h, Table(v, c, t), DoWipe(true, pid), Levels());
  }

  /** Slots 1, 2, 1024, 1025 and 1026 of the table. */
  predicate Shows(t: seq<Slot>, a: Slot, b: Slot, c: Slot, e: Slot, f: Slot) {
    |t| == SLOTS && t[1] == a && t[2] == b && t[1024] == c && t[1025] == e && t[1026] == f
  }

  /** The bucket 1 and the overflow slots 1024 and 1025 of a table built by two registrations. */
  lemma TwoInBucketOne(s0: Table, pid: nat, pid': nat) returns (h: History, t: seq<Slot>)
    requires Fresh(s0)
    ensures At(s0, h, 2, t)
    ensures Shows(t, Slot(Of(1, pid), 1024), s0.slots[2], Slot(Of(1025, pid'), -1), s0.slots[1025], s0.slots[1026])
  {
    var d, d' := Of(1, pid), Of(1025, pid');
    AtFirst(s0);
    AddHome(s0, Start, 0, s0.slots, d);
    var t1 := s0.slots[1 := Slot(d, -1)];
    AddBehind(s0, Then(Start, DoAdd(d)), 1, t1, d', 1, 1024);
    h := Then(Then(Start, DoAdd(d)), DoAdd(d'));
    t := t1[1024 := Slot(d', -1)][1 := t1[1].(next := 1024)];
  }

  /** A registration that returns 0 and is not found: the process of key 1 has gone, its bucket is empty
      and still linked to 1025, and 2049 goes into a slot that nothing links to. */
  lemma LostRegistration(s0: Table) returns (h: History, s: Table, rank: seq<nat>)
    requires Fresh(s0)
    ensures Reaches(s0, h, s) && Linked(s.slots, rank) && NewKey(s, 2049) && s.count < MAX_INDEX
    ensures Add(s, rank, Plain(2049)).1 == 0 && Acyclic(Add(s, rank, Plain(2049)).0.slots)
    ensures Lookup(Add(s, rank, Plain(2049)).0, 2049) == None
  {
    var t;
    h, t := TwoInBucketOne(s0, 7, 8);
    WipePid(s0, h, 2, t, 7);
    h, t, rank := Then(h, DoWipe(true, 7)), Wiped(t, true, 7), Levels();
    assert t[1] == Slot(Of(0, 7), 1024) && t[1024] == Slot(Of(1025, 8), -1) && t[1025] == s0.slots[1025];
    var v, c :| c <= 2 && Reaches(s0, h, Table(v, c, t));
    s := Table(v, c, t);
    assert FindIdx(t, rank, 1024, 2049) == -1 && FirstFree(t, 1025) == 1025;
    assert !OnChain(t, rank, 1024, 1025);
    LookupIsFind(s, rank, 2049);
    RegistrationAnywhere(s0, h, s, rank, Plain(2049));
  }

  /** A blocked overflow area: the middle of a chain of three has gone. */
  lemma BlockedRun(s0: Table) returns (h: History, s: Table)
    requires Fresh(s0)
    ensures Reaches(s0, h, s) && s.count <= 3 && Blocked(s.slots)
  {
    var t;
    h, t := TwoInBucketOne(s0, 8, 7);
    var d := Of(2049, 8);
    assert WalkChain(t, Levels(), 1, 1024) == Stop(1024, -1) && FindIdx(t, Levels(), 1024, 2049) == -1;
    assert FirstFree(t, 1025) == 1025;
    AddBehind(s0, h, 2, t, d, 1024, 1025);
    h, t := Then(h, DoAdd(d)), t[1025 := Slot(d, -1)][1024 := t[1024].(next := 1025)];
    WipePid(s0, h, 3, t, 7);
    h, t := Then(h, DoWipe(true, 7)), Wiped(t, true, 7);
    var v, c :| c <= 3 && Reaches(s0, h, Table(v, c, t));
    s := Table(v, c, t);
    assert t[1024].r.key == 0 && t[1024].next == 1025;
  }

  lemma ThreeInBucketTwo(s0: Table, h1: History, t1: seq<Slot>) returns (h: History, t: seq<Slot>)
    requires Fresh(s0) && At(s0, h1, 2, t1)
    requires Shows(t1, Slot(Of(1, 8), 1024), s0.slots[2], Slot(Of(1025, 7), -1), s0.slots[1025], s0.slots[1026])
    ensures At(s0, h, 5, t)
    ensures Shows(t, Slot(Of(1, 8), 1024), Slot(Of(2, 8), 1025), Slot(Of(1025, 7), -1), Slot(Of(1026, 7), 1026),
                  Slot(Of(2050, 8), -1))
  {
    var a, b, c := Of(2, 8), Of(1026, 7), Of(2050, 8);
    AddHome(s0, h1, 2, t1, a);
    var h2, t2 := Then(h1, DoAdd(a)), t1[2 := Slot(a, -1)];
    assert FirstFree(t2, 1025) == 1025;
    AddBehind(s0, h2, 3, t2, b, 2, 1025);
    var h3, t3 := Then(h2, DoAdd(b)), t2[1025 := Slot(b, -1)][2 := t2[2].(next := 1025)];
    assert FirstFree(t3, 1026) == 1026 && FirstFree(t3, 1025) == 1026;
    assert WalkChain(t3, Levels(), 2, 1025) == Stop(1025, -1) && FindIdx(t3, Levels(), 1025, 2050) == -1;
    AddBehind(s0, h3, 4, t3, c, 1025, 1026);
    h, t := Then(h3, DoAdd(c)), t3[1026 := Slot(c, -1)][1025 := t3[1025].(next := 1026)];
  }

  /** A registration that hides another key: 1025 and 1026, of one process, have gone; 3074 takes the
      free slot 1024 and cuts the chain on which 2050 lies. */
  lemma CuttingRegistration(s0: Table) returns (h: History, s: Table, rank: seq<nat>)
    requires Fresh(s0)
    ensures Reaches(s0, h, s) && Linked(s.slots, rank) && NewKey(s, 3074) && s.count < MAX_INDEX
    ensures Add(s, rank, Plain(3074)).1 == 0 && Acyclic(Add(s, rank, Plain(3074)).0.slots)
    ensures Lookup(s, 2050) == Some(Fields(Of(2050, 8))) && Lookup(Add(s, rank, Plain(3074)).0, 2050) == None
  {
    var t;
    h, t := TwoInBucketOne(s0, 8, 7);
    h, t := ThreeInBucketTwo(s0, h, t);
    WipePid(s0, h, 5, t, 7);
    h, t, rank := Then(h, DoWipe(true, 7)), Wiped(t, true, 7), Levels();
    assert Shows(t, Slot(Of(1, 8), 1024), Slot(Of(2, 8), 1025), Slot(Of(0, 7), -1), Slot(Of(0, 7), 1026),
                 Slot(Of(2050, 8), -1));
    var v, c :| c <= 5 && Reaches(s0, h, Table(v, c, t));
    s := Table(v, c, t);
    CutThere(s, rank);
    RegistrationAnywhere(s0, h, s, rank, Plain(3074));
  }

  lemma CutThere(s: Table, rank: seq<nat>)
    requires Linked(s.slots, rank) && s.count <= 5
    requires Shows(s.slots, Slot(Of(1, 8), 1024), Slot(Of(2, 8), 1025), Slot(Of(0, 7), -1), Slot(Of(0, 7), 1026),
                   Slot(Of(2050, 8), -1))
    ensures NewKey(s, 3074) && Add(s, rank, Plain(3074)).1 == 0 && Cut(s.slots, rank, 3074, 2050)
    ensures Lookup(s, 2050) == Some(Fields(Of(2050, 8)))
  {
    var t := s.slots;
    assert FindIdx(t, rank, 1026, 3074) == -1 && FindIdx(t, rank, 1025, 3074) == -1;
    assert FindIdx(t, rank, 1026, 2050) == 1026 && FindIdx(t, rank, 1025, 2050) == 1026;
    assert WalkChain(t, rank, 2, 1025) == Stop(2, 1025) && FirstFree(t, 1024) == 1024;
    LookupIsFind(s, rank, 3074);
    LookupIsFind(s, rank, 2050);
  }
}
