/** What every history of registrations and removals keeps, and when lookups survive. */
module RoutineTheory {
  import opened Common
  import opened Routines

  // --- Shape ------------------------------------------------------------------------------

  /** A ranking after linking some slot to the chain end `o`: everything moves above `o`. */
  function Above(rank: seq<nat>, o: int): seq<nat>
    requires 0 <= o < |rank|
  {
    seq(|rank|, i requires 0 <= i < |rank| => if i == o then 0 else rank[i] + 1)
  }

  lemma PlacedLinked(t: seq<Slot>, rank: seq<nat>, i: int, d: Routine)
    requires Linked(t, rank) && 0 <= i < SLOTS && t[i].next == -1
    ensures Linked(Placed(t, i, d), rank)
  {
  }

  lemma LinkedToLinked(t: seq<Slot>, rank: seq<nat>, prev: int, o: int)
    requires Linked(t, rank) && 0 <= o < SLOTS && t[o].next == -1 && prev < SLOTS && prev != o
    ensures Linked(LinkedTo(t, prev, o), Above(rank, o))
  {
  }

  lemma EmptiedLinked(t: seq<Slot>, rank: seq<nat>, i: int)
    requires Linked(t, rank) && 0 <= i < SLOTS
    ensures Linked(Emptied(t, i), rank)
  {
  }

  /** A ranking of the table that Add leaves. */
  function AddRank(s: Table, rank: seq<nat>, d: Routine): (rank': seq<nat>)
    requires Linked(s.slots, rank)
    ensures Linked(Add(s, rank, d).0.slots, rank')
  {
    if Add(s, rank, d).0.count == s.count then rank
    else
      var w := WalkChain(s.slots, rank, -1, Home(d.key));
      if w.cur >= 0 && s.slots[w.cur].next == -1 then
        PlacedLinked(s.slots, rank, w.cur, d);
        rank
      else
        var o := FirstFree(s.slots, BUCKETS);
        PlacedLinked(s.slots, rank, o, d);
        LinkedToLinked(Placed(s.slots, o, d), rank, w.prev, o);
        Above(rank, o)
  }

  datatype Op = DoAdd(d: Routine) | DoRemove(d: Routine, cpu: nat) | DoWipe(byPid: bool, x: nat)

  function Apply(s: Table, ghost rank: seq<nat>, op: Op): Table
    requires Linked(s.slots, rank)
  {
    match op
    case DoAdd(d) => Add(s, rank, d).0
    case DoRemove(d, cpu) => Remove(s, rank, d, cpu).0
    case DoWipe(byPid, x) => Wipe(s, byPid, x)
  }

  /** Under any mix of all four mutators links stay in range and acyclic. */
  lemma ApplyAcyclic(s: Table, rank: seq<nat>, op: Op)
    requires Linked(s.slots, rank)
    ensures Acyclic(Apply(s, rank, op).slots)
  {
    match op {
      case DoAdd(d) =>
        assert Linked(Add(s, rank, d).0.slots, AddRank(s, rank, d));
      case DoRemove(d, cpu) =>
        var i := FindIdx(s.slots, rank, Home(d.key), d.key);
        if i >= 0 { EmptiedLinked(s.slots, rank, i); }
        assert Linked(Remove(s, rank, d, cpu).0.slots, rank);
      case DoWipe(byPid, x) =>
        assert Linked(Wiped(s.slots, byPid, x), rank);
    }
  }

  lemma AddRemoveEmptyEnds(s: Table, rank: seq<nat>, op: Op)
    requires Linked(s.slots, rank) && EmptyEnds(s.slots) && !op.DoWipe?
    ensures EmptyEnds(Apply(s, rank, op).slots)
  {
  }

  // --- The count word -----------------------------------------------------------------------

  lemma {:induction false} OccupiedUpdate(t: seq<Slot>, i: int, x: Slot)
    requires 0 <= i < |t|
    ensures Occupied(t[i := x]) ==
            Occupied(t) - (if t[i].r.key != 0 then 1 else 0) + (if x.r.key != 0 then 1 else 0)
  {
    var n := |t| - 1;
    if i == n {
      assert t[i := x][..n] == t[..n];
    } else {
      assert t[i := x][..n] == t[..n][i := x];
      OccupiedUpdate(t[..n], i, x);
    }
  }

  lemma LinkedToOccupied(t: seq<Slot>, prev: int, o: int)
    requires prev < |t|
    ensures Occupied(LinkedTo(t, prev, o)) == Occupied(t)
  {
    if prev >= 0 { OccupiedUpdate(t, prev, t[prev].(next := o)); }
  }

  lemma EmptiedOccupied(t: seq<Slot>, rank: seq<nat>, i: int)
    requires Linked(t, rank) && 0 <= i < SLOTS && t[i].r.key != 0
    ensures Occupied(Emptied(t, i)) == Occupied(t) - 1
  {
    var n := t[i].next;
    if n >= 0 {
      OccupiedUpdate(t, i, t[n]);
      OccupiedUpdate(t[i := t[n]], n, Slot(t[n].r.(key := 0), -1));
    } else {
      OccupiedUpdate(t, i, t[i].(r := t[i].r.(key := 0)));
    }
  }

  /** Every mutator changes the count word and the number of occupied slots by the same
      amount, provided non-zero keys are registered and removed. */
  lemma CountFollowsOccupied(s: Table, rank: seq<nat>, op: Op)
    requires Linked(s.slots, rank)
    requires !op.DoWipe? ==> op.d.key != 0
    ensures var s' := Apply(s, rank, op);
            s'.count - Occupied(s'.slots) == s.count - Occupied(s.slots)
  {
    match op {
      case DoAdd(d) =>
        if Add(s, rank, d).0.count != s.count {
          var w := WalkChain(s.slots, rank, -1, Home(d.key));
          if w.cur >= 0 && s.slots[w.cur].next == -1 {
            OccupiedUpdate(s.slots, w.cur, Slot(d, -1));
          } else {
            var o := FirstFree(s.slots, BUCKETS);
            OccupiedUpdate(s.slots, o, Slot(d, -1));
            LinkedToOccupied(Placed(s.slots, o, d), w.prev, o);
          }
        }
      case DoRemove(d, _) =>
        var i := FindIdx(s.slots, rank, Home(d.key), d.key);
        if i >= 0 { EmptiedOccupied(s.slots, rank, i); }
      case DoWipe(_, _) =>
    }
  }

  // --- Lookups under insertion ------------------------------------------------------------------

  lemma {:induction false} PlacedFind(t: seq<Slot>, rank: seq<nat>, c: int, d: Routine, i: int, key: nat)
    requires Linked(t, rank) && 0 <= c < SLOTS && 0 <= i < SLOTS
    requires t[c].r.key == 0 && t[c].next == -1 && key != 0 && key != d.key
    ensures Linked(Placed(t, c, d), rank)
    ensures FindIdx(Placed(t, c, d), rank, i, key) == FindIdx(t, rank, i, key)
    decreases rank[i]
  {
    if t[i].r.key != key && t[i].next >= 0 {
      PlacedFind(t, rank, c, d, t[i].next, key);
    }
  }

  lemma {:induction false} OverflowFind(t: seq<Slot>, rank: seq<nat>, p: int, o: int, d: Routine, i: int, key: nat)
    requires Linked(t, rank) && 0 <= p < SLOTS && 0 <= o < SLOTS && 0 <= i < SLOTS
    requires t[p].r.key != 0 && t[p].next == -1
    requires t[o].r.key == 0 && t[o].next == -1 && key != 0 && key != d.key
    ensures var t' := LinkedTo(Placed(t, o, d), p, o);
            && Linked(t', Above(rank, o))
            && FindIdx(t', Above(rank, o), i, key) == FindIdx(t, rank, i, key)
    decreases rank[i]
  {
    PlacedLinked(t, rank, o, d);
    LinkedToLinked(Placed(t, o, d), rank, p, o);
    if i != o && t[i].r.key != key && t[i].next >= 0 {
      OverflowFind(t, rank, p, o, d, t[i].next, key);
    }
  }

  /** The chain that was walked to its end `(prev, cur)` reaches whatever is put there. */
  lemma {:induction false} WalkFinds(t: seq<Slot>, rank: seq<nat>, t': seq<Slot>, rank': seq<nat>,
                                     prev: int, i: int, x: int, key: nat)
    requires Linked(t, rank) && Linked(t', rank') && 0 <= i < SLOTS && 0 <= x < SLOTS
    requires prev == -1 || (0 <= prev < SLOTS && t[prev].r.key != 0)
    requires FindIdx(t, rank, i, key) < 0 && key != 0
    requires WalkChain(t, rank, prev, i).Stop?
    requires var w := WalkChain(t, rank, prev, i);
             && t'[x].r.key == key
             && (if w.cur >= 0 then x == w.cur else t'[w.prev].next == x)
             && forall j | 0 <= j < SLOTS && t[j].r.key != 0 ::
                  t'[j].r == t[j].r && (t[j].next >= 0 ==> t'[j].next == t[j].next)
    ensures FindIdx(t', rank', i, key) == x
    decreases rank[i]
  {
    if t[i].r.key != 0 && t[i].next >= 0 {
      WalkFinds(t, rank, t', rank', i, t[i].next, x, key);
    }
  }

  /** A successful registration of a new key, in a table whose empty slots end their chains:
      the key's slot holds the descriptor and no other key is found anywhere else. */
  lemma AddChains(s: Table, rank: seq<nat>, d: Routine, key: nat)
    requires Linked(s.slots, rank) && EmptyEnds(s.slots) && d.key != 0 && key != 0
    requires s.count <= MAX_INDEX && FindIdx(s.slots, rank, Home(d.key), d.key) < 0 && Add(s, rank, d).1 == 0
    ensures var (s', _) := Add(s, rank, d);
            var rank' := AddRank(s, rank, d);
            && Linked(s'.slots, rank')
            && (key == d.key ==> var x := FindIdx(s'.slots, rank', Home(key), key); x >= 0 && s'.slots[x].r == d)
            && (key != d.key ==>
                  var x := FindIdx(s.slots, rank, Home(key), key);
                  FindIdx(s'.slots, rank', Home(key), key) == x && (x >= 0 ==> s'.slots[x].r == s.slots[x].r))
  {
    var t, t', rank' := s.slots, Add(s, rank, d).0.slots, AddRank(s, rank, d);
    var w := WalkChain(t, rank, -1, Home(d.key));
    if w.cur >= 0 {
      if key == d.key {
        WalkFinds(t, rank, t', rank', -1, Home(key), w.cur, key);
      } else {
        PlacedFind(t, rank, w.cur, d, Home(key), key);
      }
    } else {
      var o := FirstFree(t, BUCKETS);
      if key == d.key {
        WalkFinds(t, rank, t', rank', -1, Home(key), o, key);
      } else {
        OverflowFind(t, rank, w.prev, o, d, Home(key), key);
      }
    }
  }

  /** Lookup in a table, whatever ranking shows it acyclic. */
  ghost function Lookup(s: Table, key: nat): Option<Found>
    requires Acyclic(s.slots)
  {
    Find(s, SomeRank(s.slots), key)
  }

  lemma LookupIsFind(s: Table, rank: seq<nat>, key: nat)
    requires Linked(s.slots, rank)
    ensures Lookup(s, key) == Find(s, rank, key)
  {
    FindAnyRank(s.slots, rank, SomeRank(s.slots), Home(key), key);
  }

  /** The lookup found a routine with every field of d. */
  predicate Copied(f: Option<Found>, d: Routine) {
    && f.Some? && f.value.name == d.name && f.value.cpu == d.cpu && f.value.flags == d.flags
    && f.value.key == d.key && f.value.data == d.data && f.value.callbacks == d.callbacks
  }

  ghost predicate NewKey(s: Table, key: nat)
    requires Acyclic(s.slots)
  {
    key != 0 && Lookup(s, key) == None
  }

  /** Registering a new key makes it, and only it, change its lookup -- exactly when the table
      had fewer than 1223 entries.  The registration that fills the last of the 1224 slots
      succeeds and hides every routine, because lookups refuse a count above 1223. */
  lemma AddLookups(s: Table, rank: seq<nat>, d: Routine)
    requires Linked(s.slots, rank) && EmptyEnds(s.slots) && s.count <= MAX_INDEX
    requires NewKey(s, d.key) && Add(s, rank, d).1 == 0
    ensures var s' := Add(s, rank, d).0;
            && Acyclic(s'.slots)
            && (Lookup(s', d.key) == Some(Fields(d)) <==> s.count < MAX_INDEX)
            && (s.count < MAX_INDEX ==> Copied(Lookup(s', d.key), d))
            && (s.count < MAX_INDEX ==> forall k | k != 0 && k != d.key :: Lookup(s', k) == Lookup(s, k))
            && (s.count == MAX_INDEX ==> forall k :: Lookup(s', k) == None)
  {
    LookupIsFind(s, rank, d.key);
    var s', rank' := Add(s, rank, d).0, AddRank(s, rank, d);
    AddChains(s, rank, d, d.key);
    LookupIsFind(s', rank', d.key);
    forall k | k != 0 && k != d.key && s.count < MAX_INDEX
      ensures Lookup(s', k) == Lookup(s, k)
    {
      AddChains(s, rank, d, k);
      LookupIsFind(s, rank, k);
      LookupIsFind(s', rank', k);
    }
  }

  /** A registration that does not succeed changes no lookup; it reports a full table only
      when all 200 overflow slots are occupied. */
  lemma AddRefused(s: Table, rank: seq<nat>, d: Routine)
    requires Linked(s.slots, rank) && EmptyEnds(s.slots) && Add(s, rank, d).1 != 0
    ensures var (s', ret) := Add(s, rank, d);
            && s'.slots == s.slots && s'.count == s.count
            && (forall k :: Lookup(s', k) == Lookup(s, k))
            && (ret == FULL ==> forall i | BUCKETS <= i < SLOTS :: s.slots[i].r.key != 0)
  {
  }

  // --- Results and the version word -----------------------------------------------------------

  /** The chain from slot i reaches slot x. */
  predicate OnChain(t: seq<Slot>, ghost rank: seq<nat>, i: int, x: int)
    requires Linked(t, rank) && 0 <= i < SLOTS
    decreases rank[i]
  {
    i == x || (t[i].next >= 0 && OnChain(t, rank, t[i].next, x))
  }

  /** Some occupied slot of the chain from i belongs to no CPU. */
  ghost predicate BadChain(t: seq<Slot>, rank: seq<nat>, i: int)
    requires Linked(t, rank) && 0 <= i < SLOTS
  {
    exists j :: 0 <= j < SLOTS && OnChain(t, rank, i, j) && t[j].r.key != 0 && t[j].r.cpu > 1
  }

  /** The chain from i has an empty slot. */
  ghost predicate OpenChain(t: seq<Slot>, rank: seq<nat>, i: int)
    requires Linked(t, rank) && 0 <= i < SLOTS
  {
    exists j :: 0 <= j < SLOTS && OnChain(t, rank, i, j) && t[j].r.key == 0
  }

  lemma {:induction false} WalkEnds(t: seq<Slot>, rank: seq<nat>, prev: int, i: int)
    requires Linked(t, rank) && EmptyEnds(t) && 0 <= i < SLOTS
    requires prev == -1 || (0 <= prev < SLOTS && t[prev].r.key != 0)
    ensures var w := WalkChain(t, rank, prev, i);
            && (w.Corrupt? <==> BadChain(t, rank, i))
            && (w.Stop? ==> (w.cur >= 0 <==> OpenChain(t, rank, i)))
    decreases rank[i]
  {
    if t[i].r.key == 0 {
      assert OnChain(t, rank, i, i);
    } else if t[i].r.cpu > 1 {
      assert OnChain(t, rank, i, i);
    } else if t[i].next >= 0 {
      var n := t[i].next;
      WalkEnds(t, rank, i, n);
      forall j | 0 <= j < SLOTS ensures OnChain(t, rank, i, j) <==> i == j || OnChain(t, rank, n, j) {}
    }
  }

  /** What AddInRoutine returns for a key that is not there, in every table whose empty slots end their
      chains: -22 exactly when an entry of its chain belongs to no CPU, -2 exactly when otherwise neither
      its chain nor the overflow area has an empty slot, and else 0. */
  lemma AddResultIff(s: Table, rank: seq<nat>, d: Routine)
    requires Linked(s.slots, rank) && EmptyEnds(s.slots)
    ensures s.count > 1223 ==> Add(s, rank, d) == (s, -22)
    ensures s.count <= 1223 && FindIdx(s.slots, rank, Home(d.key), d.key) >= 0 ==> Add(s, rank, d) == (s, 0)
    ensures s.count <= 1223 && FindIdx(s.slots, rank, Home(d.key), d.key) < 0 ==>
              var ret := Add(s, rank, d).1;
              var full := forall i | 1024 <= i < 1224 :: s.slots[i].r.key != 0;
              && (ret == -22 <==> BadChain(s.slots, rank, Home(d.key)))
              && (ret == -2 <==>
                    !BadChain(s.slots, rank, Home(d.key)) && !OpenChain(s.slots, rank, Home(d.key)) && full)
              && (ret == -22 || ret == -2 || ret == 0)
  {
    WalkEnds(s.slots, rank, -1, Home(d.key));
  }

  /** What RemoveRoutine returns apart from the comparison with the descriptor. */
  lemma RemoveResult(s: Table, rank: seq<nat>, d: Routine, cpu: nat)
    requires Linked(s.slots, rank)
    ensures var (s', ret) := Remove(s, rank, d, cpu);
            var i := FindIdx(s.slots, rank, Home(d.key), d.key);
            && (ret == -22 <==> s.count > 1223)
            && (ret == -1 <==> s.count <= 1223 && i < 0)
            && (ret == -14 <==> s.count <= 1223 && i >= 0 && s.slots[i].r.cpu > 1)
            && (ret == -22 || ret == -1 || ret == -14 || ret == 0 || ret == 1)
            && (ret < 0 ==> s'.slots == s.slots && s'.count == s.count)
            && (ret >= 0 ==> s'.count == s.count - 1)
  {
  }

  /** v counted up by n, in 32 bits. */
  function Later(v: nat, n: nat): nat { (v + n) % 0x1_0000_0000 }

  /** The version word goes up by 2 in every operation that changes the table, as a reader that compares it
      before and after expects.  It stays when the operation is refused before the lock is taken, and is left
      one too high by the returns that skip the second increment. */
  lemma AddVersion(s: Table, rank: seq<nat>, d: Routine)
    requires Linked(s.slots, rank) && s.version < 0x1_0000_0000
    ensures var (s', ret) := Add(s, rank, d);
            && (s'.slots != s.slots || s'.count != s.count ==> s'.version == Later(s.version, 2))
            && (s.count <= 1223 && FindIdx(s.slots, rank, Home(d.key), d.key) < 0 ==>
                  s'.version == Later(s.version, if ret == -22 then 1 else 2))
            && (s.count > 1223 || FindIdx(s.slots, rank, Home(d.key), d.key) >= 0 ==> s'.version == s.version)
  {
    BumpTwice(s.version);
  }

  lemma RemoveVersion(s: Table, rank: seq<nat>, d: Routine, cpu: nat)
    requires Linked(s.slots, rank) && s.version < 0x1_0000_0000
    ensures var (s', ret) := Remove(s, rank, d, cpu);
            s'.version == Later(s.version, if ret == -22 then 0 else if ret == -14 then 1 else 2)
  {
    BumpTwice(s.version);
  }

  lemma WipeVersion(s: Table, byPid: bool, x: nat)
    ensures Wipe(s, byPid, x).version == Later(s.version, 2)
  {
    BumpTwice(s.version);
  }

  lemma BumpTwice(v: nat)
    ensures Bump(v) == Later(v, 1) && Bump(Bump(v)) == Later(v, 2)
  {
  }

  // --- Lookups under removal ------------------------------------------------------------------

  /** The walk for `key` from `j` enters slot `n` without having met slot `i` or `key`. */
  predicate Detours(t: seq<Slot>, ghost rank: seq<nat>, j: int, i: int, n: int, key: nat)
    requires Linked(t, rank) && 0 <= j < SLOTS
    decreases rank[j]
  {
    j == n || (j != i && t[j].r.key != key && t[j].next >= 0 && Detours(t, rank, t[j].next, i, n, key))
  }

  lemma {:induction false} BelowEmptied(t: seq<Slot>, rank: seq<nat>, i: int, j: int, key: nat)
    requires Linked(t, rank) && 0 <= i < SLOTS && 0 <= j < SLOTS && Linked(Emptied(t, i), rank)
    requires j != i && (t[i].next >= 0 ==> rank[j] < rank[t[i].next]) && rank[j] < rank[i]
    ensures FindIdx(Emptied(t, i), rank, j, key) == FindIdx(t, rank, j, key)
    decreases rank[j]
  {
    if t[j].r.key != key && t[j].next >= 0 { BelowEmptied(t, rank, i, t[j].next, key); }
  }

  /** Emptying slot `i` hides exactly the keys whose walk reaches the successor by another way;
      every other key is found where it was, or in slot `i` if it was moved there. */
  lemma {:induction false} EmptiedFind(t: seq<Slot>, rank: seq<nat>, i: int, j: int, key: nat)
    requires Linked(t, rank) && EmptyEnds(t) && 0 <= i < SLOTS && 0 <= j < SLOTS
    requires key != 0 && t[i].r.key != key
    ensures var t', n := Emptied(t, i), t[i].next;
            var x := FindIdx(t, rank, j, key);
            && Linked(t', rank)
            && FindIdx(t', rank, j, key) ==
               (if n >= 0 && Detours(t, rank, j, i, n, key) then -1 else if x == n then if n < 0 then -1 else i else x)
    decreases rank[j]
  {
    EmptiedLinked(t, rank, i);
    var n := t[i].next;
    if j == i {
      if n >= 0 && t[n].r.key != key && t[n].next >= 0 {
        BelowEmptied(t, rank, i, t[n].next, key);
      }
    } else if j != n && t[j].r.key != key && t[j].next >= 0 {
      EmptiedFind(t, rank, i, t[j].next, key);
    }
  }

  /** RemoveRoutine in any reachable table: what it does to every other key's lookup. */
  lemma RemoveLookups(s: Table, rank: seq<nat>, d: Routine, cpu: nat, key: nat)
    requires Linked(s.slots, rank) && EmptyEnds(s.slots) && s.count <= MAX_INDEX
    requires key != 0 && key != d.key
    ensures var s', i := Remove(s, rank, d, cpu).0, FindIdx(s.slots, rank, Home(d.key), d.key);
            && Acyclic(s'.slots)
            && Lookup(s', key) ==
               (if i >= 0 && s.slots[i].r.cpu <= 1 && s.slots[i].next >= 0 &&
                   Detours(s.slots, rank, Home(key), i, s.slots[i].next, key) then None
                else Lookup(s, key))
  {
    var s', i := Remove(s, rank, d, cpu).0, FindIdx(s.slots, rank, Home(d.key), d.key);
    LookupIsFind(s, rank, key);
    if i >= 0 && s.slots[i].r.cpu <= 1 {
      EmptiedFind(s.slots, rank, i, Home(key), key);
    }
    LookupIsFind(s', rank, key);
  }

  /** Hence a removal keeps every other key's lookup if and only if no other registered key's
      walk enters the successor of the emptied slot by a way around that slot. */
  lemma RemoveKeepsLookupsIff(s: Table, rank: seq<nat>, d: Routine, cpu: nat)
    requires Linked(s.slots, rank) && EmptyEnds(s.slots) && s.count <= MAX_INDEX
    requires var i := FindIdx(s.slots, rank, Home(d.key), d.key);
             i >= 0 && s.slots[i].r.cpu <= 1 && s.slots[i].next >= 0
    ensures var s', i := Remove(s, rank, d, cpu).0, FindIdx(s.slots, rank, Home(d.key), d.key);
            && Acyclic(s'.slots)
            && ((forall k | k != 0 && k != d.key :: Lookup(s', k) == Lookup(s, k)) <==>
                (forall k | k != 0 && k != d.key && FindIdx(s.slots, rank, Home(k), k) >= 0 ::
                   !Detours(s.slots, rank, Home(k), i, s.slots[i].next, k)))
  {
    var s', i := Remove(s, rank, d, cpu).0, FindIdx(s.slots, rank, Home(d.key), d.key);
    EmptiedLinked(s.slots, rank, i);
    forall k | k != 0 && k != d.key
      ensures Lookup(s', k) == Lookup(s, k) <==>
              FindIdx(s.slots, rank, Home(k), k) < 0 || !Detours(s.slots, rank, Home(k), i, s.slots[i].next, k)
    {
      RemoveLookups(s, rank, d, cpu, k);
      LookupIsFind(s, rank, k);
    }
  }

  // --- Tables built by registrations only ----------------------------------------------------

  /** Chains of different buckets are apart: `owner` labels every slot with a bucket. */
  predicate Owned(t: seq<Slot>, owner: seq<int>) {
    && |t| == SLOTS && |owner| == SLOTS
    && (forall i | 0 <= i < BUCKETS :: owner[i] == i)
    && (forall i | 0 <= i < SLOTS :: 0 <= t[i].next < SLOTS ==> owner[t[i].next] == owner[i])
  }

  /** Every occupied slot is the one its key's lookup ends at. */
  predicate Findable(t: seq<Slot>, rank: seq<nat>)
    requires Linked(t, rank)
  {
    forall i | 0 <= i < SLOTS :: t[i].r.key != 0 ==> FindIdx(t, rank, Home(t[i].r.key), t[i].r.key) == i
  }

  predicate NoDeadLinks(t: seq<Slot>) {
    |t| == SLOTS && forall i | 0 <= i < SLOTS :: 0 <= t[i].next < SLOTS ==> t[t[i].next].r.key != 0
  }

  ghost predicate Tidy(t: seq<Slot>, rank: seq<nat>, owner: seq<int>) {
    Linked(t, rank) && EmptyEnds(t) && Owned(t, owner) && Findable(t, rank)
  }

  lemma {:induction false} WalkOwner(t: seq<Slot>, rank: seq<nat>, owner: seq<int>, prev: int, i: int)
    requires Linked(t, rank) && Owned(t, owner) && 0 <= i < SLOTS
    requires prev == -1 || (0 <= prev < SLOTS && t[prev].r.key != 0 && owner[prev] == owner[i] && t[prev].next == i)
    ensures var w := WalkChain(t, rank, prev, i);
            w.Stop? ==>
              && (w.cur < 0 ==> owner[w.prev] == owner[i])
              && (NoDeadLinks(t) && prev == -1 && w.cur >= 0 ==> w.cur == i)
              && (NoDeadLinks(t) && prev >= 0 ==> w.cur < 0)
    decreases rank[i]
  {
    if t[i].r.key != 0 && t[i].r.cpu <= 1 && t[i].next >= 0 {
      WalkOwner(t, rank, owner, i, t[i].next);
    }
  }

  /** A registration fills one slot and changes no other slot's routine. */
  lemma AddPlaces(s: Table, rank: seq<nat>, d: Routine) returns (x: int)
    requires Linked(s.slots, rank) && Add(s, rank, d).0.count != s.count
    ensures var t' := Add(s, rank, d).0.slots;
            0 <= x < SLOTS && |t'| == SLOTS && t'[x].r == d &&
            forall j | 0 <= j < SLOTS && j != x :: t'[j].r == s.slots[j].r
  {
    var w := WalkChain(s.slots, rank, -1, Home(d.key));
    x := if w.cur >= 0 && s.slots[w.cur].next == -1 then w.cur else FirstFree(s.slots, BUCKETS);
  }

  lemma NotFoundNowhere(t: seq<Slot>, rank: seq<nat>, key: nat)
    requires Linked(t, rank) && Findable(t, rank) && key != 0 && FindIdx(t, rank, Home(key), key) < 0
    ensures forall j | 0 <= j < SLOTS :: t[j].r.key != key
  {
  }

  lemma AddFindable(s: Table, rank: seq<nat>, d: Routine)
    requires Linked(s.slots, rank) && EmptyEnds(s.slots) && Findable(s.slots, rank) && d.key != 0
    ensures Findable(Add(s, rank, d).0.slots, AddRank(s, rank, d))
  {
    var t, t', rank' := s.slots, Add(s, rank, d).0.slots, AddRank(s, rank, d);
    if Add(s, rank, d).0.count != s.count {
      var x := AddPlaces(s, rank, d);
      NotFoundNowhere(t, rank, d.key);
      forall i | 0 <= i < SLOTS && t'[i].r.key != 0
        ensures FindIdx(t', rank', Home(t'[i].r.key), t'[i].r.key) == i
      {
        AddChains(s, rank, d, t'[i].r.key);
        assert i != x ==> FindIdx(t, rank, Home(t[i].r.key), t[i].r.key) == i;
      }
    }
  }

  /** Registration keeps a table tidy and leaves no link to an empty slot. */
  lemma AddTidy(s: Table, rank: seq<nat>, owner: seq<int>, d: Routine) returns (owner': seq<int>)
    requires Tidy(s.slots, rank, owner) && NoDeadLinks(s.slots) && d.key != 0
    ensures Tidy(Add(s, rank, d).0.slots, AddRank(s, rank, d), owner')
    ensures NoDeadLinks(Add(s, rank, d).0.slots)
  {
    AddRemoveEmptyEnds(s, rank, DoAdd(d));
    AddFindable(s, rank, d);
    owner' := owner;
    if Add(s, rank, d).0.count != s.count {
      WalkOwner(s.slots, rank, owner, -1, Home(d.key));
      var w := WalkChain(s.slots, rank, -1, Home(d.key));
      if w.cur < 0 {
        var o := FirstFree(s.slots, BUCKETS);
        owner' := owner[o := Home(d.key)];
        LinkOwned(s.slots, owner, w.prev, o, d);
      }
    }
  }

  lemma LinkOwned(t: seq<Slot>, owner: seq<int>, p: int, o: int, d: Routine)
    requires Owned(t, owner) && NoDeadLinks(t) && 0 <= p < SLOTS && BUCKETS <= o < SLOTS
    requires t[o].r.key == 0 && t[p].r.key != 0 && d.key != 0
    ensures Owned(LinkedTo(Placed(t, o, d), p, o), owner[o := owner[p]])
    ensures NoDeadLinks(LinkedTo(Placed(t, o, d), p, o))
  {
  }

  // --- Removals after registrations ------------------------------------------------------------

  lemma {:induction false} FindOwner(t: seq<Slot>, rank: seq<nat>, owner: seq<int>, j: int, key: nat)
    requires Linked(t, rank) && Owned(t, owner) && 0 <= j < SLOTS
    ensures var x := FindIdx(t, rank, j, key); x >= 0 ==> owner[x] == owner[j]
    decreases rank[j]
  {
    if t[j].r.key != key && t[j].next >= 0 { FindOwner(t, rank, owner, t[j].next, key); }
  }

  lemma {:induction false} NoDetourElsewhere(t: seq<Slot>, rank: seq<nat>, owner: seq<int>, j: int, i: int, key: nat)
    requires Linked(t, rank) && Owned(t, owner) && 0 <= j < SLOTS && 0 <= i < SLOTS && t[i].next >= 0
    requires owner[j] != owner[i]
    ensures !Detours(t, rank, j, i, t[i].next, key)
    decreases rank[j]
  {
    if t[j].next >= 0 { NoDetourElsewhere(t, rank, owner, t[j].next, i, key); }
  }

  /** On the chain that leads to `i` the walk meets `i` before its successor. */
  lemma {:induction false} NoDetourBefore(t: seq<Slot>, rank: seq<nat>, j: int, i: int, gone: nat, key: nat)
    requires Linked(t, rank) && 0 <= j < SLOTS && 0 <= i < SLOTS && t[i].next >= 0
    requires FindIdx(t, rank, j, gone) == i
    ensures !Detours(t, rank, j, i, t[i].next, key)
    decreases rank[j]
  {
    if j != i { NoDetourBefore(t, rank, t[j].next, i, gone, key); }
  }

  /** After the removal the removed key is not on the chain that led to it. */
  lemma {:induction false} GoneFromChain(t: seq<Slot>, rank: seq<nat>, j: int, i: int, key: nat)
    requires Linked(t, rank) && Findable(t, rank) && 0 <= j < SLOTS && 0 <= i < SLOTS
    requires key != 0 && FindIdx(t, rank, j, key) == i && FindIdx(t, rank, Home(key), key) == i
    ensures Linked(Emptied(t, i), rank) && FindIdx(Emptied(t, i), rank, j, key) == -1
    decreases rank[j]
  {
    EmptiedLinked(t, rank, i);
    if j != i {
      GoneFromChain(t, rank, t[j].next, i, key);
    } else if t[i].next >= 0 && t[t[i].next].next >= 0 {
      BelowEmptied(t, rank, i, t[t[i].next].next, key);
    }
  }

  /** From a tidy table RemoveRoutine is deletion from a map: the removed key is gone and every
      other key keeps its fields, also when the successor moved into the emptied slot. */
  lemma RemoveIsDeletion(s: Table, rank: seq<nat>, owner: seq<int>, d: Routine, cpu: nat, key: nat)
    requires Tidy(s.slots, rank, owner) && s.count <= MAX_INDEX && d.key != 0 && key != 0
    requires Remove(s, rank, d, cpu).1 != EFAULT
    ensures var s' := Remove(s, rank, d, cpu).0;
            Acyclic(s'.slots) && Lookup(s', key) == if key == d.key then None else Lookup(s, key)
  {
    var t, s' := s.slots, Remove(s, rank, d, cpu).0;
    var i := FindIdx(t, rank, Home(d.key), d.key);
    if key == d.key {
      if i >= 0 { GoneFromChain(t, rank, Home(key), i, key); }
      LookupIsFind(s', rank, key);
    } else {
      RemoveLookups(s, rank, d, cpu, key);
      if i >= 0 && t[i].next >= 0 {
        FindOwner(t, rank, owner, Home(d.key), d.key);
        if Home(key) == Home(d.key) {
          NoDetourBefore(t, rank, Home(key), i, d.key, key);
        } else {
          NoDetourElsewhere(t, rank, owner, Home(key), i, key);
        }
      }
    }
  }

  lemma EmptiedOwned(t: seq<Slot>, rank: seq<nat>, owner: seq<int>, i: int)
    requires Linked(t, rank) && Owned(t, owner) && 0 <= i < SLOTS
    ensures Owned(Emptied(t, i), owner)
  {
  }

  /** Removal keeps a table tidy. */
  lemma RemoveTidy(s: Table, rank: seq<nat>, owner: seq<int>, d: Routine, cpu: nat)
    requires Tidy(s.slots, rank, owner) && d.key != 0
    ensures Tidy(Remove(s, rank, d, cpu).0.slots, rank, owner)
  {
    var t, t' := s.slots, Remove(s, rank, d, cpu).0.slots;
    AddRemoveEmptyEnds(s, rank, DoRemove(d, cpu));
    var i := FindIdx(t, rank, Home(d.key), d.key);
    if i >= 0 && t' != t {
      EmptiedLinked(t, rank, i);
      EmptiedOwned(t, rank, owner, i);
      EmptiedFindable(t, rank, owner, d.key, i);
    }
  }

  lemma EmptiedFindable(t: seq<Slot>, rank: seq<nat>, owner: seq<int>, gone: nat, i: int)
    requires Tidy(t, rank, owner) && gone != 0 && i == FindIdx(t, rank, Home(gone), gone) >= 0
    ensures Linked(Emptied(t, i), rank) && Findable(Emptied(t, i), rank)
  {
    EmptiedLinked(t, rank, i);
    var t' := Emptied(t, i);
    forall j | 0 <= j < SLOTS && t'[j].r.key != 0
      ensures FindIdx(t', rank, Home(t'[j].r.key), t'[j].r.key) == j
    {
      StaysFindable(t, rank, owner, gone, i, j);
    }
  }

  lemma StaysFindable(t: seq<Slot>, rank: seq<nat>, owner: seq<int>, gone: nat, i: int, j: int)
    requires Tidy(t, rank, owner) && gone != 0 && i == FindIdx(t, rank, Home(gone), gone) >= 0
    requires 0 <= j < SLOTS && Emptied(t, i)[j].r.key != 0
    ensures var t' := Emptied(t, i);
            Linked(t', rank) && FindIdx(t', rank, Home(t'[j].r.key), t'[j].r.key) == j
  {
    var t', n := Emptied(t, i), t[i].next;
    var key := t'[j].r.key;
    assert key == (if j == i then t[n].r.key else t[j].r.key);
    assert FindIdx(t, rank, Home(key), key) == if j == i then n else j;
    EmptiedFind(t, rank, i, Home(key), key);
    if n >= 0 {
      FindOwner(t, rank, owner, Home(gone), gone);
      if Home(key) == Home(gone) {
        NoDetourBefore(t, rank, Home(key), i, gone, key);
      } else {
        NoDetourElsewhere(t, rank, owner, Home(key), i, key);
      }
    }
  }
}
