/** Whole histories of the routine table, from the table InitCommMem sets up. */
module RoutineHistories {
  import opened Common
  import opened Routines
  import opened RoutineTheory

  /** One operation; the chains it walks are acyclic by some ranking. */
  ghost predicate Step(p: Table, op: Op, s: Table) {
    exists rank :: Linked(p.slots, rank) && s == Apply(p, rank, op)
  }

  /** A history, latest operation last. */
  datatype History = Start | Then(before: History, op: Op)

  /** The history `h` leads from `s0` to `s`. */
  ghost predicate Reaches(s0: Table, h: History, s: Table) {
    match h
    case Start => Fresh(s0) && s == s0
    case Then(b, op) => exists p :: Reaches(s0, b, p) && Step(p, op, s)
  }

  predicate NonZeroKeys(h: History) {
    h.Then? ==> (h.op.DoWipe? || h.op.d.key != 0) && NonZeroKeys(h.before)
  }

  predicate NoWipes(h: History) { h.Then? ==> !h.op.DoWipe? && NoWipes(h.before) }

  predicate AddsOnly(h: History) { h.Then? ==> h.op.DoAdd? && AddsOnly(h.before) }

  predicate AddsThenRemoves(h: History) {
    AddsOnly(h) || (h.Then? && h.op.DoRemove? && AddsThenRemoves(h.before))
  }

  lemma Extend(s0: Table, h: History, p: Table, op: Op, rank: seq<nat>)
    requires Reaches(s0, h, p) && Linked(p.slots, rank)
    ensures Reaches(s0, Then(h, op), Apply(p, rank, op))
  {
    assert Step(p, op, Apply(p, rank, op));
  }

  /** Over every history of all four mutators links stay in range and acyclic: every walk of
      find, add and remove terminates, so every operation can be carried out. */
  lemma {:induction false} HistoryAcyclic(s0: Table, h: History, s: Table, next: Op) returns (s': Table)
    requires Reaches(s0, h, s)
    ensures Acyclic(s.slots) && Step(s, next, s')
  {
    match h {
      case Start =>
        assert Linked(s.slots, seq(SLOTS, _ => 0));
      case Then(b, op) =>
        var p :| Reaches(s0, b, p) && Step(p, op, s);
        var rank :| Linked(p.slots, rank) && s == Apply(p, rank, op);
        ApplyAcyclic(p, rank, op);
    }
    s' := Apply(s, SomeRank(s.slots), next);
  }

  lemma {:induction false} OccupiedFresh(t: seq<Slot>)
    requires forall i | 0 <= i < |t| :: t[i].r.key == 0
    ensures Occupied(t) == 0
  {
    if |t| > 0 { OccupiedFresh(t[..|t| - 1]); }
  }

  /** Over every history of all four mutators with non-zero keys the count word is the number
      of occupied slots. */
  lemma {:induction false} CountIsOccupied(s0: Table, h: History, s: Table)
    requires Reaches(s0, h, s) && NonZeroKeys(h)
    ensures s.count == Occupied(s.slots)
  {
    match h {
      case Start =>
        OccupiedFresh(s0.slots);
      case Then(b, op) =>
        var p :| Reaches(s0, b, p) && Step(p, op, s);
        CountIsOccupied(s0, b, p);
        var rank :| Linked(p.slots, rank) && s == Apply(p, rank, op);
        CountFollowsOccupied(p, rank, op);
    }
  }

  /** Over every history of registrations and removals empty slots end their chains. */
  lemma {:induction false} HistoryEmptyEnds(s0: Table, h: History, s: Table)
    requires Reaches(s0, h, s) && NoWipes(h)
    ensures EmptyEnds(s.slots)
  {
    if h.Then? {
      var p :| Reaches(s0, h.before, p) && Step(p, h.op, s);
      HistoryEmptyEnds(s0, h.before, p);
      var rank :| Linked(p.slots, rank) && s == Apply(p, rank, h.op);
      AddRemoveEmptyEnds(p, rank, h.op);
    }
  }

  /** In every table reachable by registrations and removals: a successful registration of a
      new key changes that key's lookup and no other, unless it fills the 1224th slot; then
      nothing at all is found any more.  A refused one changes no lookup. */
  lemma RegistrationInAnyHistory(s0: Table, h: History, s: Table, rank: seq<nat>, d: Routine)
    requires Reaches(s0, h, s) && NoWipes(h) && d.key != 0 && Linked(s.slots, rank)
    ensures var (s', ret) := Add(s, rank, d);
            && Acyclic(s'.slots)
            && (ret == 0 && s.count <= MAX_INDEX && NewKey(s, d.key) ==>
                  && (Lookup(s', d.key) == Some(Fields(d)) <==> s.count < MAX_INDEX)
                  && (s.count < MAX_INDEX ==> Copied(Lookup(s', d.key), d))
                  && (s.count < MAX_INDEX ==> forall k | k != 0 && k != d.key :: Lookup(s', k) == Lookup(s, k))
                  && (s.count == MAX_INDEX ==> forall k :: Lookup(s', k) == None))
            && (ret != 0 || !NewKey(s, d.key) ==> forall k :: Lookup(s', k) == Lookup(s, k))
            && (ret == FULL ==> forall i | BUCKETS <= i < SLOTS :: s.slots[i].r.key != 0)
  {
    HistoryEmptyEnds(s0, h, s);
    ApplyAcyclic(s, rank, DoAdd(d));
    if Add(s, rank, d).1 != 0 {
      AddRefused(s, rank, d);
    } else if s.count <= MAX_INDEX && NewKey(s, d.key) {
      AddLookups(s, rank, d);
    } else {
      LookupIsFind(s, rank, d.key);
    }
  }

  /** The functions take any ranking; their results do not depend on it. */
  lemma {:induction false} WalkAnyRank(t: seq<Slot>, rank: seq<nat>, rank': seq<nat>, prev: int, i: int)
    requires Linked(t, rank) && Linked(t, rank') && 0 <= i < SLOTS
    requires prev == -1 || (0 <= prev < SLOTS && t[prev].r.key != 0)
    ensures WalkChain(t, rank, prev, i) == WalkChain(t, rank', prev, i)
    decreases rank[i]
  {
    if t[i].r.key != 0 && t[i].r.cpu <= 1 && t[i].next >= 0 { WalkAnyRank(t, rank, rank', i, t[i].next); }
  }

  lemma ApplyAnyRank(s: Table, rank: seq<nat>, rank': seq<nat>, op: Op)
    requires Linked(s.slots, rank) && Linked(s.slots, rank')
    ensures Apply(s, rank, op) == Apply(s, rank', op)
  {
    if !op.DoWipe? {
      FindAnyRank(s.slots, rank, rank', Home(op.d.key), op.d.key);
      WalkAnyRank(s.slots, rank, rank', -1, Home(op.d.key));
    }
  }

  lemma {:induction false} AddsBuild(s0: Table, h: History, s: Table) returns (rank: seq<nat>, owner: seq<int>)
    requires Reaches(s0, h, s) && AddsOnly(h) && NonZeroKeys(h)
    ensures Tidy(s.slots, rank, owner) && NoDeadLinks(s.slots)
  {
    match h {
      case Start =>
        rank, owner := seq(SLOTS, _ => 0), seq(SLOTS, i => i);
      case Then(b, op) =>
        var p :| Reaches(s0, b, p) && Step(p, op, s);
        var rank0, owner0 := AddsBuild(s0, b, p);
        var rank1 :| Linked(p.slots, rank1) && s == Apply(p, rank1, op);
        ApplyAnyRank(p, rank0, rank1, op);
        owner := AddTidy(p, rank0, owner0, op.d);
        rank := AddRank(p, rank0, op.d);
    }
  }

  lemma {:induction false} RemovesKeepTidy(s0: Table, h: History, s: Table) returns (rank: seq<nat>, owner: seq<int>)
    requires Reaches(s0, h, s) && AddsThenRemoves(h) && NonZeroKeys(h)
    ensures Tidy(s.slots, rank, owner)
  {
    if AddsOnly(h) {
      rank, owner := AddsBuild(s0, h, s);
    } else {
      var p :| Reaches(s0, h.before, p) && Step(p, h.op, s);
      rank, owner := RemovesKeepTidy(s0, h.before, p);
      var rank1 :| Linked(p.slots, rank1) && s == Apply(p, rank1, h.op);
      ApplyAnyRank(p, rank, rank1, h.op);
      RemoveTidy(p, rank, owner, h.op.d, h.op.cpu);
    }
  }

  /** After any registrations, every one of any following removals is deletion from a map. */
  lemma RemovalsAfterRegistrations(s0: Table, h: History, s: Table, d: Routine, cpu: nat, s': Table, key: nat)
    requires Reaches(s0, h, s) && Step(s, DoRemove(d, cpu), s') && AddsThenRemoves(h) && NonZeroKeys(h)
    requires d.key != 0 && key != 0 && s.count <= MAX_INDEX
    requires forall i | 0 <= i < |s.slots| :: s.slots[i].r.key == d.key ==> s.slots[i].r.cpu <= 1
    ensures Acyclic(s.slots) && Acyclic(s'.slots)
    ensures Lookup(s', key) == if key == d.key then None else Lookup(s, key)
  {
    var rank, owner := RemovesKeepTidy(s0, h, s);
    var rank1 :| Linked(s.slots, rank1) && s' == Apply(s, rank1, DoRemove(d, cpu));
    ApplyAnyRank(s, rank, rank1, DoRemove(d, cpu));
    RemoveIsDeletion(s, rank, owner, d, cpu, key);
  }

  // --- Where the map reading ends ------------------------------------------------------------------

  function Plain(key: nat): Routine { Routine(0, 0, 0, key, [], 0, 0, 0) }

  /** The fresh table with slots 1, 2 and 1024 replaced. */
  function Three(s0: Table, a: Slot, b: Slot, c: Slot): seq<Slot>
    requires |s0.slots| == SLOTS
  {
    s0.slots[1 := a][2 := b][1024 := c]
  }

  function TwoLevels(): seq<nat> { seq(SLOTS, i => if i == 1024 then 0 else 1) }

  ghost predicate Sample(s0: Table, h: History, n: int, a: Slot, b: Slot, c: Slot) {
    |s0.slots| == SLOTS && exists v :: Reaches(s0, h, Table(v, n, Three(s0, a, b, c)))
  }

  lemma VersionIrrelevant(p: Table, v: nat, rank: seq<nat>, op: Op)
    requires Linked(p.slots, rank)
    ensures var s, s' := Apply(p, rank, op), Apply(p.(version := v), rank, op);
            s'.slots == s.slots && s'.count == s.count
  {
  }

  /** One operation of the sample history, on explicit slots. */
  lemma SampleStep(s0: Table, h: History, op: Op, n: int, n': int,
                   a: Slot, b: Slot, c: Slot, a': Slot, b': Slot, c': Slot)
    requires Sample(s0, h, n, a, b, c) && n <= 3 && Linked(Three(s0, a, b, c), TwoLevels())
    requires Apply(Table(0, n, Three(s0, a, b, c)), TwoLevels(), op).slots == Three(s0, a', b', c')
    requires Apply(Table(0, n, Three(s0, a, b, c)), TwoLevels(), op).count == n'
    ensures Sample(s0, Then(h, op), n', a', b', c')
  {
    var v :| Reaches(s0, h, Table(v, n, Three(s0, a, b, c)));
    var p := Table(v, n, Three(s0, a, b, c));
    Extend(s0, h, p, op, TwoLevels());
    VersionIrrelevant(Table(0, n, Three(s0, a, b, c)), v, TwoLevels(), op);
  }

  /** Register 1 and 1025 in bucket 1, remove 1025, register 2 and 1026 in bucket 2. */
  function Setup(): History {
    Then(Then(Then(Then(Then(Start, DoAdd(Plain(1))), DoAdd(Plain(1025))), DoRemove(Plain(1025), 0)),
              DoAdd(Plain(2))), DoAdd(Plain(1026)))
  }

  lemma SetupTable(s0: Table)
    requires Fresh(s0)
    ensures Sample(s0, Setup(), 3, Slot(Plain(1), 1024), Slot(Plain(2), 1024), Slot(Plain(1026), -1))
  {
    var e1, e2, e3 := s0.slots[1], s0.slots[2], s0.slots[1024];
    assert Three(s0, e1, e2, e3) == s0.slots;
    assert Reaches(s0, Start, Table(0, 0, Three(s0, e1, e2, e3)));
    var a, a', z := Slot(Plain(1), -1), Slot(Plain(1), 1024), Slot(Plain(0), -1);
    var b, b' := Slot(Plain(2), -1), Slot(Plain(2), 1024);
    SampleStep(s0, Start, DoAdd(Plain(1)), 0, 1, e1, e2, e3, a, e2, e3);
    var h1 := Then(Start, DoAdd(Plain(1)));
    SetupSecond(s0, h1, a, a', e2, e3);
    var h2 := Then(h1, DoAdd(Plain(1025)));
    SetupThird(s0, h2, a', e2);
    var h3 := Then(h2, DoRemove(Plain(1025), 0));
    SetupFourth(s0, h3, a', e2, b, z);
    SetupFifth(s0, Then(h3, DoAdd(Plain(2))), a', b, b', z);
  }

  lemma SetupSecond(s0: Table, h: History, a: Slot, a': Slot, e2: Slot, e3: Slot)
    requires Fresh(s0) && e2 == s0.slots[2] && e3 == s0.slots[1024]
    requires a == Slot(Plain(1), -1) && a' == Slot(Plain(1), 1024) && Sample(s0, h, 1, a, e2, e3)
    ensures Sample(s0, Then(h, DoAdd(Plain(1025))), 2, a', e2, Slot(Plain(1025), -1))
  {
    SampleStep(s0, h, DoAdd(Plain(1025)), 1, 2, a, e2, e3, a', e2, Slot(Plain(1025), -1));
  }

  lemma SetupThird(s0: Table, h: History, a': Slot, e2: Slot)
    requires Fresh(s0) && e2 == s0.slots[2] && a' == Slot(Plain(1), 1024)
    requires Sample(s0, h, 2, a', e2, Slot(Plain(1025), -1))
    ensures Sample(s0, Then(h, DoRemove(Plain(1025), 0)), 1, a', e2, Slot(Plain(0), -1))
  {
    var t := Three(s0, a', e2, Slot(Plain(1025), -1));
    assert FindIdx(t, TwoLevels(), 1024, 1025) == 1024;
    SampleStep(s0, h, DoRemove(Plain(1025), 0), 2, 1, a', e2, Slot(Plain(1025), -1), a', e2, Slot(Plain(0), -1));
  }

  lemma SetupFourth(s0: Table, h: History, a': Slot, e2: Slot, b: Slot, z: Slot)
    requires Fresh(s0) && e2 == s0.slots[2] && a' == Slot(Plain(1), 1024) && z == Slot(Plain(0), -1)
    requires b == Slot(Plain(2), -1) && Sample(s0, h, 1, a', e2, z)
    ensures Sample(s0, Then(h, DoAdd(Plain(2))), 2, a', b, z)
  {
    SampleStep(s0, h, DoAdd(Plain(2)), 1, 2, a', e2, z, a', b, z);
  }

  lemma SetupFifth(s0: Table, h: History, a': Slot, b: Slot, b': Slot, z: Slot)
    requires Fresh(s0) && a' == Slot(Plain(1), 1024) && z == Slot(Plain(0), -1)
    requires b == Slot(Plain(2), -1) && b' == Slot(Plain(2), 1024) && Sample(s0, h, 2, a', b, z)
    ensures Sample(s0, Then(h, DoAdd(Plain(1026))), 3, a', b', Slot(Plain(1026), -1))
  {
    SampleStep(s0, h, DoAdd(Plain(1026)), 2, 3, a', b, z, a', b', Slot(Plain(1026), -1));
  }

  /** Removing 1 moves 1026 into bucket 1, where its lookup does not look. */
  lemma LosingRemoval(s0: Table, s: Table)
    requires Fresh(s0) && s.count == 3
    requires s.slots == Three(s0, Slot(Plain(1), 1024), Slot(Plain(2), 1024), Slot(Plain(1026), -1))
    ensures Linked(s.slots, TwoLevels())
    ensures FindIdx(s.slots, TwoLevels(), 2, 1026) == 1024
    ensures var s' := Remove(s, TwoLevels(), Plain(1), 0).0;
            && Linked(s'.slots, TwoLevels()) && s'.count == 2
            && FindIdx(s'.slots, TwoLevels(), 2, 1026) == -1
  {
    var r := TwoLevels();
    assert FindIdx(s.slots, r, 1024, 1026) == 1024;
    assert FindIdx(s.slots, r, 1, 1) == 1;
    var s' := Remove(s, r, Plain(1), 0).0;
    assert s'.slots == Three(s0, Slot(Plain(1026), -1), Slot(Plain(2), 1024), Slot(Plain(0), -1));
    assert FindIdx(s'.slots, r, 1024, 1026) == -1;
  }

  /** Registrations and removals mixed do not form a map: in the history above 1026 is found,
      and removing 1 loses it. */
  lemma MixedHistoryLosesAKey(s0: Table) returns (s: Table, s': Table)
    requires Fresh(s0)
    ensures Reaches(s0, Setup(), s) && Step(s, DoRemove(Plain(1), 0), s')
    ensures Acyclic(s.slots) && Lookup(s, 1026) == Some(Fields(Plain(1026)))
    ensures Acyclic(s'.slots) && Lookup(s', 1026) == None
  {
    SetupTable(s0);
    var a, b, c := Slot(Plain(1), 1024), Slot(Plain(2), 1024), Slot(Plain(1026), -1);
    var v :| Reaches(s0, Setup(), Table(v, 3, Three(s0, a, b, c)));
    s := Table(v, 3, Three(s0, a, b, c));
    LosingRemoval(s0, s);
    s' := Apply(s, TwoLevels(), DoRemove(Plain(1), 0));
    LookupIsFind(s, TwoLevels(), 1026);
    LookupIsFind(s', TwoLevels(), 1026);
  }

  // --- The full table -------------------------------------------------------------------------------

  function FirstKeys(n: nat): History {
    if n == 0 then Start else Then(FirstKeys(n - 1), DoAdd(Plain(n)))
  }

  function FilledSlot(s0: Table, n: nat, i: nat): Slot
    requires i < SLOTS && |s0.slots| == SLOTS
  {
    if i == 0 then if BUCKETS <= n then Slot(Plain(BUCKETS), -1) else s0.slots[0]
    else if i < BUCKETS then
      if i <= n then Slot(Plain(i), if i + BUCKETS <= n then i + BUCKETS - 1 else -1) else s0.slots[i]
    else if i < n then Slot(Plain(i + 1), -1) else s0.slots[i]
  }

  /** The table after the keys 1, ..., n were registered in turn. */
  function Filled(s0: Table, n: nat): seq<Slot>
    requires |s0.slots| == SLOTS
  {
    seq(SLOTS, i requires 0 <= i < SLOTS => FilledSlot(s0, n, i))
  }

  function OverflowBelow(): seq<nat> { seq(SLOTS, i => if i >= BUCKETS then 0 else 1) }

  lemma FilledLinked(s0: Table, n: nat)
    requires Fresh(s0) && n <= SLOTS
    ensures Linked(Filled(s0, n), OverflowBelow())
  {
  }

  lemma FillBucket(s0: Table, v: nat, n: nat)
    requires Fresh(s0) && n < BUCKETS && Linked(Filled(s0, n), OverflowBelow())
    ensures Add(Table(v, n, Filled(s0, n)), OverflowBelow(), Plain(n + 1)) ==
            (Table(Bump(Bump(v)), n + 1, Filled(s0, n + 1)), 0)
  {
    var t, h := Filled(s0, n), Home(n + 1);
    assert t[h] == s0.slots[h];
    assert Placed(t, h, Plain(n + 1)) == Filled(s0, n + 1);
  }

  lemma FilledOverflowEnd(s0: Table, n: nat)
    requires Fresh(s0) && BUCKETS <= n < SLOTS
    ensures FirstFree(Filled(s0, n), BUCKETS) == n && Filled(s0, n)[n].next == -1
    ensures var h := n + 1 - BUCKETS;
            Filled(s0, n)[h] == Slot(Plain(h), -1) &&
            LinkedTo(Placed(Filled(s0, n), n, Plain(n + 1)), h, n) == Filled(s0, n + 1)
  {
    assert Filled(s0, n)[n].r.key == 0;
  }

  lemma FillOverflow(s0: Table, v: nat, n: nat)
    requires Fresh(s0) && BUCKETS <= n < SLOTS && Linked(Filled(s0, n), OverflowBelow())
    ensures Add(Table(v, n, Filled(s0, n)), OverflowBelow(), Plain(n + 1)) ==
            (Table(Bump(Bump(v)), n + 1, Filled(s0, n + 1)), 0)
  {
    FilledOverflowEnd(s0, n);
    assert Home(n + 1) == n + 1 - BUCKETS;
  }

  lemma FillNext(s0: Table, h: History, v: nat, n: nat)
    requires Fresh(s0) && n < SLOTS && Reaches(s0, h, Table(v, n, Filled(s0, n)))
    ensures Linked(Filled(s0, n), OverflowBelow())
    ensures Add(Table(v, n, Filled(s0, n)), OverflowBelow(), Plain(n + 1)).1 == 0
    ensures Reaches(s0, Then(h, DoAdd(Plain(n + 1))), Table(Bump(Bump(v)), n + 1, Filled(s0, n + 1)))
  {
    FilledLinked(s0, n);
    if n < BUCKETS { FillBucket(s0, v, n); } else { FillOverflow(s0, v, n); }
    Extend(s0, h, Table(v, n, Filled(s0, n)), DoAdd(Plain(n + 1)), OverflowBelow());
  }

  ghost predicate IsFilled(s0: Table, h: History, v: nat, n: nat) {
    |s0.slots| == SLOTS && Reaches(s0, h, Table(v, n, Filled(s0, n)))
  }

  lemma FillStart(s0: Table)
    requires Fresh(s0)
    ensures IsFilled(s0, Start, 0, 0)
  {
    assert s0.slots == Filled(s0, 0);
  }

  lemma FillOne(s0: Table, h: History, v: nat, n: nat)
    requires Fresh(s0) && n < SLOTS && IsFilled(s0, h, v, n)
    ensures IsFilled(s0, Then(h, DoAdd(Plain(n + 1))), Bump(Bump(v)), n + 1)
  {
    FillNext(s0, h, v, n);
  }

  lemma {:induction false} FillTable(s0: Table, n: nat) returns (v: nat)
    requires Fresh(s0) && n <= SLOTS
    ensures IsFilled(s0, FirstKeys(n), v, n)
  {
    v := 0;
    FillStart(s0);
    for i := 0 to n
      invariant IsFilled(s0, FirstKeys(i), v, i)
    {
      FillOne(s0, FirstKeys(i), v, i);
      v := Bump(Bump(v));
    }
  }

  lemma FilledHides(s0: Table, n: nat) returns (h: History, s: Table, s': Table, rank: seq<nat>)
    requires Fresh(s0) && n == MAX_INDEX
    ensures Reaches(s0, h, s) && s.count == n && Linked(s.slots, rank) && Lookup(s, 7) == Some(Fields(Plain(7)))
    ensures Add(s, rank, Plain(n + 1)) == (s', 0) && s'.count == n + 1 && Acyclic(s'.slots)
  {
    h, rank := FirstKeys(n), OverflowBelow();
    var v := FillTable(s0, n);
    s := Table(v, n, Filled(s0, n));
    s' := Table(Bump(Bump(v)), n + 1, Filled(s0, n + 1));
    FilledLinked(s0, n);
    FilledLinked(s0, n + 1);
    FillOverflow(s0, v, n);
    assert Filled(s0, n)[7] == Slot(Plain(7), -1) || Filled(s0, n)[7].r == Plain(7);
    LookupIsFind(s, rank, 7);
  }

  /** The limit is reachable: with 1223 routines registered the key 7 is found; registering one
      more succeeds, and then neither 7 nor any other key is found, and RemoveRoutine and
      AddInRoutine refuse everything. */
  lemma LastSlotHidesAll(s0: Table) returns (h: History, d: Routine, s: Table, s': Table, rank: seq<nat>)
    requires Fresh(s0)
    ensures Reaches(s0, h, s) && Linked(s.slots, rank) && Lookup(s, 7) == Some(Fields(Plain(7)))
    ensures Add(s, rank, d) == (s', 0) && Acyclic(s'.slots)
    ensures forall k :: Lookup(s', k) == None
    ensures forall rank', d, cpu | Linked(s'.slots, rank') :: Remove(s', rank', d, cpu) == (s', EINVAL)
    ensures forall rank', d | Linked(s'.slots, rank') :: Add(s', rank', d) == (s', EINVAL)
  {
    d := Plain(SLOTS);
    h, s, s', rank := FilledHides(s0, MAX_INDEX);
  }
}
