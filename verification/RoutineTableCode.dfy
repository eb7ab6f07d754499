/** The routine table as the driver runs it: loops over the shared slot array, the count word
    and the version word, proved against the definitions in module Routines. */
module RoutineTableCode {
  import opened Common
  import opened Routines
  import opened RoutineTheory

  class RoutineTable {
    var version: nat
    var count: int
    var slots: array<Slot>
    ghost var rank: seq<nat>

    /** The ranking that makes every walk terminate is carried along as ghost state. */
    ghost predicate Valid()
      reads this, slots
    {
      Linked(slots[..], rank)
    }

    ghost function Value(): Table
      reads this, slots
    {
      Table(version, count, slots[..])
    }

    /** InitCommMem's initialisation loop; `init` stands for the memory's earlier contents. */
    constructor (init: Routine)
      ensures Valid() && Fresh(Value()) && fresh(slots)
    {
      var a := new Slot[SLOTS](_ => Slot(init, 0));
      version, count := 0, 0;
      slots := a;
      rank := seq(SLOTS, _ => 0);
      new;
      for i := 0 to SLOTS
        invariant slots == a && slots.Length == SLOTS && fresh(slots)
        invariant version == 0 && count == 0 && rank == seq(SLOTS, _ => 0)
        invariant forall j | 0 <= j < i :: slots[j].r.key == 0 && slots[j].next == -1
      {
        slots[i] := Slot(slots[i].r.(key := 0), -1);
      }
    }

    method FindRoutineEx(key: nat) returns (found: Option<Found>)
      requires Valid()
      ensures found == Find(Value(), rank, key)
      ensures count > 1223 ==> found == None
      ensures found.Some? ==>
                exists i :: 0 <= i < slots.Length &&
                  var f, r := found.value, slots[i].r;
                  && r.key == key && f.name == r.name && f.cpu == r.cpu && f.flags == r.flags && f.key == r.key
                  && f.data == r.data && f.callbacks == r.callbacks
    {
      if count > MAX_INDEX {
        return None;
      }
      var cur := Home(key);
      while true
        invariant 0 <= cur < SLOTS
        invariant FindIdx(slots[..], rank, cur, key) == FindIdx(slots[..], rank, Home(key), key)
        decreases rank[cur]
      {
        if slots[cur].r.key == key {
          return Some(Fields(slots[cur].r));
        }
        cur := slots[cur].next;
        if cur < 0 {
          return None;
        }
      }
    }

    /** AddInRoutine's walk to the end of the chain that starts at slot `head`. */
    method WalkToEnd(head: nat) returns (w: Walk)
      requires Valid() && head < SLOTS
      ensures w == WalkChain(slots[..], rank, -1, head)
    {
      var cur, prev := head, -1;
      while slots[cur].r.key != 0
        invariant 0 <= cur < SLOTS
        invariant prev == -1 || (0 <= prev < SLOTS && slots[prev].r.key != 0)
        invariant WalkChain(slots[..], rank, prev, cur) == WalkChain(slots[..], rank, -1, head)
        decreases rank[cur]
      {
        if slots[cur].r.cpu > 1 {
          return Corrupt;
        }
        if slots[cur].next < 0 {
          return Stop(cur, -1);
        }
        prev, cur := cur, slots[cur].next;
      }
      return Stop(prev, cur);
    }

    method AddInRoutine(d: Routine) returns (ret: int)
      requires Valid()
      modifies this, slots
      ensures slots == old(slots) && Valid()
      ensures (Value(), ret) == Add(old(Value()), old(rank), d)
    {
      if count > MAX_INDEX {
        return EINVAL;
      }
      var dup := FindRoutineEx(d.key);
      if dup.Some? {
        return 0;
      }
      ret := Insert(d);
    }

    /** The part of AddInRoutine under the spinlock. */
    method Insert(d: Routine) returns (ret: int)
      requires Valid()
      modifies this, slots
      ensures slots == old(slots) && Valid()
      ensures (Value(), ret) == Routines.Insert(old(Value()), old(rank), d)
    {
      ghost var t := slots[..];
      version := Bump(version);
      var w := WalkToEnd(Home(d.key));
      if w.Corrupt? {
        return EINVAL;
      }
      if w.cur >= 0 && slots[w.cur].next == -1 {
        slots[w.cur] := Slot(d, -1);
        count := count + 1;
        assert slots[..] == Placed(t, w.cur, d);
        PlacedLinked(t, rank, w.cur, d);
        version := Bump(version);
        return 0;
      }
      ret := AddOverflow(d, w.prev);
    }

    method FindFreeOverflow() returns (o: int)
      requires Valid()
      ensures o == FirstFree(slots[..], BUCKETS)
    {
      o := BUCKETS;
      while o < SLOTS && slots[o].r.key != 0
        invariant BUCKETS <= o <= SLOTS
        invariant FirstFree(slots[..], BUCKETS) == FirstFree(slots[..], o)
      {
        o := o + 1;
      }
    }

    /** The last branch of AddInRoutine: take a free overflow slot, link it from `prev`. */
    method AddOverflow(d: Routine, prev: int) returns (ret: int)
      requires Valid() && -1 <= prev < SLOTS && (prev >= 0 ==> slots[prev].r.key != 0)
      modifies this, slots
      ensures slots == old(slots) && Valid()
      ensures var t, o := old(slots[..]), FirstFree(old(slots[..]), BUCKETS);
              if o == SLOTS then
                ret == FULL && Value() == old(Value()).(version := Bump(old(version)))
              else if t[o].next != -1 then
                ret == EINVAL && Value() == old(Value())
              else
                ret == 0 && Value() == Table(Bump(old(version)), old(count) + 1, LinkedTo(Placed(t, o, d), prev, o))
    {
      ghost var t := slots[..];
      var o := FindFreeOverflow();
      if o == SLOTS {
        version := Bump(version);
        return FULL;
      }
      if slots[o].next != -1 {
        return EINVAL;
      }
      slots[o] := Slot(d, -1);
      if prev >= 0 {
        slots[prev] := slots[prev].(next := o);
      }
      assert slots[..] == LinkedTo(Placed(t, o, d), prev, o);
      PlacedLinked(t, rank, o, d);
      LinkedToLinked(Placed(t, o, d), rank, prev, o);
      rank := Above(rank, o);
      count := count + 1;
      version := Bump(version);
      return 0;
    }

    /** `held` says that the spinlock of the table was taken and not given back. */
    method RemoveRoutine(d: Routine, ourCpu: nat) returns (ret: int, held: bool)
      requires Valid()
      modifies this, slots
      ensures slots == old(slots) && Valid()
      ensures (Value(), ret) == Remove(old(Value()), old(rank), d, ourCpu)
      ensures held <==> ret == EFAULT
    {
      held := false;
      ghost var t := slots[..];
      if count > MAX_INDEX {
        return EINVAL, held;
      }
      held := true;
      version := Bump(version);
      var cur := Home(d.key);
      while slots[cur].r.key != d.key
        invariant 0 <= cur < SLOTS
        invariant slots == old(slots) && slots[..] == t && rank == old(rank)
        invariant FindIdx(t, rank, cur, d.key) == FindIdx(t, rank, Home(d.key), d.key)
        decreases rank[cur]
      {
        var next := slots[cur].next;
        if next < 0 {
          version := Bump(version);
          return -1, false;
        }
        cur := next;
      }
      if slots[cur].r.cpu > 1 {
        return EFAULT, held;
      }
      var next := slots[cur].next;
      slots[cur] := slots[cur].(r := slots[cur].r.(key := 0));
      if next >= 0 {
        slots[cur] := slots[next];
        slots[next] := Slot(slots[next].r.(key := 0), -1);
      }
      assert slots[..] == Emptied(t, cur);
      EmptiedLinked(t, rank, cur);
      count := count - 1;
      var now := slots[cur].r;
      ret := if Matches(d, now, ourCpu) then 0 else 1;
      version := Bump(version);
      held := false;
    }

    /** RemovePidRoutines (`byPid`) and RoutineCleanupInCPUReset. */
    method RemoveMatching(byPid: bool, x: nat)
      requires Valid()
      modifies this, slots
      ensures slots == old(slots) && Valid()
      ensures Value() == Wipe(old(Value()), byPid, x)
      ensures forall j | 0 <= j < SLOTS ::
                var r, next := old(slots[j]).r, old(slots[j]).next;
                slots[j] ==
                  if r.key != 0 && x == (if !byPid then r.cpu else if |r.data| > 4 then r.data[4] else 0) then
                    Slot(r.(key := 0), next)
                  else Slot(r, next)
      ensures old(count) - count == Occupied(old(slots[..])) - Occupied(slots[..])
    {
      ghost var t := slots[..];
      version := Bump(version);
      for i := 0 to SLOTS
        invariant slots == old(slots) && slots.Length == SLOTS && version == Bump(old(version)) && rank == old(rank)
        invariant forall j | 0 <= j < i :: slots[j] == Wiped(t, byPid, x)[j]
        invariant forall j | i <= j < SLOTS :: slots[j] == t[j]
        invariant count - Occupied(slots[..]) == old(count) - Occupied(t)
      {
        if Doomed(slots[i].r, byPid, x) {
          ghost var before := slots[..];
          slots[i] := slots[i].(r := slots[i].r.(key := 0));
          assert slots[..] == before[i := slots[i]];
          OccupiedUpdate(before, i, slots[i]);
          count := count - 1;
        }
      }
      assert slots[..] == Wiped(t, byPid, x);
      version := Bump(version);
    }
  }
}
