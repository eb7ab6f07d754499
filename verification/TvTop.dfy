/** Clock lists and reference counts of the TV top driver (sunxi_tvtop_clk.c, sunxi_tvtop_power.c). */
module TvTop {
  /** A clock-list entry: whether it has a clock, the parent rate asked for, the two enabled flags,
      whether a parent was found, and, as auxiliary fields, enables minus disables of both clocks. */
  datatype ClkEntry = ClkEntry(clk: bool, parentRate: nat, clkOn: bool, parent: bool, parentOn: bool,
                               clkNet: int, parentNet: int)

  /** What the clock framework answers for an entry. */
  datatype Answer = Answer(clkRet: int, parent: bool, parentRet: int)

  predicate Balanced(e: ClkEntry) {
    e.clkNet == (if e.clkOn then 1 else 0) && e.parentNet == (if e.parentOn then 1 else 0)
  }

  predicate Off(e: ClkEntry) { !e.clkOn && !e.parentOn }

  /** Flags are set only where there is a clock to switch. */
  predicate Switchable(e: ClkEntry) { (e.clkOn ==> e.clk) && (e.parentOn ==> e.parent) }

  /** What is on can still be reached when the framework answers a: a parent that is on is found
      again.  Holds of every entry that is off. */
  predicate Reachable(e: ClkEntry, a: Answer) {
    (e.clkOn ==> e.clk) && (e.parentOn ==> if e.parentRate == 0 then e.parent else a.parent)
  }

  /** Only the state of an entry changes. */
  predicate SameClock(e: ClkEntry, f: ClkEntry) { f.clk == e.clk && f.parentRate == e.parentRate }

  /** Everything the entry asks for is on. */
  predicate On(e: ClkEntry) { (e.clk ==> e.clkOn) && (e.parentRate != 0 && e.parent ==> e.parentOn) }

  /** The framework switches on what the entry asks for and does not have on yet. */
  predicate Granted(e: ClkEntry, a: Answer) {
    && (e.clk && !e.clkOn ==> a.clkRet == 0)
    && (e.parentRate != 0 && a.parent && !e.parentOn ==> a.parentRet == 0)
  }

  /** The error an entry that is not granted ends with. */
  function Error(e: ClkEntry, a: Answer): int { if e.clk && !e.clkOn && a.clkRet != 0 then a.clkRet else a.parentRet }

  class ClockList {
    const entries: array<ClkEntry>

    constructor (es: seq<ClkEntry>)
      ensures entries[..] == es && fresh(entries)
    {
      entries := new ClkEntry[|es|](i requires 0 <= i < |es| => es[i]);
    }

    /** Step 1 and step 2 of the loop of sunxi_tvtop_clock_enable for entry k. */
    method EnableEntry(k: nat, a: Answer) returns (ret: int)
      requires k < entries.Length && Balanced(entries[k])
      modifies entries
      ensures forall i | 0 <= i < entries.Length && i != k :: entries[i] == old(entries[i])
      ensures Balanced(entries[k]) && SameClock(old(entries[k]), entries[k])
      ensures ret == 0 <==> Granted(old(entries[k]), a)
      ensures ret != 0 ==> ret == Error(old(entries[k]), a)
      ensures ret == 0 ==> On(entries[k])
      ensures ret == 0 && Reachable(old(entries[k]), a) ==> Switchable(entries[k])
      ensures ret != 0 ==> entries[k].parentOn == old(entries[k]).parentOn
      ensures ret != 0 && Off(old(entries[k])) ==> (entries[k].clkOn <==> entries[k].clk && a.clkRet == 0)
    {
      var e := entries[k];
      if e.clk && !e.clkOn {
        ret := a.clkRet;
        if ret == 0 {
          e := e.(clkOn := true, clkNet := e.clkNet + 1);
          entries[k] := e;
        } else {
          return;
        }
      }
      ret := 0;
      if e.parentRate == 0 {
        return;
      }
      e := e.(parent := a.parent);
      entries[k] := e;
      if !e.parent || e.parentOn {
        return;
      }
      ret := a.parentRet;
      if ret == 0 {
        entries[k] := e.(parentOn := true, parentNet := e.parentNet + 1);
      }
    }

    /** Switches off what an entry has on and can reach. */
    method SwitchOff(k: nat)
      requires k < entries.Length && Balanced(entries[k])
      modifies entries
      ensures forall i | 0 <= i < entries.Length && i != k :: entries[i] == old(entries[i])
      ensures Balanced(entries[k]) && SameClock(old(entries[k]), entries[k])
      ensures Switchable(old(entries[k])) ==> Off(entries[k])
    {
      var e := entries[k];
      if e.clk && e.clkOn {
        e := e.(clkOn := false, clkNet := e.clkNet - 1);
      }
      if e.parent && e.parentOn {
        e := e.(parentOn := false, parentNet := e.parentNet - 1);
      }
      entries[k] := e;
    }

    /** sunxi_tvtop_clock_enable.  It succeeds if and only if every entry is granted, and else fails with the
        error of the first that is not.  Flags stay equal to net enables.  On success everything asked for is
        on.  On failure at entry f every entry before f is off, every entry after f is as it was, and
        entry f itself, started off, is on if its own clock could be enabled: the rollback starts
        before it. */
    method ClockEnable(answers: seq<Answer>) returns (ret: int, ghost f: nat)
      requires |answers| == entries.Length && forall i | 0 <= i < entries.Length :: Balanced(entries[i])
      modifies entries
      ensures forall i | 0 <= i < entries.Length :: Balanced(entries[i]) && SameClock(old(entries[i]), entries[i])
      ensures ret == 0 <==> forall i | 0 <= i < entries.Length :: Granted(old(entries[i]), answers[i])
      ensures ret != 0 ==>
                && f < entries.Length && ret == Error(old(entries[f]), answers[f])
                && !Granted(old(entries[f]), answers[f])
                && (forall i | 0 <= i < f :: Granted(old(entries[i]), answers[i]))
      ensures ret == 0 ==>
                forall i | 0 <= i < entries.Length ::
                  On(entries[i]) && (Reachable(old(entries[i]), answers[i]) ==> Switchable(entries[i]))
      ensures ret != 0 ==>
                && f < entries.Length
                && (forall i | 0 <= i < f && Reachable(old(entries[i]), answers[i]) :: Off(entries[i]))
                && (forall i | f < i < entries.Length :: entries[i] == old(entries[i]))
                && (Off(old(entries[f])) ==>
                      !entries[f].parentOn && (entries[f].clkOn <==> entries[f].clk && answers[f].clkRet == 0))
    {
      var k := 0;
      f := 0;
      while k < entries.Length
        invariant 0 <= k <= entries.Length
        invariant forall i | 0 <= i < entries.Length :: Balanced(entries[i]) && SameClock(old(entries[i]), entries[i])
        invariant forall i | 0 <= i < k :: On(entries[i]) && Granted(old(entries[i]), answers[i])
        invariant forall i | 0 <= i < k && Reachable(old(entries[i]), answers[i]) :: Switchable(entries[i])
        invariant forall i | k <= i < entries.Length :: entries[i] == old(entries[i])
      {
        ret := EnableEntry(k, answers[k]);
        if ret != 0 {
          f := k;
          Rollback(k, answers);
          return;
        }
        k := k + 1;
      }
      ret := 0;
    }

    /** The rollback: every entry before f, last one first. */
    method Rollback(f: nat, ghost answers: seq<Answer>)
      requires f < entries.Length && forall i | 0 <= i < entries.Length :: Balanced(entries[i])
      modifies entries
      ensures forall i | 0 <= i < f :: Balanced(entries[i]) && SameClock(old(entries[i]), entries[i])
      ensures forall i | 0 <= i < f && Switchable(old(entries[i])) :: Off(entries[i])
      ensures forall i | f <= i < entries.Length :: entries[i] == old(entries[i])
    {
      var k := f;
      while k > 0
        invariant 0 <= k <= f
        invariant forall i | k <= i < f :: Balanced(entries[i]) && SameClock(old(entries[i]), entries[i])
        invariant forall i | k <= i < f && Switchable(old(entries[i])) :: Off(entries[i])
        invariant forall i | 0 <= i < k || f <= i < entries.Length :: entries[i] == old(entries[i])
      {
        k := k - 1;
        SwitchOff(k);
      }
    }

    /** The clock loop of tvtop_submodule_disable. */
    method ClockDisable()
      requires forall i | 0 <= i < entries.Length :: Balanced(entries[i])
      modifies entries
      ensures forall i | 0 <= i < entries.Length :: Balanced(entries[i]) && SameClock(old(entries[i]), entries[i])
      ensures forall i | 0 <= i < entries.Length && Switchable(old(entries[i])) :: Off(entries[i])
    {
      var k := 0;
      while k < entries.Length
        invariant 0 <= k <= entries.Length
        invariant forall i | 0 <= i < k :: Balanced(entries[i]) && SameClock(old(entries[i]), entries[i])
        invariant forall i | 0 <= i < k && Switchable(old(entries[i])) :: Off(entries[i])
        invariant forall i | k <= i < entries.Length :: entries[i] == old(entries[i])
      {
        SwitchOff(k);
        k := k + 1;
      }
    }
  }

  // --- Submodules --------------------------------------------------------------------------------------

  /** What the steps after the clock list answer: bus clock, reset, power domain. */
  datatype Bringup = Bringup(answers: seq<Answer>, busRet: int, resetRet: int, pmRet: int)

  /** The step at which an enable function gave up. */
  datatype Stage = Nothing | Clocks | Bus | Reset | Power

  class Submodule {
    const clocks: ClockList
    const bus: bool
    const powerDomain: bool
    var busOn: bool
    var enabled: bool

    ghost predicate Valid()
      reads this, clocks.entries
    {
      && (forall i | 0 <= i < clocks.entries.Length :: Balanced(clocks.entries[i]))
      && (busOn ==> bus)
    }

    ghost predicate AllOn()
      reads clocks.entries
    {
      forall i | 0 <= i < clocks.entries.Length :: On(clocks.entries[i])
    }

    constructor (clocks: ClockList, bus: bool, powerDomain: bool)
      requires forall i | 0 <= i < clocks.entries.Length :: Balanced(clocks.entries[i])
      ensures Valid() && !enabled && !busOn && this.clocks == clocks
    {
      this.clocks, this.bus, this.powerDomain := clocks, bus, powerDomain;
      busOn, enabled := false, false;
    }

    /** The enable functions of the three submodules: a failing step returns at once and leaves what
        the steps before it switched on.  The power domain is absent from the tvdisp path. */
    method Enable(b: Bringup) returns (ret: int, ghost failed: Stage)
      requires Valid() && |b.answers| == clocks.entries.Length && b.pmRet <= 0
      modifies this, clocks.entries
      ensures Valid()
      ensures old(enabled) ==>
                ret == 0 && enabled && busOn == old(busOn) && clocks.entries[..] == old(clocks.entries[..])
      ensures enabled <==> ret == 0
      ensures enabled && !old(enabled) ==>
                (bus ==> busOn) && AllOn()
      ensures enabled && !old(enabled) ==>
                forall i | 0 <= i < clocks.entries.Length && Reachable(old(clocks.entries[i]), b.answers[i]) ::
                  Switchable(clocks.entries[i])
      ensures enabled <==> failed == Nothing
      ensures !old(enabled) ==>
                var granted := forall i | 0 <= i < clocks.entries.Length ::
                  Granted(old(clocks.entries[i]), b.answers[i]);
                enabled <==> granted && (bus && !old(busOn) ==> b.busRet == 0) && b.resetRet == 0 &&
                             (powerDomain ==> b.pmRet == 0)
      ensures failed == Bus ==> bus && !busOn && b.busRet == ret
      ensures failed == Reset ==> b.resetRet == ret
      ensures failed == Power ==> powerDomain && b.resetRet == 0 && b.pmRet == ret
      ensures failed != Nothing && failed != Clocks ==> AllOn() && (failed != Bus && bus ==> busOn)
    {
      ret, failed := 0, Nothing;
      if enabled {
        return;
      }
      ghost var f;
      ret, f := clocks.ClockEnable(b.answers);
      if ret != 0 {
        failed := Clocks;
        return;
      }
      if bus && !busOn {
        ret := b.busRet;
        if ret != 0 {
          failed := Bus;
          return;
        }
        busOn := true;
      }
      ret := b.resetRet;
      if ret != 0 {
        failed := Reset;
        return;
      }
      if powerDomain {
        ret := b.pmRet;
        if ret < 0 {
          failed := Power;
          return;
        }
      }
      enabled := true;
    }

    /** tvtop_submodule_disable */
    method Disable()
      requires Valid()
      modifies this, clocks.entries
      ensures Valid() && !enabled
      ensures old(enabled) ==> !busOn
      ensures old(enabled) ==>
                forall i | 0 <= i < clocks.entries.Length && Switchable(old(clocks.entries[i])) ::
                  Off(clocks.entries[i])
      ensures !old(enabled) ==> busOn == old(busOn) && clocks.entries[..] == old(clocks.entries[..])
    {
      if !enabled {
        return;
      }
      clocks.ClockDisable();
      if bus && busOn {
        busOn := false;
      }
      enabled := false;
    }

    /** The first get and the last put of a submodule that was off.  The put switches the clocks off
        again exactly when the get succeeded: after a failure past the clock list every clock, and
        after one past the bus clock the bus clock too, stays on with nobody using it. */
    method GetThenPut(b: Bringup) returns (ret: int, ghost failed: Stage)
      requires Valid() && !enabled && |b.answers| == clocks.entries.Length && b.pmRet <= 0
      requires forall i | 0 <= i < clocks.entries.Length :: Off(clocks.entries[i])
      modifies this, clocks.entries
      ensures Valid() && !enabled && (ret == 0 <==> failed == Nothing)
      ensures ret == 0 ==> !busOn && forall i | 0 <= i < clocks.entries.Length :: Off(clocks.entries[i])
      ensures failed != Nothing && failed != Clocks ==> AllOn() && (failed != Bus && bus ==> busOn)
    {
      ret, failed := Enable(b);
      Disable();
    }
  }
}
