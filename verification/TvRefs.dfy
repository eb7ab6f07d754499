/** The cascading reference counts of sunxi_tvtop_clk_get and sunxi_tvtop_clk_put: the first user of
    tvdisp (0) also takes a reference on tvcap (1), the last one gives it back.  tvfe is 2. */
module TvRefs {
  const TVDISP := 0
  const TVCAP := 1

  // --- The two functions, one call at a time -------------------------------------------------------

  class ClkRefs {
    var count: seq<int>
    var enabled: seq<bool>
    /** References the users hold: gets minus puts of each submodule. */
    ghost var direct: seq<int>

    ghost predicate Valid()
      reads this
    {
      && |count| == 3 && |enabled| == 3 && |direct| == 3
      && (forall t | 0 <= t < 3 :: direct[t] >= 0 && (enabled[t] ==> count[t] > 0))
      && count[0] == direct[0] && count[2] == direct[2]
      && count[1] == direct[1] + (if count[0] > 0 then 1 else 0)
    }

    constructor ()
      ensures Valid() && count == [0, 0, 0] && direct == [0, 0, 0]
    {
      count, enabled, direct := [0, 0, 0], [false, false, false], [0, 0, 0];
    }

    /** A reference is taken whether or not the enable function succeeds; rets[t] is what it would
        return. */
    method Get(t: int, rets: seq<int>) returns (ret: int)
      requires |count| == 3 && |enabled| == 3 && |rets| == 3
      modifies this`count, this`enabled
      ensures !(0 <= t < 3) ==> ret == -22 && count == old(count) && enabled == old(enabled)
      ensures 0 <= t < 3 ==>
                && |count| == 3 && |enabled| == 3
                && count[t] == old(count[t]) + 1 && (enabled[t] <==> old(enabled[t]) || (count[t] == 1 && rets[t] == 0))
      ensures 0 <= t < 3 && (t != TVDISP || old(count[t]) != 0) ==>
                count == old(count)[t := count[t]] && enabled == old(enabled)[t := enabled[t]]
      ensures t == TVDISP && old(count[t]) == 0 ==>
                && count[1] == old(count[1]) + 1 && count[2] == old(count[2]) && enabled[2] == old(enabled[2])
                && (enabled[1] <==> old(enabled[1]) || (count[1] == 1 && rets[1] == 0))
      ensures 0 <= t < 3 ==>
                var own := if old(count[t]) != 0 || old(enabled[t]) then 0 else rets[t];
                var nested := if old(count[1]) != 0 || old(enabled[1]) then 0 else rets[1];
                ret == if t == TVDISP && old(count[t]) == 0 && own == 0 then nested else own
      decreases if t == TVDISP then 1 else 0
    {
      if t < 0 || t > 2 {
        return -22;
      }
      ret := 0;
      count := count[t := count[t] + 1];
      if count[t] == 1 {
        ret := if enabled[t] then 0 else rets[t];
        enabled := enabled[t := enabled[t] || ret == 0];
        if t == TVDISP {
          var r := Get(TVCAP, rets);
          if ret == 0 {
            ret := r;
          }
        }
      }
    }

    method Put(t: int) returns (ret: int)
      requires |count| == 3 && |enabled| == 3
      modifies this`count, this`enabled
      ensures !(0 <= t < 3) ==> ret == -22 && count == old(count) && enabled == old(enabled)
      ensures 0 <= t < 3 && old(count[t]) == 0 ==> ret == -1 && count == old(count) && enabled == old(enabled)
      ensures 0 <= t < 3 && old(count[t]) != 0 ==> ret == 0
      ensures 0 <= t < 3 && old(count[t]) != 0 && (t != TVDISP || old(count[t]) != 1) ==>
                && count == old(count)[t := old(count[t]) - 1]
                && enabled == old(enabled)[t := old(enabled[t]) && old(count[t]) != 1]
      ensures t == TVDISP && old(count[t]) == 1 ==>
                && |count| == 3 && |enabled| == 3 && count[0] == 0 && !enabled[0]
                && count[1] == (if old(count[1]) == 0 then 0 else old(count[1]) - 1) && count[2] == old(count[2])
                && enabled[1] == (old(enabled[1]) && old(count[1]) != 1) && enabled[2] == old(enabled[2])
      decreases if t == TVDISP then 1 else 0
    {
      if t < 0 || t > 2 {
        return -22;
      }
      if count[t] == 0 {
        return -1;
      }
      ret := 0;
      count := count[t := count[t] - 1];
      if count[t] == 0 {
        enabled := enabled[t := false];
        if t == TVDISP {
          var _ := Put(TVCAP);
        }
      }
    }

    /** sunxi_tvtop_clk_get by a user. */
    method UserGet(t: int, rets: seq<int>) returns (ret: int)
      requires Valid() && |rets| == 3
      modifies this
      ensures Valid()
      ensures 0 <= t < 3 ==> direct == old(direct)[t := old(direct[t]) + 1]
      ensures !(0 <= t < 3) ==> direct == old(direct) && count == old(count) && ret == -22
      ensures 0 <= t < 3 && old(count[t]) > 0 ==> ret == 0 && enabled == old(enabled)
      ensures 0 <= t < 3 && old(count[t]) == 0 ==>
                && enabled[t] == (rets[t] == 0)
                && (t != TVDISP ==> ret == rets[t])
                && (t == TVDISP ==> ret == if rets[0] != 0 then rets[0] else if old(count[1]) > 0 then 0 else rets[1])
    {
      ret := Get(t, rets);
      if 0 <= t < 3 {
        direct := direct[t := direct[t] + 1];
      }
    }

    /** sunxi_tvtop_clk_put by a user that holds a reference: tvcap is not disabled while tvdisp has
        users. */
    method UserPut(t: int) returns (ret: int)
      requires Valid() && 0 <= t < 3 && direct[t] > 0
      modifies this
      ensures Valid() && ret == 0 && direct == old(direct)[t := old(direct[t]) - 1]
      ensures t == TVCAP && count[TVDISP] > 0 ==> count[TVCAP] > 0 && enabled[TVCAP] == old(enabled[TVCAP])
    {
      ret := Put(t);
      direct := direct[t := direct[t] - 1];
    }

    /** A put of tvcap by a user that holds no reference goes through whenever tvdisp has users, takes
        the reference that belongs to tvdisp, and disables tvcap under it. */
    method StrayPut() returns (ret: int)
      requires Valid() && direct[TVCAP] == 0 && count[TVDISP] > 0
      modifies this
      ensures ret == 0 && |count| == 3 && |enabled| == 3
      ensures count[TVCAP] == 0 && !enabled[TVCAP] && count[TVDISP] > 0
    {
      ret := Put(TVCAP);
    }
  }

  // --- Calls that overlap -------------------------------------------------------------------------------

  /** tvdisp's lock is held over the nested call, tvcap's is not: in between other threads may get and
      put tvcap and tvfe. */
  datatype Cascade = NoCascade | MustGet | MustPut

  datatype Refs = Refs(disp: nat, cap: nat, dispOn: bool, capOn: bool, dispUsers: int, capUsers: int, cascade: Cascade)

  datatype Op = GetDisp(ok: bool) | PutDisp | GetCap(ok: bool) | PutCap | NestedGet(ok: bool) | NestedPut

  function CapUp(r: Refs, ok: bool): Refs { r.(cap := r.cap + 1, capOn := r.capOn || (r.cap == 0 && ok)) }

  function CapDown(r: Refs): Refs {
    if r.cap == 0 then r else r.(cap := r.cap - 1, capOn := r.capOn && r.cap != 1)
  }

  /** A tvdisp operation waits while another one holds the lock. */
  function Next(r: Refs, op: Op): Refs {
    match op
    case GetDisp(ok) =>
      if r.cascade != NoCascade then r
      else r.(disp := r.disp + 1, dispUsers := r.dispUsers + 1, dispOn := r.dispOn || (r.disp == 0 && ok),
              cascade := if r.disp == 0 then MustGet else NoCascade)
    case PutDisp =>
      if r.cascade != NoCascade || r.disp == 0 then r
      else r.(disp := r.disp - 1, dispUsers := r.dispUsers - 1, dispOn := r.dispOn && r.disp != 1,
              cascade := if r.disp == 1 then MustPut else NoCascade)
    case GetCap(ok) => CapUp(r, ok).(capUsers := r.capUsers + 1)
    case PutCap => CapDown(r).(capUsers := r.capUsers - 1)
    case NestedGet(ok) => if r.cascade == MustGet then CapUp(r, ok).(cascade := NoCascade) else r
    case NestedPut => if r.cascade == MustPut then CapDown(r).(cascade := NoCascade) else r
  }

  /** The reference of tvdisp on tvcap. */
  function Share(r: Refs): int {
    match r.cascade
    case NoCascade => if r.disp > 0 then 1 else 0
    case MustGet => 0
    case MustPut => 1
  }

  predicate Inv(r: Refs) {
    && r.disp == r.dispUsers && r.capUsers >= 0 && r.cap == r.capUsers + Share(r)
    && (r.dispOn ==> r.disp > 0) && (r.capOn ==> r.cap > 0)
    && (r.cascade == MustGet ==> r.disp == 1) && (r.cascade == MustPut ==> r.disp == 0)
  }

  /** Users put only what they got. */
  predicate Entitled(r: Refs, op: Op) {
    (op.PutCap? ==> r.capUsers > 0) && (op.PutDisp? ==> r.dispUsers > 0)
  }

  lemma StepInv(r: Refs, op: Op)
    requires Inv(r) && Entitled(r, op)
    ensures Inv(Next(r, op))
  {
  }

  ghost predicate IsRun(rs: seq<Refs>, ops: seq<Op>) {
    && |rs| == |ops| + 1 && rs[0] == Refs(0, 0, false, false, 0, 0, NoCascade)
    && forall k | 0 <= k < |ops| :: Entitled(rs[k], ops[k]) && rs[k + 1] == Next(rs[k], ops[k])
  }

  lemma {:induction false} RunInv(rs: seq<Refs>, ops: seq<Op>, k: nat)
    requires IsRun(rs, ops) && k < |rs|
    ensures Inv(rs[k])
  {
    if k > 0 {
      RunInv(rs, ops, k - 1);
      StepInv(rs[k - 1], ops[k - 1]);
    }
  }

  /** The one step that takes tvcap down and leaves tvdisp up: the last direct user of tvcap puts it
      after the first tvdisp user has enabled tvdisp and before that user's nested get. */
  predicate InWindow(r: Refs, op: Op) { op.PutCap? && r.cascade == MustGet && r.capUsers == 1 }

  lemma DownUnderDispIff(r: Refs, op: Op)
    requires Inv(r) && Entitled(r, op)
    ensures r.disp > 0 && r.capOn ==> (Next(r, op).disp > 0 && !Next(r, op).capOn <==> InWindow(r, op))
  {
  }

  /** In every interleaving and under every pattern of enable failures: the count of tvcap is its own
      users plus the reference of tvdisp, which exists from the nested get to the nested put; enabled
      submodules have a positive count; a step takes tvcap down while tvdisp is up if and only if it
      falls into the window before the nested get. */
  lemma CascadeSafety(rs: seq<Refs>, ops: seq<Op>, k: nat)
    requires IsRun(rs, ops) && k < |ops|
    ensures rs[k].cap == rs[k].capUsers + Share(rs[k])
    ensures (rs[k].capOn ==> rs[k].cap > 0) && (rs[k].dispOn ==> rs[k].disp > 0)
    ensures rs[k].disp > 0 && rs[k].capOn ==>
              (rs[k + 1].disp > 0 && !rs[k + 1].capOn <==> InWindow(rs[k], ops[k]))
  {
    RunInv(rs, ops, k);
    var r, op, r' := rs[k], ops[k], rs[k + 1];
    assert r' == Next(r, op);
    DownUnderDispIff(r, op);
  }

  /** The next step of users that only give back. */
  function GiveBack(r: Refs): Op {
    match r.cascade
    case MustGet => NestedGet(true)
    case MustPut => NestedPut
    case NoCascade => if r.disp > 0 then PutDisp else PutCap
  }

  /** How far the users are from having given everything back. */
  function Owed(r: Refs): nat
    requires Inv(r)
  {
    3 * r.disp + r.capUsers + (if r.cascade == NoCascade then 0 else 1)
  }

  lemma GiveStep(r: Refs)
    requires Inv(r)
    ensures Owed(r) == 0 ==> r == Refs(0, 0, false, false, 0, 0, NoCascade)
    ensures Owed(r) > 0 ==>
              var r' := Next(r, GiveBack(r)); Entitled(r, GiveBack(r)) && Inv(r') && Owed(r') < Owed(r)
  {
    if Owed(r) > 0 { StepInv(r, GiveBack(r)); }
  }

  lemma LongerRun(rs: seq<Refs>, ops: seq<Op>, op: Op) returns (rs': seq<Refs>, ops': seq<Op>)
    requires IsRun(rs, ops) && Entitled(rs[|ops|], op)
    ensures rs' == rs + [Next(rs[|ops|], op)] && ops' == ops + [op] && IsRun(rs', ops')
  {
    rs', ops' := rs + [Next(rs[|ops|], op)], ops + [op];
    forall k | 0 <= k < |ops'| ensures Entitled(rs'[k], ops'[k]) && rs'[k + 1] == Next(rs'[k], ops'[k]) {
      if k < |ops| { assert Entitled(rs[k], ops[k]); }
    }
  }

  predicate Takes(op: Op) { op.GetDisp? || op.GetCap? }

  /** The second run goes on from the first without taking a reference. */
  ghost predicate GivesBack(rs: seq<Refs>, ops: seq<Op>, rs': seq<Refs>, ops': seq<Op>) {
    && IsRun(rs, ops) && IsRun(rs', ops') && rs <= rs' && ops <= ops'
    && forall k | |ops| <= k < |ops'| :: !Takes(ops'[k])
  }

  lemma OneGiven(rs: seq<Refs>, ops: seq<Op>) returns (rs': seq<Refs>, ops': seq<Op>)
    requires IsRun(rs, ops) && Inv(rs[|ops|]) && Owed(rs[|ops|]) > 0
    ensures GivesBack(rs, ops, rs', ops') && Inv(rs'[|ops'|]) && Owed(rs'[|ops'|]) < Owed(rs[|ops|])
  {
    GiveStep(rs[|ops|]);
    rs', ops' := LongerRun(rs, ops, GiveBack(rs[|ops|]));
  }

  lemma GivesOn(r1: seq<Refs>, o1: seq<Op>, r2: seq<Refs>, o2: seq<Op>, r3: seq<Refs>, o3: seq<Op>)
    requires GivesBack(r1, o1, r2, o2) && GivesBack(r2, o2, r3, o3)
    ensures GivesBack(r1, o1, r3, o3)
  {
    forall k | |o1| <= k < |o3| ensures !Takes(o3[k]) {
      if k < |o2| { assert o3[k] == o2[k]; }
    }
  }

  lemma {:induction false} AllGiven(rs: seq<Refs>, ops: seq<Op>, n: nat) returns (rs': seq<Refs>, ops': seq<Op>)
    requires IsRun(rs, ops) && Inv(rs[|ops|]) && Owed(rs[|ops|]) <= n
    ensures GivesBack(rs, ops, rs', ops') && Inv(rs'[|ops'|]) && Owed(rs'[|ops'|]) == 0
    decreases n
  {
    if Owed(rs[|ops|]) == 0 {
      rs', ops' := rs, ops;
    } else {
      var r1, o1 := OneGiven(rs, ops);
      rs', ops' := AllGiven(r1, o1, n - 1);
      GivesOn(rs, ops, r1, o1, rs', ops');
    }
  }

  /** Every run goes on, by puts and the nested calls they lead to, to the state before the first get: no
      reference is left over and both submodules are off. */
  lemma EveryRunCanEnd(rs: seq<Refs>, ops: seq<Op>) returns (rs': seq<Refs>, ops': seq<Op>)
    requires IsRun(rs, ops)
    ensures IsRun(rs', ops') && rs <= rs' && ops <= ops' && rs'[|ops'|] == rs[0]
    ensures forall k | |ops| <= k < |ops'| :: !Takes(ops'[k])
  {
    RunInv(rs, ops, |ops|);
    rs', ops' := AllGiven(rs, ops, Owed(rs[|ops|]));
    GiveStep(rs'[|ops'|]);
  }

  /** The window is reachable: a user of tvcap puts its reference while the first user of tvdisp is
      between the two enables, and tvdisp stays enabled with tvcap off until the nested get. */
  lemma CapDownInWindow() returns (rs: seq<Refs>, ops: seq<Op>)
    ensures IsRun(rs, ops) && |ops| == 3
    ensures rs[2].dispOn && rs[2].capOn && InWindow(rs[2], ops[2])
    ensures rs[3].dispOn && rs[3].disp == 1 && rs[3].cap == 0 && !rs[3].capOn
  {
    ops := [GetCap(true), GetDisp(true), PutCap];
    var r0 := Refs(0, 0, false, false, 0, 0, NoCascade);
    var r1 := Next(r0, ops[0]);
    var r2 := Next(r1, ops[1]);
    rs := [r0, r1, r2, Next(r2, ops[2])];
  }

  // --- When tvdisp is on and tvcap is off ------------------------------------------------------------------

  predicate Enables(op: Op) { (op.GetCap? || op.NestedGet?) && op.ok }

  /** The last of the first k steps that raised the count of tvcap from 0, or -1. */
  function CapRise(rs: seq<Refs>, k: nat): (j: int)
    requires k < |rs|
    ensures -1 <= j < k
  {
    if k == 0 then -1 else if rs[k - 1].cap == 0 && rs[k].cap > 0 then k - 1 else CapRise(rs, k - 1)
  }

  /** The last of the first k steps that raised the count of tvdisp from 0, or -1. */
  function DispRise(rs: seq<Refs>, k: nat): (j: int)
    requires k < |rs|
    ensures -1 <= j < k
  {
    if k == 0 then -1 else if rs[k - 1].disp == 0 && rs[k].disp > 0 then k - 1 else DispRise(rs, k - 1)
  }

  lemma DispStep(r: Refs, op: Op)
    requires Inv(r) && Entitled(r, op)
    ensures var r' := Next(r, op);
            && (r'.disp == 0 ==> !r'.dispOn)
            && (r'.disp > 0 && r.disp == 0 ==> (r'.dispOn <==> op.GetDisp? && op.ok))
            && (r'.disp > 0 && r.disp > 0 ==> r'.dispOn == r.dispOn)
  {
  }

  /** tvdisp is enabled if and only if it has users and the get of the first of them could enable it. */
  lemma {:induction false} DispOnIff(rs: seq<Refs>, ops: seq<Op>, k: nat)
    requires IsRun(rs, ops) && k < |rs|
    ensures rs[k].disp > 0 ==> DispRise(rs, k) >= 0
    ensures rs[k].dispOn <==> rs[k].disp > 0 && ops[DispRise(rs, k)] == GetDisp(true)
  {
    if k > 0 {
      DispOnIff(rs, ops, k - 1);
      RunInv(rs, ops, k - 1);
      var r, op := rs[k - 1], ops[k - 1];
      assert rs[k] == Next(r, op);
      DispStep(r, op);
    }
  }

  lemma CapStep(r: Refs, op: Op)
    requires Inv(r) && Entitled(r, op)
    ensures var r' := Next(r, op);
            && (r'.cap == 0 ==> !r'.capOn)
            && (r'.cap > 0 && r.cap == 0 ==> (r'.capOn <==> Enables(op)))
            && (r'.cap > 0 && r.cap > 0 ==> r'.capOn == r.capOn)
  {
  }

  /** tvcap is enabled if and only if it has references and the get that took the first of them could
      enable it: later gets do not try again. */
  lemma {:induction false} CapOnIff(rs: seq<Refs>, ops: seq<Op>, k: nat)
    requires IsRun(rs, ops) && k < |rs|
    ensures rs[k].cap > 0 ==> CapRise(rs, k) >= 0
    ensures rs[k].capOn <==> rs[k].cap > 0 && Enables(ops[CapRise(rs, k)])
  {
    if k > 0 {
      CapOnIff(rs, ops, k - 1);
      RunInv(rs, ops, k - 1);
      var r, op := rs[k - 1], ops[k - 1];
      assert rs[k] == Next(r, op);
      CapStep(r, op);
    }
  }

  /** In every interleaving tvdisp is on with tvcap off if and only if its first user has not yet made the
      nested get and tvcap has no user of its own, or the get that took the first of the present
      references to tvcap failed to enable it. */
  lemma DispWithoutCapIff(rs: seq<Refs>, ops: seq<Op>, k: nat)
    requires IsRun(rs, ops) && k < |rs| && rs[k].dispOn
    ensures rs[k].cap > 0 ==> CapRise(rs, k) >= 0
    ensures !rs[k].capOn <==>
            (rs[k].cascade == MustGet && rs[k].capUsers == 0) || (rs[k].cap > 0 && !Enables(ops[CapRise(rs, k)]))
  {
    RunInv(rs, ops, k);
    CapOnIff(rs, ops, k);
  }

  /** A failed first get of tvcap is never made up for: tvdisp comes up over it and tvcap stays off. */
  lemma CapNeverEnabled() returns (rs: seq<Refs>, ops: seq<Op>)
    ensures IsRun(rs, ops) && |ops| == 3
    ensures rs[3].dispOn && rs[3].cascade == NoCascade && rs[3].cap == 2 && !rs[3].capOn
  {
    ops := [GetCap(false), GetDisp(true), NestedGet(true)];
    var r0 := Refs(0, 0, false, false, 0, 0, NoCascade);
    var r1 := Next(r0, ops[0]);
    var r2 := Next(r1, ops[1]);
    rs := [r0, r1, r2, Next(r2, ops[2])];
  }
}
