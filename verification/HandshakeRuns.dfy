/** Runs of the handshake: from every state in which a token is in flight and nobody is stuck the
    waiting sender can still be woken, and every way to get stuck is taken by some run of the two
    CPUs. */
module HandshakeRuns {
  import opened Handshake
  import Pair = CpuPair

  // --- Steps of a channel are actions of the two CPUs ---------------------------------------------

  /** The action that takes step `st` of the channel of sender c in direction d. */
  function ActionOf(c: nat, d: nat, st: ChanStep): Pair.Action
    requires c <= 1
  {
    match st
    case S(x) => Pair.Send(c, d, x)
    case R(x) => Pair.Recv(1 - c, d, x)
  }

  lemma StepIsAction(s: Pair.Sys, c: nat, d: nat, st: ChanStep)
    requires Pair.Inv(s) && c <= 1 && d <= 1 && StepEnabled(Pair.View(s, c, d), d, st)
    ensures var a := ActionOf(c, d, st);
            && Pair.Enabled(s, a) && Pair.Wf(Pair.Apply(s, a))
            && Pair.View(Pair.Apply(s, a), c, d) == After(Pair.View(s, c, d), d, st)
  {
    Pair.ActionViews(s, ActionOf(c, d, st), c, d);
  }

  /** `tr2`, `acts2` is a run that goes on from `tr`, `acts` and in which the channel goes through `vs`. */
  ghost predicate GoesOn(tr: seq<Pair.Sys>, acts: seq<Pair.Action>, tr2: seq<Pair.Sys>, acts2: seq<Pair.Action>,
                         c: nat, d: nat, vs: seq<Chan>) {
    && Pair.IsRun(tr2, acts2) && tr <= tr2 && acts <= acts2 && c <= 1 && d <= 1 && |vs| >= 1
    && |acts2| + 1 == |acts| + |vs|
    && forall k | 0 <= k < |vs| :: Shows(tr2[|acts| + k], c, d, vs[k])
  }

  predicate Shows(s: Pair.Sys, c: nat, d: nat, v: Chan)
    requires c <= 1 && d <= 1
  {
    Pair.Wf(s) && Pair.View(s, c, d) == v
  }

  /** Whatever a channel can do from the end of a run, some longer run of the two CPUs does. */
  lemma {:induction false} ChannelStepsAreRuns(tr: seq<Pair.Sys>, acts: seq<Pair.Action>, c: nat, d: nat,
                                               vs: seq<Chan>, sts: seq<ChanStep>)
      returns (tr2: seq<Pair.Sys>, acts2: seq<Pair.Action>)
    requires Pair.IsRun(tr, acts) && c <= 1 && d <= 1 && Continues(vs, sts, d)
    requires Pair.Wf(tr[|acts|]) && vs[0] == Pair.View(tr[|acts|], c, d)
    ensures GoesOn(tr, acts, tr2, acts2, c, d, vs)
    decreases |sts|
  {
    if sts == [] {
      tr2, acts2 := tr, acts;
    } else {
      var n := |sts| - 1;
      tr2, acts2 := ChannelStepsAreRuns(tr, acts, c, d, vs[..n + 1], sts[..n]);
      tr2, acts2 := OneMore(tr, acts, tr2, acts2, c, d, vs, sts[n]);
    }
  }

  lemma OneMore(tr: seq<Pair.Sys>, acts: seq<Pair.Action>, tr1: seq<Pair.Sys>, acts1: seq<Pair.Action>,
                c: nat, d: nat, vs: seq<Chan>, st: ChanStep)
      returns (tr2: seq<Pair.Sys>, acts2: seq<Pair.Action>)
    requires |vs| >= 2 && GoesOn(tr, acts, tr1, acts1, c, d, vs[..|vs| - 1])
    requires StepEnabled(vs[|vs| - 2], d, st) && vs[|vs| - 1] == After(vs[|vs| - 2], d, st)
    ensures GoesOn(tr, acts, tr2, acts2, c, d, vs)
  {
    var n := |vs| - 2;
    assert Shows(tr1[|acts| + n], c, d, vs[..n + 1][n]);
    var s', a := LongerRun(tr1, acts1, c, d, st);
    tr2, acts2 := tr1 + [s'], acts1 + [a];
    Appended(tr, acts, tr1, acts1, c, d, vs, s', a);
  }

  lemma LongerRun(tr: seq<Pair.Sys>, acts: seq<Pair.Action>, c: nat, d: nat, st: ChanStep)
      returns (s': Pair.Sys, a: Pair.Action)
    requires Pair.IsRun(tr, acts) && c <= 1 && d <= 1 && Pair.Wf(tr[|acts|])
    requires StepEnabled(Pair.View(tr[|acts|], c, d), d, st)
    ensures Pair.IsRun(tr + [s'], acts + [a])
    ensures Pair.Wf(s') && Pair.View(s', c, d) == After(Pair.View(tr[|acts|], c, d), d, st)
  {
    var s := tr[|acts|];
    Pair.RunInv(tr, acts, |acts|);
    StepIsAction(s, c, d, st);
    a := ActionOf(c, d, st);
    s' := Pair.Apply(s, a);
    Pair.ExtendRun(tr, acts, a, s');
  }

  lemma Appended(tr: seq<Pair.Sys>, acts: seq<Pair.Action>, tr1: seq<Pair.Sys>, acts1: seq<Pair.Action>,
                 c: nat, d: nat, vs: seq<Chan>, s': Pair.Sys, a: Pair.Action)
    requires |vs| >= 2 && GoesOn(tr, acts, tr1, acts1, c, d, vs[..|vs| - 1])
    requires Pair.IsRun(tr1 + [s'], acts1 + [a]) && Pair.Wf(s') && Pair.View(s', c, d) == vs[|vs| - 1]
    ensures GoesOn(tr, acts, tr1 + [s'], acts1 + [a], c, d, vs)
  {
    var tr2, n := tr1 + [s'], |vs| - 1;
    forall k | 0 <= k < |vs| ensures Shows(tr2[|acts| + k], c, d, vs[k]) {
      if k < n { assert Shows(tr1[|acts| + k], c, d, vs[..n][k]); }
    }
  }

  // --- Steps of one channel --------------------------------------------------------------------------

  /** One more step at the end. */
  lemma Push(vs: seq<Chan>, sts: seq<ChanStep>, d: nat, st: ChanStep) returns (ws: seq<Chan>, us: seq<ChanStep>)
    requires Continues(vs, sts, d) && StepEnabled(vs[|sts|], d, st)
    ensures us == sts + [st] && ws == vs + [After(vs[|sts|], d, st)]
    ensures Continues(ws, us, d) && ChanInv(ws[|us|])
  {
    ws, us := vs + [After(vs[|sts|], d, st)], sts + [st];
    StuckForGood(ws, us, d, |us|);
  }

  /** A step in front. */
  lemma Prepend(v: Chan, st: ChanStep, ws: seq<Chan>, us: seq<ChanStep>, d: nat)
    requires ChanInv(v) && StepEnabled(v, d, st) && Continues(ws, us, d) && ws[0] == After(v, d, st)
    ensures Continues([v] + ws, [st] + us, d)
  {
    forall k | 0 <= k < |us| + 1
      ensures StepEnabled(([v] + ws)[k], d, ([st] + us)[k])
      ensures ([v] + ws)[k + 1] == After(([v] + ws)[k], d, ([st] + us)[k])
    {
      if k > 0 { assert StepEnabled(ws[k - 1], d, us[k - 1]); }
    }
  }

  /** A sender whose token is in flight is woken after at most 16 more steps of some continuation,
      as long as neither side is stuck. */
  lemma {:induction false} CanBeWoken(v: Chan, d: nat) returns (vs: seq<Chan>, sts: seq<ChanStep>)
    requires ChanInv(v) && InFlight(v) && !SenderStuck(v) && !ReceiverStuck(v)
    ensures Continues(vs, sts, d) && vs[0] == v && |sts| <= Remaining(v) + 1 <= 16
    ensures !HasPosted(vs[|sts|]) && vs[|sts|].snd.woken == v.snd.woken + 1
    decreases Remaining(v)
  {
    TokenCanAdvance(v, d);
    var st := NextStep(v);
    if Remaining(v) == 0 {
      vs, sts := [v, After(v, d, st)], [st];
    } else {
      var ws, us := CanBeWoken(After(v, d, st), d);
      Prepend(v, st, ws, us, d);
      vs, sts := [v] + ws, [st] + us;
    }
  }

  // --- Posting a message ----------------------------------------------------------------------------------

  /** The sender has done n stores of SendCommLow; the receiver is as it was in v. */
  predicate Stored(v: Chan, w: Chan, m: Msg, n: nat) {
    && |w.snd.inside| == 1 && w.snd.inside[0].phase == (if n == 0 then Filled(m) else Posting(m, n))
    && w.rcv == v.rcv && w.snd.posted == v.snd.posted
  }

  lemma {:induction false} Stores(v: Chan, d: nat, m: Msg, n: nat) returns (vs: seq<Chan>, sts: seq<ChanStep>)
    requires ChanInv(v) && v.snd.inside == [] && m.slot < FREE_SLOT && n <= MSG_STORES
    ensures Continues(vs, sts, d) && vs[0] == v && ChanInv(vs[|sts|]) && Stored(v, vs[|sts|], m, n)
  {
    if n == 0 {
      vs, sts := Push([v], [], d, S(Acquire(0)));
      vs, sts := Push(vs, sts, d, S(Fill(0, m)));
    } else {
      vs, sts := Stores(v, d, m, n - 1);
      vs, sts := Push(vs, sts, d, S(StoreMsg(0)));
    }
  }

  /** A message is on its way and its sender is about to read the sent bit back. */
  predicate JustPosted(v: Chan, w: Chan, m: Msg) {
    && |w.snd.inside| == 1 && w.snd.inside[0].phase.Marked? && Sent(w.msg.status) && w.rcv == v.rcv
    && w.snd.posted == v.snd.posted + [m]
  }

  /** From any channel that nobody is sending on a message can be posted. */
  lemma CanPost(v: Chan, d: nat, m: Msg) returns (vs: seq<Chan>, sts: seq<ChanStep>)
    requires ChanInv(v) && v.snd.inside == [] && m.slot < FREE_SLOT
    ensures Continues(vs, sts, d) && vs[0] == v && ChanInv(vs[|sts|]) && JustPosted(v, vs[|sts|], m)
  {
    vs, sts := Stores(v, d, m, MSG_STORES);
    vs, sts := Push(vs, sts, d, S(MarkSent(0)));
  }

  // --- A channel that is not stuck can always be used again ----------------------------------------------

  predicate Idling(v: Chan) { v.snd.inside == [] && v.snd.sendSem == 1 && v.rcv.cmd == Idle }

  predicate Unstuck(v: Chan) { !SenderStuck(v) && !ReceiverStuck(v) && !Stranded(v) }

  /** A sender that has not posted, or has been woken, leaves. */
  lemma Leaves(vs: seq<Chan>, sts: seq<ChanStep>, d: nat) returns (ws: seq<Chan>, us: seq<ChanStep>)
    requires Continues(vs, sts, d) && Unstuck(vs[|sts|])
    requires var v := vs[|sts|];
             |v.snd.inside| == 1 &&
             (v.snd.inside[0].phase == Holding || v.snd.inside[0].phase.Filled? || v.snd.inside[0].phase == Woken)
    ensures Continues(ws, us, d) && ws[0] == vs[0] && Idling(ws[|us|])
  {
    StuckForGood(vs, sts, d, |sts|);
    ws, us := Push(vs, sts, d, S(Release(0)));
  }

  /** A sender in the middle of SendCommLow posts its message. */
  lemma {:induction false} Completes(vs: seq<Chan>, sts: seq<ChanStep>, d: nat)
      returns (ws: seq<Chan>, us: seq<ChanStep>)
    requires Continues(vs, sts, d) && Unstuck(vs[|sts|])
    requires |vs[|sts|].snd.inside| == 1 && vs[|sts|].snd.inside[0].phase.Posting?
    ensures Continues(ws, us, d) && ws[0] == vs[0] && InFlight(ws[|us|]) && Unstuck(ws[|us|])
    decreases MSG_STORES - vs[|sts|].snd.inside[0].phase.stores
  {
    StuckForGood(vs, sts, d, |sts|);
    if vs[|sts|].snd.inside[0].phase.stores == MSG_STORES {
      ws, us := Push(vs, sts, d, S(MarkSent(0)));
    } else {
      ws, us := Push(vs, sts, d, S(StoreMsg(0)));
      ws, us := Completes(ws, us, d);
    }
  }

  lemma {:induction false} Wakens(vs: seq<Chan>, sts: seq<ChanStep>, d: nat) returns (ws: seq<Chan>, us: seq<ChanStep>)
    requires Continues(vs, sts, d) && InFlight(vs[|sts|]) && Unstuck(vs[|sts|])
    ensures Continues(ws, us, d) && ws[0] == vs[0] && Unstuck(ws[|us|])
    ensures |ws[|us|].snd.inside| == 1 && ws[|us|].snd.inside[0].phase == Woken
    decreases Remaining(vs[|sts|])
  {
    var v := vs[|sts|];
    StuckForGood(vs, sts, d, |sts|);
    TokenCanAdvance(v, d);
    ws, us := Push(vs, sts, d, NextStep(v));
    if Remaining(v) > 0 { ws, us := Wakens(ws, us, d); }
  }

  /** Nothing but a spin or a RETURN without waiter stops a channel: from every other state some
      continuation leads to a free channel with an idle receiver. */
  lemma CanBecomeIdle(v: Chan, d: nat) returns (ws: seq<Chan>, us: seq<ChanStep>)
    requires ChanInv(v) && Unstuck(v)
    ensures Continues(ws, us, d) && ws[0] == v && Idling(ws[|us|])
  {
    ws, us := [v], [];
    if v.snd.inside != [] {
      if v.snd.inside[0].phase.Posting? { ws, us := Completes(ws, us, d); }
      var w := ws[|us|];
      if HasPosted(w) { ws, us := Wakens(ws, us, d); }
      ws, us := Leaves(ws, us, d);
    }
  }

  // --- How a side gets stuck ---------------------------------------------------------------------------------

  /** The doorbell is served before the sender has read its bit back. */
  lemma SenderGetsStuck(v: Chan, d: nat, m: Msg) returns (vs: seq<Chan>, sts: seq<ChanStep>)
    requires ChanInv(v) && v.snd.inside == [] && m.slot < FREE_SLOT
    ensures Continues(vs, sts, d) && vs[0] == v && SenderStuck(vs[|sts|])
  {
    vs, sts := CanPost(v, d, m);
    vs, sts := Push(vs, sts, d, R(Doorbell));
  }

  /** A RETURN whose waiter is not found. */
  lemma SenderGetsStranded(v: Chan, m: Msg) returns (vs: seq<Chan>, sts: seq<ChanStep>)
    requires ChanInv(v) && v.snd.inside == [] && m.slot < FREE_SLOT && v.rcv.cmd == Idle
    ensures Continues(vs, sts, 1) && vs[0] == v && Stranded(vs[|sts|])
  {
    vs, sts := CanPost(v, 1, m);
    vs, sts := Push(vs, sts, 1, S(SeeSent(0)));
    vs, sts := Push(vs, sts, 1, R(Doorbell));
    vs, sts := Push(vs, sts, 1, R(StartCmd));
    vs, sts := Push(vs, sts, 1, R(Dispatch(false)));
  }

  /** Up to the ACK the token moves one place with every step. */
  lemma OnePlace(v: Chan, d: nat)
    requires ChanInv(v) && InFlight(v) && !SenderStuck(v) && !ReceiverStuck(v) && Remaining(v) > 4
    ensures StepEnabled(v, d, NextStep(v)) && Remaining(After(v, d, NextStep(v))) == Remaining(v) - 1
  {
  }

  lemma {:induction false} ToTheAck(vs: seq<Chan>, sts: seq<ChanStep>, d: nat)
      returns (ws: seq<Chan>, us: seq<ChanStep>)
    requires Continues(vs, sts, d)
    requires var v := vs[|sts|]; InFlight(v) && !SenderStuck(v) && !ReceiverStuck(v) && Remaining(v) >= 4
    ensures Continues(ws, us, d) && ws[0] == vs[0]
    ensures var w := ws[|us|]; ChanInv(w) && InFlight(w) && !ReceiverStuck(w) && Remaining(w) == 4
    decreases Remaining(vs[|sts|])
  {
    var v := vs[|sts|];
    StuckForGood(vs, sts, d, |sts|);
    if Remaining(v) == 4 {
      ws, us := vs, sts;
    } else {
      TokenCanAdvance(v, d);
      OnePlace(v, d);
      ws, us := Push(vs, sts, d, NextStep(v));
      ws, us := ToTheAck(ws, us, d);
    }
  }

  /** The ACK is consumed before the receiver has read its bit back. */
  lemma ReceiverGetsStuck(vs: seq<Chan>, sts: seq<ChanStep>, d: nat) returns (ws: seq<Chan>, us: seq<ChanStep>)
    requires Continues(vs, sts, d)
    requires var v := vs[|sts|]; InFlight(v) && !SenderStuck(v) && !ReceiverStuck(v) && Remaining(v) >= 4
    ensures Continues(ws, us, d) && ws[0] == vs[0] && ReceiverStuck(ws[|us|])
  {
    ws, us := ToTheAck(vs, sts, d);
    ws, us := Push(ws, us, d, S(AckDoorbell));
    ws, us := Push(ws, us, d, S(StartAck));
  }

  // --- The same as runs of the two CPUs --------------------------------------------------------------------

  /** The initial state alone is a run at whose end nobody sends or handles a message. */
  lemma InitIsARun(s: Pair.Sys, c: nat, d: nat)
    requires Pair.Init(s) && c <= 1 && d <= 1
    ensures EndsIdle([s], [], c, d)
  {
    Pair.RunInv([s], [], 0);
    assert ChanInv(Pair.View(s, c, d));
  }

  /** At the end of the run nobody is sending on the channel and its receiver is idle. */
  ghost predicate EndsIdle(tr: seq<Pair.Sys>, acts: seq<Pair.Action>, c: nat, d: nat) {
    && Pair.IsRun(tr, acts) && c <= 1 && d <= 1 && Pair.Wf(tr[|acts|])
    && var v := Pair.View(tr[|acts|], c, d); v.snd.inside == [] && v.rcv.cmd == Idle
  }

  /** Every run of the two CPUs in which a channel is neither stuck nor stranded goes on to one at whose
      end that channel is free again, and from there any message can be posted. */
  lemma EveryRunCanSendAgain(tr: seq<Pair.Sys>, acts: seq<Pair.Action>, c: nat, d: nat, m: Msg)
      returns (tr1: seq<Pair.Sys>, acts1: seq<Pair.Action>, tr2: seq<Pair.Sys>, acts2: seq<Pair.Action>)
    requires Pair.IsRun(tr, acts) && c <= 1 && d <= 1 && Pair.Wf(tr[|acts|]) && Unstuck(Pair.View(tr[|acts|], c, d))
    requires m.slot < FREE_SLOT
    ensures EndsIdle(tr1, acts1, c, d) && tr <= tr1 && acts <= acts1
    ensures Pair.IsRun(tr2, acts2) && tr1 <= tr2 && acts1 <= acts2 && Pair.Wf(tr2[|acts2|])
    ensures Pair.View(tr2[|acts2|], c, d).snd.posted == Pair.View(tr1[|acts1|], c, d).snd.posted + [m]
  {
    Pair.RunInv(tr, acts, |acts|);
    assert ChanInv(Pair.View(tr[|acts|], c, d));
    var vs, sts := CanBecomeIdle(Pair.View(tr[|acts|], c, d), d);
    tr1, acts1 := ChannelStepsAreRuns(tr, acts, c, d, vs, sts);
    assert Shows(tr1[|acts| + |sts|], c, d, vs[|sts|]);
    tr2, acts2 := PostRun(tr1, acts1, c, d, m);
  }

  lemma PostRun(tr: seq<Pair.Sys>, acts: seq<Pair.Action>, c: nat, d: nat, m: Msg)
      returns (tr2: seq<Pair.Sys>, acts2: seq<Pair.Action>)
    requires EndsIdle(tr, acts, c, d) && m.slot < FREE_SLOT
    ensures Pair.IsRun(tr2, acts2) && tr <= tr2 && acts <= acts2 && Pair.Wf(tr2[|acts2|])
    ensures Pair.View(tr2[|acts2|], c, d).snd.posted == Pair.View(tr[|acts|], c, d).snd.posted + [m]
  {
    Pair.RunInv(tr, acts, |acts|);
    assert ChanInv(Pair.View(tr[|acts|], c, d));
    var vs, sts := CanPost(Pair.View(tr[|acts|], c, d), d, m);
    tr2, acts2 := ChannelStepsAreRuns(tr, acts, c, d, vs, sts);
    assert Shows(tr2[|acts| + |sts|], c, d, vs[|sts|]);
  }

  /** Every such run goes on to a sender that spins for ever. */
  lemma SenderStuckRun(tr: seq<Pair.Sys>, acts: seq<Pair.Action>, c: nat, d: nat)
      returns (tr2: seq<Pair.Sys>, acts2: seq<Pair.Action>)
    requires EndsIdle(tr, acts, c, d)
    ensures Pair.IsRun(tr2, acts2) && tr <= tr2 && acts <= acts2 && Pair.Wf(tr2[|acts2|])
    ensures SenderStuck(Pair.View(tr2[|acts2|], c, d))
  {
    Pair.RunInv(tr, acts, |acts|);
    assert ChanInv(Pair.View(tr[|acts|], c, d));
    var vs, sts := SenderGetsStuck(Pair.View(tr[|acts|], c, d), d, Msg(0, 0));
    tr2, acts2 := ChannelStepsAreRuns(tr, acts, c, d, vs, sts);
    assert Shows(tr2[|acts| + |sts|], c, d, vs[|sts|]);
  }

  /** On the RETURN channels it also goes on to a sender that is never acknowledged. */
  lemma StrandedRun(tr: seq<Pair.Sys>, acts: seq<Pair.Action>, c: nat)
      returns (tr2: seq<Pair.Sys>, acts2: seq<Pair.Action>)
    requires EndsIdle(tr, acts, c, 1)
    ensures Pair.IsRun(tr2, acts2) && tr <= tr2 && acts <= acts2 && Pair.Wf(tr2[|acts2|])
    ensures Stranded(Pair.View(tr2[|acts2|], c, 1))
  {
    Pair.RunInv(tr, acts, |acts|);
    assert ChanInv(Pair.View(tr[|acts|], c, 1));
    var vs, sts := SenderGetsStranded(Pair.View(tr[|acts|], c, 1), Msg(0, 0));
    tr2, acts2 := ChannelStepsAreRuns(tr, acts, c, 1, vs, sts);
    assert Shows(tr2[|acts| + |sts|], c, 1, vs[|sts|]);
  }

  /** And to a receiver that spins for ever. */
  lemma ReceiverStuckRun(tr: seq<Pair.Sys>, acts: seq<Pair.Action>, c: nat, d: nat)
      returns (tr2: seq<Pair.Sys>, acts2: seq<Pair.Action>)
    requires EndsIdle(tr, acts, c, d)
    ensures Pair.IsRun(tr2, acts2) && tr <= tr2 && acts <= acts2 && Pair.Wf(tr2[|acts2|])
    ensures ReceiverStuck(Pair.View(tr2[|acts2|], c, d))
  {
    Pair.RunInv(tr, acts, |acts|);
    assert ChanInv(Pair.View(tr[|acts|], c, d));
    var vs, sts := CanPost(Pair.View(tr[|acts|], c, d), d, Msg(0, 0));
    vs, sts := ReceiverGetsStuck(vs, sts, d);
    tr2, acts2 := ChannelStepsAreRuns(tr, acts, c, d, vs, sts);
    assert Shows(tr2[|acts| + |sts|], c, d, vs[|sts|]);
  }

  /** Every run that ends with a token in flight and neither side stuck goes on, by at most 16 actions,
      to the wake-up of the waiting sender. */
  lemma EveryRunCanWake(tr: seq<Pair.Sys>, acts: seq<Pair.Action>, c: nat, d: nat)
      returns (tr2: seq<Pair.Sys>, acts2: seq<Pair.Action>)
    requires Pair.IsRun(tr, acts) && c <= 1 && d <= 1 && Pair.Wf(tr[|acts|])
    requires var v := Pair.View(tr[|acts|], c, d); InFlight(v) && !SenderStuck(v) && !ReceiverStuck(v)
    ensures Pair.IsRun(tr2, acts2) && tr <= tr2 && acts <= acts2 && |acts2| <= |acts| + 16
    ensures Pair.Wf(tr2[|acts2|])
    ensures Pair.View(tr2[|acts2|], c, d).snd.woken == Pair.View(tr[|acts|], c, d).snd.woken + 1
  {
    Pair.RunInv(tr, acts, |acts|);
    assert ChanInv(Pair.View(tr[|acts|], c, d));
    var vs, sts := CanBeWoken(Pair.View(tr[|acts|], c, d), d);
    tr2, acts2 := ChannelStepsAreRuns(tr, acts, c, d, vs, sts);
    assert Shows(tr2[|acts| + |sts|], c, d, vs[|sts|]);
  }
}
