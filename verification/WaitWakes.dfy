/** The semaphores inside the wait objects.  A RETURN raises the semaphore of the object whose session
    word it matches, also when the call is over: the word is written when an object is taken and stays
    when the object is given back, and nobody resets the count. */
module WaitWakes {
  import opened Common
  import opened Pools
  import opened WaitRuns
  import H = Handshake

  /** `stamp` and `sem` are the session word and the semaphore of every object.  Two auxiliary variables
      that no step reads: `left` is the count that a caller's object had when it was taken, `own` counts
      the RETURNs that reached the object since. */
  datatype World = World(s: State, stamp: seq<int>, sem: seq<nat>, left: seq<nat>, own: seq<nat>)

  datatype Event =
    | Does(t: Step)                 // a step of a caller, other than the end of its wait
    | Wakes(i: nat)                 // the wait ends because the semaphore was raised
    | GivesUp(i: nat)               // the wait times out
    | Searched(id: int)             // a RETURN whose waiter is searched in the wait list
    | Pointed(id: int, o: nat)      // a RETURN that carries the address of a wait object, or of none

  predicate Shaped(w: World) {
    && |w.stamp| == POOL && |w.sem| == POOL && |w.s.spots| == POOL
    && |w.left| == |w.s.callers| && |w.own| == |w.s.callers| && |w.s.kinds| == |w.s.callers|
  }

  /** The object whose semaphore command_action raises, if it finds one. */
  function Accepted(w: World, e: Event): Option<nat>
    requires Shaped(w)
  {
    match e
    case Searched(id) =>
      var k := First(Sessions(w.s.list), id);
      if k < |w.s.list| && w.s.list[k].obj < POOL && w.stamp[w.s.list[k].obj] == id then Some(w.s.list[k].obj) else None
    case Pointed(id, o) => if o < POOL && w.stamp[o] == id then Some(o) else None
    case _ => None
  }

  predicate Takes(w: World, e: Event) {
    && e.Does? && e.t.GetFree? && e.t.i < |w.s.callers| && w.s.callers[e.t.i].Starting? && w.s.free != []
    && w.s.free[0] < POOL
  }

  /** The caller has object o and its wait is not over. */
  predicate Awaits(c: Caller, o: nat) { Waiting(c) && c.obj == o }

  predicate Waiting(c: Caller) { c.Holding? || c.Sending? || c.Answering? || c.Expired? }

  predicate Ok(w: World, e: Event) {
    && Shaped(w)
    && match e
       case Does(t) => t.i < |w.s.callers| && !t.Return? && NewSession(w.s, t)
       case Wakes(i) =>
         i < |w.s.callers| && w.s.callers[i].Answering? && w.s.callers[i].obj < POOL && w.sem[w.s.callers[i].obj] > 0
       case GivesUp(i) => i < |w.s.callers| && w.s.callers[i].Answering?
       case _ => true
  }

  function Raise(w: World, o: nat): World
    requires Shaped(w) && o < POOL
  {
    w.(sem := w.sem[o := w.sem[o] + 1],
       own := seq(|w.own|, j requires 0 <= j < |w.own| => w.own[j] + (if Awaits(w.s.callers[j], o) then 1 else 0)))
  }

  function After(w: World, e: Event): World
    requires Ok(w, e)
  {
    match e
    case Does(t) =>
      if Takes(w, e) then
        var o := w.s.free[0];
        World(Next(w.s, t), w.stamp[o := t.session], w.sem, w.left[t.i := w.sem[o]], w.own[t.i := 0])
      else w.(s := Next(w.s, t))
    case Wakes(i) =>
      var o := w.s.callers[i].obj;
      w.(s := Next(w.s, Return(i)), sem := w.sem[o := w.sem[o] - 1])
    case GivesUp(i) => w.(s := Next(w.s, Return(i)))
    case _ => if Accepted(w, e).Some? then Raise(w, Accepted(w, e).value) else w
  }

  // --- The invariant -------------------------------------------------------------------------------------

  /** The object of a waiting caller carries the caller's session, and its count is what was left in it
      plus the RETURNs since. */
  predicate WaitOk(w: World, i: nat)
    requires Shaped(w) && i < |w.s.callers|
  {
    var c := w.s.callers[i];
    Waiting(c) ==> c.obj < POOL && w.stamp[c.obj] == c.session && w.sem[c.obj] == w.left[i] + w.own[i]
  }

  predicate WInv(w: World) {
    && Shaped(w) && Inv(w.s)
    && (forall i: nat | i < |w.s.callers| :: WaitOk(w, i))
    && (forall i: nat | i < |w.s.callers| && w.s.callers[i].Finishing? ::
          w.s.callers[i].obj < POOL && w.stamp[w.s.callers[i].obj] == w.s.callers[i].session)
    && forall k | 0 <= k < |w.s.list| :: w.s.list[k].obj < POOL && w.stamp[w.s.list[k].obj] == w.s.list[k].session
  }

  /** Two callers have different objects, and none has one that is in the FIFO. */
  lemma ObjectsDiffer(s: State, i: nat, j: nat)
    requires Inv(s) && i < |s.callers| && j < |s.callers| && HasObject(s.callers[i])
    ensures HasObject(s.callers[j]) && i != j ==> s.callers[i].obj != s.callers[j].obj
    ensures s.free != [] ==> s.callers[i].obj != s.free[0]
  {
    assert s.spots[s.callers[i].obj] == SpotOf(s.callers[i], i);
    if HasObject(s.callers[j]) { assert s.spots[s.callers[j].obj] == SpotOf(s.callers[j], j); }
  }

  lemma ListedNotFree(s: State, k: nat)
    requires Inv(s) && k < |s.list| && s.free != []
    ensures s.list[k].obj != s.free[0]
  {
    assert EntryOk(s, s.list[k]);
  }

  lemma TakeKeeps(w: World, e: Event)
    requires WInv(w) && Ok(w, e) && Takes(w, e)
    ensures WInv(After(w, e))
  {
    var w', o := After(w, e), w.s.free[0];
    StepKeeps(w.s, e.t);
    forall i: nat | i < |w'.s.callers| ensures WaitOk(w', i) {
      assert WaitOk(w, i);
      if i != e.t.i && HasObject(w.s.callers[i]) { ObjectsDiffer(w.s, i, i); }
    }
    forall i: nat | i < |w'.s.callers| && w'.s.callers[i].Finishing?
      ensures w'.s.callers[i].obj < POOL && w'.stamp[w'.s.callers[i].obj] == w'.s.callers[i].session
    {
      ObjectsDiffer(w.s, i, i);
    }
    forall k | 0 <= k < |w'.s.list|
      ensures w'.s.list[k].obj < POOL && w'.stamp[w'.s.list[k].obj] == w'.s.list[k].session
    {
      ListedNotFree(w.s, k);
    }
  }

  /** Steps of a caller that take no object: waiting callers keep object and session. */
  lemma StepPhases(s: State, t: Step, i: nat)
    requires t.i < |s.callers| && |s.kinds| == |s.callers| && |s.spots| == POOL && i < |s.callers|
    requires !(t.GetFree? && s.callers[t.i].Starting? && s.free != [])
    ensures |Next(s, t).callers| == |s.callers|
    ensures var c, c' := s.callers[i], Next(s, t).callers[i];
            && (Waiting(c') ==> Waiting(c) && c'.obj == c.obj && c'.session == c.session)
            && (c'.Finishing? ==> (c.Finishing? || c.Answering?) && c'.obj == c.obj && c'.session == c.session)
  {
  }

  lemma StepList(s: State, t: Step, e: Entry)
    requires t.i < |s.callers| && |s.kinds| == |s.callers| && |s.spots| == POOL && e in Next(s, t).list
    ensures e in s.list || (s.callers[t.i].Holding? && e == Entry(s.callers[t.i].obj, s.callers[t.i].session))
  {
    if t.Unlink? && (s.callers[t.i].Expired? || s.callers[t.i].Finishing?) {
      var k := First(Sessions(s.list), s.callers[t.i].session);
      if k < |s.list| { WithoutPart(s.list, k, e); }
    }
  }

  lemma DoKeeps(w: World, e: Event)
    requires WInv(w) && Ok(w, e) && e.Does? && !Takes(w, e)
    ensures WInv(After(w, e))
  {
    var w' := After(w, e);
    StepKeeps(w.s, e.t);
    if w.s.free != [] { assert w.s.free[0] < POOL; }
    forall i: nat | i < |w'.s.callers| ensures WaitOk(w', i) {
      StepPhases(w.s, e.t, i);
      assert WaitOk(w, i);
    }
    forall i: nat | i < |w'.s.callers| && w'.s.callers[i].Finishing?
      ensures w'.s.callers[i].obj < POOL && w'.stamp[w'.s.callers[i].obj] == w'.s.callers[i].session
    {
      StepPhases(w.s, e.t, i);
      assert WaitOk(w, i);
    }
    forall k | 0 <= k < |w'.s.list|
      ensures w'.s.list[k].obj < POOL && w'.stamp[w'.s.list[k].obj] == w'.s.list[k].session
    {
      StepList(w.s, e.t, w'.s.list[k]);
      assert WaitOk(w, e.t.i);
    }
  }

  lemma EndKeeps(w: World, e: Event)
    requires WInv(w) && Ok(w, e) && (e.Wakes? || e.GivesUp?)
    ensures WInv(After(w, e))
  {
    var w' := After(w, e);
    StepKeeps(w.s, Return(e.i));
    assert WaitOk(w, e.i);
    forall i: nat | i < |w'.s.callers| ensures WaitOk(w', i) {
      assert WaitOk(w, i);
      if i != e.i && HasObject(w.s.callers[i]) { ObjectsDiffer(w.s, i, e.i); }
    }
  }

  lemma RaiseKeeps(w: World, o: nat)
    requires WInv(w) && o < POOL
    ensures WInv(Raise(w, o))
  {
    var w' := Raise(w, o);
    forall i: nat | i < |w'.s.callers| ensures WaitOk(w', i) { assert WaitOk(w, i); }
  }

  lemma EventKeeps(w: World, e: Event)
    requires WInv(w) && Ok(w, e)
    ensures WInv(After(w, e))
  {
    match e
    case Does(_) => if Takes(w, e) { TakeKeeps(w, e); } else { DoKeeps(w, e); }
    case Wakes(_) => EndKeeps(w, e);
    case GivesUp(_) => EndKeeps(w, e);
    case _ => if Accepted(w, e).Some? { RaiseKeeps(w, Accepted(w, e).value); }
  }

  // --- Runs --------------------------------------------------------------------------------------------------

  function Start(kinds: seq<Kind>): World {
    World(Initial(kinds), seq(POOL, _ => -1), seq(POOL, _ => 0), seq(|kinds|, _ => 0), seq(|kinds|, _ => 0))
  }

  ghost predicate IsWakeRun(kinds: seq<Kind>, ws: seq<World>, es: seq<Event>) {
    && |ws| == |es| + 1 && ws[0] == Start(kinds)
    && forall k | 0 <= k < |es| :: Ok(ws[k], es[k]) && ws[k + 1] == After(ws[k], es[k])
  }

  lemma {:induction false} WakeRunInv(kinds: seq<Kind>, ws: seq<World>, es: seq<Event>, k: nat)
    requires IsWakeRun(kinds, ws, es) && k < |ws|
    ensures WInv(ws[k])
  {
    if k == 0 {
      InitialInv(kinds);
    } else {
      WakeRunInv(kinds, ws, es, k - 1);
      EventKeeps(ws[k - 1], es[k - 1]);
    }
  }

  /** When the wait of a call can end other than by its time-out: exactly when a RETURN has reached its
      object since it was taken, or the semaphore had a count left in it then.  A RETURN that reaches the
      object of a waiting call carries that call's session. */
  lemma WakesIff(kinds: seq<Kind>, ws: seq<World>, es: seq<Event>, k: nat, i: nat)
    requires IsWakeRun(kinds, ws, es) && k < |ws| && i < |ws[k].s.callers| && ws[k].s.callers[i].Answering?
    ensures Shaped(ws[k])
    ensures Ok(ws[k], Wakes(i)) <==> ws[k].left[i] > 0 || ws[k].own[i] > 0
    ensures forall e: Event | Accepted(ws[k], e) == Some(ws[k].s.callers[i].obj) :: e.id == ws[k].s.callers[i].session
  {
    WakeRunInv(kinds, ws, es, k);
    assert WaitOk(ws[k], i);
  }

  /** RETURNs that raised the semaphore of object o in the first k events. */
  ghost function Raised(ws: seq<World>, es: seq<Event>, o: nat, k: nat): nat
    requires |ws| == |es| + 1 && k <= |es| && forall j | 0 <= j < |es| :: Shaped(ws[j])
  {
    if k == 0 then 0 else Raised(ws, es, o, k - 1) + (if Accepted(ws[k - 1], es[k - 1]) == Some(o) then 1 else 0)
  }

  /** Waits on object o that ended by a wake-up in the first k events. */
  ghost function Lowered(ws: seq<World>, es: seq<Event>, o: nat, k: nat): nat
    requires |ws| == |es| + 1 && k <= |es|
  {
    if k == 0 then 0 else Lowered(ws, es, o, k - 1) + (if WakesOn(ws[k - 1], es[k - 1], o) then 1 else 0)
  }

  predicate WakesOn(w: World, e: Event, o: nat) {
    e.Wakes? && e.i < |w.s.callers| && w.s.callers[e.i].Answering? && w.s.callers[e.i].obj == o
  }

  lemma EventCount(w: World, e: Event, o: nat)
    requires Ok(w, e) && o < POOL
    ensures |After(w, e).sem| == POOL
    ensures After(w, e).sem[o] ==
            w.sem[o] + (if Accepted(w, e) == Some(o) then 1 else 0) - (if WakesOn(w, e, o) then 1 else 0)
  {
  }

  /** The count of an object is the RETURNs that matched its session word minus the wake-ups, whoever had
      the object. */
  lemma {:induction false} SemaphoreAccount(kinds: seq<Kind>, ws: seq<World>, es: seq<Event>, k: nat, o: nat)
    requires IsWakeRun(kinds, ws, es) && k < |ws| && o < POOL
    ensures |ws[k].sem| == POOL && forall j | 0 <= j < |es| :: Shaped(ws[j])
    ensures ws[k].sem[o] == Raised(ws, es, o, k) - Lowered(ws, es, o, k)
  {
    if k > 0 {
      SemaphoreAccount(kinds, ws, es, k - 1, o);
      var w, e := ws[k - 1], es[k - 1];
      assert ws[k] == After(w, e);
      EventCount(w, e, o);
    }
  }

  /** So a call that takes its object in event k can be woken only by a RETURN of its own session if and
      only if the RETURNs that had matched the object before are as many as the wake-ups on it. */
  lemma TakenCleanIff(kinds: seq<Kind>, ws: seq<World>, es: seq<Event>, k: nat)
    requires IsWakeRun(kinds, ws, es) && k < |es| && Takes(ws[k], es[k])
    ensures forall j | 0 <= j < |es| :: Shaped(ws[j])
    ensures Shaped(ws[k + 1]) && es[k].t.i < |ws[k + 1].left|
    ensures var o, i := ws[k].s.free[0], es[k].t.i;
            && ws[k + 1].s.callers[i] == Holding(o, es[k].t.session) && ws[k + 1].own[i] == 0
            && ws[k + 1].left[i] == Raised(ws, es, o, k) - Lowered(ws, es, o, k)
  {
    var o := ws[k].s.free[0];
    SemaphoreAccount(kinds, ws, es, k, o);
    WakeRunInv(kinds, ws, es, k + 1);
    assert ws[k + 1] == After(ws[k], es[k]);
  }

  // --- Which RETURNs are acknowledged -------------------------------------------------------------------------

  /** A RETURN for a call that is on the wait list finds its object, by search and by address. */
  lemma OwnReturnAccepted(kinds: seq<Kind>, ws: seq<World>, es: seq<Event>, k: nat, i: nat)
    requires IsWakeRun(kinds, ws, es) && k < |ws| && i < |ws[k].s.callers| && Listed(ws[k].s.callers[i])
    ensures Shaped(ws[k])
    ensures var c := ws[k].s.callers[i];
            Accepted(ws[k], Searched(c.session)) == Some(c.obj) == Accepted(ws[k], Pointed(c.session, c.obj))
  {
    WakeRunInv(kinds, ws, es, k);
    OwnEntry(ws[k].s, i);
    assert WaitOk(ws[k], i);
  }

  /** command_action acknowledges a RETURN exactly when it finds an object: otherwise the sender of the
      RETURN is stranded. */
  lemma ReturnStrandsIff(w: World, e: Event, v: H.Chan)
    requires Shaped(w) && (e.Searched? || e.Pointed?) && H.ChanInv(v) && H.InFlight(v) && v.rcv.cmd.Entered?
    ensures var st := H.R(H.Dispatch(Accepted(w, e).Some?));
            H.StepEnabled(v, 1, st) && (H.Stranded(H.After(v, 1, st)) <==> Accepted(w, e).None?)
  {
    H.TokenLostOnlyByBailout(v, 1, H.R(H.Dispatch(Accepted(w, e).Some?)));
  }

  // --- A run in which a late RETURN wakes the next caller --------------------------------------------------------

  lemma More(kinds: seq<Kind>, ws: seq<World>, es: seq<Event>, e: Event) returns (ws': seq<World>, es': seq<Event>)
    requires IsWakeRun(kinds, ws, es) && Ok(ws[|es|], e)
    ensures IsWakeRun(kinds, ws', es') && es' == es + [e] && ws'[|es'|] == After(ws[|es|], e)
  {
    ws', es' := ws + [After(ws[|es|], e)], es + [e];
  }

  /** Callers 0, ..., n - 1 of 21 have taken the objects of these numbers; nothing else has happened. */
  predicate Row(w: World, n: nat) {
    && Shaped(w) && |w.s.callers| == 21 && n <= POOL && w.s.list == [] && w.s.free == Numbers(POOL)[n..]
    && (forall j | 0 <= j < 21 :: w.s.kinds[j] == Rpc)
    && (forall j: nat | j < 21 :: w.s.callers[j] == if j < n then Holding(j, j) else Starting)
    && (forall o: nat | o < POOL :: w.sem[o] == 0 && (o < n ==> w.stamp[o] == o))
  }

  lemma RowStep(w: World, n: nat)
    requires Row(w, n) && n < POOL
    ensures Ok(w, Does(GetFree(n, n))) && Row(After(w, Does(GetFree(n, n))), n + 1)
  {
    assert w.s.free[0] == n;
  }

  lemma {:induction false} AllTaken(kinds: seq<Kind>, n: nat) returns (ws: seq<World>, es: seq<Event>)
    requires kinds == seq(21, _ => Rpc) && n <= POOL
    ensures IsWakeRun(kinds, ws, es) && Row(ws[|es|], n)
  {
    if n == 0 {
      ws, es := [Start(kinds)], [];
      assert Numbers(POOL)[0..] == Numbers(POOL);
    } else {
      ws, es := AllTaken(kinds, n - 1);
      RowStep(ws[|es|], n - 1);
      ws, es := More(kinds, ws, es, Does(GetFree(n - 1, n - 1)));
    }
  }

  /** Callers 1, ..., 19 hold the objects of their numbers; the rest as given. */
  predicate Scene(w: World, first: Caller, last: Caller, free: seq<nat>, list: seq<Entry>, stamp: int, sem: nat) {
    && Shaped(w) && |w.s.callers| == 21 && w.s.free == free && w.s.list == list
    && (forall j | 0 <= j < 21 :: w.s.kinds[j] == Rpc)
    && (forall j: nat | 0 < j < 20 :: w.s.callers[j] == Holding(j, j))
    && w.s.callers[0] == first && w.s.callers[20] == last && w.stamp[0] == stamp && w.sem[0] == sem
  }

  lemma FirstEnlists(w: World)
    requires Scene(w, Holding(0, 0), Starting, [], [], 0, 0)
    ensures Ok(w, Does(Enlist(0)))
    ensures Scene(After(w, Does(Enlist(0))), Sending(0, 0), Starting, [], [Entry(0, 0)], 0, 0)
  {
  }

  lemma FirstWaits(w: World, e: Event)
    requires e == Does(Ack(0)) || e == GivesUp(0)
    requires Scene(w, if e.Does? then Sending(0, 0) else Answering(0, 0), Starting, [], [Entry(0, 0)], 0, 0)
    ensures Ok(w, e)
    ensures Scene(After(w, e), if e.Does? then Answering(0, 0) else Finishing(0, 0), Starting, [], [Entry(0, 0)], 0, 0)
  {
  }

  lemma FirstUnlinks(w: World)
    requires Scene(w, Finishing(0, 0), Starting, [], [Entry(0, 0)], 0, 0)
    ensures Ok(w, Does(Unlink(0))) && Scene(After(w, Does(Unlink(0))), Unlinked(0, 0), Starting, [], [], 0, 0)
  {
    assert Dropped(w.s.list, 0) == [];
  }

  lemma FirstReleases(w: World)
    requires Scene(w, Unlinked(0, 0), Starting, [], [], 0, 0)
    ensures Ok(w, Does(Release(0))) && Scene(After(w, Does(Release(0))), Finished(0), Starting, [0], [], 0, 0)
  {
  }

  /** Caller 0 is acknowledged, waits in vain, and gives its object back. */
  lemma FirstGivesUp(kinds: seq<Kind>, ws: seq<World>, es: seq<Event>) returns (ws': seq<World>, es': seq<Event>)
    requires IsWakeRun(kinds, ws, es) && Scene(ws[|es|], Holding(0, 0), Starting, [], [], 0, 0)
    ensures IsWakeRun(kinds, ws', es') && Scene(ws'[|es'|], Finished(0), Starting, [0], [], 0, 0)
  {
    FirstEnlists(ws[|es|]);
    ws', es' := More(kinds, ws, es, Does(Enlist(0)));
    FirstWaits(ws'[|es'|], Does(Ack(0)));
    ws', es' := More(kinds, ws', es', Does(Ack(0)));
    FirstWaits(ws'[|es'|], GivesUp(0));
    ws', es' := More(kinds, ws', es', GivesUp(0));
    FirstUnlinks(ws'[|es'|]);
    ws', es' := More(kinds, ws', es', Does(Unlink(0)));
    FirstReleases(ws'[|es'|]);
    ws', es' := More(kinds, ws', es', Does(Release(0)));
  }

  lemma NextTakes(w: World)
    requires Scene(w, Finished(0), Starting, [0], [], 0, 1)
    ensures Ok(w, Does(GetFree(20, 20)))
    ensures var w' := After(w, Does(GetFree(20, 20)));
            Scene(w', Finished(0), Holding(0, 20), [], [], 20, 1) && w'.own[20] == 0
  {
  }

  lemma NextSends(w: World, e: Event)
    requires e == Does(Enlist(20)) || e == Does(Ack(20))
    requires if e.t.Enlist? then Scene(w, Finished(0), Holding(0, 20), [], [], 20, 1)
             else Scene(w, Finished(0), Sending(0, 20), [], [Entry(0, 20)], 20, 1)
    ensures Ok(w, e) && After(w, e).own == w.own
    ensures Scene(After(w, e), Finished(0), if e.t.Enlist? then Sending(0, 20) else Answering(0, 20),
                  [], [Entry(0, 20)], 20, 1)
  {
  }

  /** Caller 20 takes the object, in which a count was left, and is acknowledged. */
  lemma NextCaller(kinds: seq<Kind>, ws: seq<World>, es: seq<Event>) returns (ws': seq<World>, es': seq<Event>)
    requires IsWakeRun(kinds, ws, es) && Scene(ws[|es|], Finished(0), Starting, [0], [], 0, 1)
    ensures IsWakeRun(kinds, ws', es')
    ensures Scene(ws'[|es'|], Finished(0), Answering(0, 20), [], [Entry(0, 20)], 20, 1) && ws'[|es'|].own[20] == 0
  {
    NextTakes(ws[|es|]);
    ws', es' := More(kinds, ws, es, Does(GetFree(20, 20)));
    NextSends(ws'[|es'|], Does(Enlist(20)));
    ws', es' := More(kinds, ws', es', Does(Enlist(20)));
    NextSends(ws'[|es'|], Does(Ack(20)));
    ws', es' := More(kinds, ws', es', Does(Ack(20)));
  }

  lemma RowIsScene(w: World)
    requires Row(w, POOL)
    ensures Scene(w, Holding(0, 0), Starting, [], [], 0, 0)
  {
  }

  lemma LateArrival(w: World)
    requires Scene(w, Finished(0), Starting, [0], [], 0, 0)
    ensures Ok(w, Pointed(0, 0)) && Scene(After(w, Pointed(0, 0)), Finished(0), Starting, [0], [], 0, 1)
  {
  }

  /** Its RETURN comes after all; caller 20 takes the object and can be woken at once, though no RETURN of
      its own call has come. */
  lemma LateReturnWakesNext() returns (kinds: seq<Kind>, ws: seq<World>, es: seq<Event>)
    ensures IsWakeRun(kinds, ws, es) && Shaped(ws[|es|]) && |ws[|es|].s.callers| == 21
    ensures ws[|es|].s.callers[20] == Answering(0, 20) && ws[|es|].own[20] == 0 && Ok(ws[|es|], Wakes(20))
  {
    kinds := seq(21, _ => Rpc);
    ws, es := AllTaken(kinds, POOL);
    RowIsScene(ws[|es|]);
    ws, es := FirstGivesUp(kinds, ws, es);
    LateArrival(ws[|es|]);
    ws, es := More(kinds, ws, es, Pointed(0, 0));
    ws, es := NextCaller(kinds, ws, es);
  }
}
