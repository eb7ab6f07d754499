/** The wait objects of one socket while any number of threads call at the same time, through
    CPUComm_CallEx or directly through the send ioctls.  Each locked region of the driver is one
    step. */
module WaitRuns {
  import opened Common
  import opened Pools

  datatype Entry = Entry(obj: nat, session: int)

  /** CPUComm_CallEx, or SendComm2CPU from an ioctl, with the message in kernel or in user space.  A
      direct sender takes a wait object but no code of it gives the object back after a CALL_ACK, nor
      when the message cannot be copied back to user space. */
  datatype Kind = Rpc | Direct(fromUser: bool)

  datatype Caller =
    | Starting                                // no wait object yet
    | Holding(obj: nat, session: int)         // taken from the FIFO, session written
    | Sending(obj: nat, session: int)         // on the wait list, CALL_ACK awaited
    | Answering(obj: nat, session: int)       // CALL_ACK received, RETURN awaited
    | Expired(obj: nat, session: int)         // CALL_ACK timed out, cleaning up
    | Finishing(obj: nat, session: int)       // RETURN received or timed out, cleaning up
    | Unlinked(obj: nat, code: int)           // off the wait list
    | Finished(code: int)

  /** Where an object is.  An auxiliary variable: no step reads it. */
  datatype Spot = InFifo | InHand(i: nat) | OnList(i: nat) | Orphan

  /** `leaks` counts the objects that finished calls left on the wait list. */
  datatype State = State(free: seq<nat>, list: seq<Entry>, kinds: seq<Kind>, callers: seq<Caller>, spots: seq<Spot>,
                         leaks: nat)

  datatype Step =
    | Fail(i: nat, code: int)      // lookup failure, CPU in reset or not ready, no slot: before an object is taken
    | GetFree(i: nat, session: int)
    | Enlist(i: nat)
    | CopyFault(i: nat)            // the message cannot be copied back
    | Ack(i: nat)
    | AckTimeout(i: nat)
    | Return(i: nat)               // semaphore raised, or its wait timed out, or no wait object was found
    | Unlink(i: nat)
    | Release(i: nat)
    | Again(i: nat)                // the thread makes another call

  function Sessions(list: seq<Entry>): (keys: seq<int>)
    ensures |keys| == |list| && forall i | 0 <= i < |list| :: keys[i] == list[i].session
  {
    seq(|list|, i requires 0 <= i < |list| => list[i].session)
  }

  /** The list without the oldest entry of the session. */
  function Dropped(list: seq<Entry>, session: int): seq<Entry> {
    var k := First(Sessions(list), session);
    if k < |list| then Without(list, k) else list
  }

  /** GetWaitbySessionId: after an expired CALL_ACK the caller keeps its own object whatever the
      search found; at the end of a call it keeps what the search found. */
  function UnlinkStep(s: State, i: nat): State
    requires i < |s.callers| && |s.spots| == POOL
  {
    var c := s.callers[i];
    match c
    case Expired(obj, session) =>
      s.(list := Dropped(s.list, session), callers := s.callers[i := Unlinked(obj, -62)],
         spots := if obj < POOL then s.spots[obj := InHand(i)] else s.spots)
    case Finishing(obj, session) =>
      var k := First(Sessions(s.list), session);
      if k == |s.list| then s.(callers := s.callers[i := Finished(0)])
      else
        var o := s.list[k].obj;
        s.(list := Dropped(s.list, session), callers := s.callers[i := Unlinked(o, 0)],
           spots := if o < POOL then s.spots[o := InHand(i)] else s.spots)
    case _ => s
  }

  /** A call ends and its object stays on the wait list. */
  function Abandon(s: State, i: nat, code: int): State
    requires i < |s.callers| && s.callers[i].Sending? && |s.spots| == POOL
  {
    var o := s.callers[i].obj;
    s.(callers := s.callers[i := Finished(code)], spots := if o < POOL then s.spots[o := Orphan] else s.spots,
       leaks := s.leaks + 1)
  }

  function Next(s: State, t: Step): State
    requires t.i < |s.callers| && |s.kinds| == |s.callers| && |s.spots| == POOL
  {
    var i := t.i;
    var c := s.callers[i];
    match t
    case Fail(_, code) => if c.Starting? then s.(callers := s.callers[i := Finished(code)]) else s
    case GetFree(_, session) =>
      if c.Starting? && s.free != [] then
        var o := s.free[0];
        s.(free := s.free[1..], callers := s.callers[i := Holding(o, session)],
           spots := if o < POOL then s.spots[o := InHand(i)] else s.spots)
      else s
    case Enlist(_) =>
      if c.Holding? then
        s.(list := s.list + [Entry(c.obj, c.session)], callers := s.callers[i := Sending(c.obj, c.session)],
           spots := if c.obj < POOL then s.spots[c.obj := OnList(i)] else s.spots)
      else s
    case CopyFault(_) => if c.Sending? && s.kinds[i] == Direct(true) then Abandon(s, i, -14) else s
    case Ack(_) =>
      if !c.Sending? then s
      else if s.kinds[i].Direct? then Abandon(s, i, 0)
      else s.(callers := s.callers[i := Answering(c.obj, c.session)])
    case AckTimeout(_) => if c.Sending? then s.(callers := s.callers[i := Expired(c.obj, c.session)]) else s
    case Return(_) => if c.Answering? then s.(callers := s.callers[i := Finishing(c.obj, c.session)]) else s
    case Unlink(_) => UnlinkStep(s, i)
    case Release(_) =>
      if c.Unlinked? then
        if |s.free| + 1 < POOL + 1 then
          s.(free := s.free + [c.obj], callers := s.callers[i := Finished(c.code)],
             spots := if c.obj < POOL then s.spots[c.obj := InFifo] else s.spots)
        else s.(callers := s.callers[i := Finished(c.code)])
      else s
    case Again(_) => if c.Finished? then s.(callers := s.callers[i := Starting]) else s
  }

  // --- The invariant ------------------------------------------------------------------------------------

  predicate Listed(c: Caller) { c.Sending? || c.Answering? || c.Expired? || c.Finishing? }

  predicate InHands(c: Caller) { c.Holding? || c.Unlinked? }

  predicate HasObject(c: Caller) { Listed(c) || InHands(c) }

  predicate HasSession(c: Caller) { c.Holding? || Listed(c) }

  function SpotOf(c: Caller, i: nat): Spot {
    if Listed(c) then OnList(i) else if InHands(c) then InHand(i) else InFifo
  }

  predicate FifoInv(s: State) {
    && |s.spots| == POOL && Distinct(s.free)
    && (forall k | 0 <= k < |s.free| :: s.free[k] < POOL && s.spots[s.free[k]] == InFifo)
    && (forall o: nat | o < POOL && s.spots[o] == InFifo :: o in s.free)
  }

  /** Callers and spots agree: an object outside the FIFO belongs to one caller. */
  predicate CallerInv(s: State) {
    && |s.spots| == POOL
    && (forall i: nat | i < |s.callers| && HasObject(s.callers[i]) ::
          s.callers[i].obj < POOL && s.spots[s.callers[i].obj] == SpotOf(s.callers[i], i))
    && (forall o: nat | o < POOL && HasOwner(s.spots[o]) :: Owned(s, o))
  }

  predicate HasOwner(x: Spot) { x.InHand? || x.OnList? }

  predicate Owned(s: State, o: nat)
    requires o < |s.spots| && HasOwner(s.spots[o])
  {
    var i := s.spots[o].i;
    i < |s.callers| && HasObject(s.callers[i]) && s.callers[i].obj == o && s.spots[o] == SpotOf(s.callers[i], i)
  }

  /** An entry of the wait list is the object of a waiting caller, with that caller's session, or an
      abandoned one. */
  predicate EntryOk(s: State, e: Entry) {
    && e.obj < |s.spots|
    && (s.spots[e.obj] == Orphan ||
        (s.spots[e.obj].OnList? && s.spots[e.obj].i < |s.callers| &&
         Listed(s.callers[s.spots[e.obj].i]) && s.callers[s.spots[e.obj].i].session == e.session))
  }

  predicate OnWaitList(list: seq<Entry>, o: nat) { exists k :: 0 <= k < |list| && list[k].obj == o }

  predicate ListInv(s: State) {
    && |s.spots| == POOL
    && (forall k | 0 <= k < |s.list| :: EntryOk(s, s.list[k]))
    && (forall k, l | 0 <= k < l < |s.list| :: s.list[k].obj != s.list[l].obj)
    && (forall o: nat | o < POOL && (s.spots[o].OnList? || s.spots[o] == Orphan) :: OnWaitList(s.list, o))
  }

  /** Session ids are distinct among outstanding waits, abandoned ones included. */
  predicate SessionInv(s: State) {
    forall i, j | 0 <= i < j < |s.callers| && HasSession(s.callers[i]) && HasSession(s.callers[j]) ::
      s.callers[i].session != s.callers[j].session
  }

  predicate OrphanInv(s: State) {
    && (forall k, i | 0 <= k < |s.list| && IsOrphan(s, s.list[k]) && 0 <= i < |s.callers| && HasSession(s.callers[i]) ::
          s.list[k].session != s.callers[i].session)
    && s.leaks == Tally(s.spots, Orphan)
  }

  predicate IsOrphan(s: State, e: Entry) { e.obj < |s.spots| && s.spots[e.obj] == Orphan }

  predicate Inv(s: State) {
    |s.kinds| == |s.callers| && FifoInv(s) && ListInv(s) && CallerInv(s) && SessionInv(s) && OrphanInv(s)
  }

  /** The session of a new call is no outstanding one. */
  predicate NewSession(s: State, t: Step) {
    t.GetFree? ==>
      && (forall j | 0 <= j < |s.callers| && HasSession(s.callers[j]) :: s.callers[j].session != t.session)
      && (forall k | 0 <= k < |s.list| :: s.list[k].session != t.session)
  }

  /** How many objects are in the spot. */
  function Tally(spots: seq<Spot>, x: Spot): nat {
    if spots == [] then 0
    else Tally(spots[..|spots| - 1], x) + (if spots[|spots| - 1] == x then 1 else 0)
  }

  lemma {:induction false} TallyUpdate(spots: seq<Spot>, x: Spot, o: nat, y: Spot)
    requires o < |spots|
    ensures Tally(spots[o := y], x) == Tally(spots, x) - (if spots[o] == x then 1 else 0) + (if y == x then 1 else 0)
  {
    var n := |spots| - 1;
    if o == n {
      assert spots[o := y][..n] == spots[..n];
    } else {
      assert spots[o := y][..n] == spots[..n][o := y];
      TallyUpdate(spots[..n], x, o, y);
    }
  }

  // --- One caller moves ------------------------------------------------------------------------------------

  /** Caller i becomes c; object o, if any caller's then its own, goes to spot x, which is where c has
      it. */
  predicate Moves(s: State, s': State, i: nat, c: Caller, o: nat, x: Spot) {
    && i < |s.callers| && o < POOL && |s.spots| == POOL && s'.kinds == s.kinds
    && s'.callers == s.callers[i := c] && s'.spots == s.spots[o := x]
    && (HasObject(s.callers[i]) ==> s.callers[i].obj == o) && (HasObject(c) ==> c.obj == o)
    && (if HasObject(c) then x == SpotOf(c, i) else !HasOwner(x))
    && (s.spots[o] == InFifo || (HasOwner(s.spots[o]) && s.spots[o].i == i))
  }

  lemma MoveCaller(s: State, s': State, i: nat, c: Caller, o: nat, x: Spot)
    requires CallerInv(s) && Moves(s, s', i, c, o, x)
    ensures CallerInv(s')
  {
    forall p: nat | p < POOL && HasOwner(s'.spots[p]) ensures Owned(s', p) {
      if p != o { assert Owned(s, p); }
    }
  }

  lemma MoveSession(s: State, s': State, i: nat, c: Caller)
    requires SessionInv(s) && i < |s.callers| && s'.callers == s.callers[i := c]
    requires HasSession(c) ==>
               forall j | 0 <= j < |s.callers| && j != i && HasSession(s.callers[j]) ::
                 s.callers[j].session != c.session
    ensures SessionInv(s')
  {
  }

  /** A caller keeps or drops its session. */
  predicate Keeps(s: State, i: nat, c: Caller) {
    i < |s.callers| && (HasSession(c) ==> HasSession(s.callers[i]) && c.session == s.callers[i].session)
  }

  lemma KeepSession(s: State, s': State, i: nat, c: Caller)
    requires SessionInv(s) && Keeps(s, i, c) && s'.callers == s.callers[i := c]
    ensures SessionInv(s')
  {
    if HasSession(c) {
      forall j | 0 <= j < |s.callers| && j != i && HasSession(s.callers[j]) ensures s.callers[j].session != c.session {
        if i < j { assert s.callers[i].session != s.callers[j].session; }
      }
    }
    MoveSession(s, s', i, c);
  }

  /** An entry of another object stays. */
  lemma MoveEntry(s: State, s': State, i: nat, c: Caller, o: nat, x: Spot, e: Entry)
    requires CallerInv(s) && Moves(s, s', i, c, o, x) && EntryOk(s, e) && e.obj != o
    ensures EntryOk(s', e)
  {
    if s.spots[e.obj] != Orphan { assert Owned(s, e.obj); }
  }

  /** Moves between places other than the FIFO leave the FIFO alone. */
  lemma MoveFifo(s: State, s': State, i: nat, c: Caller, o: nat, x: Spot)
    requires FifoInv(s) && Moves(s, s', i, c, o, x) && s'.free == s.free && s.spots[o] != InFifo && x != InFifo
    ensures FifoInv(s')
  {
  }

  /** Moves between places other than the wait list leave the wait list alone. */
  lemma MoveList(s: State, s': State, i: nat, c: Caller, o: nat, x: Spot)
    requires ListInv(s) && CallerInv(s) && Moves(s, s', i, c, o, x) && s'.list == s.list
    requires !s.spots[o].OnList? && !x.OnList? && x != Orphan
    ensures ListInv(s')
  {
    forall k | 0 <= k < |s.list| ensures EntryOk(s', s.list[k]) {
      assert EntryOk(s, s.list[k]);
      MoveEntry(s, s', i, c, o, x, s.list[k]);
    }
  }

  /** Orphans stay orphans; their sessions stay apart when no session is new. */
  lemma MoveOrphans(s: State, s': State, i: nat, c: Caller, o: nat, x: Spot)
    requires OrphanInv(s) && Moves(s, s', i, c, o, x) && Keeps(s, i, c) && x != Orphan && s'.leaks == s.leaks
    requires forall e | e in s'.list :: e in s.list || e.obj == o
    ensures OrphanInv(s')
  {
    TallyUpdate(s.spots, Orphan, o, x);
    forall k, j | 0 <= k < |s'.list| && IsOrphan(s', s'.list[k]) && 0 <= j < |s'.callers| && HasSession(s'.callers[j])
      ensures s'.list[k].session != s'.callers[j].session
    {
      assert s'.list[k] in s.list;
      var l :| 0 <= l < |s.list| && s.list[l] == s'.list[k];
      assert IsOrphan(s, s.list[l]);
    }
  }

  // --- Every step keeps the invariant -------------------------------------------------------------------------

  /** The search by a waiting caller's session finds that caller's own object. */
  lemma OwnEntry(s: State, i: nat)
    requires Inv(s) && i < |s.callers| && Listed(s.callers[i])
    ensures var k := First(Sessions(s.list), s.callers[i].session);
            k < |s.list| && s.list[k] == Entry(s.callers[i].obj, s.callers[i].session)
  {
    var c := s.callers[i];
    assert OnWaitList(s.list, c.obj);
    var k0 :| 0 <= k0 < |s.list| && s.list[k0].obj == c.obj;
    assert EntryOk(s, s.list[k0]);
    var k := First(Sessions(s.list), c.session);
    assert k <= k0;
    assert EntryOk(s, s.list[k]) && !IsOrphan(s, s.list[k]);
    assert Owned(s, s.list[k].obj);
    var j := s.spots[s.list[k].obj].i;
    assert !(i < j) && !(j < i);
  }

  lemma GetFreeKeeps(s: State, t: Step)
    requires Inv(s) && t.GetFree? && t.i < |s.callers| && NewSession(s, t)
    ensures Inv(Next(s, t))
  {
    if s.callers[t.i].Starting? && s.free != [] {
      var s', o, x := Next(s, t), s.free[0], InHand(t.i);
      var c := Holding(o, t.session);
      MoveCaller(s, s', t.i, c, o, x);
      MoveSession(s, s', t.i, c);
      MoveList(s, s', t.i, c, o, x);
      TakeFifo(s, s', x);
      TallyUpdate(s.spots, Orphan, o, x);
    }
  }

  lemma TakeFifo(s: State, s': State, x: Spot)
    requires FifoInv(s) && s.free != [] && s'.free == s.free[1..] && x != InFifo && s'.spots == s.spots[s.free[0] := x]
    ensures FifoInv(s')
  {
    forall p: nat | p < POOL && s'.spots[p] == InFifo ensures p in s'.free {
      var k :| 0 <= k < |s.free| && s.free[k] == p;
      assert s.free[1..][k - 1] == p;
    }
  }

  lemma EnlistKeeps(s: State, t: Step)
    requires Inv(s) && t.Enlist? && t.i < |s.callers|
    ensures Inv(Next(s, t))
  {
    var c := s.callers[t.i];
    if c.Holding? {
      var s', c', o, x := Next(s, t), Sending(c.obj, c.session), c.obj, OnList(t.i);
      MoveCaller(s, s', t.i, c', o, x);
      KeepSession(s, s', t.i, c');
      MoveFifo(s, s', t.i, c', o, x);
      EnlistList(s, s', t.i);
      MoveOrphans(s, s', t.i, c', o, x);
    }
  }

  lemma EnlistList(s: State, s': State, i: nat)
    requires ListInv(s) && CallerInv(s) && i < |s.callers| && s.callers[i].Holding?
    requires var c := s.callers[i];
             && Moves(s, s', i, Sending(c.obj, c.session), c.obj, OnList(i))
             && s'.list == s.list + [Entry(c.obj, c.session)]
    ensures ListInv(s')
  {
    var c := s.callers[i];
    forall k | 0 <= k < |s'.list| ensures EntryOk(s', s'.list[k]) {
      if k < |s.list| {
        assert EntryOk(s, s.list[k]);
        MoveEntry(s, s', i, Sending(c.obj, c.session), c.obj, OnList(i), s.list[k]);
      }
    }
    forall k | 0 <= k < |s.list| ensures s.list[k].obj != c.obj { assert EntryOk(s, s.list[k]); }
    forall p: nat | p < POOL && (s'.spots[p].OnList? || s'.spots[p] == Orphan) ensures OnWaitList(s'.list, p) {
      if p == c.obj {
        assert s'.list[|s.list|].obj == p;
      } else {
        assert OnWaitList(s.list, p);
        var k :| 0 <= k < |s.list| && s.list[k].obj == p;
        assert s'.list[k].obj == p;
      }
    }
  }

  /** Steps that neither take nor give an object. */
  lemma PhaseKeeps(s: State, s': State, i: nat, c: Caller)
    requires Inv(s) && i < |s.callers| && s' == s.(callers := s.callers[i := c])
    requires (!HasObject(s.callers[i]) && !HasObject(c)) ||
             (Listed(s.callers[i]) && Listed(c) && c.obj == s.callers[i].obj && c.session == s.callers[i].session)
    ensures Inv(s')
  {
    KeepSession(s, s', i, c);
    forall o: nat | o < POOL && HasOwner(s'.spots[o]) ensures Owned(s', o) { assert Owned(s, o); }
    forall k | 0 <= k < |s.list| ensures EntryOk(s', s.list[k]) {
      assert EntryOk(s, s.list[k]);
      if s.spots[s.list[k].obj] != Orphan { assert Owned(s, s.list[k].obj); }
    }
    forall k | 0 <= k < |s.list| && IsOrphan(s', s.list[k]) ensures IsOrphan(s, s.list[k]) {}
  }

  /** A call that leaves its object behind. */
  lemma AbandonKeeps(s: State, i: nat, code: int)
    requires Inv(s) && i < |s.callers| && s.callers[i].Sending?
    ensures Inv(Abandon(s, i, code))
  {
    var s', c, o := Abandon(s, i, code), Finished(code), s.callers[i].obj;
    MoveCaller(s, s', i, c, o, Orphan);
    KeepSession(s, s', i, c);
    MoveFifo(s, s', i, c, o, Orphan);
    forall k | 0 <= k < |s.list| ensures EntryOk(s', s.list[k]) {
      assert EntryOk(s, s.list[k]);
      if s.list[k].obj != o { MoveEntry(s, s', i, c, o, Orphan, s.list[k]); }
    }
    assert ListInv(s');
    AbandonOrphans(s, s', i, o);
  }

  lemma AbandonOrphans(s: State, s': State, i: nat, o: nat)
    requires Inv(s) && i < |s.callers| && s.callers[i].Sending? && o == s.callers[i].obj
    requires |s'.callers| == |s.callers| && !HasSession(s'.callers[i]) && Moves(s, s', i, s'.callers[i], o, Orphan)
    requires s'.list == s.list && s'.leaks == s.leaks + 1
    ensures OrphanInv(s')
  {
    TallyUpdate(s.spots, Orphan, o, Orphan);
    forall k, j | 0 <= k < |s.list| && IsOrphan(s', s.list[k]) && 0 <= j < |s.callers| && HasSession(s'.callers[j])
      ensures s.list[k].session != s'.callers[j].session
    {
      if s.list[k].obj == o {
        assert EntryOk(s, s.list[k]);
        assert i < j || j < i;
      } else {
        assert IsOrphan(s, s.list[k]);
      }
    }
  }

  lemma UnlinkKeeps(s: State, t: Step)
    requires Inv(s) && t.Unlink? && t.i < |s.callers|
    ensures Inv(Next(s, t))
  {
    var c := s.callers[t.i];
    if c.Expired? || c.Finishing? {
      OwnEntry(s, t.i);
      var s', o, x := Next(s, t), c.obj, InHand(t.i);
      var c' := s'.callers[t.i];
      var k := First(Sessions(s.list), c.session);
      MoveCaller(s, s', t.i, c', o, x);
      KeepSession(s, s', t.i, c');
      MoveFifo(s, s', t.i, c', o, x);
      UnlinkList(s, s', t.i, c', k);
      forall e | e in s'.list ensures e in s.list { WithoutPart(s.list, k, e); }
      MoveOrphans(s, s', t.i, c', o, x);
    }
  }

  lemma WithoutPart(list: seq<Entry>, k: nat, e: Entry)
    requires k < |list| && e in Without(list, k)
    ensures e in list
  {
  }

  lemma UnlinkList(s: State, s': State, i: nat, c: Caller, k: nat)
    requires ListInv(s) && CallerInv(s) && k < |s.list|
    requires Moves(s, s', i, c, s.list[k].obj, InHand(i)) && s'.list == Without(s.list, k)
    ensures ListInv(s')
  {
    var o := s.list[k].obj;
    forall l | 0 <= l < |s'.list| ensures EntryOk(s', s'.list[l]) {
      var l' := if l < k then l else l + 1;
      assert s'.list[l] == s.list[l'] && EntryOk(s, s.list[l']);
      MoveEntry(s, s', i, c, o, InHand(i), s.list[l']);
    }
    forall p: nat | p < POOL && (s'.spots[p].OnList? || s'.spots[p] == Orphan) ensures OnWaitList(s'.list, p) {
      assert OnWaitList(s.list, p);
      StaysOnList(s.list, k, p);
    }
    WithoutDistinct(s.list, k);
  }

  lemma StaysOnList(list: seq<Entry>, k: nat, p: nat)
    requires k < |list| && OnWaitList(list, p) && p != list[k].obj
    ensures OnWaitList(Without(list, k), p)
  {
    var l :| 0 <= l < |list| && list[l].obj == p;
    assert Without(list, k)[if l < k then l else l - 1].obj == p;
  }

  lemma WithoutDistinct(list: seq<Entry>, k: nat)
    requires k < |list| && forall i, j | 0 <= i < j < |list| :: list[i].obj != list[j].obj
    ensures var l := Without(list, k); forall i, j | 0 <= i < j < |l| :: l[i].obj != l[j].obj
  {
  }

  /** An object in a caller's hand leaves room in the FIFO. */
  lemma RoomInFifo(s: State, i: nat)
    requires FifoInv(s) && CallerInv(s) && i < |s.callers| && InHands(s.callers[i])
    ensures |s.free| < POOL
  {
    Pigeonhole([s.callers[i].obj] + s.free, POOL);
  }

  lemma ReleaseKeeps(s: State, t: Step)
    requires Inv(s) && t.Release? && t.i < |s.callers|
    ensures Inv(Next(s, t))
  {
    var c := s.callers[t.i];
    if c.Unlinked? {
      RoomInFifo(s, t.i);
      var s', c' := Next(s, t), Finished(c.code);
      MoveCaller(s, s', t.i, c', c.obj, InFifo);
      KeepSession(s, s', t.i, c');
      MoveList(s, s', t.i, c', c.obj, InFifo);
      PutFifo(s, s', c.obj);
      MoveOrphans(s, s', t.i, c', c.obj, InFifo);
    }
  }

  lemma PutFifo(s: State, s': State, o: nat)
    requires FifoInv(s) && o < POOL && s.spots[o] != InFifo
    requires s'.free == s.free + [o] && s'.spots == s.spots[o := InFifo]
    ensures FifoInv(s')
  {
    forall p: nat | p < POOL && s'.spots[p] == InFifo ensures p in s'.free {
      if p == o { assert s'.free[|s.free|] == p; } else { assert p in s.free; }
    }
  }

  lemma StepKeeps(s: State, t: Step)
    requires Inv(s) && t.i < |s.callers| && NewSession(s, t)
    ensures Inv(Next(s, t)) && |Next(s, t).callers| == |s.callers|
  {
    match t
    case GetFree(_, _) => GetFreeKeeps(s, t);
    case Enlist(_) => EnlistKeeps(s, t);
    case Unlink(_) => UnlinkKeeps(s, t);
    case Release(_) => ReleaseKeeps(s, t);
    case _ => OtherKeeps(s, t);
  }

  lemma OtherKeeps(s: State, t: Step)
    requires Inv(s) && t.i < |s.callers| && !t.GetFree? && !t.Enlist? && !t.Unlink? && !t.Release?
    ensures Inv(Next(s, t)) && |Next(s, t).callers| == |s.callers|
  {
    var c := s.callers[t.i];
    if c.Sending? && ((t.CopyFault? && s.kinds[t.i] == Direct(true)) || (t.Ack? && s.kinds[t.i].Direct?)) {
      AbandonKeeps(s, t.i, if t.Ack? then 0 else -14);
    } else if Next(s, t) != s {
      PhaseKeeps(s, Next(s, t), t.i, Next(s, t).callers[t.i]);
    }
  }

  // --- Runs ----------------------------------------------------------------------------------------------

  /** A socket as InitCommSeqMem leaves it, with threads of the given kinds about to call. */
  function Initial(kinds: seq<Kind>): State {
    State(Numbers(POOL), [], kinds, seq(|kinds|, _ => Starting), seq(POOL, _ => InFifo), 0)
  }

  ghost predicate IsRun(kinds: seq<Kind>, ss: seq<State>, ts: seq<Step>) {
    && |ss| == |ts| + 1 && ss[0] == Initial(kinds)
    && forall k | 0 <= k < |ts| ::
         && |ss[k].spots| == POOL && ts[k].i < |ss[k].callers| && |ss[k].kinds| == |ss[k].callers|
         && NewSession(ss[k], ts[k]) && ss[k + 1] == Next(ss[k], ts[k])
  }

  lemma {:induction false} NoTally(spots: seq<Spot>, x: Spot)
    requires forall o | 0 <= o < |spots| :: spots[o] != x
    ensures Tally(spots, x) == 0
  {
    if spots != [] { NoTally(spots[..|spots| - 1], x); }
  }

  lemma InitialInv(kinds: seq<Kind>)
    ensures Inv(Initial(kinds))
  {
    var s := Initial(kinds);
    forall o | 0 <= o < POOL ensures o in s.free { assert s.free[o] == o; }
    NoTally(s.spots, Orphan);
  }

  lemma {:induction false} RunInv(kinds: seq<Kind>, ss: seq<State>, ts: seq<Step>, k: nat)
    requires IsRun(kinds, ss, ts) && k < |ss|
    ensures Inv(ss[k]) && |ss[k].callers| == |kinds|
  {
    if k == 0 {
      InitialInv(kinds);
    } else {
      RunInv(kinds, ss, ts, k - 1);
      StepKeeps(ss[k - 1], ts[k - 1]);
    }
  }

  ghost predicate IsFree(s: State, o: nat) { o in s.free }

  ghost predicate IsListed(s: State, o: nat) { OnWaitList(s.list, o) }

  ghost predicate IsHeld(s: State, o: nat) {
    exists i :: 0 <= i < |s.callers| && InHands(s.callers[i]) && s.callers[i].obj == o
  }

  /** In every run each of the 20 objects is in exactly one of the FIFO, the wait list and the hand of
      one caller, and there once. */
  lemma Conservation(kinds: seq<Kind>, ss: seq<State>, ts: seq<Step>, k: nat, o: nat)
    requires IsRun(kinds, ss, ts) && k < |ss| && o < POOL
    ensures var s := ss[k];
            && (IsFree(s, o) || IsListed(s, o) || IsHeld(s, o))
            && !(IsFree(s, o) && IsListed(s, o)) && !(IsFree(s, o) && IsHeld(s, o)) && !(IsListed(s, o) && IsHeld(s, o))
            && Distinct(s.free)
            && (forall i, j | 0 <= i < j < |s.list| :: s.list[i].obj != s.list[j].obj)
            && (forall i, j | 0 <= i < j < |s.callers| && InHands(s.callers[i]) && InHands(s.callers[j]) ::
                  s.callers[i].obj != s.callers[j].obj)
  {
    RunInv(kinds, ss, ts, k);
    var s := ss[k];
    match s.spots[o]
    case InFifo => assert o in s.free;
    case InHand(i) => assert Owned(s, o);
    case OnList(i) => assert OnWaitList(s.list, o);
    case Orphan => assert OnWaitList(s.list, o);
  }

  /** ReleaseWaitComm never finds the FIFO full. */
  lemma ReleaseNeverFull(kinds: seq<Kind>, ss: seq<State>, ts: seq<Step>, k: nat, i: nat)
    requires IsRun(kinds, ss, ts) && k < |ss| && i < |ss[k].callers| && ss[k].callers[i].Unlinked?
    ensures |ss[k].free| + 1 < POOL + 1
  {
    RunInv(kinds, ss, ts, k);
    RoomInFifo(ss[k], i);
  }

  /** An object outside the FIFO belongs to a call that is not finished or was left on the wait list by
      a finished one. */
  lemma GivenBack(kinds: seq<Kind>, ss: seq<State>, ts: seq<Step>, k: nat, o: nat)
    requires IsRun(kinds, ss, ts) && k < |ss| && o < POOL && !IsFree(ss[k], o)
    ensures |ss[k].spots| == POOL
    ensures ss[k].spots[o] == Orphan ||
            exists i: nat :: i < |ss[k].callers| && HasObject(ss[k].callers[i]) && ss[k].callers[i].obj == o
  {
    RunInv(kinds, ss, ts, k);
    if ss[k].spots[o] != Orphan { assert Owned(ss[k], o); }
  }

  // --- Leaks -------------------------------------------------------------------------------------------------

  lemma StaysIn(ns: seq<nat>, k: nat, o: nat)
    requires k < |ns| && o in ns && o != ns[k]
    ensures o in Without(ns, k)
  {
    var l :| 0 <= l < |ns| && ns[l] == o;
    assert Without(ns, k)[if l < k then l else l - 1] == o;
  }

  /** The FIFO contents are the objects below n that are in the spot InFifo, each once. */
  predicate Holds(free: seq<nat>, spots: seq<Spot>, n: nat) {
    && n <= |spots| && Distinct(free)
    && (forall k | 0 <= k < |free| :: free[k] < n && spots[free[k]] == InFifo)
    && (forall o: nat | o < n && spots[o] == InFifo :: o in free)
  }

  lemma HoldsLess(free: seq<nat>, spots: seq<Spot>, n: nat, k: nat)
    requires Holds(free, spots, n) && k < |free| && free[k] == n - 1
    ensures Holds(Without(free, k), spots, n - 1)
  {
    forall o: nat | o < n - 1 && spots[o] == InFifo ensures o in Without(free, k) { StaysIn(free, k, o); }
  }

  lemma {:induction false} FreeTally(free: seq<nat>, spots: seq<Spot>, n: nat)
    requires Holds(free, spots, n)
    ensures |free| == Tally(spots[..n], InFifo)
  {
    if n == 0 {
      Pigeonhole(free, n);
    } else {
      assert spots[..n][..n - 1] == spots[..n - 1];
      if k :| 0 <= k < |free| && free[k] == n - 1 {
        HoldsLess(free, spots, n, k);
        FreeTally(Without(free, k), spots, n - 1);
      } else {
        var last: nat := n - 1;
        assert last !in free;
        FreeTally(free, spots, n - 1);
      }
    }
  }

  lemma {:induction false} TallySum(spots: seq<Spot>)
    ensures Tally(spots, InFifo) + Tally(spots, Orphan) <= |spots|
    ensures (forall o | 0 <= o < |spots| :: spots[o] == InFifo || spots[o] == Orphan) ==>
              Tally(spots, InFifo) + Tally(spots, Orphan) == |spots|
  {
    if spots != [] {
      var n := |spots| - 1;
      TallySum(spots[..n]);
      if forall o | 0 <= o < |spots| :: spots[o] == InFifo || spots[o] == Orphan {
        forall o | 0 <= o < n ensures spots[..n][o] == InFifo || spots[..n][o] == Orphan {
          assert spots[..n][o] == spots[o];
        }
      }
    }
  }

  /** A step leaks an object exactly when a direct sender gets its CALL_ACK or cannot copy the message
      back. */
  predicate Leaks(s: State, t: Step) {
    && t.i < |s.callers| && |s.kinds| == |s.callers| && s.callers[t.i].Sending?
    && ((t.Ack? && s.kinds[t.i].Direct?) || (t.CopyFault? && s.kinds[t.i] == Direct(true)))
  }

  /** How many of the first k steps of a run leak. */
  ghost function LeakCount(ss: seq<State>, ts: seq<Step>, k: nat): nat
    requires k <= |ts| < |ss|
  {
    if k == 0 then 0 else LeakCount(ss, ts, k - 1) + (if Leaks(ss[k - 1], ts[k - 1]) then 1 else 0)
  }

  lemma LeakStep(s: State, t: Step)
    requires t.i < |s.callers| && |s.kinds| == |s.callers| && |s.spots| == POOL
    ensures Next(s, t).leaks == s.leaks + (if Leaks(s, t) then 1 else 0)
  {
  }

  lemma {:induction false} LeaksCounted(kinds: seq<Kind>, ss: seq<State>, ts: seq<Step>, k: nat)
    requires IsRun(kinds, ss, ts) && k < |ss|
    ensures ss[k].leaks == LeakCount(ss, ts, k)
  {
    if k > 0 {
      LeaksCounted(kinds, ss, ts, k - 1);
      LeakStep(ss[k - 1], ts[k - 1]);
    }
  }

  lemma {:induction false} TallyPositive(spots: seq<Spot>, x: Spot, o: nat)
    requires o < |spots| && spots[o] == x
    ensures Tally(spots, x) >= 1
  {
    if o < |spots| - 1 { TallyPositive(spots[..|spots| - 1], x, o); }
  }

  lemma IdleList(s: State)
    requires Inv(s) && forall i: nat | i < |s.callers| :: !HasObject(s.callers[i])
    ensures s.list != [] ==> s.leaks >= 1
  {
    if s.list != [] {
      assert EntryOk(s, s.list[0]);
      TallyPositive(s.spots, Orphan, s.list[0].obj);
    }
  }

  /** Every leak is one object less for good: what is free never exceeds 20 minus the leaks so far, and
      when no call is under way it is exactly that.  So a run gives all objects back if and only if
      none of its steps leaks; CPUComm_CallEx alone never does. */
  lemma LeakAccount(kinds: seq<Kind>, ss: seq<State>, ts: seq<Step>, k: nat)
    requires IsRun(kinds, ss, ts) && k < |ss|
    ensures |ss[k].free| + LeakCount(ss, ts, k) <= POOL
    ensures (forall i: nat | i < |ss[k].callers| :: !HasObject(ss[k].callers[i])) ==>
              |ss[k].free| + LeakCount(ss, ts, k) == POOL && (ss[k].list != [] ==> LeakCount(ss, ts, k) >= 1)
    ensures (forall i | 0 <= i < |kinds| :: kinds[i] == Rpc) ==> LeakCount(ss, ts, k) == 0
  {
    RunInv(kinds, ss, ts, k);
    LeaksCounted(kinds, ss, ts, k);
    var s := ss[k];
    FreeTally(s.free, s.spots, POOL);
    assert s.spots[..POOL] == s.spots;
    TallySum(s.spots);
    if forall i: nat | i < |s.callers| :: !HasObject(s.callers[i]) {
      forall o: nat | o < POOL ensures s.spots[o] == InFifo || s.spots[o] == Orphan {
        assert HasOwner(s.spots[o]) ==> Owned(s, o);
      }
      IdleList(s);
    }
    if forall i | 0 <= i < |kinds| :: kinds[i] == Rpc { RpcNeverLeaks(kinds, ss, ts, k); }
  }

  lemma {:induction false} RpcNeverLeaks(kinds: seq<Kind>, ss: seq<State>, ts: seq<Step>, k: nat)
    requires IsRun(kinds, ss, ts) && k < |ss| && forall i | 0 <= i < |kinds| :: kinds[i] == Rpc
    ensures LeakCount(ss, ts, k) == 0 && ss[k].kinds == kinds
  {
    if k > 0 { RpcNeverLeaks(kinds, ss, ts, k - 1); }
  }

  /** One call of a direct sender, acknowledged as it should be, and one object is gone. */
  lemma DirectSendLeaks(fromUser: bool) returns (ss: seq<State>, ts: seq<Step>)
    ensures IsRun([Direct(fromUser)], ss, ts) && |ts| == 3 && LeakCount(ss, ts, 3) == 1
    ensures ss[3].callers == [Finished(0)] && |ss[3].free| == POOL - 1
  {
    ts := [GetFree(0, 1), Enlist(0), Ack(0)];
    var s0 := Initial([Direct(fromUser)]);
    var s1 := Next(s0, ts[0]);
    var s2 := Next(s1, ts[1]);
    ss := [s0, s1, s2, Next(s2, ts[2])];
    assert s0.callers == [Starting] && s1.callers == [Holding(0, 1)] && s2.callers == [Sending(0, 1)];
    assert IsRun([Direct(fromUser)], ss, ts);
    LeakAccount([Direct(fromUser)], ss, ts, 3);
    assert ss[3].callers == [Finished(0)];
  }

  // --- A call can always finish ------------------------------------------------------------------------------------

  /** The step that brings a caller nearer to its end when no answer comes. */
  function Onward(c: Caller, i: nat): Step {
    match c
    case Holding(_, _) => Enlist(i)
    case Sending(_, _) => AckTimeout(i)
    case Answering(_, _) => Return(i)
    case Expired(_, _) => Unlink(i)
    case Finishing(_, _) => Unlink(i)
    case Unlinked(_, _) => Release(i)
    case _ => Again(i)
  }

  function Distance(c: Caller): nat {
    match c
    case Holding(_, _) => 5
    case Sending(_, _) => 4
    case Answering(_, _) => 3
    case Expired(_, _) => 2
    case Finishing(_, _) => 2
    case Unlinked(_, _) => 1
    case _ => 0
  }

  /** Caller i has come nearer to its end, with its object; at the end the object is in the FIFO. */
  predicate Nearer(s: State, s': State, i: nat)
    requires i < |s.callers| && HasObject(s.callers[i])
  {
    && |s'.callers| == |s.callers| && Distance(s'.callers[i]) < Distance(s.callers[i])
    && if HasObject(s'.callers[i]) then s'.callers[i].obj == s.callers[i].obj && s'.free == s.free
       else s'.callers[i].Finished? && s'.free == s.free + [s.callers[i].obj]
  }

  lemma OnwardStep(s: State, i: nat)
    requires Inv(s) && i < |s.callers| && HasObject(s.callers[i])
    ensures Nearer(s, Next(s, Onward(s.callers[i], i)), i)
  {
    var c := s.callers[i];
    if c.Expired? || c.Finishing? {
      OwnEntry(s, i);
      OnwardUnlink(s, i, First(Sessions(s.list), c.session));
    } else {
      if c.Unlinked? { RoomInFifo(s, i); }
      OnwardOther(s, i);
    }
  }

  lemma OnwardOther(s: State, i: nat)
    requires |s.kinds| == |s.callers| && |s.spots| == POOL && i < |s.callers| && HasObject(s.callers[i])
    requires !s.callers[i].Expired? && !s.callers[i].Finishing? && (s.callers[i].Unlinked? ==> |s.free| < POOL)
    ensures Nearer(s, Next(s, Onward(s.callers[i], i)), i)
  {
  }

  lemma OnwardUnlink(s: State, i: nat, k: nat)
    requires |s.kinds| == |s.callers| && |s.spots| == POOL && i < |s.callers|
    requires s.callers[i].Expired? || s.callers[i].Finishing?
    requires k == First(Sessions(s.list), s.callers[i].session) && k < |s.list| && s.list[k].obj == s.callers[i].obj
    ensures Nearer(s, Next(s, Onward(s.callers[i], i)), i)
  {
  }

  lemma MoreSteps(kinds: seq<Kind>, ss: seq<State>, ts: seq<Step>, t: Step) returns (ss': seq<State>, ts': seq<Step>)
    requires IsRun(kinds, ss, ts) && t.i < |kinds| && !t.GetFree?
    ensures IsRun(kinds, ss', ts') && ts' == ts + [t] && Inv(ss[|ts|]) && |ss[|ts|].callers| == |kinds|
    ensures ss'[|ts'|] == Next(ss[|ts|], t) && ss <= ss'
  {
    RunInv(kinds, ss, ts, |ts|);
    ss', ts' := ss + [Next(ss[|ts|], t)], ts + [t];
  }

  /** From every state of every run a caller that has an object can finish by at most five steps of its own,
      without any answer, and its object is then the last in the FIFO. */
  lemma {:induction false} CallCanFinish(kinds: seq<Kind>, ss: seq<State>, ts: seq<Step>, i: nat)
      returns (ss': seq<State>, ts': seq<Step>)
    requires IsRun(kinds, ss, ts) && i < |ss[|ts|].callers| && HasObject(ss[|ts|].callers[i])
    ensures IsRun(kinds, ss', ts') && ss <= ss' && |ts'| <= |ts| + Distance(ss[|ts|].callers[i]) <= |ts| + 5
    ensures i < |ss'[|ts'|].callers| && ss'[|ts'|].callers[i].Finished?
    ensures ss'[|ts'|].free == ss[|ts|].free + [ss[|ts|].callers[i].obj]
    decreases Distance(ss[|ts|].callers[i])
  {
    var s := ss[|ts|];
    RunInv(kinds, ss, ts, |ts|);
    OnwardStep(s, i);
    ss', ts' := MoreSteps(kinds, ss, ts, Onward(s.callers[i], i));
    if HasObject(ss'[|ts'|].callers[i]) { ss', ts' := CallCanFinish(kinds, ss', ts', i); }
  }

  // --- What a call returns --------------------------------------------------------------------------------------

  /** How a call has gone so far. */
  datatype Outcome = Undecided | Failed(code: int) | Acknowledged | TimedOut | Faulted

  /** The outcome of caller i's call after a step, from the outcome before it.  Only steps that find the
      caller in the right phase decide anything. */
  function Decided(s: State, t: Step, i: nat, o: Outcome): Outcome
    requires i < |s.callers| && |s.kinds| == |s.callers|
  {
    var c := s.callers[i];
    if t.i != i then o
    else if t.Again? && c.Finished? then Undecided
    else if t.Fail? && c.Starting? then Failed(t.code)
    else if t.Ack? && c.Sending? then Acknowledged
    else if t.AckTimeout? && c.Sending? then TimedOut
    else if t.CopyFault? && c.Sending? && s.kinds[i] == Direct(true) then Faulted
    else o
  }

  ghost function OutcomeAt(ss: seq<State>, ts: seq<Step>, i: nat, k: nat): Outcome
    requires k <= |ts| < |ss|
    requires forall j | 0 <= j < |ts| :: i < |ss[j].callers| && |ss[j].kinds| == |ss[j].callers|
  {
    if k == 0 then Undecided else Decided(ss[k - 1], ts[k - 1], i, OutcomeAt(ss, ts, i, k - 1))
  }

  /** What is known of the outcome in every phase of a call. */
  predicate PhaseFits(c: Caller, o: Outcome) {
    match c
    case Starting => o == Undecided
    case Holding(_, _) => o == Undecided
    case Sending(_, _) => o == Undecided
    case Answering(_, _) => o == Acknowledged
    case Expired(_, _) => o == TimedOut
    case Finishing(_, _) => o == Acknowledged
    case Unlinked(_, code) => (o == Acknowledged && code == 0) || (o == TimedOut && code == -62)
    case Finished(code) =>
      match o
      case Undecided => false
      case Failed(x) => code == x
      case Acknowledged => code == 0
      case TimedOut => code == -62
      case Faulted => code == -14
  }

  /** A call is decided once: its outcome changes only from undecided, or when the next call begins. */
  lemma DecidedFits(s: State, t: Step, i: nat, o: Outcome)
    requires t.i < |s.callers| && |s.kinds| == |s.callers| && |s.spots| == POOL && i < |s.callers|
    requires PhaseFits(s.callers[i], o)
    ensures |Next(s, t).callers| == |s.callers| && PhaseFits(Next(s, t).callers[i], Decided(s, t, i, o))
    ensures Decided(s, t, i, o) == o || o == Undecided || Decided(s, t, i, o) == Undecided
  {
  }

  lemma {:induction false} OutcomeFits(kinds: seq<Kind>, ss: seq<State>, ts: seq<Step>, i: nat, k: nat)
    requires IsRun(kinds, ss, ts) && k < |ss| && i < |kinds|
    ensures forall j | 0 <= j < |ts| :: i < |ss[j].callers| && |ss[j].kinds| == |ss[j].callers|
    ensures i < |ss[k].callers| && PhaseFits(ss[k].callers[i], OutcomeAt(ss, ts, i, k))
  {
    forall j | 0 <= j < |ts| ensures i < |ss[j].callers| && |ss[j].kinds| == |ss[j].callers| {
      RunInv(kinds, ss, ts, j);
    }
    if k > 0 {
      OutcomeFits(kinds, ss, ts, i, k - 1);
      DecidedFits(ss[k - 1], ts[k - 1], i, OutcomeAt(ss, ts, i, k - 1));
    }
  }

  /** In every run: a call that has taken a wait object ends with 0 if and only if its CALL_ACK came, with
      -62 if and only if the wait for it timed out, and with -14 if and only if the message could not be
      copied back, which happens to direct senders only; a call that failed before that ends with its own
      code. */
  lemma CodeIff(kinds: seq<Kind>, ss: seq<State>, ts: seq<Step>, i: nat, k: nat)
    requires IsRun(kinds, ss, ts) && k < |ss| && i < |kinds|
    ensures forall j | 0 <= j < |ts| :: i < |ss[j].callers| && |ss[j].kinds| == |ss[j].callers|
    ensures i < |ss[k].callers|
    ensures ss[k].callers[i].Finished? ==>
              var code, o := ss[k].callers[i].code, OutcomeAt(ss, ts, i, k);
              if o.Failed? then code == o.code
              else
                && (code == 0 <==> o == Acknowledged) && (code == -62 <==> o == TimedOut)
                && (code == -14 <==> o == Faulted) && (kinds[i] == Rpc ==> code == 0 || code == -62)
  {
    OutcomeFits(kinds, ss, ts, i, k);
    if kinds[i] == Rpc { RpcNeverFaults(kinds, ss, ts, i, k); }
  }

  lemma {:induction false} RpcNeverFaults(kinds: seq<Kind>, ss: seq<State>, ts: seq<Step>, i: nat, k: nat)
    requires IsRun(kinds, ss, ts) && k < |ss| && i < |kinds| && kinds[i] == Rpc
    requires forall j | 0 <= j < |ts| :: i < |ss[j].callers| && |ss[j].kinds| == |ss[j].callers|
    ensures ss[k].kinds == kinds && OutcomeAt(ss, ts, i, k) != Faulted
  {
    if k > 0 { RpcNeverFaults(kinds, ss, ts, i, k - 1); }
  }

  // --- Session ids ----------------------------------------------------------------------------------------

  const SESSIONS := 0x4000_0000

  /** Session id of the n-th call of a CPU: a 30-bit counter below the CPU number. */
  function SessionId(n: nat, cpu: nat): nat { n % SESSIONS + cpu * SESSIONS }

  /** Two calls share a session id exactly when they come from the same CPU and the number of calls
      between them is a multiple of 2^30. */
  lemma SessionsDiffer(n: nat, m: nat, cpu: nat, cpu': nat)
    requires n <= m
    ensures SessionId(n, cpu) == SessionId(m, cpu') <==> cpu == cpu' && (m - n) % SESSIONS == 0
  {
    var a, b := n / SESSIONS, m / SESSIONS;
    assert n == a * SESSIONS + n % SESSIONS && m == b * SESSIONS + m % SESSIONS;
  }
}
