/** The ring FIFO shared by one producer and one consumer that run at the same time.  Every load
    and store of an index is a step of its own; the two programs interleave freely. */
module Spsc {
  /** The producer in fifo_getItemWr, writing its slot, and in fifo_requestItemWr. */
  datatype Producer =
    | PIdle
    | PGotRd(r: nat, seen: nat)
    | PGotBoth(r: nat, seen: nat, w: nat)
    | PWriting(slot: nat, item: int)
    | PCommitRd(slot: nat, item: int, r: nat, seen: nat)
    | PCommitBoth(slot: nat, item: int, r: nat, seen: nat, w: nat)
    | PFailed

  /** The consumer in fifo_getItemRd, reading its slot, and in fifo_ItemRdNext. */
  datatype Consumer =
    | CIdle
    | CGotRd(r: nat)
    | CGotBoth(r: nat, w: nat, seen: nat)
    | CReading(slot: nat)
    | CHolding(slot: nat, item: int)
    | CNextRd(slot: nat, item: int, r: nat)
    | CNextBoth(slot: nat, item: int, r: nat, w: nat, seen: nat)
    | CFailed

  // `seen` is how many items had been consumed, or committed, when the other side's index was loaded;
  // the programs do not read it.

  /** Shared words and slots, the two programs, and the items committed and consumed so far. */
  datatype State = State(rd: nat, wr: nat, slots: seq<int>, p: Producer, c: Consumer,
                         sent: seq<int>, received: seq<int>)

  /** Which program moves; a producer that writes may write any value, any number of times. */
  datatype Move = Produce | Write(v: int) | Consume

  function ProducerStep(s: State): State
    requires |s.slots| > 0
  {
    var cap := |s.slots|;
    match s.p
    case PIdle => s.(p := PGotRd(s.rd, |s.received|))
    case PGotRd(r, seen) => s.(p := PGotBoth(r, seen, s.wr))
    case PGotBoth(r, seen, w) =>
      if r == (w + 1) % cap || w >= cap then s.(p := PIdle) else s.(p := PWriting(w, s.slots[w]))
    case PWriting(slot, item) => s.(p := PCommitRd(slot, item, s.rd, |s.received|))
    case PCommitRd(slot, item, r, seen) => s.(p := PCommitBoth(slot, item, r, seen, s.wr))
    case PCommitBoth(slot, item, r, seen, w) =>
      if r == (w + 1) % cap then s.(p := PFailed)
      else s.(p := PIdle, wr := (w + 1) % cap, sent := s.sent + [item])
    case PFailed => s
  }

  function ConsumerStep(s: State): State
    requires |s.slots| > 0
  {
    var cap := |s.slots|;
    match s.c
    case CIdle => s.(c := CGotRd(s.rd))
    case CGotRd(r) => s.(c := CGotBoth(r, s.wr, |s.sent|))
    case CGotBoth(r, w, seen) => if r == w then s.(c := CIdle) else s.(c := CReading(r))
    case CReading(slot) => if slot >= cap then s.(c := CFailed) else s.(c := CHolding(slot, s.slots[slot]))
    case CHolding(slot, item) => s.(c := CNextRd(slot, item, s.rd))
    case CNextRd(slot, item, r) => s.(c := CNextBoth(slot, item, r, s.wr, |s.sent|))
    case CNextBoth(slot, item, r, w, seen) =>
      if r == w then s.(c := CFailed)
      else s.(c := CIdle, rd := (r + 1) % cap, received := s.received + [item])
    case CFailed => s
  }

  function Next(s: State, m: Move): State
    requires |s.slots| > 0
  {
    match m
    case Produce => ProducerStep(s)
    case Consume => ConsumerStep(s)
    case Write(v) =>
      if s.p.PWriting? && s.p.slot < |s.slots| then
        s.(slots := s.slots[s.p.slot := v], p := PWriting(s.p.slot, v))
      else s
  }

  // --- The invariant ------------------------------------------------------------------------------

  lemma Multiples(d: int, cap: nat)
    requires cap > 0
    ensures d >= 1 ==> d * cap >= cap
    ensures d <= -1 ==> d * cap + cap <= 0
  {
    assert (d - 1) * cap == d * cap - cap;
    assert (d + 1) * cap == d * cap + cap;
  }

  lemma ModUnique(x: nat, q: int, r: nat, cap: nat)
    requires r < cap && x == q * cap + r
    ensures x % cap == r
  {
    var d := x / cap - q;
    assert d * cap == x / cap * cap - q * cap;
    Multiples(d, cap);
  }

  /** Numbers less than cap apart have different remainders. */
  lemma ModDiffer(a: nat, b: nat, cap: nat)
    requires a < b < a + cap
    ensures a % cap != b % cap
  {
    var d := b / cap - a / cap;
    assert d * cap == b / cap * cap - a / cap * cap;
    Multiples(d, cap);
  }

  lemma ModWhole(a: nat, cap: nat)
    requires cap > 0
    ensures (a + cap) % cap == a % cap
  {
    assert (a / cap + 1) * cap == a / cap * cap + cap;
    ModUnique(a + cap, a / cap + 1, a % cap, cap);
  }

  lemma ModNext(a: nat, cap: nat)
    requires cap > 0
    ensures (a + 1) % cap == (a % cap + 1) % cap
  {
    var q, r := a / cap, a % cap;
    if r + 1 == cap {
      assert (q + 1) * cap == q * cap + cap;
      ModUnique(a + 1, q + 1, 0, cap);
      ModUnique(cap, 1, 0, cap);
    } else {
      ModUnique(a + 1, q, r + 1, cap);
      ModUnique(r + 1, 0, r + 1, cap);
    }
  }

  /** What the producer knows.  Its view of rd may be out of date. */
  predicate ProducerInv(s: State)
    requires |s.slots| > 0
  {
    var cap, R, W := |s.slots|, |s.received|, |s.sent|;
    match s.p
    case PIdle => true
    case PGotRd(r, seen) => r == seen % cap && seen <= R && W < seen + cap
    case PGotBoth(r, seen, w) => r == seen % cap && seen <= R && W < seen + cap && w == W % cap
    case PWriting(slot, item) => slot == W % cap && s.slots[slot] == item && W + 1 < R + cap
    case PCommitRd(slot, item, r, seen) =>
      slot == W % cap && s.slots[slot] == item && r == seen % cap && seen <= R && W + 1 < seen + cap
    case PCommitBoth(slot, item, r, seen, w) =>
      slot == W % cap && s.slots[slot] == item && r == seen % cap && seen <= R && W + 1 < seen + cap && w == W % cap
    case PFailed => false
  }

  /** What the consumer knows.  Its view of wr may be out of date. */
  predicate ConsumerInv(s: State)
    requires |s.slots| > 0
  {
    var cap, R, W := |s.slots|, |s.received|, |s.sent|;
    match s.c
    case CIdle => true
    case CGotRd(r) => r == R % cap
    case CGotBoth(r, w, seen) => r == R % cap && w == seen % cap && R <= seen <= W
    case CReading(slot) => slot == R % cap && R < W
    case CHolding(slot, item) => slot == R % cap && R < W && item == s.sent[R]
    case CNextRd(slot, item, r) => slot == R % cap && R < W && item == s.sent[R] && r == R % cap
    case CNextBoth(slot, item, r, w, seen) =>
      slot == R % cap && R < seen <= W && item == s.sent[R] && r == R % cap && w == seen % cap
    case CFailed => false
  }

  /** The shared part: the indices count the items modulo the capacity, what was consumed is what
      was committed first, and the slots in between hold the rest. */
  predicate RingInv(s: State) {
    var cap, R, W := |s.slots|, |s.received|, |s.sent|;
    && cap > 0 && R <= W < R + cap && s.rd == R % cap && s.wr == W % cap
    && s.received == s.sent[..R]
    && (forall i | R <= i < W :: s.slots[i % cap] == s.sent[i])
  }

  predicate Inv(s: State) { RingInv(s) && ProducerInv(s) && ConsumerInv(s) }

  /** A get that does not see a full FIFO leaves room for one more item. */
  lemma GetKeeps(s: State)
    requires Inv(s) && s.p.PGotBoth?
    ensures Inv(ProducerStep(s))
  {
    var cap, W, seen := |s.slots|, |s.sent|, s.p.seen;
    ModNext(W, cap);
    ModWhole(seen, cap);
  }

  /** A commit after such a get finds room, whatever it sees of the consumer's progress. */
  lemma CommitKeeps(s: State)
    requires Inv(s) && s.p.PCommitBoth?
    ensures Inv(ProducerStep(s))
  {
    var cap, W, seen := |s.slots|, |s.sent|, s.p.seen;
    ModNext(W, cap);
    ModDiffer(seen, W + 1, cap);
    var s' := ProducerStep(s);
    assert s'.sent == s.sent + [s.p.item];
    forall i | |s.received| <= i < W + 1 ensures s'.slots[i % cap] == s'.sent[i] {}
  }

  lemma ProducerKeeps(s: State)
    requires Inv(s)
    ensures Inv(ProducerStep(s))
  {
    if s.p.PGotBoth? { GetKeeps(s); } else if s.p.PCommitBoth? { CommitKeeps(s); }
  }

  lemma WriteKeeps(s: State, v: int)
    requires Inv(s)
    ensures Inv(Next(s, Write(v)))
  {
    var cap, R, W := |s.slots|, |s.received|, |s.sent|;
    if s.p.PWriting? {
      var s' := Next(s, Write(v));
      forall i | R <= i < W ensures s'.slots[i % cap] == s'.sent[i] { ModDiffer(i, W, cap); }
    }
  }

  /** The advance after a successful get finds an item, and takes the one that was read. */
  lemma AdvanceKeeps(s: State)
    requires Inv(s) && s.c.CNextBoth?
    ensures Inv(ConsumerStep(s))
  {
    var cap, R := |s.slots|, |s.received|;
    ModNext(R, cap);
    ModDiffer(R, s.c.seen, cap);
    assert s.sent[..R + 1] == s.sent[..R] + [s.sent[R]];
  }

  lemma ConsumerKeeps(s: State)
    requires Inv(s)
    ensures Inv(ConsumerStep(s))
  {
    if s.c.CNextBoth? { AdvanceKeeps(s); }
  }

  // --- Runs ------------------------------------------------------------------------------------------

  ghost predicate IsRun(ss: seq<State>, ms: seq<Move>) {
    && |ss| == |ms| + 1
    && |ss[0].slots| > 0 && ss[0] == State(0, 0, ss[0].slots, PIdle, CIdle, [], [])
    && forall i | 0 <= i < |ms| :: |ss[i].slots| > 0 && ss[i + 1] == Next(ss[i], ms[i])
  }

  lemma {:induction false} RunInv(ss: seq<State>, ms: seq<Move>, k: nat)
    requires IsRun(ss, ms) && k < |ss|
    ensures Inv(ss[k]) && |ss[k].slots| == |ss[0].slots|
  {
    if k > 0 {
      RunInv(ss, ms, k - 1);
      var s := ss[k - 1];
      match ms[k - 1]
      case Produce => ProducerKeeps(s);
      case Consume => ConsumerKeeps(s);
      case Write(v) => WriteKeeps(s, v);
    }
  }

  /** In every interleaving the consumer receives the committed items, each once and in order; what
      it has not received is what the indices delimit; no commit or advance that follows a successful
      get fails. */
  lemma FifoRefinement(ss: seq<State>, ms: seq<Move>, k: nat)
    requires IsRun(ss, ms) && k < |ss|
    ensures var s := ss[k];
            && s.received <= s.sent && |s.slots| > 0
            && (forall i | |s.received| <= i < |s.sent| :: s.slots[i % |s.slots|] == s.sent[i])
            && |s.sent| - |s.received| < |s.slots|
            && !s.p.PFailed? && !s.c.CFailed?
  {
    RunInv(ss, ms, k);
  }

  /** A producer's get gives up exactly when the FIFO was full as it loaded the read index, a consumer's
      exactly when it was empty as it loaded the write index. */
  lemma GetGivesUpIff(ss: seq<State>, ms: seq<Move>, k: nat)
    requires IsRun(ss, ms) && k < |ss| && |ss[k].slots| > 0
    ensures ss[k].p.PGotBoth? ==>
              (ProducerStep(ss[k]).p == PIdle <==> |ss[k].sent| - ss[k].p.seen == |ss[k].slots| - 1)
    ensures ss[k].c.CGotBoth? ==> (ConsumerStep(ss[k]).c == CIdle <==> ss[k].c.seen == |ss[k].received|)
  {
    RunInv(ss, ms, k);
    var s := ss[k];
    var cap := |s.slots|;
    if s.p.PGotBoth? {
      ModNext(|s.sent|, cap);
      ModWhole(s.p.seen, cap);
      if s.p.seen < |s.sent| + 1 < s.p.seen + cap { ModDiffer(s.p.seen, |s.sent| + 1, cap); }
    }
    if s.c.CGotBoth? && |s.received| < s.c.seen { ModDiffer(|s.received|, s.c.seen, cap); }
  }

  /** n moves of one kind. */
  function Moves(s: State, m: Move, n: nat): (s': State)
    requires |s.slots| > 0
    ensures |s'.slots| == |s.slots|
  {
    if n == 0 then s else Next(Moves(s, m, n - 1), m)
  }

  /** A producer that is left alone queues v unless the FIFO is full: a get of three steps, the write, and a
      commit of three steps. */
  lemma PutAlone(ss: seq<State>, ms: seq<Move>, k: nat, v: int)
    requires IsRun(ss, ms) && k < |ss| && ss[k].p == PIdle && |ss[k].slots| > 0
    requires |ss[k].sent| - |ss[k].received| < |ss[k].slots| - 1
    ensures Moves(Next(Moves(ss[k], Produce, 3), Write(v)), Produce, 3).sent == ss[k].sent + [v]
    ensures Moves(Next(Moves(ss[k], Produce, 3), Write(v)), Produce, 3).p == PIdle
  {
    RunInv(ss, ms, k);
    var s := ss[k];
    var cap := |s.slots|;
    ModNext(|s.sent|, cap);
    ModDiffer(|s.received|, |s.sent| + 1, cap);
    var s1 := Next(s, Produce);
    var s2 := Next(s1, Produce);
    var s3 := Next(s2, Produce);
    assert Moves(s, Produce, 1) == s1 && Moves(s, Produce, 2) == s2 && Moves(s, Produce, 3) == s3;
    var t := Next(s3, Write(v));
    var t1 := Next(t, Produce);
    var t2 := Next(t1, Produce);
    assert Moves(t, Produce, 1) == t1 && Moves(t, Produce, 2) == t2;
  }

  /** A consumer that is left alone takes the oldest item unless the FIFO is empty, in seven steps. */
  lemma GetAlone(ss: seq<State>, ms: seq<Move>, k: nat)
    requires IsRun(ss, ms) && k < |ss| && ss[k].c == CIdle && |ss[k].slots| > 0
    requires |ss[k].received| < |ss[k].sent|
    ensures Moves(ss[k], Consume, 7).received == ss[k].received + [ss[k].sent[|ss[k].received|]]
    ensures Moves(ss[k], Consume, 7).c == CIdle
  {
    RunInv(ss, ms, k);
    var s := ss[k];
    var cap, R := |s.slots|, |s.received|;
    ModDiffer(R, |s.sent|, cap);
    var s1 := Next(s, Consume);
    var s2 := Next(s1, Consume);
    var s3 := Next(s2, Consume);
    assert Moves(s, Consume, 1) == s1 && Moves(s, Consume, 2) == s2 && Moves(s, Consume, 3) == s3;
    var s4 := Next(s3, Consume);
    var s5 := Next(s4, Consume);
    assert Moves(s, Consume, 4) == s4 && Moves(s, Consume, 5) == s5;
    var s6 := Next(s5, Consume);
    assert Moves(s, Consume, 6) == s6;
  }

  /** The slot being written is none of the slots that can be read, and not the one the consumer
      holds. */
  lemma WritingUnreadable(ss: seq<State>, ms: seq<Move>, k: nat)
    requires IsRun(ss, ms) && k < |ss| && (ss[k].p.PWriting? || ss[k].p.PCommitRd? || ss[k].p.PCommitBoth?)
    ensures |ss[k].slots| > 0
    ensures forall i | |ss[k].received| <= i < |ss[k].sent| :: i % |ss[k].slots| != ss[k].p.slot
    ensures (ss[k].c.CReading? || ss[k].c.CHolding? || ss[k].c.CNextRd? || ss[k].c.CNextBoth?) ==>
              ss[k].c.slot != ss[k].p.slot
  {
    RunInv(ss, ms, k);
    var s := ss[k];
    var cap, R, W := |s.slots|, |s.received|, |s.sent|;
    forall i | R <= i < W ensures i % cap != s.p.slot {
      ModDiffer(i, W, cap);
    }
  }
}
