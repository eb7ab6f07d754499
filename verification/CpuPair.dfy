/** Two CPUs running the handshake in both directions at once over the shared records. */
module CpuPair {
  import opened Handshake

  datatype Sys = Sys(sock: seq<int>, recs: seq<Record>,
                     snd: seq<SendPort>, rcv: seq<RecvPort>, sems: map<(int, int), nat>)

  datatype Action =
    | Send(cpu: nat, dir: nat, s: SendStep)
    | Recv(cpu: nat, dir: nat, r: RecvStep)

  function PortId(c: nat, d: nat): nat { 2 * c + d }

  /** The ACK semaphore a sender on CPU `c` registers: socket of the peer, send semaphore of
      the direction, 16 bytes further. */
  function AckAddr(s: Sys, c: nat, d: nat): int
    requires |s.sock| == 2 && c <= 1
  {
    s.sock[c] + 4992 * (1 - c) + (if d == 0 then 8 else 1036) + 16
  }

  /** The semaphores that InitCommSeqMem sets up in the socket of one peer: byte offset and count. */
  const SEMAPHORES: seq<(int, nat)> :=
    [(8, 1), (24, 0), (120, 1), (936, 1), (1036, 1), (1052, 0), (1148, 1)]

  /** Senders wait on semaphores that start at 0, 16 bytes behind the send semaphore of their direction,
      which starts at 1; calls use the first pair of the socket and RETURNs the second. */
  lemma AckSemaphores(s: Sys, c: nat, d: nat)
    requires |s.sock| == 2 && c <= 1 && d <= 1
    ensures var off := AckAddr(s, c, d) - s.sock[c] - 4992 * (1 - c);
            (off, 0) in SEMAPHORES && (off - 16, 1) in SEMAPHORES && off == (if d == 0 then 24 else 1052)
  {
    assert SEMAPHORES[1] == (24, 0) && SEMAPHORES[0] == (8, 1);
    assert SEMAPHORES[5] == (1052, 0) && SEMAPHORES[4] == (1036, 1);
  }

  function SemCount(s: Sys, c: int, addr: int): nat {
    if (c, addr) in s.sems then s.sems[(c, addr)] else 0
  }

  predicate Wf(s: Sys) {
    && |s.sock| == 2 && s.sock[0] > 0 && s.sock[1] > 0
    && |s.recs| == 8 && |s.snd| == 4 && |s.rcv| == 4
  }

  /** State after InitCommMem: nothing posted, send semaphores 1, ACK semaphores 0. */
  predicate Init(s: Sys) {
    && Wf(s)
    && s.sems == map[]
    && (forall k | 0 <= k < 8 :: FreshRecord(s.recs[k]))
    && (forall k | 0 <= k < 4 :: s.snd[k] == SendPort(1, [], false, Quiet, [], 0))
    && (forall k | 0 <= k < 4 :: s.rcv[k] == RecvPort(false, Idle, []))
  }

  predicate FreshRecord(r: Record) {
    && r.msg.status == 0 && r.msg.slot == FREE_SLOT && r.msg.param == NO_SESSION
    && r.ack.status == 0 && r.ack.slot == FREE_SLOT && r.ack.param == NO_SESSION
    && r.msg.entries == seq(FREE_SLOT, _ => NO_SESSION)
  }

  predicate Enabled(s: Sys, a: Action) {
    && Wf(s) && a.cpu <= 1 && a.dir <= 1
    && match a
       case Send(c, d, st) =>
         SendEnabled(s.snd[PortId(c, d)], Sent(s.recs[SeqW(c, 1 - c, d)].msg.status),
                     SemCount(s, c, AckAddr(s, c, d)), st)
       case Recv(c, d, st) =>
         RecvEnabled(s.rcv[PortId(c, d)], Sent(s.recs[SeqW(c, 1 - c, d)].ack.status), d, st)
  }

  function ApplySignal(s: Sys, c: nat, sig: Signal): map<(int, int), nat> {
    match sig
    case NoSignal => s.sems
    case Up(a) => s.sems[(c as int, a) := SemCount(s, c, a) + 1]
    case Down(a) => if SemCount(s, c, a) > 0 then s.sems[(c as int, a) := SemCount(s, c, a) - 1] else s.sems
  }

  /** The sending CPU `c` stores its results: message half of the record it writes, ACK half
      of the record it reads. */
  function StoreSend(s: Sys, c: nat, d: nat, e: SendResult): Sys
    requires Wf(s) && c <= 1 && d <= 1
  {
    var rk, wk := SeqR(c, 1 - c, d), SeqW(c, 1 - c, d);
    s.(snd := s.snd[PortId(c, d) := e.port],
       recs := s.recs[wk := s.recs[wk].(msg := e.msg)][rk := s.recs[rk].(ack := e.ack)],
       sems := ApplySignal(s, c, e.signal))
  }

  /** The receiving CPU `c` stores its results: message half of the record it reads, ACK half
      of the record it writes. */
  function StoreRecv(s: Sys, c: nat, d: nat, e: RecvResult): Sys
    requires Wf(s) && c <= 1 && d <= 1
  {
    var rk, wk := SeqR(c, 1 - c, d), SeqW(c, 1 - c, d);
    s.(rcv := s.rcv[PortId(c, d) := e.port],
       recs := s.recs[rk := s.recs[rk].(msg := e.msg)][wk := s.recs[wk].(ack := e.ack)])
  }

  function Apply(s: Sys, a: Action): Sys
    requires Enabled(s, a)
  {
    var rk, wk := SeqR(a.cpu, 1 - a.cpu, a.dir), SeqW(a.cpu, 1 - a.cpu, a.dir);
    match a
    case Send(c, d, st) =>
      var addr := AckAddr(s, c, d);
      StoreSend(s, c, d, SendEffect(s.snd[PortId(c, d)], s.recs[wk].msg, s.recs[rk].ack, addr, d,
                                    SemCount(s, c, addr), st))
    case Recv(c, d, st) =>
      StoreRecv(s, c, d, RecvEffect(s.rcv[PortId(c, d)], s.recs[rk].msg, s.recs[wk].ack, d, st))
  }

  /** Sender and receiver pick the same record for a message and the same record for its
      ACK; records of different (CPU, CPU, direction) triples do not overlap; the record
      number gives the byte address the driver computes. */
  lemma RecordAgreement(base: int, c: nat, p: nat, d: nat, c': nat, p': nat, d': nat)
    requires c <= 1 && p <= 1 && d <= 1 && c' <= 1 && p' <= 1 && d' <= 1
    ensures SeqW(c, p, d) == SeqR(p, c, d)
    ensures RecordAddr(base, SeqR(c, p, d)) == base + 9760 * c + 4880 * p + 2440 * d + 152
    ensures (c, p, d) != (c', p', d') ==>
              var a, b := RecordAddr(base, SeqW(c, p, d)), RecordAddr(base, SeqW(c', p', d'));
              a + RECORD_SIZE <= b || b + RECORD_SIZE <= a
  {
    if (c, p, d) != (c', p', d') {
      TriplesDiffer(c, p, d, c', p', d');
      RecordsApart(base, SeqW(c, p, d), SeqW(c', p', d'));
    }
  }

  lemma TriplesDiffer(c: nat, p: nat, d: nat, c': nat, p': nat, d': nat)
    requires c <= 1 && p <= 1 && d <= 1 && c' <= 1 && p' <= 1 && d' <= 1 && (c, p, d) != (c', p', d')
    ensures SeqW(c, p, d) != SeqW(c', p', d')
  {
    if p != p' {
      assert p < p' ==> SeqW(c, p, d) < 4 * p' <= SeqW(c', p', d');
      assert p' < p ==> SeqW(c', p', d') < 4 * p <= SeqW(c, p, d);
    } else if c != c' {
      assert c < c' ==> 2 * c + d < 2 * c' + d';
      assert c' < c ==> 2 * c' + d' < 2 * c + d;
    }
  }

  lemma RecordsApart(base: int, k: nat, k': nat)
    requires k != k'
    ensures var a, b := RecordAddr(base, k), RecordAddr(base, k'); a + RECORD_SIZE <= b || b + RECORD_SIZE <= a
  {
  }

  function View(s: Sys, c: nat, d: nat): Chan
    requires Wf(s) && c <= 1 && d <= 1
  {
    var addr := AckAddr(s, c, d);
    Chan(s.snd[PortId(c, d)], s.rcv[PortId(1 - c, d)],
         s.recs[SeqW(c, 1 - c, d)].msg, s.recs[SeqR(c, 1 - c, d)].ack,
         SemCount(s, c, addr), addr)
  }

  ghost predicate Inv(s: Sys) {
    Wf(s) && forall c, d | 0 <= c <= 1 && 0 <= d <= 1 :: ChanInv(View(s, c, d))
  }

  /** The sender of the channel an action belongs to. */
  function Sender(a: Action): nat
    requires a.cpu <= 1
  {
    if a.Send? then a.cpu else 1 - a.cpu
  }

  /** What the sending CPU stores shows up in its own channel and in no other. */
  lemma SendViews(s: Sys, c: nat, d: nat, st: SendStep, c': nat, d': nat)
    requires Wf(s) && c <= 1 && d <= 1 && c' <= 1 && d' <= 1 && Enabled(s, Send(c, d, st))
    requires ChanInv(View(s, c, d))
    ensures var s' := Apply(s, Send(c, d, st));
            && Wf(s')
            && View(s', c, d) == AfterSend(View(s, c, d), d, st)
            && ((c', d') != (c, d) ==> View(s', c', d') == View(s, c', d'))
  {
    var v := View(s, c, d);
    var e := EffectOf(v, d, st);
    SendIsStore(s, c, d, st, e);
    StoreSendOwn(s, c, d, e);
    if (c', d') != (c, d) { StoreSendOther(s, c, d, e, c', d'); }
  }

  /** The effect of a step on a channel signals no semaphore but the channel's own. */
  lemma EffectOf(v: Chan, d: nat, st: SendStep) returns (e: SendResult)
    requires ChanInv(v) && SendEnabled(v.snd, Sent(v.msg.status), v.signals, st)
    ensures e == SendEffect(v.snd, v.msg, v.ack, v.addr, d, v.signals, st)
    ensures e.signal.NoSignal? || e.signal.addr == v.addr
    ensures AfterSend(v, d, st) == v.(snd := e.port, msg := e.msg, ack := e.ack, signals := Signalled(v, e.signal))
  {
    e := SendEffect(v.snd, v.msg, v.ack, v.addr, d, v.signals, st);
  }

  lemma SendIsStore(s: Sys, c: nat, d: nat, st: SendStep, e: SendResult)
    requires Wf(s) && c <= 1 && d <= 1 && Enabled(s, Send(c, d, st))
    requires var v := View(s, c, d); e == SendEffect(v.snd, v.msg, v.ack, v.addr, d, v.signals, st)
    ensures Apply(s, Send(c, d, st)) == StoreSend(s, c, d, e)
  {
  }

  lemma StoreSendOwn(s: Sys, c: nat, d: nat, e: SendResult)
    requires Wf(s) && c <= 1 && d <= 1
    ensures var s' := StoreSend(s, c, d, e);
            && Wf(s')
            && View(s', c, d) == View(s, c, d).(snd := e.port, msg := e.msg, ack := e.ack,
                                                signals := Signalled(View(s, c, d), e.signal))
  {
  }

  lemma StoreSendOther(s: Sys, c: nat, d: nat, e: SendResult, c': nat, d': nat)
    requires Wf(s) && c <= 1 && d <= 1 && c' <= 1 && d' <= 1 && (c', d') != (c, d)
    requires e.signal.NoSignal? || e.signal.addr == AckAddr(s, c, d)
    ensures Wf(StoreSend(s, c, d, e))
    ensures View(StoreSend(s, c, d, e), c', d') == View(s, c', d')
  {
  }

  /** What the receiving CPU stores shows up in its peer's channel and in no other. */
  lemma RecvViews(s: Sys, c: nat, d: nat, st: RecvStep, c': nat, d': nat)
    requires Wf(s) && c <= 1 && d <= 1 && c' <= 1 && d' <= 1 && Enabled(s, Recv(c, d, st))
    ensures var s' := Apply(s, Recv(c, d, st));
            && Wf(s')
            && View(s', 1 - c, d) == AfterRecv(View(s, 1 - c, d), d, st)
            && ((c', d') != (1 - c, d) ==> View(s', c', d') == View(s, c', d'))
  {
    var v := View(s, 1 - c, d);
    var e := RecvEffect(v.rcv, v.msg, v.ack, d, st);
    StoreRecvOwn(s, c, d, e);
    if (c', d') != (1 - c, d) { StoreRecvOther(s, c, d, e, c', d'); }
  }

  lemma StoreRecvOwn(s: Sys, c: nat, d: nat, e: RecvResult)
    requires Wf(s) && c <= 1 && d <= 1
    ensures Wf(StoreRecv(s, c, d, e))
    ensures View(StoreRecv(s, c, d, e), 1 - c, d) ==
            View(s, 1 - c, d).(rcv := e.port, msg := e.msg, ack := e.ack)
  {
  }

  lemma StoreRecvOther(s: Sys, c: nat, d: nat, e: RecvResult, c': nat, d': nat)
    requires Wf(s) && c <= 1 && d <= 1 && c' <= 1 && d' <= 1 && (c', d') != (1 - c, d)
    ensures Wf(StoreRecv(s, c, d, e))
    ensures View(StoreRecv(s, c, d, e), c', d') == View(s, c', d')
  {
  }

  /** Seen from its own channel an action is one channel step; seen from any other channel it
      is no step at all. */
  lemma ActionViews(s: Sys, a: Action, c: nat, d: nat)
    requires Inv(s) && Enabled(s, a) && c <= 1 && d <= 1
    ensures Wf(Apply(s, a))
    ensures (c, d) == (Sender(a), a.dir) ==>
              View(Apply(s, a), c, d) ==
              if a.Send? then AfterSend(View(s, c, d), d, a.s) else AfterRecv(View(s, c, d), d, a.r)
    ensures (c, d) != (Sender(a), a.dir) ==> View(Apply(s, a), c, d) == View(s, c, d)
  {
    match a {
      case Send(e, f, st) =>
        assert ChanInv(View(s, e, f));
        SendViews(s, e, f, st, c, d);
      case Recv(e, f, st) => RecvViews(s, e, f, st, c, d);
    }
  }

  lemma StepInv(s: Sys, a: Action)
    requires Inv(s) && Enabled(s, a)
    ensures Inv(Apply(s, a))
  {
    forall c, d | 0 <= c <= 1 && 0 <= d <= 1
      ensures Wf(Apply(s, a)) && ChanInv(View(Apply(s, a), c, d))
    {
      ActionInv(s, a, c, d);
    }
  }

  lemma ActionInv(s: Sys, a: Action, c: nat, d: nat)
    requires Inv(s) && Enabled(s, a) && c <= 1 && d <= 1
    ensures Wf(Apply(s, a)) && ChanInv(View(Apply(s, a), c, d))
  {
    ActionViews(s, a, c, d);
    var v := View(s, c, d);
    assert ChanInv(v);
    if (c, d) == (Sender(a), a.dir) {
      match a {
        case Send(_, _, st) => SendStepInv(v, d, st);
        case Recv(_, _, st) => RecvStepInv(v, d, st);
      }
    }
  }

  // --- Runs ---------------------------------------------------------------------------

  /** Any interleaving of the two CPUs from an initial state. */
  ghost predicate IsRun(tr: seq<Sys>, acts: seq<Action>) {
    && |tr| == |acts| + 1
    && Init(tr[0])
    && forall i | 0 <= i < |acts| :: Enabled(tr[i], acts[i]) && tr[i + 1] == Apply(tr[i], acts[i])
  }

  lemma ExtendRun(tr: seq<Sys>, acts: seq<Action>, a: Action, s': Sys)
    requires IsRun(tr, acts) && Enabled(tr[|acts|], a) && s' == Apply(tr[|acts|], a)
    ensures IsRun(tr + [s'], acts + [a])
  {
    var tr', acts' := tr + [s'], acts + [a];
    forall i | 0 <= i < |acts'| ensures Enabled(tr'[i], acts'[i]) && tr'[i + 1] == Apply(tr'[i], acts'[i]) {
      if i < |acts| {
        assert tr'[i] == tr[i] && tr'[i + 1] == tr[i + 1] && acts'[i] == acts[i];
      }
    }
  }

  lemma {:induction false} RunInv(tr: seq<Sys>, acts: seq<Action>, i: nat)
    requires IsRun(tr, acts) && i < |tr|
    ensures Inv(tr[i])
  {
    if i == 0 {
      forall c, d | 0 <= c <= 1 && 0 <= d <= 1
        ensures ChanInv(View(tr[0], c, d))
      {
        assert FreshRecord(tr[0].recs[SeqW(c, 1 - c, d)]);
        assert FreshRecord(tr[0].recs[SeqR(c, 1 - c, d)]);
      }
    } else {
      RunInv(tr, acts, i - 1);
      StepInv(tr[i - 1], acts[i - 1]);
    }
  }

  // --- The specification: a rendezvous log ----------------------------------------------

  /** What one channel has done so far: messages posted, messages handed to the receiving
      handler, and how many senders were woken. */
  datatype Log = Log(posted: seq<Msg>, dispatched: seq<Msg>, woken: nat)

  function LogOf(v: Chan): Log { Log(v.snd.posted, v.rcv.dispatched, v.snd.woken) }

  function LogAt(s: Sys, c: nat, d: nat): Log {
    if Wf(s) && c <= 1 && d <= 1 then LogOf(View(s, c, d)) else Log([], [], 0)
  }

  predicate MayPost(l: Log, l': Log) {
    && l.woken == |l.dispatched| == |l.posted|
    && |l'.posted| == |l.posted| + 1 && l.posted <= l'.posted && l' == l.(posted := l'.posted)
  }

  predicate MayDispatch(l: Log, l': Log) {
    |l.dispatched| < |l.posted| && l' == l.(dispatched := l.dispatched + [l.posted[|l.dispatched|]])
  }

  predicate MayWake(l: Log, l': Log) { l.woken < |l.dispatched| && l' == l.(woken := l.woken + 1) }

  /** The rendezvous: post one message, dispatch exactly that message, wake its sender. */
  predicate LogNext(l: Log, l': Log) { l' == l || MayPost(l, l') || MayDispatch(l, l') || MayWake(l, l') }

  lemma SendLog(v: Chan, d: nat, step: SendStep)
    requires ChanInv(v) && SendEnabled(v.snd, Sent(v.msg.status), v.signals, step)
    ensures LogNext(LogOf(v), LogOf(AfterSend(v, d, step)))
    ensures step.Wake? ==> MayWake(LogOf(v), LogOf(AfterSend(v, d, step)))
  {
  }

  lemma RecvLog(v: Chan, d: nat, step: RecvStep)
    requires ChanInv(v) && RecvEnabled(v.rcv, Sent(v.ack.status), d, step)
    ensures LogNext(LogOf(v), LogOf(AfterRecv(v, d, step)))
    ensures step.Dispatch? ==> MayDispatch(LogOf(v), LogOf(AfterRecv(v, d, step)))
  {
  }

  /** Every interleaving, seen from every channel, is a run of the rendezvous log: each
      message is dispatched at most once, in posting order, with its own slot and session,
      and the next one is posted only after the previous sender was woken. */
  lemma HandshakeRefinesLog(tr: seq<Sys>, acts: seq<Action>, c: nat, d: nat, i: nat)
    requires IsRun(tr, acts) && i < |acts| && c <= 1 && d <= 1
    ensures LogNext(LogAt(tr[i], c, d), LogAt(tr[i + 1], c, d))
    ensures IsDispatch(acts[i], c, d) ==> MayDispatch(LogAt(tr[i], c, d), LogAt(tr[i + 1], c, d))
  {
    RunInv(tr, acts, i);
    assert ChanInv(View(tr[i], c, d));
    ActionViews(tr[i], acts[i], c, d);
    if (c, d) == (Sender(acts[i]), acts[i].dir) {
      match acts[i] {
        case Send(_, _, st) => SendLog(View(tr[i], c, d), d, st);
        case Recv(_, _, st) => RecvLog(View(tr[i], c, d), d, st);
      }
    }
  }

  /** The receiver of channel (c, d) hands a message to its handler. */
  predicate IsDispatch(a: Action, c: nat, d: nat) {
    a.Recv? && a.r.Dispatch? && a.cpu + c == 1 && a.dir == d
  }

  lemma {:induction false} LogGrows(logs: seq<Log>, i: nat, j: nat)
    requires i <= j < |logs| && forall k | 0 <= k < |logs| - 1 :: LogNext(logs[k], logs[k + 1])
    ensures logs[i].posted <= logs[j].posted && logs[i].dispatched <= logs[j].dispatched
    decreases j - i
  {
    if i < j {
      LogGrows(logs, i, j - 1);
      assert LogNext(logs[j - 1], logs[j - 1 + 1]);
    }
  }

  lemma LogsGrow(tr: seq<Sys>, acts: seq<Action>, c: nat, d: nat, i: nat, j: nat)
    requires IsRun(tr, acts) && i <= j < |tr| && c <= 1 && d <= 1
    ensures LogAt(tr[i], c, d).posted <= LogAt(tr[j], c, d).posted
    ensures LogAt(tr[i], c, d).dispatched <= LogAt(tr[j], c, d).dispatched
  {
    var logs := seq(|tr|, k requires 0 <= k < |tr| => LogAt(tr[k], c, d));
    forall k | 0 <= k < |logs| - 1
      ensures LogNext(logs[k], logs[k + 1])
    {
      HandshakeRefinesLog(tr, acts, c, d, k);
    }
    LogGrows(logs, i, j);
  }

  /** Exactly-once delivery in order: two dispatches of a run deliver two different messages,
      the earlier-posted one first, each equal to what was posted. */
  lemma DispatchedOnceInOrder(tr: seq<Sys>, acts: seq<Action>, c: nat, d: nat, i: nat, j: nat)
    requires IsRun(tr, acts) && i < j < |acts| && c <= 1 && d <= 1
    requires IsDispatch(acts[i], c, d) && IsDispatch(acts[j], c, d)
    ensures var m, n := |LogAt(tr[i], c, d).dispatched|, |LogAt(tr[j], c, d).dispatched|;
            var end := LogAt(tr[j + 1], c, d);
            && m < n < |end.dispatched| && |end.dispatched| <= |end.posted|
            && end.dispatched[m] == end.posted[m] && end.dispatched[n] == end.posted[n]
            && LogAt(tr[i + 1], c, d).dispatched == end.dispatched[..m + 1]
  {
    HandshakeRefinesLog(tr, acts, c, d, i);
    HandshakeRefinesLog(tr, acts, c, d, j);
    LogsGrow(tr, acts, c, d, i + 1, j);
    LogsGrow(tr, acts, c, d, i, j + 1);
    DispatchedIsPrefix(tr, acts, c, d, j + 1);
  }

  lemma DispatchedIsPrefix(tr: seq<Sys>, acts: seq<Action>, c: nat, d: nat, i: nat)
    requires IsRun(tr, acts) && i < |tr| && c <= 1 && d <= 1
    ensures LogAt(tr[i], c, d).dispatched <= LogAt(tr[i], c, d).posted
  {
    RunInv(tr, acts, i);
    assert ChanInv(View(tr[i], c, d));
  }

  /** A sender is woken only after its own message was dispatched. */
  lemma WokenAfterOwnDispatch(tr: seq<Sys>, acts: seq<Action>, i: nat)
    requires IsRun(tr, acts) && i < |acts| && acts[i].Send? && acts[i].s.Wake?
    ensures var v := View(tr[i], acts[i].cpu, acts[i].dir);
            var k := acts[i].s.i;
            && k < |v.snd.inside| && v.snd.inside[k].phase.Awaiting?
            && var n := v.snd.inside[k].phase.n;
               n < |v.rcv.dispatched| && n < |v.snd.posted| && v.rcv.dispatched[n] == v.snd.posted[n]
  {
    RunInv(tr, acts, i);
    assert ChanInv(View(tr[i], acts[i].cpu, acts[i].dir));
  }

  lemma {:induction false} RunTypes(tr: seq<Sys>, acts: seq<Action>, c: nat, d: nat, i: nat)
    requires IsRun(tr, acts) && i < |tr| && c <= 1 && d <= 1
    ensures Wf(tr[i]) && TypeInv(View(tr[i], c, d), d)
  {
    if i == 0 {
      FirstTypes(tr[0], c, d);
    } else {
      RunTypes(tr, acts, c, d, i - 1);
      RunInv(tr, acts, i - 1);
      RunStep(tr, acts, i - 1);
      TypeStep(tr[i - 1], acts[i - 1], c, d);
    }
  }

  lemma FirstTypes(s: Sys, c: nat, d: nat)
    requires Init(s) && c <= 1 && d <= 1
    ensures TypeInv(View(s, c, d), d)
  {
    assert FreshRecord(s.recs[SeqW(c, 1 - c, d)]);
    assert FreshRecord(s.recs[SeqR(c, 1 - c, d)]);
  }

  lemma RunStep(tr: seq<Sys>, acts: seq<Action>, i: nat)
    requires IsRun(tr, acts) && i < |acts|
    ensures Enabled(tr[i], acts[i]) && tr[i + 1] == Apply(tr[i], acts[i])
  {
  }

  lemma TypeStep(s: Sys, a: Action, c: nat, d: nat)
    requires Inv(s) && Enabled(s, a) && c <= 1 && d <= 1 && TypeInv(View(s, c, d), d)
    ensures Wf(Apply(s, a)) && TypeInv(View(Apply(s, a), c, d), d)
  {
    ActionViews(s, a, c, d);
    var v := View(s, c, d);
    assert ChanInv(v);
    if (c, d) == (Sender(a), a.dir) {
      match a {
        case Send(_, _, st) => SendStepType(v, d, st);
        case Recv(_, _, st) => RecvStepType(v, d, st);
      }
    }
  }

  /** When a sender is woken, the slot byte of its record has been reset to 20, and the ACK it was woken by
      carries 20, the session of its message and the type of its direction. */
  lemma WokenRecord(tr: seq<Sys>, acts: seq<Action>, i: nat)
    requires IsRun(tr, acts) && i < |acts| && acts[i].Send? && acts[i].s.Wake?
    ensures var c, d := acts[i].cpu, acts[i].dir;
            var k := acts[i].s.i;
            && Wf(tr[i]) && c <= 1 && d <= 1 && k < |View(tr[i], c, d).snd.inside|
            && View(tr[i], c, d).snd.inside[k].phase.Awaiting?
            && var n := View(tr[i], c, d).snd.inside[k].phase.n;
               var msg, ack := tr[i].recs[ShareSeq(1 - c, c, d)].msg, tr[i].recs[ShareSeq(c, 1 - c, d)].ack;
               && msg.slot == 20 && ack.slot == 20 && n < |View(tr[i], c, d).snd.posted|
               && ack.param == View(tr[i], c, d).snd.posted[n].session
               && ClearSent(ack.status) == (if d == 0 then 1 else 2)
  {
    var c, d := acts[i].cpu, acts[i].dir;
    RunInv(tr, acts, i);
    RunTypes(tr, acts, c, d, i);
    assert ChanInv(View(tr[i], c, d));
  }

  /** An ACK raises exactly the semaphore its sender registered, and only while that sender
      is the one thread waiting. */
  lemma AckRaisesRegisteredSemaphore(tr: seq<Sys>, acts: seq<Action>, i: nat)
    requires IsRun(tr, acts) && i < |acts| && acts[i].Send? && acts[i].s.SignalAck?
    ensures var c, d := acts[i].cpu, acts[i].dir;
            && tr[i + 1].sems == tr[i].sems[(c as int, AckAddr(tr[i], c, d)) := 1]
            && SemCount(tr[i], c, AckAddr(tr[i], c, d)) == 0
            && HasPosted(View(tr[i], c, d))
  {
    RunInv(tr, acts, i);
    assert ChanInv(View(tr[i], acts[i].cpu, acts[i].dir));
  }

  /** In every run the reset value 20 is never used as an entry index although
      command_action's own check admits it, SendAckLow never finds its sent bit set, and a
      doorbell that carries a message never finds the work item already pending. */
  lemma NoProtocolFault(tr: seq<Sys>, acts: seq<Action>, i: nat)
    requires IsRun(tr, acts) && i < |acts| && acts[i].Recv?
    ensures var v := View(tr[i], 1 - acts[i].cpu, acts[i].dir);
            match acts[i].r
            case StartCmd => v.msg.slot < FREE_SLOT
            case Dispatch(_) => v.rcv.cmd.idx < FREE_SLOT
            case StartAckLow => !Sent(v.ack.status)
            case Doorbell => Sent(v.msg.status) ==> !v.rcv.pending && (v.rcv.cmd == Idle || v.rcv.cmd == AckMarked)
            case _ => true
  {
    RunInv(tr, acts, i);
    assert ChanInv(View(tr[i], 1 - acts[i].cpu, acts[i].dir));
  }
}
