/** The message/ACK handshake between the two CPUs (cpu_comm_proto.c).

    A message from CPU `c` to its peer travels in the message half of one 2440-byte shared
    record; the peer's ACK travels back in the ACK half of the mirror record.  Each CPU
    finds these records with `SeqR` and `SeqW`.  The steps are the single stores, flag loads and
    wake-ups of SendCommLow, the doorbell handlers, the deferred work items, command_action,
    SendAckLow and ack_action; filling a call entry and handing a message to its handler are
    one step each.  A doorbell step may be taken at any time, whether or not the peer rang, so
    duplicate and spurious doorbells are included. */
module Handshake {

  const FREE_SLOT: nat := 20     // value of the slot byte when no message is posted
  const FIFO_CAP: nat := 21      // the bound command_action compares the slot byte with
  const NO_SESSION: int := -1

  // --- Bit 2 (MSG_FLAG_SENT) of a status byte ---------------------------------

  predicate Sent(b: nat) { b / 4 % 2 == 1 }
  function SetSent(b: nat): nat { if Sent(b) then b else b + 4 }
  function ClearSent(b: nat): nat { if Sent(b) then b - 4 else b }

  // --- Shared records ----------------------------------------------------------

  /** Offsets 4..24 of a record, and the session ids of its 20 call entries. */
  datatype MsgHalf = MsgHalf(counter: nat, status: nat, slot: nat, param: int, sem: int, entries: seq<int>)

  /** Offsets 104..112 of a record. */
  datatype AckHalf = AckHalf(slot: nat, status: nat, param: int, sem: int)

  datatype Record = Record(local: nat, remote: nat, dir: nat, msg: MsgHalf, ack: AckHalf)

  const RECORD_SIZE := 2440

  /** Number of the record for (cpu, remote, dir) in the array of eight records that starts
      152 bytes into the shared memory. */
  function ShareSeq(cpu: nat, remote: nat, dir: nat): nat { 4 * cpu + 2 * remote + dir }

  function RecordAddr(base: int, k: nat): int { base + 152 + RECORD_SIZE * k }

  /** The record that CPU `cur` reads messages of `cpu` from. */
  function SeqR(cur: nat, cpu: nat, dir: nat): nat { ShareSeq(cur, cpu, dir) }

  /** The record that CPU `cur` writes messages to `cpu` into. */
  function SeqW(cur: nat, cpu: nat, dir: nat): nat { ShareSeq(cpu, cur, dir) }

  // --- Effects of the protocol functions on a record half ------------------------

  /** The stores of SendCommLow, in program order. */
  const MSG_STORES := 5

  function StoreMsgField(m: MsgHalf, n: nat, slot: nat, typ: nat, param: int, sem: int): MsgHalf {
    match n
    case 0 => m.(slot := slot)
    case 1 => m.(param := param)
    case 2 => m.(sem := sem)
    case 3 => m.(counter := m.counter + 1)
    case _ => m.(status := typ)
  }

  function PostFields(m: MsgHalf, slot: nat, typ: nat, param: int, sem: int): MsgHalf {
    m.(slot := slot, param := param, sem := sem, counter := m.counter + 1, status := typ)
  }

  /** The stores of SendAckLow, in program order. */
  const ACK_STORES := 4

  function StoreAckField(a: AckHalf, n: nat, x: AckHalf): AckHalf {
    match n
    case 0 => a.(slot := x.slot)
    case 1 => a.(param := x.param)
    case 2 => a.(status := x.status)
    case _ => a.(sem := x.sem)
  }

  function EntrySession(m: MsgHalf, i: nat): int {
    if i < |m.entries| then m.entries[i] else NO_SESSION
  }

  // --- Per-CPU state ------------------------------------------------------------

  datatype Msg = Msg(slot: nat, session: int)

  /** Where a thread stands between taking and releasing the send semaphore. */
  datatype Phase =
    | Holding
    | Filled(m: Msg)
    | Posting(m: Msg, stores: nat)   // that many stores of SendCommLow are done
    | Marked(n: nat)                 // sent bit set, spinning until it reads back
    | Awaiting(n: nat)
    | Woken

  datatype Member = Member(thread: int, phase: Phase)

  datatype CmdPhase =
    | Idle
    | Entered(idx: nat)
    | Dispatched
    | SlotReset
    | Acking(x: AckHalf, stores: nat)   // SendAckLow with its arguments, that many stores done
    | AckMarked                         // sent bit of the ACK set, spinning until it reads back

  datatype AckPhase = Quiet | Consumed

  /** Sending side of one (CPU, direction): semaphore, threads inside it, ACK work item. */
  datatype SendPort = SendPort(sendSem: nat, inside: seq<Member>, ackPending: bool, ackPhase: AckPhase,
                               posted: seq<Msg>, woken: nat)

  /** Receiving side of one (CPU, direction): the command work item. */
  datatype RecvPort = RecvPort(pending: bool, cmd: CmdPhase, dispatched: seq<Msg>)

  function MsgType(d: nat): nat { if d == 0 then 1 else 2 }

  // --- Steps of the sending side ---------------------------------------------------

  datatype SendStep =
    | Acquire(thread: int)
    | Fill(i: nat, m: Msg)
    | StoreMsg(i: nat)
    | MarkSent(i: nat)
    | SeeSent(i: nat)
    | Wake(i: nat)
    | Release(i: nat)
    | AckDoorbell
    | StartAck
    | SignalAck

  /** What a sending-side step does to the semaphores of its CPU. */
  datatype Signal = NoSignal | Up(addr: int) | Down(addr: int)

  datatype SendResult = SendResult(port: SendPort, msg: MsgHalf, ack: AckHalf, signal: Signal)

  /** `sent` is the sent bit of the message half, `signals` the count of the ACK semaphore.  A thread
      that cannot fill its entry, or cannot copy the message back, releases without posting. */
  predicate SendEnabled(p: SendPort, sent: bool, signals: nat, step: SendStep) {
    match step
    case Acquire(_) => p.sendSem > 0
    case Fill(i, m) => i < |p.inside| && p.inside[i].phase == Holding && m.slot < FREE_SLOT
    case StoreMsg(i) =>
      i < |p.inside| &&
      (p.inside[i].phase.Filled? || (p.inside[i].phase.Posting? && p.inside[i].phase.stores < MSG_STORES))
    case MarkSent(i) => i < |p.inside| && p.inside[i].phase.Posting? && p.inside[i].phase.stores == MSG_STORES
    case SeeSent(i) => i < |p.inside| && p.inside[i].phase.Marked? && sent
    case Wake(i) => i < |p.inside| && p.inside[i].phase.Awaiting? && signals > 0
    case Release(i) =>
      i < |p.inside| && (p.inside[i].phase == Holding || p.inside[i].phase.Filled? || p.inside[i].phase == Woken)
    case AckDoorbell => true
    case StartAck => p.ackPending && p.ackPhase == Quiet
    case SignalAck => p.ackPhase == Consumed
  }

  function WithPhase(p: SendPort, i: nat, ph: Phase): SendPort
    requires i < |p.inside|
  {
    p.(inside := p.inside[i := p.inside[i].(phase := ph)])
  }

  /** `m` is the message half this CPU writes, `a` the ACK half it reads, `addr` the
      semaphore it waits on. */
  function SendEffect(p: SendPort, m: MsgHalf, a: AckHalf, addr: int, d: nat, signals: nat, step: SendStep): SendResult
    requires SendEnabled(p, Sent(m.status), signals, step)
  {
    match step
    case Acquire(t) =>
      SendResult(p.(sendSem := p.sendSem - 1, inside := p.inside + [Member(t, Holding)]), m, a, NoSignal)
    case Fill(i, msg) =>
      SendResult(WithPhase(p, i, Filled(msg)),
                 if msg.slot < |m.entries| then m.(entries := m.entries[msg.slot := msg.session]) else m, a, NoSignal)
    case StoreMsg(i) =>
      var msg, n := p.inside[i].phase.m, if p.inside[i].phase.Filled? then 0 else p.inside[i].phase.stores;
      SendResult(WithPhase(p, i, Posting(msg, n + 1)),
                 StoreMsgField(m, n, msg.slot, MsgType(d), msg.session, addr), a, NoSignal)
    case MarkSent(i) =>
      SendResult(WithPhase(p, i, Marked(|p.posted|)).(posted := p.posted + [p.inside[i].phase.m]),
                 m.(status := SetSent(m.status)), a, NoSignal)
    case SeeSent(i) =>
      SendResult(WithPhase(p, i, Awaiting(p.inside[i].phase.n)), m, a, NoSignal)
    case Wake(i) =>
      SendResult(WithPhase(p, i, Woken).(woken := p.woken + 1), m, a, Down(addr))
    case Release(i) =>
      SendResult(p.(sendSem := p.sendSem + 1, inside := p.inside[..i] + p.inside[i + 1..]), m, a, NoSignal)
    case AckDoorbell =>
      SendResult(p.(ackPending := true), m, a, NoSignal)
    case StartAck =>
      if Sent(a.status) then
        SendResult(p.(ackPending := false, ackPhase := Consumed), m, a.(status := ClearSent(a.status)), NoSignal)
      else SendResult(p.(ackPending := false), m, a, NoSignal)
    case SignalAck =>
      SendResult(p.(ackPhase := Quiet), m, a, if a.sem == 0 then NoSignal else Up(a.sem))
  }

  // --- Steps of the receiving side --------------------------------------------------

  datatype RecvStep =
    | Doorbell
    | StartCmd
    | Dispatch(acks: bool)
    | ResetSlot
    | StartAckLow
    | StoreAck
    | MarkAckSent
    | SeeAckSent

  datatype RecvResult = RecvResult(port: RecvPort, msg: MsgHalf, ack: AckHalf)

  /** `Dispatch(false)` is a RETURN whose waiter is not found: command_action then leaves
      without an ACK.  `ackSent` is the sent bit of the ACK half. */
  predicate RecvEnabled(q: RecvPort, ackSent: bool, d: nat, step: RecvStep) {
    match step
    case Doorbell => true
    case StartCmd => q.pending && q.cmd == Idle
    case Dispatch(acks) => q.cmd.Entered? && (acks || d == 1)
    case ResetSlot => q.cmd == Dispatched
    case StartAckLow => q.cmd == SlotReset
    case StoreAck => q.cmd.Acking? && q.cmd.stores < ACK_STORES
    case MarkAckSent => q.cmd.Acking? && q.cmd.stores == ACK_STORES
    case SeeAckSent => q.cmd == AckMarked && ackSent
  }

  /** `m` is the message half this CPU reads, `a` the ACK half it writes. */
  function RecvEffect(q: RecvPort, m: MsgHalf, a: AckHalf, d: nat, step: RecvStep): RecvResult
    requires RecvEnabled(q, Sent(a.status), d, step)
  {
    match step
    case Doorbell =>
      if Sent(m.status) then RecvResult(q.(pending := true), m.(status := ClearSent(m.status)), a)
      else RecvResult(q, m, a)
    case StartCmd =>
      RecvResult(q.(pending := false, cmd := if m.slot >= FIFO_CAP then Idle else Entered(m.slot)), m, a)
    case Dispatch(acks) =>
      RecvResult(q.(dispatched := q.dispatched + [Msg(q.cmd.idx, EntrySession(m, q.cmd.idx))],
                    cmd := if acks then Dispatched else Idle), m, a)
    case ResetSlot =>
      RecvResult(q.(cmd := SlotReset), m.(slot := FREE_SLOT), a)
    case StartAckLow =>
      if Sent(a.status) then RecvResult(q.(cmd := Idle), m, a)
      else RecvResult(q.(cmd := Acking(AckHalf(m.slot, m.status, m.param, m.sem), 0)), m, a)
    case StoreAck =>
      RecvResult(q.(cmd := Acking(q.cmd.x, q.cmd.stores + 1)), m, StoreAckField(a, q.cmd.stores, q.cmd.x))
    case MarkAckSent =>
      RecvResult(q.(cmd := AckMarked), m, a.(status := SetSent(a.status)))
    case SeeAckSent =>
      RecvResult(q.(cmd := Idle), m, a)
  }

  // --- One sender's channel and its invariant ---------------------------------------

  /** Everything one (sender, direction) channel depends on. */
  datatype Chan = Chan(snd: SendPort, rcv: RecvPort, msg: MsgHalf, ack: AckHalf, signals: nat, addr: int)

  function One(b: bool): nat { if b then 1 else 0 }

  /** A sender has posted and not been woken. */
  predicate HasPosted(v: Chan) {
    |v.snd.inside| == 1 && (v.snd.inside[0].phase.Marked? || v.snd.inside[0].phase.Awaiting?)
  }

  /** A message that was marked sent and not yet handed to its handler. */
  predicate Undispatched(v: Chan) { Sent(v.msg.status) || v.rcv.pending || v.rcv.cmd.Entered? }

  /** How many places hold the one token that circulates while a sender waits. */
  function Tokens(v: Chan): nat {
    One(Sent(v.msg.status)) + One(v.rcv.pending) + One(v.rcv.cmd != Idle && v.rcv.cmd != AckMarked) +
    One(Sent(v.ack.status)) + One(v.snd.ackPhase == Consumed) + v.signals
  }

  predicate PhaseInv(v: Chan, ph: Phase) {
    match ph
    case Holding => true
    case Filled(m) => m.slot < FREE_SLOT && EntrySession(v.msg, m.slot) == m.session
    case Posting(m, n) =>
      && m.slot < FREE_SLOT && EntrySession(v.msg, m.slot) == m.session && 1 <= n <= MSG_STORES
      && v.msg.slot == m.slot && (n >= 2 ==> v.msg.param == m.session) && (n >= 3 ==> v.msg.sem == v.addr)
    case Marked(n) => n + 1 == |v.snd.posted| && v.msg.sem == v.addr && v.msg.param == v.snd.posted[n].session
    case Awaiting(n) => n + 1 == |v.snd.posted| && v.msg.sem == v.addr && v.msg.param == v.snd.posted[n].session
    case Woken => v.msg.slot == FREE_SLOT
  }

  predicate ChanInv(v: Chan) {
    && v.addr != 0
    && |v.msg.entries| == FREE_SLOT
    && v.snd.sendSem + |v.snd.inside| == 1
    && Tokens(v) <= One(HasPosted(v))
    && (|v.snd.inside| == 1 ==> PhaseInv(v, v.snd.inside[0].phase))
    && |v.snd.posted| == v.snd.woken + One(HasPosted(v))
    && |v.snd.posted| == |v.rcv.dispatched| + One(Undispatched(v))
    && v.rcv.dispatched <= v.snd.posted
    && (Undispatched(v) ==>
          var last := v.snd.posted[|v.snd.posted| - 1];
          && v.msg.slot == last.slot < FREE_SLOT
          && EntrySession(v.msg, last.slot) == last.session
          && v.msg.param == last.session)
    && (v.rcv.cmd.Entered? ==> v.rcv.cmd.idx == v.msg.slot)
    && (v.rcv.cmd.Acking? ==> AckingInv(v, v.rcv.cmd.x, v.rcv.cmd.stores))
    && (v.rcv.cmd == SlotReset || v.rcv.cmd.Acking? ==> v.msg.slot == FREE_SLOT)
    && (Sent(v.ack.status) || v.snd.ackPhase == Consumed ==> v.ack.sem == v.addr)
    && (Acked(v) ==> v.msg.slot == FREE_SLOT && v.ack.slot == FREE_SLOT && v.ack.param == v.msg.param)
  }

  /** The ACK of the waiting sender is complete. */
  predicate Acked(v: Chan) { Sent(v.ack.status) || v.snd.ackPhase == Consumed || v.signals > 0 }

  predicate AckingInv(v: Chan, x: AckHalf, n: nat) {
    && x.slot == FREE_SLOT && x.param == v.msg.param && x.sem == v.addr && !Sent(x.status) && n <= ACK_STORES
    && (n >= 1 ==> v.ack.slot == FREE_SLOT) && (n >= 2 ==> v.ack.param == v.msg.param)
    && (n == ACK_STORES ==> v.ack.sem == v.addr)
  }

  /** The count of the channel's ACK semaphore after a signal. */
  function Signalled(v: Chan, sig: Signal): nat {
    match sig
    case NoSignal => v.signals
    case Up(a) => if a == v.addr then v.signals + 1 else v.signals
    case Down(a) => if a == v.addr && v.signals > 0 then v.signals - 1 else v.signals
  }

  function AfterSend(v: Chan, d: nat, step: SendStep): Chan
    requires SendEnabled(v.snd, Sent(v.msg.status), v.signals, step)
  {
    var e := SendEffect(v.snd, v.msg, v.ack, v.addr, d, v.signals, step);
    v.(snd := e.port, msg := e.msg, ack := e.ack, signals := Signalled(v, e.signal))
  }

  function AfterRecv(v: Chan, d: nat, step: RecvStep): Chan
    requires RecvEnabled(v.rcv, Sent(v.ack.status), d, step)
  {
    var e := RecvEffect(v.rcv, v.msg, v.ack, d, step);
    v.(rcv := e.port, msg := e.msg, ack := e.ack)
  }

  lemma SendStepInv(v: Chan, d: nat, step: SendStep)
    requires ChanInv(v) && SendEnabled(v.snd, Sent(v.msg.status), v.signals, step)
    ensures ChanInv(AfterSend(v, d, step))
  {
    if Posts(step) { PostStepInv(v, d, step); } else { WakeStepInv(v, d, step); }
  }

  predicate Posts(step: SendStep) { step.Acquire? || step.Fill? || step.StoreMsg? || step.MarkSent? || step.SeeSent? }

  lemma PostStepInv(v: Chan, d: nat, step: SendStep)
    requires ChanInv(v) && SendEnabled(v.snd, Sent(v.msg.status), v.signals, step) && Posts(step)
    ensures ChanInv(AfterSend(v, d, step))
  {
  }

  lemma WakeStepInv(v: Chan, d: nat, step: SendStep)
    requires ChanInv(v) && SendEnabled(v.snd, Sent(v.msg.status), v.signals, step) && !Posts(step)
    ensures ChanInv(AfterSend(v, d, step))
  {
  }

  lemma RecvStepInv(v: Chan, d: nat, step: RecvStep)
    requires ChanInv(v) && RecvEnabled(v.rcv, Sent(v.ack.status), d, step)
    ensures ChanInv(AfterRecv(v, d, step))
  {
  }

  // --- The type of a message and of its ACK ------------------------------------------

  /** The status byte of a posted message is the type of its direction, and so is that of its ACK, apart
      from the sent bits. */
  predicate TypeInv(v: Chan, d: nat) {
    && (|v.snd.inside| == 1 && v.snd.inside[0].phase.Posting? && v.snd.inside[0].phase.stores == MSG_STORES ==>
          v.msg.status == MsgType(d))
    && (HasPosted(v) ==> ClearSent(v.msg.status) == MsgType(d))
    && (v.rcv.cmd.Acking? ==>
          v.rcv.cmd.x.status == MsgType(d) && (v.rcv.cmd.stores >= 3 ==> v.ack.status == MsgType(d)))
    && (Acked(v) ==> ClearSent(v.ack.status) == MsgType(d))
  }

  lemma SendStepType(v: Chan, d: nat, step: SendStep)
    requires ChanInv(v) && TypeInv(v, d) && SendEnabled(v.snd, Sent(v.msg.status), v.signals, step)
    ensures TypeInv(AfterSend(v, d, step), d)
  {
  }

  lemma RecvStepType(v: Chan, d: nat, step: RecvStep)
    requires ChanInv(v) && TypeInv(v, d) && RecvEnabled(v.rcv, Sent(v.ack.status), d, step)
    ensures TypeInv(AfterRecv(v, d, step), d)
  {
  }

  // --- Progress -----------------------------------------------------------------------

  /** SendCommLow spins until it reads its sent bit back: a doorbell that is served before that takes
      the bit away for good. */
  predicate SenderStuck(v: Chan) {
    |v.snd.inside| == 1 && v.snd.inside[0].phase.Marked? && !Sent(v.msg.status)
  }

  /** SendAckLow spins in the same way on the bit of its ACK. */
  predicate ReceiverStuck(v: Chan) { v.rcv.cmd == AckMarked && !Sent(v.ack.status) }

  /** How far the token still has to travel before the waiting sender can be woken. */
  function Remaining(v: Chan): nat {
    if HasPosted(v) && v.snd.inside[0].phase.Marked? then 15
    else if Sent(v.msg.status) then 14
    else if v.rcv.pending then 13
    else match v.rcv.cmd
      case Entered(_) => 12
      case Dispatched => 11
      case SlotReset => 10
      case Acking(_, n) => if n <= ACK_STORES then 9 - n else 5
      case AckMarked => 4
      case Idle =>
        if Sent(v.ack.status) then (if v.snd.ackPending then 2 else 3)
        else if v.snd.ackPhase == Consumed then 1 else 0
  }

  datatype ChanStep = S(s: SendStep) | R(r: RecvStep)

  predicate StepEnabled(v: Chan, d: nat, st: ChanStep) {
    match st
    case S(s) => SendEnabled(v.snd, Sent(v.msg.status), v.signals, s)
    case R(r) => RecvEnabled(v.rcv, Sent(v.ack.status), d, r)
  }

  function After(v: Chan, d: nat, st: ChanStep): Chan
    requires StepEnabled(v, d, st)
  {
    match st
    case S(s) => AfterSend(v, d, s)
    case R(r) => AfterRecv(v, d, r)
  }

  /** The step that moves the token on. */
  function NextStep(v: Chan): ChanStep {
    if HasPosted(v) && v.snd.inside[0].phase.Marked? then S(SeeSent(0))
    else if Sent(v.msg.status) then R(Doorbell)
    else if v.rcv.pending then R(StartCmd)
    else match v.rcv.cmd
      case Entered(_) => R(Dispatch(true))
      case Dispatched => R(ResetSlot)
      case SlotReset => R(StartAckLow)
      case Acking(_, n) => if n < ACK_STORES then R(StoreAck) else R(MarkAckSent)
      case AckMarked => R(SeeAckSent)
      case Idle =>
        if Sent(v.ack.status) then (if v.snd.ackPending then S(StartAck) else S(AckDoorbell))
        else if v.snd.ackPhase == Consumed then S(SignalAck) else S(Wake(0))
  }

  predicate InFlight(v: Chan) { HasPosted(v) && Tokens(v) == 1 }

  /** While neither side is stuck, a sender whose token is in flight can be woken: some step is
      enabled that brings the wake-up nearer and leaves neither side stuck, and at distance 0 the
      wake-up itself is enabled. */
  lemma TokenCanAdvance(v: Chan, d: nat)
    requires ChanInv(v) && InFlight(v) && !SenderStuck(v) && !ReceiverStuck(v)
    ensures StepEnabled(v, d, NextStep(v))
    ensures Remaining(v) > 0 ==>
              var v' := After(v, d, NextStep(v));
              && ChanInv(v') && InFlight(v') && Remaining(v') < Remaining(v) && v'.snd.woken == v.snd.woken
              && !SenderStuck(v') && !ReceiverStuck(v')
    ensures Remaining(v) == 0 ==>
              var v' := After(v, d, NextStep(v));
              !HasPosted(v') && v'.snd.woken == v.snd.woken + 1
  {
    var st := NextStep(v);
    if st.S? { SendStepInv(v, d, st.s); } else { RecvStepInv(v, d, st.r); }
  }

  /** The token leaves the channel only through the wake-up, or through a RETURN whose waiter
      command_action cannot find: exactly then a sender is left waiting without an ACK. */
  lemma TokenLostOnlyByBailout(v: Chan, d: nat, st: ChanStep)
    requires ChanInv(v) && InFlight(v) && StepEnabled(v, d, st)
    ensures InFlight(After(v, d, st)) <==> !(st.S? && st.s.Wake?) && st != R(Dispatch(false))
    ensures st == R(Dispatch(false)) ==> Stranded(After(v, d, st))
  {
    if st.S? { SendKeepsToken(v, d, st.s); } else { RecvKeepsToken(v, d, st.r); }
  }

  lemma SendKeepsToken(v: Chan, d: nat, s: SendStep)
    requires ChanInv(v) && InFlight(v) && SendEnabled(v.snd, Sent(v.msg.status), v.signals, s)
    ensures InFlight(AfterSend(v, d, s)) <==> !s.Wake?
  {
  }

  lemma RecvKeepsToken(v: Chan, d: nat, r: RecvStep)
    requires ChanInv(v) && InFlight(v) && RecvEnabled(v.rcv, Sent(v.ack.status), d, r)
    ensures InFlight(AfterRecv(v, d, r)) <==> r != Dispatch(false)
    ensures r == Dispatch(false) ==> Stranded(AfterRecv(v, d, r))
  {
  }

  /** A sender waits and nothing is under way that could wake it. */
  predicate Stranded(v: Chan) { HasPosted(v) && Tokens(v) == 0 }

  /** A sender gets stuck exactly by a doorbell that is served before it has read its bit back, a
      receiver exactly by an ACK that is consumed before it has. */
  lemma StuckIff(v: Chan, d: nat, st: ChanStep)
    requires ChanInv(v) && StepEnabled(v, d, st)
    ensures !SenderStuck(v) ==>
              (SenderStuck(After(v, d, st)) <==>
               st == R(Doorbell) && |v.snd.inside| == 1 && v.snd.inside[0].phase.Marked?)
    ensures !ReceiverStuck(v) ==> (ReceiverStuck(After(v, d, st)) <==> st == S(StartAck) && v.rcv.cmd == AckMarked)
  {
    if st.S? { SendStuckIff(v, d, st.s); } else { RecvStuckIff(v, d, st.r); }
  }

  lemma SendStuckIff(v: Chan, d: nat, s: SendStep)
    requires ChanInv(v) && SendEnabled(v.snd, Sent(v.msg.status), v.signals, s)
    ensures !SenderStuck(v) ==> !SenderStuck(AfterSend(v, d, s))
    ensures !ReceiverStuck(v) ==> (ReceiverStuck(AfterSend(v, d, s)) <==> s == StartAck && v.rcv.cmd == AckMarked)
  {
  }

  lemma RecvStuckIff(v: Chan, d: nat, r: RecvStep)
    requires ChanInv(v) && RecvEnabled(v.rcv, Sent(v.ack.status), d, r)
    ensures !SenderStuck(v) ==>
              (SenderStuck(AfterRecv(v, d, r)) <==>
               r == Doorbell && |v.snd.inside| == 1 && v.snd.inside[0].phase.Marked?)
    ensures !ReceiverStuck(v) ==> !ReceiverStuck(AfterRecv(v, d, r))
  {
  }

  /** None of the three ever ends: a stuck or stranded sender keeps the semaphore, so nothing is posted
      and nobody is woken any more; a stuck receiver hands no message to a handler any more. */
  lemma StuckStays(v: Chan, d: nat, st: ChanStep)
    requires ChanInv(v) && StepEnabled(v, d, st)
    ensures SenderStuck(v) ==> SenderStuck(After(v, d, st))
    ensures Stranded(v) ==> Stranded(After(v, d, st))
    ensures SenderStuck(v) || Stranded(v) ==>
              After(v, d, st).snd.posted == v.snd.posted && After(v, d, st).snd.woken == v.snd.woken
    ensures ReceiverStuck(v) ==>
              ReceiverStuck(After(v, d, st)) && After(v, d, st).rcv.dispatched == v.rcv.dispatched
  {
    if st.S? { SendStuckStays(v, d, st.s); } else { RecvStuckStays(v, d, st.r); }
  }

  lemma SendStuckStays(v: Chan, d: nat, s: SendStep)
    requires ChanInv(v) && SendEnabled(v.snd, Sent(v.msg.status), v.signals, s)
    ensures var v' := AfterSend(v, d, s);
            && (SenderStuck(v) ==> SenderStuck(v')) && (Stranded(v) ==> Stranded(v'))
            && (SenderStuck(v) || Stranded(v) ==> v'.snd.posted == v.snd.posted && v'.snd.woken == v.snd.woken)
            && (ReceiverStuck(v) ==> ReceiverStuck(v') && v'.rcv == v.rcv)
  {
  }

  lemma RecvStuckStays(v: Chan, d: nat, r: RecvStep)
    requires ChanInv(v) && RecvEnabled(v.rcv, Sent(v.ack.status), d, r)
    ensures var v' := AfterRecv(v, d, r);
            && (SenderStuck(v) ==> SenderStuck(v')) && (Stranded(v) ==> Stranded(v')) && v'.snd == v.snd
            && (ReceiverStuck(v) ==> ReceiverStuck(v') && v'.rcv.dispatched == v.rcv.dispatched)
  {
  }

  lemma StepInv(v: Chan, d: nat, st: ChanStep)
    requires ChanInv(v) && StepEnabled(v, d, st)
    ensures ChanInv(After(v, d, st))
  {
    if st.S? { SendStepInv(v, d, st.s); } else { RecvStepInv(v, d, st.r); }
  }

  /** Any further steps of the channel. */
  ghost predicate Continues(vs: seq<Chan>, sts: seq<ChanStep>, d: nat) {
    && |vs| == |sts| + 1 && ChanInv(vs[0])
    && forall k | 0 <= k < |sts| :: StepEnabled(vs[k], d, sts[k]) && vs[k + 1] == After(vs[k], d, sts[k])
  }

  // --- Work items --------------------------------------------------------------------

  function Bells(sts: seq<ChanStep>, st: ChanStep): nat {
    if sts == [] then 0 else Bells(sts[..|sts| - 1], st) + One(sts[|sts| - 1] == st)
  }

  /** A work item runs at most once for every doorbell: over any continuation from a channel with nothing
      pending, command_action starts no more often than doorbells were served, and so does ack_action. */
  lemma {:induction false} OneRunPerDoorbell(vs: seq<Chan>, sts: seq<ChanStep>, d: nat)
    requires Continues(vs, sts, d) && !vs[0].rcv.pending && !vs[0].snd.ackPending
    ensures Bells(sts, R(StartCmd)) + One(vs[|sts|].rcv.pending) <= Bells(sts, R(Doorbell))
    ensures Bells(sts, S(StartAck)) + One(vs[|sts|].snd.ackPending) <= Bells(sts, S(AckDoorbell))
    decreases |sts|
  {
    if sts != [] {
      var n := |sts| - 1;
      OneRunPerDoorbell(vs[..n + 1], sts[..n], d);
      assert vs[n + 1] == After(vs[n], d, sts[n]);
      PendingStep(vs[n], d, sts[n]);
    }
  }

  lemma PendingStep(v: Chan, d: nat, st: ChanStep)
    requires StepEnabled(v, d, st)
    ensures var v' := After(v, d, st);
            && One(v'.rcv.pending) + One(st == R(StartCmd)) <= One(v.rcv.pending) + One(st == R(Doorbell))
            && One(v'.snd.ackPending) + One(st == S(StartAck)) <= One(v.snd.ackPending) + One(st == S(AckDoorbell))
  {
  }

  // --- For good ----------------------------------------------------------------------

  /** Stuck and stranded sides stay so over every continuation. */
  lemma {:induction false} StuckForGood(vs: seq<Chan>, sts: seq<ChanStep>, d: nat, k: nat)
    requires Continues(vs, sts, d) && k < |vs|
    ensures ChanInv(vs[k])
    ensures SenderStuck(vs[0]) ==> SenderStuck(vs[k])
    ensures Stranded(vs[0]) ==> Stranded(vs[k])
    ensures SenderStuck(vs[0]) || Stranded(vs[0]) ==>
              vs[k].snd.posted == vs[0].snd.posted && vs[k].snd.woken == vs[0].snd.woken
    ensures ReceiverStuck(vs[0]) ==> ReceiverStuck(vs[k]) && vs[k].rcv.dispatched == vs[0].rcv.dispatched
  {
    if k > 0 {
      StuckForGood(vs, sts, d, k - 1);
      var v, st := vs[k - 1], sts[k - 1];
      assert vs[k] == After(v, d, st);
      StepInv(v, d, st);
      StuckStays(v, d, st);
    }
  }

  // --- Whole handler executions --------------------------------------------------------

  /** SendCommLow by thread i, which has filled its entry: the stores, the sent bit, the spin. */
  function PostEffect(p: SendPort, m: MsgHalf, a: AckHalf, addr: int, d: nat, i: nat): (e: SendResult)
    requires i < |p.inside| && p.inside[i].phase.Filled?
    ensures var x := p.inside[i].phase.m;
            && e.msg == PostFields(m, x.slot, MsgType(d), x.session, addr).(status := SetSent(MsgType(d)))
            && e.ack == a && e.signal == NoSignal
  {
    var e1 := SendEffect(p, m, a, addr, d, 0, StoreMsg(i));
    var e2 := SendEffect(e1.port, e1.msg, a, addr, d, 0, StoreMsg(i));
    var e3 := SendEffect(e2.port, e2.msg, a, addr, d, 0, StoreMsg(i));
    var e4 := SendEffect(e3.port, e3.msg, a, addr, d, 0, StoreMsg(i));
    var e5 := SendEffect(e4.port, e4.msg, a, addr, d, 0, StoreMsg(i));
    var e6 := SendEffect(e5.port, e5.msg, a, addr, d, 0, MarkSent(i));
    SendEffect(e6.port, e6.msg, a, addr, d, 0, SeeSent(i))
  }

  /** SendAckLow in the middle of command_action: the check, the stores, the sent bit, the spin. */
  function AckEffect(q: RecvPort, m: MsgHalf, a: AckHalf, d: nat): (e: RecvResult)
    requires q.cmd == SlotReset
    ensures e.msg == m && e.port == q.(cmd := Idle)
    ensures e.ack == if Sent(a.status) then a else AckHalf(m.slot, SetSent(m.status), m.param, m.sem)
  {
    var e0 := RecvEffect(q, m, a, d, StartAckLow);
    if e0.port.cmd == Idle then e0
    else
      var e1 := RecvEffect(e0.port, m, e0.ack, d, StoreAck);
      var e2 := RecvEffect(e1.port, m, e1.ack, d, StoreAck);
      var e3 := RecvEffect(e2.port, m, e2.ack, d, StoreAck);
      var e4 := RecvEffect(e3.port, m, e3.ack, d, StoreAck);
      var e5 := RecvEffect(e4.port, m, e4.ack, d, MarkAckSent);
      RecvEffect(e5.port, m, e5.ack, d, SeeAckSent)
  }

  /** command_action run to its end on a work item that has just been started. */
  function CommandEffect(q: RecvPort, m: MsgHalf, a: AckHalf, d: nat, found: bool): RecvResult
    requires q.cmd.Entered? && (found || d == 1)
  {
    var e1 := RecvEffect(q, m, a, d, Dispatch(found));
    if !found then e1
    else
      var e2 := RecvEffect(e1.port, e1.msg, e1.ack, d, ResetSlot);
      AckEffect(e2.port, e2.msg, e2.ack, d)
  }

  /** ack_action on a work item that is pending. */
  function AckActionEffect(p: SendPort, m: MsgHalf, a: AckHalf, addr: int, d: nat): SendResult
    requires p.ackPending && p.ackPhase == Quiet
  {
    var e := SendEffect(p, m, a, addr, d, 0, StartAck);
    if e.port.ackPhase == Consumed then SendEffect(e.port, e.msg, e.ack, addr, d, 0, SignalAck) else e
  }

  // --- Without the send semaphore ---------------------------------------------------------

  /** SendComm2CPUEx goes on without the send semaphore when it cannot get it within 100 ms. */
  function Bypass(v: Chan, thread: int): Chan {
    v.(snd := v.snd.(inside := v.snd.inside + [Member(thread, Holding)]))
  }

  /** A channel on which a first sender has posted m and waits. */
  function Posted(v: Chan, d: nat, m: Msg): Chan
    requires v.snd.sendSem == 1 && v.snd.inside == [] && m.slot < FREE_SLOT
  {
    var v1 := AfterSend(v, d, Acquire(1));
    Sending(AfterSend(v1, d, Fill(0, m)), d, 0)
  }

  /** Thread i, which has filled its entry, runs SendCommLow. */
  function Sending(v: Chan, d: nat, i: nat): Chan
    requires i < |v.snd.inside| && v.snd.inside[i].phase.Filled?
  {
    var e := PostEffect(v.snd, v.msg, v.ack, v.addr, d, i);
    v.(snd := e.port, msg := e.msg)
  }

  /** A second sender that came in without the semaphore posts m. */
  function Overtaken(v: Chan, d: nat, m: Msg): Chan
    requires |v.snd.inside| == 1 && m.slot < FREE_SLOT
  {
    Sending(AfterSend(Bypass(v, 2), d, Fill(1, m)), d, 1)
  }

  function Received(v: Chan, d: nat): Chan
    requires !v.rcv.pending && v.rcv.cmd == Idle && Sent(v.msg.status) && v.msg.slot < FREE_SLOT
  {
    var v1 := AfterRecv(v, d, Doorbell);
    var v2 := AfterRecv(v1, d, StartCmd);
    AfterRecv(v2, d, Dispatch(true))
  }

  /** The bypass breaks exactly-once delivery: on an idle channel, when a second sender bypasses the
      semaphore before the doorbell is served, the first message is never dispatched and the second
      is dispatched in its place. */
  lemma BypassLosesMessage(v: Chan, d: nat, m1: Msg, m2: Msg)
    requires ChanInv(v) && v.snd.inside == [] && v.rcv.cmd == Idle && m1.slot < FREE_SLOT && m2.slot < FREE_SLOT
    ensures var w := Overtaken(Posted(v, d, m1), d, m2);
            && !w.rcv.pending && w.rcv.cmd == Idle && Sent(w.msg.status) && w.msg.slot < FREE_SLOT
            && Received(w, d).snd.posted == v.snd.posted + [m1, m2]
            && Received(w, d).rcv.dispatched == v.rcv.dispatched + [m2]
  {
    PostedState(v, d, m1);
    var p := Posted(v, d, m1);
    OvertakenState(p, d, m2);
  }

  lemma PostedState(v: Chan, d: nat, m: Msg)
    requires ChanInv(v) && v.snd.inside == [] && v.rcv.cmd == Idle && m.slot < FREE_SLOT
    ensures var p := Posted(v, d, m);
            && |p.snd.inside| == 1 && p.snd.posted == v.snd.posted + [m] && p.rcv == v.rcv
            && !p.rcv.pending && p.rcv.cmd == Idle && |p.msg.entries| == FREE_SLOT
  {
  }

  lemma OvertakenState(p: Chan, d: nat, m: Msg)
    requires |p.snd.inside| == 1 && m.slot < FREE_SLOT && |p.msg.entries| == FREE_SLOT
    ensures var w := Overtaken(p, d, m);
            && w.snd.posted == p.snd.posted + [m] && w.rcv == p.rcv && Sent(w.msg.status)
            && w.msg.slot == m.slot && EntrySession(w.msg, m.slot) == m.session
  {
  }
}
