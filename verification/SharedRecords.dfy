/** The record-updating functions of cpu_comm_proto.c as they run on one CPU, each proved to
    compute the effect that the interleaved model takes apart into steps. */
module SharedRecordsCode {
  import opened Common
  import opened Handshake
  import opened CpuPair

  const EINVAL := -22

  /** What SendCommLow and SendAckLow do after writing: nothing, queue local work, or ring
      the peer's doorbell. */
  datatype Notice = NoNotice | QueueLocal(typ: nat, cpu: nat) | Interrupt(typ: nat)

  predicate Headed(r: Record, k: int) { 0 <= k && r.local == k / 4 && r.remote == k / 2 % 2 && r.dir == k % 2 }

  class SharedRecords {
    var recs: seq<Record>

    /** Eight records with the header bytes that InitCommShareSeqMem writes. */
    predicate Valid()
      reads this
    {
      |recs| == 8 && forall k | 0 <= k < 8 :: Headed(recs[k], k)
    }

    /** InitCommShareSeqMem for all four (cpu, remote) pairs: no message, no ACK, no session. */
    constructor ()
      ensures Valid() && forall k | 0 <= k < 8 :: FreshRecord(recs[k])
    {
      recs := seq(8, (k: int) requires 0 <= k < 8 =>
        Record(k / 4, k / 2 % 2, k % 2,
               MsgHalf(0, 0, FREE_SLOT, NO_SESSION, 0, seq(FREE_SLOT, _ => NO_SESSION)),
               AckHalf(FREE_SLOT, 0, NO_SESSION, 0)));
    }

    /** When thread i of port p has filled entry `slot` for session `param` and the arguments are
        those of the protocol, a remote message leaves the record as the steps of the handshake do. */
    method SendCommLow(cur: nat, k: nat, slot: nat, typ: nat, param: int, sem: int, ghost p: SendPort, ghost i: nat)
      returns (ret: int, notice: Notice)
      requires Valid() && k < 8
      modifies this
      ensures Valid() && (ret == 0 || ret == EINVAL)
      ensures ret == 0 <==> old(recs[k]).remote == cur && slot < FIFO_CAP
      ensures ret != 0 ==> notice == NoNotice && recs == old(recs)
      ensures var r := old(recs[k]);
              var status := if r.local == r.remote then typ else SetSent(typ);
              ret == 0 ==>
                recs == old(recs)[k := r.(msg := MsgHalf(r.msg.counter + 1, status, slot, param, sem, r.msg.entries))]
      ensures ret == 0 && recs[k].local == recs[k].remote ==> notice == QueueLocal(recs[k].dir, cur)
      ensures ret == 0 && recs[k].local != recs[k].remote ==> notice == Interrupt(recs[k].dir)
      ensures var r := old(recs[k]);
              ret == 0 && r.local != r.remote && typ == MsgType(r.dir) &&
              i < |p.inside| && p.inside[i].phase == Filled(Msg(slot, param)) ==>
                recs == old(recs)[k := r.(msg := PostEffect(p, r.msg, r.ack, sem, r.dir, i).msg)]
    {
      var r := recs[k];
      if r.remote != cur || r.dir > 1 || slot >= FIFO_CAP {
        return EINVAL, NoNotice;
      }
      var m := r.msg;
      m := m.(slot := slot);
      m := m.(param := param);
      m := m.(sem := sem);
      m := m.(counter := m.counter + 1);
      m := m.(status := typ);
      recs := recs[k := r.(msg := m)];
      if r.local == r.remote {
        return 0, QueueLocal(r.dir, cur);
      }
      recs := recs[k := r.(msg := m.(status := SetSent(m.status)))];
      return 0, Interrupt(r.dir);
    }

    /** The doorbell handler's gate: take the sent bit of the record read from `cpu`. */
    method SyncMipsCache(cur: nat, cpu: nat, dir: nat, q: RecvPort) returns (q': RecvPort)
      requires Valid() && cur <= 1 && cpu <= 1 && dir <= 1
      modifies this
      ensures Valid()
      ensures var k := SeqR(cur, cpu, dir);
              var e := RecvEffect(q, old(recs[k]).msg, old(recs[k]).ack, dir, Doorbell);
              q' == e.port && recs == old(recs)[k := old(recs[k]).(msg := e.msg)]
      ensures var k := SeqR(cur, cpu, dir);
              var m := old(recs[k]).msg;
              if Sent(m.status) then
                q' == q.(pending := true) && recs[k].msg == m.(status := ClearSent(m.status))
              else q' == q && recs == old(recs)
    {
      var k := SeqR(cur, cpu, dir);
      var m := recs[k].msg;
      if !Sent(m.status) {
        return q;
      }
      recs := recs[k := recs[k].(msg := m.(status := ClearSent(m.status)))];
      q' := q.(pending := true);
    }

    /** Called with the words of a message half m by a port q that has reset its slot, a remote ACK
        leaves the record as the steps of the handshake do. */
    method SendAckLow(cur: nat, k: nat, slot: nat, status: nat, param: int, sem: int,
                      ghost q: RecvPort, ghost m: MsgHalf) returns (notice: Notice)
      requires Valid() && k < 8
      modifies this
      ensures Valid()
      ensures notice == NoNotice <==> old(recs[k]).remote != cur || Sent(old(recs[k]).ack.status)
      ensures notice == NoNotice ==> recs == old(recs)
      ensures var r := old(recs[k]);
              notice != NoNotice ==>
                recs == old(recs)[k := r.(ack := AckHalf(slot, if r.local == r.remote then status else SetSent(status),
                                                         param, sem))]
      ensures notice != NoNotice ==>
                notice == if recs[k].local == recs[k].remote then QueueLocal(2 + recs[k].dir, cur)
                          else Interrupt(2 + recs[k].dir)
      ensures var r := old(recs[k]);
              r.remote == cur && r.local != cur && q.cmd == SlotReset &&
              (slot, status, param, sem) == (m.slot, m.status, m.param, m.sem) ==>
                recs == old(recs)[k := r.(ack := AckEffect(q, m, r.ack, r.dir).ack)]
    {
      var r := recs[k];
      if r.remote != cur || r.dir > 1 || Sent(r.ack.status) {
        return NoNotice;
      }
      var a := r.ack;
      a := a.(slot := slot);
      a := a.(param := param);
      a := a.(status := status);
      a := a.(sem := sem);
      recs := recs[k := r.(ack := a)];
      if r.local == r.remote {
        return QueueLocal(2 + r.dir, cur);
      }
      recs := recs[k := r.(ack := a.(status := SetSent(a.status)))];
      return Interrupt(2 + r.dir);
    }

    /** `found` says whether the waiter of a RETURN was found; a CALL is always handled. */
    method CommandAction(cur: nat, dir: nat, q: RecvPort, found: bool) returns (q': RecvPort)
      requires Valid() && cur <= 1 && dir <= 1 && (found || dir == 1)
      requires q.cmd == Idle && q.pending
      modifies this
      ensures Valid()
      ensures var rk, wk := SeqR(cur, 1 - cur, dir), SeqW(cur, 1 - cur, dir);
              var r, w := old(recs[rk]), old(recs[wk]);
              var e0 := RecvEffect(q, r.msg, w.ack, dir, StartCmd);
              if r.msg.slot >= FIFO_CAP then
                q' == e0.port && recs == old(recs)
              else
                var e := CommandEffect(e0.port, r.msg, w.ack, dir, found);
                && q' == e.port
                && recs == old(recs)[rk := r.(msg := e.msg)][wk := w.(ack := e.ack)]
      ensures q'.cmd == Idle && !q'.pending
      ensures var rk, wk := SeqR(cur, 1 - cur, dir), SeqW(cur, 1 - cur, dir);
              var m, a := old(recs[rk]).msg, old(recs[wk]).ack;
              if m.slot >= FIFO_CAP then q'.dispatched == q.dispatched
              else
                && q'.dispatched == q.dispatched + [Msg(m.slot, EntrySession(m, m.slot))]
                && (found ==> recs[rk].msg == m.(slot := 20))
                && (found && !Sent(a.status) ==> recs[wk].ack == AckHalf(20, SetSent(m.status), m.param, m.sem))
                && (found && Sent(a.status) ==> recs[wk].ack == a)
                && (!found ==> recs == old(recs))
    {
      var rk, wk := SeqR(cur, 1 - cur, dir), SeqW(cur, 1 - cur, dir);
      q' := q.(pending := false);
      var idx := recs[rk].msg.slot;
      if idx >= FIFO_CAP {
        return;
      }
      q' := q'.(dispatched := q'.dispatched + [Msg(idx, EntrySession(recs[rk].msg, idx))]);
      if !found {
        return;
      }
      recs := recs[rk := recs[rk].(msg := recs[rk].msg.(slot := FREE_SLOT))];
      var m := recs[rk].msg;
      var _ := SendAckLow(cur, wk, m.slot, m.status, m.param, m.sem, q'.(cmd := SlotReset), m);
    }

    /** The deferred ACK work of port p: the steps StartAck and SignalAck. */
    method AckAction(cur: nat, cpu: nat, dir: nat, ghost p: SendPort, ghost m: MsgHalf) returns (signal: Signal)
      requires Valid() && cur <= 1 && cpu <= 1 && dir <= 1
      modifies this
      ensures Valid()
      ensures var k := SeqR(cur, cpu, dir);
              var a := old(recs[k]).ack;
              if Sent(a.status) then
                && recs == old(recs)[k := old(recs[k]).(ack := a.(status := ClearSent(a.status)))]
                && signal == if a.sem == 0 then NoSignal else Up(a.sem)
              else recs == old(recs) && signal == NoSignal
      ensures var k := SeqR(cur, cpu, dir);
              p.ackPending && p.ackPhase == Quiet ==>
                var e := AckActionEffect(p, m, old(recs[k]).ack, 0, dir);
                signal == e.signal && recs == old(recs)[k := old(recs[k]).(ack := e.ack)]
    {
      var k := SeqR(cur, cpu, dir);
      var stat := recs[k].ack.status;
      if !Sent(stat) {
        return NoSignal;
      }
      recs := recs[k := recs[k].(ack := recs[k].ack.(status := ClearSent(stat)))];
      var sem := recs[k].ack.sem;
      signal := if sem == 0 then NoSignal else Up(sem);
    }
  }
}
