/** Delivery of incoming calls to the readers of the device: one bounded queue per open descriptor
    (cpu_comm_user.c). */
module UserQueue {
  const QUEUE_MAX := 32
  const MSG_SIZE := 104

  type Msg = seq<int>

  /** The newest n messages. */
  function Newest(ms: seq<Msg>, n: nat): seq<Msg>
    requires n <= |ms|
  {
    ms[|ms| - n..]
  }

  /** The queue after a delivery. */
  function Delivered(q: seq<Msg>, m: Msg, hasNode: bool): seq<Msg> {
    if !hasNode then q else if |q| >= QUEUE_MAX then q[1..] + [m] else q + [m]
  }

  /** The messages of `a` are among those of `b`, in the same order. */
  predicate Among(a: seq<Msg>, b: seq<Msg>) {
    if a == [] then true
    else if b == [] then false
    else (a[|a| - 1] == b[|b| - 1] && Among(a[..|a| - 1], b[..|b| - 1])) || Among(a, b[..|b| - 1])
  }

  lemma AmongMore(a: seq<Msg>, b: seq<Msg>, m: Msg)
    requires Among(a, b)
    ensures Among(a, b + [m]) && Among(a + [m], b + [m])
  {
    assert (b + [m])[..|b|] == b && (a + [m])[..|a|] == a;
  }

  lemma {:induction false} AmongAll(a: seq<Msg>, b: seq<Msg>, c: seq<Msg>)
    requires Among(a, b)
    ensures Among(a + c, b + c)
    decreases |c|
  {
    if c == [] {
      assert a + c == a && b + c == b;
    } else {
      AmongMore(a, b, c[0]);
      var a', b' := a + [c[0]], b + [c[0]];
      AmongAll(a', b', c[1..]);
      assert a' + c[1..] == a + c && b' + c[1..] == b + c;
    }
  }

  /** The accepted messages that are older than the queue. */
  function Older(queue: seq<Msg>, accepted: seq<Msg>): seq<Msg>
    requires |queue| <= |accepted|
  {
    accepted[..|accepted| - |queue|]
  }

  /** The queue holds the newest accepted messages; every accepted one was taken, is queued or was
      pushed out by newer ones; those taken were taken in order; as long as none was pushed out, none is
      missing. */
  predicate Kept(queue: seq<Msg>, accepted: seq<Msg>, taken: seq<Msg>, overrun: nat) {
    && |queue| <= |accepted| && queue == Newest(accepted, |queue|)
    && |accepted| == |taken| + |queue| + overrun
    && (overrun == 0 ==> taken + queue == accepted)
    && Among(taken, Older(queue, accepted))
  }

  lemma KeptPush(queue: seq<Msg>, accepted: seq<Msg>, taken: seq<Msg>, overrun: nat, m: Msg)
    requires Kept(queue, accepted, taken, overrun)
    ensures Kept(queue + [m], accepted + [m], taken, overrun)
    ensures queue != [] ==> Kept(queue[1..] + [m], accepted + [m], taken, overrun + 1)
  {
    var past := Older(queue, accepted);
    if overrun == 0 { assert taken + (queue + [m]) == accepted + [m]; }
    assert Older(queue + [m], accepted + [m]) == past;
    if queue != [] {
      AmongMore(taken, past, queue[0]);
      assert Older(queue[1..] + [m], accepted + [m]) == past + [queue[0]];
    }
  }

  lemma KeptTake(queue: seq<Msg>, accepted: seq<Msg>, taken: seq<Msg>, overrun: nat)
    requires Kept(queue, accepted, taken, overrun) && queue != []
    ensures Kept(queue[1..], accepted, taken + [queue[0]], overrun)
  {
    if overrun == 0 { assert taken + [queue[0]] + queue[1..] == taken + queue; }
    AmongMore(taken, Older(queue, accepted), queue[0]);
    assert Older(queue[1..], accepted) == Older(queue, accepted) + [queue[0]];
  }

  datatype ReadResult = Bytes(m: Msg) | Fault | Invalid | Again | Blocks

  /** One open descriptor. */
  class Context {
    var queue: seq<Msg>
    var count: int
    var dropped: nat

    /** Messages that got a node, messages that left the queue through a read, deliveries that found
        no memory, and messages pushed out by newer ones. */
    ghost var accepted: seq<Msg>
    ghost var taken: seq<Msg>
    ghost var refused: nat
    ghost var overrun: nat

    ghost predicate Valid()
      reads this
    {
      && count == |queue| <= QUEUE_MAX
      && Kept(queue, accepted, taken, overrun) && dropped == refused + overrun
    }

    /** Since the old state this descriptor got message m, and nothing else happened to it. */
    twostate predicate Got(m: Msg, hasNode: bool)
      reads this
    {
      && Valid() && queue == Delivered(old(queue), m, hasNode) && taken == old(taken)
      && Deliveries() == old(Deliveries()) + 1
    }

    /** Deliveries so far. */
    ghost function Deliveries(): nat
      reads this
    {
      |accepted| + refused
    }

    /** cpu_comm_user_open */
    constructor ()
      ensures Valid() && queue == [] && dropped == 0 && Deliveries() == 0 && taken == []
    {
      queue, count, dropped := [], 0, 0;
      accepted, taken, refused, overrun := [], [], 0, 0;
    }

    /** The delivery to this descriptor in cpu_comm_userspace_deliver. */
    method Deliver(m: Msg, hasNode: bool)
      requires Valid()
      modifies this
      ensures Valid() && queue == Delivered(old(queue), m, hasNode) && taken == old(taken)
      ensures accepted == (if hasNode then old(accepted) + [m] else old(accepted))
      ensures Deliveries() == old(Deliveries()) + 1
      ensures dropped == old(dropped) + (if hasNode && old(|queue|) < QUEUE_MAX then 0 else 1)
    {
      if !hasNode {
        dropped := dropped + 1;
        refused := refused + 1;
        return;
      }
      KeptPush(queue, accepted, taken, overrun, m);
      if count >= QUEUE_MAX {
        queue := queue[1..];
        count := count - 1;
        dropped := dropped + 1;
        overrun := overrun + 1;
      }
      queue := queue + [m];
      count := count + 1;
      accepted := accepted + [m];
    }

    /** cpu_comm_user_read with room for `size` bytes.  A message whose copy faults is consumed. */
    method Read(size: nat, nonblock: bool, faults: bool) returns (r: ReadResult)
      requires Valid()
      modifies this
      ensures Valid() && Deliveries() == old(Deliveries()) && accepted == old(accepted) && dropped == old(dropped)
      ensures r.Invalid? <==> size < MSG_SIZE
      ensures (r.Again? || r.Blocks?) <==> size >= MSG_SIZE && old(queue) == []
      ensures r.Again? ==> nonblock
      ensures r.Blocks? ==> !nonblock
      ensures r.Bytes? || r.Fault? ==>
                && old(queue) != [] && queue == old(queue)[1..] && taken == old(taken) + [old(queue)[0]]
                && r == if faults then Fault else Bytes(old(queue)[0])
      ensures !(r.Bytes? || r.Fault?) ==> queue == old(queue) && taken == old(taken)
    {
      if size < MSG_SIZE {
        return Invalid;
      }
      if queue == [] {
        return if nonblock then Again else Blocks;
      }
      KeptTake(queue, accepted, taken, overrun);
      var m := queue[0];
      queue := queue[1..];
      count := count - 1;
      taken := taken + [m];
      r := if faults then Fault else Bytes(m);
    }
  }

  /** Nothing is lost without being counted: in every reachable state of a descriptor the deliveries
      are the messages taken, queued and dropped. */
  lemma Accounted(c: Context)
    requires c.Valid()
    ensures c.Deliveries() == |c.taken| + |c.queue| + c.dropped
  {
  }

  /** Whatever was pushed out, a reader gets messages in the order of their arrival: what it has taken
      and will find queued is among the accepted messages, in their order. */
  lemma ReadInOrder(c: Context)
    requires c.Valid()
    ensures Among(c.taken + c.queue, c.accepted)
  {
    var past := Older(c.queue, c.accepted);
    AmongAll(c.taken, past, c.queue);
    assert past + c.queue == c.accepted;
  }

  /** The open descriptors. */
  class Registry {
    var contexts: seq<Context>

    ghost predicate Valid()
      reads this, contexts
    {
      && (forall i, j | 0 <= i < j < |contexts| :: contexts[i] != contexts[j])
      && (forall i | 0 <= i < |contexts| :: contexts[i].Valid())
    }

    constructor ()
      ensures Valid() && contexts == []
    {
      contexts := [];
    }

    method Open() returns (c: Context)
      requires Valid()
      modifies this
      ensures Valid() && fresh(c) && contexts == old(contexts) + [c] && c.queue == [] && c.Deliveries() == 0
    {
      c := new Context();
      contexts := contexts + [c];
    }

    method Release(k: nat)
      requires Valid() && k < |contexts|
      modifies this
      ensures Valid() && contexts == old(contexts)[..k] + old(contexts)[k + 1..]
    {
      contexts := contexts[..k] + contexts[k + 1..];
    }

    /** cpu_comm_userspace_deliver: every open descriptor gets the message once. */
    method Deliver(m: Msg, hasNode: seq<bool>)
      requires Valid() && |hasNode| == |contexts|
      modifies contexts
      ensures Valid()
      ensures forall i | 0 <= i < |contexts| :: contexts[i].Got(m, hasNode[i])
    {
      var cs := contexts;
      var k := 0;
      while k < |cs|
        invariant 0 <= k <= |cs| && contexts == cs
        invariant forall i | 0 <= i < k :: cs[i].Got(m, hasNode[i])
        invariant forall i | k <= i < |cs| :: old(cs[i].Valid()) && unchanged(cs[i])
      {
        cs[k].Deliver(m, hasNode[k]);
        k := k + 1;
      }
    }
  }
}
