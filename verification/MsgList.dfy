/** The intrusive circular lists of cpu_comm_channel.c: the list of callers that wait for an answer
    and the list of answers that wait for their caller.  A list is a sentinel and the nodes inside
    the queued entries, linked both ways. */
module MsgList {
  import opened Common
  import opened Fifo

  // --- Rings ---------------------------------------------------------------------------------------

  /** Links of node i of the ring that starts at its sentinel. */
  ghost predicate Node(next: map<int, int>, prev: map<int, int>, ring: seq<int>, i: nat)
    requires i < |ring|
  {
    && ring[i] in next && next[ring[i]] == (if i + 1 < |ring| then ring[i + 1] else ring[0])
    && ring[i] in prev && prev[ring[i]] == (if i > 0 then ring[i - 1] else ring[|ring| - 1])
  }

  ghost predicate Ring(next: map<int, int>, prev: map<int, int>, ring: seq<int>) {
    ring != [] && Distinct(ring) && forall i | 0 <= i < |ring| :: Node(next, prev, ring, i)
  }

  /** In a ring the two links are mutually inverse. */
  lemma RingInverse(next: map<int, int>, prev: map<int, int>, ring: seq<int>, i: nat)
    requires Ring(next, prev, ring) && i < |ring|
    ensures ring[i] in next && next[ring[i]] in prev && prev[next[ring[i]]] == ring[i]
    ensures ring[i] in prev && prev[ring[i]] in next && next[prev[ring[i]]] == ring[i]
  {
    assert Node(next, prev, ring, i);
    assert Node(next, prev, ring, if i + 1 < |ring| then i + 1 else 0);
    assert Node(next, prev, ring, if i > 0 then i - 1 else |ring| - 1);
  }

  /** Inserting m before the sentinel appends it. */
  lemma InsertRing(next: map<int, int>, prev: map<int, int>, ring: seq<int>, m: int)
    requires Ring(next, prev, ring) && m !in ring
    ensures var last := ring[|ring| - 1];
            Ring(next[m := ring[0]][last := m], prev[m := last][ring[0] := m], ring + [m])
  {
    var last, ring' := ring[|ring| - 1], ring + [m];
    var next', prev' := next[m := ring[0]][last := m], prev[m := last][ring[0] := m];
    forall i | 0 <= i < |ring'| ensures Node(next', prev', ring', i) {
      if i < |ring| {
        assert Node(next, prev, ring, i);
        assert ring'[i] == ring[i];
      }
    }
  }

  /** Linking the neighbours of node i to each other removes it. */
  lemma UnlinkRing(next: map<int, int>, prev: map<int, int>, ring: seq<int>, i: nat)
    requires Ring(next, prev, ring) && 0 < i < |ring|
    ensures ring[i] in next && ring[i] in prev
    ensures Ring(next[prev[ring[i]] := next[ring[i]]], prev[next[ring[i]] := prev[ring[i]]], Without(ring, i))
  {
    assert Node(next, prev, ring, i);
    var ring' := Without(ring, i);
    var next', prev' := next[prev[ring[i]] := next[ring[i]]], prev[next[ring[i]] := prev[ring[i]]];
    forall k | 0 <= k < |ring'| ensures Node(next', prev', ring', k) {
      assert Node(next, prev, ring, if k < i then k else k + 1);
    }
  }

  // --- Oldest match --------------------------------------------------------------------------------

  /** Every node's entry has a session word. */
  predicate Keyed(nodes: seq<int>, session: map<int, int>, off: int) {
    forall i | 0 <= i < |nodes| :: nodes[i] - off in session
  }

  /** Session words of the entries that hold the nodes. */
  function Sessions(nodes: seq<int>, session: map<int, int>, off: int): (keys: seq<int>)
    requires Keyed(nodes, session, off)
    ensures |keys| == |nodes| && forall i | 0 <= i < |nodes| :: keys[i] == session[nodes[i] - off]
  {
    seq(|nodes|, i requires 0 <= i < |nodes| => session[nodes[i] - off])
  }

  predicate IsMipsAddress(p: int) { 0x8000_0000 <= p < 0xA000_0000 }

  /** The top three of the 32 address bits are 100. */
  lemma MipsAddressBits(p: int)
    requires 0 <= p < 0x1_0000_0000
    ensures IsMipsAddress(p) <==> p / 0x2000_0000 == 4
  {
  }

  /** Position of the first node whose address is the other CPU's, or |nodes|. */
  function FirstForeign(nodes: seq<int>): (k: nat)
    ensures k <= |nodes|
    ensures k < |nodes| ==> IsMipsAddress(nodes[k])
    ensures forall i | 0 <= i < k :: !IsMipsAddress(nodes[i])
  {
    if nodes == [] || IsMipsAddress(nodes[0]) then 0 else 1 + FirstForeign(nodes[1..])
  }

  /** A sentinel, the links of all nodes, the session word of all entries, the length word and the
      one-byte peak.  A node lies `off` bytes into its entry. */
  class SessionList {
    const head: int
    const off: int
    var next: map<int, int>
    var prev: map<int, int>
    var session: map<int, int>
    var count: int
    var peak: int
    /** The queued nodes, oldest first. */
    ghost var nodes: seq<int>

    ghost predicate Valid()
      reads this
    {
      && Ring(next, prev, [head] + nodes) && count == |nodes|
      && Keyed(nodes, session, off)
    }

    constructor (head: int, off: int, session: map<int, int>)
      ensures Valid() && nodes == [] && peak == 0 && this.head == head && this.off == off && this.session == session
    {
      this.head, this.off := head, off;
      next, prev := map[head := head], map[head := head];
      this.session, count, peak, nodes := session, 0, 0, [];
      new;
      assert [head] + nodes == [head];
    }

    /** AddtoWaitComm, and the insertion of returnPipeLine. */
    method Append(entry: int)
      requires Valid() && entry in session && entry + off != head && entry + off !in nodes
      modifies this
      ensures Valid() && nodes == old(nodes) + [entry + off] && session == old(session)
      ensures peak == if |nodes| > old(peak) then |nodes| % 256 else old(peak)
    {
      ghost var ring := [head] + nodes;
      assert Node(next, prev, ring, 0);
      var last := prev[head];
      var n := entry + off;
      InsertRing(next, prev, ring, n);
      prev := prev[n := last][head := n];
      next := next[n := head][last := n];
      nodes := nodes + [n];
      assert [head] + nodes == ring + [n];
      count := count + 1;
      if count > peak {
        peak := count % 256;
      }
    }

    /** FindWaitBySessionId */
    method Find(id: int) returns (found: bool, entry: int)
      requires Valid()
      ensures var k := First(Sessions(nodes, session, off), id);
              && found == (k < |nodes|)
              && entry == (if found then nodes[k] - off else 0)
    {
      ghost var ring := [head] + nodes;
      assert Node(next, prev, ring, 0);
      forall i | 0 <= i < |nodes| ensures nodes[i] != head { assert ring[i + 1] == nodes[i]; }
      var cur := next[head];
      ghost var k := 0;
      while cur != head
        invariant 0 <= k <= |nodes| && cur == (if k < |nodes| then nodes[k] else head)
        invariant forall i | 0 <= i < k :: session[nodes[i] - off] != id
        decreases |nodes| - k
      {
        assert ring[k + 1] == nodes[k];
        if session[cur - off] == id {
          return true, cur - off;
        }
        assert Node(next, prev, ring, k + 1);
        cur := next[cur];
        k := k + 1;
      }
      return false, 0;
    }

    /** GetWaitbySessionId, and the search of GetReturnbySessionId: unlinks the oldest entry of the
        session and nothing else.  The latter bails out at a node address of the other CPU. */
    method Take(id: int, bails: bool) returns (found: bool, entry: int)
      requires Valid()
      modifies this
      ensures Valid() && session == old(session) && peak == old(peak)
      ensures var k := First(Sessions(old(nodes), session, off), id);
              && found == (k < if bails then FirstForeign(old(nodes)) else old(|nodes|))
              && (found ==> entry == old(nodes)[k] - off && nodes == Without(old(nodes), k))
              && (!found ==> nodes == old(nodes) && entry == 0)
    {
      ghost var ring := [head] + nodes;
      assert Node(next, prev, ring, 0);
      forall i | 0 <= i < |nodes| ensures nodes[i] != head { assert ring[i + 1] == nodes[i]; }
      var cur := next[head];
      ghost var k := 0;
      while cur != head
        invariant 0 <= k <= |nodes| && cur == (if k < |nodes| then nodes[k] else head)
        invariant forall i | 0 <= i < k :: session[nodes[i] - off] != id
        invariant bails ==> forall i | 0 <= i < k :: !IsMipsAddress(nodes[i])
        invariant unchanged(this)
        decreases |nodes| - k
      {
        assert ring[k + 1] == nodes[k];
        assert Node(next, prev, ring, k + 1);
        if bails && IsMipsAddress(cur) {
          return false, 0;
        }
        if session[cur - off] == id {
          Unlink(cur, k);
          return true, cur - off;
        }
        cur := next[cur];
        k := k + 1;
      }
      return false, 0;
    }

    method Unlink(cur: int, ghost k: nat)
      requires Valid() && k < |nodes| && cur == nodes[k]
      modifies this
      ensures Valid() && session == old(session) && peak == old(peak) && nodes == Without(old(nodes), k)
    {
      ghost var ring := [head] + nodes;
      assert ring[k + 1] == nodes[k];
      UnlinkRing(next, prev, ring, k + 1);
      var n, p := next[cur], prev[cur];
      next := next[p := n];
      prev := prev[n := p];
      count := count - 1;
      nodes := Without(nodes, k);
      assert [head] + nodes == Without(ring, k + 1);
    }
  }

  // --- Answers -------------------------------------------------------------------------------------

  /** The entries among the items have the word that m holds. */
  predicate Known(items: seq<int>, m: map<int, int>) {
    forall i | 0 <= i < |items| && !IsMipsAddress(items[i]) :: items[i] in m
  }

  lemma KnownRest(items: seq<int>, m: map<int, int>)
    requires items != [] && Known(items, m)
    ensures Known(items[1..], m)
  {
    forall i | 0 <= i < |items| - 1 ensures items[1..][i] == items[i + 1] {}
  }

  lemma KnownMore(items: seq<int>, m: map<int, int>, e: int)
    requires Known(items, m) && e in m
    ensures Known(items + [e], m)
  {
  }

  /** What returnPipeLine moves out of the staging FIFO and what it leaves there: addresses of the
      other CPU are dropped, and an entry whose slot index is not below 20 stops it. */
  datatype Drained = Drained(moved: seq<int>, left: seq<int>)

  function Drain(items: seq<int>, slot: map<int, int>): Drained
    requires Known(items, slot)
  {
    if items == [] then Drained([], [])
    else
      KnownRest(items, slot);
      if IsMipsAddress(items[0]) then Drain(items[1..], slot)
      else if slot[items[0]] > 19 then Drained([], items)
      else
        var d := Drain(items[1..], slot);
        Drained([items[0]] + d.moved, d.left)
  }

  function Nodes(entries: seq<int>, off: int): (ns: seq<int>)
    ensures |ns| == |entries| && forall i | 0 <= i < |ns| :: ns[i] == entries[i] + off
  {
    seq(|entries|, i requires 0 <= i < |entries| => entries[i] + off)
  }

  /** Where a drain of the items ends: the list behind `nodes` and the items left. */
  function Goal(nodes: seq<int>, items: seq<int>, slot: map<int, int>, off: int): (seq<int>, seq<int>)
    requires Known(items, slot)
  {
    var d := Drain(items, slot);
    (nodes + Nodes(d.moved, off), d.left)
  }

  /** The oldest item stops the drain, is dropped, or goes to the list. */
  lemma GoalStep(nodes: seq<int>, items: seq<int>, slot: map<int, int>, off: int)
    requires Known(items, slot) && items != []
    ensures Known(items[1..], slot)
    ensures var e := items[0];
            Goal(nodes, items, slot, off) ==
              if IsMipsAddress(e) then Goal(nodes + [], items[1..], slot, off)
              else if slot[e] > 19 then (nodes, items)
              else Goal(nodes + [e + off], items[1..], slot, off)
  {
    KnownRest(items, slot);
    assert nodes + [] == nodes;
    var e, d := items[0], Drain(items[1..], slot);
    assert Nodes([e] + d.moved, off) == [e + off] + Nodes(d.moved, off);
    assert nodes + ([e + off] + Nodes(d.moved, off)) == nodes + [e + off] + Nodes(d.moved, off);
    assert nodes + Nodes([], off) == nodes;
  }

  lemma GoalDone(nodes: seq<int>, slot: map<int, int>, off: int)
    ensures Goal(nodes, [], slot, off) == (nodes, [])
  {
    assert nodes + [] == nodes;
  }

  /** The answers of one CPU: a staging FIFO filled by the interrupt side and the list behind it.
      `slot` is the slot-index word of the entries; `queued` and `listed` are the entries with bit 4, "return
      queued", and with bit 5, "in return list", of their flags set. */
  class ReturnQueue {
    const list: SessionList
    const staging: CommFifo
    var slot: map<int, int>
    var queued: set<int>
    var listed: set<int>

    ghost predicate Valid()
      reads this, list, staging, staging.slots
    {
      && list.Valid() && staging.Valid()
      && Known(staging.Items(), slot) && Known(staging.Items(), list.session)
      && Pending(staging.Items(), list.nodes, list.head, list.off)
      && Flagged(staging.Items(), 0, queued) && Flagged(list.nodes, list.off, listed)
    }

    constructor (list: SessionList, staging: CommFifo, slot: map<int, int>)
      requires list.Valid() && list.nodes == [] && staging.Valid() && staging.Items() == []
      ensures Valid() && this.list == list && this.staging == staging && this.slot == slot
      ensures queued == {} && listed == {}
    {
      this.list, this.staging, this.slot, queued, listed := list, staging, slot, {}, {};
    }

    /** AddReturn2Fifo for an entry that is neither staged nor listed: an address of the other CPU is
        refused, and so is any entry when the FIFO is full. */
    method AddReturn(entry: int) returns (ok: bool)
      requires Valid() && entry in slot && entry in list.session
      requires entry !in staging.Items() && entry + list.off != list.head && entry + list.off !in list.nodes
      modifies this`queued, staging`wr, staging`stat, staging.slots
      ensures Valid() && ok == (!IsMipsAddress(entry) && old(|staging.Items()|) + 1 < staging.cap)
      ensures staging.Items() == if ok then old(staging.Items()) + [entry] else old(staging.Items())
      ensures queued == if ok then old(queued) + {entry} else old(queued)
    {
      if IsMipsAddress(entry) {
        return false;
      }
      ghost var items := staging.Items();
      PendingMore(items, list.nodes, list.head, list.off, entry);
      KnownMore(items, slot, entry);
      KnownMore(items, list.session, entry);
      ok := staging.PutItem(entry);
      if ok {
        queued := queued + {entry};
      }
    }

    /** One round of returnPipeLine: drops the oldest staged entry or moves it to the list. */
    method MoveOldest(entry: int) returns (item: nat)
      requires Valid() && staging.Items() != [] && entry == staging.Items()[0]
      modifies this`listed, list, staging
      ensures Valid() && staging.Items() == old(staging.Items())[1..] && list.session == old(list.session)
      ensures list.nodes == old(list.nodes) + (if IsMipsAddress(entry) then [] else [entry + list.off])
      ensures listed == old(listed) + (if IsMipsAddress(entry) then {} else {entry})
      ensures item == 0 <==> staging.Items() == []
      ensures item != 0 ==> staging.slots[staging.rd] == staging.Items()[0]
    {
      ghost var items := staging.Items();
      PendingRest(items, list.nodes, list.head, list.off);
      KnownRest(items, slot);
      KnownRest(items, list.session);
      FlaggedRest(items, queued);
      if !IsMipsAddress(entry) {
        FlaggedMore(list.nodes, list.off, listed, entry);
        listed := listed + {entry};
        list.Append(entry);
      }
      item := staging.ItemRdNext();
    }

    /** returnPipeLine.  Returns false when it stopped at a bad slot index: it then keeps the list's
        semaphore, so that nobody gets past it again. */
    method ReturnPipeLine() returns (released: bool)
      requires Valid()
      modifies this`listed, list, staging
      ensures Valid() && old(listed) <= listed
      ensures (list.nodes, staging.Items()) == Goal(old(list.nodes), old(staging.Items()), slot, list.off)
      ensures released == (staging.Items() == [])
      ensures list.session == old(list.session)
    {
      ghost var items := staging.Items();
      ghost var goal := Goal(list.nodes, items, slot, list.off);
      var item := staging.GetItemRd();
      while item != 0
        invariant Valid() && items == staging.Items() && (item == 0 <==> items == [])
        invariant item != 0 ==> staging.slots[staging.rd] == items[0]
        invariant list.session == old(list.session) && old(listed) <= listed
        invariant Goal(list.nodes, items, slot, list.off) == goal
        decreases |items|
      {
        var entry := staging.slots[staging.rd];
        GoalStep(list.nodes, items, slot, list.off);
        if !IsMipsAddress(entry) && slot[entry] > 19 {
          return false;
        }
        item := MoveOldest(entry);
        items := items[1..];
      }
      GoalDone(list.nodes, slot, list.off);
      return true;
    }

    /** GetReturnbySessionId: drains, then unlinks the oldest answer of the session.  `blocked` when
        the drain kept the semaphore. */
    method GetReturnBySessionId(id: int) returns (blocked: bool, found: bool, entry: int)
      requires Valid()
      modifies this`listed, list, staging
      ensures Valid() && list.session == old(list.session)
      ensures found ==> entry in listed
      ensures var (all, left) := Goal(old(list.nodes), old(staging.Items()), slot, list.off);
              && staging.Items() == left && blocked == (left != [])
              && Keyed(all, list.session, list.off)
              && var k := First(Sessions(all, list.session, list.off), id);
                 && found == (!blocked && k < FirstForeign(all))
                 && entry == (if found then all[k] - list.off else 0)
                 && list.nodes == if found then Without(all, k) else all
    {
      var ok := ReturnPipeLine();
      if !ok {
        return true, false, 0;
      }
      blocked := false;
      found, entry := TakeAnswer(id);
    }

    /** The search of GetReturnbySessionId, with the staging FIFO drained. */
    method TakeAnswer(id: int) returns (found: bool, entry: int)
      requires Valid() && staging.Items() == []
      modifies list
      ensures Valid() && list.session == old(list.session) && (found ==> entry in listed)
      ensures Keyed(old(list.nodes), list.session, list.off)
      ensures var k := First(Sessions(old(list.nodes), list.session, list.off), id);
              && found == (k < FirstForeign(old(list.nodes)))
              && entry == (if found then old(list.nodes)[k] - list.off else 0)
              && list.nodes == if found then Without(old(list.nodes), k) else old(list.nodes)
    {
      ghost var all := list.nodes;
      found, entry := list.Take(id, true);
      if found { FlaggedWithout(all, list.off, listed, First(Sessions(all, list.session, list.off), id)); }
    }
  }

  /** Every entry, whose address is `off` below the node's, has the flag. */
  predicate Flagged(nodes: seq<int>, off: int, flag: set<int>) {
    forall i | 0 <= i < |nodes| :: nodes[i] - off in flag
  }

  lemma FlaggedRest(items: seq<int>, flag: set<int>)
    requires items != [] && Flagged(items, 0, flag)
    ensures Flagged(items[1..], 0, flag)
  {
    forall i | 0 <= i < |items| - 1 ensures items[1..][i] - 0 in flag { assert items[i + 1] - 0 in flag; }
  }

  lemma FlaggedMore(nodes: seq<int>, off: int, flag: set<int>, entry: int)
    requires Flagged(nodes, off, flag)
    ensures Flagged(nodes + [entry + off], off, flag + {entry})
  {
  }

  lemma FlaggedWithout(nodes: seq<int>, off: int, flag: set<int>, k: nat)
    requires Flagged(nodes, off, flag) && k < |nodes|
    ensures Flagged(Without(nodes, k), off, flag) && nodes[k] - off in flag
  {
    forall i | 0 <= i < |nodes| - 1 ensures Without(nodes, k)[i] - off in flag {
      assert nodes[if i < k then i else i + 1] - off in flag;
    }
  }

  /** Staged entries are in no list yet and staged once: a call slot is answered once until its
      caller has taken the answer. */
  predicate Pending(items: seq<int>, nodes: seq<int>, head: int, off: int) {
    && (forall i | 0 <= i < |items| && !IsMipsAddress(items[i]) :: items[i] + off != head && items[i] + off !in nodes)
    && (forall i, j | 0 <= i < j < |items| && !IsMipsAddress(items[i]) :: items[i] != items[j])
  }

  lemma PendingMore(items: seq<int>, nodes: seq<int>, head: int, off: int, e: int)
    requires Pending(items, nodes, head, off) && e !in items && e + off != head && e + off !in nodes
    ensures Pending(items + [e], nodes, head, off)
  {
  }

  lemma PendingRest(items: seq<int>, nodes: seq<int>, head: int, off: int)
    requires items != [] && Pending(items, nodes, head, off)
    ensures Pending(items[1..], nodes, head, off)
    ensures !IsMipsAddress(items[0]) ==> Pending(items[1..], nodes + [items[0] + off], head, off)
  {
    forall i | 0 <= i < |items| - 1 ensures items[1..][i] == items[i + 1] {}
    forall i | 0 < i < |items| && !IsMipsAddress(items[0]) ensures items[0] != items[i] {}
  }
}
