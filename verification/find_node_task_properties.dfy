/** Properties of the find_node task that relate several calls: the
    overflow rule of `put`, the order in which `put`, refill and the
    dispatcher deliver addresses, and the rotation of the local identity
    and its slot.
 */
module FindNodeTaskProperties {
  import opened BlockingDeque
  import opened FindNodeTask

  // ---------------------------------------------------------------------
  // put

  /** The address just put is at the tail: `pollLast` hands it straight
      back, whether or not the queue was full. */
  lemma PutLeavesAddressAtTail(q: SendQueue, address: Addr)
    requires q.Valid()
    ensures PollLast(Put(q, address)).0 == Some(FindNode(address))
  {
  }

  /** On a full queue `put` displaces the newest entry, not the oldest:
      the multiset of entries loses the old tail and gains the new address,
      and (for a capacity above one) the head is still the oldest entry. */
  lemma PutOnFullDisplacesNewest(q: SendQueue, address: Addr)
    requires q.Valid() && |q.items| == q.capacity
    ensures multiset(Put(q, address).items) ==
              multiset(q.items) - multiset{q.items[q.capacity - 1]} + multiset{FindNode(address)}
    ensures 1 < q.capacity ==> Put(q, address).items[0] == q.items[0]
  {
  }

  /** The size after `put`: one more, up to the capacity. */
  lemma SizeAfterPut(q: SendQueue, address: Addr)
    requires q.Valid()
    ensures Size(Put(q, address)) == if Size(q) < q.capacity then Size(q) + 1 else q.capacity
  {
  }

  /** Putting a concatenation is putting one part, then the other. */
  lemma {:induction false} PutAllAppend(q: SendQueue, a: seq<Addr>, b: seq<Addr>)
    ensures PutAll(q, a + b) == PutAll(PutAll(q, a), b)
    decreases |a|
  {
    if a == [] {
      assert a + b == b;
    } else {
      assert (a + b)[0] == a[0];
      assert (a + b)[1..] == a[1..] + b;
      PutAllAppend(Put(q, a[0]), a[1..], b);
    }
  }

  /** With room for one more, putting a list appends its first address
      and continues from there. */
  lemma PutAllFirstAppends(q: SendQueue, addresses: seq<Addr>) returns (next: SendQueue)
    requires q.Valid() && addresses != [] && |q.items| < q.capacity
    ensures next.Valid() && next.capacity == q.capacity
    ensures next.items == q.items + [FindNode(addresses[0])]
    ensures PutAll(q, addresses) == PutAll(next, addresses[1..])
  {
    next := Put(q, addresses[0]);
  }

  /** While nothing overflows, putting addresses appends them in order. */
  lemma {:induction false} PutAllAppendsInOrder(q: SendQueue, addresses: seq<Addr>)
    requires q.Valid()
    requires |q.items| + |addresses| <= q.capacity
    ensures PutAll(q, addresses).items == q.items + Tasks(addresses)
    decreases |addresses|
  {
    if addresses != [] {
      var next := PutAllFirstAppends(q, addresses);
      PutAllAppendsInOrder(next, addresses[1..]);
      assert next.items + Tasks(addresses[1..]) == q.items + Tasks(addresses);
    }
  }

  // ---------------------------------------------------------------------
  // Refill

  /** A refill is `put` of every returned address, table by table and in
      list order; empty lists, nulls and failing tables contribute none. */
  lemma {:induction false} RefillPutsAllAddresses(q: SendQueue, results: seq<TableResult>)
    ensures Refill(q, results) == PutAll(q, RefillAddresses(results))
    decreases |results|
  {
    if results != [] {
      var q1 := match results[0]
        case Nodes(ns) => if |ns| > 0 then PutAll(q, Addresses(ns)) else q
        case ThrewAfter(ns, done) =>
          if |ns| > 0 then PutAll(q, Addresses(if done <= |ns| then ns[..done] else ns)) else q
        case _ => q;
      assert q1 == PutAll(q, TableAddresses(results[0]));
      RefillPutsAllAddresses(q1, results[1..]);
      PutAllAppend(q, TableAddresses(results[0]), RefillAddresses(results[1..]));
    }
  }

  /** With room for all of them, a refill appends exactly the returned
      addresses in table order, so the size grows by their number. */
  lemma RefillAppendsInOrder(q: SendQueue, results: seq<TableResult>)
    requires q.Valid()
    requires |q.items| + |RefillAddresses(results)| <= q.capacity
    ensures Refill(q, results).items == q.items + Tasks(RefillAddresses(results))
    ensures Size(Refill(q, results)) == Size(q) + |RefillAddresses(results)|
  {
    RefillPutsAllAddresses(q, results);
    PutAllAppendsInOrder(q, RefillAddresses(results));
  }

  /** Tables that all returned null, an empty list or an exception, or
      whose first `toAddress` threw, leave the queue untouched. */
  lemma {:induction false} RefillWithoutNodesIsNoOp(q: SendQueue, results: seq<TableResult>)
    requires forall j :: 0 <= j < |results| ==> results[j].Converted() == []
    ensures Refill(q, results) == q
    decreases |results|
  {
    if results != [] {
      RefillWithoutNodesIsNoOp(q, results[1..]);
    }
  }

  /** A table whose `toAddress` threw at position `done` keeps the
      addresses of the nodes before it, and the refill goes on with the
      next table. */
  lemma RefillKeepsPartialPut(q: SendQueue, nodes: seq<Node>, done: nat, rest: seq<TableResult>)
    requires done <= |nodes|
    ensures Refill(q, [ThrewAfter(nodes, done)] + rest) == Refill(PutAll(q, Addresses(nodes[..done])), rest)
  {
    assert ([ThrewAfter(nodes, done)] + rest)[1..] == rest;
    if nodes == [] {
      assert Addresses(nodes[..done]) == [];
    }
  }

  // ---------------------------------------------------------------------
  // The dispatcher

  /** `sends` are one per target, send `k` carrying `tasks[k]` from the
      identity and slot `(counter + k) % |nodeIds|` with query target
      `targets[k]`. */
  predicate SentInRotation(sends: seq<Send>, nodeIds: seq<NodeId>, tasks: seq<FindNode>, counter: int, targets: seq<NodeId>)
    requires nodeIds != []
  {
    && |sends| == |targets| <= |tasks|
    && forall k :: 0 <= k < |targets| ==>
         SendsTask(sends[k], nodeIds, tasks[k], (counter + k) % |nodeIds|, targets[k])
  }

  /** A run in rotation is its first send followed by a run in rotation
      one slot further on. */
  lemma SentInRotationCons(first: Send, rest: seq<Send>, nodeIds: seq<NodeId>, tasks: seq<FindNode>, counter: int, targets: seq<NodeId>)
    requires nodeIds != [] && targets != [] && tasks != []
    requires SendsTask(first, nodeIds, tasks[0], counter % |nodeIds|, targets[0])
    requires SentInRotation(rest, nodeIds, tasks[1..], counter + 1, targets[1..])
    ensures SentInRotation([first] + rest, nodeIds, tasks, counter, targets)
  {
  }

  /** With the counter in `[0, Max]`, the first iteration sends, and the
      rest of the run continues from the state it leaves. */
  lemma StepsFirstSends(nodeIds: seq<NodeId>, s: Dispatcher, targets: seq<NodeId>) returns (send: Send, next: Dispatcher)
    requires nodeIds != [] && targets != [] && |targets| <= |s.queue.items|
    requires 0 <= s.counter <= Max
    ensures SendsTask(send, nodeIds, s.queue.items[0], s.counter % |nodeIds|, targets[0])
    ensures next.queue.items == s.queue.items[1..]
    ensures next.counter == (if s.counter == Max then 0 else s.counter + 1)
    ensures Steps(nodeIds, s, targets) ==
              ([send] + Steps(nodeIds, next, targets[1..]).0, Steps(nodeIds, next, targets[1..]).1)
  {
    send := Step(nodeIds, s, targets[0]).0.value;
    next := Step(nodeIds, s, targets[0]).1;
  }

  /** Before any reset, consecutive loop iterations send the queue head in
      FIFO order, iteration `k` from identity and slot `(i + k) % size`,
      each with its own query target. */
  lemma {:induction false} StepsSendHeadsInRotation(nodeIds: seq<NodeId>, s: Dispatcher, targets: seq<NodeId>)
    requires nodeIds != []
    requires |targets| <= |s.queue.items|
    requires 0 <= s.counter <= Max && s.counter + |targets| <= Max + 1
    ensures SentInRotation(Steps(nodeIds, s, targets).0, nodeIds, s.queue.items, s.counter, targets)
    decreases |targets|
  {
    if targets != [] {
      var send, next := StepsFirstSends(nodeIds, s, targets);
      if |targets| == 1 {
        SentInRotationCons(send, [], nodeIds, s.queue.items, s.counter, targets);
      } else {
        StepsSendHeadsInRotation(nodeIds, next, targets[1..]);
        SentInRotationCons(send, Steps(nodeIds, next, targets[1..]).0, nodeIds, s.queue.items, s.counter, targets);
      }
    }
  }

  /** Before a reset the counter advances by one per iteration; the
      iteration that starts at `Max` leaves it at 0. */
  lemma {:induction false} StepsAdvanceCounter(nodeIds: seq<NodeId>, s: Dispatcher, targets: seq<NodeId>)
    requires nodeIds != []
    requires |targets| <= |s.queue.items|
    requires 0 <= s.counter <= Max && s.counter + |targets| <= Max + 1
    ensures Steps(nodeIds, s, targets).1.counter == (if s.counter + |targets| > Max then 0 else s.counter + |targets|)
    decreases |targets|
  {
    if targets != [] {
      var send, next := StepsFirstSends(nodeIds, s, targets);
      if |targets| > 1 {
        StepsAdvanceCounter(nodeIds, next, targets[1..]);
      }
    }
  }

  /** From any counter in `[0, Max]`, every iteration sends and the
      counter stays in `[0, Max]`, across resets: `i % size` never goes
      negative and `i++` never overflows. */
  lemma {:induction false} StepsKeepCounterInRange(nodeIds: seq<NodeId>, s: Dispatcher, targets: seq<NodeId>)
    requires nodeIds != []
    requires |targets| <= |s.queue.items|
    requires 0 <= s.counter <= Max
    ensures |Steps(nodeIds, s, targets).0| == |targets|
    ensures 0 <= Steps(nodeIds, s, targets).1.counter <= Max
    decreases |targets|
  {
    if targets != [] {
      var (sent, s1) := Step(nodeIds, s, targets[0]);
      StepsKeepCounterInRange(nodeIds, s1, targets[1..]);
    }
  }

  /** The iteration that finds the counter at `Max` resets it, so the next
      one uses slot 0 whatever slot came before: the rotation restarts at
      the reset point. */
  lemma ResetRestartsRotation(nodeIds: seq<NodeId>, s: Dispatcher, t1: NodeId, t2: NodeId)
    requires nodeIds != [] && 2 <= |s.queue.items| && s.counter == Max
    ensures |Steps(nodeIds, s, [t1, t2]).0| == 2
    ensures Steps(nodeIds, s, [t1, t2]).0[0].slot == Max % |nodeIds|
    ensures Steps(nodeIds, s, [t1, t2]).0[1].slot == 0
    ensures Steps(nodeIds, s, [t1, t2]).1.counter == 1
  {
    var s1 := Step(nodeIds, s, t1).1;
    assert s1.counter == 0;
    var s2 := Step(nodeIds, s1, t2).1;
    assert Step(nodeIds, s1, t2).0.Some?;
    assert Steps(nodeIds, s2, []) == ([], s2);
    assert [t2][1..] == [];
    var r1 := Steps(nodeIds, s1, [t2]);
    assert r1.1.counter == 1 && |r1.0| == 1 && r1.0[0].slot == 0;
    assert [t1, t2][1..] == [t2];
    assert Steps(nodeIds, s, [t1, t2]).0 == [Step(nodeIds, s, t1).0.value] + r1.0;
  }

  /** End to end: puts into a fresh queue without overflow, then as many
      iterations from a fresh counter send exactly the put addresses in
      put order, iteration `k` from identity and slot `k % size`, and
      drain the queue. */
  lemma PutsThenStepsDeliverInOrder(nodeIds: seq<NodeId>, addresses: seq<Addr>, targets: seq<NodeId>)
    requires nodeIds != []
    requires |addresses| <= Capacity
    requires |targets| == |addresses|
    ensures SentInRotation(Steps(nodeIds, Start(PutAll(NewQueue(), addresses)), targets).0, nodeIds, Tasks(addresses), 0, targets)
    ensures Steps(nodeIds, Start(PutAll(NewQueue(), addresses)), targets).1.queue.items == []
  {
    var q := PutAll(NewQueue(), addresses);
    PutAllAppendsInOrder(NewQueue(), addresses);
    StepsSendHeadsInRotation(nodeIds, Start(q), targets);
  }

  /** Overflow at capacity 3 with the consumer paused: after putting a, b,
      c, d the queue holds a, b, d; c, the newest entry when d arrived, is
      the one dropped. */
  lemma OverflowDropsNewestExample(a: Addr, b: Addr, c: Addr, d: Addr)
    ensures PutAll(Deque([], 3), [a, b, c, d]).items == [FindNode(a), FindNode(b), FindNode(d)]
  {
    PutAllAppendsInOrder(Deque([], 3), [a, b, c]);
    PutAllAppend(Deque([], 3), [a, b, c], [d]);
    assert [a, b, c] + [d] == [a, b, c, d];
  }
}
