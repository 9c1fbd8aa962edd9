/** The sequential logic of the crawler's find_node task
    (com.zx.bt.task.FindNodeTask): the bounded send queue with its overflow
    rule, the routing-table refill that feeds it, and the dispatcher loop
    that takes the queue head and sends it under a rotating local identity.

    Threads, the pacing lock, the cron schedule and the UDP sender are not
    modelled: the random identifiers the task generates are parameters, and
    a send is an emitted `Send` record.
 */
module FindNodeTask {
  import opened BlockingDeque

  // ---------------------------------------------------------------------
  // Java `int` arithmetic

  const IntMin: int := -0x8000_0000
  const IntMax: int := 0x7fff_ffff

  /** The Java `int` that `x` wraps to (two's complement, 32 bits). */
  function Wrap32(x: int): (r: int)
    ensures IntMin <= r <= IntMax
    ensures (r - x) % 0x1_0000_0000 == 0
    ensures IntMin <= x <= IntMax ==> r == x
  {
    (x - IntMin) % 0x1_0000_0000 + IntMin
  }

  /** Java's `a % b` for `b > 0`: truncates toward zero, so the remainder
      takes the sign of `a`. */
  function JavaRem(a: int, b: int): (r: int)
    requires 0 < b
    ensures -b < r < b
    ensures 0 <= a ==> r == a % b
    ensures a < 0 ==> r <= 0
  {
    if 0 <= a then a % b else -((-a) % b)
  }

  /** `b * d` lies strictly between `-b` and `b` only for `d == 0`. */
  lemma MultipleInOpenRange(b: int, d: int)
    requires 0 < b && -b < b * d < b
    ensures d == 0
  {
  }

  /** Whatever the sign of `x`, `x % b == 0` exactly when `x` is a
      multiple of `b`; `k` is the multiple. */
  lemma MultipleOf(x: int, b: int) returns (k: int)
    requires 0 < b && x % b == 0
    ensures x == b * k
  {
    k := x / b;
  }

  /** A multiple of `b` leaves remainder 0. */
  lemma MultipleModZero(b: int, k: int)
    requires 0 < b
    ensures (b * k) % b == 0
  {
    var x := b * k;
    assert x == b * (x / b) + x % b;
    assert x % b == b * (k - x / b);
    MultipleInOpenRange(b, k - x / b);
  }

  /** Java's remainder, characterised as section 15.17.3 of the Java
      Language Specification does: the value `r` is `JavaRem(a, b)` exactly
      when it is smaller than `b` in magnitude, does not have the opposite
      sign of `a`, and differs from `a` by a multiple of `b`
      (`(a / b) * b + a % b == a` with truncating division). */
  lemma {:induction false} JavaRemCharacterised(a: int, b: int, r: int)
    requires 0 < b
    ensures r == JavaRem(a, b) <==>
              && -b < r < b
              && (0 <= a ==> 0 <= r)
              && (a < 0 ==> r <= 0)
              && (a - r) % b == 0
  {
    var j := JavaRem(a, b);
    if a < 0 {
      var m := -a;
      assert m == b * (m / b) + m % b;
      assert a - j == b * (-(m / b));
      MultipleModZero(b, -(m / b));
    } else {
      assert a == b * (a / b) + a % b;
      assert a - j == b * (a / b);
      MultipleModZero(b, a / b);
    }
    if -b < r < b && (0 <= a ==> 0 <= r) && (a < 0 ==> r <= 0) && (a - r) % b == 0 {
      var k1 := MultipleOf(a - r, b);
      var k2 := MultipleOf(a - j, b);
      assert j - r == b * (k1 - k2);
      MultipleInOpenRange(b, k1 - k2);
    }
  }

  // ---------------------------------------------------------------------
  // Data model

  /** The fixed capacity of the send queue. */
  const Capacity: nat := 10240

  /** The dispatcher resets its counter once it exceeds this bound. */
  const Max: int := IntMax - 10000

  /** A 20-byte node identifier, kept in its string form as the
      configuration and the sender use it. */
  type NodeId = string

  /** A UDP endpoint (InetSocketAddress). */
  datatype Addr = Addr(host: string, port: int)

  /** A pending send: the value class held by the queue. */
  datatype FindNode = FindNode(address: Addr)

  /** A routing-table entry; only its address matters here. */
  datatype Node = Node(id: NodeId, host: string, port: int) {
    function ToAddress(): Addr {
      Addr(host, port)
    }
  }

  type SendQueue = Deque<FindNode>

  /** One call of the UDP sender: destination, sending identity, the
      freshly generated query target, and the slot that picks the socket. */
  datatype Send = Send(destination: Addr, localId: NodeId, target: NodeId, slot: int)

  /** What one routing table's turn of the refill came to: `getForTop8`
      returned a list and every address was put; it returned null; it threw;
      or it returned a list and `toAddress` threw on the node at position
      `done`, after the addresses of the nodes before it were put. Every
      exception is caught and logged, and the next table runs. */
  datatype TableResult =
    | Nodes(nodes: seq<Node>)
    | Null
    | Threw
    | ThrewAfter(nodes: seq<Node>, done: nat)
  {
    /** The nodes whose addresses were put, in list order. */
    function Converted(): seq<Node> {
      match this
      case Nodes(ns) => ns
      case ThrewAfter(ns, done) => if done <= |ns| then ns[..done] else ns
      case _ => []
    }
  }

  /** The queue elements for a sequence of addresses, in order. */
  function Tasks(addresses: seq<Addr>): (r: seq<FindNode>)
    ensures |r| == |addresses|
    ensures forall k :: 0 <= k < |r| ==> r[k] == FindNode(addresses[k])
    decreases |addresses|
  {
    if addresses == [] then [] else [FindNode(addresses[0])] + Tasks(addresses[1..])
  }

  /** The addresses of a node list, in list order. */
  function Addresses(nodes: seq<Node>): (r: seq<Addr>)
    ensures |r| == |nodes|
    ensures forall k :: 0 <= k < |r| ==> r[k] == nodes[k].ToAddress()
    decreases |nodes|
  {
    if nodes == [] then [] else [nodes[0].ToAddress()] + Addresses(nodes[1..])
  }

  // ---------------------------------------------------------------------
  // The send queue

  /** The queue as the constructor creates it. */
  function NewQueue(): (q: SendQueue)
    ensures q.Valid() && q.items == [] && q.capacity == Capacity
  {
    Deque([], Capacity)
  }

  /** `put`: offer the address at the tail; if the queue is full, remove
      the tail (the most recently queued entry) and offer again, ignoring
      the second offer's outcome. */
  function Put(q: SendQueue, address: Addr): (r: SendQueue)
    ensures r.capacity == q.capacity
    ensures q.Valid() ==> r.Valid()
    ensures q.Valid() ==> r.items != [] && r.items[|r.items| - 1] == FindNode(address)
    ensures q.Valid() && |q.items| < q.capacity ==>
              r.items == q.items + [FindNode(address)]
    ensures q.Valid() && |q.items| == q.capacity ==>
              |r.items| == q.capacity &&
              r.items[..q.capacity - 1] == q.items[..q.capacity - 1] &&
              r.items[q.capacity - 1] == FindNode(address)
  {
    var (accepted, q1) := Offer(q, FindNode(address));
    if accepted then q1
    else
      var (_, q2) := PollLast(q1);
      Offer(q2, FindNode(address)).1
  }

  /** `put` of each address in turn. */
  function PutAll(q: SendQueue, addresses: seq<Addr>): (r: SendQueue)
    ensures r.capacity == q.capacity
    ensures q.Valid() ==> r.Valid()
    ensures q.Valid() && addresses != [] ==> r.items != [] && r.items[|r.items| - 1] == FindNode(addresses[|addresses| - 1])
    ensures q.Valid() && |q.items| + |addresses| <= q.capacity ==> |r.items| == |q.items| + |addresses|
    decreases |addresses|
  {
    if addresses == [] then q
    else PutAll(Put(q, addresses[0]), addresses[1..])
  }

  /** The addresses one table result contributes: none for null, an
      exception, or an empty list. */
  function TableAddresses(t: TableResult): seq<Addr> {
    Addresses(t.Converted())
  }

  /** All addresses a refill enqueues, table by table. */
  function RefillAddresses(results: seq<TableResult>): (r: seq<Addr>)
    decreases |results|
  {
    if results == [] then []
    else TableAddresses(results[0]) + RefillAddresses(results[1..])
  }

  /** `autoPutToFindNodeQueue`: for each routing table in order, put the
      addresses of the nodes it returned; a null or empty list, or a table
      that threw, changes nothing, and a `toAddress` that threw partway
      leaves the addresses put before it. `results[j]` is what table `j`
      returned for its freshly generated identifier. */
  function Refill(q: SendQueue, results: seq<TableResult>): (r: SendQueue)
    ensures r.capacity == q.capacity
    ensures q.Valid() ==> r.Valid()
    decreases |results|
  {
    if results == [] then q
    else
      var q1 :=
        match results[0]
        case Nodes(ns) => if |ns| > 0 then PutAll(q, Addresses(ns)) else q
        case ThrewAfter(ns, done) =>
          if |ns| > 0 then PutAll(q, Addresses(if done <= |ns| then ns[..done] else ns)) else q
        case _ => q;
      Refill(q1, results[1..])
  }

  // ---------------------------------------------------------------------
  // The dispatcher

  /** `send` carries `task`'s address from identity `nodeIds[slot]` with
      that same slot and the given query target: identity and socket slot
      always agree. */
  predicate SendsTask(send: Send, nodeIds: seq<NodeId>, task: FindNode, slot: int, target: NodeId) {
    && send.destination == task.address
    && send.slot == slot
    && 0 <= slot < |nodeIds|
    && send.localId == nodeIds[slot]
    && send.target == target
  }

  /** Outcome of `run(index)`: the head was taken and sent, or it was taken
      and `nodeIds.get(index)` then threw. */
  datatype RunOutcome = Sent(send: Send, queue: SendQueue) | IndexOutOfBounds(queue: SendQueue)

  /** `run(index)`: take the queue head, then send it from
      `nodeIds[index]` with slot `index`. The head is taken before the
      identity is looked up, so a bad index still consumes it. */
  function Run(nodeIds: seq<NodeId>, q: SendQueue, index: int, target: NodeId): (r: RunOutcome)
    requires q.items != []
    ensures r.queue.capacity == q.capacity
    ensures [q.items[0]] + r.queue.items == q.items
    ensures r.Sent? <==> 0 <= index < |nodeIds|
    ensures r.Sent? ==> SendsTask(r.send, nodeIds, q.items[0], index, target)
  {
    var (head, rest) := Take(q);
    if 0 <= index < |nodeIds| then Sent(Send(head.address, nodeIds[index], target, index), rest)
    else IndexOutOfBounds(rest)
  }

  /** The dispatcher thread's state: the shared queue and its counter `i`. */
  datatype Dispatcher = Dispatcher(queue: SendQueue, counter: int)

  /** The state `start` begins its loop in: the counter starts inside
      `[0, Max]`, the range every later iteration keeps it in. */
  function Start(q: SendQueue): (s: Dispatcher)
    ensures s.queue == q && s.counter == 0
    ensures 0 <= s.counter <= Max
  {
    Dispatcher(q, 0)
  }

  /** One iteration of the loop in `start`: `run(i++ % size)`, then reset
      `i` to 0 once it exceeds `Max`. Any exception (from `% 0` or from a
      bad index) is caught, which skips the reset. `size` is the number of
      configured identities; with none, `% 0` throws before the queue is
      touched, so only a non-empty identity list needs a non-empty queue
      (the real `take` would wait for one). */
  function Step(nodeIds: seq<NodeId>, s: Dispatcher, target: NodeId): (r: (Option<Send>, Dispatcher))
    requires nodeIds == [] || s.queue.items != []
    ensures r.1.queue.capacity == s.queue.capacity
    ensures nodeIds == [] ==> r == (None, Dispatcher(s.queue, Wrap32(s.counter + 1)))
    ensures nodeIds != [] ==> r.1.queue.items == s.queue.items[1..]
    ensures nodeIds != [] && 0 <= s.counter <= Max ==>
              && r.0.Some?
              && SendsTask(r.0.value, nodeIds, s.queue.items[0], s.counter % |nodeIds|, target)
              && r.1.counter == (if s.counter == Max then 0 else s.counter + 1)
  {
    if nodeIds == [] then (None, Dispatcher(s.queue, Wrap32(s.counter + 1)))
    else
      var index := JavaRem(s.counter, |nodeIds|);
      var i := Wrap32(s.counter + 1);
      match Run(nodeIds, s.queue, index, target)
      case Sent(send, q) => (Some(send), Dispatcher(q, if i > Max then 0 else i))
      case IndexOutOfBounds(q) => (None, Dispatcher(q, i))
  }

  /** `|targets|` loop iterations with a non-empty identity list, one query
      target per iteration; yields the sends in order and the final state. */
  function Steps(nodeIds: seq<NodeId>, s: Dispatcher, targets: seq<NodeId>): (r: (seq<Send>, Dispatcher))
    requires nodeIds != []
    requires |targets| <= |s.queue.items|
    ensures r.1.queue.capacity == s.queue.capacity
    ensures r.1.queue.items == s.queue.items[|targets|..]
    ensures |r.0| <= |targets|
    decreases |targets|
  {
    if targets == [] then ([], s)
    else
      var first := Step(nodeIds, s, targets[0]);
      var rest := Steps(nodeIds, first.1, targets[1..]);
      ((if first.0.Some? then [first.0.value] else []) + rest.0, rest.1)
  }
}
