# find_node task of a DHT crawler, modelled in Dafny

This project models the sequential core of `FindNodeTask`. That class is the
component of a BitTorrent DHT crawler that keeps `find_node` queries flowing
to known peers. The model covers three parts:

- **the send queue.** A `LinkedBlockingDeque` of capacity 10240 holds
  `FindNode` entries. `put` offers an address at the tail. If the queue is
  full, `put` removes the tail and offers the address again.
- **the routing-table refill** (`autoPutToFindNodeQueue`). For each routing
  table in order, it puts the address of every node the table returned.
- **the dispatcher loop** in `start`. Each iteration calls `run(i++ % size)`.
  `run` takes the queue head and sends it from local identity
  `nodeIds[index]` with slot `index`. The counter `i` is reset to 0 once it
  exceeds `Integer.MAX_VALUE - 10000`.

Files:

- `blocking_deque.dfy` (module `BlockingDeque`): the deque operations the
  task uses (`offer`, `pollLast`, `take`, `size`) as pure functions on an
  immutable `Deque(items, capacity)`.
- `find_node_task.dfy` (module `FindNodeTask`): the task's data (`Addr`,
  `FindNode`, `Node`, `Send`) and its operations. It also models Java `int`
  wrap-around (`Wrap32`) and Java's truncating `%` (`JavaRem`), so the
  dispatcher step is defined for every counter value.
- `find_node_task_properties.dfy` (module `FindNodeTaskProperties`): lemmas
  that relate several calls. They cover the overflow rule, the FIFO order of
  put, refill and dispatch, and the identity/slot rotation.

Collaborators that do I/O or are random are handled as follows:

- The random identifiers from `BTUtil` are parameters. The per-send query
  target is the `target` argument of `Step`. Each table's lookup identifier
  is folded into the table result.
- `RoutingTable.getForTop8` is an input. Each table's outcome is a
  `TableResult`: a node list, null, an exception, or a node list whose
  conversion threw at a given position.
- `SendUtil.findNode` is the emitted `Send(destination, localId, target, slot)`
  record.

Two behaviours of the code are easy to misread, and the model follows the
code in both:

- **Overflow drops the newest entry, not the oldest.** On a full queue
  `put` calls `pollLast()`, which removes the tail, the most recently
  queued entry, and then appends the new address. So after putting a, b,
  c, d into a queue of capacity 3 it holds a, b, d
  (`OverflowDropsNewestExample`). The comment on line 54 ("enqueue at
  head") does not match the code either: `offer` appends at the tail.
- **An empty identity list does not stop the loop.** With no identities,
  `i++ % 0` throws `ArithmeticException` on every iteration before the
  queue is touched. The loop catches it, skips the pause and the reset, and
  goes on with `i` incremented. The model's `Step` does the same: no send,
  an unchanged queue, and a wrapped increment.
- **A refill can stop partway through a table.** The `try` around each
  table also encloses the `forEach`, so if converting a node to its address
  throws, the addresses already put stay queued, the rest of that table's
  list is skipped, and the next table still runs (`ThrewAfter`,
  `RefillKeepsPartialPut`).

## Model

All source paths are in `src/main/java/com/zx/bt/task/FindNodeTask.java`.

| member | source | states |
|---|---|---|
| BlockingDeque.Offer | src/main/java/com/zx/bt/task/FindNodeTask.java:58 | `offer` succeeds iff there is room; on success the old contents are kept as a prefix and the element becomes the tail; on failure nothing changes; validity is kept |
| BlockingDeque.PollLast | src/main/java/com/zx/bt/task/FindNodeTask.java:60 | `pollLast` yields nothing exactly on an empty deque (which it leaves alone); otherwise the remaining items followed by the yielded one are the old items |
| BlockingDeque.Take | src/main/java/com/zx/bt/task/FindNodeTask.java:122 | `take` yields the head; the head followed by the remaining items are the old items (FIFO) |
| BlockingDeque.Size | src/main/java/com/zx/bt/task/FindNodeTask.java:142-144 | `size()` never exceeds the capacity of a valid queue and is zero exactly when the queue is empty |
| BlockingDeque.PollLastUndoesOffer | src/main/java/com/zx/bt/task/FindNodeTask.java:58-60 | a law of the deque whose two calls `put` combines: when there is room, `pollLast` right after `offer(x)` yields `x` and restores the deque |
| BlockingDeque.TakeAfterOfferOnEmpty | src/main/java/com/zx/bt/task/FindNodeTask.java:122 | an element offered to an empty deque is the one `take` yields, leaving the deque empty again |
| FindNodeTask.Wrap32 | src/main/java/com/zx/bt/task/FindNodeTask.java:78 | the Java `int` result of `i++` lies in the 32-bit range, is congruent to the exact value modulo 2^32, and equals it when that is in range |
| FindNodeTask.JavaRem | src/main/java/com/zx/bt/task/FindNodeTask.java:78 | Java's `i % size` for positive `size` lies strictly between `-size` and `size`, agrees with the mathematical remainder for `i >= 0`, and is never positive for negative `i` |
| FindNodeTask.JavaRemCharacterised | src/main/java/com/zx/bt/task/FindNodeTask.java:78 | for positive `size`, a value is Java's `i % size` exactly when it is smaller than `size` in magnitude, does not have the opposite sign of `i`, and differs from `i` by a multiple of `size`; so the remainder is pinned down for negative `i` too |
| FindNodeTask.Addresses | src/main/java/com/zx/bt/task/FindNodeTask.java:99 | converting a node list (defined one node at a time) yields one address per node, the address at position `k` being node `k`'s |
| FindNodeTask.NewQueue | src/main/java/com/zx/bt/task/FindNodeTask.java:43 | the send queue starts empty and valid with capacity 10240 |
| FindNodeTask.Put | src/main/java/com/zx/bt/task/FindNodeTask.java:56-64 | `put` keeps the queue within capacity and leaves the address at the tail; with room it appends and keeps everything else in place; on a full queue it keeps the first `cap-1` entries and the length stays `cap` |
| FindNodeTask.PutAll | src/main/java/com/zx/bt/task/FindNodeTask.java:99 | putting a list keeps the queue valid, leaves the last address at the tail, and grows the queue by the list's length when everything fits |
| FindNodeTask.Refill | src/main/java/com/zx/bt/task/FindNodeTask.java:93-104 | a refill over any table results, including tables that threw partway through their list, keeps the queue valid and its capacity unchanged |
| FindNodeTask.Run | src/main/java/com/zx/bt/task/FindNodeTask.java:121-123 | `run(index)` always consumes exactly the head; it sends exactly when `index` is a valid position in `nodeIds`, and then the send carries the head's address from `nodeIds[index]` with slot `index` |
| FindNodeTask.Start | src/main/java/com/zx/bt/task/FindNodeTask.java:73-75 | the loop starts on the shared queue with a counter inside `[0, Max]`, the range that `StepsKeepCounterInRange` shows every later iteration keeps |
| FindNodeTask.Step | src/main/java/com/zx/bt/task/FindNodeTask.java:76-85 | with no identities, an iteration sends nothing, leaves the queue alone and wrap-increments the counter; otherwise it consumes the head; from a counter in `[0, Max]` it sends the head with identity and slot `i % size`, and the counter becomes `i + 1`, or 0 when `i` was `Max` |
| FindNodeTask.Steps | src/main/java/com/zx/bt/task/FindNodeTask.java:76-85 | `n` iterations consume exactly the first `n` queue entries and emit at most `n` sends |
| FindNodeTaskProperties.PutLeavesAddressAtTail | src/main/java/com/zx/bt/task/FindNodeTask.java:56-63 | after `put`, full queue or not, the new address is the tail, so `pollLast` yields it |
| FindNodeTaskProperties.PutOnFullDisplacesNewest | src/main/java/com/zx/bt/task/FindNodeTask.java:58-62 | on a full queue the entries lose exactly the old tail and gain the new address; with capacity above one the oldest entry stays at the head |
| FindNodeTaskProperties.SizeAfterPut | src/main/java/com/zx/bt/task/FindNodeTask.java:56-64 | `size()` after `put` is one more than before, capped at the capacity |
| FindNodeTaskProperties.PutAllAppend | src/main/java/com/zx/bt/task/FindNodeTask.java:99 | putting `a + b` is putting `a`, then `b` |
| FindNodeTaskProperties.PutAllAppendsInOrder | src/main/java/com/zx/bt/task/FindNodeTask.java:56-64 | while nothing overflows, successive puts append the addresses in put order after the existing entries |
| FindNodeTaskProperties.RefillPutsAllAddresses | src/main/java/com/zx/bt/task/FindNodeTask.java:94-103 | a refill equals putting every returned node's address, table by table in list order; null lists, empty lists and lookups that threw contribute nothing, a table whose conversion threw contributes the addresses converted before it, and a failing table does not stop later ones |
| FindNodeTaskProperties.RefillAppendsInOrder | src/main/java/com/zx/bt/task/FindNodeTask.java:94-99 | with room for all of them, a refill appends exactly the returned addresses in order, and `size()` grows by their number |
| FindNodeTaskProperties.RefillWithoutNodesIsNoOp | src/main/java/com/zx/bt/task/FindNodeTask.java:96-102 | when every table returned null, an empty list or an exception, or threw on its first node, the queue is unchanged |
| FindNodeTaskProperties.RefillKeepsPartialPut | src/main/java/com/zx/bt/task/FindNodeTask.java:96-102 | when converting a table's node at position `done` throws, the addresses of the nodes before it stay put and the refill continues with the next table |
| FindNodeTaskProperties.StepsSendHeadsInRotation | src/main/java/com/zx/bt/task/FindNodeTask.java:73-81 | before a reset, iteration `k` sends the `k`-th queue entry (FIFO) with its own query target, from identity and slot `(i + k) % size` |
| FindNodeTaskProperties.StepsAdvanceCounter | src/main/java/com/zx/bt/task/FindNodeTask.java:73-81 | before a reset the counter advances by exactly one per iteration, and the iteration that starts at `Max` leaves it at 0 |
| FindNodeTaskProperties.StepsKeepCounterInRange | src/main/java/com/zx/bt/task/FindNodeTask.java:73-81 | from a counter in `[0, Max]`, every iteration sends and the counter stays in `[0, Max]` across any number of resets |
| FindNodeTaskProperties.ResetRestartsRotation | src/main/java/com/zx/bt/task/FindNodeTask.java:80-81 | the iteration at counter `Max` uses slot `Max % size`, and the next one restarts at slot 0 |
| FindNodeTaskProperties.PutsThenStepsDeliverInOrder | src/main/java/com/zx/bt/task/FindNodeTask.java:56-123 | up to 10240 puts into a fresh queue followed by as many iterations from a fresh counter send the put addresses in put order, iteration `k` from identity and slot `k % size`, and drain the queue |
| FindNodeTaskProperties.OverflowDropsNewestExample | src/main/java/com/zx/bt/task/FindNodeTask.java:56-64 | at capacity 3, putting a, b, c, d leaves a, b, d: the newest entry, c, is the one displaced |

## Left out

- Threads and pacing. `start` launching its thread, and `pause` with its
  `ReentrantLock`/`Condition` timed wait (lines 128-137), are about
  concurrency and timing. The loop is modelled as a finite run of
  iterations (`Steps`).
- BlockingDeque.Take: requires a non-empty deque instead of blocking until
  an element arrives.
- FindNodeTask.Step: requires a queued entry when there are identities,
  because the real `take` would wait for one.
- FindNodeTask.Steps: requires as many queued entries as iterations, for
  the same reason. It also requires a non-empty identity list; `Step`
  covers the empty list.
- FindNodeTask.Put: its guarantees are stated for a valid queue. A queue
  over its capacity cannot arise, and only such a queue could make the
  second `offer` fail when run sequentially. Under concurrency another
  producer can fill the freed place first; that case is not modelled.
- The `@Scheduled` cron cadences and `updateTargetNodeId` (lines 110-114).
  The latter only stores a freshly generated identifier through a
  configuration setter.
- `BTUtil.generateNodeId` and `generateNodeIdString` are random sources.
  Their results are parameters.
- `RoutingTable.getForTop8` and its XOR-distance selection are not part of
  this model. Their results are an input sequence of `TableResult`.
- `SendUtil.findNode` is UDP I/O. It is modelled as an emitted `Send` and
  assumed to return normally. If it threw, the loop would catch the
  exception after the head and the counter increment were consumed, and
  would skip the pause and the reset.
- Logging and exception reporting.
- `UDPServerTest` exercises database lookups, TCP connections and a long
  sleep. It has no logic of this component.
