/** A value model of the parts of a bounded, linked blocking deque
    (java.util.concurrent.LinkedBlockingDeque) that the find_node task uses:
    a fixed capacity, `offer` (append at the tail when there is
    room), `pollLast` (remove the tail, if any), `take` (remove the head) and
    `size`. Locking and blocking are not modelled: `Take` requires a
    non-empty deque instead of waiting for one.
 */
module BlockingDeque {

  datatype Option<+T> = None | Some(value: T)

  /** `items` runs from the head (index 0) to the tail. */
  datatype Deque<T> = Deque(items: seq<T>, capacity: nat) {

    /** The class invariant: a positive capacity that is never exceeded. */
    predicate Valid() {
      0 < capacity && |items| <= capacity
    }
  }

  /** `offer(x)`: succeeds exactly when there is room, and then `x` becomes
      the tail; on failure the deque is left as it was. */
  function Offer<T>(d: Deque<T>, x: T): (r: (bool, Deque<T>))
    ensures r.1.capacity == d.capacity
    ensures r.0 <==> |d.items| < d.capacity
    ensures r.0 ==> |r.1.items| == |d.items| + 1 && r.1.items[..|d.items|] == d.items && r.1.items[|d.items|] == x
    ensures !r.0 ==> r.1 == d
    ensures d.Valid() ==> r.1.Valid()
  {
    if |d.items| < d.capacity then (true, d.(items := d.items + [x])) else (false, d)
  }

  /** `pollLast()`: removes and yields the tail, or yields nothing (null)
      and leaves an empty deque alone. */
  function PollLast<T>(d: Deque<T>): (r: (Option<T>, Deque<T>))
    ensures r.1.capacity == d.capacity
    ensures r.0.None? <==> d.items == []
    ensures r.0.None? ==> r.1 == d
    ensures r.0.Some? ==> r.1.items + [r.0.value] == d.items
    ensures d.Valid() ==> r.1.Valid()
  {
    if d.items == [] then (None, d)
    else (Some(d.items[|d.items| - 1]), d.(items := d.items[..|d.items| - 1]))
  }

  /** `take()`: removes and yields the head. The real call blocks on an
      empty deque; here the caller must supply a non-empty one. */
  function Take<T>(d: Deque<T>): (r: (T, Deque<T>))
    requires d.items != []
    ensures r.1.capacity == d.capacity
    ensures [r.0] + r.1.items == d.items
    ensures d.Valid() ==> r.1.Valid()
  {
    (d.items[0], d.(items := d.items[1..]))
  }

  /** `size()`: the number of queued elements; it observes and changes
      nothing, and a valid deque never reports more than its capacity. */
  function Size<T>(d: Deque<T>): (n: nat)
    ensures d.Valid() ==> n <= d.capacity
    ensures n == 0 <==> d.items == []
  {
    |d.items|
  }

  /** `pollLast` undoes a successful `offer`. */
  lemma PollLastUndoesOffer<T>(d: Deque<T>, x: T)
    requires |d.items| < d.capacity
    ensures PollLast(Offer(d, x).1) == (Some(x), d)
  {
  }

  /** `take` on a deque that held only `x` after an `offer` yields `x` and
      the deque it started from. */
  lemma TakeAfterOfferOnEmpty<T>(d: Deque<T>, x: T)
    requires d.items == [] && 0 < d.capacity
    ensures Take(Offer(d, x).1) == (x, d)
  {
  }
}
