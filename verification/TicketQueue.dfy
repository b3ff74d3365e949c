/** A queue whose entries become visible to the consumer in a second step: what MpscQueue.h amounts to. */
module TicketQueue {

  /**
   * What the nodes stand for: every value ever pushed, which of them the consumer
   * can reach past their predecessor, and how many it has taken. A value's position
   * in `values` is its producer's ticket.
   */
  datatype Queue<T> = Queue(values: seq<T>, linked: seq<bool>, taken: nat) {
    ghost predicate Valid() {
      && |linked| == |values| && taken <= |values|
      && forall t :: 0 <= t < taken ==> linked[t]
    }
    predicate CanTake() {
      taken < |values| && taken < |linked| && linked[taken]
    }
    function Append(v: T): Queue<T> {
      Queue(values + [v], linked + [false], taken)
    }
    function SetLinked(t: nat): Queue<T> {
      if t < |linked| then Queue(values, linked[t := true], taken) else this
    }
    function Take(): Queue<T> {
      Queue(values, linked, taken + 1)
    }
  }

  function EmptyQueue<T>(): Queue<T> {
    Queue([], [], 0)
  }

  /** What one step may do to the abstract queue. */
  ghost predicate AbsNext<T(!new)>(q: Queue<T>, q': Queue<T>) {
    || q' == q
    || (exists v :: q' == q.Append(v))
    || (exists t :: q.taken <= t < |q.linked| && !q.linked[t] && q' == q.SetLinked(t))
    || (q.CanTake() && q' == q.Take())
  }
}
