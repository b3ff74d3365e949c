/**
 * The lock-free multi-producer single-consumer queue of MpscQueue.h, one atomic
 * operation per step, over an explicit heap of nodes that may be deleted and
 * whose addresses the allocator may hand out again.
 */
module MpscQueue {
  import opened Prelude
  import opened TicketQueue

  type Addr = nat
  type Pid = nat

  datatype Node<T> = Node(value: Option<T>, next: Option<Addr>)

  /** A producer inside `push`: before the tail exchange, or between it and the link store. */
  datatype Producer = Prepared(node: Addr) | Swapped(prev: Addr, node: Addr, ticket: nat)

  /** The consumer between calls and at the three points inside a successful `pop`. */
  datatype Consumer<T> =
    | Ready
    | Loaded(next: Addr)
    | Moved(next: Addr, value: T)
    | Advanced(stale: Addr, value: T)

  /**
   * History: `pushed` and `pushedBy` record values and producers in tail-exchange
   * order (a position there is the push's ticket), `popped` the values `pop` has
   * returned, `fault` a dereference of memory that is not allocated.
   */
  datatype State<T> = State(
    heap: map<Addr, Node<T>>, head: Addr, tail: Addr,
    producers: map<Pid, Producer>, consumer: Consumer<T>,
    pushed: seq<T>, pushedBy: seq<Pid>, popped: seq<T>, fault: bool)

  datatype Action<T> =
    | New(pid: Pid, node: Addr, value: T)  // push: allocate the node
    | Exchange(pid: Pid)                    // push: tail_.exchange(node)
    | Link(pid: Pid)                        // push: prev->next.store(node)
    | LoadNext                              // pop: head->next.load()
    | MoveValue                             // pop: std::move(next->value)
    | StoreHead                             // pop: head_.store(next)
    | DeleteOld                             // pop: delete head; return value

  function Init<T>(stub: Addr): State<T> {
    State(map[stub := Node(None, None)], stub, stub, map[], Ready, [], [], [], false)
  }

  /** Program order only: nothing here looks at the heap except the allocator. */
  predicate Enabled<T>(s: State<T>, a: Action<T>) {
    match a
    case New(p, n, _) => p !in s.producers && n !in s.heap
    case Exchange(p) => p in s.producers && s.producers[p].Prepared?
    case Link(p) => p in s.producers && s.producers[p].Swapped?
    case LoadNext => s.consumer.Ready?
    case MoveValue => s.consumer.Loaded?
    case StoreHead => s.consumer.Moved?
    case DeleteOld => s.consumer.Advanced?
  }

  function Step<T>(s: State<T>, a: Action<T>): State<T>
    requires Enabled(s, a)
  {
    match a
    case New(p, n, v) =>
      s.(heap := s.heap[n := Node(Some(v), None)], producers := s.producers[p := Prepared(n)])
    case Exchange(p) =>
      var n := s.producers[p].node;
      if n !in s.heap || s.heap[n].value.None? then s.(fault := true) else
      s.(tail := n, producers := s.producers[p := Swapped(s.tail, n, |s.pushed|)],
         pushed := s.pushed + [s.heap[n].value.value], pushedBy := s.pushedBy + [p])
    case Link(p) =>
      var Swapped(prev, n, _) := s.producers[p];
      if prev !in s.heap then s.(fault := true) else
      s.(heap := s.heap[prev := s.heap[prev].(next := Some(n))], producers := s.producers - {p})
    case LoadNext =>
      if s.head !in s.heap then s.(fault := true) else
      (match s.heap[s.head].next
       case None => s
       case Some(n) => s.(consumer := Loaded(n)))
    case MoveValue =>
      var n := s.consumer.next;
      if n !in s.heap || s.heap[n].value.None? then s.(fault := true) else
      s.(heap := s.heap[n := s.heap[n].(value := None)], consumer := Moved(n, s.heap[n].value.value))
    case StoreHead =>
      s.(head := s.consumer.next, consumer := Advanced(s.head, s.consumer.value))
    case DeleteOld =>
      if s.consumer.stale !in s.heap then s.(fault := true) else
      s.(heap := s.heap - {s.consumer.stale}, consumer := Ready, popped := s.popped + [s.consumer.value])
  }

  /** `pop` gives up with nothing exactly when its load of `head->next` reads null. */
  predicate PopFindsNothing<T>(s: State<T>) {
    s.consumer.Ready? && s.head in s.heap && s.heap[s.head].next.None?
  }

  ghost predicate IsRun<T>(trace: seq<State<T>>, acts: seq<Action<T>>, stub: Addr) {
    && |trace| == |acts| + 1
    && trace[0] == Init(stub)
    && forall i :: 0 <= i < |acts| ==> Enabled(trace[i], acts[i]) && trace[i + 1] == Step(trace[i], acts[i])
  }

  // ---------------------------------------------------------------- invariant

  /** How many nodes the consumer has left behind. */
  function Base<T>(s: State<T>): nat {
    |s.popped| + if s.consumer.Advanced? then 1 else 0
  }

  /**
   * `at[0]` is the stub and `at[t + 1]` the node of ticket t; those from `base` on are
   * alive and run from head_ to tail_.
   */
  ghost predicate Shape<T>(s: State<T>, at: seq<Addr>, base: nat) {
    && |s.pushedBy| == |s.pushed| && |at| == |s.pushed| + 1 && base <= |s.pushed|
    && s.head == at[base] && s.tail == at[|s.pushed|]
    && (forall t :: base <= t < |at| ==> at[t] in s.heap)
    && (forall t, u :: base <= t < u < |at| ==> at[t] != at[u])
  }

  /** Each live node points to its successor, or to nothing while the successor's producer is mid-push. */
  ghost predicate Links<T>(s: State<T>, at: seq<Addr>, base: nat)
    requires Shape(s, at, base)
  {
    && s.heap[s.tail].next.None?
    && (forall t :: base <= t < |s.pushed| ==>
      s.heap[at[t]].next == (if MidPush(s, t) then None else Some(at[t + 1])))
  }

  /** The producer of ticket t has exchanged the tail and not yet stored the link. */
  predicate MidPush<T>(s: State<T>, t: nat) {
    t < |s.pushedBy| && s.pushedBy[t] in s.producers
    && var r := s.producers[s.pushedBy[t]]; r.Swapped? && r.ticket == t
  }

  ghost predicate Absent(a: Addr, at: seq<Addr>, base: nat) {
    forall t :: base <= t < |at| ==> at[t] != a
  }

  ghost predicate SwappedOk<T>(s: State<T>, at: seq<Addr>, base: nat)
    requires Shape(s, at, base)
  {
    forall p :: p in s.producers && s.producers[p].Swapped? ==>
      var Swapped(prev, n, t) := s.producers[p];
      base <= t < |s.pushed| && s.pushedBy[t] == p && prev == at[t] && n == at[t + 1]
  }

  /** A node not yet exchanged in: private, complete, and not part of the queue. */
  ghost predicate Private<T>(s: State<T>, n: Addr, at: seq<Addr>, base: nat) {
    n in s.heap && Absent(n, at, base) && s.heap[n].next.None? && s.heap[n].value.Some?
  }

  ghost predicate PreparedOk<T>(s: State<T>, at: seq<Addr>, base: nat) {
    forall p :: p in s.producers && s.producers[p].Prepared? ==> Private(s, s.producers[p].node, at, base)
  }

  ghost predicate PreparedApart<T>(s: State<T>) {
    forall p, q :: p in s.producers && q in s.producers && s.producers[p].Prepared? && s.producers[q].Prepared? && p != q ==>
      s.producers[p].node != s.producers[q].node
  }

  /** Node contents are the values still owed to the consumer, in order. */
  ghost predicate Contents<T>(s: State<T>, at: seq<Addr>, base: nat)
    requires Shape(s, at, base)
  {
    forall t :: base <= t < |s.pushed| && !(t == base && s.consumer.Moved?) ==>
      s.heap[at[t + 1]].value == Some(s.pushed[t])
  }

  ghost predicate ConsumerOk<T>(s: State<T>, at: seq<Addr>, base: nat)
    requires Shape(s, at, base)
  {
    && (s.consumer.Loaded? || s.consumer.Moved? ==>
      base < |s.pushed| && s.consumer.next == at[base + 1] && !MidPush(s, base))
    && (s.consumer.Moved? ==> s.consumer.value == s.pushed[base])
    && (if s.consumer.Advanced?
        then s.popped + [s.consumer.value] == s.pushed[..base] && StaleApart(s, at, base, s.consumer.stale)
        else s.popped == s.pushed[..base])
  }

  /** The node `pop` is about to delete belongs to nobody else. */
  ghost predicate StaleApart<T>(s: State<T>, at: seq<Addr>, base: nat, stale: Addr) {
    && stale in s.heap && Absent(stale, at, base)
    && (forall p :: p in s.producers && s.producers[p].Prepared? ==> s.producers[p].node != stale)
  }

  ghost predicate InvAt<T>(s: State<T>, at: seq<Addr>, base: nat) {
    && !s.fault && base == Base(s) && Shape(s, at, base) && Links(s, at, base)
    && SwappedOk(s, at, base) && PreparedOk(s, at, base) && PreparedApart(s)
    && Contents(s, at, base) && ConsumerOk(s, at, base)
  }

  ghost predicate Inv<T>(s: State<T>) {
    exists at :: InvAt(s, at, Base(s))
  }

  /** Refinement mapping: a value is linked once its predecessor's `next` has been stored. */
  function Abs<T>(s: State<T>): Queue<T> {
    Queue(s.pushed, seq(|s.pushed|, t requires 0 <= t < |s.pushed| => !MidPush(s, t)), Base(s))
  }

  // ---------------------------------------------------------------- one step

  /** Steps that change no pushed ticket leave the abstract queue's linked flags alone. */
  lemma SameLinks<T>(s: State<T>, s': State<T>)
    requires s'.pushed == s.pushed && Base(s') == Base(s)
    requires forall t :: 0 <= t < |s.pushed| ==> MidPush(s', t) == MidPush(s, t)
    ensures Abs(s') == Abs(s)
  {
  }

  lemma InitInv<T>(stub: Addr)
    ensures Inv(Init<T>(stub)) && Abs(Init<T>(stub)) == EmptyQueue()
  {
    assert InvAt(Init<T>(stub), [stub], 0);
  }

  lemma NewProducers<T>(s: State<T>, at: seq<Addr>, base: nat, p: Pid, n: Addr, v: T)
    requires InvAt(s, at, base) && Enabled(s, New(p, n, v))
    ensures PreparedOk(Step(s, New(p, n, v)), at, base) && PreparedApart(Step(s, New(p, n, v)))
  {
    var s' := Step(s, New(p, n, v));
    forall q | q in s.producers && s.producers[q].Prepared? ensures Private(s', s.producers[q].node, at, base) && s.producers[q].node != n {
      assert Private(s, s.producers[q].node, at, base);
    }
  }

  lemma NewMidPush<T>(s: State<T>, p: Pid, n: Addr, v: T)
    requires Enabled(s, New(p, n, v))
    ensures forall t :: 0 <= t < |s.pushed| ==> MidPush(Step(s, New(p, n, v)), t) == MidPush(s, t)
  {
  }

  lemma NewNodes<T>(s: State<T>, at: seq<Addr>, base: nat, p: Pid, n: Addr, v: T)
    requires InvAt(s, at, base) && Enabled(s, New(p, n, v))
    ensures var s' := Step(s, New(p, n, v)); Shape(s', at, base) && Links(s', at, base)
  {
    NewMidPush(s, p, n, v);
  }

  lemma NewKeepsInv<T>(s: State<T>, at: seq<Addr>, base: nat, p: Pid, n: Addr, v: T)
    requires InvAt(s, at, base) && Enabled(s, New(p, n, v))
    ensures InvAt(Step(s, New(p, n, v)), at, base)
    ensures Abs(Step(s, New(p, n, v))) == Abs(s)
  {
    var s' := Step(s, New(p, n, v));
    NewProducers(s, at, base, p, n, v);
    NewNodes(s, at, base, p, n, v);
    NewMidPush(s, p, n, v);
    SameLinks(s, s');
  }

  lemma ExchangeMidPush<T>(s: State<T>, at: seq<Addr>, base: nat, p: Pid)
    requires InvAt(s, at, base) && Enabled(s, Exchange(p))
    ensures var s' := Step(s, Exchange(p));
      && MidPush(s', |s.pushed|)
      && forall t :: 0 <= t < |s.pushed| ==> MidPush(s', t) == MidPush(s, t)
  {
  }

  lemma ExchangeLinks<T>(s: State<T>, at: seq<Addr>, base: nat, p: Pid)
    requires InvAt(s, at, base) && Enabled(s, Exchange(p))
    ensures Shape(Step(s, Exchange(p)), at + [s.producers[p].node], base)
    ensures Links(Step(s, Exchange(p)), at + [s.producers[p].node], base)
  {
    ExchangeMidPush(s, at, base, p);
  }

  lemma ExchangeProducers<T>(s: State<T>, at: seq<Addr>, base: nat, p: Pid)
    requires InvAt(s, at, base) && Enabled(s, Exchange(p))
    requires Shape(Step(s, Exchange(p)), at + [s.producers[p].node], base)
    ensures SwappedOk(Step(s, Exchange(p)), at + [s.producers[p].node], base)
    ensures PreparedOk(Step(s, Exchange(p)), at + [s.producers[p].node], base)
    ensures PreparedApart(Step(s, Exchange(p)))
  {
  }

  lemma ExchangeKeepsInv<T>(s: State<T>, at: seq<Addr>, base: nat, p: Pid)
    requires InvAt(s, at, base) && Enabled(s, Exchange(p))
    ensures InvAt(Step(s, Exchange(p)), at + [s.producers[p].node], base)
  {
    ExchangeMidPush(s, at, base, p);
    ExchangeLinks(s, at, base, p);
    ExchangeProducers(s, at, base, p);
  }

  lemma ExchangeAbs<T>(s: State<T>, at: seq<Addr>, base: nat, p: Pid)
    requires InvAt(s, at, base) && Enabled(s, Exchange(p))
    ensures s.heap[s.producers[p].node].value.Some?
    ensures Abs(Step(s, Exchange(p))) == Abs(s).Append(s.heap[s.producers[p].node].value.value)
  {
    ExchangeMidPush(s, at, base, p);
  }

  lemma LinkMidPush<T>(s: State<T>, at: seq<Addr>, base: nat, p: Pid)
    requires InvAt(s, at, base) && Enabled(s, Link(p))
    ensures var s' := Step(s, Link(p));
      var t := s.producers[p].ticket;
      && base <= t < |s.pushed| && MidPush(s, t)
      && forall u :: 0 <= u < |s.pushed| ==> MidPush(s', u) == (MidPush(s, u) && u != t)
  {
  }

  lemma LinkLinks<T>(s: State<T>, at: seq<Addr>, base: nat, p: Pid)
    requires InvAt(s, at, base) && Enabled(s, Link(p))
    ensures Shape(Step(s, Link(p)), at, base) && Links(Step(s, Link(p)), at, base)
  {
    LinkMidPush(s, at, base, p);
  }

  lemma LinkSwapped<T>(s: State<T>, at: seq<Addr>, base: nat, p: Pid)
    requires Shape(s, at, base) && SwappedOk(s, at, base) && Enabled(s, Link(p)) && Shape(Step(s, Link(p)), at, base)
    requires s.producers[p].prev in s.heap
    ensures SwappedOk(Step(s, Link(p)), at, base)
  {
  }

  lemma LinkProducers<T>(s: State<T>, at: seq<Addr>, base: nat, p: Pid)
    requires InvAt(s, at, base) && Enabled(s, Link(p)) && Shape(Step(s, Link(p)), at, base)
    ensures SwappedOk(Step(s, Link(p)), at, base) && PreparedOk(Step(s, Link(p)), at, base)
    ensures PreparedApart(Step(s, Link(p)))
  {
    LinkSwapped(s, at, base, p);
    var s' := Step(s, Link(p));
    var prev := s.producers[p].prev;
    assert prev == at[s.producers[p].ticket];
    forall q | q in s'.producers && s'.producers[q].Prepared? ensures Private(s', s'.producers[q].node, at, base) {
      assert Private(s, s.producers[q].node, at, base);
    }
  }

  lemma LinkKeepsInv<T>(s: State<T>, at: seq<Addr>, base: nat, p: Pid)
    requires InvAt(s, at, base) && Enabled(s, Link(p))
    ensures InvAt(Step(s, Link(p)), at, base)
  {
    LinkMidPush(s, at, base, p);
    LinkLinks(s, at, base, p);
    LinkProducers(s, at, base, p);
  }

  lemma LinkAbs<T>(s: State<T>, at: seq<Addr>, base: nat, p: Pid)
    requires InvAt(s, at, base) && Enabled(s, Link(p))
    ensures base <= s.producers[p].ticket < |s.pushed| && MidPush(s, s.producers[p].ticket)
    ensures Abs(Step(s, Link(p))) == Abs(s).SetLinked(s.producers[p].ticket)
  {
    LinkMidPush(s, at, base, p);
  }

  lemma LoadNextKeepsInv<T>(s: State<T>, at: seq<Addr>, base: nat)
    requires InvAt(s, at, base) && Enabled(s, LoadNext)
    ensures InvAt(Step(s, LoadNext), at, base)
    ensures Abs(Step(s, LoadNext)) == Abs(s)
    ensures PopFindsNothing(s) <==> base == |s.pushed| || MidPush(s, base)
  {
    var s' := Step(s, LoadNext);
    if base < |s.pushed| {
      assert s.heap[at[base]].next == (if MidPush(s, base) then None else Some(at[base + 1]));
    }
    assert forall t :: 0 <= t < |s.pushed| ==> MidPush(s', t) == MidPush(s, t);
    SameLinks(s, s');
  }

  lemma MoveValueKeepsInv<T>(s: State<T>, at: seq<Addr>, base: nat)
    requires InvAt(s, at, base) && Enabled(s, MoveValue)
    ensures InvAt(Step(s, MoveValue), at, base)
    ensures Abs(Step(s, MoveValue)) == Abs(s)
  {
    var s' := Step(s, MoveValue);
    assert s.heap[at[base + 1]].value == Some(s.pushed[base]);
    assert forall t :: 0 <= t < |s.pushed| ==> MidPush(s', t) == MidPush(s, t);
    SameLinks(s, s');
  }

  lemma StoreHeadKeepsInv<T>(s: State<T>, at: seq<Addr>, base: nat)
    requires InvAt(s, at, base) && Enabled(s, StoreHead)
    ensures InvAt(Step(s, StoreHead), at, base + 1)
  {
    var s' := Step(s, StoreHead);
    assert forall t :: 0 <= t < |s.pushed| ==> MidPush(s', t) == MidPush(s, t);
    assert s.pushed[..base + 1] == s.pushed[..base] + [s.pushed[base]];
  }

  lemma StoreHeadAbs<T>(s: State<T>, at: seq<Addr>, base: nat)
    requires InvAt(s, at, base) && Enabled(s, StoreHead)
    ensures Abs(s).CanTake() && Abs(Step(s, StoreHead)) == Abs(s).Take()
  {
    var s' := Step(s, StoreHead);
    assert forall t :: 0 <= t < |s.pushed| ==> MidPush(s', t) == MidPush(s, t);
  }

  lemma DeleteOldKeepsInv<T>(s: State<T>, at: seq<Addr>, base: nat)
    requires InvAt(s, at, base) && Enabled(s, DeleteOld)
    ensures InvAt(Step(s, DeleteOld), at, base)
    ensures Abs(Step(s, DeleteOld)) == Abs(s)
  {
    var s' := Step(s, DeleteOld);
    assert forall t :: 0 <= t < |s.pushed| ==> MidPush(s', t) == MidPush(s, t);
    SameLinks(s, s');
  }

  // ---------------------------------------------------------------- whole runs

  lemma StepRefines<T(!new)>(s: State<T>, a: Action<T>)
    requires Inv(s) && Enabled(s, a)
    ensures Inv(Step(s, a)) && AbsNext(Abs(s), Abs(Step(s, a)))
  {
    var at, base :| base == Base(s) && InvAt(s, at, base);
    match a
    case New(p, n, v) => NewKeepsInv(s, at, base, p, n, v);
    case Exchange(p) =>
      ExchangeKeepsInv(s, at, base, p);
      ExchangeAbs(s, at, base, p);
    case Link(p) =>
      LinkKeepsInv(s, at, base, p);
      LinkAbs(s, at, base, p);
    case LoadNext => LoadNextKeepsInv(s, at, base);
    case MoveValue => MoveValueKeepsInv(s, at, base);
    case StoreHead =>
      StoreHeadKeepsInv(s, at, base);
      StoreHeadAbs(s, at, base);
    case DeleteOld => DeleteOldKeepsInv(s, at, base);
  }

  lemma {:induction false} RunKeepsInv<T(!new)>(trace: seq<State<T>>, acts: seq<Action<T>>, stub: Addr, i: nat)
    requires IsRun(trace, acts, stub) && i < |trace|
    ensures Inv(trace[i])
  {
    if i == 0 {
      InitInv<T>(stub);
    } else {
      RunKeepsInv(trace, acts, stub, i - 1);
      StepRefines(trace[i - 1], acts[i - 1]);
    }
  }

  /** Every interleaving of pushes and pops is a run of the abstract queue. */
  lemma RunRefines<T(!new)>(trace: seq<State<T>>, acts: seq<Action<T>>, stub: Addr)
    requires IsRun(trace, acts, stub)
    ensures Abs(trace[0]) == EmptyQueue()
    ensures forall i :: 0 <= i < |acts| ==> AbsNext(Abs(trace[i]), Abs(trace[i + 1]))
  {
    InitInv<T>(stub);
    forall i | 0 <= i < |acts| ensures AbsNext(Abs(trace[i]), Abs(trace[i + 1])) {
      RunKeepsInv(trace, acts, stub, i);
      StepRefines(trace[i], acts[i]);
    }
  }

  /** Nothing lost, repeated or reordered, and no access to a deleted node, in any run. */
  lemma PoppedIsPrefix<T(!new)>(trace: seq<State<T>>, acts: seq<Action<T>>, stub: Addr, i: nat)
    requires IsRun(trace, acts, stub) && i < |trace|
    ensures !trace[i].fault
    ensures trace[i].popped <= trace[i].pushed
  {
    RunKeepsInv(trace, acts, stub, i);
  }

  /** A producer between exchange and link store still holds a live predecessor, and nobody else will link it. */
  lemma HalfPushedNodeIsLive<T(!new)>(trace: seq<State<T>>, acts: seq<Action<T>>, stub: Addr, i: nat, p: Pid)
    requires IsRun(trace, acts, stub) && i < |trace|
    requires p in trace[i].producers && trace[i].producers[p].Swapped?
    ensures trace[i].producers[p].prev in trace[i].heap
    ensures forall q :: q in trace[i].producers && q != p && trace[i].producers[q].Swapped? ==>
      trace[i].producers[q].prev != trace[i].producers[p].prev
  {
    RunKeepsInv(trace, acts, stub, i);
  }

  /**
   * When `pop` returns nothing, either everything pushed has been popped or the
   * producer of the oldest unpopped value is between its two steps.
   */
  lemma NothingToPop<T(!new)>(trace: seq<State<T>>, acts: seq<Action<T>>, stub: Addr, i: nat)
    requires IsRun(trace, acts, stub) && i < |trace| && trace[i].consumer.Ready?
    ensures PopFindsNothing(trace[i]) <==>
      trace[i].popped == trace[i].pushed || MidPush(trace[i], |trace[i].popped|)
  {
    RunKeepsInv(trace, acts, stub, i);
    var s := trace[i];
    var at :| InvAt(s, at, Base(s));
    LoadNextKeepsInv(s, at, Base(s));
  }

  // ---------------------------------------------------------------- what the operations do

  /** pop, undisturbed, returns the oldest value if its push is complete. */
  lemma PopTakesOldest<T(!new)>(trace: seq<State<T>>, acts: seq<Action<T>>, stub: Addr, i: nat) returns (s1: State<T>, s2: State<T>, s3: State<T>, s4: State<T>)
    requires IsRun(trace, acts, stub) && i < |trace| && trace[i].consumer.Ready?
    requires |trace[i].popped| < |trace[i].pushed| && !MidPush(trace[i], |trace[i].popped|)
    ensures Enabled(trace[i], LoadNext) && s1 == Step(trace[i], LoadNext) && Enabled(s1, MoveValue) && s2 == Step(s1, MoveValue)
    ensures Enabled(s2, StoreHead) && s3 == Step(s2, StoreHead) && Enabled(s3, DeleteOld) && s4 == Step(s3, DeleteOld)
    ensures s4.consumer.Ready? && s4.popped == trace[i].popped + [trace[i].pushed[|trace[i].popped|]] && s4.pushed == trace[i].pushed
  {
    RunKeepsInv(trace, acts, stub, i);
    var s := trace[i];
    var at :| InvAt(s, at, Base(s));
    var b := Base(s);
    assert s.heap[at[b]].next == Some(at[b + 1]) && s.heap[at[b + 1]].value == Some(s.pushed[b]) && at[b] != at[b + 1];
    s1 := Step(s, LoadNext);
    s2 := Step(s1, MoveValue);
    s3 := Step(s2, StoreHead);
    s4 := Step(s3, DeleteOld);
  }

  /** push, undisturbed, appends its value, complete. */
  lemma PushAppends<T(!new)>(trace: seq<State<T>>, acts: seq<Action<T>>, stub: Addr, i: nat, p: Pid, n: Addr, v: T) returns (s1: State<T>, s2: State<T>, s3: State<T>)
    requires IsRun(trace, acts, stub) && i < |trace| && p !in trace[i].producers && n !in trace[i].heap
    ensures Enabled(trace[i], New(p, n, v)) && s1 == Step(trace[i], New(p, n, v)) && Enabled(s1, Exchange(p)) && s2 == Step(s1, Exchange(p))
    ensures Enabled(s2, Link(p)) && s3 == Step(s2, Link(p))
    ensures s3.pushed == trace[i].pushed + [v] && s3.producers == trace[i].producers && !MidPush(s3, |trace[i].pushed|)
  {
    RunKeepsInv(trace, acts, stub, i);
    var s := trace[i];
    var at :| InvAt(s, at, Base(s));
    s1 := Step(s, New(p, n, v));
    s2 := Step(s1, Exchange(p));
    s3 := Step(s2, Link(p));
  }

  function Unpushed(producers: map<Pid, Producer>): set<Pid> {
    set p | p in producers && producers[p].Prepared?
  }

  ghost predicate Counted<T>(s: State<T>) {
    |s.heap.Keys| + |s.popped| == 1 + |s.pushed| + |Unpushed(s.producers)|
  }

  lemma NewCounts<T(!new)>(s: State<T>, p: Pid, n: Addr, v: T)
    requires Enabled(s, New(p, n, v)) && Counted(s)
    ensures Counted(Step(s, New(p, n, v)))
  {
    assert Unpushed(s.producers[p := Prepared(n)]) == Unpushed(s.producers) + {p};
    assert s.heap[n := Node(Some(v), None)].Keys == s.heap.Keys + {n};
  }

  lemma ExchangeCounts<T(!new)>(s: State<T>, p: Pid)
    requires Enabled(s, Exchange(p)) && Counted(s) && !Step(s, Exchange(p)).fault
    ensures Counted(Step(s, Exchange(p)))
  {
    assert Unpushed(Step(s, Exchange(p)).producers) == Unpushed(s.producers) - {p};
  }

  lemma LinkCounts<T(!new)>(s: State<T>, p: Pid)
    requires Enabled(s, Link(p)) && Counted(s) && !Step(s, Link(p)).fault
    ensures Counted(Step(s, Link(p)))
  {
    assert Unpushed(s.producers - {p}) == Unpushed(s.producers);
    assert Step(s, Link(p)).heap.Keys == s.heap.Keys;
  }

  lemma ConsumerCounts<T(!new)>(s: State<T>, a: Action<T>)
    requires Enabled(s, a) && Counted(s) && !Step(s, a).fault && (a.LoadNext? || a.MoveValue? || a.StoreHead? || a.DeleteOld?)
    ensures Counted(Step(s, a))
  {
    var t := Step(s, a);
    if a.DeleteOld? {
      assert t.heap.Keys == s.heap.Keys - {s.consumer.stale};
    } else {
      assert t.heap.Keys == s.heap.Keys;
    }
  }

  lemma StepCounts<T(!new)>(s: State<T>, a: Action<T>)
    requires Enabled(s, a) && Counted(s) && !Step(s, a).fault
    ensures Counted(Step(s, a))
  {
    match a
    case New(p, n, v) => NewCounts(s, p, n, v);
    case Exchange(p) => ExchangeCounts(s, p);
    case Link(p) => LinkCounts(s, p);
    case _ => ConsumerCounts(s, a);
  }

  /** Nothing leaks: in every run the nodes are one for the stub, one for each value not popped, and one for each push that has not exchanged yet. */
  lemma {:induction false} NoNodeLeaks<T(!new)>(trace: seq<State<T>>, acts: seq<Action<T>>, stub: Addr, i: nat)
    requires IsRun(trace, acts, stub) && i < |trace|
    ensures Counted(trace[i])
  {
    if i == 0 {
      assert trace[0].heap.Keys == {stub};
      assert Unpushed(trace[0].producers) == {};
    } else {
      NoNodeLeaks(trace, acts, stub, i - 1);
      RunKeepsInv(trace, acts, stub, i);
      StepCounts(trace[i - 1], acts[i - 1]);
    }
  }
}
