/**
 * The PostgreSQL connection pool (PoolState.cc, PgPool.cc, PooledConnection.cc). The pool's
 * own code runs on one scheduler thread; a step is one of its callbacks, or one test-and-set
 * of a lease's `detached` flag, which other threads may do at any time.
 */
module Pool {
  import opened Prelude

  type Conn = nat
  type WaiterId = nat  // waiters in the order they arrive

  datatype Outcome = Waiting | GotConnection(conn: Conn) | ConnectFailed | TimedOut

  /** A PooledConnection: whichever of its destructor and its broken-handler comes first sets the flag. */
  datatype Lease = Lease(conn: Conn, detached: bool)

  datatype State = State(
    maxSize: nat,
    totalCount: int,
    idle: seq<Conn>,
    waiters: seq<WaiterId>,
    cancelled: seq<bool>,       // by waiter
    outcome: seq<Outcome>,      // by waiter: what its promise was given
    connecting: seq<WaiterId>,  // connection attempts in flight, by the waiter they are for
    leases: seq<Lease>,
    returning: seq<Conn>,       // returns on their way to the scheduler
    detaching: nat,             // detaches on their way to the scheduler
    nextConn: Conn,
    served: seq<WaiterId>,      // history: live waiters in the order they left the queue
    holders: seq<WaiterId>)     // history: by lease, the waiter whose promise was given its connection

  // ---------------------------------------------------------------- dispatch

  /** The queue without the cancelled waiters at its front. */
  function Skip(waiters: seq<WaiterId>, cancelled: seq<bool>): seq<WaiterId> {
    if waiters != [] && waiters[0] < |cancelled| && cancelled[waiters[0]] then Skip(waiters[1..], cancelled) else waiters
  }

  function HandOver(s: State, w: WaiterId, c: Conn): State
    requires w < |s.outcome|
  {
    s.(outcome := s.outcome[w := GotConnection(c)], leases := s.leases + [Lease(c, false)], holders := s.holders + [w])
  }

  function Dispatch(s: State): State {
    var q := Skip(s.waiters, s.cancelled);
    var t := s.(waiters := q);
    if q == [] || q[0] >= |s.outcome| then t
    else if s.idle != [] then HandOver(t.(idle := s.idle[1..], waiters := q[1..], served := s.served + [q[0]]), q[0], s.idle[0])
    else if s.totalCount < s.maxSize then
      t.(totalCount := s.totalCount + 1, waiters := q[1..], connecting := s.connecting + [q[0]], served := s.served + [q[0]])
    else t
  }

  // ---------------------------------------------------------------- steps

  datatype Action =
    | Acquire(late: bool)           // late: its token was cancelled before
    | Cancel(w: WaiterId)
    | Connected(k: nat)             // attempt k succeeds
    | Refused(k: nat)               // attempt k fails
    | Release(l: nat)               // ~PooledConnection
    | Break(l: nat)                 // the broken-handler
    | Returned(k: nat, alive: bool) // a return reaches the scheduler
    | Detached                      // a detach reaches the scheduler

  predicate Enabled(s: State, a: Action) {
    match a
    case Acquire(_) => true
    case Cancel(w) => w < |s.cancelled| && w < |s.outcome| && !s.cancelled[w]
    case Connected(k) => k < |s.connecting| && s.connecting[k] < |s.outcome| && s.connecting[k] < |s.cancelled|
    case Refused(k) => k < |s.connecting| && s.connecting[k] < |s.outcome| && s.connecting[k] < |s.cancelled|
    case Release(l) => l < |s.leases|
    case Break(l) => l < |s.leases|
    case Returned(k, _) => k < |s.returning|
    case Detached => s.detaching > 0
  }

  function Without<T>(s: seq<T>, k: nat): seq<T>
    requires k < |s|
  {
    s[..k] + s[k + 1..]
  }

  /** What a callback does before it calls dispatch, if it does. */
  function Event(s: State, a: Action): State
    requires Enabled(s, a)
  {
    match a
    case Acquire(late) =>
      s.(waiters := s.waiters + [|s.outcome|], cancelled := s.cancelled + [late], outcome := s.outcome + [if late then TimedOut else Waiting])
    case Cancel(w) =>
      s.(cancelled := s.cancelled[w := true],
         outcome := if s.outcome[w].Waiting? then s.outcome[w := TimedOut] else s.outcome)
    case Connected(k) =>
      var w, c := s.connecting[k], s.nextConn;
      var t := s.(connecting := Without(s.connecting, k), nextConn := c + 1);
      if s.cancelled[w] then t.(idle := s.idle + [c]) else HandOver(t, w, c)
    case Refused(k) =>
      var w := s.connecting[k];
      s.(connecting := Without(s.connecting, k), totalCount := s.totalCount - 1,
         outcome := if s.cancelled[w] then s.outcome else s.outcome[w := ConnectFailed])
    case Release(l) =>
      if s.leases[l].detached then s else
      s.(leases := s.leases[l := s.leases[l].(detached := true)], returning := s.returning + [s.leases[l].conn])
    case Break(l) =>
      if s.leases[l].detached then s else
      s.(leases := s.leases[l := s.leases[l].(detached := true)], detaching := s.detaching + 1)
    case Returned(k, alive) =>
      var t := s.(returning := Without(s.returning, k));
      if alive then t.(idle := s.idle + [s.returning[k]]) else t.(totalCount := s.totalCount - 1)
    case Detached => s.(detaching := s.detaching - 1, totalCount := s.totalCount - 1)
  }

  predicate Dispatches(s: State, a: Action)
    requires Enabled(s, a)
  {
    match a
    case Cancel(_) => false
    case Release(_) => false
    case Break(_) => false
    case Connected(k) => s.cancelled[s.connecting[k]]
    case _ => true
  }

  function Step(s: State, a: Action): State
    requires Enabled(s, a)
  {
    if Dispatches(s, a) then Dispatch(Event(s, a)) else Event(s, a)
  }

  function Start(maxSize: nat): State {
    State(maxSize, 0, [], [], [], [], [], [], [], 0, 0, [], [])
  }

  ghost predicate IsRun(trace: seq<State>, acts: seq<Action>, maxSize: nat) {
    && |trace| == |acts| + 1 && trace[0] == Start(maxSize)
    && forall i {:trigger acts[i]} :: 0 <= i < |acts| ==> Enabled(trace[i], acts[i]) && trace[i + 1] == Step(trace[i], acts[i])
  }

  // ---------------------------------------------------------------- counting

  /** Leases whose flag is not set. */
  function Held(leases: seq<Lease>): nat {
    if leases == [] then 0 else Held(leases[..|leases| - 1]) + if leases[|leases| - 1].detached then 0 else 1
  }

  function InFlight(s: State): nat {
    |s.idle| + |s.connecting| + Held(s.leases) + |s.returning| + s.detaching
  }

  lemma HeldMore(leases: seq<Lease>, l: Lease)
    ensures Held(leases + [l]) == Held(leases) + if l.detached then 0 else 1
  {
    assert (leases + [l])[..|leases|] == leases;
  }

  lemma {:induction false} HeldLess(leases: seq<Lease>, i: nat)
    requires i < |leases| && !leases[i].detached
    ensures Held(leases[i := leases[i].(detached := true)]) == Held(leases) - 1
  {
    var n := |leases| - 1;
    var less := leases[i := leases[i].(detached := true)];
    if i == n {
      assert less[..n] == leases[..n];
    } else {
      HeldLess(leases[..n], i);
      assert less[..n] == leases[..n][i := leases[i].(detached := true)];
    }
  }

  /** totalCount is exactly what is idle, being opened, leased, or on its way back, and within bounds. */
  ghost predicate Conserved(s: State) {
    s.totalCount == InFlight(s) && s.totalCount <= s.maxSize
  }

  lemma DispatchConserves(s: State)
    requires Conserved(s)
    ensures Conserved(Dispatch(s)) && Dispatch(s).maxSize == s.maxSize
  {
    var q := Skip(s.waiters, s.cancelled);
    if q != [] && q[0] < |s.outcome| && s.idle != [] {
      HeldMore(s.leases, Lease(s.idle[0], false));
    }
  }

  lemma EventConserves(s: State, a: Action)
    requires Conserved(s) && Enabled(s, a)
    ensures Conserved(Event(s, a)) && Event(s, a).maxSize == s.maxSize
  {
    match a
    case Connected(k) => HeldMore(s.leases, Lease(s.nextConn, false));
    case Release(l) => if !s.leases[l].detached { HeldLess(s.leases, l); }
    case Break(l) => if !s.leases[l].detached { HeldLess(s.leases, l); }
    case _ =>
  }

  // ---------------------------------------------------------------- the queue

  ghost predicate Increasing(q: seq<WaiterId>) {
    forall i, j {:trigger q[i], q[j]} :: 0 <= i < j < |q| ==> q[i] < q[j]
  }

  /** A waiter whose promise is still to be set, unless it was cancelled. */
  predicate Expecting(s: State, w: WaiterId) {
    w < |s.outcome| && w < |s.cancelled| && s.outcome[w] == if s.cancelled[w] then TimedOut else Waiting
  }

  /** No live waiter is queued while there is a connection to give it, or room to open one. */
  ghost predicate Working(s: State) {
    forall i {:trigger s.waiters[i]} :: 0 <= i < |s.waiters| && s.waiters[i] < |s.cancelled| && !s.cancelled[s.waiters[i]] ==>
      s.idle == [] && s.totalCount == s.maxSize
  }

  /** The queue and the attempts in flight: in arrival order, and each still expecting its connection. */
  ghost predicate Queued(s: State) {
    && |s.cancelled| == |s.outcome|
    && Increasing(s.served + s.waiters) && NoDup(s.connecting)
    && (forall i {:trigger s.waiters[i]} :: 0 <= i < |s.waiters| ==> Expecting(s, s.waiters[i]))
    && (forall i {:trigger s.connecting[i]} :: 0 <= i < |s.connecting| ==>
      Expecting(s, s.connecting[i]) && s.connecting[i] in s.served)
    && (forall i {:trigger s.served[i]} :: 0 <= i < |s.served| ==> s.served[i] < |s.outcome|)
  }

  /** Nobody who still waits has been forgotten. */
  ghost predicate NoneLost(s: State) {
    forall w: WaiterId {:trigger Kept(s, w)} :: Kept(s, w)
  }

  predicate Kept(s: State, w: WaiterId) {
    w < |s.outcome| && s.outcome[w].Waiting? ==> w in s.waiters || w in s.connecting
  }

  lemma {:induction false} SkipIsSuffix(q: seq<WaiterId>, cancelled: seq<bool>) returns (n: nat)
    ensures n <= |q| && Skip(q, cancelled) == q[n..]
    ensures forall i {:trigger q[i]} :: 0 <= i < n ==> q[i] < |cancelled| && cancelled[q[i]]
    ensures n < |q| && q[n] < |cancelled| ==> !cancelled[q[n]]
  {
    if q != [] && q[0] < |cancelled| && cancelled[q[0]] {
      var m := SkipIsSuffix(q[1..], cancelled);
      n := m + 1;
      assert q[1..][m..] == q[n..];
      forall i {:trigger q[i]} | 0 <= i < n ensures q[i] < |cancelled| && cancelled[q[i]] {
        if i > 0 {
          assert q[i] == q[1..][i - 1];
        }
      }
    } else {
      n := 0;
      assert q[0..] == q;
    }
  }

  // ---------------------------------------------------------------- dispatch keeps the queue

  /** Dispatch drops n cancelled waiters and then perhaps serves the next. */
  ghost predicate Drops(s: State, n: nat) {
    && n <= |s.waiters| && Skip(s.waiters, s.cancelled) == s.waiters[n..]
    && (forall i {:trigger s.waiters[i]} :: 0 <= i < n ==> s.waiters[i] < |s.cancelled| && s.cancelled[s.waiters[i]])
    && (n < |s.waiters| && s.waiters[n] < |s.cancelled| ==> !s.cancelled[s.waiters[n]])
  }

  predicate CanServe(s: State) {
    s.idle != [] || s.totalCount < s.maxSize
  }

  lemma DispatchQueue(s: State) returns (n: nat)
    requires Queued(s)
    ensures Drops(s, n)
    ensures n < |s.waiters| && CanServe(s) ==>
      Dispatch(s).waiters == s.waiters[n + 1..] && Dispatch(s).served == s.served + [s.waiters[n]]
    ensures !(n < |s.waiters| && CanServe(s)) ==> Dispatch(s) == s.(waiters := s.waiters[n..])
  {
    n := SkipIsSuffix(s.waiters, s.cancelled);
    var q := s.waiters[n..];
    if n < |s.waiters| {
      assert q[0] == s.waiters[n];
      assert Expecting(s, s.waiters[n]);
      assert q[1..] == s.waiters[n + 1..];
    }
  }

  lemma IncreasingDrop(served: seq<WaiterId>, q: seq<WaiterId>, n: nat)
    requires Increasing(served + q) && n <= |q|
    ensures Increasing(served + q[n..])
  {
    var a, b := served + q, served + q[n..];
    forall i, j {:trigger b[i], b[j]} | 0 <= i < j < |b| ensures b[i] < b[j] {
      var x, y := if i < |served| then i else i + n, if j < |served| then j else j + n;
      assert b[i] == a[x] && b[j] == a[y];
    }
  }

  lemma IncreasingServe(served: seq<WaiterId>, q: seq<WaiterId>)
    requires Increasing(served + q) && q != []
    ensures Increasing(served + [q[0]] + q[1..])
  {
    assert served + [q[0]] + q[1..] == served + q;
  }

  lemma DispatchKeepsQueued(s: State)
    requires Queued(s)
    ensures Queued(Dispatch(s))
  {
    var n := DispatchQueue(s);
    var t := Dispatch(s);
    IncreasingDrop(s.served, s.waiters, n);
    if n < |s.waiters| && CanServe(s) {
      IncreasingServe(s.served, s.waiters[n..]);
      assert s.waiters[n..][1..] == s.waiters[n + 1..];
      ServeKeepsQueued(s, n);
    } else {
      forall i {:trigger t.waiters[i]} | 0 <= i < |t.waiters| ensures Expecting(t, t.waiters[i]) {
        assert Expecting(s, s.waiters[n + i]);
      }
    }
  }

  /** The waiter served is later than every other one that left the queue, so it was not being served. */
  lemma ServedIsNew(s: State, n: nat)
    requires Queued(s) && n < |s.waiters|
    ensures s.waiters[n] !in s.served && s.waiters[n] !in s.connecting
    ensures forall i {:trigger s.waiters[i]} :: n < i < |s.waiters| ==> s.waiters[i] != s.waiters[n]
  {
    var all, w := s.served + s.waiters, s.waiters[n];
    assert all[|s.served| + n] == w;
    forall i | 0 <= i < |s.served| ensures s.served[i] != w { assert all[i] == s.served[i]; }
    forall i {:trigger s.waiters[i]} | n < i < |s.waiters| ensures s.waiters[i] != w { assert all[|s.served| + i] == s.waiters[i]; }
  }

  lemma ServeKeepsQueued(s: State, n: nat)
    requires Queued(s) && Drops(s, n) && n < |s.waiters| && CanServe(s)
    requires Dispatch(s).waiters == s.waiters[n + 1..] && Dispatch(s).served == s.served + [s.waiters[n]]
    requires Increasing(Dispatch(s).served + Dispatch(s).waiters)
    ensures Queued(Dispatch(s))
  {
    var t, w := Dispatch(s), s.waiters[n];
    assert Expecting(s, w);
    ServedIsNew(s, n);
    forall i {:trigger t.waiters[i]} | 0 <= i < |t.waiters| ensures Expecting(t, t.waiters[i]) {
      assert t.waiters[i] == s.waiters[n + 1 + i];
      assert Expecting(s, s.waiters[n + 1 + i]);
    }
    forall i {:trigger t.connecting[i]} | 0 <= i < |t.connecting|
      ensures Expecting(t, t.connecting[i]) && t.connecting[i] in t.served
    {
      if i < |s.connecting| {
        assert t.connecting[i] == s.connecting[i];
        assert Expecting(s, s.connecting[i]);
      }
    }
  }

  // ---------------------------------------------------------------- dispatch puts every connection to work

  /** Connections to hand out, and room to open more. */
  function Spare(s: State): int {
    |s.idle| + s.maxSize - s.totalCount
  }

  /** At most one connection to give, or at most one live waiter, the last, to give it to. */
  ghost predicate Nearly(s: State) {
    || Spare(s) <= 1
    || forall i {:trigger s.waiters[i]} :: 0 <= i < |s.waiters| - 1 ==> s.waiters[i] < |s.cancelled| && s.cancelled[s.waiters[i]]
  }

  lemma DispatchWorks(s: State)
    requires Queued(s) && Nearly(s) && s.totalCount <= s.maxSize
    ensures Working(Dispatch(s))
  {
    var n := DispatchQueue(s);
    var t := Dispatch(s);
    forall i {:trigger t.waiters[i]} | 0 <= i < |t.waiters| && t.waiters[i] < |t.cancelled| && !t.cancelled[t.waiters[i]]
      ensures t.idle == [] && t.totalCount == t.maxSize
    {
      if n < |s.waiters| && CanServe(s) {
        assert t.waiters[i] == s.waiters[n + 1 + i];
        assert Expecting(s, s.waiters[n]);
      }
    }
  }

  lemma DispatchLosesNone(s: State)
    requires Queued(s) && NoneLost(s)
    ensures NoneLost(Dispatch(s))
  {
    var n := DispatchQueue(s);
    var t := Dispatch(s);
    forall w: WaiterId {:trigger Kept(t, w)} ensures Kept(t, w) {
      assert Kept(s, w);
      if w < |t.outcome| && t.outcome[w].Waiting? && w in s.waiters {
        var i :| 0 <= i < |s.waiters| && s.waiters[i] == w;
        assert Expecting(s, s.waiters[i]);
        assert i >= n;
        if n < |s.waiters| && CanServe(s) {
          assert Expecting(s, s.waiters[n]);
          if i > n {
            assert t.waiters[i - n - 1] == w;
          }
        } else {
          assert t.waiters[i - n] == w;
        }
      }
    }
  }

  // ---------------------------------------------------------------- events

  lemma AcquireKeeps(s: State, late: bool)
    requires Queued(s) && Working(s) && NoneLost(s)
    ensures Queued(Event(s, Acquire(late))) && Nearly(Event(s, Acquire(late))) && NoneLost(Event(s, Acquire(late)))
  {
    var t, n := Event(s, Acquire(late)), |s.outcome|;
    var a, b := s.served + s.waiters, t.served + t.waiters;
    assert b == a + [n];
    forall i, j {:trigger b[i], b[j]} | 0 <= i < j < |b| ensures b[i] < b[j] {
      assert b[i] == a[i];
      if j == |a| {
        assert if i < |s.served| then s.served[i] < n else Expecting(s, s.waiters[i - |s.served|]);
      } else {
        assert b[j] == a[j];
      }
    }
    forall i {:trigger t.waiters[i]} | 0 <= i < |t.waiters| ensures Expecting(t, t.waiters[i]) {
      if i < |s.waiters| {
        assert Expecting(s, s.waiters[i]);
      }
    }
    forall i {:trigger t.connecting[i]} | 0 <= i < |t.connecting| ensures Expecting(t, t.connecting[i]) {
      assert Expecting(s, s.connecting[i]);
    }
    forall w: WaiterId {:trigger Kept(t, w)} ensures Kept(t, w) {
      assert Kept(s, w);
      assert t.waiters[|s.waiters|] == n;
    }
    if Spare(t) > 1 {
      forall i {:trigger t.waiters[i]} | 0 <= i < |t.waiters| - 1 ensures t.waiters[i] < |t.cancelled| && t.cancelled[t.waiters[i]] {
        assert t.waiters[i] == s.waiters[i];
        assert Expecting(s, s.waiters[i]);
      }
    }
  }

  lemma CancelKeeps(s: State, w: WaiterId)
    requires Queued(s) && Working(s) && NoneLost(s) && Enabled(s, Cancel(w))
    ensures Queued(Event(s, Cancel(w))) && Working(Event(s, Cancel(w))) && NoneLost(Event(s, Cancel(w)))
  {
    var t := Event(s, Cancel(w));
    forall i {:trigger t.waiters[i]} | 0 <= i < |t.waiters| ensures Expecting(t, t.waiters[i]) {
      assert Expecting(s, s.waiters[i]);
    }
    forall i {:trigger t.connecting[i]} | 0 <= i < |t.connecting| ensures Expecting(t, t.connecting[i]) && t.connecting[i] in t.served {
      assert Expecting(s, s.connecting[i]);
    }
    forall v: WaiterId {:trigger Kept(t, v)} ensures Kept(t, v) { assert Kept(s, v); }
  }

  /** An attempt leaves the list of those in flight; its waiter's outcome may be set. */
  ghost predicate Settles(s: State, k: nat, t: State) {
    && k < |s.connecting| && t.connecting == Without(s.connecting, k)
    && t.waiters == s.waiters && t.served == s.served && t.cancelled == s.cancelled && |t.outcome| == |s.outcome|
    && (forall v {:trigger t.outcome[v]} :: 0 <= v < |s.outcome| && v != s.connecting[k] ==> t.outcome[v] == s.outcome[v])
    && (s.connecting[k] < |t.outcome| ==> !t.outcome[s.connecting[k]].Waiting?)
  }

  lemma SettleKeeps(s: State, k: nat, t: State)
    requires Queued(s) && NoneLost(s) && Settles(s, k, t)
    ensures Queued(t) && NoneLost(t)
  {
    var w := s.connecting[k];
    assert Expecting(s, w) && w in s.served;
    var x :| 0 <= x < |s.served| && s.served[x] == w;
    forall i {:trigger t.waiters[i]} | 0 <= i < |t.waiters| ensures Expecting(t, t.waiters[i]) {
      assert Expecting(s, s.waiters[i]);
      var all := s.served + s.waiters;
      assert all[x] == w && all[|s.served| + i] == s.waiters[i];
    }
    forall i {:trigger t.connecting[i]} | 0 <= i < |t.connecting| ensures Expecting(t, t.connecting[i]) && t.connecting[i] in t.served {
      var j := if i < k then i else i + 1;
      assert t.connecting[i] == s.connecting[j];
      assert Expecting(s, s.connecting[j]);
    }
    forall v: WaiterId {:trigger Kept(t, v)} ensures Kept(t, v) {
      assert Kept(s, v);
      if v < |t.outcome| && t.outcome[v].Waiting? && v in s.connecting {
        var j :| 0 <= j < |s.connecting| && s.connecting[j] == v;
        assert v != w && t.outcome[v] == s.outcome[v];
        assert t.connecting[if j < k then j else j - 1] == v;
      }
    }
  }

  /** One more connection to give than before, and the same queue. */
  lemma OneMore(s: State, t: State)
    requires Queued(s) && Working(s) && t.waiters == s.waiters && t.cancelled == s.cancelled && Spare(t) <= Spare(s) + 1
    ensures Nearly(t)
  {
    if Spare(t) > 1 {
      forall i {:trigger t.waiters[i]} | 0 <= i < |t.waiters| - 1 ensures t.waiters[i] < |t.cancelled| && t.cancelled[t.waiters[i]] {
        assert Expecting(s, s.waiters[i]);
      }
    }
  }

  /** What an event leaves: everything but, where dispatch follows, that every connection is at work. */
  lemma EventKeeps(s: State, a: Action)
    requires Queued(s) && Working(s) && NoneLost(s) && Enabled(s, a)
    ensures Queued(Event(s, a)) && NoneLost(Event(s, a))
    ensures if Dispatches(s, a) then Nearly(Event(s, a)) else Working(Event(s, a))
  {
    var t := Event(s, a);
    match a
    case Acquire(late) => AcquireKeeps(s, late);
    case Cancel(w) => CancelKeeps(s, w);
    case Connected(k) => ConnectedKeeps(s, k);
    case Refused(k) =>
      assert Expecting(s, s.connecting[k]);
      SettleKeeps(s, k, t);
      OneMore(s, t);
    case _ =>
      SameQueue(s, t);
      OneMore(s, t);
  }

  lemma ConnectedKeeps(s: State, k: nat)
    requires Queued(s) && Working(s) && NoneLost(s) && Enabled(s, Connected(k))
    ensures Queued(Event(s, Connected(k))) && NoneLost(Event(s, Connected(k)))
    ensures if Dispatches(s, Connected(k)) then Nearly(Event(s, Connected(k))) else Working(Event(s, Connected(k)))
  {
    var t := Event(s, Connected(k));
    assert Expecting(s, s.connecting[k]);
    SettleKeeps(s, k, t);
    if s.cancelled[s.connecting[k]] {
      OneMore(s, t);
    }
  }

  lemma SameQueue(s: State, t: State)
    requires Queued(s) && NoneLost(s)
    requires t.waiters == s.waiters && t.cancelled == s.cancelled && t.outcome == s.outcome
    requires t.connecting == s.connecting && t.served == s.served
    ensures Queued(t) && NoneLost(t)
  {
    forall i {:trigger t.waiters[i]} | 0 <= i < |t.waiters| ensures Expecting(t, t.waiters[i]) { assert Expecting(s, s.waiters[i]); }
    forall i {:trigger t.connecting[i]} | 0 <= i < |t.connecting| ensures Expecting(t, t.connecting[i]) {
      assert Expecting(s, s.connecting[i]);
    }
    forall v: WaiterId {:trigger Kept(t, v)} ensures Kept(t, v) { assert Kept(s, v); }
  }

  // ---------------------------------------------------------------- one holder per connection

  function CountIn(q: seq<Conn>, c: Conn): nat {
    if q == [] then 0 else CountIn(q[..|q| - 1], c) + if q[|q| - 1] == c then 1 else 0
  }

  function CountHeld(leases: seq<Lease>, c: Conn): nat {
    if leases == [] then 0 else
    CountHeld(leases[..|leases| - 1], c) + if leases[|leases| - 1] == Lease(c, false) then 1 else 0
  }

  /** In how many places a connection is: idle, leased, on its way back. */
  function Copies(s: State, c: Conn): nat {
    CountIn(s.idle, c) + CountHeld(s.leases, c) + CountIn(s.returning, c)
  }

  ghost predicate OneHolder(s: State) {
    forall c: Conn {:trigger Copies(s, c)} :: Copies(s, c) <= 1 && (c >= s.nextConn ==> Copies(s, c) == 0)
  }

  lemma CountMore(q: seq<Conn>, x: Conn, leases: seq<Lease>, l: Lease, c: Conn)
    ensures CountIn(q + [x], c) == CountIn(q, c) + if x == c then 1 else 0
    ensures CountHeld(leases + [l], c) == CountHeld(leases, c) + if l == Lease(c, false) then 1 else 0
  {
    assert (q + [x])[..|q|] == q && (leases + [l])[..|leases|] == leases;
  }

  lemma {:induction false} CountWithout(q: seq<Conn>, k: nat, c: Conn)
    requires k < |q|
    ensures CountIn(Without(q, k), c) == CountIn(q, c) - if q[k] == c then 1 else 0
  {
    var n := |q| - 1;
    if k == n {
      assert Without(q, k) == q[..n];
    } else {
      CountWithout(q[..n], k, c);
      var w := Without(q, k);
      assert w[..n - 1] == Without(q[..n], k) && w[n - 1] == q[n];
    }
  }

  lemma {:induction false} CountHeldLess(leases: seq<Lease>, i: nat, c: Conn)
    requires i < |leases| && !leases[i].detached
    ensures CountHeld(leases[i := leases[i].(detached := true)], c) == CountHeld(leases, c) - if leases[i].conn == c then 1 else 0
  {
    var n := |leases| - 1;
    var less := leases[i := leases[i].(detached := true)];
    if i == n {
      assert less[..n] == leases[..n];
    } else {
      CountHeldLess(leases[..n], i, c);
      assert less[..n] == leases[..n][i := leases[i].(detached := true)];
    }
  }

  lemma DispatchCopies(s: State, c: Conn)
    ensures Copies(Dispatch(s), c) == Copies(s, c) && Dispatch(s).nextConn == s.nextConn
  {
    var q := Skip(s.waiters, s.cancelled);
    if q != [] && q[0] < |s.outcome| && s.idle != [] {
      CountWithout(s.idle, 0, c);
      assert Without(s.idle, 0) == s.idle[1..];
      CountMore([], 0, s.leases, Lease(s.idle[0], false), c);
    }
  }

  lemma EventCopies(s: State, a: Action, c: Conn)
    requires Enabled(s, a)
    ensures Copies(Event(s, a), c) <= Copies(s, c) + if a.Connected? && c == s.nextConn then 1 else 0
  {
    match a
    case Connected(k) =>
      CountMore(s.idle, s.nextConn, s.leases, Lease(s.nextConn, false), c);
    case Release(l) =>
      if !s.leases[l].detached {
        CountHeldLess(s.leases, l, c);
        CountMore(s.returning, s.leases[l].conn, [], s.leases[l], c);
      }
    case Break(l) =>
      if !s.leases[l].detached {
        CountHeldLess(s.leases, l, c);
      }
    case Returned(k, alive) =>
      CountWithout(s.returning, k, c);
      CountMore(s.idle, s.returning[k], [], Lease(c, true), c);
    case _ =>
  }

  lemma StepKeepsOneHolder(s: State, a: Action)
    requires OneHolder(s) && Enabled(s, a)
    ensures OneHolder(Step(s, a))
  {
    var t := Step(s, a);
    forall c: Conn {:trigger Copies(t, c)} ensures Copies(t, c) <= 1 && (c >= t.nextConn ==> Copies(t, c) == 0) {
      assert Copies(s, c) <= 1;
      EventCopies(s, a, c);
      DispatchCopies(Event(s, a), c);
    }
  }

  // ---------------------------------------------------------------- promises

  /** A promise that was set keeps its outcome. */
  ghost predicate Later(s: State, t: State) {
    && |s.outcome| <= |t.outcome| && s.served <= t.served
    && forall w {:trigger t.outcome[w]} :: 0 <= w < |s.outcome| && !s.outcome[w].Waiting? ==> t.outcome[w] == s.outcome[w]
  }

  lemma StepKeepsOutcomes(s: State, a: Action)
    requires Queued(s) && Enabled(s, a) && Queued(Event(s, a))
    ensures Later(s, Step(s, a))
  {
    var t := Event(s, a);
    assert Later(s, t) by {
      if a.Connected? || a.Refused? {
        assert Expecting(s, s.connecting[a.k]);
      }
    }
    var n := DispatchQueue(t);
    if n < |t.waiters| {
      assert Expecting(t, t.waiters[n]);
    }
  }

  // ---------------------------------------------------------------- what a waiter is given

  /** Lease i is of the connection that its waiter was given. */
  predicate LeaseOk(s: State, i: nat)
    requires i < |s.holders| == |s.leases|
  {
    s.holders[i] < |s.outcome| && s.outcome[s.holders[i]] == GotConnection(s.leases[i].conn)
  }

  /** Each lease belongs to one waiter, and each waiter that was given a connection has a lease. */
  ghost predicate Given(s: State) {
    && |s.holders| == |s.leases| && NoDup(s.holders)
    && (forall i {:trigger LeaseOk(s, i)} :: 0 <= i < |s.leases| ==> LeaseOk(s, i))
    && (forall w {:trigger s.outcome[w]} :: 0 <= w < |s.outcome| && s.outcome[w].GotConnection? ==> w in s.holders)
  }

  /** Leases and holders stay, and only promises that were not set are given something other than a connection. */
  lemma GivenStays(s: State, t: State)
    requires Given(s) && t.holders == s.holders && |t.leases| == |s.leases| && |s.outcome| <= |t.outcome|
    requires forall i {:trigger t.leases[i]} :: 0 <= i < |t.leases| ==> t.leases[i].conn == s.leases[i].conn
    requires forall w {:trigger t.outcome[w]} :: 0 <= w < |t.outcome| ==>
      (w < |s.outcome| && t.outcome[w] == s.outcome[w]) ||
      ((w >= |s.outcome| || !s.outcome[w].GotConnection?) && !t.outcome[w].GotConnection?)
    ensures Given(t)
  {
    forall i {:trigger LeaseOk(t, i)} | 0 <= i < |t.leases| ensures LeaseOk(t, i) { assert LeaseOk(s, i); }
  }

  lemma HandOverGives(s: State, w: WaiterId, c: Conn)
    requires Given(s) && w < |s.outcome| && !s.outcome[w].GotConnection?
    ensures Given(HandOver(s, w, c))
  {
    var t, n := HandOver(s, w, c), |s.leases|;
    forall i | 0 <= i < n ensures s.holders[i] != w { assert LeaseOk(s, i); }
    forall i {:trigger LeaseOk(t, i)} | 0 <= i < |t.leases| ensures LeaseOk(t, i) {
      if i < n {
        assert LeaseOk(s, i);
      }
    }
    assert t.holders[n] == w;
    forall v {:trigger t.outcome[v]} | 0 <= v < |t.outcome| && t.outcome[v].GotConnection? ensures v in t.holders {
      if v != w {
        assert s.outcome[v].GotConnection?;
      }
    }
  }

  lemma DispatchGives(s: State)
    requires Given(s) && Queued(s)
    ensures Given(Dispatch(s))
  {
    var n := DispatchQueue(s);
    var q := Skip(s.waiters, s.cancelled);
    if n < |s.waiters| && s.idle != [] {
      assert q[0] == s.waiters[n];
      assert Expecting(s, s.waiters[n]);
      var t := s.(waiters := q[1..], idle := s.idle[1..], served := s.served + [q[0]]);
      GivenStays(s, t);
      HandOverGives(t, q[0], s.idle[0]);
    } else {
      GivenStays(s, Dispatch(s));
    }
  }

  lemma EventGives(s: State, a: Action)
    requires Given(s) && Queued(s) && Enabled(s, a)
    ensures Given(Event(s, a))
  {
    var t := Event(s, a);
    if a.Connected? && !s.cancelled[s.connecting[a.k]] {
      assert Expecting(s, s.connecting[a.k]);
      var u := s.(connecting := Without(s.connecting, a.k), nextConn := s.nextConn + 1);
      GivenStays(s, u);
      HandOverGives(u, s.connecting[a.k], s.nextConn);
    } else {
      if a.Refused? {
        assert Expecting(s, s.connecting[a.k]);
      }
      GivenStays(s, t);
    }
  }

  // ---------------------------------------------------------------- runs

  ghost predicate Inv(s: State) {
    Conserved(s) && Queued(s) && Working(s) && NoneLost(s) && OneHolder(s) && Given(s)
  }

  lemma StepKeepsInv(s: State, a: Action)
    requires Inv(s) && Enabled(s, a)
    ensures Inv(Step(s, a)) && Later(s, Step(s, a)) && Step(s, a).maxSize == s.maxSize
  {
    EventConserves(s, a);
    EventKeeps(s, a);
    StepKeepsOneHolder(s, a);
    StepKeepsOutcomes(s, a);
    EventGives(s, a);
    var t := Event(s, a);
    if Dispatches(s, a) {
      DispatchGives(t);
      DispatchConserves(t);
      DispatchKeepsQueued(t);
      DispatchWorks(t);
      DispatchLosesNone(t);
    }
  }

  lemma {:induction false} RunKeepsInv(trace: seq<State>, acts: seq<Action>, maxSize: nat, i: nat)
    requires IsRun(trace, acts, maxSize) && i <= |acts|
    ensures Inv(trace[i]) && trace[i].maxSize == maxSize
  {
    if i > 0 {
      RunKeepsInv(trace, acts, maxSize, i - 1);
      assert Enabled(trace[i - 1], acts[i - 1]);
      StepKeepsInv(trace[i - 1], acts[i - 1]);
    }
  }

  /**
   * In every run totalCount is what is idle, being opened, leased and not detached, or on its
   * way back; it never exceeds maxSize and never goes below zero; no connection has two holders.
   */
  lemma ConnectionsConserved(trace: seq<State>, acts: seq<Action>, maxSize: nat, i: nat, c: Conn)
    requires IsRun(trace, acts, maxSize) && i <= |acts|
    ensures 0 <= trace[i].totalCount == InFlight(trace[i]) <= maxSize
    ensures Copies(trace[i], c) <= 1
  {
    RunKeepsInv(trace, acts, maxSize, i);
    assert Copies(trace[i], c) <= 1;
  }

  /** In every run a live waiter is queued only while every connection the pool may have is in use. */
  lemma LiveWaitersAreBlocked(trace: seq<State>, acts: seq<Action>, maxSize: nat, i: nat, w: WaiterId)
    requires IsRun(trace, acts, maxSize) && i <= |acts| && w < |trace[i].outcome| && trace[i].outcome[w].Waiting?
    ensures w in trace[i].connecting || (w in trace[i].waiters && trace[i].idle == [] && trace[i].totalCount == maxSize)
  {
    var s := trace[i];
    RunKeepsInv(trace, acts, maxSize, i);
    assert Kept(s, w);
    if w in s.waiters {
      var j :| 0 <= j < |s.waiters| && s.waiters[j] == w;
      assert Expecting(s, s.waiters[j]);
    }
  }

  /** In every run waiters leave the queue in the order they came, and none is overtaken by a later one. */
  lemma ServedInArrivalOrder(trace: seq<State>, acts: seq<Action>, maxSize: nat, i: nat, a: nat, b: nat)
    requires IsRun(trace, acts, maxSize) && i <= |acts| && a < b < |trace[i].served| + |trace[i].waiters|
    ensures (trace[i].served + trace[i].waiters)[a] < (trace[i].served + trace[i].waiters)[b]
  {
    RunKeepsInv(trace, acts, maxSize, i);
  }

  /** In every run a promise once set is never set again. */
  lemma {:induction false} SetOnce(trace: seq<State>, acts: seq<Action>, maxSize: nat, i: nat, j: nat, w: WaiterId)
    requires IsRun(trace, acts, maxSize) && i <= j <= |acts| && w < |trace[i].outcome| && !trace[i].outcome[w].Waiting?
    ensures w < |trace[j].outcome| && trace[j].outcome[w] == trace[i].outcome[w]
  {
    if i < j {
      SetOnce(trace, acts, maxSize, i, j - 1, w);
      RunKeepsInv(trace, acts, maxSize, j - 1);
      assert Enabled(trace[j - 1], acts[j - 1]);
      StepKeepsInv(trace[j - 1], acts[j - 1]);
    }
  }

  /** In every run a waiter that was given a connection has a lease of exactly that connection. */
  lemma GivenIsLeased(trace: seq<State>, acts: seq<Action>, maxSize: nat, i: nat, w: WaiterId) returns (l: nat)
    requires IsRun(trace, acts, maxSize) && i <= |acts| && w < |trace[i].outcome| && trace[i].outcome[w].GotConnection?
    ensures |trace[i].holders| == |trace[i].leases| && l < |trace[i].leases|
    ensures trace[i].holders[l] == w && trace[i].leases[l].conn == trace[i].outcome[w].conn
  {
    RunKeepsInv(trace, acts, maxSize, i);
    l :| 0 <= l < |trace[i].holders| && trace[i].holders[l] == w;
    assert LeaseOk(trace[i], l);
  }

  lemma {:induction false} HeldTwice(leases: seq<Lease>, x: nat, c: Conn)
    requires x < |leases| && leases[x] == Lease(c, false)
    ensures CountHeld(leases, c) >= 1
    ensures forall y {:trigger leases[y]} :: 0 <= y < |leases| && y != x && leases[y] == Lease(c, false) ==> CountHeld(leases, c) >= 2
  {
    var n := |leases| - 1;
    var front := leases[..n];
    if x < n {
      HeldTwice(front, x, c);
      assert forall y {:trigger front[y]} :: 0 <= y < n ==> front[y] == leases[y];
    } else {
      forall y {:trigger leases[y]} | 0 <= y < n && leases[y] == Lease(c, false) ensures CountHeld(leases, c) >= 2 {
        HeldTwice(front, y, c);
      }
    }
  }

  /** In every run two waiters whose leases are both in use have different connections. */
  lemma NeverShared(trace: seq<State>, acts: seq<Action>, maxSize: nat, i: nat, v: WaiterId, w: WaiterId, x: nat, y: nat)
    requires IsRun(trace, acts, maxSize) && i <= |acts| && v != w && v < |trace[i].outcome| && w < |trace[i].outcome|
    requires x < |trace[i].holders| && y < |trace[i].holders| && trace[i].holders[x] == v && trace[i].holders[y] == w
    ensures |trace[i].holders| == |trace[i].leases| && trace[i].outcome[v].GotConnection? && trace[i].outcome[w].GotConnection?
    ensures !trace[i].leases[x].detached && !trace[i].leases[y].detached ==> trace[i].outcome[v].conn != trace[i].outcome[w].conn
  {
    var s := trace[i];
    RunKeepsInv(trace, acts, maxSize, i);
    assert LeaseOk(s, x) && LeaseOk(s, y);
    var c := s.leases[x].conn;
    if !s.leases[x].detached {
      HeldTwice(s.leases, x, c);
      assert Copies(s, c) <= 1;
    }
  }

  // ---------------------------------------------------------------- who is given what, and when

  /** What a step adds to the idle connections before it serves anybody. */
  function Added(s: State, a: Action): seq<Conn>
    requires Enabled(s, a)
  {
    match a
    case Returned(k, alive) => if alive then [s.returning[k]] else []
    case Connected(k) => if s.cancelled[s.connecting[k]] then [s.nextConn] else []
    case _ => []
  }

  /** What the promise of w is given by a step that sets it. */
  ghost predicate SetRight(s: State, a: Action, t: State, w: WaiterId)
    requires Enabled(s, a) && w < |t.outcome|
  {
    match t.outcome[w]
    case Waiting => false
    case TimedOut => a == Cancel(w)
    case ConnectFailed => a.Refused? && s.connecting[a.k] == w && !s.cancelled[w]
    case GotConnection(c) =>
      && t.leases == s.leases + [Lease(c, false)] && t.holders == s.holders + [w]
      && (if a.Connected? && s.connecting[a.k] == w then c == s.nextConn
          else s.idle + Added(s, a) != [] && c == (s.idle + Added(s, a))[0])
  }

  lemma EventSets(s: State, a: Action, w: WaiterId)
    requires Queued(s) && Enabled(s, a) && w < |s.outcome| && s.outcome[w].Waiting? && w < |s.cancelled|
    ensures w < |Event(s, a).outcome| && (!Event(s, a).outcome[w].Waiting? ==> SetRight(s, a, Event(s, a), w))
    ensures Event(s, a).outcome[w].GotConnection? ==> !Dispatches(s, a)
    ensures Dispatches(s, a) ==> Event(s, a).idle == s.idle + Added(s, a) && Event(s, a).leases == s.leases && Event(s, a).holders == s.holders
  {
    assert s.idle + [] == s.idle;
  }

  lemma DispatchSets(t: State, w: WaiterId)
    requires Queued(t) && w < |t.outcome| && t.outcome[w].Waiting?
    ensures w < |Dispatch(t).outcome|
    ensures Dispatch(t).outcome[w] == Waiting ||
      (t.idle != [] && Dispatch(t).outcome[w] == GotConnection(t.idle[0]) && Dispatch(t).leases == t.leases + [Lease(t.idle[0], false)]
       && Dispatch(t).holders == t.holders + [w])
  {
    var n := DispatchQueue(t);
  }

  lemma DispatchKeepsSet(t: State, w: WaiterId)
    requires Queued(t) && w < |t.outcome| && !t.outcome[w].Waiting?
    ensures w < |Dispatch(t).outcome| && Dispatch(t).outcome[w] == t.outcome[w]
  {
    var n := DispatchQueue(t);
    if n < |t.waiters| {
      assert Expecting(t, t.waiters[n]);
    }
  }

  /**
   * In every run: the step that sets a promise gives it the connection at the front of the idle
   * ones or the one just opened, and leases exactly that one to it; or fails it because its own
   * attempt failed and it was not cancelled; or times it out because it was cancelled.
   */
  lemma SetByItsStep(trace: seq<State>, acts: seq<Action>, maxSize: nat, i: nat, w: WaiterId)
    requires IsRun(trace, acts, maxSize) && i < |acts| && w < |trace[i].outcome| && trace[i].outcome[w].Waiting?
    ensures w < |trace[i + 1].outcome|
    ensures Enabled(trace[i], acts[i]) && w < |trace[i].cancelled| && !trace[i].cancelled[w]
    ensures !trace[i + 1].outcome[w].Waiting? ==> SetRight(trace[i], acts[i], trace[i + 1], w)
    ensures acts[i].Refused? && trace[i].connecting[acts[i].k] == w ==> trace[i + 1].outcome[w] == ConnectFailed
    ensures acts[i].Connected? && trace[i].connecting[acts[i].k] == w ==> trace[i + 1].outcome[w] == GotConnection(trace[i].nextConn)
    ensures acts[i] == Cancel(w) ==> trace[i + 1].outcome[w] == TimedOut
  {
    var s, a := trace[i], acts[i];
    RunKeepsInv(trace, acts, maxSize, i);
    assert Enabled(s, a);
    WaitingIsLive(s, w);
    EventKeeps(s, a);
    EventSets(s, a, w);
    var t := Event(s, a);
    if Dispatches(s, a) {
      if t.outcome[w].Waiting? {
        DispatchSets(t, w);
      } else {
        DispatchKeepsSet(t, w);
      }
    }
  }

  lemma WaitingIsLive(s: State, w: WaiterId)
    requires Inv(s) && w < |s.outcome| && s.outcome[w].Waiting?
    ensures w < |s.cancelled| && !s.cancelled[w]
  {
    assert Kept(s, w);
    if w in s.waiters {
      var j :| 0 <= j < |s.waiters| && s.waiters[j] == w;
      assert Expecting(s, s.waiters[j]);
    } else {
      var j :| 0 <= j < |s.connecting| && s.connecting[j] == w;
      assert Expecting(s, s.connecting[j]);
    }
  }

  /** A connection that is in no place of the pool any more is never in one again. */
  lemma {:induction false} GoneForGood(trace: seq<State>, acts: seq<Action>, maxSize: nat, i: nat, j: nat, c: Conn)
    requires IsRun(trace, acts, maxSize) && i <= j <= |acts| && c < trace[i].nextConn && Copies(trace[i], c) == 0
    ensures c < trace[j].nextConn && Copies(trace[j], c) == 0
  {
    if i < j {
      GoneForGood(trace, acts, maxSize, i, j - 1, c);
      assert Enabled(trace[j - 1], acts[j - 1]);
      StaysGone(trace[j - 1], acts[j - 1], c);
    }
  }

  lemma StaysGone(s: State, a: Action, c: Conn)
    requires Enabled(s, a) && c < s.nextConn && Copies(s, c) == 0
    ensures c < Step(s, a).nextConn && Copies(Step(s, a), c) == 0
  {
    EventCopies(s, a, c);
    DispatchCopies(Event(s, a), c);
  }

  lemma {:induction false} InSomePlace(q: seq<Conn>, k: nat)
    requires k < |q|
    ensures CountIn(q, q[k]) >= 1
  {
    if k < |q| - 1 {
      InSomePlace(q[..|q| - 1], k);
    }
  }

  /** In every run a connection that comes back is kept exactly if it is alive, and one that breaks is not. */
  lemma Fate(trace: seq<State>, acts: seq<Action>, maxSize: nat, i: nat)
    requires IsRun(trace, acts, maxSize) && i < |acts|
    ensures Enabled(trace[i], acts[i])
    ensures acts[i].Returned? ==> Copies(trace[i + 1], trace[i].returning[acts[i].k]) == if acts[i].alive then 1 else 0
    ensures acts[i].Break? && !trace[i].leases[acts[i].l].detached ==> Copies(trace[i + 1], trace[i].leases[acts[i].l].conn) == 0
    ensures acts[i].Release? && !trace[i].leases[acts[i].l].detached ==>
      && Copies(trace[i + 1], trace[i].leases[acts[i].l].conn) == 1
      && trace[i + 1].returning == trace[i].returning + [trace[i].leases[acts[i].l].conn]
  {
    var s, a := trace[i], acts[i];
    RunKeepsInv(trace, acts, maxSize, i);
    assert Enabled(s, a);
    if a.Returned? {
      var c := s.returning[a.k];
      assert Copies(s, c) <= 1;
      InSomePlace(s.returning, a.k);
      CountWithout(s.returning, a.k, c);
      CountMore(s.idle, c, [], Lease(c, true), c);
      DispatchCopies(Event(s, a), c);
    } else if a.Break? || a.Release? {
      var c := s.leases[a.l].conn;
      assert Copies(s, c) <= 1;
      if !s.leases[a.l].detached {
        HeldTwice(s.leases, a.l, c);
        CountHeldLess(s.leases, a.l, c);
        CountMore(s.returning, c, [], s.leases[a.l], c);
      }
    }
  }

  // ---------------------------------------------------------------- the pool object

  /** Every queued waiter exists. */
  ghost predicate InRange(s: State) {
    |s.cancelled| == |s.outcome| && forall i {:trigger s.waiters[i]} :: 0 <= i < |s.waiters| ==> s.waiters[i] < |s.outcome|
  }

  lemma InvInRange(s: State)
    requires Inv(s)
    ensures InRange(s)
  {
    forall i {:trigger s.waiters[i]} | 0 <= i < |s.waiters| ensures s.waiters[i] < |s.outcome| { assert Expecting(s, s.waiters[i]); }
  }

  /** PoolState, updated in place; what it does to its fields is Step on the state they make up. */
  class ConnectionPool {
    const maxSize: nat
    var totalCount: int
    var idle: seq<Conn>
    var waiters: seq<WaiterId>
    var cancelled: seq<bool>
    var outcome: seq<Outcome>
    var connecting: seq<WaiterId>
    var leases: seq<Lease>
    var returning: seq<Conn>
    var detaching: nat
    var nextConn: Conn
    ghost var served: seq<WaiterId>
    ghost var holders: seq<WaiterId>

    ghost function Value(): State
      reads this
    {
      State(maxSize, totalCount, idle, waiters, cancelled, outcome, connecting, leases, returning, detaching, nextConn, served, holders)
    }

    constructor (maxSize: nat)
      ensures Value() == Start(maxSize)
    {
      this.maxSize, totalCount, idle, waiters, cancelled, outcome := maxSize, 0, [], [], [], [];
      connecting, leases, returning, detaching, nextConn, served, holders := [], [], [], 0, 0, [], [];
    }

    /** PoolState::dispatch: serves at most one waiter. */
    method RunDispatch()
      requires InRange(Value())
      modifies this`totalCount, this`idle, this`waiters, this`outcome, this`connecting, this`leases, this`served, this`holders
      ensures Value() == Dispatch(old(Value()))
    {
      ghost var all := waiters;
      while waiters != [] && cancelled[waiters[0]]
        invariant Skip(waiters, cancelled) == Skip(all, cancelled)
        invariant InRange(Value())
        invariant Value() == old(Value()).(waiters := waiters)
        decreases |waiters|
      {
        waiters := waiters[1..];
      }
      if waiters != [] {
        ServeFront();
      }
    }

    /** The rest of dispatch: the first waiter, which is not cancelled, is served if that can be done. */
    method ServeFront()
      requires InRange(Value()) && waiters != [] && !cancelled[waiters[0]]
      modifies this`totalCount, this`idle, this`waiters, this`outcome, this`connecting, this`leases, this`served, this`holders
      ensures Value() == Dispatch(old(Value()))
    {
      assert Skip(waiters, cancelled) == waiters;
      var w := waiters[0];
      if idle != [] {
        outcome := outcome[w := GotConnection(idle[0])];
        leases, holders := leases + [Lease(idle[0], false)], holders + [w];
        idle := idle[1..];
        waiters := waiters[1..];
        served := served + [w];
      } else if totalCount < maxSize {
        totalCount := totalCount + 1;
        waiters := waiters[1..];
        served := served + [w];
        connecting := connecting + [w];
      }
    }

    /** PgPool::acquire, up to the wait for its future. */
    method AcquireOne(late: bool) returns (w: WaiterId)
      requires InRange(Value())
      modifies this
      ensures Value() == Step(old(Value()), Acquire(late)) && w == old(|outcome|)
    {
      w := |outcome|;
      cancelled, outcome := cancelled + [late], outcome + [if late then TimedOut else Waiting];
      waiters := waiters + [w];
      RunDispatch();
    }

    /** The callback acquire registers with its cancel token. */
    method CancelWaiter(w: WaiterId)
      requires InRange(Value()) && w < |outcome|
      modifies this`cancelled, this`outcome
      ensures Value() == if old(cancelled[w]) then old(Value()) else Step(old(Value()), Cancel(w))
    {
      if cancelled[w] {
        return;
      }
      cancelled := cancelled[w := true];
      if outcome[w].Waiting? {
        outcome := outcome[w := TimedOut];
      }
    }

    /** The end of the task that dispatch spawned for a waiter. */
    method ConnectDone(k: nat, ok: bool)
      requires InRange(Value()) && k < |connecting| && connecting[k] < |outcome|
      modifies this
      ensures Value() == Step(old(Value()), if ok then Connected(k) else Refused(k))
    {
      var w := connecting[k];
      connecting := Without(connecting, k);
      if !ok {
        totalCount := totalCount - 1;
        if !cancelled[w] {
          outcome := outcome[w := ConnectFailed];
        }
        RunDispatch();
      } else {
        var conn := nextConn;
        nextConn := nextConn + 1;
        if !cancelled[w] {
          outcome := outcome[w := GotConnection(conn)];
          leases, holders := leases + [Lease(conn, false)], holders + [w];
        } else {
          idle := idle + [conn];
          RunDispatch();
        }
      }
    }

    /** ~PooledConnection: a return is sent unless the flag was set. */
    method ReleaseLease(l: nat)
      requires InRange(Value()) && l < |leases|
      modifies this`leases, this`returning
      ensures Value() == Step(old(Value()), Release(l))
    {
      if !leases[l].detached {
        returning := returning + [leases[l].conn];
        leases := leases[l := leases[l].(detached := true)];
      }
    }

    /** The broken-handler: a detach is sent unless the flag was set. */
    method BreakLease(l: nat)
      requires InRange(Value()) && l < |leases|
      modifies this`leases, this`detaching
      ensures Value() == Step(old(Value()), Break(l))
    {
      if !leases[l].detached {
        detaching := detaching + 1;
        leases := leases[l := leases[l].(detached := true)];
      }
    }

    /** The callback of returnConnection. */
    method ReturnArrives(k: nat, alive: bool)
      requires InRange(Value()) && k < |returning|
      modifies this
      ensures Value() == Step(old(Value()), Returned(k, alive))
    {
      var conn := returning[k];
      returning := Without(returning, k);
      if !alive {
        totalCount := totalCount - 1;
      } else {
        idle := idle + [conn];
      }
      RunDispatch();
    }

    /** The callback of detachConnection. */
    method DetachArrives()
      requires InRange(Value()) && detaching > 0
      modifies this
      ensures Value() == Step(old(Value()), Detached)
    {
      detaching := detaching - 1;
      totalCount := totalCount - 1;
      RunDispatch();
    }

    method Handle(a: Action)
      requires InRange(Value()) && Enabled(Value(), a)
      modifies this
      ensures Value() == Step(old(Value()), a)
    {
      match a {
        case Acquire(late) => var _ := AcquireOne(late);
        case Cancel(w) => CancelWaiter(w);
        case Connected(k) => ConnectDone(k, true);
        case Refused(k) => ConnectDone(k, false);
        case Release(l) => ReleaseLease(l);
        case Break(l) => BreakLease(l);
        case Returned(k, alive) => ReturnArrives(k, alive);
        case Detached => DetachArrives();
      }
    }

    /** Whatever happens next, the object keeps what every run keeps. */
    method Perform(a: Action)
      requires Inv(Value()) && Enabled(Value(), a)
      modifies this
      ensures Inv(Value()) && Value() == Step(old(Value()), a) && Later(old(Value()), Value())
    {
      InvInRange(Value());
      StepKeepsInv(Value(), a);
      Handle(a);
    }
  }
}
