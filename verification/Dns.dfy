/**
 * DnsResolver.cc: a cache with an expiry queue, and one outstanding resolution per key however
 * many callers ask for it. A step is one critical section, one counter increment, or the
 * setting of one promise.
 */
module Dns {
  import opened Prelude
  import opened Numbers

  type Key = seq<byte>
  type Time = int
  type Addresses = nat    // a list of addresses, by name
  type PromiseId = nat

  datatype CacheEntry = CacheEntry(addresses: Addresses, expiry: Time)
  datatype Record = Record(expiry: Time, key: Key)
  datatype Outcome = Unset | Value(addresses: Addresses) | Error

  datatype Phase =
    | Resolving
    | Counting(addresses: Addresses, now: Time)
    | Purging(addresses: Addresses, now: Time)
    | Delivering(result: Outcome)

  /** One run of doResolve. */
  datatype Task = Task(key: Key, phase: Phase, waiters: seq<PromiseId>)

  /** Where a promise is kept until it is set. */
  datatype Place = AtPending(key: Key) | AtTask(task: nat) | Settled

  datatype State = State(
    ttl: nat,
    cache: map<Key, CacheEntry>,
    pending: map<Key, seq<PromiseId>>,
    queue: seq<Record>,
    writeCount: nat,
    tasks: seq<Task>,
    outcome: seq<Outcome>,        // by promise
    fault: bool,                  // a promise was set twice
    keyOf: seq<Key>,              // history: the key each promise was made for
    place: seq<Place>,            // history: where each promise is
    flight: map<Key, nat>,        // history: the task that resolves a key
    answers: set<(Key, Addresses)>)  // history: what getaddrinfo said

  function Start(ttl: nat): State {
    State(ttl, map[], map[], [], 0, [], [], false, [], [], map[], {})
  }

  datatype Action =
    | Resolve(key: Key, now: Time)
    | Answer(t: nat, addresses: Addresses, now: Time)
    | Fail(t: nat)
    | Count(t: nat)
    | Purge(t: nat)
    | Deliver(t: nat)

  predicate Enabled(s: State, a: Action) {
    match a
    case Resolve(_, _) => true
    case Answer(t, _, _) => t < |s.tasks| && s.tasks[t].phase.Resolving?
    case Fail(t) => t < |s.tasks| && s.tasks[t].phase.Resolving?
    case Count(t) => t < |s.tasks| && s.tasks[t].phase.Counting?
    case Purge(t) => t < |s.tasks| && s.tasks[t].phase.Purging?
    case Deliver(t) =>
      t < |s.tasks| && s.tasks[t].phase.Delivering? && s.tasks[t].waiters != [] && s.tasks[t].waiters[0] < |s.outcome|
      && s.tasks[t].waiters[0] < |s.place|
  }

  /** The records a purge leaves. */
  function Unexpired(queue: seq<Record>, now: Time): seq<Record> {
    if queue == [] then [] else
    var front, last := Unexpired(queue[..|queue| - 1], now), queue[|queue| - 1];
    if last.expiry > now then front + [last] else front
  }

  /** The entries a purge leaves: those with a record of their own that has expired go. */
  function Purged(cache: map<Key, CacheEntry>, queue: seq<Record>, now: Time): map<Key, CacheEntry> {
    map k | k in cache && !(cache[k].expiry <= now && HasExpired(queue, k, now)) :: cache[k]
  }

  predicate HasExpired(queue: seq<Record>, k: Key, now: Time) {
    exists i :: 0 <= i < |queue| && queue[i].key == k && queue[i].expiry <= now
  }

  /** The promises kept for a key move to the task that answers it. */
  function Moved(place: seq<Place>, k: Key, t: nat): seq<Place> {
    seq(|place|, i requires 0 <= i < |place| => if place[i] == AtPending(k) then AtTask(t) else place[i])
  }

  /** The end of a resolution: the key is pending no more, its promises belong to the task. */
  function Claim(s: State, t: nat, phase: Phase): State
    requires t < |s.tasks|
  {
    var k := s.tasks[t].key;
    s.(tasks := s.tasks[t := Task(k, phase, if k in s.pending then s.pending[k] else [])],
       pending := s.pending - {k}, flight := s.flight - {k}, place := Moved(s.place, k, t))
  }

  function Step(s: State, a: Action): State
    requires Enabled(s, a)
  {
    match a
    case Resolve(k, now) =>
      var p := |s.outcome|;
      if k in s.cache && now < s.cache[k].expiry then
        s.(outcome := s.outcome + [Value(s.cache[k].addresses)], keyOf := s.keyOf + [k], place := s.place + [Settled])
      else if k in s.pending then
        s.(outcome := s.outcome + [Unset], keyOf := s.keyOf + [k], place := s.place + [AtPending(k)],
           pending := s.pending[k := s.pending[k] + [p]])
      else
        s.(outcome := s.outcome + [Unset], keyOf := s.keyOf + [k], place := s.place + [AtPending(k)],
           pending := s.pending[k := [p]], tasks := s.tasks + [Task(k, Resolving, [])], flight := s.flight[k := |s.tasks|])
    case Answer(t, addresses, now) =>
      var k := s.tasks[t].key;
      Claim(s, t, Counting(addresses, now)).(
        cache := s.cache[k := CacheEntry(addresses, now + s.ttl)], queue := s.queue + [Record(now + s.ttl, k)],
        answers := s.answers + {(k, addresses)})
    case Fail(t) => Claim(s, t, Delivering(Error))
    case Count(t) =>
      var x := s.tasks[t];
      s.(writeCount := s.writeCount + 1,
         tasks := s.tasks[t := x.(phase := if s.writeCount % 16 == 0 then Purging(x.phase.addresses, x.phase.now)
                                           else Delivering(Value(x.phase.addresses)))])
    case Purge(t) =>
      var x := s.tasks[t];
      s.(cache := Purged(s.cache, s.queue, x.phase.now), queue := Unexpired(s.queue, x.phase.now),
         tasks := s.tasks[t := x.(phase := Delivering(Value(x.phase.addresses)))])
    case Deliver(t) =>
      var x := s.tasks[t];
      var p := x.waiters[0];
      s.(tasks := s.tasks[t := x.(waiters := x.waiters[1..])], place := s.place[p := Settled],
         outcome := s.outcome[p := x.phase.result], fault := s.fault || !s.outcome[p].Unset?)
  }

  ghost predicate IsRun(trace: seq<State>, acts: seq<Action>, ttl: nat) {
    && |trace| == |acts| + 1 && trace[0] == Start(ttl)
    && forall i {:trigger acts[i]} :: 0 <= i < |acts| ==> Enabled(trace[i], acts[i]) && trace[i + 1] == Step(trace[i], acts[i])
  }

  // ---------------------------------------------------------------- the cache

  ghost predicate Recorded(s: State, k: Key) {
    k in s.cache ==> Record(s.cache[k].expiry, k) in s.queue
  }

  /** Every cache entry has its own record in the expiry queue. */
  ghost predicate CacheOk(s: State) {
    forall k {:trigger Recorded(s, k)} :: Recorded(s, k)
  }

  lemma {:induction false} UnexpiredHas(queue: seq<Record>, now: Time, r: Record)
    ensures r in Unexpired(queue, now) <==> r in queue && r.expiry > now
  {
    if queue != [] {
      UnexpiredHas(queue[..|queue| - 1], now, r);
      assert queue == queue[..|queue| - 1] + [queue[|queue| - 1]];
    }
  }

  /** A purge at `now` leaves exactly the entries that expire after `now`. */
  lemma PurgeIsExact(s: State, now: Time, k: Key)
    requires CacheOk(s)
    ensures k in Purged(s.cache, s.queue, now) <==> k in s.cache && s.cache[k].expiry > now
  {
    assert Recorded(s, k);
    if k in s.cache && s.cache[k].expiry <= now {
      var i :| 0 <= i < |s.queue| && s.queue[i] == Record(s.cache[k].expiry, k);
      assert HasExpired(s.queue, k, now);
    }
  }

  lemma StepKeepsCache(s: State, a: Action)
    requires CacheOk(s) && Enabled(s, a)
    ensures CacheOk(Step(s, a))
  {
    var t := Step(s, a);
    forall k {:trigger Recorded(t, k)} ensures Recorded(t, k) {
      assert Recorded(s, k);
      if a.Purge? {
        var now := s.tasks[a.t].phase.now;
        PurgeIsExact(s, now, k);
        if k in s.cache {
          UnexpiredHas(s.queue, now, Record(s.cache[k].expiry, k));
        }
      }
    }
  }

  // ---------------------------------------------------------------- invariant

  /** A pending key has its task, which is still resolving it. */
  ghost predicate KeyOk(s: State, k: Key) {
    && (k in s.pending <==> k in s.flight)
    && (k in s.flight ==>
      s.flight[k] < |s.tasks| && s.tasks[s.flight[k]].phase.Resolving? && s.tasks[s.flight[k]].key == k)
    && (k in s.pending ==> Lists(s, s.pending[k], AtPending(k)))
    && (k in s.cache ==> (k, s.cache[k].addresses) in s.answers)
  }

  /** Different promises, all kept at this place. */
  ghost predicate Lists(s: State, ps: seq<PromiseId>, place: Place) {
    NoDup(ps) && forall i {:trigger ps[i]} :: 0 <= i < |ps| ==> ps[i] < |s.place| && s.place[ps[i]] == place
  }

  /** What a task has to say about its key was said by getaddrinfo about that key. */
  ghost predicate Truthful(s: State, x: Task) {
    match x.phase
    case Resolving => true
    case Counting(a, _) => (x.key, a) in s.answers
    case Purging(a, _) => (x.key, a) in s.answers
    case Delivering(r) => !r.Unset? && (r.Value? ==> (x.key, r.addresses) in s.answers)
  }

  ghost predicate TaskOk(s: State, t: nat)
    requires t < |s.tasks|
  {
    var x := s.tasks[t];
    && (x.phase.Resolving? ==> x.key in s.flight && s.flight[x.key] == t && x.waiters == [])
    && Lists(s, x.waiters, AtTask(t)) && Truthful(s, x)
  }

  /** A promise is unset and in the list of its place, or set, once, for its own key. */
  ghost predicate PromiseOk(s: State, p: PromiseId)
    requires p < |s.outcome| && |s.place| == |s.keyOf| == |s.outcome|
  {
    match s.place[p]
    case AtPending(k) => s.outcome[p].Unset? && k == s.keyOf[p] && k in s.pending && p in s.pending[k]
    case AtTask(t) => s.outcome[p].Unset? && t < |s.tasks| && s.tasks[t].key == s.keyOf[p] && p in s.tasks[t].waiters
    case Settled => !s.outcome[p].Unset? && (s.outcome[p].Value? ==> (s.keyOf[p], s.outcome[p].addresses) in s.answers)
  }

  ghost predicate Inv(s: State) {
    && CacheOk(s) && !s.fault && |s.place| == |s.keyOf| == |s.outcome|
    && (forall k {:trigger KeyOk(s, k)} :: KeyOk(s, k))
    && (forall t {:trigger TaskOk(s, t)} :: 0 <= t < |s.tasks| ==> TaskOk(s, t))
    && (forall p {:trigger PromiseOk(s, p)} :: 0 <= p < |s.outcome| ==> PromiseOk(s, p))
  }

  // ---------------------------------------------------------------- steps

  /** A caller whose answer is cached. */
  lemma HitKeepsInv(s: State, k: Key, now: Time)
    requires Inv(s) && k in s.cache && now < s.cache[k].expiry
    ensures Inv(Step(s, Resolve(k, now)))
  {
    var u := Step(s, Resolve(k, now));
    StepKeepsCache(s, Resolve(k, now));
    assert KeyOk(s, k);
    forall x {:trigger KeyOk(u, x)} ensures KeyOk(u, x) { assert KeyOk(s, x); }
    forall t {:trigger TaskOk(u, t)} | 0 <= t < |u.tasks| ensures TaskOk(u, t) { assert TaskOk(s, t); }
    forall p {:trigger PromiseOk(u, p)} | 0 <= p < |u.outcome| ensures PromiseOk(u, p) {
      if p < |s.outcome| {
        assert PromiseOk(s, p);
      }
    }
  }

  lemma ListsMore(s: State, u: State, ps: seq<PromiseId>, place: Place)
    requires Lists(s, ps, place) && s.place <= u.place && |u.place| == |s.place| + 1 && u.place[|s.place|] == place
    ensures Lists(u, ps + [|s.place|], place)
  {
    var qs := ps + [|s.place|];
    forall i, j | 0 <= i < j < |qs| ensures qs[i] != qs[j] {
      assert ps[i] < |s.place|;
    }
  }

  lemma ListsStay(s: State, u: State, ps: seq<PromiseId>, place: Place)
    requires Lists(s, ps, place) && s.place <= u.place
    ensures Lists(u, ps, place)
  {
  }

  /** A caller who joins a resolution in progress. */
  lemma JoinKeepsInv(s: State, k: Key, now: Time)
    requires Inv(s) && !(k in s.cache && now < s.cache[k].expiry) && k in s.pending
    ensures Inv(Step(s, Resolve(k, now)))
  {
    var u, n := Step(s, Resolve(k, now)), |s.outcome|;
    StepKeepsCache(s, Resolve(k, now));
    assert KeyOk(s, k);
    forall x {:trigger KeyOk(u, x)} ensures KeyOk(u, x) {
      assert KeyOk(s, x);
      if x == k {
        ListsMore(s, u, s.pending[k], AtPending(k));
      } else if x in s.pending {
        ListsStay(s, u, s.pending[x], AtPending(x));
      }
    }
    forall t {:trigger TaskOk(u, t)} | 0 <= t < |u.tasks| ensures TaskOk(u, t) {
      assert TaskOk(s, t);
      ListsStay(s, u, s.tasks[t].waiters, AtTask(t));
    }
    forall p {:trigger PromiseOk(u, p)} | 0 <= p < |u.outcome| ensures PromiseOk(u, p) {
      if p < n {
        assert PromiseOk(s, p);
      } else {
        assert u.pending[k][|s.pending[k]|] == n;
      }
    }
  }

  /** The first caller for a key. */
  lemma AskKeepsInv(s: State, k: Key, now: Time)
    requires Inv(s) && !(k in s.cache && now < s.cache[k].expiry) && k !in s.pending
    ensures Inv(Step(s, Resolve(k, now)))
  {
    var u, n := Step(s, Resolve(k, now)), |s.outcome|;
    StepKeepsCache(s, Resolve(k, now));
    assert KeyOk(s, k);
    forall x {:trigger KeyOk(u, x)} ensures KeyOk(u, x) {
      assert KeyOk(s, x);
      if x != k && x in s.pending {
        ListsStay(s, u, s.pending[x], AtPending(x));
      }
    }
    forall t {:trigger TaskOk(u, t)} | 0 <= t < |u.tasks| ensures TaskOk(u, t) {
      if t < |s.tasks| {
        assert TaskOk(s, t);
        ListsStay(s, u, s.tasks[t].waiters, AtTask(t));
      }
    }
    forall p {:trigger PromiseOk(u, p)} | 0 <= p < |u.outcome| ensures PromiseOk(u, p) {
      if p < n {
        assert PromiseOk(s, p);
      } else {
        assert u.pending[k][0] == n;
      }
    }
  }

  /** The promises of a key go over to its task, with whatever the task says. */
  lemma ClaimKeepsInv(s: State, t: nat, u: State, phase: Phase)
    requires Inv(s) && t < |s.tasks| && s.tasks[t].phase.Resolving? && !phase.Resolving?
    requires CacheOk(u) && u == Claim(s, t, phase).(cache := u.cache, queue := u.queue, answers := u.answers)
    requires s.answers <= u.answers && Truthful(u, Task(s.tasks[t].key, phase, []))
    requires forall k {:trigger k in u.cache} :: k in u.cache ==> (k, u.cache[k].addresses) in u.answers
    ensures Inv(u)
  {
    var k := s.tasks[t].key;
    assert TaskOk(s, t) && KeyOk(s, k);
    forall x {:trigger KeyOk(u, x)} ensures KeyOk(u, x) {
      assert KeyOk(s, x);
      if x in s.flight && x != k {
        assert s.flight[x] != t;
      }
    }
    forall y {:trigger TaskOk(u, y)} | 0 <= y < |u.tasks| ensures TaskOk(u, y) {
      assert TaskOk(s, y);
      if y != t && s.tasks[y].phase.Resolving? {
        assert s.tasks[y].key != k;
      }
    }
    forall p {:trigger PromiseOk(u, p)} | 0 <= p < |u.outcome| ensures PromiseOk(u, p) {
      assert PromiseOk(s, p);
    }
  }

  /** A task goes on to another phase and keeps its promises. */
  lemma PhaseKeepsInv(s: State, t: nat, u: State, phase: Phase)
    requires Inv(s) && t < |s.tasks| && !s.tasks[t].phase.Resolving? && !phase.Resolving?
    requires CacheOk(u) && u == s.(tasks := s.tasks[t := s.tasks[t].(phase := phase)], cache := u.cache, queue := u.queue, writeCount := u.writeCount)
    requires Truthful(s, s.tasks[t].(phase := phase))
    requires forall k {:trigger k in u.cache} :: k in u.cache ==> k in s.cache && u.cache[k] == s.cache[k]
    ensures Inv(u)
  {
    assert TaskOk(s, t);
    forall x {:trigger KeyOk(u, x)} ensures KeyOk(u, x) { assert KeyOk(s, x); }
    forall y {:trigger TaskOk(u, y)} | 0 <= y < |u.tasks| ensures TaskOk(u, y) { assert TaskOk(s, y); }
    forall p {:trigger PromiseOk(u, p)} | 0 <= p < |u.outcome| ensures PromiseOk(u, p) { assert PromiseOk(s, p); }
  }

  lemma DeliverKeepsInv(s: State, t: nat)
    requires Inv(s) && Enabled(s, Deliver(t))
    ensures Inv(Step(s, Deliver(t)))
  {
    var u, p := Step(s, Deliver(t)), s.tasks[t].waiters[0];
    StepKeepsCache(s, Deliver(t));
    assert TaskOk(s, t) && PromiseOk(s, p);
    forall x {:trigger KeyOk(u, x)} ensures KeyOk(u, x) { assert KeyOk(s, x); }
    forall y {:trigger TaskOk(u, y)} | 0 <= y < |u.tasks| ensures TaskOk(u, y) {
      assert TaskOk(s, y);
      var ws := s.tasks[t].waiters;
      assert forall i :: 0 <= i < |ws| - 1 ==> ws[1..][i] == ws[i + 1];
    }
    forall q {:trigger PromiseOk(u, q)} | 0 <= q < |u.outcome| ensures PromiseOk(u, q) {
      assert PromiseOk(s, q);
      if q != p && s.place[q] == AtTask(t) {
        var i :| 0 <= i < |s.tasks[t].waiters| && s.tasks[t].waiters[i] == q;
        assert u.tasks[t].waiters[i - 1] == q;
      }
    }
  }

  lemma StepKeepsInv(s: State, a: Action)
    requires Inv(s) && Enabled(s, a)
    ensures Inv(Step(s, a))
  {
    var u := Step(s, a);
    StepKeepsCache(s, a);
    match a
    case Resolve(k, now) =>
      if k in s.cache && now < s.cache[k].expiry {
        HitKeepsInv(s, k, now);
      } else if k in s.pending {
        JoinKeepsInv(s, k, now);
      } else {
        AskKeepsInv(s, k, now);
      }
    case Answer(t, addresses, now) =>
      CacheIsTruthful(s);
      ClaimKeepsInv(s, t, u, Counting(addresses, now));
    case Fail(t) =>
      CacheIsTruthful(s);
      ClaimKeepsInv(s, t, u, Delivering(Error));
    case Count(t) =>
      assert TaskOk(s, t);
      PhaseKeepsInv(s, t, u, u.tasks[t].phase);
    case Purge(t) =>
      assert TaskOk(s, t);
      PhaseKeepsInv(s, t, u, u.tasks[t].phase);
    case Deliver(t) => DeliverKeepsInv(s, t);
  }

  lemma CacheIsTruthful(s: State)
    requires Inv(s)
    ensures forall k {:trigger k in s.cache} :: k in s.cache ==> (k, s.cache[k].addresses) in s.answers
  {
    forall k {:trigger k in s.cache} | k in s.cache ensures (k, s.cache[k].addresses) in s.answers { assert KeyOk(s, k); }
  }

  // ---------------------------------------------------------------- runs

  lemma {:induction false} RunKeepsInv(trace: seq<State>, acts: seq<Action>, ttl: nat, i: nat)
    requires IsRun(trace, acts, ttl) && i <= |acts|
    ensures Inv(trace[i])
  {
    if i > 0 {
      RunKeepsInv(trace, acts, ttl, i - 1);
      assert Enabled(trace[i - 1], acts[i - 1]);
      StepKeepsInv(trace[i - 1], acts[i - 1]);
    }
  }

  /** In every run a key is pending exactly while one resolution for it is outstanding, and never two. */
  lemma SingleFlight(trace: seq<State>, acts: seq<Action>, ttl: nat, i: nat, k: Key, t: nat, u: nat)
    requires IsRun(trace, acts, ttl) && i <= |acts|
    ensures k in trace[i].pending ==>
      && k in trace[i].flight && trace[i].flight[k] < |trace[i].tasks|
      && trace[i].tasks[trace[i].flight[k]].phase.Resolving? && trace[i].tasks[trace[i].flight[k]].key == k
    ensures t < |trace[i].tasks| && trace[i].tasks[t].phase.Resolving? ==> trace[i].tasks[t].key in trace[i].pending
    ensures t < u < |trace[i].tasks| && trace[i].tasks[t].phase.Resolving? && trace[i].tasks[u].phase.Resolving? ==>
      trace[i].tasks[t].key != trace[i].tasks[u].key
  {
    var s := trace[i];
    RunKeepsInv(trace, acts, ttl, i);
    assert KeyOk(s, k);
    if t < |s.tasks| {
      assert TaskOk(s, t);
      assert KeyOk(s, s.tasks[t].key);
      if u < |s.tasks| {
        assert TaskOk(s, u);
      }
    }
  }

  /**
   * In every run no promise is set twice; one that is not set yet is held for its key, either
   * by the resolution in progress or by the task that is handing out its answer; one that is
   * set to addresses has addresses that getaddrinfo gave for its own key.
   */
  lemma PromisesKept(trace: seq<State>, acts: seq<Action>, ttl: nat, i: nat, p: PromiseId)
    requires IsRun(trace, acts, ttl) && i <= |acts| && p < |trace[i].outcome|
    ensures !trace[i].fault && |trace[i].keyOf| == |trace[i].outcome|
    ensures trace[i].outcome[p].Unset? ==>
      || (trace[i].keyOf[p] in trace[i].pending && p in trace[i].pending[trace[i].keyOf[p]])
      || exists t :: 0 <= t < |trace[i].tasks| && trace[i].tasks[t].key == trace[i].keyOf[p] && p in trace[i].tasks[t].waiters
    ensures trace[i].outcome[p].Value? ==> (trace[i].keyOf[p], trace[i].outcome[p].addresses) in trace[i].answers
  {
    RunKeepsInv(trace, acts, ttl, i);
    assert PromiseOk(trace[i], p);
  }

  /** In every run an outcome, once given, stays. */
  lemma {:induction false} SetOnce(trace: seq<State>, acts: seq<Action>, ttl: nat, i: nat, j: nat, p: PromiseId)
    requires IsRun(trace, acts, ttl) && i <= j <= |acts| && p < |trace[i].outcome| && !trace[i].outcome[p].Unset?
    ensures p < |trace[j].outcome| && trace[j].outcome[p] == trace[i].outcome[p]
  {
    if i < j {
      SetOnce(trace, acts, ttl, i, j - 1, p);
      RunKeepsInv(trace, acts, ttl, j - 1);
      var s, a := trace[j - 1], acts[j - 1];
      assert Enabled(s, a);
      assert PromiseOk(s, p);
      if a.Deliver? {
        assert TaskOk(s, a.t);
      }
    }
  }

  /** In every run a purge leaves exactly the entries that have not expired, and their records. */
  lemma PurgesAreExact(trace: seq<State>, acts: seq<Action>, ttl: nat, i: nat, k: Key)
    requires IsRun(trace, acts, ttl) && i < |acts| && acts[i].Purge?
    ensures acts[i].t < |trace[i].tasks| && trace[i].tasks[acts[i].t].phase.Purging?
    ensures
      var now := trace[i].tasks[acts[i].t].phase.now;
      && (k in trace[i + 1].cache <==> k in trace[i].cache && trace[i].cache[k].expiry > now)
      && (k in trace[i + 1].cache ==> trace[i + 1].cache[k] == trace[i].cache[k])
      && (k in trace[i + 1].cache ==> Record(trace[i + 1].cache[k].expiry, k) in trace[i + 1].queue)
  {
    RunKeepsInv(trace, acts, ttl, i);
    RunKeepsInv(trace, acts, ttl, i + 1);
    assert Enabled(trace[i], acts[i]);
    PurgeIsExact(trace[i], trace[i].tasks[acts[i].t].phase.now, k);
    assert Recorded(trace[i + 1], k);
  }

  // ---------------------------------------------------------------- where an outcome comes from

  /** How far a task is that was answered, or failed, by action a. */
  predicate Told(phase: Phase, a: Action, t: nat) {
    match a
    case Fail(u) => u == t && phase == Delivering(Error)
    case Answer(u, x, now) => u == t && (phase == Counting(x, now) || phase == Purging(x, now) || phase == Delivering(Value(x)))
    case _ => false
  }

  ghost predicate IsSuffix(a: seq<PromiseId>, b: seq<PromiseId>) {
    |a| <= |b| && a == b[|b| - |a|..]
  }

  /** Step n of the run ended the resolution of task t, whose promises were those pending then. */
  ghost predicate EndedBy(trace: seq<State>, acts: seq<Action>, n: nat, t: nat, x: Task)
    requires |trace| == |acts| + 1
  {
    && n < |acts| && Told(x.phase, acts[n], t) && t < |trace[n].tasks| && trace[n].tasks[t].key == x.key
    && (x.waiters != [] ==> x.key in trace[n].pending && IsSuffix(x.waiters, trace[n].pending[x.key]))
  }

  lemma TaskStep(s: State, a: Action, t: nat)
    requires Enabled(s, a) && t < |s.tasks|
    ensures t < |Step(s, a).tasks| && Step(s, a).tasks[t].key == s.tasks[t].key
    ensures s.tasks[t].phase.Resolving? ==> Step(s, a).tasks[t] == s.tasks[t] || Told(Step(s, a).tasks[t].phase, a, t)
    ensures s.tasks[t].phase.Resolving? && Step(s, a).tasks[t] != s.tasks[t] ==>
      Step(s, a).tasks[t].waiters == if s.tasks[t].key in s.pending then s.pending[s.tasks[t].key] else []
    ensures !s.tasks[t].phase.Resolving? ==>
      && (Step(s, a).tasks[t].waiters == s.tasks[t].waiters || (s.tasks[t].waiters != [] && Step(s, a).tasks[t].waiters == s.tasks[t].waiters[1..]))
      && forall b :: Told(s.tasks[t].phase, b, t) ==> Told(Step(s, a).tasks[t].phase, b, t)
  {
  }

  lemma SuffixShrinks(a: seq<PromiseId>, b: seq<PromiseId>)
    requires IsSuffix(a, b) && a != []
    ensures IsSuffix(a[1..], b)
  {
  }

  /** The end of a resolution is an action of the run, and what the task hands out is what that action said. */
  lemma {:induction false} TaskStory(trace: seq<State>, acts: seq<Action>, ttl: nat, i: nat, t: nat) returns (n: nat)
    requires IsRun(trace, acts, ttl) && i <= |acts| && t < |trace[i].tasks| && !trace[i].tasks[t].phase.Resolving?
    ensures n < i && EndedBy(trace, acts, n, t, trace[i].tasks[t])
    decreases i
  {
    var s, a := trace[i - 1], acts[i - 1];
    assert Enabled(s, a) && trace[i] == Step(s, a);
    assert t < |s.tasks|;
    TaskStep(s, a, t);
    if s.tasks[t].phase.Resolving? {
      n := i - 1;
    } else {
      n := TaskStory(trace, acts, ttl, i - 1, t);
      if s.tasks[t].waiters != [] && trace[n].tasks[t].key in trace[n].pending {
        SuffixShrinks(s.tasks[t].waiters, trace[n].pending[s.tasks[t].key]);
      }
    }
  }

  lemma {:induction false} TtlStays(trace: seq<State>, acts: seq<Action>, ttl: nat, i: nat)
    requires IsRun(trace, acts, ttl) && i <= |acts|
    ensures trace[i].ttl == ttl
  {
    if i > 0 {
      TtlStays(trace, acts, ttl, i - 1);
      assert Enabled(trace[i - 1], acts[i - 1]);
    }
  }

  /** Action m is an answer for key k. */
  predicate AnswersKey(s: State, a: Action, k: Key) {
    a.Answer? && a.t < |s.tasks| && s.tasks[a.t].key == k
  }

  lemma CacheStep(s: State, a: Action, k: Key)
    requires Enabled(s, a) && k in Step(s, a).cache
    ensures AnswersKey(s, a, k) ==> Step(s, a).cache[k] == CacheEntry(a.addresses, a.now + s.ttl)
    ensures !AnswersKey(s, a, k) ==> k in s.cache && Step(s, a).cache[k] == s.cache[k]
  {
  }

  /** What is cached for a key is the latest answer for it, and expires ttl after that. */
  lemma {:induction false} CacheStory(trace: seq<State>, acts: seq<Action>, ttl: nat, i: nat, k: Key) returns (m: nat)
    requires IsRun(trace, acts, ttl) && i <= |acts| && k in trace[i].cache
    ensures m < i && AnswersKey(trace[m], acts[m], k) && trace[i].cache[k] == CacheEntry(acts[m].addresses, acts[m].now + ttl)
    ensures forall q {:trigger acts[q]} :: m < q < i ==> !AnswersKey(trace[q], acts[q], k)
    decreases i
  {
    var s, a := trace[i - 1], acts[i - 1];
    assert Enabled(s, a) && trace[i] == Step(s, a);
    TtlStays(trace, acts, ttl, i - 1);
    CacheStep(s, a, k);
    if AnswersKey(s, a, k) {
      m := i - 1;
    } else {
      m := CacheStory(trace, acts, ttl, i - 1, k);
    }
  }

  /** Promise p was set by step n, in which its task, ended by step m, delivered to it. */
  ghost predicate ByTask(trace: seq<State>, acts: seq<Action>, n: nat, m: nat, p: PromiseId, k: Key, o: Outcome)
    requires |trace| == |acts| + 1
  {
    && m < n < |acts| && acts[n].Deliver? && (acts[m] == Fail(acts[n].t) || (acts[m].Answer? && acts[m].t == acts[n].t))
    && acts[n].t < |trace[m].tasks| && trace[m].tasks[acts[n].t].key == k && k in trace[m].pending && p in trace[m].pending[k]
    && o == if acts[m].Fail? then Error else Value(acts[m].addresses)
  }

  /** Promise p was set when it was made, by step n, to the answer of step m, which had not expired. */
  ghost predicate ByCache(trace: seq<State>, acts: seq<Action>, ttl: nat, n: nat, m: nat, p: PromiseId, k: Key, o: Outcome)
    requires |trace| == |acts| + 1
  {
    && m < n < |acts| && acts[n].Resolve? && acts[n].key == k && p == |trace[n].outcome|
    && AnswersKey(trace[m], acts[m], k) && o == Value(acts[m].addresses) && acts[n].now < acts[m].now + ttl
    && forall q {:trigger acts[q]} :: m < q < n ==> !AnswersKey(trace[q], acts[q], k)
  }

  lemma DeliveredIs(trace: seq<State>, acts: seq<Action>, ttl: nat, n: nat, p: PromiseId) returns (m: nat)
    requires IsRun(trace, acts, ttl) && n < |acts| && acts[n].Deliver? && p < |trace[n].outcome| && trace[n].outcome[p].Unset?
    requires p < |trace[n + 1].outcome| && !trace[n + 1].outcome[p].Unset?
    ensures p < |trace[n].keyOf| && ByTask(trace, acts, n, m, p, trace[n].keyOf[p], trace[n + 1].outcome[p])
  {
    var s, t := trace[n], acts[n].t;
    assert Enabled(s, acts[n]) && trace[n + 1] == Step(s, acts[n]);
    RunKeepsInv(trace, acts, ttl, n);
    m := TaskStory(trace, acts, ttl, n, t);
    var all := trace[m].pending[s.tasks[t].key];
    assert s.tasks[t].waiters[0] == p;
    assert all[|all| - |s.tasks[t].waiters|] == p;
    assert PromiseOk(s, p) && TaskOk(s, t);
    assert InList(s, p, t);
  }

  /** A promise in a task's list is held for the task's key. */
  ghost predicate InList(s: State, p: PromiseId, t: nat) {
    p < |s.keyOf| && t < |s.tasks| && s.keyOf[p] == s.tasks[t].key
  }

  lemma CachedIs(trace: seq<State>, acts: seq<Action>, ttl: nat, n: nat, p: PromiseId) returns (m: nat)
    requires IsRun(trace, acts, ttl) && n < |acts| && p == |trace[n].outcome|
    requires p < |trace[n + 1].outcome| && !trace[n + 1].outcome[p].Unset?
    ensures p < |trace[n + 1].keyOf| && ByCache(trace, acts, ttl, n, m, p, trace[n + 1].keyOf[p], trace[n + 1].outcome[p])
  {
    var s, a := trace[n], acts[n];
    assert Enabled(s, a) && trace[n + 1] == Step(s, a);
    RunKeepsInv(trace, acts, ttl, n);
    m := CacheStory(trace, acts, ttl, n, a.key);
  }

  /**
   * In every run an outcome has its cause: the promise waited for a resolution of its key and got
   * what getaddrinfo said then, its addresses or an error; or it was answered at once with the
   * latest answer for its key, which had not expired.
   */
  lemma {:induction false} OutcomeHasCause(trace: seq<State>, acts: seq<Action>, ttl: nat, i: nat, p: PromiseId) returns (n: nat, m: nat)
    requires IsRun(trace, acts, ttl) && i <= |acts| && p < |trace[i].outcome| && !trace[i].outcome[p].Unset?
    ensures p < |trace[i].keyOf| && n < i
    ensures ByTask(trace, acts, n, m, p, trace[i].keyOf[p], trace[i].outcome[p]) || ByCache(trace, acts, ttl, n, m, p, trace[i].keyOf[p], trace[i].outcome[p])
    decreases i
  {
    var s, a := trace[i - 1], acts[i - 1];
    assert Enabled(s, a) && trace[i] == Step(s, a);
    RunKeepsInv(trace, acts, ttl, i - 1);
    RunKeepsInv(trace, acts, ttl, i);
    OutcomeStep(s, a, p);
    if p < |s.outcome| && !s.outcome[p].Unset? {
      n, m := OutcomeHasCause(trace, acts, ttl, i - 1, p);
      SetOnce(trace, acts, ttl, i - 1, i, p);
    } else {
      n := i - 1;
      if p < |s.outcome| {
        m := DeliveredIs(trace, acts, ttl, n, p);
      } else {
        m := CachedIs(trace, acts, ttl, n, p);
      }
    }
  }

  lemma OutcomeStep(s: State, a: Action, p: PromiseId)
    requires Enabled(s, a) && p < |Step(s, a).outcome| && |s.keyOf| == |s.outcome|
    ensures p < |s.outcome| ==> Step(s, a).keyOf[p] == s.keyOf[p] && (Step(s, a).outcome[p] != s.outcome[p] ==> a.Deliver?)
    ensures p >= |s.outcome| ==> p == |s.outcome| && a.Resolve?
  {
  }

  /** How many answers have been counted. */
  function Counted(acts: seq<Action>, n: nat): nat
    requires n <= |acts|
  {
    if n == 0 then 0 else Counted(acts, n - 1) + if acts[n - 1].Count? then 1 else 0
  }

  lemma {:induction false} CountedIs(trace: seq<State>, acts: seq<Action>, ttl: nat, i: nat)
    requires IsRun(trace, acts, ttl) && i <= |acts|
    ensures trace[i].writeCount == Counted(acts, i)
  {
    if i > 0 {
      CountedIs(trace, acts, ttl, i - 1);
      assert Enabled(trace[i - 1], acts[i - 1]);
    }
  }

  /** In every run the first answer, and every sixteenth after it, purges; the others deliver at once what they got. */
  lemma PurgesEverySixteenth(trace: seq<State>, acts: seq<Action>, ttl: nat, i: nat)
    requires IsRun(trace, acts, ttl) && i < |acts| && acts[i].Count?
    ensures Enabled(trace[i], acts[i])
    ensures
      var before, after := trace[i].tasks[acts[i].t].phase, trace[i + 1].tasks[acts[i].t].phase;
      after == if Counted(acts, i) % 16 == 0 then Purging(before.addresses, before.now) else Delivering(Value(before.addresses))
  {
    assert Enabled(trace[i], acts[i]);
    CountedIs(trace, acts, ttl, i);
  }

  // ---------------------------------------------------------------- the resolver's tables

  /** cache, expiryQueue and pending, as the critical sections update them. */
  class Tables {
    var cache: map<Key, CacheEntry>
    var queue: seq<Record>
    var pending: map<Key, seq<PromiseId>>

    constructor ()
      ensures cache == map[] && queue == [] && pending == map[]
    {
      cache, queue, pending := map[], [], map[];
    }

    /** The fields are the tables of a state of the resolver. */
    ghost predicate Show(s: State)
      reads this
    {
      cache == s.cache && queue == s.queue && pending == s.pending
    }

    /**
     * The critical section of resolveImpl: an answer, or whether a resolution must be started.
     * It does to the tables what the step does, the answer is the one the step gives the new
     * promise, and a resolution is started exactly where the step starts a task.
     */
    method Ask(k: Key, p: PromiseId, now: Time, ghost s: State) returns (hit: Option<Addresses>, newTask: bool)
      requires Show(s) && p == |s.outcome|
      modifies this`pending
      ensures Show(Step(s, Resolve(k, now)))
      ensures Step(s, Resolve(k, now)).outcome[p] == if hit.Some? then Value(hit.value) else Unset
      ensures newTask <==> |Step(s, Resolve(k, now)).tasks| > |s.tasks|
    {
      if k in cache && now < cache[k].expiry {
        return Some(cache[k].addresses), false;
      }
      hit := None;
      if k in pending {
        pending := pending[k := pending[k] + [p]];
        newTask := false;
      } else {
        pending := pending[k := [p]];
        newTask := true;
      }
    }

    /** The critical section in which a task stores its answer, and takes the promises that it has to set. */
    method Store(k: Key, addresses: Addresses, ttl: nat, now: Time, ghost s: State, ghost t: nat) returns (waiters: seq<PromiseId>)
      requires Show(s) && Enabled(s, Answer(t, addresses, now)) && k == s.tasks[t].key && ttl == s.ttl
      modifies this
      ensures Show(Step(s, Answer(t, addresses, now))) && waiters == Step(s, Answer(t, addresses, now)).tasks[t].waiters
    {
      var expiry := now + ttl;
      cache := cache[k := CacheEntry(addresses, expiry)];
      queue := queue + [Record(expiry, k)];
      waiters := TakeWaiters(k);
    }

    /** The critical section of a task that failed. */
    method Abandon(k: Key, ghost s: State, ghost t: nat) returns (waiters: seq<PromiseId>)
      requires Show(s) && Enabled(s, Fail(t)) && k == s.tasks[t].key
      modifies this`pending
      ensures Show(Step(s, Fail(t))) && waiters == Step(s, Fail(t)).tasks[t].waiters
    {
      waiters := TakeWaiters(k);
    }

    method TakeWaiters(k: Key) returns (waiters: seq<PromiseId>)
      modifies this`pending
      ensures pending == old(pending) - {k} && waiters == if k in old(pending) then old(pending)[k] else []
    {
      waiters := [];
      if k in pending {
        waiters := pending[k];
        pending := pending - {k};
      } else {
        assert pending - {k} == pending;
      }
    }

    /** The purge loop, over the queue in order of expiry. */
    method PurgeExpired(now: Time)
      modifies this`cache, this`queue
      ensures cache == Purged(old(cache), old(queue), now) && queue == Unexpired(old(queue), now)
    {
      ghost var all := old(queue);
      assert Purged(cache, queue, now) == Purged(old(cache), all, now);
      while queue != []
        invariant Unexpired(queue, now) == Unexpired(all, now)
        invariant Purged(cache, queue, now) == Purged(old(cache), all, now)
        decreases |queue|
      {
        var i := Top();
        if queue[i].expiry > now {
          break;
        }
        var top := queue[i];
        RemoveExpired(cache, queue, i, now);
        if top.key in cache && cache[top.key].expiry <= now {
          cache := cache - {top.key};
        }
        queue := queue[..i] + queue[i + 1..];
      }
      NothingExpired(queue, now);
      assert forall k | k in cache :: !HasExpired(queue, k, now);
      assert Purged(cache, queue, now) == cache;
    }

    /** The position of a record that expires first. */
    method Top() returns (i: nat)
      requires queue != []
      ensures i < |queue| && forall j :: 0 <= j < |queue| ==> queue[i].expiry <= queue[j].expiry
    {
      i := 0;
      var n := 1;
      while n < |queue|
        invariant i < n <= |queue| && forall j :: 0 <= j < n ==> queue[i].expiry <= queue[j].expiry
      {
        if queue[n].expiry < queue[i].expiry {
          i := n;
        }
        n := n + 1;
      }
    }
  }

  lemma {:induction false} UnexpiredWithout(queue: seq<Record>, i: nat, now: Time)
    requires i < |queue| && queue[i].expiry <= now
    ensures Unexpired(queue[..i] + queue[i + 1..], now) == Unexpired(queue, now)
  {
    var n := |queue| - 1;
    var less := queue[..i] + queue[i + 1..];
    if i == n {
      assert less == queue[..n];
    } else {
      UnexpiredWithout(queue[..n], i, now);
      assert less[..n - 1] == queue[..n][..i] + queue[..n][i + 1..] && less[n - 1] == queue[n];
    }
  }

  /** Taking an expired record off, and its entry with it if that has expired, does not change what a purge leaves. */
  lemma RemoveExpired(cache: map<Key, CacheEntry>, queue: seq<Record>, i: nat, now: Time)
    requires i < |queue| && queue[i].expiry <= now
    ensures
      var less, k := queue[..i] + queue[i + 1..], queue[i].key;
      && Unexpired(less, now) == Unexpired(queue, now)
      && Purged(if k in cache && cache[k].expiry <= now then cache - {k} else cache, less, now) == Purged(cache, queue, now)
  {
    var less, k := queue[..i] + queue[i + 1..], queue[i].key;
    UnexpiredWithout(queue, i, now);
    assert HasExpired(queue, k, now);
    forall x | x != k ensures HasExpired(less, x, now) == HasExpired(queue, x, now) {
      if j :| 0 <= j < |queue| && queue[j].key == x && queue[j].expiry <= now {
        assert less[if j < i then j else j - 1] == queue[j];
      }
      if j :| 0 <= j < |less| && less[j].key == x && less[j].expiry <= now {
        assert queue[if j < i then j else j + 1] == less[j];
      }
    }
  }

  lemma {:induction false} NothingExpired(queue: seq<Record>, now: Time)
    requires forall j :: 0 <= j < |queue| ==> queue[j].expiry > now
    ensures Unexpired(queue, now) == queue
  {
    if queue != [] {
      NothingExpired(queue[..|queue| - 1], now);
    }
  }

  // ---------------------------------------------------------------- cache keys

  const Bar: byte := 124

  function CacheKey(host: seq<byte>, service: seq<byte>, family: nat): Key {
    host + [Bar] + (service + [Bar] + Digits(family, Decimal))
  }

  /** Two splits of one string at a separator that neither first part contains are the same split. */
  lemma SplitFirst(a: Key, x: Key, b: Key, y: Key)
    requires a + [Bar] + x == b + [Bar] + y && Bar !in a && Bar !in b
    ensures a == b && x == y
  {
    var s, t := a + [Bar] + x, b + [Bar] + y;
    assert s[|a|] == Bar && t[|b|] == Bar;
    assert forall i :: 0 <= i < |a| ==> s[i] == a[i] != Bar;
    assert forall i :: 0 <= i < |b| ==> t[i] == b[i] != Bar;
    assert |a| == |b|;
    assert a == s[..|a|] && b == t[..|b|] && x == s[|a| + 1..] && y == t[|b| + 1..];
  }

  lemma SplitLast(a: Key, x: Key, b: Key, y: Key)
    requires a + [Bar] + x == b + [Bar] + y && Bar !in x && Bar !in y
    ensures a == b && x == y
  {
    var s, t := a + [Bar] + x, b + [Bar] + y;
    assert s[|a|] == Bar && t[|b|] == Bar;
    assert forall i :: |a| < i < |s| ==> s[i] == x[i - |a| - 1] != Bar;
    assert forall i :: |b| < i < |t| ==> t[i] == y[i - |b| - 1] != Bar;
    assert |a| == |b|;
    assert a == s[..|a|] && b == t[..|b|] && x == s[|a| + 1..] && y == t[|b| + 1..];
  }

  lemma NoBarInDigits(n: nat)
    ensures Bar !in Digits(n, Decimal)
  {
    var d := Digits(n, Decimal);
    forall i | 0 <= i < |d| ensures d[i] != Bar { assert IsDigit(d[i], Decimal); }
  }

  /** Different questions have different keys, as long as host names have no bar in them. */
  lemma CacheKeyInjective(h1: Key, s1: Key, f1: nat, h2: Key, s2: Key, f2: nat)
    requires Bar !in h1 && Bar !in h2 && CacheKey(h1, s1, f1) == CacheKey(h2, s2, f2)
    ensures h1 == h2 && s1 == s2 && f1 == f2
  {
    var d1, d2 := Digits(f1, Decimal), Digits(f2, Decimal);
    SplitFirst(h1, s1 + [Bar] + d1, h2, s2 + [Bar] + d2);
    NoBarInDigits(f1);
    NoBarInDigits(f2);
    SplitLast(s1, d1, s2, d2);
    ValueOfDigits(f1, Decimal);
    ValueOfDigits(f2, Decimal);
  }

  /** A bar in a host name or a service makes two questions share a key. */
  lemma CacheKeyCollides(a: Key, b: Key, c: Key, family: nat)
    ensures CacheKey(a + Ascii("|") + b, c, family) == CacheKey(a, b + Ascii("|") + c, family)
  {
    var d := Digits(family, Decimal);
    assert Ascii("|") == [Bar];
    assert (a + [Bar] + b) + [Bar] + (c + [Bar] + d) == a + [Bar] + ((b + [Bar] + c) + [Bar] + d);
  }

  // ---------------------------------------------------------------- questions that share a key

  const AnyFamily := 0

  /** The questions that the two overloads of resolve can ask: a service for any family, or a family without a service. */
  predicate Askable(service: Key, family: nat) {
    family == AnyFamily || service == []
  }

  /** Another question that can be asked has the same key. */
  ghost predicate SharesKey(host: Key, service: Key, family: nat) {
    exists h, s, f: nat :: CacheKey(h, s, f) == CacheKey(host, service, family) && Askable(s, f) && (h != host || s != service || f != family)
  }

  lemma BarInHostShares(host: Key, service: Key)
    requires Bar in host
    ensures SharesKey(host, service, AnyFamily)
  {
    var i :| 0 <= i < |host| && host[i] == Bar;
    var a, b := host[..i], host[i + 1..];
    assert host == a + [Bar] + b;
    CacheKeyCollides(a, b, service, AnyFamily);
    assert CacheKey(a, b + [Bar] + service, AnyFamily) == CacheKey(host, service, AnyFamily) && |a| < |host|;
  }

  lemma BarInServiceShares(host: Key, service: Key)
    requires Bar in service
    ensures SharesKey(host, service, AnyFamily)
  {
    var i :| 0 <= i < |service| && service[i] == Bar;
    var b, c := service[..i], service[i + 1..];
    assert service == b + [Bar] + c;
    CacheKeyCollides(host, b, c, AnyFamily);
    assert CacheKey(host + [Bar] + b, c, AnyFamily) == CacheKey(host, service, AnyFamily) && |c| < |service|;
  }

  /** Questions with one key ask for the same family, and their hosts and services read the same with the bar between. */
  lemma SameKey(h1: Key, s1: Key, f1: nat, h2: Key, s2: Key, f2: nat)
    requires CacheKey(h1, s1, f1) == CacheKey(h2, s2, f2)
    ensures f1 == f2 && h1 + [Bar] + s1 == h2 + [Bar] + s2
  {
    var d1, d2 := Digits(f1, Decimal), Digits(f2, Decimal);
    assert CacheKey(h1, s1, f1) == (h1 + [Bar] + s1) + [Bar] + d1;
    assert CacheKey(h2, s2, f2) == (h2 + [Bar] + s2) + [Bar] + d2;
    NoBarInDigits(f1);
    NoBarInDigits(f2);
    SplitLast(h1 + [Bar] + s1, d1, h2 + [Bar] + s2, d2);
    ValueOfDigits(f1, Decimal);
    ValueOfDigits(f2, Decimal);
  }

  function Bars(s: Key): nat {
    multiset(s)[Bar]
  }

  lemma NoBarOwnKey(h: Key, s: Key, host: Key, service: Key)
    requires Bar !in host && Bar !in service && h + [Bar] + s == host + [Bar] + service
    ensures h == host && s == service
  {
    assert Bars(h + [Bar] + s) == Bars(h) + Bars(s) + 1 && Bars(host + [Bar] + service) == 1;
    SplitFirst(h, s, host, service);
  }

  lemma NoServiceOwnKey(h: Key, host: Key)
    requires h + [Bar] + [] == host + [Bar] + []
    ensures h == host
  {
    assert h == (h + [Bar] + [])[..|h|] && host == (host + [Bar] + [])[..|host|] && |h| == |host|;
  }

  /**
   * Exactly then: a question that can be asked shares its key with another one if and only if
   * it is for any family and its host or its service has a bar in it.
   */
  lemma SharesKeyIff(host: Key, service: Key, family: nat)
    requires Askable(service, family)
    ensures SharesKey(host, service, family) <==> family == AnyFamily && (Bar in host || Bar in service)
  {
    if family == AnyFamily && Bar in host {
      BarInHostShares(host, service);
    } else if family == AnyFamily && Bar in service {
      BarInServiceShares(host, service);
    } else if SharesKey(host, service, family) {
      var h, s, f: nat :| CacheKey(h, s, f) == CacheKey(host, service, family) && Askable(s, f) && (h != host || s != service || f != family);
      SameKey(h, s, f, host, service, family);
      if family == AnyFamily {
        NoBarOwnKey(h, s, host, service);
      } else {
        NoServiceOwnKey(h, host);
      }
    }
  }

  /**
   * What that means: whatever addresses getaddrinfo gives for one question, the other is
   * answered with them as long as they are cached, and has no resolution of its own.
   */
  lemma SharedKeyIsServed(h1: Key, s1: Key, h2: Key, s2: Key, family: nat, addresses: Addresses, now: Time, ttl: nat)
    returns (trace: seq<State>, acts: seq<Action>)
    requires CacheKey(h1, s1, family) == CacheKey(h2, s2, family) && ttl > 0
    ensures acts == [Resolve(CacheKey(h1, s1, family), now), Answer(0, addresses, now), Resolve(CacheKey(h2, s2, family), now)]
    ensures IsRun(trace, acts, ttl) && |trace[3].outcome| == 2 && trace[3].outcome[1] == Value(addresses) && |trace[3].tasks| == 1
  {
    var k := CacheKey(h1, s1, family);
    acts := [Resolve(k, now), Answer(0, addresses, now), Resolve(CacheKey(h2, s2, family), now)];
    var t0 := Start(ttl);
    var t1 := Step(t0, acts[0]);
    assert t1.tasks == [Task(k, Resolving, [])];
    var t2 := Step(t1, acts[1]);
    assert k in t2.cache && t2.cache[k] == CacheEntry(addresses, now + ttl);
    trace := [t0, t1, t2, Step(t2, acts[2])];
  }
}
