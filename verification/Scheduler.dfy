/**
 * The event loop of Scheduler.cc against any number of foreign threads that queue a task
 * or a timer and then write the wakeup eventfd. The two MPSC queues appear as the ticket
 * queues that MpscQueue.RunRefines shows them to be.
 */
module Scheduler {
  import opened Prelude
  import opened TicketQueue

  type Pid = nat
  type Time = int  // nanoseconds on the steady clock

  datatype Timer = Timer(when: Time, handle: nat)
  datatype Task = Func(id: nat) | Fire(timer: Timer)
  datatype Which = ReadyQ | TimerQ

  /** A foreign thread inside schedule / schedule_at, after its tail exchange. */
  datatype Producer = Linking(which: Which, ticket: nat) | Waking(which: Which, ticket: nat)

  datatype Loop =
    | Collecting                                                        // get_next_timeout, popping pendingTimers_
    | Waiting(since: Time, top: Option<Timer>, until: Option<Time>)     // epoll_wait; `until` None: no timeout
    | Woken                                                             // the rest of process_io_events
    | Firing(cutoff: Time)                                              // process_timers
    | Running                                                           // process_ready_queue

  /**
   * `own` is the loop thread's half-finished push. History: `readyBy` and `timersBy` give
   * each ticket's pusher, None for the loop thread itself.
   */
  datatype State = State(
    ready: Queue<Task>, readyBy: seq<Option<Pid>>,
    timers: Queue<Timer>, timersBy: seq<Option<Pid>>,
    heap: multiset<Timer>, eventfd: nat, now: Time,
    loop: Loop, own: Option<Producer>, producers: map<Pid, Producer>)

  datatype Action =
    | PushTask(p: Pid, id: nat) | PushTimer(p: Pid, t: Timer)   // foreign exchange
    | LinkNode(p: Pid)                                          // foreign link store
    | WriteEventfd(p: Pid)                                      // wakeup()
    | OwnTask(id: nat) | OwnTimer(t: Timer) | OwnLink           // pushes by code the loop runs
    | Tick(d: nat)
    | Collect | Sleep(top: Option<Timer>)
    | EpollReturns | ReadEventfd | EventsDone
    | FireOne(t: Timer) | FiringDone
    | RunOne

  const KDefaultTimeoutMs := 10000
  const NsPerMs := 1_000_000

  /** get_next_timeout: the milliseconds it returns for the earliest known timer. */
  function NextTimeoutMs(now: Time, top: Option<Timer>): (ms: nat)
    ensures top.Some? && now < top.value.when ==>
      now + ms * 1_000_000 <= top.value.when < now + (ms + 1) * 1_000_000
    ensures top.Some? && top.value.when <= now ==> ms == 0
    ensures top.None? ==> ms == 10000
  {
    match top
    case None => KDefaultTimeoutMs
    case Some(t) => if t.when <= now then 0 else (t.when - now) / NsPerMs
  }

  /** static_cast<int>: the low 32 bits, read as two's complement. */
  function CastToInt(ms: nat): (r: int)
    ensures -0x8000_0000 <= r < 0x8000_0000 && (r - ms) % 0x1_0000_0000 == 0
  {
    var low := ms % 0x1_0000_0000;
    if low < 0x8000_0000 then low else low - 0x1_0000_0000
  }

  /** When epoll_wait gives up on its own; a negative timeout means never. */
  function Deadline(now: Time, top: Option<Timer>): Option<Time> {
    var c := CastToInt(NextTimeoutMs(now, top));
    if c < 0 then None else Some(now + c * NsPerMs)
  }

  predicate IsTop(heap: multiset<Timer>, top: Option<Timer>) {
    match top
    case None => heap == multiset{}
    case Some(t) => t in heap && forall u :: u in heap ==> t.when <= u.when
  }

  function Init(now: Time): State {
    State(EmptyQueue(), [], EmptyQueue(), [], multiset{}, 0, now, Collecting, None, map[])
  }

  /** Code running on the loop thread: I/O handlers, and tasks taken from the ready queue. */
  predicate UserCodeRuns(s: State) {
    (s.loop.Woken? || s.loop.Running?) && s.own.None?
  }

  predicate Enabled(s: State, a: Action) {
    match a
    case PushTask(p, _) => p !in s.producers
    case PushTimer(p, _) => p !in s.producers
    case LinkNode(p) => p in s.producers && s.producers[p].Linking?
    case WriteEventfd(p) => p in s.producers && s.producers[p].Waking?
    case OwnTask(_) => UserCodeRuns(s)
    case OwnTimer(_) => UserCodeRuns(s)
    case OwnLink => s.own.Some?
    case Tick(_) => true
    case Collect => s.loop.Collecting? && s.timers.CanTake()
    case Sleep(top) => s.loop.Collecting? && !s.timers.CanTake() && IsTop(s.heap, top)
    case EpollReturns => s.loop.Waiting?
    case ReadEventfd => s.loop.Woken? && s.own.None? && s.eventfd > 0
    case EventsDone => s.loop.Woken? && s.own.None?
    case FireOne(t) => s.loop.Firing? && s.own.None? && IsTop(s.heap, Some(t)) && t.when <= s.loop.cutoff
    case FiringDone => s.loop.Firing? && s.own.None? && forall t :: t in s.heap ==> s.loop.cutoff < t.when
    case RunOne => s.loop.Running? && s.own.None?
  }

  function PushReady(s: State, task: Task, who: Option<Pid>): State {
    s.(ready := s.ready.Append(task), readyBy := s.readyBy + [who])
  }

  function PushPending(s: State, t: Timer, who: Option<Pid>): State {
    s.(timers := s.timers.Append(t), timersBy := s.timersBy + [who])
  }

  function Linked(s: State, r: Producer): State {
    if r.which.ReadyQ? then s.(ready := s.ready.SetLinked(r.ticket)) else s.(timers := s.timers.SetLinked(r.ticket))
  }

  function Step(s: State, a: Action): State
    requires Enabled(s, a)
  {
    match a
    case PushTask(p, id) =>
      PushReady(s, Func(id), Some(p)).(producers := s.producers[p := Linking(ReadyQ, |s.ready.values|)])
    case PushTimer(p, t) =>
      PushPending(s, t, Some(p)).(producers := s.producers[p := Linking(TimerQ, |s.timers.values|)])
    case LinkNode(p) =>
      var r := s.producers[p];
      Linked(s, r).(producers := s.producers[p := Waking(r.which, r.ticket)])
    case WriteEventfd(p) => s.(eventfd := s.eventfd + 1, producers := s.producers - {p})
    case OwnTask(id) => PushReady(s, Func(id), None).(own := Some(Linking(ReadyQ, |s.ready.values|)))
    case OwnTimer(t) => PushPending(s, t, None).(own := Some(Linking(TimerQ, |s.timers.values|)))
    case OwnLink => Linked(s, s.own.value).(own := None)
    case Tick(d) => s.(now := s.now + d)
    case Collect => s.(heap := s.heap + multiset{s.timers.values[s.timers.taken]}, timers := s.timers.Take())
    case Sleep(top) => s.(loop := Waiting(s.now, top, Deadline(s.now, top)))
    case EpollReturns => s.(loop := Woken)
    case ReadEventfd => s.(eventfd := 0)
    case EventsDone => s.(loop := Firing(s.now))
    case FireOne(t) =>
      PushReady(s, Fire(t), None).(heap := s.heap - multiset{t}, own := Some(Linking(ReadyQ, |s.ready.values|)))
    case FiringDone => s.(loop := Running)
    case RunOne => if s.ready.CanTake() then s.(ready := s.ready.Take()) else s.(loop := Collecting)
  }

  ghost predicate IsRun(trace: seq<State>, acts: seq<Action>, start: Time) {
    && |trace| == |acts| + 1 && trace[0] == Init(start)
    && forall i :: 0 <= i < |acts| ==> Enabled(trace[i], acts[i]) && trace[i + 1] == Step(trace[i], acts[i])
  }

  // ---------------------------------------------------------------- invariant: wakeups

  /** The pusher of ticket t of a queue still has its link to store. */
  predicate MidLink(s: State, which: Which, who: seq<Option<Pid>>, t: nat) {
    t < |who| &&
    match who[t]
    case Some(p) => p in s.producers && s.producers[p] == Linking(which, t)
    case None => s.own == Some(Linking(which, t))
  }

  /** A foreign pusher of ticket t has not finished its wakeup write. */
  predicate Unfinished(s: State, which: Which, who: seq<Option<Pid>>, t: nat) {
    t < |who| && who[t].Some? && who[t].value in s.producers
    && s.producers[who[t].value] in {Linking(which, t), Waking(which, t)}
  }

  ghost predicate QueueOk<T>(s: State, which: Which, q: Queue<T>, who: seq<Option<Pid>>) {
    && q.Valid() && |who| == |q.values|
    && forall t :: 0 <= t < |who| ==> (!q.linked[t] <==> MidLink(s, which, who, t))
  }

  ghost predicate TicketsOk(s: State) {
    && (forall p :: p in s.producers ==>
      var r := s.producers[p];
      var who := if r.which.ReadyQ? then s.readyBy else s.timersBy;
      r.ticket < |who| && who[r.ticket] == Some(p))
    && (s.own.Some? ==>
      var r := s.own.value;
      var who := if r.which.ReadyQ? then s.readyBy else s.timersBy;
      r.Linking? && r.ticket < |who| && who[r.ticket] == None && !s.loop.Collecting? && !s.loop.Waiting?)
  }

  /** Queue contents the loop has already missed are announced by a wakeup, written or still to come. */
  ghost predicate Announced<T>(s: State, which: Which, q: Queue<T>, who: seq<Option<Pid>>) {
    s.eventfd > 0 || q.taken >= |q.values| || Unfinished(s, which, who, q.taken)
  }

  ghost predicate Inv(s: State) {
    && QueueOk(s, ReadyQ, s.ready, s.readyBy) && QueueOk(s, TimerQ, s.timers, s.timersBy) && TicketsOk(s)
    && (s.loop.Collecting? || s.loop.Waiting? ==> Announced(s, ReadyQ, s.ready, s.readyBy))
    && (s.loop.Waiting? ==>
      && Announced(s, TimerQ, s.timers, s.timersBy)
      && IsTop(s.heap, s.loop.top) && s.loop.until == Deadline(s.loop.since, s.loop.top))
  }

  lemma PushTaskKeepsInv(s: State, p: Pid, id: nat)
    requires Inv(s) && Enabled(s, PushTask(p, id))
    ensures Inv(Step(s, PushTask(p, id)))
  {
  }

  lemma PushTimerKeepsInv(s: State, p: Pid, t: Timer)
    requires Inv(s) && Enabled(s, PushTimer(p, t))
    ensures Inv(Step(s, PushTimer(p, t)))
  {
  }

  /** A link store, for one queue: if it is the queue the thread pushed to, its ticket is linked now. */
  lemma LinkNodeQueue<T>(s: State, p: Pid, which: Which, q: Queue<T>, who: seq<Option<Pid>>)
    requires Enabled(s, LinkNode(p)) && QueueOk(s, which, q, who)
    requires s.producers[p].which == which ==> s.producers[p].ticket < |who| && who[s.producers[p].ticket] == Some(p)
    ensures QueueOk(Step(s, LinkNode(p)), which, if s.producers[p].which == which then q.SetLinked(s.producers[p].ticket) else q, who)
  {
  }

  lemma LinkNodeKeepsInv(s: State, p: Pid)
    requires Inv(s) && Enabled(s, LinkNode(p))
    ensures Inv(Step(s, LinkNode(p)))
  {
    LinkNodeQueue(s, p, ReadyQ, s.ready, s.readyBy);
    LinkNodeQueue(s, p, TimerQ, s.timers, s.timersBy);
  }

  lemma WriteEventfdKeepsInv(s: State, p: Pid)
    requires Inv(s) && Enabled(s, WriteEventfd(p))
    ensures Inv(Step(s, WriteEventfd(p)))
  {
  }

  lemma OwnTaskKeepsInv(s: State, id: nat)
    requires Inv(s) && Enabled(s, OwnTask(id))
    ensures Inv(Step(s, OwnTask(id)))
  {
  }

  lemma OwnTimerKeepsInv(s: State, t: Timer)
    requires Inv(s) && Enabled(s, OwnTimer(t))
    ensures Inv(Step(s, OwnTimer(t)))
  {
  }

  lemma OwnLinkKeepsInv(s: State)
    requires Inv(s) && Enabled(s, OwnLink)
    ensures Inv(Step(s, OwnLink))
  {
  }

  lemma CollectKeepsInv(s: State)
    requires Inv(s) && Enabled(s, Collect)
    ensures Inv(Step(s, Collect))
  {
  }

  lemma SleepKeepsInv(s: State, top: Option<Timer>)
    requires Inv(s) && Enabled(s, Sleep(top))
    ensures Inv(Step(s, Sleep(top)))
  {
  }

  lemma FireOneKeepsInv(s: State, t: Timer)
    requires Inv(s) && Enabled(s, FireOne(t))
    ensures Inv(Step(s, FireOne(t)))
  {
  }

  lemma RunOneKeepsInv(s: State)
    requires Inv(s) && Enabled(s, RunOne)
    ensures Inv(Step(s, RunOne))
  {
  }

  lemma StepKeepsInv(s: State, a: Action)
    requires Inv(s) && Enabled(s, a)
    ensures Inv(Step(s, a))
  {
    match a
    case PushTask(p, id) => PushTaskKeepsInv(s, p, id);
    case PushTimer(p, t) => PushTimerKeepsInv(s, p, t);
    case LinkNode(p) => LinkNodeKeepsInv(s, p);
    case WriteEventfd(p) => WriteEventfdKeepsInv(s, p);
    case OwnTask(id) => OwnTaskKeepsInv(s, id);
    case OwnTimer(t) => OwnTimerKeepsInv(s, t);
    case OwnLink => OwnLinkKeepsInv(s);
    case Collect => CollectKeepsInv(s);
    case Sleep(top) => SleepKeepsInv(s, top);
    case FireOne(t) => FireOneKeepsInv(s, t);
    case RunOne => RunOneKeepsInv(s);
    case _ =>
  }

  lemma {:induction false} RunKeepsInv(trace: seq<State>, acts: seq<Action>, start: Time, i: nat)
    requires IsRun(trace, acts, start) && i < |trace|
    ensures Inv(trace[i])
  {
    if i > 0 {
      RunKeepsInv(trace, acts, start, i - 1);
      StepKeepsInv(trace[i - 1], acts[i - 1]);
    }
  }

  /** Ticket t stands at or behind a push whose wakeup is still to come. */
  ghost predicate WakeupOnTheWay(s: State, which: Which, who: seq<Option<Pid>>, taken: nat, t: nat) {
    exists u :: taken <= u <= t && Unfinished(s, which, who, u)
  }

  /**
   * No lost wakeup: while the loop sleeps in epoll_wait and the eventfd is zero, every
   * queued task and every pending timer is at or behind a push whose thread has not
   * yet finished its wakeup write.
   */
  lemma NoLostWakeup(trace: seq<State>, acts: seq<Action>, start: Time, i: nat)
    requires IsRun(trace, acts, start) && i < |trace|
    requires trace[i].loop.Waiting? && trace[i].eventfd == 0
    ensures forall t :: trace[i].ready.taken <= t < |trace[i].ready.values| ==>
      WakeupOnTheWay(trace[i], ReadyQ, trace[i].readyBy, trace[i].ready.taken, t)
    ensures forall t :: trace[i].timers.taken <= t < |trace[i].timers.values| ==>
      WakeupOnTheWay(trace[i], TimerQ, trace[i].timersBy, trace[i].timers.taken, t)
  {
    RunKeepsInv(trace, acts, start, i);
    var s := trace[i];
    forall t | s.ready.taken <= t < |s.ready.values| ensures WakeupOnTheWay(s, ReadyQ, s.readyBy, s.ready.taken, t) {
      assert Unfinished(s, ReadyQ, s.readyBy, s.ready.taken);
    }
    forall t | s.timers.taken <= t < |s.timers.values| ensures WakeupOnTheWay(s, TimerQ, s.timersBy, s.timers.taken, t) {
      assert Unfinished(s, TimerQ, s.timersBy, s.timers.taken);
    }
  }

  /** Each such thread needs at most its own two remaining steps to raise the eventfd. */
  lemma UnfinishedPushWakes(s: State, which: Which, t: nat) returns (acts: seq<Action>, s': State)
    requires Unfinished(s, which, if which.ReadyQ? then s.readyBy else s.timersBy, t)
    ensures 1 <= |acts| <= 2 && s'.eventfd > s.eventfd
    ensures Enabled(s, acts[0])
    ensures if |acts| == 1 then s' == Step(s, acts[0])
            else Enabled(Step(s, acts[0]), acts[1]) && s' == Step(Step(s, acts[0]), acts[1])
  {
    var p := (if which.ReadyQ? then s.readyBy else s.timersBy)[t].value;
    if s.producers[p].Waking? {
      acts, s' := [WriteEventfd(p)], Step(s, WriteEventfd(p));
    } else {
      var m := Step(s, LinkNode(p));
      acts, s' := [LinkNode(p), WriteEventfd(p)], Step(m, WriteEventfd(p));
    }
  }

  // ---------------------------------------------------------------- timers

  /** The earliest timer's distance survives the cast to the int that epoll_wait takes. */
  predicate TimeoutFits(now: Time, top: Option<Timer>) {
    NextTimeoutMs(now, top) % 0x1_0000_0000 < 0x8000_0000
  }

  /**
   * While the loop sleeps it will get up by itself no later than the first timer it knows
   * exactly when that timer's distance in milliseconds, modulo 2^32, is below 2^31; otherwise
   * it sleeps for good.
   */
  lemma SleepsNoLongerThanFirstTimer(trace: seq<State>, acts: seq<Action>, start: Time, i: nat)
    requires IsRun(trace, acts, start) && i < |trace| && trace[i].loop.Waiting? && trace[i].heap != multiset{}
    ensures trace[i].loop.top.Some?
    ensures var Waiting(since, top, until) := trace[i].loop;
      && (TimeoutFits(since, top) <==>
          until.Some? && forall t :: t in trace[i].heap ==> until.value <= t.when || until.value <= since)
      && (!TimeoutFits(since, top) <==> until.None?)
  {
    RunKeepsInv(trace, acts, start, i);
    var Waiting(since, top, until) := trace[i].loop;
    var ms := NextTimeoutMs(since, top);
    if TimeoutFits(since, top) {
      assert CastToInt(ms) <= ms;
    }
  }

  /** One more step of a run. */
  lemma Do(trace: seq<State>, acts: seq<Action>, start: Time, a: Action) returns (more: seq<State>, did: seq<Action>)
    requires IsRun(trace, acts, start) && Enabled(trace[|acts|], a)
    ensures IsRun(more, did, start) && more[|did|] == Step(trace[|acts|], a)
  {
    more, did := trace + [Step(trace[|acts|], a)], acts + [a];
    forall i {:trigger did[i]} | 0 <= i < |did| ensures Enabled(more[i], did[i]) && more[i + 1] == Step(more[i], did[i]) {
      if i < |acts| {
        assert did[i] == acts[i];
      }
    }
  }

  /** The queue of timers after one was pushed, linked and collected. */
  function OneTaken(t: Timer): Queue<Timer> {
    Queue([t], [true], 1)
  }

  /** A thread sets a timer and wakes the loop, which collects it and goes to sleep. */
  lemma TimerCollected(start: Time, t: Timer) returns (trace: seq<State>, acts: seq<Action>)
    ensures IsRun(trace, acts, start)
    ensures trace[|acts|] == Init(start).(timers := OneTaken(t), timersBy := [Some(1)], heap := multiset{t}, eventfd := 1)
  {
    trace, acts := [Init(start)], [];
    trace, acts := Do(trace, acts, start, PushTimer(1, t));
    assert [] + [t] == [t];
    trace, acts := Do(trace, acts, start, LinkNode(1));
    assert trace[|acts|].timers == Queue([t], [true], 0);
    trace, acts := Do(trace, acts, start, WriteEventfd(1));
    trace, acts := Do(trace, acts, start, Collect);
  }

  /** The loop sees the wakeup, finds nothing due, and is back where it computes its timeout. */
  lemma WakeupConsumed(trace: seq<State>, acts: seq<Action>, start: Time, t: Timer) returns (more: seq<State>, did: seq<Action>)
    requires IsRun(trace, acts, start) && start < t.when
    requires trace[|acts|] == Init(start).(timers := OneTaken(t), timersBy := [Some(1)], heap := multiset{t}, eventfd := 1)
    ensures IsRun(more, did, start)
    ensures more[|did|] == Init(start).(timers := OneTaken(t), timersBy := [Some(1)], heap := multiset{t})
  {
    more, did := Do(trace, acts, start, Sleep(Some(t)));
    more, did := Do(more, did, start, EpollReturns);
    more, did := Do(more, did, start, ReadEventfd);
    more, did := NothingToDo(more, did, start, more[|did|], t);
  }

  /** A round of the loop in which no timer is due and no task is queued. */
  lemma NothingToDo(trace: seq<State>, acts: seq<Action>, start: Time, s: State, t: Timer) returns (more: seq<State>, did: seq<Action>)
    requires IsRun(trace, acts, start) && trace[|acts|] == s && s.loop.Woken? && s.own.None?
    requires s.heap == multiset{t} && s.now < t.when && !s.ready.CanTake()
    ensures IsRun(more, did, start) && more[|did|] == s.(loop := Collecting)
  {
    more, did := Do(trace, acts, start, EventsDone);
    more, did := Do(more, did, start, FiringDone);
    more, did := Do(more, did, start, RunOne);
  }

  /**
   * Any timer that does not fit leads to a run at whose end the loop waits without a timeout,
   * although it knows the timer, and no thread is about to wake it.
   */
  lemma FarTimerSleepsForever(start: Time, t: Timer) returns (trace: seq<State>, acts: seq<Action>)
    requires start < t.when && !TimeoutFits(start, Some(t))
    ensures IsRun(trace, acts, start)
    ensures
      var s := trace[|acts|];
      s.loop == Waiting(start, Some(t), None) && s.heap == multiset{t} && s.eventfd == 0 && s.producers == map[]
  {
    trace, acts := TimerCollected(start, t);
    trace, acts := WakeupConsumed(trace, acts, start, t);
    trace, acts := Do(trace, acts, start, Sleep(Some(t)));
  }

  /** The first timers that do not fit are those 2^31 ms, about 25 days, away; from 2^32 ms on they fit again. */
  lemma FirstFarTimer(start: Time, handle: nat)
    ensures !TimeoutFits(start, Some(Timer(start + 0x8000_0000 * NsPerMs, handle)))
    ensures forall t: Timer {:trigger TimeoutFits(start, Some(t))} :: start < t.when < start + 0x8000_0000 * NsPerMs ==> TimeoutFits(start, Some(t))
    ensures Deadline(start, Some(Timer(start + 0x1_0000_0000 * NsPerMs, handle))) == Some(start)
  {
  }

  /** How often t is among the first n timers pushed. */
  function Pushed(timers: seq<Timer>, n: nat, t: Timer): nat
    requires n <= |timers|
  {
    if n == 0 then 0 else Pushed(timers, n - 1, t) + if timers[n - 1] == t then 1 else 0
  }

  /** How often t is among the first n ready tasks. */
  function Fired(tasks: seq<Task>, n: nat, t: Timer): nat
    requires n <= |tasks|
  {
    if n == 0 then 0 else Fired(tasks, n - 1, t) + if tasks[n - 1] == Fire(t) then 1 else 0
  }

  /** Collections of t are matched one for one by copies in the heap and firings. */
  ghost predicate Conserved(s: State, t: Timer) {
    && s.timers.taken <= |s.timers.values|
    && Pushed(s.timers.values, s.timers.taken, t) == s.heap[t] + Fired(s.ready.values, |s.ready.values|, t)
  }

  ghost predicate NotEarly(s: State) {
    && (s.loop.Firing? ==> s.loop.cutoff <= s.now)
    && forall i :: 0 <= i < |s.ready.values| && s.ready.values[i].Fire? ==> s.ready.values[i].timer.when <= s.now
  }

  lemma PushedAppend(timers: seq<Timer>, n: nat, u: Timer, t: Timer)
    requires n <= |timers|
    ensures Pushed(timers + [u], n, t) == Pushed(timers, n, t)
  {
  }

  lemma FiredPrefix(tasks: seq<Task>, n: nat, task: Task, t: Timer)
    requires n <= |tasks|
    ensures Fired(tasks + [task], n, t) == Fired(tasks, n, t)
  {
  }

  lemma FireOneConserves(s: State, u: Timer, t: Timer)
    requires Conserved(s, t) && Enabled(s, FireOne(u))
    ensures Conserved(Step(s, FireOne(u)), t)
  {
    FiredPrefix(s.ready.values, |s.ready.values|, Fire(u), t);
    assert s.heap[u] > 0;
  }

  lemma PushConserves(s: State, id: nat, u: Timer, who: Option<Pid>, t: Timer)
    requires Conserved(s, t)
    ensures Conserved(PushReady(s, Func(id), who), t) && Conserved(PushPending(s, u, who), t)
  {
    FiredPrefix(s.ready.values, |s.ready.values|, Func(id), t);
    PushedAppend(s.timers.values, s.timers.taken, u, t);
  }

  lemma StepConserves(s: State, a: Action, t: Timer)
    requires Conserved(s, t) && Enabled(s, a)
    ensures Conserved(Step(s, a), t)
  {
    match a
    case PushTask(p, id) => PushConserves(s, id, t, Some(p), t);
    case PushTimer(p, u) => PushConserves(s, 0, u, Some(p), t);
    case OwnTask(id) => PushConserves(s, id, t, None, t);
    case OwnTimer(u) => PushConserves(s, 0, u, None, t);
    case FireOne(u) => FireOneConserves(s, u, t);
    case _ =>
  }

  lemma StepNotEarly(s: State, a: Action)
    requires NotEarly(s) && Enabled(s, a)
    ensures NotEarly(Step(s, a))
  {
    var s' := Step(s, a);
    forall i | 0 <= i < |s'.ready.values| && s'.ready.values[i].Fire? ensures s'.ready.values[i].timer.when <= s'.now {
      assert i < |s.ready.values| ==> s'.ready.values[i] == s.ready.values[i];
    }
  }

  /** In every run each timer fires as often as it was collected and is no longer waiting, and never before its time. */
  lemma {:induction false} TimersFireOnceAndNotEarly(trace: seq<State>, acts: seq<Action>, start: Time, i: nat, t: Timer)
    requires IsRun(trace, acts, start) && i < |trace|
    ensures Conserved(trace[i], t) && NotEarly(trace[i])
  {
    if i > 0 {
      TimersFireOnceAndNotEarly(trace, acts, start, i - 1, t);
      StepConserves(trace[i - 1], acts[i - 1], t);
      StepNotEarly(trace[i - 1], acts[i - 1]);
    }
  }

  // ---------------------------------------------------------------- one call of process_timers

  /** Steps i to j are one call of process_timers, from its reading of the clock to its end. */
  ghost predicate FiringRound(trace: seq<State>, acts: seq<Action>, start: Time, i: nat, j: nat) {
    && IsRun(trace, acts, start) && i < j < |acts| && acts[i].EventsDone? && acts[j].FiringDone?
    && forall k {:trigger acts[k]} :: i < k < j ==> !acts[k].FiringDone?
  }

  /** Since state s0 the loop has only moved due timers from the heap to the ready queue, earliest first. */
  ghost predicate FiredSince(s0: State, s: State) {
    && s.loop == Firing(s0.now) && s.timers.taken == s0.timers.taken && s0.timers.values <= s.timers.values
    && (forall t: Timer {:trigger s.heap[t]} :: s0.now < t.when ==> s.heap[t] == s0.heap[t])
    && |s0.ready.values| <= |s.ready.values|
    && (forall a, u: Timer {:trigger s.ready.values[a], s.heap[u]} ::
      |s0.ready.values| <= a < |s.ready.values| && s.ready.values[a].Fire? && s.heap[u] > 0 ==> s.ready.values[a].timer.when <= u.when)
    && InOrder(s.ready.values, |s0.ready.values|)
  }

  /** The timers among the tasks from place n on are in the order of their times. */
  ghost predicate InOrder(tasks: seq<Task>, n: nat) {
    forall a, b :: n <= a < b < |tasks| && tasks[a].Fire? && tasks[b].Fire? ==> tasks[a].timer.when <= tasks[b].timer.when
  }

  lemma FireOneSince(s0: State, s: State, u: Timer)
    requires FiredSince(s0, s) && Enabled(s, FireOne(u))
    ensures FiredSince(s0, Step(s, FireOne(u)))
  {
    var s' := Step(s, FireOne(u));
    assert s.heap[u] > 0;
    forall a, b | |s0.ready.values| <= a < b < |s'.ready.values| && s'.ready.values[a].Fire? && s'.ready.values[b].Fire?
      ensures s'.ready.values[a].timer.when <= s'.ready.values[b].timer.when
    {
      assert s'.ready.values[a] == s.ready.values[a];
    }
    forall a, w: Timer {:trigger s'.ready.values[a], s'.heap[w]} | |s0.ready.values| <= a < |s'.ready.values| && s'.ready.values[a].Fire? && s'.heap[w] > 0
      ensures s'.ready.values[a].timer.when <= w.when
    {
      assert w in s.heap && s.heap[w] > 0;
      if a < |s.ready.values| {
        assert s'.ready.values[a] == s.ready.values[a];
      }
    }
  }

  lemma StepSince(s0: State, s: State, a: Action)
    requires FiredSince(s0, s) && Enabled(s, a) && !a.FiringDone?
    ensures FiredSince(s0, Step(s, a))
  {
    if a.FireOne? {
      FireOneSince(s0, s, a.t);
    } else {
      var s' := Step(s, a);
      assert s'.heap == s.heap;
      assert forall k :: 0 <= k < |s.ready.values| ==> s'.ready.values[k] == s.ready.values[k];
      assert |s'.ready.values| > |s.ready.values| ==> !s'.ready.values[|s.ready.values|].Fire?;
    }
  }

  lemma {:induction false} RoundSoFar(trace: seq<State>, acts: seq<Action>, start: Time, i: nat, j: nat, k: nat)
    requires FiringRound(trace, acts, start, i, j) && i < k <= j
    ensures FiredSince(trace[i], trace[k])
  {
    if k == i + 1 {
      assert trace[k] == Step(trace[i], acts[i]);
    } else {
      RoundSoFar(trace, acts, start, i, j, k - 1);
      StepSince(trace[i], trace[k - 1], acts[k - 1]);
    }
  }

  lemma {:induction false} PushedPrefix(a: seq<Timer>, b: seq<Timer>, n: nat, t: Timer)
    requires n <= |a| && a <= b
    ensures Pushed(a, n, t) == Pushed(b, n, t)
  {
    if n > 0 {
      PushedPrefix(a, b, n - 1, t);
    }
  }

  /**
   * One call of process_timers queues exactly the timers that were due when it read the clock,
   * each as often as it was in the heap and earliest first, and leaves exactly the others.
   */
  lemma FiresExactlyWhatIsDue(trace: seq<State>, acts: seq<Action>, start: Time, i: nat, j: nat, t: Timer)
    requires FiringRound(trace, acts, start, i, j)
    ensures trace[j].heap[t] == if t.when <= trace[i].now then 0 else trace[i].heap[t]
    ensures
      Fired(trace[j].ready.values, |trace[j].ready.values|, t)
        == Fired(trace[i].ready.values, |trace[i].ready.values|, t) + if t.when <= trace[i].now then trace[i].heap[t] else 0
    ensures InOrder(trace[j].ready.values, |trace[i].ready.values|)
  {
    RoundSoFar(trace, acts, start, i, j, j);
    TimersFireOnceAndNotEarly(trace, acts, start, i, t);
    TimersFireOnceAndNotEarly(trace, acts, start, j, t);
    PushedPrefix(trace[i].timers.values, trace[j].timers.values, trace[i].timers.taken, t);
    assert Enabled(trace[j], acts[j]);
    assert t in trace[j].heap <==> trace[j].heap[t] > 0;
  }

  // ---------------------------------------------------------------- what the steps do

  /** The tasks, and the timers, that one step pushes. */
  function TasksOf(a: Action): seq<Task> {
    match a
    case PushTask(_, id) => [Func(id)]
    case OwnTask(id) => [Func(id)]
    case FireOne(t) => [Fire(t)]
    case _ => []
  }

  function TimersOf(a: Action): seq<Timer> {
    match a
    case PushTimer(_, t) => [t]
    case OwnTimer(t) => [t]
    case _ => []
  }

  function AllTasks(acts: seq<Action>, n: nat): seq<Task>
    requires n <= |acts|
  {
    if n == 0 then [] else AllTasks(acts, n - 1) + TasksOf(acts[n - 1])
  }

  function AllTimers(acts: seq<Action>, n: nat): seq<Timer>
    requires n <= |acts|
  {
    if n == 0 then [] else AllTimers(acts, n - 1) + TimersOf(acts[n - 1])
  }

  function Elapsed(acts: seq<Action>, n: nat): nat
    requires n <= |acts|
  {
    if n == 0 then 0 else Elapsed(acts, n - 1) + if acts[n - 1].Tick? then acts[n - 1].d else 0
  }

  /** The task that a step takes off the ready queue, to execute it. */
  function RunsTask(s: State, a: Action): seq<Task> {
    if a.RunOne? && s.ready.CanTake() && s.ready.taken < |s.ready.values| then [s.ready.values[s.ready.taken]] else []
  }

  /** The tasks that process_ready_queue has executed, in that order. */
  ghost function Ran(trace: seq<State>, acts: seq<Action>, n: nat): seq<Task>
    requires n <= |acts| && |trace| == |acts| + 1
  {
    if n == 0 then [] else Ran(trace, acts, n - 1) + RunsTask(trace[n - 1], acts[n - 1])
  }

  lemma StepPushes(s: State, a: Action)
    requires Enabled(s, a)
    ensures Step(s, a).ready.values == s.ready.values + TasksOf(a) && Step(s, a).timers.values == s.timers.values + TimersOf(a)
    ensures Step(s, a).now == s.now + if a.Tick? then a.d else 0
  {
  }

  lemma StepRuns(s: State, a: Action)
    requires Enabled(s, a) && Inv(s)
    ensures Step(s, a).ready.taken == s.ready.taken + |RunsTask(s, a)| <= |Step(s, a).ready.values|
    ensures s.ready.values[..s.ready.taken] + RunsTask(s, a) == Step(s, a).ready.values[..Step(s, a).ready.taken]
  {
  }

  /** In every run every task and timer that was scheduled is queued once, in order, and tasks are executed in that order. */
  lemma {:induction false} NothingIsLost(trace: seq<State>, acts: seq<Action>, start: Time, i: nat)
    requires IsRun(trace, acts, start) && i < |trace|
    ensures trace[i].ready.values == AllTasks(acts, i) && trace[i].timers.values == AllTimers(acts, i)
    ensures trace[i].now == start + Elapsed(acts, i)
    ensures trace[i].ready.taken <= |AllTasks(acts, i)| && Ran(trace, acts, i) == AllTasks(acts, i)[..trace[i].ready.taken]
  {
    if i > 0 {
      NothingIsLost(trace, acts, start, i - 1);
      RunKeepsInv(trace, acts, start, i - 1);
      var s, a := trace[i - 1], acts[i - 1];
      assert Enabled(s, a) && trace[i] == Step(s, a);
      StepPushes(s, a);
      StepRuns(s, a);
    }
  }

  /** The steps lead from s to t. */
  ghost predicate Leads(s: State, acts: seq<Action>, t: State)
    decreases |acts|
  {
    if acts == [] then t == s else Enabled(s, acts[0]) && Leads(Step(s, acts[0]), acts[1..], t)
  }

  lemma LeadsOn(s: State, a: Action, rest: seq<Action>, t: State)
    requires Enabled(s, a) && Leads(Step(s, a), rest, t)
    ensures Leads(s, [a] + rest, t)
  {
    assert ([a] + rest)[1..] == rest;
  }

  /** Code that the loop runs, in a handler or in a task, can push at any time, and finishes its push. */
  lemma OwnPushLands(s: State, id: nat, u: Timer)
    requires Inv(s) && s.own.None? && (s.loop.Woken? || s.loop.Running?)
    ensures Enabled(s, OwnTask(id)) && Enabled(s, OwnTimer(u))
    ensures var t := Step(s, OwnTask(id)); Enabled(t, OwnLink) && Step(t, OwnLink).own.None? && Step(t, OwnLink).ready == s.ready.Append(Func(id)).SetLinked(|s.ready.values|)
    ensures var t := Step(s, OwnTimer(u)); Enabled(t, OwnLink) && Step(t, OwnLink).own.None? && Step(t, OwnLink).timers == s.timers.Append(u).SetLinked(|s.timers.values|)
  {
  }

  /** Everything pushed so far is linked. */
  predicate AllLinked(s: State) {
    && |s.ready.linked| == |s.ready.values| && (forall k :: 0 <= k < |s.ready.linked| ==> s.ready.linked[k])
    && |s.timers.linked| == |s.timers.values| && (forall k :: 0 <= k < |s.timers.linked| ==> s.timers.linked[k])
  }

  lemma {:induction false} FirstTimer(heap: multiset<Timer>) returns (top: Option<Timer>)
    ensures IsTop(heap, top)
    decreases |heap|
  {
    if heap == multiset{} {
      top := None;
    } else {
      var t :| t in heap;
      var rest := heap - multiset{t};
      var other := FirstTimer(rest);
      top := if other.Some? && other.value.when < t.when then other else Some(t);
      forall u | u in heap ensures top.value.when <= u.when {
        assert u == t || u in rest;
      }
    }
  }

  /** process_ready_queue executes everything that is queued. */
  lemma {:induction false} QueueDrains(s: State) returns (did: seq<Action>, t: State)
    requires Inv(s) && s.loop.Running? && s.own.None? && AllLinked(s)
    ensures Leads(s, did, t) && t == s.(loop := Collecting, ready := s.ready.(taken := |s.ready.values|))
    decreases |s.ready.values| - s.ready.taken
  {
    var u := Step(s, RunOne);
    StepKeepsInv(s, RunOne);
    var rest;
    if s.ready.CanTake() {
      rest, t := QueueDrains(u);
    } else {
      rest, t := [], u;
    }
    did := [RunOne] + rest;
    LeadsOn(s, RunOne, rest, t);
  }

  /** What process_timers leaves behind. */
  ghost predicate Swept(s: State, t: State, cutoff: Time) {
    && t.loop.Running? && t.own.None? && AllLinked(t) && t.now == s.now && t.timers == s.timers && s.ready.values <= t.ready.values
    && forall x: Timer {:trigger t.heap[x]} :: t.heap[x] == if x.when <= cutoff then 0 else s.heap[x]
  }

  lemma FireAndLink(s: State, x: Timer) returns (t: State)
    requires Inv(s) && s.loop.Firing? && s.own.None? && AllLinked(s) && IsTop(s.heap, Some(x)) && x.when <= s.loop.cutoff
    ensures Enabled(s, FireOne(x)) && Enabled(Step(s, FireOne(x)), OwnLink) && t == Step(Step(s, FireOne(x)), OwnLink)
    ensures Inv(t) && t.loop == s.loop && t.own.None? && AllLinked(t) && t.heap == s.heap - multiset{x} && t.now == s.now && t.timers == s.timers
    ensures t.ready.values == s.ready.values + [Fire(x)]
  {
    var m := Step(s, FireOne(x));
    StepKeepsInv(s, FireOne(x));
    StepKeepsInv(m, OwnLink);
    t := Step(m, OwnLink);
  }

  lemma {:induction false} TimersSwept(s: State) returns (did: seq<Action>, t: State)
    requires Inv(s) && s.loop.Firing? && s.own.None? && AllLinked(s)
    ensures Leads(s, did, t) && Inv(t) && Swept(s, t, s.loop.cutoff)
    decreases |s.heap|
  {
    var top := FirstTimer(s.heap);
    if top.Some? && top.value.when <= s.loop.cutoff {
      var x := top.value;
      var u := FireAndLink(s, x);
      var rest;
      rest, t := TimersSwept(u);
      LeadsOn(Step(s, FireOne(x)), OwnLink, rest, t);
      LeadsOn(s, FireOne(x), [OwnLink] + rest, t);
      did := [FireOne(x)] + ([OwnLink] + rest);
    } else {
      t := Step(s, FiringDone);
      StepKeepsInv(s, FiringDone);
      LeadsOn(s, FiringDone, [], t);
      did := [FiringDone] + [];
      forall x: Timer {:trigger t.heap[x]} ensures t.heap[x] == if x.when <= s.loop.cutoff then 0 else s.heap[x] {
        assert x in s.heap <==> s.heap[x] > 0;
      }
    }
  }

  lemma {:induction false} LeadsBoth(s: State, a: seq<Action>, t: State, b: seq<Action>, u: State)
    requires Leads(s, a, t) && Leads(t, b, u)
    ensures Leads(s, a + b, u)
    decreases |a|
  {
    if a == [] {
      assert a + b == b;
    } else {
      LeadsBoth(Step(s, a[0]), a[1..], t, b, u);
      assert (a + b)[1..] == a[1..] + b;
    }
  }

  /**
   * In every run a loop that is back from epoll_wait, undisturbed and with no push half done, fires
   * every timer that is due, executes everything that is queued, and is back where it collects timers.
   */
  lemma RoundRunsAll(trace: seq<State>, acts: seq<Action>, start: Time, i: nat) returns (did: seq<Action>, t: State)
    requires IsRun(trace, acts, start) && i < |trace| && trace[i].loop.Woken? && trace[i].own.None? && AllLinked(trace[i])
    ensures Leads(trace[i], did, t) && t.loop.Collecting? && t.ready.taken == |t.ready.values|
    ensures forall x: Timer {:trigger t.heap[x]} :: t.heap[x] == if x.when <= trace[i].now then 0 else trace[i].heap[x]
  {
    RunKeepsInv(trace, acts, start, i);
    var s := trace[i];
    var fire := Step(s, EventsDone);
    StepKeepsInv(s, EventsDone);
    var a, m := TimersSwept(fire);
    var b;
    b, t := QueueDrains(m);
    LeadsBoth(fire, a, m, b, t);
    LeadsOn(s, EventsDone, a + b, t);
    did := [EventsDone] + (a + b);
  }
}
