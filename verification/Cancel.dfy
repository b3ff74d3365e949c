/**
 * Cancellation callbacks (CancelToken.h): addCallback, cancel and unregister from any
 * threads, one atomic operation, lock operation or call of a callback per step. `waiters_`
 * appears only as the closed mark; resuming the waiters in it is the walk of module Future.
 */
module Cancel {
  import opened Prelude

  type Id = nat
  type Thread = nat

  datatype Stage =
    | Unadded
    | Locked                // addCallback: holds cbMutex_
    | SawOpen               // addCallback: isCancelled() was false, still holds cbMutex_
    | SawClosed             // addCallback: isCancelled() was true, still holds cbMutex_
    | Direct                // cancelled before registration: dispatched to run as it is
    | DirectDone
    | Registered(pos: nat)  // in callbacks_, with a live CancelRegistration
    | Unregistered(pos: nat)

  /** Where the callback is after cancel took it, and which thread it is for. */
  datatype Job =
    | NotFired
    | Dispatched(who: Thread)
    | Taken(who: Thread)      // that thread has set the flag and is about to call the function
    | Executed
  datatype Taker = ByRun | ByUnregister

  /**
   * `home` is the thread of the scheduler it is dispatched to; without one the cancelling thread
   * calls it. `active` is its atomic_flag with who set it; `runs` counts calls of the function.
   */
  datatype Callback = Callback(home: Option<Thread>, stage: Stage, job: Job, active: Option<Taker>, runs: nat)

  datatype Canceller =
    | Calling
    | Late                                   // found the list already closed
    | Closed                                 // has closed it
    | HasLock                                // holds cbMutex_
    | Firing(batch: seq<Id>, k: nat)         // walks its copy of callbacks_
    | Done

  /**
   * `threads` are the threads of the calls of cancel. History: `winner` closed the list,
   * `registered` lists callbacks in the order they entered callbacks_.
   */
  datatype State = State(
    closed: bool, mutex: Option<Id>, callbacks: seq<Id>, cbs: map<Id, Callback>, cancellers: map<Id, Canceller>,
    threads: map<Id, Thread>, winner: Option<Id>, registered: seq<Id>)

  /** The callbacks with their homes, and the calls of cancel with their threads. */
  datatype Config = Config(homes: map<Id, Option<Thread>>, threads: map<Id, Thread>)

  datatype Action =
    | AddLock(c: Id) | AddCheck(c: Id) | AddFinish(c: Id) | RunDirect(c: Id) | Unregister(c: Id, t: Thread)
    | Close(k: Id) | LockForSwap(k: Id) | Swap(k: Id) | FireNext(k: Id)
    | RunJob(c: Id)   // active->test_and_set()
    | CallFn(c: Id)   // fn()

  /** Callers and callbacks draw from one space of ids, so that the mutex can name its holder. */
  function Init(cfg: Config): State {
    State(false, None, [], map c | c in cfg.homes :: Callback(cfg.homes[c], Unadded, NotFired, None, 0),
          map k | k in cfg.threads && k !in cfg.homes :: Calling,
          map k | k in cfg.threads && k !in cfg.homes :: cfg.threads[k], None, [])
  }

  /** Thread t is not between setting a flag and calling the function: it can do something else. */
  predicate Free(s: State, t: Thread) {
    forall c :: c in s.cbs ==> s.cbs[c].job != Taken(t)
  }

  /** cancel calls a callback that has no scheduler before it goes on to the next. */
  predicate InlineDone(s: State, r: Canceller) {
    r.Firing? && 0 < r.k <= |r.batch| && r.batch[r.k - 1] in s.cbs && s.cbs[r.batch[r.k - 1]].home.None? ==>
      s.cbs[r.batch[r.k - 1]].job.Executed?
  }

  predicate Enabled(s: State, a: Action) {
    match a
    case AddLock(c) => c in s.cbs && s.cbs[c].stage.Unadded? && s.mutex.None?
    case AddCheck(c) => c in s.cbs && s.cbs[c].stage.Locked?
    case AddFinish(c) => c in s.cbs && (s.cbs[c].stage.SawOpen? || s.cbs[c].stage.SawClosed?)
    case RunDirect(c) => c in s.cbs && s.cbs[c].stage.Direct?
    case Unregister(c, t) => c in s.cbs && s.cbs[c].stage.Registered? && Free(s, t)
    case Close(k) => CanStep(s, k) && s.cancellers[k].Calling?
    case LockForSwap(k) => CanStep(s, k) && s.cancellers[k].Closed? && s.mutex.None?
    case Swap(k) => CanStep(s, k) && s.cancellers[k].HasLock?
    case FireNext(k) => CanStep(s, k) && s.cancellers[k].Firing? && InlineDone(s, s.cancellers[k])
    case RunJob(c) => c in s.cbs && s.cbs[c].job.Dispatched? && Free(s, s.cbs[c].job.who)
    case CallFn(c) => c in s.cbs && s.cbs[c].job.Taken?
  }

  predicate CanStep(s: State, k: Id) {
    k in s.cancellers && k in s.threads && Free(s, s.threads[k])
  }

  /** The thread that calls callback c if call k of cancel fires it. */
  function Executor(home: Option<Thread>, thread: Thread): Thread {
    if home.Some? then home.value else thread
  }

  function Step(s: State, a: Action): State
    requires Enabled(s, a)
  {
    match a
    case AddLock(c) => s.(mutex := Some(c), cbs := s.cbs[c := s.cbs[c].(stage := Locked)])
    case AddCheck(c) => s.(cbs := s.cbs[c := s.cbs[c].(stage := if s.closed then SawClosed else SawOpen)])
    case AddFinish(c) =>
      if s.cbs[c].stage.SawClosed? then s.(mutex := None, cbs := s.cbs[c := s.cbs[c].(stage := Direct)])
      else s.(mutex := None, cbs := s.cbs[c := s.cbs[c].(stage := Registered(|s.registered|))],
              callbacks := s.callbacks + [c], registered := s.registered + [c])
    case RunDirect(c) => s.(cbs := s.cbs[c := s.cbs[c].(stage := DirectDone, runs := s.cbs[c].runs + 1)])
    case Unregister(c, _) =>
      var b := s.cbs[c];
      s.(cbs := s.cbs[c := b.(stage := Unregistered(b.stage.pos), active := if b.active.None? then Some(ByUnregister) else b.active)])
    case Close(k) =>
      if s.closed then s.(cancellers := s.cancellers[k := Late])
      else s.(closed := true, winner := Some(k), cancellers := s.cancellers[k := Closed])
    case LockForSwap(k) => s.(mutex := Some(k), cancellers := s.cancellers[k := HasLock])
    case Swap(k) => s.(mutex := None, callbacks := [], cancellers := s.cancellers[k := Firing(s.callbacks, 0)])
    case FireNext(k) =>
      var Firing(batch, i) := s.cancellers[k];
      if i >= |batch| then s.(cancellers := s.cancellers[k := Done])
      else if batch[i] !in s.cbs then s
      else s.(cancellers := s.cancellers[k := Firing(batch, i + 1)],
              cbs := s.cbs[batch[i] := s.cbs[batch[i]].(job := Dispatched(Executor(s.cbs[batch[i]].home, s.threads[k])))])
    case RunJob(c) =>
      var b := s.cbs[c];
      s.(cbs := s.cbs[c := if b.active.None? then b.(job := Taken(b.job.who), active := Some(ByRun)) else b.(job := Executed)])
    case CallFn(c) => s.(cbs := s.cbs[c := s.cbs[c].(job := Executed, runs := s.cbs[c].runs + 1)])
  }

  ghost predicate IsRun(trace: seq<State>, acts: seq<Action>, cfg: Config) {
    && |trace| == |acts| + 1 && trace[0] == Init(cfg)
    && forall i :: 0 <= i < |acts| ==> Enabled(trace[i], acts[i]) && trace[i + 1] == Step(trace[i], acts[i])
  }

  // ---------------------------------------------------------------- invariant

  /** How many registered callbacks the winning cancel has dispatched. */
  function Fired(s: State): nat {
    if s.winner.Some? && s.winner.value in s.cancellers then
      match s.cancellers[s.winner.value]
      case Firing(_, k) => k
      case Done => |s.registered|
      case _ => 0
    else 0
  }

  /** cancel has taken the callbacks away. */
  predicate Swapped(s: State) {
    s.winner.Some? && s.winner.value in s.cancellers
    && (s.cancellers[s.winner.value].Firing? || s.cancellers[s.winner.value].Done?)
  }

  ghost predicate CbOk(s: State, c: Id)
    requires c in s.cbs
  {
    var b := s.cbs[c];
    match b.stage
    case Unadded => b == Callback(b.home, Unadded, NotFired, None, 0)
    case Locked => b == Callback(b.home, Locked, NotFired, None, 0) && s.mutex == Some(c)
    case SawOpen => b == Callback(b.home, SawOpen, NotFired, None, 0) && s.mutex == Some(c) && !Swapped(s)
    case SawClosed => b == Callback(b.home, SawClosed, NotFired, None, 0) && s.mutex == Some(c) && s.closed
    case Direct => b == Callback(b.home, Direct, NotFired, None, 0) && s.closed
    case DirectDone => b == Callback(b.home, DirectDone, NotFired, None, 1) && s.closed
    case Registered(p) => ListedOk(s, c, b, p) && b.active != Some(ByUnregister)
    case Unregistered(p) => ListedOk(s, c, b, p) && b.active.Some?
  }

  ghost predicate ListedOk(s: State, c: Id, b: Callback, p: nat) {
    && p < |s.registered| && s.registered[p] == c
    && (b.job.NotFired? <==> Fired(s) <= p)
    && (b.job.Executed? ==> b.active.Some?)
    && (b.job.Taken? ==> b.active == Some(ByRun))
    && (b.active == Some(ByRun) ==> b.job.Taken? || b.job.Executed?)
    && b.runs == (if b.active == Some(ByRun) && b.job.Executed? then 1 else 0)
    && (b.job.Dispatched? || b.job.Taken? ==>
      s.winner.Some? && s.winner.value in s.threads && b.job.who == Executor(b.home, s.threads[s.winner.value]))
  }

  ghost predicate SlotOk(s: State, i: nat)
    requires i < |s.registered|
  {
    var c := s.registered[i];
    c in s.cbs && (s.cbs[c].stage == Registered(i) || s.cbs[c].stage == Unregistered(i))
  }

  ghost predicate CancellersOk(s: State) {
    && (s.closed <==> s.winner.Some?)
    && (forall k :: k in s.cancellers ==> k !in s.cbs)
    && (forall k :: k in s.cancellers && s.winner != Some(k) ==> s.cancellers[k].Calling? || s.cancellers[k].Late?)
    && s.callbacks == (if Swapped(s) then [] else s.registered)
    && s.threads.Keys == s.cancellers.Keys
    && (s.winner.Some? ==> s.winner.value in s.cancellers && WinnerOk(s, s.cancellers[s.winner.value]))
  }

  ghost predicate WinnerOk(s: State, r: Canceller) {
    match r
    case Closed => true
    case HasLock => s.mutex == s.winner
    case Firing(batch, k) => batch == s.registered && k <= |batch|
    case Done => true
    case _ => false
  }

  ghost predicate CbsOk(s: State) {
    && (forall c {:trigger CbOk(s, c)} :: c in s.cbs ==> CbOk(s, c))
    && (forall i {:trigger SlotOk(s, i)} :: 0 <= i < |s.registered| ==> SlotOk(s, i))
  }

  ghost predicate Inv(s: State) {
    CancellersOk(s) && CbsOk(s)
  }

  // ---------------------------------------------------------------- one step

  /** Steps that leave the registered list alone and change at most callback c. */
  lemma OneChanges(s: State, s': State, c: Id)
    requires CbsOk(s) && s'.registered == s.registered && s'.cbs.Keys == s.cbs.Keys
    requires forall d :: d in s.cbs && d != c ==> s'.cbs[d] == s.cbs[d]
    requires (s.closed ==> s'.closed) && s'.threads == s.threads && (s'.winner == s.winner || s.winner.None?)
    requires Fired(s') == Fired(s) || (Fired(s') == Fired(s) + 1 && Fired(s) < |s.registered| && s.registered[Fired(s)] == c)
    requires s'.mutex == s.mutex || s.mutex.None? || s.mutex == Some(c) || s.mutex.value !in s.cbs
    requires Swapped(s) == Swapped(s') || (s.mutex.Some? && s.mutex.value !in s.cbs)
    requires c in s.cbs ==> CbOk(s', c) && (s.cbs[c].stage.Registered? || s.cbs[c].stage.Unregistered? ==>
      (s'.cbs[c].stage.Registered? || s'.cbs[c].stage.Unregistered?) && s'.cbs[c].stage.pos == s.cbs[c].stage.pos)
    ensures CbsOk(s')
  {
    forall d | d in s'.cbs ensures CbOk(s', d) { assert CbOk(s, d); }
    forall i | 0 <= i < |s'.registered| ensures SlotOk(s', i) { assert SlotOk(s, i); }
  }

  lemma AddKeepsInv(s: State, a: Action)
    requires Inv(s) && Enabled(s, a) && (a.AddLock? || a.AddCheck? || (a.AddFinish? && s.cbs[a.c].stage.SawClosed?))
    ensures Inv(Step(s, a))
  {
    assert CbOk(s, a.c);
    OneChanges(s, Step(s, a), a.c);
  }

  lemma RegisterKeepsInv(s: State, c: Id)
    requires Inv(s) && Enabled(s, AddFinish(c)) && s.cbs[c].stage.SawOpen?
    ensures Inv(Step(s, AddFinish(c)))
  {
    assert CbOk(s, c);
    var s' := Step(s, AddFinish(c));
    forall d | d in s'.cbs ensures CbOk(s', d) { assert CbOk(s, d); }
    forall i | 0 <= i < |s'.registered| ensures SlotOk(s', i) { if i < |s.registered| { assert SlotOk(s, i); } }
  }

  lemma CallbackKeepsInv(s: State, a: Action)
    requires Inv(s) && Enabled(s, a) && (a.RunDirect? || a.Unregister? || a.RunJob? || a.CallFn?)
    ensures Inv(Step(s, a))
  {
    assert CbOk(s, a.c);
    OneChanges(s, Step(s, a), a.c);
  }

  lemma CloseKeepsInv(s: State, k: Id)
    requires Inv(s) && Enabled(s, Close(k))
    ensures Inv(Step(s, Close(k)))
  {
    OneChanges(s, Step(s, Close(k)), k);
  }

  lemma SwapKeepsInv(s: State, a: Action)
    requires Inv(s) && Enabled(s, a) && (a.LockForSwap? || a.Swap?)
    ensures Inv(Step(s, a))
  {
    OneChanges(s, Step(s, a), a.k);
  }

  lemma FireKeepsInv(s: State, k: Id)
    requires Inv(s) && Enabled(s, FireNext(k))
    ensures Inv(Step(s, FireNext(k)))
  {
    var i := s.cancellers[k].k;
    var s' := Step(s, FireNext(k));
    if i < |s.registered| {
      assert SlotOk(s, i);
      assert CbOk(s, s.registered[i]);
      OneChanges(s, s', s.registered[i]);
    } else {
      OneChanges(s, s', k);
    }
  }

  lemma StepKeepsInv(s: State, a: Action)
    requires Inv(s) && Enabled(s, a)
    ensures Inv(Step(s, a))
  {
    match a
    case AddFinish(c) => if s.cbs[c].stage.SawOpen? { RegisterKeepsInv(s, c); } else { AddKeepsInv(s, a); }
    case AddLock(_) => AddKeepsInv(s, a);
    case AddCheck(_) => AddKeepsInv(s, a);
    case Close(k) => CloseKeepsInv(s, k);
    case LockForSwap(_) => SwapKeepsInv(s, a);
    case Swap(_) => SwapKeepsInv(s, a);
    case FireNext(k) => FireKeepsInv(s, k);
    case _ => CallbackKeepsInv(s, a);
  }

  // ---------------------------------------------------------------- whole runs

  lemma {:induction false} RunKeepsInv(trace: seq<State>, acts: seq<Action>, cfg: Config, i: nat)
    requires IsRun(trace, acts, cfg) && i < |trace|
    ensures Inv(trace[i])
  {
    if i == 0 {
      forall c | c in trace[0].cbs ensures CbOk(trace[0], c) {}
    } else {
      RunKeepsInv(trace, acts, cfg, i - 1);
      StepKeepsInv(trace[i - 1], acts[i - 1]);
    }
  }

  /** No callback runs twice, and none runs before a cancel. */
  lemma RunsAtMostOnce(trace: seq<State>, acts: seq<Action>, cfg: Config, i: nat, c: Id)
    requires IsRun(trace, acts, cfg) && i < |trace| && c in trace[i].cbs
    ensures trace[i].cbs[c].runs <= 1
    ensures trace[i].cbs[c].runs == 1 ==> trace[i].closed
  {
    RunKeepsInv(trace, acts, cfg, i);
    assert CbOk(trace[i], c);
  }

  /** Nothing is left to be executed. */
  predicate Settled(job: Job) {
    job.NotFired? || job.Executed?
  }

  /**
   * Once the winning cancel has returned and what it dispatched has been executed, every
   * registered callback has run exactly once, unless it was unregistered first; one that
   * came too late to register runs by itself.
   */
  lemma RunsExactlyOnce(trace: seq<State>, acts: seq<Action>, cfg: Config, i: nat, c: Id)
    requires IsRun(trace, acts, cfg) && i < |trace| && c in trace[i].cbs
    requires exists k :: k in trace[i].cancellers && trace[i].cancellers[k].Done?
    ensures trace[i].cbs[c].stage.Registered? && Settled(trace[i].cbs[c].job) ==> trace[i].cbs[c].runs == 1
    ensures trace[i].cbs[c].stage.Unregistered? && Settled(trace[i].cbs[c].job) ==>
      (trace[i].cbs[c].runs == 1 <==> trace[i].cbs[c].active != Some(ByUnregister))
    ensures trace[i].cbs[c].stage.DirectDone? ==> trace[i].cbs[c].runs == 1
  {
    RunKeepsInv(trace, acts, cfg, i);
    var k :| k in trace[i].cancellers && trace[i].cancellers[k].Done?;
    assert trace[i].winner == Some(k);
    assert CbOk(trace[i], c);
    match trace[i].cbs[c].active
    case None =>
    case Some(ByRun) =>
    case Some(ByUnregister) =>
  }

  /** Callbacks are dispatched in the order they were registered, each while the winning cancel walks its batch. */
  lemma FiredInOrder(trace: seq<State>, acts: seq<Action>, cfg: Config, i: nat)
    requires IsRun(trace, acts, cfg) && i < |trace|
    ensures Fired(trace[i]) <= |trace[i].registered|
    ensures forall p :: 0 <= p < |trace[i].registered| ==>
      && trace[i].registered[p] in trace[i].cbs
      && (trace[i].cbs[trace[i].registered[p]].job.NotFired? <==> Fired(trace[i]) <= p)
  {
    RunKeepsInv(trace, acts, cfg, i);
    var s := trace[i];
    forall p | 0 <= p < |s.registered| ensures s.registered[p] in s.cbs && (s.cbs[s.registered[p]].job.NotFired? <==> Fired(s) <= p) {
      assert SlotOk(s, p);
      assert CbOk(s, s.registered[p]);
    }
  }

  // ---------------------------------------------------------------- unregister

  lemma UnregisteredStays(s: State, a: Action, c: Id)
    requires Inv(s) && Enabled(s, a) && c in s.cbs && s.cbs[c].stage.Unregistered?
    ensures c in Step(s, a).cbs && Step(s, a).cbs[c].stage.Unregistered?
    ensures Step(s, a).cbs[c].runs == s.cbs[c].runs + if a == CallFn(c) then 1 else 0
    ensures s.cbs[c].job.Taken? ==> (Step(s, a).cbs[c].job.Taken? <==> a != CallFn(c))
    ensures !s.cbs[c].job.Taken? ==> a != CallFn(c) && !Step(s, a).cbs[c].job.Taken?
  {
    assert CbOk(s, c);
    if a.FireNext? && s.cancellers[a.k].k < |s.registered| {
      assert SlotOk(s, s.cancellers[a.k].k);
    }
  }

  /** The same, along a run: it starts once if the flag was set, and then never again. */
  lemma UnregisteredNext(trace: seq<State>, acts: seq<Action>, cfg: Config, i: nat, c: Id, s: State, t: State)
    requires IsRun(trace, acts, cfg) && i < |acts| && s == trace[i] && t == trace[i + 1] && c in s.cbs && s.cbs[c].stage.Unregistered?
    ensures c in t.cbs && t.cbs[c].stage.Unregistered? && (t.cbs[c].job.Taken? ==> s.cbs[c].job.Taken?)
    ensures t.cbs[c].runs == s.cbs[c].runs + if s.cbs[c].job.Taken? && !t.cbs[c].job.Taken? then 1 else 0
  {
    RunKeepsInv(trace, acts, cfg, i);
    var a := acts[i];
    assert Enabled(s, a) && t == Step(s, a);
    UnregisteredStays(s, a, c);
  }

  /**
   * Exactly then: after unregister has returned the callback still starts if and only if its
   * thread had set the flag before, and not called it yet.
   */
  lemma {:induction false} StartsAfterUnregisterIff(trace: seq<State>, acts: seq<Action>, cfg: Config, i: nat, j: nat, c: Id)
    requires IsRun(trace, acts, cfg) && i <= j < |trace|
    requires c in trace[i].cbs && trace[i].cbs[c].stage.Unregistered?
    ensures c in trace[j].cbs && trace[j].cbs[c].stage.Unregistered?
    ensures trace[j].cbs[c].runs != trace[i].cbs[c].runs <==> trace[i].cbs[c].job.Taken? && !trace[j].cbs[c].job.Taken?
    ensures trace[j].cbs[c].job.Taken? ==> trace[i].cbs[c].job.Taken?
  {
    if i < j {
      StartsAfterUnregisterIff(trace, acts, cfg, i, j - 1, c);
      UnregisteredNext(trace, acts, cfg, j - 1, c, trace[j - 1], trace[j]);
      RunsAtMostOnce(trace, acts, cfg, j, c);
    }
  }

  /** What never changes. */
  lemma {:induction false} SameConfig(trace: seq<State>, acts: seq<Action>, cfg: Config, i: nat)
    requires IsRun(trace, acts, cfg) && i < |trace|
    ensures trace[i].threads == Init(cfg).threads && trace[i].cbs.Keys == cfg.homes.Keys
    ensures forall c {:trigger trace[i].cbs[c]} :: c in trace[i].cbs ==> trace[i].cbs[c].home == cfg.homes[c]
  {
    if i > 0 {
      SameConfig(trace, acts, cfg, i - 1);
      assert Enabled(trace[i - 1], acts[i - 1]) && trace[i] == Step(trace[i - 1], acts[i - 1]);
    }
  }

  /** Thread t unregisters callback c at step n, and the callback starts afterwards. */
  ghost predicate Overtaken(trace: seq<State>, acts: seq<Action>, cfg: Config, c: Id, t: Thread, n: nat, j: nat) {
    && IsRun(trace, acts, cfg) && n < j < |trace| && acts[n] == Unregister(c, t)
    && c in trace[n + 1].cbs && c in trace[j].cbs && trace[j].cbs[c].runs > trace[n + 1].cbs[c].runs
  }

  /** Every call of cancel would have the callback called on thread t. */
  predicate OnlyOn(cfg: Config, c: Id, t: Thread)
    requires c in cfg.homes
  {
    forall k :: k in cfg.threads && k !in cfg.homes ==> Executor(cfg.homes[c], cfg.threads[k]) == t
  }

  /**
   * On the thread that calls the callback unregister cannot come in between: the callback does
   * not start any more. For one with a scheduler that is the scheduler's thread, as documented.
   */
  lemma NeverAfterUnregister(trace: seq<State>, acts: seq<Action>, cfg: Config, c: Id, t: Thread, n: nat, j: nat)
    requires IsRun(trace, acts, cfg) && n < j < |trace| && acts[n] == Unregister(c, t) && c in cfg.homes && OnlyOn(cfg, c, t)
    ensures c in trace[n].cbs && c in trace[j].cbs && trace[j].cbs[c].runs == trace[n].cbs[c].runs
  {
    var s := trace[n];
    RunKeepsInv(trace, acts, cfg, n);
    SameConfig(trace, acts, cfg, n);
    assert Enabled(s, acts[n]) && trace[n + 1] == Step(s, acts[n]);
    assert CbOk(s, c);
    assert !s.cbs[c].job.Taken?;
    StartsAfterUnregisterIff(trace, acts, cfg, n + 1, j, c);
  }

  // ---------------------------------------------------------------- a run in which it does start

  lemma Do(trace: seq<State>, acts: seq<Action>, cfg: Config, a: Action) returns (more: seq<State>, did: seq<Action>)
    requires IsRun(trace, acts, cfg) && Enabled(trace[|acts|], a)
    ensures IsRun(more, did, cfg) && did == acts + [a] && more == trace + [Step(trace[|acts|], a)]
  {
    more, did := trace + [Step(trace[|acts|], a)], acts + [a];
    forall i {:trigger did[i]} | 0 <= i < |did| ensures Enabled(more[i], did[i]) && more[i + 1] == Step(more[i], did[i]) {
      if i < |acts| {
        assert did[i] == acts[i];
      }
    }
  }

  /** The initial state after callback c was registered, and perhaps more has happened to it. */
  function Only(cfg: Config, c: Id, b: Callback, closed: bool, callbacks: seq<Id>, cancellers: map<Id, Canceller>, winner: Option<Id>): State {
    var s := Init(cfg);
    State(closed, None, callbacks, s.cbs[c := b], cancellers, s.threads, winner, [c])
  }

  lemma AllFree(cfg: Config, c: Id, b: Callback, closed: bool, callbacks: seq<Id>, cancellers: map<Id, Canceller>, winner: Option<Id>, t: Thread)
    requires b.job != Taken(t)
    ensures Free(Only(cfg, c, b, closed, callbacks, cancellers, winner), t)
  {
  }

  lemma Register(cfg: Config, c: Id) returns (trace: seq<State>, acts: seq<Action>)
    requires c in cfg.homes
    ensures IsRun(trace, acts, cfg)
    ensures trace[|acts|] == Only(cfg, c, Callback(cfg.homes[c], Registered(0), NotFired, None, 0), false, [c], Init(cfg).cancellers, None)
  {
    trace, acts := [Init(cfg)], [];
    trace, acts := Do(trace, acts, cfg, AddLock(c));
    trace, acts := Do(trace, acts, cfg, AddCheck(c));
    trace, acts := Do(trace, acts, cfg, AddFinish(c));
    assert [] + [c] == [c];
    assert trace[|acts|].cbs == Init(cfg).cbs[c := Callback(cfg.homes[c], Registered(0), NotFired, None, 0)];
  }

  /** cancel closes the list, takes the callback and fires it. */
  lemma Fire(cfg: Config, c: Id, k: Id) returns (trace: seq<State>, acts: seq<Action>)
    requires c in cfg.homes && k in cfg.threads && k !in cfg.homes
    ensures IsRun(trace, acts, cfg)
    ensures
      var b := Callback(cfg.homes[c], Registered(0), Dispatched(Executor(cfg.homes[c], cfg.threads[k])), None, 0);
      trace[|acts|] == Only(cfg, c, b, true, [], Init(cfg).cancellers[k := Firing([c], 1)], Some(k))
  {
    var b, ks, t := Callback(cfg.homes[c], Registered(0), NotFired, None, 0), Init(cfg).cancellers, cfg.threads[k];
    trace, acts := Register(cfg, c);
    AllFree(cfg, c, b, false, [c], ks, None, t);
    trace, acts := Do(trace, acts, cfg, Close(k));
    assert trace[|acts|] == Only(cfg, c, b, true, [c], ks[k := Closed], Some(k));
    AllFree(cfg, c, b, true, [c], ks[k := Closed], Some(k), t);
    trace, acts := Do(trace, acts, cfg, LockForSwap(k));
    assert trace[|acts|] == Only(cfg, c, b, true, [c], ks[k := HasLock], Some(k)).(mutex := Some(k));
    trace, acts := Do(trace, acts, cfg, Swap(k));
    assert trace[|acts|] == Only(cfg, c, b, true, [], ks[k := Firing([c], 0)], Some(k));
    AllFree(cfg, c, b, true, [], ks[k := Firing([c], 0)], Some(k), t);
    trace, acts := Do(trace, acts, cfg, FireNext(k));
  }

  /** Its thread sets the flag; another thread unregisters it, and has returned; then it is called. */
  lemma UnregisterCanBeOvertaken(cfg: Config, c: Id, k: Id, t: Thread) returns (trace: seq<State>, acts: seq<Action>, n: nat, j: nat)
    requires c in cfg.homes && k in cfg.threads && k !in cfg.homes && Executor(cfg.homes[c], cfg.threads[k]) != t
    ensures Overtaken(trace, acts, cfg, c, t, n, j)
  {
    var home, e, ks := cfg.homes[c], Executor(cfg.homes[c], cfg.threads[k]), Init(cfg).cancellers[k := Firing([c], 1)];
    trace, acts := Fire(cfg, c, k);
    AllFree(cfg, c, Callback(home, Registered(0), Dispatched(e), None, 0), true, [], ks, Some(k), e);
    trace, acts := Do(trace, acts, cfg, RunJob(c));
    var taken := Callback(home, Registered(0), Taken(e), Some(ByRun), 0);
    assert trace[|acts|] == Only(cfg, c, taken, true, [], ks, Some(k));
    AllFree(cfg, c, taken, true, [], ks, Some(k), t);
    n := |acts|;
    trace, acts := Do(trace, acts, cfg, Unregister(c, t));
    assert trace[n + 1].cbs[c] == Callback(home, Unregistered(0), Taken(e), Some(ByRun), 0);
    trace, acts := Do(trace, acts, cfg, CallFn(c));
    j := n + 2;
    assert trace[j].cbs[c].runs == 1;
  }

  /**
   * Exactly then: unregistering on thread t can be overtaken by the callback if and only if some
   * call of cancel would have the callback called on another thread.
   */
  lemma OvertakenIff(cfg: Config, c: Id, t: Thread)
    requires c in cfg.homes
    ensures (exists trace, acts, n: nat, j: nat :: Overtaken(trace, acts, cfg, c, t, n, j)) <==> !OnlyOn(cfg, c, t)
  {
    if OnlyOn(cfg, c, t) {
      forall trace, acts, n: nat, j: nat ensures !Overtaken(trace, acts, cfg, c, t, n, j) {
        if IsRun(trace, acts, cfg) && n < j < |trace| && acts[n] == Unregister(c, t) {
          NeverAfterUnregister(trace, acts, cfg, c, t, n, j);
          assert Enabled(trace[n], acts[n]) && trace[n + 1] == Step(trace[n], acts[n]);
        }
      }
    } else {
      var k :| k in cfg.threads && k !in cfg.homes && Executor(cfg.homes[c], cfg.threads[k]) != t;
      var trace, acts, n, j := UnregisterCanBeOvertaken(cfg, c, k, t);
    }
  }
}
