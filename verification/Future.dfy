/**
 * Promise / Future over the one-shot lock-free waiter list (Future.h, LockFreeList.h), one
 * atomic operation per step, for any number of awaiters and of racing set calls.
 */
module Future {
  import opened Prelude
  import opened IntrusiveList

  type Outcome = nat  // the value or exception a set call brings

  /** `waiters_`: the closed mark, or the newest waiter. */
  datatype Head = Closed | Open(top: Option<Id>)

  datatype Awaiter =
    | Fresh
    | NotReady                      // await_ready saw an open list
    | Pushing(cur: Option<Id>)      // push: holds a head value to swap against
    | Parked(pos: nat)              // push succeeded: suspended
    | Through                       // await_ready saw the closed mark, or push returned false
    | Scheduled(pos: nat)           // resumeAll has scheduled the coroutine
    | Finished(saw: Option<Outcome>, parkedAt: Option<nat>)  // what await_resume found

  datatype Setter =
    | Calling(outcome: Outcome)
    | Threw                                                    // promise_already_satisfied
    | Holding(outcome: Outcome, list: Option<Id>)              // list closed, result not stored yet
    | Walking(at: Option<Id>)                                  // resumeAll: n
    | Visiting(node: Id, after: Option<Id>)                    // resumeAll: next has been read
    | Done

  /**
   * History: `winner` closed the list; `parked` and `resumed` list awaiters in the order of
   * those events, and an awaiter that parked remembers its place in `parked`.
   */
  datatype State = State(
    head: Head, next: Links, result: Option<Outcome>,
    awaiters: map<Id, Awaiter>, setters: map<Id, Setter>,
    winner: Option<Id>, parked: seq<Id>, resumed: seq<Id>, fault: bool)

  datatype Action =
    | AwaitReady(a: Id) | PushLoad(a: Id) | PushCas(a: Id, spurious: bool) | AwaitResume(a: Id)
    | CloseList(s: Id) | StoreResult(s: Id) | ReadNext(s: Id) | ScheduleNode(s: Id)

  function Init(awaiters: set<Id>, setters: map<Id, Outcome>): State {
    State(Open(None), map[], None, map a | a in awaiters :: Fresh,
          map s | s in setters :: Calling(setters[s]), None, [], [], false)
  }

  function Place(r: Awaiter): Option<nat> {
    match r
    case Parked(k) => Some(k)
    case Scheduled(k) => Some(k)
    case Finished(_, k) => k
    case _ => None
  }

  predicate Enabled(s: State, act: Action) {
    match act
    case AwaitReady(a) => a in s.awaiters && s.awaiters[a].Fresh?
    case PushLoad(a) => a in s.awaiters && s.awaiters[a].NotReady?
    case PushCas(a, _) => a in s.awaiters && s.awaiters[a].Pushing?
    case AwaitResume(a) => a in s.awaiters && (s.awaiters[a].Through? || s.awaiters[a].Scheduled?)
    case CloseList(w) => w in s.setters && s.setters[w].Calling?
    case StoreResult(w) => w in s.setters && s.setters[w].Holding?
    case ReadNext(w) => w in s.setters && s.setters[w].Walking?
    case ScheduleNode(w) => w in s.setters && s.setters[w].Visiting?
  }

  function Step(s: State, act: Action): State
    requires Enabled(s, act)
  {
    match act
    case AwaitReady(a) => s.(awaiters := s.awaiters[a := if s.head.Closed? then Through else NotReady])
    case PushLoad(a) =>
      s.(awaiters := s.awaiters[a := if s.head.Closed? then Through else Pushing(s.head.top)])
    case PushCas(a, spurious) =>
      var t := s.(next := s.next[a := s.awaiters[a].cur]);
      if s.head == Open(s.awaiters[a].cur) && !spurious
      then t.(head := Open(Some(a)), awaiters := s.awaiters[a := Parked(|s.parked|)], parked := s.parked + [a])
      else t.(awaiters := s.awaiters[a := if s.head.Closed? then Through else Pushing(s.head.top)])
    case AwaitResume(a) =>
      // The awaiter, and the list node inside it, may be gone from here on.
      s.(next := s.next - {a}, awaiters := s.awaiters[a := Finished(s.result, Place(s.awaiters[a]))])
    case CloseList(w) =>
      if s.head.Closed? then s.(setters := s.setters[w := Threw])
      else s.(head := Closed, winner := Some(w), setters := s.setters[w := Holding(s.setters[w].outcome, s.head.top)])
    case StoreResult(w) =>
      s.(result := Some(s.setters[w].outcome), setters := s.setters[w := Walking(s.setters[w].list)])
    case ReadNext(w) =>
      (match s.setters[w].at
       case None => s.(setters := s.setters[w := Done])
       case Some(n) =>
         if n !in s.next then s.(fault := true) else s.(setters := s.setters[w := Visiting(n, s.next[n])]))
    case ScheduleNode(w) =>
      var Visiting(n, after) := s.setters[w];
      if n !in s.next || n !in s.awaiters || !s.awaiters[n].Parked? then s.(fault := true) else
      s.(awaiters := s.awaiters[n := Scheduled(s.awaiters[n].pos)], setters := s.setters[w := Walking(after)], resumed := s.resumed + [n])
  }

  ghost predicate IsRun(trace: seq<State>, acts: seq<Action>, awaiters: set<Id>, setters: map<Id, Outcome>) {
    && |trace| == |acts| + 1 && trace[0] == Init(awaiters, setters)
    && forall i :: 0 <= i < |acts| ==> Enabled(trace[i], acts[i]) && trace[i + 1] == Step(trace[i], acts[i])
  }

  // ---------------------------------------------------------------- invariant

  /** How many are still parked: in the list, or waiting for the winner to reach them. */
  function Left(s: State): nat {
    if |s.resumed| <= |s.parked| then |s.parked| - |s.resumed| else 0
  }

  predicate Won(r: Setter) {
    r.Holding? || r.Walking? || r.Visiting? || r.Done?
  }

  /** Where the winner stands in its walk over those left. */
  ghost predicate WinnerOk(s: State, r: Setter) {
    match r
    case Holding(_, list) => Lifo(s.next, list, s.parked, 0, Left(s)) && s.result.None? && s.resumed == []
    case Walking(at) => Lifo(s.next, at, s.parked, 0, Left(s)) && s.result.Some?
    case Visiting(n, after) =>
      && s.result.Some? && Lifo(s.next, Some(n), s.parked, 0, Left(s)) && n in s.next && after == s.next[n]
    case Done => Left(s) == 0 && s.result.Some?
    case _ => false
  }

  /** An awaiter that parked has its place, and is past Parked exactly when its turn has come; then the result is there. */
  ghost predicate AwaiterOk(s: State, a: Id)
    requires a in s.awaiters
  {
    var r := s.awaiters[a];
    match Place(r)
    case None => true
    case Some(k) =>
      && k < |s.parked| && s.parked[k] == a && (r.Parked? <==> k < Left(s))
      && (!r.Parked? ==> s.result.Some?) && (r.Finished? ==> r.saw == s.result)
  }

  ghost predicate SlotOk(s: State, i: nat)
    requires i < |s.parked|
  {
    && s.parked[i] in s.awaiters && Place(s.awaiters[s.parked[i]]) == Some(i)
    && (i >= Left(s) ==> s.resumed[|s.parked| - 1 - i] == s.parked[i])
  }

  ghost predicate AwaitersOk(s: State) {
    && |s.resumed| <= |s.parked|
    && (forall a {:trigger AwaiterOk(s, a)} :: a in s.awaiters ==> AwaiterOk(s, a))
    && (forall i {:trigger SlotOk(s, i)} :: 0 <= i < |s.parked| ==> SlotOk(s, i))
  }

  ghost predicate ListOk(s: State) {
    match s.winner
    case None =>
      && s.head.Open? && Lifo(s.next, s.head.top, s.parked, 0, Left(s)) && s.resumed == [] && s.result.None?
      && forall w :: w in s.setters ==> s.setters[w].Calling?
    case Some(w) =>
      && s.head.Closed? && w in s.setters && WinnerOk(s, s.setters[w])
      && forall v :: v in s.setters && v != w ==> s.setters[v].Calling? || s.setters[v].Threw?
  }

  ghost predicate Inv(s: State) {
    !s.fault && AwaitersOk(s) && ListOk(s)
  }

  /** Awaiters and slots carry over from s to s' wherever they carry over one by one. */
  lemma AwaitersKept(s: State, s': State)
    requires AwaitersOk(s) && s'.parked == s.parked && s'.resumed == s.resumed && s'.awaiters.Keys == s.awaiters.Keys
    requires s'.result == s.result || forall a :: a in s.awaiters && Place(s.awaiters[a]).Some? ==> s.awaiters[a].Parked?
    requires forall a :: a in s.awaiters ==>
      || s'.awaiters[a] == s.awaiters[a]
      || Place(s.awaiters[a]) == Place(s'.awaiters[a]) == None
      || (s.awaiters[a].Scheduled? && s'.awaiters[a] == Finished(s.result, Some(s.awaiters[a].pos)))
    ensures AwaitersOk(s')
  {
    forall a | a in s'.awaiters ensures AwaiterOk(s', a) { assert AwaiterOk(s, a); }
    forall i | 0 <= i < |s'.parked| ensures SlotOk(s', i) { assert SlotOk(s, i); }
  }

  /** An awaiter that has not parked looks at `waiters_` and goes on accordingly. */
  lemma LookKeepsInv(s: State, a: Id, r: Awaiter)
    requires Inv(s) && a in s.awaiters && (s.awaiters[a].Fresh? || s.awaiters[a].NotReady? || s.awaiters[a].Pushing?)
    requires r.NotReady? || r.Pushing? || r.Through?
    ensures Inv(s.(awaiters := s.awaiters[a := r]))
  {
    AwaitersKept(s, s.(awaiters := s.awaiters[a := r]));
  }

  /** An awaiter that is not parked may write its own `next_`. */
  lemma OwnLinkKeepsInv(s: State, a: Id, v: Option<Id>)
    requires Inv(s) && a in s.awaiters && s.awaiters[a].Pushing?
    ensures Inv(s.(next := s.next[a := v]))
  {
    var s' := s.(next := s.next[a := v]);
    forall i | 0 <= i < |s.parked| ensures s.parked[i] != a { assert SlotOk(s, i); }
    ListKept(s, s'.next);
    AwaitersKept(s, s');
  }

  /** The list reads the same if the links of those still parked do. */
  lemma ListKept(s: State, next': Links)
    requires ListOk(s)
    requires forall i :: 0 <= i < Left(s) <= |s.parked| && s.parked[i] in s.next ==>
      s.parked[i] in next' && next'[s.parked[i]] == s.next[s.parked[i]]
    ensures ListOk(s.(next := next'))
  {
    match s.winner
    case None => LifoFrame(s.next, s.head.top, s.parked, 0, Left(s), next', s.parked);
    case Some(w) =>
      match s.setters[w]
      case Holding(_, p) => LifoFrame(s.next, p, s.parked, 0, Left(s), next', s.parked);
      case Walking(p) => LifoFrame(s.next, p, s.parked, 0, Left(s), next', s.parked);
      case Visiting(n, _) => LifoFrame(s.next, Some(n), s.parked, 0, Left(s), next', s.parked); LifoTop(s.next, Some(n), s.parked, 0, Left(s));
      case _ =>
  }

  lemma ParkAwaiters(s: State, a: Id)
    requires Inv(s) && a in s.awaiters && s.awaiters[a].Pushing? && s.head.Open?
    ensures AwaitersOk(s.(head := Open(Some(a)), awaiters := s.awaiters[a := Parked(|s.parked|)], parked := s.parked + [a]))
  {
    var s' := s.(head := Open(Some(a)), awaiters := s.awaiters[a := Parked(|s.parked|)], parked := s.parked + [a]);
    forall b | b in s'.awaiters ensures AwaiterOk(s', b) { assert AwaiterOk(s, b); }
    forall i | 0 <= i < |s'.parked| ensures SlotOk(s', i) {
      if i < |s.parked| { assert SlotOk(s, i); }
    }
  }

  lemma ParkKeepsInv(s: State, a: Id)
    requires Inv(s) && a in s.awaiters && s.awaiters[a].Pushing?
    requires s.head.Open? && a in s.next && s.next[a] == s.head.top
    ensures Inv(s.(head := Open(Some(a)), awaiters := s.awaiters[a := Parked(|s.parked|)], parked := s.parked + [a]))
  {
    ParkAwaiters(s, a);
    LifoPush(s.next, s.head.top, s.parked, 0, a);
  }

  lemma PushCasKeepsInv(s: State, a: Id, spurious: bool)
    requires Inv(s) && Enabled(s, PushCas(a, spurious))
    ensures Inv(Step(s, PushCas(a, spurious)))
  {
    OwnLinkKeepsInv(s, a, s.awaiters[a].cur);
    var t := s.(next := s.next[a := s.awaiters[a].cur]);
    if s.head == Open(s.awaiters[a].cur) && !spurious {
      ParkKeepsInv(t, a);
    } else {
      LookKeepsInv(t, a, if s.head.Closed? then Through else Pushing(s.head.top));
    }
  }

  lemma AwaitResumeKeepsInv(s: State, a: Id)
    requires Inv(s) && Enabled(s, AwaitResume(a))
    ensures Inv(Step(s, AwaitResume(a)))
  {
    var s' := Step(s, AwaitResume(a));
    forall i | 0 <= i < Left(s) ensures s.parked[i] != a { assert SlotOk(s, i) && AwaiterOk(s, s.parked[i]); }
    ListKept(s, s'.next);
    AwaitersKept(s, s');
  }

  lemma CloseListKeepsInv(s: State, w: Id)
    requires Inv(s) && Enabled(s, CloseList(w))
    ensures Inv(Step(s, CloseList(w)))
  {
    AwaitersKept(s, Step(s, CloseList(w)));
  }

  lemma StoreResultKeepsInv(s: State, w: Id)
    requires Inv(s) && Enabled(s, StoreResult(w))
    ensures Inv(Step(s, StoreResult(w)))
  {
    assert s.winner == Some(w);
    forall a | a in s.awaiters && Place(s.awaiters[a]).Some? ensures s.awaiters[a].Parked? { assert AwaiterOk(s, a); }
    AwaitersKept(s, Step(s, StoreResult(w)));
  }

  lemma ReadNextKeepsInv(s: State, w: Id)
    requires Inv(s) && Enabled(s, ReadNext(w))
    ensures Inv(Step(s, ReadNext(w)))
  {
    assert s.winner == Some(w);
    if s.setters[w].at.Some? { LifoTop(s.next, s.setters[w].at, s.parked, 0, Left(s)); }
    AwaitersKept(s, Step(s, ReadNext(w)));
  }

  lemma ScheduleNodeAwaiters(s: State, w: Id)
    requires Inv(s) && Enabled(s, ScheduleNode(w))
    ensures !Step(s, ScheduleNode(w)).fault && AwaitersOk(Step(s, ScheduleNode(w)))
  {
    assert s.winner == Some(w);
    var n := s.setters[w].node;
    LifoTop(s.next, Some(n), s.parked, 0, Left(s));
    assert SlotOk(s, Left(s) - 1) && AwaiterOk(s, n);
    var s' := Step(s, ScheduleNode(w));
    forall a | a in s'.awaiters ensures AwaiterOk(s', a) { assert AwaiterOk(s, a); }
    forall i | 0 <= i < |s'.parked| ensures SlotOk(s', i) { assert SlotOk(s, i); }
  }

  lemma ScheduleNodeKeepsInv(s: State, w: Id)
    requires Inv(s) && Enabled(s, ScheduleNode(w))
    ensures Inv(Step(s, ScheduleNode(w)))
  {
    ScheduleNodeAwaiters(s, w);
    assert s.winner == Some(w);
    LifoTop(s.next, Some(s.setters[w].node), s.parked, 0, Left(s));
  }

  lemma StepKeepsInv(s: State, act: Action)
    requires Inv(s) && Enabled(s, act)
    ensures Inv(Step(s, act))
  {
    match act
    case AwaitReady(a) => LookKeepsInv(s, a, if s.head.Closed? then Through else NotReady);
    case PushLoad(a) => LookKeepsInv(s, a, if s.head.Closed? then Through else Pushing(s.head.top));
    case PushCas(a, spurious) => PushCasKeepsInv(s, a, spurious);
    case AwaitResume(a) => AwaitResumeKeepsInv(s, a);
    case CloseList(w) => CloseListKeepsInv(s, w);
    case StoreResult(w) => StoreResultKeepsInv(s, w);
    case ReadNext(w) => ReadNextKeepsInv(s, w);
    case ScheduleNode(w) => ScheduleNodeKeepsInv(s, w);
  }

  lemma {:induction false} RunKeepsInv(trace: seq<State>, acts: seq<Action>, awaiters: set<Id>, setters: map<Id, Outcome>, i: nat)
    requires IsRun(trace, acts, awaiters, setters) && i < |trace|
    ensures Inv(trace[i])
  {
    if i > 0 {
      RunKeepsInv(trace, acts, awaiters, setters, i - 1);
      StepKeepsInv(trace[i - 1], acts[i - 1]);
    }
  }

  // ---------------------------------------------------------------- whole runs

  /** At most one set call gets past the close; every other one that has closed threw. */
  lemma OneSetSucceeds(trace: seq<State>, acts: seq<Action>, awaiters: set<Id>, setters: map<Id, Outcome>, i: nat)
    requires IsRun(trace, acts, awaiters, setters) && i < |trace|
    ensures forall v, w :: v in trace[i].setters && w in trace[i].setters && Won(trace[i].setters[v]) && Won(trace[i].setters[w]) ==> v == w
    ensures (exists w :: w in trace[i].setters && trace[i].setters[w].Threw?) ==>
      exists w :: w in trace[i].setters && Won(trace[i].setters[w])
  {
    RunKeepsInv(trace, acts, awaiters, setters, i);
    var s := trace[i];
    if s.winner.Some? {
      assert Won(s.setters[s.winner.value]);
    }
  }

  /**
   * Every awaiter whose push succeeded is resumed at most once, newest first, and once the
   * winning set call has returned, exactly once; no list node is touched after its
   * coroutine was scheduled.
   */
  lemma ResumedExactlyOnce(trace: seq<State>, acts: seq<Action>, awaiters: set<Id>, setters: map<Id, Outcome>, i: nat)
    requires IsRun(trace, acts, awaiters, setters) && i < |trace|
    ensures !trace[i].fault
    ensures NoDup(trace[i].parked) && |trace[i].resumed| <= |trace[i].parked|
    ensures forall k :: 0 <= k < |trace[i].resumed| ==> trace[i].resumed[k] == trace[i].parked[|trace[i].parked| - 1 - k]
    ensures (exists w :: w in trace[i].setters && trace[i].setters[w].Done?) ==> |trace[i].resumed| == |trace[i].parked|
  {
    RunKeepsInv(trace, acts, awaiters, setters, i);
    var s := trace[i];
    forall k | 0 <= k < |s.resumed| ensures s.resumed[k] == s.parked[|s.parked| - 1 - k] {
      assert SlotOk(s, |s.parked| - 1 - k);
    }
    forall j, k | 0 <= j < k < |s.parked| ensures s.parked[j] != s.parked[k] {
      assert SlotOk(s, j) && SlotOk(s, k);
    }
    if w :| w in s.setters && s.setters[w].Done? {
      assert s.winner == Some(w);
    }
  }

  /** An awaiter that suspended is resumed only after the result is stored, and gets that result. */
  lemma ParkedSeesResult(trace: seq<State>, acts: seq<Action>, awaiters: set<Id>, setters: map<Id, Outcome>, i: nat, a: Id)
    requires IsRun(trace, acts, awaiters, setters) && i < |trace| && a in trace[i].awaiters
    ensures trace[i].awaiters[a].Scheduled? ==> trace[i].result.Some?
    ensures trace[i].awaiters[a].Finished? && trace[i].awaiters[a].parkedAt.Some? ==>
      trace[i].awaiters[a].saw == trace[i].result && trace[i].result.Some?
  {
    RunKeepsInv(trace, acts, awaiters, setters, i);
    assert AwaiterOk(trace[i], a);
  }

  /** A set call is between its close and its store. */
  ghost predicate SetInProgress(s: State) {
    exists w :: w in s.setters && s.setters[w].Holding?
  }

  ghost predicate ThroughMeansClosed(s: State) {
    forall a :: a in s.awaiters && s.awaiters[a].Through? ==> s.head.Closed?
  }

  lemma {:induction false} RunThroughMeansClosed(trace: seq<State>, acts: seq<Action>, awaiters: set<Id>, setters: map<Id, Outcome>, i: nat)
    requires IsRun(trace, acts, awaiters, setters) && i < |trace|
    ensures ThroughMeansClosed(trace[i])
  {
    if i > 0 {
      RunThroughMeansClosed(trace, acts, awaiters, setters, i - 1);
      assert Enabled(trace[i - 1], acts[i - 1]) && trace[i] == Step(trace[i - 1], acts[i - 1]);
    }
  }

  /**
   * An awaiter that did not suspend (await_ready or push found the list closed) reads a
   * result exactly when no set call is caught between closing the list and storing.
   */
  lemma FastPathSeesResultIff(trace: seq<State>, acts: seq<Action>, awaiters: set<Id>, setters: map<Id, Outcome>, i: nat, a: Id)
    requires IsRun(trace, acts, awaiters, setters) && i < |trace| && Enabled(trace[i], AwaitResume(a))
    ensures Step(trace[i], AwaitResume(a)).awaiters[a].saw.Some? <==> !SetInProgress(trace[i])
  {
    RunKeepsInv(trace, acts, awaiters, setters, i);
    RunThroughMeansClosed(trace, acts, awaiters, setters, i);
    assert AwaiterOk(trace[i], a);
    assert trace[i].head.Closed?;
    assert trace[i].setters[trace[i].winner.value].Holding? <==> SetInProgress(trace[i]);
  }

  /** The gap is real: close, then the whole fast path of an awaiter, before the store. */
  lemma FastPathCanMissResult() returns (trace: seq<State>, acts: seq<Action>)
    ensures IsRun(trace, acts, {0}, map[7 := 42]) && |trace| == 4
    ensures 0 in trace[3].awaiters && trace[3].awaiters[0] == Finished(None, None)
  {
    acts := [CloseList(7), AwaitReady(0), AwaitResume(0)];
    var s0 := Init({0}, map[7 := 42]);
    var s1 := Step(s0, acts[0]);
    var s2 := Step(s1, acts[1]);
    trace := [s0, s1, s2, Step(s2, acts[2])];
  }

  /** Nothing else runs between a set call's close and its store, as when all sides share one scheduler thread. */
  ghost predicate SetsUninterrupted(trace: seq<State>, acts: seq<Action>) {
    |trace| == |acts| + 1 && forall i :: 0 <= i < |acts| && SetInProgress(trace[i]) ==> acts[i].StoreResult?
  }

  ghost predicate AllSeen(s: State) {
    forall a :: a in s.awaiters ==>
      (s.awaiters[a].Through? ==> s.head.Closed?) && (s.awaiters[a].Finished? ==> s.awaiters[a].saw.Some?)
  }

  lemma UninterruptedStep(s: State, act: Action)
    requires Inv(s) && AllSeen(s) && Enabled(s, act) && (SetInProgress(s) ==> act.StoreResult?)
    ensures AllSeen(Step(s, act))
  {
    match act
    case AwaitResume(a) =>
      assert AwaiterOk(s, a);
      assert s.winner.Some? ==> !s.setters[s.winner.value].Holding?;
    case _ =>
  }

  /** Then every awaiter, suspended or not, finds the result. */
  lemma {:induction false} UninterruptedSetsAlwaysSeen(
      trace: seq<State>, acts: seq<Action>, awaiters: set<Id>, setters: map<Id, Outcome>, i: nat)
    requires IsRun(trace, acts, awaiters, setters) && SetsUninterrupted(trace, acts) && i < |trace|
    ensures AllSeen(trace[i])
  {
    if i > 0 {
      UninterruptedSetsAlwaysSeen(trace, acts, awaiters, setters, i - 1);
      RunKeepsInv(trace, acts, awaiters, setters, i - 1);
      UninterruptedStep(trace[i - 1], acts[i - 1]);
    }
  }

  // ---------------------------------------------------------------- what a set call does

  /** Set calls bring what they were given, and the result is what the winner brought. */
  ghost predicate BringsOwn(s: State, setters: map<Id, Outcome>) {
    && (forall w {:trigger s.setters[w]} :: w in s.setters ==>
      w in setters && (s.setters[w].Calling? || s.setters[w].Holding? ==> s.setters[w].outcome == setters[w]))
    && (s.result.Some? ==> s.winner.Some? && s.winner.value in setters && s.result.value == setters[s.winner.value])
  }

  /** In every run the result is what the one call that succeeded was given. */
  lemma {:induction false} ResultIsWinners(trace: seq<State>, acts: seq<Action>, awaiters: set<Id>, setters: map<Id, Outcome>, i: nat)
    requires IsRun(trace, acts, awaiters, setters) && i < |trace|
    ensures BringsOwn(trace[i], setters)
  {
    if i > 0 {
      ResultIsWinners(trace, acts, awaiters, setters, i - 1);
      RunKeepsInv(trace, acts, awaiters, setters, i - 1);
      assert Enabled(trace[i - 1], acts[i - 1]) && trace[i] == Step(trace[i - 1], acts[i - 1]);
    }
  }

  /** The steps lead from s to t. */
  ghost predicate Leads(s: State, acts: seq<Action>, t: State)
    decreases |acts|
  {
    if acts == [] then t == s else Enabled(s, acts[0]) && Leads(Step(s, acts[0]), acts[1..], t)
  }

  /** What a set call does next. */
  function SetAction(r: Setter, w: Id): Action
    requires r.Calling? || (Won(r) && !r.Done?)
  {
    match r
    case Calling(_) => CloseList(w)
    case Holding(_, _) => StoreResult(w)
    case Walking(_) => ReadNext(w)
    case Visiting(_, _) => ScheduleNode(w)
  }

  function Phase(r: Setter): nat {
    match r
    case Calling(_) => 3
    case Holding(_, _) => 2
    case Walking(_) => 1
    case Visiting(_, _) => 1
    case _ => 0
  }

  /** A call that has the list, or may still get it. */
  ghost predicate CanWin(s: State, w: Id) {
    w in s.setters && !s.setters[w].Threw? && s.winner in {None, Some(w)}
  }

  lemma SetAdvances(s: State, w: Id)
    requires Inv(s) && CanWin(s, w) && !s.setters[w].Done?
    ensures (s.setters[w].Calling? || Won(s.setters[w])) && Enabled(s, SetAction(s.setters[w], w))
    ensures
      var t := Step(s, SetAction(s.setters[w], w));
      && Inv(t) && CanWin(t, w) && t.parked == s.parked
      && (s.setters[w].Calling? ==> t.setters[w].Holding? && t.setters[w].outcome == s.setters[w].outcome)
      && (s.setters[w].Holding? ==> t.result == Some(s.setters[w].outcome) && t.setters[w].Walking?)
      && (s.setters[w].Walking? || s.setters[w].Visiting? ==> t.result == s.result)
      && (s.setters[w].Walking? ==> t.setters[w].Done? || (t.setters[w].Visiting? && Left(t) == Left(s)))
      && (s.setters[w].Visiting? ==> t.setters[w].Walking? && Left(t) < Left(s))
  {
    var a := SetAction(s.setters[w], w);
    StepKeepsInv(s, a);
    if s.setters[w].Visiting? {
      var n := s.setters[w].node;
      LifoTop(s.next, Some(n), s.parked, 0, Left(s));
      assert SlotOk(s, Left(s) - 1) && AwaiterOk(s, n);
    }
  }

  lemma {:induction false} SetGoesOn(s: State, w: Id) returns (did: seq<Action>, t: State)
    requires Inv(s) && CanWin(s, w)
    ensures Leads(s, did, t) && Inv(t) && w in t.setters && t.setters[w].Done? && t.parked == s.parked
    ensures s.setters[w].Calling? || s.setters[w].Holding? ==> t.result == Some(s.setters[w].outcome)
    ensures !s.setters[w].Calling? && !s.setters[w].Holding? ==> t.result == s.result
    decreases Phase(s.setters[w]), Left(s), if s.setters[w].Walking? then 1 else 0
  {
    if s.setters[w].Done? {
      did, t := [], s;
    } else {
      var a := SetAction(s.setters[w], w);
      SetAdvances(s, w);
      var rest;
      rest, t := SetGoesOn(Step(s, a), w);
      did := [a] + rest;
      assert did[1..] == rest;
    }
  }

  /**
   * A set call on a promise that is not set, undisturbed, ends with its own outcome stored and
   * everyone who was parked scheduled, each with that outcome to read.
   */
  lemma SetResumesAll(trace: seq<State>, acts: seq<Action>, awaiters: set<Id>, setters: map<Id, Outcome>, i: nat, w: Id)
    returns (did: seq<Action>, t: State)
    requires IsRun(trace, acts, awaiters, setters) && i < |trace| && w in trace[i].setters && trace[i].setters[w].Calling? && trace[i].winner.None?
    ensures Leads(trace[i], did, t) && w in t.setters && t.setters[w].Done?
    ensures w in setters && t.result == Some(setters[w])
    ensures forall k {:trigger trace[i].parked[k]} :: 0 <= k < |trace[i].parked| ==>
      var a := trace[i].parked[k];
      a in t.awaiters && Place(t.awaiters[a]) == Some(k) && !t.awaiters[a].Parked?
  {
    RunKeepsInv(trace, acts, awaiters, setters, i);
    ResultIsWinners(trace, acts, awaiters, setters, i);
    did, t := SetGoesOn(trace[i], w);
    assert WinnerDone(t, w);
    forall k {:trigger trace[i].parked[k]} | 0 <= k < |trace[i].parked|
      ensures var a := trace[i].parked[k]; a in t.awaiters && Place(t.awaiters[a]) == Some(k) && !t.awaiters[a].Parked?
    {
      assert SlotOk(t, k) && AwaiterOk(t, t.parked[k]);
    }
  }

  ghost predicate WinnerDone(s: State, w: Id) {
    s.winner == Some(w) && Left(s) == 0
  }
}
