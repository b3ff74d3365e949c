/**
 * Several coroutines that write to one Channel, as the 100 Continue of one request and the
 * response to the one before it may: TcpConnection.cc has no lock around performWrite, and
 * Channel.cc keeps one writableWaiter. Channel proves the handshake for one writer.
 */
module Writers {
  import opened Prelude

  type Id = nat

  /** performWrite of one coroutine. */
  datatype Pc = Idle | AtCall | Suspended | Scheduled

  datatype State = State(
    writable: bool, errored: bool, canceled: bool,
    waiter: Option<Id>,      // the handle in writableWaiter
    running: Option<Id>,     // who has the scheduler thread
    pcs: map<Id, Pc>)

  datatype Action =
    | Begin(i: Id)
    | Call(i: Id, again: bool)  // the system call, with EAGAIN or otherwise
    | Resume(i: Id)
    | Writable | Error | CancelWrite

  function Init(writers: set<Id>): State {
    State(true, false, false, None, None, map i | i in writers :: Idle)
  }

  predicate Enabled(s: State, a: Action) {
    match a
    case Begin(i) => s.running.None? && i in s.pcs && s.pcs[i].Idle?
    case Call(i, _) => s.running == Some(i) && i in s.pcs && s.pcs[i].AtCall?
    case Resume(i) => s.running.None? && i in s.pcs && s.pcs[i].Scheduled?
    case _ => s.running.None?
  }

  function Put(s: State, i: Id, pc: Pc): State {
    s.(pcs := s.pcs[i := pc], running := if pc.AtCall? then Some(i) else None)
  }

  /** After the awaiter: a cancel flag ends the operation, otherwise on to the call. */
  function Awaited(s: State, i: Id): State {
    if s.canceled then Put(s.(canceled := false), i, Idle) else Put(s, i, AtCall)
  }

  /** The head of the loop of performImpl: on to the call, past an awaiter that is ready, or await_suspend. */
  function Await(s: State, i: Id): State {
    if s.writable then Put(s, i, AtCall) else if s.errored then Awaited(s, i) else Put(s, i, Suspended).(waiter := Some(i))
  }

  /** Whoever is stored is handed to the scheduler. */
  function Wake(s: State): State {
    match s.waiter
    case None => s
    case Some(i) => s.(waiter := None, pcs := s.pcs[i := Scheduled])
  }

  function Step(s: State, a: Action): State
    requires Enabled(s, a)
  {
    match a
    case Begin(i) => Await(s, i)
    case Call(i, again) => if again then Await(s.(writable := false), i) else Put(s, i, Idle)
    case Resume(i) => Awaited(s, i)
    case Writable => Wake(s.(writable := true))
    case Error => Wake(s.(errored := true))
    case CancelWrite => if s.waiter.None? then s else Wake(s.(canceled := true))
  }

  ghost predicate IsRun(trace: seq<State>, acts: seq<Action>, writers: set<Id>) {
    && |trace| == |acts| + 1 && trace[0] == Init(writers)
    && forall i {:trigger acts[i]} :: 0 <= i < |acts| ==> Enabled(trace[i], acts[i]) && trace[i + 1] == Step(trace[i], acts[i])
  }

  // ---------------------------------------------------------------- lost writers

  /** Suspended, and nobody holds the handle: no event and no cancel will resume it. */
  predicate Lost(s: State, i: Id) {
    i in s.pcs && s.pcs[i].Suspended? && s.waiter != Some(i)
  }

  /** A writer has to wait, at the beginning or after EAGAIN, while another one is stored. */
  predicate Overwrites(s: State, a: Action) {
    s.waiter.Some? && !s.errored && ((a.Begin? && !s.writable) || (a.Call? && a.again))
  }

  /** The one stored is suspended. */
  predicate StoredOk(s: State) {
    && (s.waiter.Some? ==> s.waiter.value in s.pcs && s.pcs[s.waiter.value].Suspended?)
    && (s.running.Some? ==> s.running.value in s.pcs && s.pcs[s.running.value].AtCall?)
  }

  lemma {:induction false} RunStoredOk(trace: seq<State>, acts: seq<Action>, writers: set<Id>, n: nat)
    requires IsRun(trace, acts, writers) && n < |trace|
    ensures StoredOk(trace[n])
  {
    if n > 0 {
      RunStoredOk(trace, acts, writers, n - 1);
      assert Enabled(trace[n - 1], acts[n - 1]) && trace[n] == Step(trace[n - 1], acts[n - 1]);
    }
  }

  lemma LostStep(s: State, a: Action, i: Id)
    requires Enabled(s, a) && StoredOk(s) && Lost(s, i)
    ensures Lost(Step(s, a), i)
  {
  }

  /** Once lost, never resumed: it stays suspended for the rest of the run. */
  lemma {:induction false} LostForever(trace: seq<State>, acts: seq<Action>, writers: set<Id>, m: nat, n: nat, i: Id)
    requires IsRun(trace, acts, writers) && m <= n < |trace| && Lost(trace[m], i)
    ensures Lost(trace[n], i)
    decreases n
  {
    if m < n {
      LostForever(trace, acts, writers, m, n - 1, i);
      RunStoredOk(trace, acts, writers, n - 1);
      assert Enabled(trace[n - 1], acts[n - 1]);
      LostStep(trace[n - 1], acts[n - 1], i);
    }
  }

  /** Nobody suspends on top of another before state n. */
  ghost predicate NoOverwrite(trace: seq<State>, acts: seq<Action>, writers: set<Id>, n: nat)
    requires IsRun(trace, acts, writers) && n < |trace|
  {
    forall k {:trigger acts[k]} :: 0 <= k < n ==> !Overwrites(trace[k], acts[k])
  }

  lemma NoneLostStep(s: State, a: Action, i: Id)
    requires Enabled(s, a) && StoredOk(s) && !Overwrites(s, a) && !Lost(s, i)
    ensures !Lost(Step(s, a), i)
  {
  }

  lemma {:induction false} NoneLost(trace: seq<State>, acts: seq<Action>, writers: set<Id>, n: nat, i: Id)
    requires IsRun(trace, acts, writers) && n < |trace| && NoOverwrite(trace, acts, writers, n)
    ensures !Lost(trace[n], i)
  {
    if n > 0 {
      NoneLost(trace, acts, writers, n - 1, i);
      RunStoredOk(trace, acts, writers, n - 1);
      assert Enabled(trace[n - 1], acts[n - 1]) && !Overwrites(trace[n - 1], acts[n - 1]);
      NoneLostStep(trace[n - 1], acts[n - 1], i);
    }
  }

  /** Exactly then: some writer is lost if and only if one suspended while another was stored. */
  lemma LostIff(trace: seq<State>, acts: seq<Action>, writers: set<Id>, n: nat)
    requires IsRun(trace, acts, writers) && n < |trace|
    ensures (exists i :: Lost(trace[n], i)) <==> !NoOverwrite(trace, acts, writers, n)
  {
    if NoOverwrite(trace, acts, writers, n) {
      forall i ensures !Lost(trace[n], i) {
        NoneLost(trace, acts, writers, n, i);
      }
    } else {
      var k :| 0 <= k < n && Overwrites(trace[k], acts[k]);
      var i := trace[k].waiter.value;
      RunStoredOk(trace, acts, writers, k);
      assert trace[k + 1] == Step(trace[k], acts[k]);
      LostForever(trace, acts, writers, k + 1, n, i);
    }
  }

  /** One writer at a time: whoever begins finds nobody stored, so nobody is ever lost. */
  lemma AloneNeverLost(trace: seq<State>, acts: seq<Action>, writer: Id, n: nat, i: Id)
    requires IsRun(trace, acts, {writer}) && n < |trace|
    ensures !Lost(trace[n], i)
  {
    forall k {:trigger acts[k]} | 0 <= k < n ensures !Overwrites(trace[k], acts[k]) {
      RunStoredOk(trace, acts, {writer}, k);
      SameWriters(trace, acts, {writer}, k);
      SameWriters(trace, acts, {writer}, k + 1);
      RunStoredOk(trace, acts, {writer}, k + 1);
    }
    NoneLost(trace, acts, {writer}, n, i);
  }

  lemma {:induction false} SameWriters(trace: seq<State>, acts: seq<Action>, writers: set<Id>, n: nat)
    requires IsRun(trace, acts, writers) && n < |trace|
    ensures trace[n].pcs.Keys == writers
  {
    if n > 0 {
      SameWriters(trace, acts, writers, n - 1);
      RunStoredOk(trace, acts, writers, n - 1);
      assert Enabled(trace[n - 1], acts[n - 1]) && trace[n] == Step(trace[n - 1], acts[n - 1]);
    }
  }

  /** It happens: a response fills the socket and suspends, and an interim response suspends on top of it. */
  lemma SecondWriterLosesFirst() returns (trace: seq<State>, acts: seq<Action>)
    ensures IsRun(trace, acts, {0, 1}) && |acts| == 4
    ensures Lost(trace[4], 0) && 1 in trace[4].pcs && trace[4].pcs[1].Scheduled?
  {
    acts := [Begin(0), Call(0, true), Begin(1), Writable];
    var s0 := Init({0, 1});
    var s1 := Step(s0, acts[0]);
    var s2 := Step(s1, acts[1]);
    var s3 := Step(s2, acts[2]);
    trace := [s0, s1, s2, s3, Step(s3, acts[3])];
  }

  // ---------------------------------------------------------------- what the steps do

  /** What the last word on writability before step n was: an event, or EAGAIN. */
  function SaysWritable(acts: seq<Action>, n: nat): bool
    requires n <= |acts|
  {
    if n == 0 then true
    else if acts[n - 1].Writable? then true
    else if acts[n - 1].Call? && acts[n - 1].again then false
    else SaysWritable(acts, n - 1)
  }

  function SaysErrored(acts: seq<Action>, n: nat): bool
    requires n <= |acts|
  {
    n > 0 && (acts[n - 1].Error? || SaysErrored(acts, n - 1))
  }

  /** In every run the flags are what the events and calls so far have said. */
  lemma {:induction false} FlagsAre(trace: seq<State>, acts: seq<Action>, writers: set<Id>, n: nat)
    requires IsRun(trace, acts, writers) && n < |trace|
    ensures (trace[n].writable <==> SaysWritable(acts, n)) && (trace[n].errored <==> SaysErrored(acts, n))
  {
    if n > 0 {
      FlagsAre(trace, acts, writers, n - 1);
      assert Enabled(trace[n - 1], acts[n - 1]) && trace[n] == Step(trace[n - 1], acts[n - 1]);
    }
  }

  /**
   * In every run a stored writer is scheduled by the next event or cancel, and resumed it
   * returns if there was a cancel and is otherwise at its call, from which it returns too.
   */
  lemma StoredIsServed(trace: seq<State>, acts: seq<Action>, writers: set<Id>, n: nat, i: Id, event: Action)
    requires IsRun(trace, acts, writers) && n < |trace| && trace[n].waiter == Some(i) && trace[n].running.None?
    requires event in {Writable, Error, CancelWrite}
    ensures Enabled(trace[n], event)
    ensures
      var s := Step(trace[n], event);
      && s.waiter.None? && i in s.pcs && s.pcs[i].Scheduled? && Enabled(s, Resume(i))
      && var t := Step(s, Resume(i));
         && i in t.pcs && !t.canceled
         && (trace[n].canceled || event.CancelWrite? ==> t.pcs[i].Idle? && t.running.None?)
         && (!trace[n].canceled && !event.CancelWrite? ==>
              t.pcs[i].AtCall? && Enabled(t, Call(i, false)) && i in Step(t, Call(i, false)).pcs && Step(t, Call(i, false)).pcs[i].Idle?)
  {
    RunStoredOk(trace, acts, writers, n);
  }

  /** In every run who begins to write is at the call at once if the channel is writable, and suspended and stored if it is neither that nor errored. */
  lemma BeginWaitsIff(trace: seq<State>, acts: seq<Action>, writers: set<Id>, n: nat, i: Id)
    requires IsRun(trace, acts, writers) && n < |trace| && Enabled(trace[n], Begin(i))
    ensures
      var t := Step(trace[n], Begin(i));
      && i in t.pcs
      && (SaysWritable(acts, n) ==> t.pcs[i].AtCall? && t.waiter == trace[n].waiter)
      && (!SaysWritable(acts, n) && !SaysErrored(acts, n) ==> t.pcs[i].Suspended? && t.waiter == Some(i))
      && (!SaysWritable(acts, n) && SaysErrored(acts, n) ==> t.waiter == trace[n].waiter && if trace[n].canceled then t.pcs[i].Idle? else t.pcs[i].AtCall?)
  {
    FlagsAre(trace, acts, writers, n);
  }

  /** A cancel that finds nobody stored changes nothing: it is not kept for the next writer. */
  lemma CancelOfNobody(trace: seq<State>, acts: seq<Action>, writers: set<Id>, n: nat)
    requires IsRun(trace, acts, writers) && n < |acts| && acts[n].CancelWrite? && trace[n].waiter.None?
    ensures trace[n + 1] == trace[n]
  {
    assert trace[n + 1] == Step(trace[n], acts[n]);
  }
}
