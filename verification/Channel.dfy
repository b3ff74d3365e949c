/**
 * The readiness handshake of Channel: one reader and one writer coroutine in performImpl,
 * the epoll event handler, cancel, and an edge-triggered kernel. All but the kernel share
 * the scheduler thread, so at most one coroutine is between suspension points.
 */
module Channel {
  import opened Prelude

  datatype Which = Reading | Writing

  /** performImpl of one operation. */
  datatype Pc =
    | Idle
    | Top(wait: bool)     // head of the loop; `wait`: pendingWait names this direction
    | Check               // just after co_await of the awaiter
    | AtCall              // about to invoke the adapter
    | GotAgain            // the system call returned EAGAIN
    | Armed               // the adapter has made sure the event is enabled
    | Waiting             // suspended, handle stored as the waiter
    | Scheduled           // handle handed to the scheduler

  datatype Outcome = Canceled | Other

  /**
   * One direction: IoState's flags, the kernel's side of it (`avail` units or a hangup make
   * the call succeed; `armed` and `pending` are epoll's interest and undelivered edge) and
   * history: `suspensions`, `schedules`, `returned` outcomes by operation, and `canceledOps`,
   * the operations whose waiter a cancel took.
   */
  datatype Side = Side(
    ready: bool, waiter: bool, canceled: bool, pc: Pc,
    avail: nat, hangup: bool, armed: bool, pending: bool,
    suspensions: nat, schedules: nat, returned: seq<Outcome>, canceledOps: set<nat>)

  datatype State = State(read: Side, write: Side, errored: bool, errorPending: bool, running: Option<Which>, fault: bool)

  datatype Reply =
    | Took(n: nat)        // some units, operation complete
    | Partly(n: nat)      // some units, adapter asks to go on (writer)
    | Hangup | Again | Interrupted | Failed

  /** What the coroutine of one side does, and what the kernel does to one side. */
  datatype Move =
    | Begin | Resume | LoopTop | CheckCancel | Call(reply: Reply) | Arm | ClearReady
    | KernelReady(n: nat) | KernelHangup | KernelDrop | KernelSpurious

  datatype Action =
    | On(w: Which, m: Move)
    | Deliver(err: bool, input: bool, output: bool)  // handleIoEvents
    | Cancel(w: Which)                               // cancelRead, cancelWrite
    | KernelError

  function Init(): State {
    State(Side(false, false, false, Idle, 0, false, true, false, 0, 0, [], {}),
          Side(true, false, false, Idle, 0, false, false, false, 0, 0, [], {}),
          false, false, None, false)
  }

  function Get(s: State, w: Which): Side {
    if w.Reading? then s.read else s.write
  }

  function Put(s: State, w: Which, d: Side): State {
    if w.Reading? then s.(read := d) else s.(write := d)
  }

  predicate ReplyFits(d: Side, r: Reply) {
    match r
    case Took(n) => 0 < n <= d.avail
    case Partly(n) => 0 < n <= d.avail
    case Hangup => d.avail == 0 && d.hangup
    case Again => d.avail == 0 && !d.hangup
    case _ => true
  }

  predicate Kernel(m: Move) {
    m.KernelReady? || m.KernelHangup? || m.KernelDrop? || m.KernelSpurious?
  }

  predicate CanMove(d: Side, m: Move) {
    match m
    case Begin => d.pc.Idle?
    case Resume => d.pc.Scheduled?
    case LoopTop => d.pc.Top?
    case CheckCancel => d.pc.Check?
    case Call(r) => d.pc.AtCall? && ReplyFits(d, r)
    case Arm => d.pc.GotAgain?
    case ClearReady => d.pc.Armed?
    case KernelDrop => d.avail == 0 && !d.hangup
    case _ => true
  }

  /** Coroutines enter only a free thread and run on until they suspend or return; the kernel needs no permission. */
  predicate Enabled(s: State, a: Action) {
    match a
    case On(w, m) => CanMove(Get(s, w), m) && (Kernel(m) || s.running == if m.Begin? || m.Resume? then None else Some(w))
    case Deliver(err, i, o) =>
      s.running.None? && (err ==> s.errorPending) && (i ==> s.read.pending) && (o ==> s.write.pending)
    case Cancel(w) => s.running.None?
    case KernelError => true
  }

  function Return(d: Side, r: Outcome): Side {
    d.(pc := Idle, returned := d.returned + [r])
  }

  function Reacted(d: Side, w: Which, r: Reply): Side
    requires ReplyFits(d, r)
  {
    match r
    case Took(n) => Return(d.(avail := d.avail - n, armed := w.Reading?, pending := d.pending && w.Reading?), Other)
    case Partly(n) => d.(avail := d.avail - n, pc := Top(false))
    case Again => d.(pc := GotAgain)
    case Interrupted => d.(pc := Top(false))
    case _ => Return(d, Other)
  }

  function Moved(d: Side, w: Which, errored: bool, m: Move): Side
    requires CanMove(d, m)
  {
    match m
    case Begin => d.(pc := Top(true))
    case Resume => d.(pc := Check)
    case LoopTop =>
      if !d.pc.wait || d.ready then d.(pc := AtCall)
      else if errored then d.(pc := Check)
      else d.(pc := Waiting, waiter := true, suspensions := d.suspensions + 1)
    case CheckCancel => if d.canceled then Return(d.(canceled := false), Canceled) else d.(pc := AtCall)
    case Call(r) => Reacted(d, w, r)
    case Arm =>
      // enableWriting: adding the interest reports readiness that is already there.
      if d.armed then d.(pc := Armed)
      else d.(pc := Armed, armed := true, pending := d.pending || d.avail > 0 || d.hangup)
    case ClearReady => d.(ready := false, pc := Top(true))
    case KernelReady(n) => d.(avail := d.avail + n, pending := d.pending || (d.armed && n > 0))
    case KernelHangup => d.(hangup := true, pending := d.pending || d.armed)
    case KernelDrop => d.(pending := false)
    case KernelSpurious => d.(pending := d.pending || d.armed)
  }

  /** Take the stored waiter, if any, and hand it to the scheduler. */
  function Wake(d: Side): Side {
    if d.waiter then d.(waiter := false, pc := Scheduled, schedules := d.schedules + 1) else d
  }

  function Handled(d: Side, err: bool, ready: bool): Side {
    var d0 := if err then Wake(d) else d;
    if ready then Wake(d0.(ready := true, pending := false)) else d0
  }

  /** A stored handle that does not belong to a suspended coroutine. */
  predicate StaleWaiter(d: Side) {
    d.waiter && !d.pc.Waiting?
  }

  function Step(s: State, a: Action): State
    requires Enabled(s, a)
  {
    match a
    case On(w, m) =>
      var d := Moved(Get(s, w), w, s.errored, m);
      var t := Put(s, w, d);
      if Kernel(m) then t else t.(running := if InSegment(d.pc) then Some(w) else None)
    case Deliver(err, i, o) =>
      s.(read := Handled(s.read, err, i), write := Handled(s.write, err, o),
         errored := s.errored || err, errorPending := s.errorPending && !err,
         fault := s.fault || StaleWaiter(s.read) || StaleWaiter(s.write))
    case Cancel(w) =>
      var d := Get(s, w);
      if !d.waiter then s else
      Put(s, w, Wake(d.(canceled := true, canceledOps := d.canceledOps + {|d.returned|})))
        .(fault := s.fault || StaleWaiter(d))
    case KernelError => s.(errorPending := true)
  }

  ghost predicate IsRun(trace: seq<State>, acts: seq<Action>) {
    && |trace| == |acts| + 1 && trace[0] == Init()
    && forall i :: 0 <= i < |acts| ==> Enabled(trace[i], acts[i]) && trace[i + 1] == Step(trace[i], acts[i])
  }

  // ---------------------------------------------------------------- invariant

  predicate InSegment(pc: Pc) {
    pc.Top? || pc.Check? || pc.AtCall? || pc.GotAgain? || pc.Armed?
  }

  ghost predicate SideOk(d: Side, errored: bool, runs: bool) {
    && (InSegment(d.pc) <==> runs)
    // the stored waiter
    && (d.waiter <==> d.pc.Waiting?)
    && (d.waiter ==> !d.ready && !errored)
    // scheduling
    && d.suspensions == d.schedules + (if d.pc.Waiting? then 1 else 0)
    // readiness
    && ((d.pc.AtCall? || d.pc == Top(false) || d.pc.GotAgain? || d.pc.Armed?) ==> d.ready || errored)
    && (d.pc.Scheduled? || d.pc.Check? ==> d.ready || errored || d.canceled)
    && ((!d.ready && !errored) || d.pc.Armed? ==> d.armed)
    && ((d.avail > 0 || d.hangup) && d.armed ==> d.pending || (d.ready && !d.pc.GotAgain? && !d.pc.Armed?))
  }

  /** The cancel flag belongs to the current operation, and past outcomes match past cancels. */
  ghost predicate CancelOk(d: Side) {
    && (d.canceled ==> d.pc.Scheduled? || d.pc.Check?)
    && (forall i {:trigger OpOk(d.returned, d.canceledOps, d.canceled, i)} :: OpOk(d.returned, d.canceledOps, d.canceled, i))
  }

  ghost predicate OpOk(returned: seq<Outcome>, canceledOps: set<nat>, canceled: bool, i: nat) {
    i in canceledOps <==> if i < |returned| then returned[i].Canceled? else i == |returned| && canceled
  }

  ghost predicate Inv(s: State) {
    && !s.fault && s.read.armed
    && SideOk(s.read, s.errored, s.running == Some(Reading)) && CancelOk(s.read)
    && SideOk(s.write, s.errored, s.running == Some(Writing)) && CancelOk(s.write)
  }

  // ---------------------------------------------------------------- one step

  /** Some units are taken, and the writer's interest is dropped again. */
  lemma TookOk(d: Side, w: Which, errored: bool, n: nat)
    requires SideOk(d, errored, true) && d.pc.AtCall? && ReplyFits(d, Took(n)) && (w.Reading? ==> d.armed)
    ensures SideOk(Reacted(d, w, Took(n)), errored, false)
  {
  }

  lemma ReactedOk(d: Side, w: Which, errored: bool, r: Reply)
    requires SideOk(d, errored, true) && d.pc.AtCall? && ReplyFits(d, r) && (w.Reading? ==> d.armed)
    ensures SideOk(Reacted(d, w, r), errored, InSegment(Reacted(d, w, r).pc))
  {
    match r
    case Took(n) => TookOk(d, w, errored, n);
    case _ =>
  }

  lemma KernelMoveOk(d: Side, w: Which, errored: bool, m: Move)
    requires SideOk(d, errored, InSegment(d.pc)) && CanMove(d, m) && Kernel(m)
    ensures SideOk(Moved(d, w, errored, m), errored, InSegment(d.pc))
  {
  }

  lemma MoveKeepsSideOk(d: Side, w: Which, errored: bool, m: Move)
    requires SideOk(d, errored, InSegment(d.pc)) && CancelOk(d) && CanMove(d, m) && (w.Reading? ==> d.armed)
    ensures SideOk(Moved(d, w, errored, m), errored, InSegment(Moved(d, w, errored, m).pc))
  {
    match m
    case Call(r) => ReactedOk(d, w, errored, r);
    case Begin =>
    case Resume =>
    case LoopTop =>
    case CheckCancel =>
    case Arm =>
    case ClearReady =>
    case _ => KernelMoveOk(d, w, errored, m);
  }

  lemma ReturnCancelOk(d: Side, d': Side, r: Outcome)
    requires CancelOk(d) && (r.Canceled? <==> d.canceled) && !d'.canceled
    requires d'.returned == d.returned + [r] && d'.canceledOps == d.canceledOps
    ensures CancelOk(d')
  {
    forall i ensures OpOk(d'.returned, d'.canceledOps, d'.canceled, i) {
      assert OpOk(d.returned, d.canceledOps, d.canceled, i);
    }
  }

  lemma MoveKeepsCancelOk(d: Side, w: Which, errored: bool, m: Move)
    requires CancelOk(d) && CanMove(d, m)
    ensures CancelOk(Moved(d, w, errored, m))
  {
    match m
    case Call(r) => ReactedCancelOk(d, w, r);
    case CheckCancel => CheckCancelOk(d, w, errored);
    case _ =>
      var d' := Moved(d, w, errored, m);
      assert d'.returned == d.returned && d'.canceledOps == d.canceledOps && d'.canceled == d.canceled;
  }

  lemma ReactedCancelOk(d: Side, w: Which, r: Reply)
    requires CancelOk(d) && d.pc.AtCall? && ReplyFits(d, r)
    ensures CancelOk(Reacted(d, w, r))
  {
    if !r.Partly? && !r.Again? && !r.Interrupted? {
      ReturnCancelOk(d, Reacted(d, w, r), Other);
    }
  }

  lemma CheckCancelOk(d: Side, w: Which, errored: bool)
    requires CancelOk(d) && d.pc.Check?
    ensures CancelOk(Moved(d, w, errored, CheckCancel))
  {
    if d.canceled {
      ReturnCancelOk(d, Moved(d, w, errored, CheckCancel), Canceled);
    }
  }

  lemma HandledOk(d: Side, errored: bool, err: bool, ready: bool)
    requires SideOk(d, errored, false) && CancelOk(d)
    ensures SideOk(Handled(d, err, ready), errored || err, false) && CancelOk(Handled(d, err, ready))
  {
  }

  lemma CancelKeepsOk(d: Side, errored: bool)
    requires SideOk(d, errored, false) && CancelOk(d) && d.waiter
    ensures var d' := Wake(d.(canceled := true, canceledOps := d.canceledOps + {|d.returned|}));
      SideOk(d', errored, false) && CancelOk(d')
  {
    var d' := Wake(d.(canceled := true, canceledOps := d.canceledOps + {|d.returned|}));
    forall i ensures OpOk(d'.returned, d'.canceledOps, d'.canceled, i) {
      assert OpOk(d.returned, d.canceledOps, d.canceled, i);
    }
  }

  /** One side changes, and the thread is handed over only between it and nobody. */
  lemma PutKeepsInv(s: State, w: Which, d: Side, running: Option<Which>)
    requires Inv(s) && SideOk(d, s.errored, running == Some(w)) && CancelOk(d) && (w.Reading? ==> d.armed)
    requires running == s.running || (running in {None, Some(w)} && s.running in {None, Some(w)})
    ensures Inv(Put(s, w, d).(running := running))
  {
  }

  lemma MoveKeepsArmed(d: Side, errored: bool, m: Move)
    requires CanMove(d, m) && d.armed
    ensures Moved(d, Reading, errored, m).armed
  {
  }

  lemma KernelKeepsInv(s: State, w: Which, m: Move)
    requires Inv(s) && Enabled(s, On(w, m)) && Kernel(m)
    ensures Inv(Step(s, On(w, m)))
  {
    KernelMoveOk(Get(s, w), w, s.errored, m);
    MoveKeepsCancelOk(Get(s, w), w, s.errored, m);
    PutKeepsInv(s, w, Moved(Get(s, w), w, s.errored, m), s.running);
  }

  lemma CoroutineKeepsInv(s: State, w: Which, m: Move)
    requires Inv(s) && Enabled(s, On(w, m)) && !Kernel(m)
    ensures Inv(Step(s, On(w, m)))
  {
    var d := Get(s, w);
    MoveKeepsSideOk(d, w, s.errored, m);
    MoveKeepsCancelOk(d, w, s.errored, m);
    if w.Reading? { MoveKeepsArmed(d, s.errored, m); }
    var d' := Moved(d, w, s.errored, m);
    PutKeepsInv(s, w, d', if InSegment(d'.pc) then Some(w) else None);
  }

  lemma DeliverKeepsInv(s: State, err: bool, i: bool, o: bool)
    requires Inv(s) && Enabled(s, Deliver(err, i, o))
    ensures Inv(Step(s, Deliver(err, i, o)))
  {
    HandledOk(s.read, s.errored, err, i);
    HandledOk(s.write, s.errored, err, o);
  }

  lemma CancelKeepsInv(s: State, w: Which)
    requires Inv(s) && Enabled(s, Cancel(w))
    ensures Inv(Step(s, Cancel(w)))
  {
    var d := Get(s, w);
    if d.waiter {
      CancelKeepsOk(d, s.errored);
      PutKeepsInv(s, w, Wake(d.(canceled := true, canceledOps := d.canceledOps + {|d.returned|})), s.running);
    }
  }

  lemma StepKeepsInv(s: State, a: Action)
    requires Inv(s) && Enabled(s, a)
    ensures Inv(Step(s, a))
  {
    match a
    case On(w, m) => if Kernel(m) { KernelKeepsInv(s, w, m); } else { CoroutineKeepsInv(s, w, m); }
    case Deliver(err, i, o) => DeliverKeepsInv(s, err, i, o);
    case Cancel(w) => CancelKeepsInv(s, w);
    case KernelError =>
  }

  // ---------------------------------------------------------------- whole runs

  lemma {:induction false} RunKeepsInv(trace: seq<State>, acts: seq<Action>, i: nat)
    requires IsRun(trace, acts) && i < |trace|
    ensures Inv(trace[i])
  {
    if i == 0 {
      assert forall k: nat :: OpOk([], {}, false, k);
    } else {
      RunKeepsInv(trace, acts, i - 1);
      StepKeepsInv(trace[i - 1], acts[i - 1]);
    }
  }

  /** A coroutine suspended although the kernel could serve it has an event on its way. */
  lemma SuspendedHasEventComing(trace: seq<State>, acts: seq<Action>, i: nat, w: Which)
    requires IsRun(trace, acts) && i < |trace|
    requires Get(trace[i], w).pc.Waiting? && (Get(trace[i], w).avail > 0 || Get(trace[i], w).hangup)
    ensures Get(trace[i], w).pending
  {
    RunKeepsInv(trace, acts, i);
  }

  /** Each suspension is scheduled once: no handle is stored, or handed over, that is not suspended. */
  lemma ScheduledExactlyOnce(trace: seq<State>, acts: seq<Action>, i: nat, w: Which)
    requires IsRun(trace, acts) && i < |trace|
    ensures !trace[i].fault
    ensures Get(trace[i], w).waiter <==> Get(trace[i], w).pc.Waiting?
    ensures Get(trace[i], w).suspensions == Get(trace[i], w).schedules + if Get(trace[i], w).waiter then 1 else 0
    ensures Get(trace[i], w).waiter ==> !Get(trace[i], w).ready && !trace[i].errored
  {
    RunKeepsInv(trace, acts, i);
  }

  /** An operation returns Canceled exactly when a cancel took its own waiter, and no flag outlives its operation. */
  lemma CancelHitsItsOperation(trace: seq<State>, acts: seq<Action>, i: nat, w: Which)
    requires IsRun(trace, acts) && i < |trace|
    ensures forall k :: 0 <= k < |Get(trace[i], w).returned| ==>
      (Get(trace[i], w).returned[k].Canceled? <==> k in Get(trace[i], w).canceledOps)
    ensures Get(trace[i], w).pc.Idle? ==> !Get(trace[i], w).canceled
  {
    RunKeepsInv(trace, acts, i);
    var d := Get(trace[i], w);
    forall k | 0 <= k < |d.returned| ensures d.returned[k].Canceled? <==> k in d.canceledOps {
      assert OpOk(d.returned, d.canceledOps, d.canceled, k);
    }
  }

  // ---------------------------------------------------------------- what the steps do

  /** The units the kernel had for one side, and the units its calls took. */
  function Supplied(acts: seq<Action>, n: nat, w: Which): nat
    requires n <= |acts|
  {
    if n == 0 then 0
    else Supplied(acts, n - 1, w) + if acts[n - 1].On? && acts[n - 1].w == w && acts[n - 1].m.KernelReady? then acts[n - 1].m.n else 0
  }

  function TakenBy(a: Action, w: Which): nat {
    if a.On? && a.w == w && a.m.Call? && (a.m.reply.Took? || a.m.reply.Partly?) then a.m.reply.n else 0
  }

  function Taken(acts: seq<Action>, n: nat, w: Which): nat
    requires n <= |acts|
  {
    if n == 0 then 0 else Taken(acts, n - 1, w) + TakenBy(acts[n - 1], w)
  }

  lemma TookUnits(d: Side, w: Which, n: nat)
    requires ReplyFits(d, Took(n))
    ensures d.avail == Reacted(d, w, Took(n)).avail + n
  {
  }

  lemma CallUnits(d: Side, w: Which, r: Reply)
    requires ReplyFits(d, r)
    ensures d.avail == Reacted(d, w, r).avail + if r.Took? || r.Partly? then r.n else 0
  {
    match r
    case Took(n) => TookUnits(d, w, n);
    case Partly(n) =>
    case _ => assert Reacted(d, w, r).avail == d.avail;
  }

  lemma MoveUnits(d: Side, w: Which, errored: bool, m: Move)
    requires CanMove(d, m)
    ensures m.Call? ==> d.avail == Moved(d, w, errored, m).avail + if m.reply.Took? || m.reply.Partly? then m.reply.n else 0
    ensures !m.Call? ==> Moved(d, w, errored, m).avail == d.avail + if m.KernelReady? then m.n else 0
  {
    if m.Call? {
      CallUnits(d, w, m.reply);
    }
  }

  lemma StepUnits(s: State, a: Action, w: Which)
    requires Enabled(s, a)
    ensures Get(s, w).avail + (if a.On? && a.w == w && a.m.KernelReady? then a.m.n else 0) == Get(Step(s, a), w).avail + TakenBy(a, w)
  {
    if a.On? {
      MoveUnits(Get(s, a.w), a.w, s.errored, a.m);
    }
  }

  /** In every run what the kernel had for one side is what the calls took and what is still there. */
  lemma {:induction false} UnitsConserved(trace: seq<State>, acts: seq<Action>, i: nat, w: Which)
    requires IsRun(trace, acts) && i < |trace|
    ensures Supplied(acts, i, w) == Taken(acts, i, w) + Get(trace[i], w).avail
  {
    if i > 0 {
      UnitsConserved(trace, acts, i - 1, w);
      assert Enabled(trace[i - 1], acts[i - 1]);
      StepUnits(trace[i - 1], acts[i - 1], w);
    }
  }

  /** In every run the channel is errored exactly if an error event was delivered. */
  lemma {:induction false} ErroredIff(trace: seq<State>, acts: seq<Action>, i: nat)
    requires IsRun(trace, acts) && i < |trace|
    ensures trace[i].errored <==> exists k {:trigger acts[k]} :: 0 <= k < i && acts[k].Deliver? && acts[k].err
  {
    if i > 0 {
      ErroredIff(trace, acts, i - 1);
      assert Enabled(trace[i - 1], acts[i - 1]) && trace[i] == Step(trace[i - 1], acts[i - 1]);
    }
  }

  /** What the last word on readiness was: an event, or EAGAIN. */
  function SaysReady(acts: seq<Action>, n: nat, w: Which): bool
    requires n <= |acts|
  {
    if n == 0 then w.Writing?
    else if DeliversTo(acts[n - 1], w) then true
    else if acts[n - 1] == On(w, ClearReady) then false
    else SaysReady(acts, n - 1, w)
  }

  lemma TookFlags(d: Side, w: Which, n: nat)
    requires ReplyFits(d, Took(n))
    ensures Reacted(d, w, Took(n)).ready == d.ready && Reacted(d, w, Took(n)).hangup == d.hangup
  {
  }

  lemma CallFlags(d: Side, w: Which, r: Reply)
    requires ReplyFits(d, r)
    ensures Reacted(d, w, r).ready == d.ready && Reacted(d, w, r).hangup == d.hangup
  {
    match r
    case Took(n) => TookFlags(d, w, n);
    case Partly(n) =>
    case _ =>
  }

  lemma MoveFlags(d: Side, w: Which, errored: bool, m: Move)
    requires CanMove(d, m)
    ensures Moved(d, w, errored, m).ready == (d.ready && !m.ClearReady?)
    ensures Moved(d, w, errored, m).hangup == (d.hangup || m.KernelHangup?)
  {
    match m
    case Call(r) => CallFlags(d, w, r);
    case CheckCancel =>
    case LoopTop =>
    case Arm =>
    case _ =>
  }

  lemma StepFlags(s: State, a: Action, w: Which)
    requires Enabled(s, a)
    ensures Get(Step(s, a), w).ready == (DeliversTo(a, w) || (Get(s, w).ready && a != On(w, ClearReady)))
    ensures Get(Step(s, a), w).hangup == (Get(s, w).hangup || a == On(w, KernelHangup))
  {
    if a.On? {
      MoveFlags(Get(s, a.w), a.w, s.errored, a.m);
    }
  }

  /** In every run the flags are what the events and calls so far have said, and the end has come exactly if the kernel said so. */
  lemma {:induction false} FlagsAre(trace: seq<State>, acts: seq<Action>, i: nat, w: Which)
    requires IsRun(trace, acts) && i < |trace|
    ensures Get(trace[i], w).ready <==> SaysReady(acts, i, w)
    ensures Get(trace[i], w).hangup <==> exists k {:trigger acts[k]} :: 0 <= k < i && acts[k] == On(w, KernelHangup)
  {
    if i > 0 {
      FlagsAre(trace, acts, i - 1, w);
      assert Enabled(trace[i - 1], acts[i - 1]);
      StepFlags(trace[i - 1], acts[i - 1], w);
    }
  }

  lemma MoveNeedsInterest(d: Side, w: Which, errored: bool, m: Move)
    requires CanMove(d, m) && (d.pending ==> d.armed)
    ensures Moved(d, w, errored, m).pending ==> Moved(d, w, errored, m).armed
  {
    match m
    case Call(r) => CallNeedsInterest(d, w, r);
    case CheckCancel =>
    case LoopTop =>
    case Arm =>
    case _ =>
  }

  lemma CallNeedsInterest(d: Side, w: Which, r: Reply)
    requires ReplyFits(d, r) && (d.pending ==> d.armed)
    ensures Reacted(d, w, r).pending ==> Reacted(d, w, r).armed
  {
    match r
    case Took(n) =>
    case Partly(n) =>
    case _ =>
  }

  /** In every run there is an event for a side only while the channel is interested. */
  lemma {:induction false} EventsNeedInterest(trace: seq<State>, acts: seq<Action>, i: nat, w: Which)
    requires IsRun(trace, acts) && i < |trace|
    ensures Get(trace[i], w).pending ==> Get(trace[i], w).armed
  {
    if i > 0 {
      EventsNeedInterest(trace, acts, i - 1, w);
      var s, a := trace[i - 1], acts[i - 1];
      assert Enabled(s, a) && trace[i] == Step(s, a);
      if a.On? && a.w == w {
        MoveNeedsInterest(Get(s, w), w, s.errored, a.m);
      }
    }
  }

  /** In every run an error of the socket, once delivered, is gone, and leaves no operation waiting. */
  lemma ErrorIsDelivered(trace: seq<State>, acts: seq<Action>, i: nat)
    requires IsRun(trace, acts) && i < |trace| && trace[i].running.None?
    ensures Enabled(trace[i], KernelError)
    ensures
      var s := Step(trace[i], KernelError);
      && Enabled(s, Deliver(true, false, false))
      && var t := Step(s, Deliver(true, false, false));
         t.errored && !t.errorPending && !t.read.pc.Waiting? && !t.write.pc.Waiting?
  {
    RunKeepsInv(trace, acts, i);
  }

  /** Steps that can bring an event for one side: the kernel's, and enabling the interest. */
  predicate BringsEvent(a: Action, w: Which) {
    a.On? && a.w == w && (Kernel(a.m) || a.m.Arm?)
  }

  predicate DeliversTo(a: Action, w: Which) {
    a.Deliver? && if w.Reading? then a.input else a.output
  }

  lemma MoveBringsNone(d: Side, w: Which, errored: bool, m: Move)
    requires CanMove(d, m) && !Kernel(m) && !m.Arm? && !d.pending
    ensures !Moved(d, w, errored, m).pending
  {
  }

  lemma StepBringsNone(s: State, a: Action, w: Which)
    requires Enabled(s, a) && !BringsEvent(a, w) && (DeliversTo(a, w) || !Get(s, w).pending)
    ensures !Get(Step(s, a), w).pending
  {
    if a.On? && a.w == w {
      MoveBringsNone(Get(s, w), w, s.errored, a.m);
    }
  }

  /** Edge-triggered: an event that was delivered does not come again by itself. */
  lemma {:induction false} DeliveredOnce(trace: seq<State>, acts: seq<Action>, i: nat, j: nat, w: Which)
    requires IsRun(trace, acts) && i < j < |trace| && DeliversTo(acts[i], w)
    requires forall k {:trigger acts[k]} :: i < k < j ==> !BringsEvent(acts[k], w)
    ensures !Get(trace[j], w).pending
    decreases j
  {
    assert Enabled(trace[j - 1], acts[j - 1]);
    if j - 1 > i {
      DeliveredOnce(trace, acts, i, j - 1, w);
    }
    StepBringsNone(trace[j - 1], acts[j - 1], w);
  }

  /** The steps lead from s to t. */
  ghost predicate Leads(s: State, acts: seq<Action>, t: State)
    decreases |acts|
  {
    if acts == [] then t == s else Enabled(s, acts[0]) && Leads(Step(s, acts[0]), acts[1..], t)
  }

  lemma LeadsOn(s: State, a: Action, rest: seq<Action>, t: State)
    requires Enabled(s, a) && Leads(Step(s, a), rest, t)
    ensures Leads(s, [a] + rest, t)
  {
    assert ([a] + rest)[1..] == rest;
  }

  /** One more operation of side w has returned r, and has left `left` units. */
  predicate Returned(s: State, t: State, w: Which, r: Outcome, left: nat) {
    Get(t, w).pc.Idle? && t.running.None? && Get(t, w).returned == Get(s, w).returned + [r] && Get(t, w).avail == left
  }

  /** What the kernel can answer at once: some units, or none and the end. */
  predicate Answers(d: Side, r: Reply) {
    (r.Took? && 0 < r.n <= d.avail) || (r.Hangup? && d.avail == 0 && d.hangup)
  }

  function LeftBy(d: Side, r: Reply): nat
    requires Answers(d, r)
  {
    if r.Took? then d.avail - r.n else d.avail
  }

  lemma FromCall(s: State, w: Which, r: Reply) returns (did: seq<Action>, t: State)
    requires Inv(s) && s.running == Some(w) && Get(s, w).pc.AtCall? && Answers(Get(s, w), r)
    ensures Leads(s, did, t) && Returned(s, t, w, Other, LeftBy(Get(s, w), r))
  {
    t := Step(s, On(w, Call(r)));
    did := [On(w, Call(r))] + [];
    LeadsOn(s, On(w, Call(r)), [], t);
  }

  lemma FromCheck(s: State, w: Which, r: Reply) returns (did: seq<Action>, t: State)
    requires Inv(s) && s.running == Some(w) && Get(s, w).pc.Check? && Answers(Get(s, w), r)
    ensures Leads(s, did, t)
    ensures if Get(s, w).canceled then Returned(s, t, w, Canceled, Get(s, w).avail) else Returned(s, t, w, Other, LeftBy(Get(s, w), r))
  {
    var a := On(w, CheckCancel);
    var u := Step(s, a);
    var rest;
    if Get(s, w).canceled {
      rest, t := [], u;
    } else {
      StepKeepsInv(s, a);
      rest, t := FromCall(u, w, r);
    }
    did := [a] + rest;
    LeadsOn(s, a, rest, t);
  }

  lemma FromScheduled(s: State, w: Which, r: Reply) returns (did: seq<Action>, t: State)
    requires Inv(s) && s.running.None? && Get(s, w).pc.Scheduled? && Answers(Get(s, w), r)
    ensures Leads(s, did, t)
    ensures if Get(s, w).canceled then Returned(s, t, w, Canceled, Get(s, w).avail) else Returned(s, t, w, Other, LeftBy(Get(s, w), r))
  {
    var a := On(w, Resume);
    StepKeepsInv(s, a);
    var rest;
    rest, t := FromCheck(Step(s, a), w, r);
    did := [a] + rest;
    LeadsOn(s, a, rest, t);
  }

  lemma FromWaiting(s: State, w: Which, r: Reply) returns (did: seq<Action>, t: State)
    requires Inv(s) && s.running.None? && Get(s, w).pc.Waiting? && Answers(Get(s, w), r)
    ensures Leads(s, did, t) && Returned(s, t, w, Other, LeftBy(Get(s, w), r))
  {
    var a := Deliver(false, w.Reading?, w.Writing?);
    StepKeepsInv(s, a);
    var rest;
    rest, t := FromScheduled(Step(s, a), w, r);
    did := [a] + rest;
    LeadsOn(s, a, rest, t);
  }

  /** The head of the loop: on to the call, to the check, or into suspension. */
  lemma AtTop(s: State, w: Which) returns (u: State)
    requires Inv(s) && s.running == Some(w) && Get(s, w).pc.Top?
    ensures Enabled(s, On(w, LoopTop)) && u == Step(s, On(w, LoopTop)) && Inv(u) && !Get(u, w).canceled
    ensures Get(u, w).avail == Get(s, w).avail && Get(u, w).hangup == Get(s, w).hangup && Get(u, w).returned == Get(s, w).returned
    ensures if Get(u, w).pc.AtCall? || Get(u, w).pc.Check? then u.running == Some(w) else Get(u, w).pc.Waiting? && u.running.None?
  {
    u := Step(s, On(w, LoopTop));
    StepKeepsInv(s, On(w, LoopTop));
    MoveOnSide(s, w, LoopTop);
  }

  lemma FromTop(s: State, w: Which, r: Reply) returns (did: seq<Action>, t: State)
    requires Inv(s) && s.running == Some(w) && Get(s, w).pc.Top? && Answers(Get(s, w), r)
    ensures Leads(s, did, t) && Returned(s, t, w, Other, LeftBy(Get(s, w), r))
  {
    var a := On(w, LoopTop);
    var u := AtTop(s, w);
    var rest;
    if Get(u, w).pc.AtCall? {
      rest, t := FromCall(u, w, r);
    } else if Get(u, w).pc.Check? {
      rest, t := FromCheck(u, w, r);
    } else {
      rest, t := FromWaiting(u, w, r);
    }
    did := [a] + rest;
    LeadsOn(s, a, rest, t);
  }

  lemma FromIdle(s: State, w: Which, r: Reply) returns (did: seq<Action>, t: State)
    requires Inv(s) && s.running.None? && Get(s, w).pc.Idle? && Answers(Get(s, w), r)
    ensures Leads(s, did, t) && Returned(s, t, w, Other, LeftBy(Get(s, w), r))
  {
    var a := On(w, Begin);
    StepKeepsInv(s, a);
    var rest;
    rest, t := FromTop(Step(s, a), w, r);
    did := [a] + rest;
    LeadsOn(s, a, rest, t);
  }

  /**
   * In every run, whenever nobody has the thread and the kernel can serve a side, with units or
   * with the end, its operation (the next one, the suspended one or the scheduled one),
   * undisturbed, returns with that, or returns Canceled if a cancel had taken its waiter.
   */
  lemma ServedToTheEnd(trace: seq<State>, acts: seq<Action>, i: nat, w: Which, r: Reply) returns (did: seq<Action>, t: State)
    requires IsRun(trace, acts) && i < |trace| && trace[i].running.None? && Answers(Get(trace[i], w), r)
    ensures Leads(trace[i], did, t)
    ensures
      if Get(trace[i], w).canceled then Returned(trace[i], t, w, Canceled, Get(trace[i], w).avail)
      else Returned(trace[i], t, w, Other, LeftBy(Get(trace[i], w), r))
  {
    RunKeepsInv(trace, acts, i);
    var s := trace[i];
    if Get(s, w).pc.Idle? {
      did, t := FromIdle(s, w, r);
    } else if Get(s, w).pc.Waiting? {
      did, t := FromWaiting(s, w, r);
    } else {
      did, t := FromScheduled(s, w, r);
    }
  }

  lemma PartlyMoves(d: Side, w: Which, errored: bool, n: nat)
    requires d.pc.AtCall? && 0 < n <= d.avail
    ensures CanMove(d, Call(Partly(n)))
    ensures
      var d1 := Moved(d, w, errored, Call(Partly(n)));
      && d1.pc.Top? && CanMove(d1, LoopTop) && Moved(d1, w, errored, LoopTop).pc.AtCall? && Moved(d1, w, errored, LoopTop).avail == d.avail - n
  {
  }

  /** In every run a writer that could only write part of its data calls again at once, for the rest. */
  lemma PartlyGoesOn(trace: seq<State>, acts: seq<Action>, i: nat, w: Which, n: nat)
    requires IsRun(trace, acts) && i < |trace| && Get(trace[i], w).pc.AtCall? && 0 < n <= Get(trace[i], w).avail
    ensures Enabled(trace[i], On(w, Call(Partly(n))))
    ensures
      var t := Step(trace[i], On(w, Call(Partly(n))));
      && Enabled(t, On(w, LoopTop)) && Get(Step(t, On(w, LoopTop)), w).pc.AtCall?
      && Get(Step(t, On(w, LoopTop)), w).avail == Get(trace[i], w).avail - n
  {
    var s := trace[i];
    assert s.running == Some(w) by { RunKeepsInv(trace, acts, i); }
    PartlyMoves(Get(s, w), w, s.errored, n);
    MoveOnSide(s, w, Call(Partly(n)));
    MoveOnSide(Step(s, On(w, Call(Partly(n)))), w, LoopTop);
  }

  /** In every run a cancel, if nothing comes in between, makes a suspended operation return Canceled. */
  lemma CancelReturns(trace: seq<State>, acts: seq<Action>, i: nat, w: Which) returns (did: seq<Action>, t: State)
    requires IsRun(trace, acts) && i < |trace| && trace[i].running.None? && Get(trace[i], w).pc.Waiting?
    ensures did == [Cancel(w), On(w, Resume), On(w, CheckCancel)] && Leads(trace[i], did, t)
    ensures Returned(trace[i], t, w, Canceled, Get(trace[i], w).avail)
  {
    RunKeepsInv(trace, acts, i);
    var s := trace[i];
    var s1 := Step(s, Cancel(w));
    var s2 := Step(s1, On(w, Resume));
    t := Step(s2, On(w, CheckCancel));
    LeadsOn(s2, On(w, CheckCancel), [], t);
    LeadsOn(s1, On(w, Resume), [On(w, CheckCancel)] + [], t);
    LeadsOn(s, Cancel(w), [On(w, Resume)] + ([On(w, CheckCancel)] + []), t);
    did := [Cancel(w)] + ([On(w, Resume)] + ([On(w, CheckCancel)] + []));
  }

  /** What a call that finds nothing does to its side. */
  lemma AgainMoves(d: Side, w: Which, errored: bool)
    requires d.pc.AtCall? && ReplyFits(d, Again)
    ensures CanMove(d, Call(Again))
    ensures
      var d1 := Moved(d, w, errored, Call(Again));
      && d1.pc.GotAgain? && CanMove(d1, Arm)
      && var d2 := Moved(d1, w, errored, Arm);
         && d2.pc.Armed? && CanMove(d2, ClearReady) && d2.armed
         && var d3 := Moved(d2, w, errored, ClearReady);
            && d3.pc.Top? && CanMove(d3, LoopTop) && d3.armed && !d3.ready
            && var d4 := Moved(d3, w, errored, LoopTop);
               d4.armed && !d4.ready && if errored then d4.pc.Check? else d4.pc.Waiting?
  {
  }

  lemma MoveOnSide(s: State, w: Which, m: Move)
    requires Enabled(s, On(w, m)) && !Kernel(m)
    ensures
      var t := Step(s, On(w, m));
      && Get(t, w) == Moved(Get(s, w), w, s.errored, m) && t.errored == s.errored
      && t.running == if InSegment(Get(t, w).pc) then Some(w) else None
  {
  }

  /** In every run a call that finds nothing, if nothing comes in between, suspends with the interest enabled; on an errored channel it goes on. */
  lemma AgainSuspends(trace: seq<State>, acts: seq<Action>, i: nat, w: Which) returns (did: seq<Action>, t: State)
    requires IsRun(trace, acts) && i < |trace| && Get(trace[i], w).pc.AtCall? && Get(trace[i], w).avail == 0 && !Get(trace[i], w).hangup
    ensures did == [On(w, Call(Again)), On(w, Arm), On(w, ClearReady), On(w, LoopTop)] && Leads(trace[i], did, t)
    ensures Get(t, w).armed && !Get(t, w).ready
    ensures if trace[i].errored then Get(t, w).pc.Check? else Get(t, w).pc.Waiting? && t.running.None?
  {
    var s := trace[i];
    assert s.running == Some(w) by { RunKeepsInv(trace, acts, i); }
    AgainMoves(Get(s, w), w, s.errored);
    did, t := Four(s, w, Call(Again), Arm, ClearReady, LoopTop);
  }

  /** Four moves of one side in a row. */
  lemma Four(s: State, w: Which, m1: Move, m2: Move, m3: Move, m4: Move) returns (did: seq<Action>, t: State)
    requires s.running == Some(w) && !Kernel(m1) && !Kernel(m2) && !Kernel(m3) && !Kernel(m4)
    requires !(m1.Begin? || m1.Resume? || m2.Begin? || m2.Resume? || m3.Begin? || m3.Resume? || m4.Begin? || m4.Resume?)
    requires CanMove(Get(s, w), m1)
    requires
      var d1 := Moved(Get(s, w), w, s.errored, m1);
      && InSegment(d1.pc) && CanMove(d1, m2)
      && var d2 := Moved(d1, w, s.errored, m2);
         && InSegment(d2.pc) && CanMove(d2, m3)
         && var d3 := Moved(d2, w, s.errored, m3); InSegment(d3.pc) && CanMove(d3, m4)
    ensures did == [On(w, m1), On(w, m2), On(w, m3), On(w, m4)] && Leads(s, did, t) && t.errored == s.errored
    ensures Get(t, w) == Moved(Moved(Moved(Moved(Get(s, w), w, s.errored, m1), w, s.errored, m2), w, s.errored, m3), w, s.errored, m4)
    ensures t.running == if InSegment(Get(t, w).pc) then Some(w) else None
  {
    MoveOnSide(s, w, m1);
    var s1 := Step(s, On(w, m1));
    MoveOnSide(s1, w, m2);
    var s2 := Step(s1, On(w, m2));
    MoveOnSide(s2, w, m3);
    var s3 := Step(s2, On(w, m3));
    MoveOnSide(s3, w, m4);
    t := Step(s3, On(w, m4));
    FourLead(s, s1, s2, s3, t, On(w, m1), On(w, m2), On(w, m3), On(w, m4));
    ListOfFour(On(w, m1), On(w, m2), On(w, m3), On(w, m4));
    did := [On(w, m1), On(w, m2), On(w, m3), On(w, m4)];
  }

  lemma ListOfFour<T>(a: T, b: T, c: T, d: T)
    ensures [a] + ([b] + ([c] + ([d] + []))) == [a, b, c, d]
  {
  }

  lemma FourLead(s: State, s1: State, s2: State, s3: State, t: State, a1: Action, a2: Action, a3: Action, a4: Action)
    requires Enabled(s, a1) && s1 == Step(s, a1) && Enabled(s1, a2) && s2 == Step(s1, a2)
    requires Enabled(s2, a3) && s3 == Step(s2, a3) && Enabled(s3, a4) && t == Step(s3, a4)
    ensures Leads(s, [a1] + ([a2] + ([a3] + ([a4] + []))), t)
  {
    var none: seq<Action> := [];
    LeadsOn(s3, a4, none, t);
    var one := [a4] + none;
    LeadsOn(s2, a3, one, t);
    var two := [a3] + one;
    LeadsOn(s1, a2, two, t);
    LeadsOn(s, a1, [a2] + two, t);
  }
}
