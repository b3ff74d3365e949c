/**
 * The coroutine mutex of Mutex.h, one atomic operation per step: a CAS-built stack of
 * awaiters in `state_`, reversed by the unlocker into the private list `waiters_`.
 */
module Mutex {
  import opened Prelude
  import opened IntrusiveList

  /** `state_`: the mutex's own address, or the newest awaiter (null when there is none). */
  datatype Lock = Unlocked | Held(top: Option<Id>)

  datatype Pc =
    | Outside
    | Seen(seen: Lock)                               // asynclockImpl: oldValue
    | Suspended(pos: nat)                            // await_suspend returned true
    | Owner
    | NeedState                                      // unlock: waiters_ was null
    | NeedCas                                        // unlock: state_ was null
    | NeedExchange                                   // unlock: someone is stacked
    | Reversing(waiter: Id, head: Option<Id>)        // unlock: inside the do-while
    | HandOff(first: Id)                             // unlock: about to pass the lock on

  /**
   * History: `arrivals` lists awaiters as they were stacked, `served` as they were handed
   * the lock; a suspended coroutine remembers its place in `arrivals`.
   */
  datatype State = State(
    lock: Lock, waiters: Option<Id>, next: Links, pcs: map<Id, Pc>,
    arrivals: seq<Id>, served: seq<Id>, fault: bool)

  datatype Action =
    | TryLock(c: Id)                       // try_lock, and await_ready of lock()
    | LoadState(c: Id)                     // asynclockImpl: first load
    | Cas(c: Id, spurious: bool)           // asynclockImpl: one turn of the loop
    | BeginUnlock(c: Id)
    | UnlockLoad(c: Id)
    | UnlockCas(c: Id)
    | UnlockExchange(c: Id)
    | ReverseOne(c: Id)
    | PassOn(c: Id)

  function Init(coroutines: set<Id>): State {
    State(Unlocked, None, map[], map c | c in coroutines :: Outside, [], [], false)
  }

  predicate Enabled(s: State, a: Action) {
    a.c in s.pcs &&
    match a
    case TryLock(c) => s.pcs[c].Outside?
    case LoadState(c) => s.pcs[c].Outside?
    case Cas(c, _) => s.pcs[c].Seen?
    case BeginUnlock(c) => s.pcs[c].Owner?
    case UnlockLoad(c) => s.pcs[c].NeedState?
    case UnlockCas(c) => s.pcs[c].NeedCas?
    case UnlockExchange(c) => s.pcs[c].NeedExchange?
    case ReverseOne(c) => s.pcs[c].Reversing?
    case PassOn(c) => s.pcs[c].HandOff?
  }

  function Step(s: State, a: Action): State
    requires Enabled(s, a)
  {
    match a
    case TryLock(c) =>
      if s.lock.Unlocked? then s.(lock := Held(None), pcs := s.pcs[c := Owner]) else s
    case LoadState(c) => s.(pcs := s.pcs[c := Seen(s.lock)])
    case Cas(c, spurious) =>
      var hit := s.lock == s.pcs[c].seen && !spurious;
      (match s.pcs[c].seen
       case Unlocked =>
         if hit then s.(lock := Held(None), pcs := s.pcs[c := Owner]) else s.(pcs := s.pcs[c := Seen(s.lock)])
       case Held(top) =>
         var t := s.(next := s.next[c := top]);
         if hit
         then t.(lock := Held(Some(c)), pcs := s.pcs[c := Suspended(|s.arrivals|)], arrivals := s.arrivals + [c])
         else t.(pcs := s.pcs[c := Seen(s.lock)]))
    case BeginUnlock(c) =>
      if s.lock.Unlocked? then s.(fault := true) else
      s.(pcs := s.pcs[c := if s.waiters.None? then NeedState else HandOff(s.waiters.value)])
    case UnlockLoad(c) =>
      s.(pcs := s.pcs[c := if s.lock == Held(None) then NeedCas else NeedExchange])
    case UnlockCas(c) =>
      if s.lock == Held(None) then s.(lock := Unlocked, pcs := s.pcs[c := Outside])
      else s.(pcs := s.pcs[c := NeedExchange])
    case UnlockExchange(c) =>
      if s.lock.Unlocked? || s.lock.top.None? then s.(fault := true) else
      s.(lock := Held(None), pcs := s.pcs[c := Reversing(s.lock.top.value, None)])
    case ReverseOne(c) =>
      var Reversing(w, h) := s.pcs[c];
      if w !in s.next then s.(fault := true) else
      s.(next := s.next[w := h],
         pcs := s.pcs[c := if s.next[w].None? then HandOff(w) else Reversing(s.next[w].value, Some(w))])
    case PassOn(c) =>
      var w := s.pcs[c].first;
      if w !in s.next || w !in s.pcs || !s.pcs[w].Suspended? then s.(fault := true) else
      // The woken coroutine owns the lock from here on and its awaiter may go away.
      s.(waiters := s.next[w], next := s.next - {w}, pcs := s.pcs[c := Outside][w := Owner], served := s.served + [w])
  }

  /** The steps that take the lock without queueing. */
  predicate TakesFreeLock(s: State, a: Action)
    requires Enabled(s, a)
  {
    !a.PassOn? && !s.pcs[a.c].Owner? && Step(s, a).pcs[a.c].Owner?
  }

  ghost predicate IsRun(trace: seq<State>, acts: seq<Action>, coroutines: set<Id>) {
    && |trace| == |acts| + 1 && trace[0] == Init(coroutines)
    && forall i :: 0 <= i < |acts| ==> Enabled(trace[i], acts[i]) && trace[i + 1] == Step(trace[i], acts[i])
  }

  // ---------------------------------------------------------------- invariant

  predicate Holds(pc: Pc) {
    pc.Owner? || pc.NeedState? || pc.NeedCas? || pc.NeedExchange? || pc.Reversing? || pc.HandOff?
  }

  /**
   * Who holds the lock, and how the waiting stretch of `arrivals` is divided, oldest first:
   * up to `a` what the unlocker has taken off the stack but not yet reversed, up to `b` its
   * private list, and from there on the stack in `state_`.
   */
  datatype View = View(holder: Option<Id>, a: nat, b: nat)

  /** One coroutine's program counter agrees with the view. */
  ghost predicate PcOk(s: State, v: View, c: Id)
    requires c in s.pcs
  {
    && (Holds(s.pcs[c]) <==> v.holder == Some(c))
    && (s.pcs[c].Suspended? ==>
      |s.served| <= s.pcs[c].pos < |s.arrivals| && s.arrivals[s.pcs[c].pos] == c)
  }

  /** Everyone in the waiting stretch is suspended there. */
  ghost predicate SlotOk(s: State, i: nat)
    requires i < |s.arrivals|
  {
    s.arrivals[i] in s.pcs && s.pcs[s.arrivals[i]] == Suspended(i)
  }

  ghost predicate HolderOk(s: State, v: View, pc: Pc) {
    var d := |s.served|;
    match pc
    case Owner => v.a == d && Fifo(s.next, s.waiters, s.arrivals, v.a, v.b)
    case Reversing(w, h) =>
      && s.waiters.None? && d < v.a
      && Lifo(s.next, Some(w), s.arrivals, d, v.a) && Fifo(s.next, h, s.arrivals, v.a, v.b)
    case HandOff(w) => v.a == d && Fifo(s.next, Some(w), s.arrivals, v.a, v.b)
    case NeedExchange => s.waiters.None? && v.a == v.b == d < |s.arrivals|
    case _ => s.waiters.None? && v.a == v.b == d
  }

  ghost predicate ListsOk(s: State, v: View) {
    && |s.served| <= v.a <= v.b <= |s.arrivals|
    && (match v.holder
        case None => s.lock.Unlocked? && s.waiters.None? && |s.served| == |s.arrivals|
        case Some(c) =>
          && s.lock.Held? && Lifo(s.next, s.lock.top, s.arrivals, v.b, |s.arrivals|)
          && c in s.pcs && HolderOk(s, v, s.pcs[c]))
  }

  ghost predicate PcsOk(s: State, v: View) {
    && s.served <= s.arrivals
    && (forall c {:trigger PcOk(s, v, c)} :: c in s.pcs ==> PcOk(s, v, c))
    && (forall i {:trigger SlotOk(s, i)} :: |s.served| <= i < |s.arrivals| ==> SlotOk(s, i))
  }

  ghost predicate InvAt(s: State, v: View) {
    !s.fault && PcsOk(s, v) && ListsOk(s, v)
  }

  ghost predicate Inv(s: State) {
    exists v :: InvAt(s, v)
  }

  // ---------------------------------------------------------------- one step

  lemma InitInv(coroutines: set<Id>)
    ensures Inv(Init(coroutines))
  {
    var s, v := Init(coroutines), View(None, 0, 0);
    forall c | c in s.pcs ensures PcOk(s, v, c) {}
    assert InvAt(s, v);
  }

  /** A step in which only coroutine c moves, without joining or leaving the queue. */
  lemma OneMoves(s: State, v: View, s': State, v': View, c: Id)
    requires PcsOk(s, v) && c in s.pcs && !s.pcs[c].Suspended?
    requires c in s'.pcs && s'.pcs == s.pcs[c := s'.pcs[c]] && !s'.pcs[c].Suspended?
    requires s'.arrivals == s.arrivals && s'.served == s.served
    requires v'.holder == v.holder || (v.holder in {None, Some(c)} && v'.holder in {None, Some(c)})
    requires Holds(s'.pcs[c]) <==> v'.holder == Some(c)
    ensures PcsOk(s', v')
  {
    forall d | d in s'.pcs ensures PcOk(s', v', d) { assert PcOk(s, v, d); }
    forall i | |s.served| <= i < |s.arrivals| ensures SlotOk(s', i) { assert SlotOk(s, i); }
  }

  /** Taking a free lock, by `try_lock` or by the CAS. */
  lemma TakeKeepsInv(s: State, v: View, c: Id)
    requires InvAt(s, v) && c in s.pcs && (s.pcs[c].Outside? || s.pcs[c].Seen?) && s.lock.Unlocked?
    ensures InvAt(s.(lock := Held(None), pcs := s.pcs[c := Owner]), View(Some(c), |s.arrivals|, |s.arrivals|))
  {
    OneMoves(s, v, s.(lock := Held(None), pcs := s.pcs[c := Owner]), View(Some(c), |s.arrivals|, |s.arrivals|), c);
  }

  /** Reading `state_`: from outside, or after a failed CAS. */
  lemma LookKeepsInv(s: State, v: View, c: Id)
    requires InvAt(s, v) && c in s.pcs && (s.pcs[c].Outside? || s.pcs[c].Seen?)
    ensures InvAt(s.(pcs := s.pcs[c := Seen(s.lock)]), v)
  {
    assert PcOk(s, v, c);
    OneMoves(s, v, s.(pcs := s.pcs[c := Seen(s.lock)]), v, c);
  }

  /** Lists do not notice links of coroutines that are not waiting. */
  lemma ListsKept(s: State, v: View, s': State)
    requires ListsOk(s, v)
    requires s' == s.(next := s'.next, pcs := s'.pcs) && (v.holder.Some? ==> v.holder.value in s'.pcs && s'.pcs[v.holder.value] == s.pcs[v.holder.value])
    requires forall i :: |s.served| <= i < |s.arrivals| && s.arrivals[i] in s.next ==>
      s.arrivals[i] in s'.next && s'.next[s.arrivals[i]] == s.next[s.arrivals[i]]
    ensures ListsOk(s', v)
  {
    if v.holder.Some? {
      var q := s.arrivals;
      LifoFrame(s.next, s.lock.top, q, v.b, |q|, s'.next, q);
      match s.pcs[v.holder.value]
      case Owner => FifoFrame(s.next, s.waiters, q, v.a, v.b, s'.next, q);
      case HandOff(w) => FifoFrame(s.next, Some(w), q, v.a, v.b, s'.next, q);
      case Reversing(w, h) =>
        LifoFrame(s.next, Some(w), q, |s.served|, v.a, s'.next, q);
        FifoFrame(s.next, h, q, v.a, v.b, s'.next, q);
      case _ =>
    }
  }

  /** An awaiter that is not queued may write its own `next_`. */
  lemma OwnLinkKeepsInv(s: State, v: View, c: Id, p: Option<Id>)
    requires InvAt(s, v) && c in s.pcs && s.pcs[c].Seen?
    ensures InvAt(s.(next := s.next[c := p]), v)
  {
    var s' := s.(next := s.next[c := p]);
    forall i | |s.served| <= i < |s.arrivals| ensures s.arrivals[i] != c { assert SlotOk(s, i); }
    ListsKept(s, v, s');
    assert PcOk(s, v, c);
    OneMoves(s, v, s', v, c);
  }

  lemma StackPcs(s: State, v: View, c: Id, s': State)
    requires PcsOk(s, v) && c in s.pcs && s.pcs[c].Seen?
    requires s' == s.(lock := Held(Some(c)), pcs := s.pcs[c := Suspended(|s.arrivals|)], arrivals := s.arrivals + [c])
    ensures PcsOk(s', v)
  {
    assert PcOk(s, v, c);
    forall d | d in s'.pcs ensures PcOk(s', v, d) { assert PcOk(s, v, d); }
    forall i | |s.served| <= i < |s'.arrivals| ensures SlotOk(s', i) {
      if i < |s.arrivals| { assert SlotOk(s, i); }
    }
  }

  lemma StackKeepsInv(s: State, v: View, c: Id)
    requires InvAt(s, v) && c in s.pcs && s.pcs[c].Seen? && s.lock.Held? && c in s.next && s.next[c] == s.lock.top
    ensures InvAt(s.(lock := Held(Some(c)), pcs := s.pcs[c := Suspended(|s.arrivals|)], arrivals := s.arrivals + [c]), v)
  {
    var s' := s.(lock := Held(Some(c)), pcs := s.pcs[c := Suspended(|s.arrivals|)], arrivals := s.arrivals + [c]);
    StackPcs(s, v, c, s');
    var q, q' := s.arrivals, s'.arrivals;
    LifoPush(s.next, s.lock.top, q, v.b, c);
    var o := v.holder.value;
    assert o != c by { assert PcOk(s, v, c); }
    match s.pcs[o]
    case Owner => FifoFrame(s.next, s.waiters, q, v.a, v.b, s.next, q');
    case HandOff(w) => FifoFrame(s.next, Some(w), q, v.a, v.b, s.next, q');
    case Reversing(w, h) =>
      LifoFrame(s.next, Some(w), q, |s.served|, v.a, s.next, q');
      FifoFrame(s.next, h, q, v.a, v.b, s.next, q');
    case _ =>
  }

  lemma CasKeepsInv(s: State, v: View, c: Id, spurious: bool)
    requires InvAt(s, v) && Enabled(s, Cas(c, spurious))
    ensures Inv(Step(s, Cas(c, spurious)))
  {
    var hit := s.lock == s.pcs[c].seen && !spurious;
    match s.pcs[c].seen
    case Unlocked =>
      if hit { TakeKeepsInv(s, v, c); } else { LookKeepsInv(s, v, c); }
    case Held(top) =>
      OwnLinkKeepsInv(s, v, c, top);
      var t := s.(next := s.next[c := top]);
      if hit { StackKeepsInv(t, v, c); } else { LookKeepsInv(t, v, c); }
  }

  /** The holder moves on inside `unlock` without touching links or queue. */
  lemma HolderMoves(s: State, v: View, c: Id, pc: Pc)
    requires InvAt(s, v) && c in s.pcs && Holds(s.pcs[c]) && Holds(pc)
    requires v.holder == Some(c) ==> HolderOk(s, v, s.pcs[c]) ==> HolderOk(s, v, pc)
    ensures InvAt(s.(pcs := s.pcs[c := pc]), v)
  {
    assert PcOk(s, v, c);
    OneMoves(s, v, s.(pcs := s.pcs[c := pc]), v, c);
  }

  lemma UnlockStepKeepsInv(s: State, v: View, a: Action)
    requires InvAt(s, v) && Enabled(s, a) && (a.BeginUnlock? || a.UnlockLoad?)
    ensures InvAt(Step(s, a), v)
  {
    assert PcOk(s, v, a.c);
    HolderMoves(s, v, a.c, Step(s, a).pcs[a.c]);
  }

  lemma UnlockCasKeepsInv(s: State, v: View, c: Id)
    requires InvAt(s, v) && Enabled(s, UnlockCas(c))
    ensures Inv(Step(s, UnlockCas(c)))
  {
    assert PcOk(s, v, c);
    if s.lock == Held(None) {
      var v' := v.(holder := None);
      OneMoves(s, v, Step(s, UnlockCas(c)), v', c);
      assert InvAt(Step(s, UnlockCas(c)), v');
    } else {
      HolderMoves(s, v, c, NeedExchange);
    }
  }

  lemma UnlockExchangeKeepsInv(s: State, v: View, c: Id)
    requires InvAt(s, v) && Enabled(s, UnlockExchange(c))
    ensures InvAt(Step(s, UnlockExchange(c)), View(Some(c), |s.arrivals|, |s.arrivals|))
  {
    assert PcOk(s, v, c);
    OneMoves(s, v, Step(s, UnlockExchange(c)), View(Some(c), |s.arrivals|, |s.arrivals|), c);
  }

  lemma ReverseOneKeepsInv(s: State, v: View, c: Id)
    requires InvAt(s, v) && Enabled(s, ReverseOne(c))
    ensures v.a > 0 && InvAt(Step(s, ReverseOne(c)), v.(a := v.a - 1))
  {
    assert PcOk(s, v, c);
    var Reversing(w, h) := s.pcs[c];
    var q := s.arrivals;
    LifoTop(s.next, Some(w), q, |s.served|, v.a);
    forall i, j | |s.served| <= i < j < |q| ensures q[i] != q[j] { assert SlotOk(s, i) && SlotOk(s, j); }
    FifoPush(s.next, h, q, v.a, v.b);
    LifoFrame(s.next, s.next[w], q, |s.served|, v.a - 1, s.next[w := h], q);
    LifoFrame(s.next, s.lock.top, q, v.b, |q|, s.next[w := h], q);
    OneMoves(s, v, Step(s, ReverseOne(c)), v.(a := v.a - 1), c);
  }

  lemma PassOnPcs(s: State, v: View, c: Id, w: Id, s': State)
    requires PcsOk(s, v) && v.holder == Some(c) && c in s.pcs && |s.served| < |s.arrivals| && w == s.arrivals[|s.served|]
    requires w in s.pcs && s.pcs[w] == Suspended(|s.served|) && Holds(s.pcs[c])
    requires s'.pcs == s.pcs[c := Outside][w := Owner] && s'.served == s.served + [w] && s'.arrivals == s.arrivals
    ensures PcsOk(s', View(Some(w), v.a + 1, v.b))
  {
    var v' := View(Some(w), v.a + 1, v.b);
    forall d | d in s'.pcs ensures PcOk(s', v', d) { assert PcOk(s, v, d); }
    forall i | |s'.served| <= i < |s'.arrivals| ensures SlotOk(s', i) { assert SlotOk(s, i); }
  }

  lemma PassOnKeepsInv(s: State, v: View, c: Id)
    requires InvAt(s, v) && Enabled(s, PassOn(c))
    ensures Inv(Step(s, PassOn(c)))
  {
    assert PcOk(s, v, c);
    var w, q, d := s.pcs[c].first, s.arrivals, |s.served|;
    FifoTop(s.next, Some(w), q, v.a, v.b);
    assert SlotOk(s, d);
    var s', v' := Step(s, PassOn(c)), View(Some(w), v.a + 1, v.b);
    PassOnPcs(s, v, c, w, s');
    forall i | d < i < |q| ensures q[i] != w { assert SlotOk(s, i); }
    FifoFrame(s.next, s.next[w], q, v.a + 1, v.b, s'.next, q);
    LifoFrame(s.next, s.lock.top, q, v.b, |q|, s'.next, q);
    assert InvAt(s', v');
  }

  // ---------------------------------------------------------------- whole runs

  lemma StepKeepsInv(s: State, a: Action)
    requires Inv(s) && Enabled(s, a)
    ensures Inv(Step(s, a))
  {
    var v :| InvAt(s, v);
    match a
    case TryLock(c) => if s.lock.Unlocked? { TakeKeepsInv(s, v, c); }
    case LoadState(c) => LookKeepsInv(s, v, c);
    case Cas(c, spurious) => CasKeepsInv(s, v, c, spurious);
    case BeginUnlock(c) => UnlockStepKeepsInv(s, v, a);
    case UnlockLoad(c) => UnlockStepKeepsInv(s, v, a);
    case UnlockCas(c) => UnlockCasKeepsInv(s, v, c);
    case UnlockExchange(c) => UnlockExchangeKeepsInv(s, v, c);
    case ReverseOne(c) => ReverseOneKeepsInv(s, v, c);
    case PassOn(c) => PassOnKeepsInv(s, v, c);
  }

  lemma {:induction false} RunKeepsInv(trace: seq<State>, acts: seq<Action>, coroutines: set<Id>, i: nat)
    requires IsRun(trace, acts, coroutines) && i < |trace|
    ensures Inv(trace[i])
  {
    if i == 0 {
      InitInv(coroutines);
    } else {
      RunKeepsInv(trace, acts, coroutines, i - 1);
      StepKeepsInv(trace[i - 1], acts[i - 1]);
    }
  }

  /** At most one coroutine holds the lock, no assertion in `unlock` fails, no dead awaiter is touched. */
  lemma MutualExclusion(trace: seq<State>, acts: seq<Action>, coroutines: set<Id>, i: nat)
    requires IsRun(trace, acts, coroutines) && i < |trace|
    ensures !trace[i].fault
    ensures forall c, d :: c in trace[i].pcs && d in trace[i].pcs && Holds(trace[i].pcs[c]) && Holds(trace[i].pcs[d]) ==> c == d
    ensures trace[i].lock.Unlocked? <==> forall c :: c in trace[i].pcs ==> !Holds(trace[i].pcs[c])
  {
    RunKeepsInv(trace, acts, coroutines, i);
    var s := trace[i];
    var v :| InvAt(s, v);
    forall c | c in s.pcs ensures Holds(s.pcs[c]) <==> v.holder == Some(c) { assert PcOk(s, v, c); }
  }

  /**
   * Waiters are served first-in first-out: those served are a prefix of those that
   * arrived, the rest are exactly the suspended coroutines, each waiting once, and
   * none of them is waiting for a lock nobody holds.
   */
  lemma ServedInOrder(trace: seq<State>, acts: seq<Action>, coroutines: set<Id>, i: nat)
    requires IsRun(trace, acts, coroutines) && i < |trace|
    ensures trace[i].served <= trace[i].arrivals
    ensures var waiting := trace[i].arrivals[|trace[i].served|..];
      && NoDup(waiting)
      && (forall c :: c in waiting <==> c in trace[i].pcs && trace[i].pcs[c].Suspended?)
      && (trace[i].lock.Unlocked? ==> waiting == [])
  {
    RunKeepsInv(trace, acts, coroutines, i);
    var s := trace[i];
    var v :| InvAt(s, v);
    var d := |s.served|;
    var waiting := s.arrivals[d..];
    forall j, k | 0 <= j < k < |waiting| ensures waiting[j] != waiting[k] { assert SlotOk(s, d + j) && SlotOk(s, d + k); }
    forall c | c in waiting ensures c in s.pcs && s.pcs[c].Suspended? {
      var j :| 0 <= j < |waiting| && waiting[j] == c;
      assert SlotOk(s, d + j);
    }
    forall c | c in s.pcs && s.pcs[c].Suspended? ensures c in waiting {
      assert PcOk(s, v, c);
      assert waiting[s.pcs[c].pos - d] == c;
    }
  }

  /** `try_lock` and the CAS path never take the lock while somebody is waiting for it. */
  lemma NoOvertaking(trace: seq<State>, acts: seq<Action>, coroutines: set<Id>, i: nat)
    requires IsRun(trace, acts, coroutines) && i < |acts| && TakesFreeLock(trace[i], acts[i])
    ensures trace[i].served == trace[i].arrivals
    ensures forall c :: c in trace[i].pcs ==> !trace[i].pcs[c].Suspended?
  {
    RunKeepsInv(trace, acts, coroutines, i);
    var s := trace[i];
    var v :| InvAt(s, v);
    forall c | c in s.pcs ensures !s.pcs[c].Suspended? { assert PcOk(s, v, c); }
  }

  // ---------------------------------------------------------------- what the operations do

  /** `try_lock` takes the lock if nobody holds it, and otherwise does nothing. */
  lemma TryLockTakesFreeLock(trace: seq<State>, acts: seq<Action>, coroutines: set<Id>, i: nat)
    requires IsRun(trace, acts, coroutines) && i < |acts| && acts[i].TryLock?
    ensures
      if forall d :: d in trace[i].pcs ==> !Holds(trace[i].pcs[d])
      then trace[i + 1].pcs == trace[i].pcs[acts[i].c := Owner] && trace[i + 1] == trace[i].(lock := trace[i + 1].lock, pcs := trace[i + 1].pcs)
      else trace[i + 1] == trace[i]
  {
    MutualExclusion(trace, acts, coroutines, i);
  }

  /** `lock`, undisturbed, takes a lock nobody holds, and otherwise joins the queue at its end. */
  lemma LockTakesOrQueues(trace: seq<State>, acts: seq<Action>, coroutines: set<Id>, i: nat, c: Id)
    requires IsRun(trace, acts, coroutines) && i < |trace| && Enabled(trace[i], LoadState(c))
    ensures
      var s, t := trace[i], Step(trace[i], LoadState(c));
      && Enabled(t, Cas(c, false))
      && var u := Step(t, Cas(c, false));
         if forall d :: d in s.pcs ==> !Holds(s.pcs[d]) then u.pcs == s.pcs[c := Owner] && u.arrivals == s.arrivals
         else u.pcs == s.pcs[c := Suspended(|s.arrivals|)] && u.arrivals == s.arrivals + [c] && u.served == s.served
  {
    MutualExclusion(trace, acts, coroutines, i);
  }

  /** The steps lead from s to t. */
  ghost predicate Leads(s: State, acts: seq<Action>, t: State)
    decreases |acts|
  {
    if acts == [] then t == s else Enabled(s, acts[0]) && Leads(Step(s, acts[0]), acts[1..], t)
  }

  predicate AllBy(acts: seq<Action>, c: Id) {
    forall k :: 0 <= k < |acts| ==> acts[k].c == c
  }

  /** What `unlock` does next. */
  function UnlockAction(pc: Pc, c: Id): Action
    requires Holds(pc)
  {
    match pc
    case Owner => BeginUnlock(c)
    case NeedState => UnlockLoad(c)
    case NeedCas => UnlockCas(c)
    case NeedExchange => UnlockExchange(c)
    case Reversing(_, _) => ReverseOne(c)
    case HandOff(_) => PassOn(c)
  }

  function Rank(pc: Pc): nat {
    match pc
    case Owner => 6
    case NeedState => 5
    case NeedCas => 4
    case NeedExchange => 3
    case Reversing(_, _) => 2
    case HandOff(_) => 1
    case _ => 0
  }

  /** The lock is passed to the coroutine that has waited longest, or freed if there is none. */
  predicate PassedOn(s: State, c: Id, t: State) {
    && c in t.pcs && t.pcs[c].Outside? && t.arrivals == s.arrivals
    && if |s.served| < |s.arrivals|
       then t.served == s.served + [s.arrivals[|s.served|]] && s.arrivals[|s.served|] in t.pcs && t.pcs[s.arrivals[|s.served|]].Owner?
       else t.served == s.served && t.lock.Unlocked?
  }

  /** One step of `unlock`: either the last one, or one closer to it. */
  lemma UnlockAdvances(s: State, v: View, c: Id) returns (v': View)
    requires InvAt(s, v) && v.holder == Some(c) && c in s.pcs && Holds(s.pcs[c])
    ensures Enabled(s, UnlockAction(s.pcs[c], c))
    ensures
      var t := Step(s, UnlockAction(s.pcs[c], c));
      PassedOn(s, c, t) || (
        && InvAt(t, v') && v'.holder == Some(c) && c in t.pcs && Holds(t.pcs[c])
        && t.arrivals == s.arrivals && t.served == s.served
        && (Rank(t.pcs[c]) < Rank(s.pcs[c]) || (Rank(t.pcs[c]) == Rank(s.pcs[c]) && v'.a < v.a)))
  {
    var t := Step(s, UnlockAction(s.pcs[c], c));
    v' := v;
    match s.pcs[c]
    case Owner => UnlockStepKeepsInv(s, v, BeginUnlock(c));
    case NeedState => UnlockStepKeepsInv(s, v, UnlockLoad(c));
    case NeedCas =>
      if s.lock != Held(None) {
        HolderMoves(s, v, c, NeedExchange);
      }
    case NeedExchange =>
      UnlockExchangeKeepsInv(s, v, c);
      v' := View(Some(c), |s.arrivals|, |s.arrivals|);
    case Reversing(_, _) =>
      ReverseOneKeepsInv(s, v, c);
      v' := v.(a := v.a - 1);
    case HandOff(w) =>
      FifoTop(s.next, Some(w), s.arrivals, v.a, v.b);
      assert SlotOk(s, |s.served|);
  }

  lemma {:induction false} UnlockGoesOn(s: State, v: View, c: Id) returns (did: seq<Action>, t: State)
    requires InvAt(s, v) && v.holder == Some(c) && c in s.pcs && Holds(s.pcs[c])
    ensures Leads(s, did, t) && PassedOn(s, c, t)
    ensures AllBy(did, c)
    decreases Rank(s.pcs[c]), v.a
  {
    var a := UnlockAction(s.pcs[c], c);
    var v' := UnlockAdvances(s, v, c);
    var next := Step(s, a);
    if PassedOn(s, c, next) {
      did, t := [a], next;
    } else {
      var rest;
      rest, t := UnlockGoesOn(next, v', c);
      did := [a] + rest;
      assert did[1..] == rest;
    }
  }

  /** `unlock`, undisturbed, ends, and passes the lock to the coroutine that has waited longest, or frees it. */
  lemma UnlockServesNext(trace: seq<State>, acts: seq<Action>, coroutines: set<Id>, i: nat, c: Id)
    requires IsRun(trace, acts, coroutines) && i < |trace| && c in trace[i].pcs && Holds(trace[i].pcs[c])
    ensures exists did, t {:trigger Leads(trace[i], did, t)} :: Leads(trace[i], did, t) && AllBy(did, c) && PassedOn(trace[i], c, t)
  {
    RunKeepsInv(trace, acts, coroutines, i);
    var v :| InvAt(trace[i], v);
    assert PcOk(trace[i], v, c);
    var did, t := UnlockGoesOn(trace[i], v, c);
    assert Leads(trace[i], did, t) && AllBy(did, c) && PassedOn(trace[i], c, t);
  }
}
