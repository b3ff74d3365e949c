/**
 * Pipelined responses (HttpOutgoingStream.cc and the prevFuture chain of handleConnection):
 * handlers run concurrently, each response waits at its first write for the promise of the
 * one before it. One step is one await point, or one byte of a write.
 */
module HttpOrder {
  import opened Prelude

  type bytes = seq<byte>

  datatype Promise = Pending | Resolved | Broken

  /** Where a response's own sequence of calls is. */
  datatype Pc = Idle | AtGate | Sending | Failed | Over

  datatype Response = Response(
    pc: Pc,
    headersSent: bool,
    todo: bytes,      // what the current call has still to write
    last: bool,       // whether the current call is end
    promise: Promise,
    threw: bool,      // history: a call on it threw
    passed: bool,     // history: the gate was passed
    out: bytes,       // history: what this response put on the wire
    meant: bytes)     // history: what its calls were given

  datatype Item = Byte(value: byte, who: nat) | Continue

  datatype State = State(responses: seq<Response>, wire: seq<Item>)

  datatype Action =
    | Open                                        // the server loop creates the next response
    | Call(who: nat, data: bytes, isEnd: bool)    // write, or end; also on a response whose last call threw
    | Pass(who: nat)                              // prevFuture resolved
    | Throw(who: nat)                             // prevFuture broken
    | Emit(who: nat)
    | Finish(who: nat)                            // the call returns; end resolves the promise
    | Drop(who: nat)                              // the response is destroyed without end
    | Interim                                     // the server loop writes 100 Continue

  const NewResponse := Response(Idle, false, [], false, Pending, false, false, [], [])

  predicate MayPass(s: State, i: nat)
    requires i < |s.responses|
  {
    i == 0 || s.responses[i - 1].promise.Resolved?
  }

  predicate Enabled(s: State, a: Action) {
    match a
    case Open => true
    case Interim => true
    case Call(i, _, _) => i < |s.responses| && (s.responses[i].pc.Idle? || s.responses[i].pc.Failed?)
    case Pass(i) => i < |s.responses| && s.responses[i].pc.AtGate? && MayPass(s, i)
    case Throw(i) => 0 < i < |s.responses| && s.responses[i].pc.AtGate? && s.responses[i - 1].promise.Broken?
    case Emit(i) => i < |s.responses| && s.responses[i].pc.Sending? && s.responses[i].todo != []
    case Finish(i) => i < |s.responses| && s.responses[i].pc.Sending? && s.responses[i].todo == []
    case Drop(i) => i < |s.responses| && (s.responses[i].pc.Idle? || s.responses[i].pc.Failed?)
  }

  function Put(s: State, i: nat, r: Response): State
    requires i < |s.responses|
  {
    s.(responses := s.responses[i := r])
  }

  function Step(s: State, a: Action): State
    requires Enabled(s, a)
  {
    match a
    case Open => s.(responses := s.responses + [NewResponse])
    case Interim => s.(wire := s.wire + [Continue])
    case Call(i, data, isEnd) =>
      var r := s.responses[i];
      Put(s, i, r.(pc := if r.headersSent then Sending else AtGate, headersSent := true, todo := data, last := isEnd,
                   meant := r.meant + data))
    case Pass(i) => Put(s, i, s.responses[i].(pc := Sending, passed := true))
    case Throw(i) => Put(s, i, s.responses[i].(pc := Failed, threw := true))
    case Emit(i) =>
      var r := s.responses[i];
      Put(s, i, r.(todo := r.todo[1..], out := r.out + [r.todo[0]])).(wire := s.wire + [Byte(r.todo[0], i)])
    case Finish(i) =>
      var r := s.responses[i];
      Put(s, i, if r.last then r.(pc := Over, promise := Resolved) else r.(pc := Idle))
    case Drop(i) => Put(s, i, s.responses[i].(pc := Over, promise := Broken))
  }

  ghost predicate IsRun(trace: seq<State>, acts: seq<Action>) {
    && |trace| == |acts| + 1 && trace[0] == State([], [])
    && forall i {:trigger acts[i]} :: 0 <= i < |acts| ==> Enabled(trace[i], acts[i]) && trace[i + 1] == Step(trace[i], acts[i])
  }

  /** The wire without the interim responses. */
  function Finals(wire: seq<Item>): bytes {
    if wire == [] then [] else
    var front, last := Finals(wire[..|wire| - 1]), wire[|wire| - 1];
    if last.Continue? then front else front + [last.value]
  }

  /** Everything response 0 put out, then everything response 1 put out, and so on. */
  function InTurn(rs: seq<Response>): bytes {
    if rs == [] then [] else InTurn(rs[..|rs| - 1]) + rs[|rs| - 1].out
  }

  // ---------------------------------------------------------------- invariant

  /**
   * A call that throws at the gate has set headersSent_ already, so another call on the same
   * response goes straight to the wire. The invariant is about runs in which nobody does that.
   */
  ghost predicate Ok(s: State, i: nat)
    requires i < |s.responses|
  {
    var r := s.responses[i];
    && (r.pc.Failed? ==> r.threw && r.headersSent)
    && (r.threw ==> (r.pc.Failed? || r.pc.Over?) && !r.passed && !r.promise.Resolved? && 0 < i && s.responses[i - 1].promise.Broken?)
    && (!r.threw ==> r.meant == r.out + r.todo)
    && (r.pc.Idle? ==> r.todo == [] && r.passed == r.headersSent)
    && (r.pc.AtGate? ==> r.headersSent)
    && (r.pc.Sending? ==> r.passed && r.headersSent)
    && (r.passed ==> MayPass(s, i))
    && (r.out != [] ==> r.passed)
    && (r.promise.Resolved? ==> r.pc.Over? && r.passed && r.todo == [] && r.last)
    && (r.promise.Broken? ==> r.pc.Over?)
    && (r.pc.Over? ==> !r.promise.Pending?)
  }

  ghost predicate Inv(s: State) {
    && (forall i {:trigger Ok(s, i)} :: 0 <= i < |s.responses| ==> Ok(s, i))
    && Finals(s.wire) == InTurn(s.responses)
  }

  /** A response that passed its gate has only finished responses before it. */
  lemma {:induction false} AllBeforeFinished(s: State, i: nat, j: nat)
    requires Inv(s) && i < j < |s.responses| && s.responses[j].passed
    ensures s.responses[i].promise.Resolved?
    decreases j
  {
    assert Ok(s, j) && Ok(s, j - 1);
    if i < j - 1 {
      AllBeforeFinished(s, i, j - 1);
    }
  }

  lemma NothingAfterUnfinished(s: State, i: nat, j: nat)
    requires Inv(s) && i < j < |s.responses| && !s.responses[i].promise.Resolved?
    ensures s.responses[j].out == [] && !s.responses[j].passed
  {
    assert Ok(s, j);
    if s.responses[j].passed {
      AllBeforeFinished(s, i, j);
    }
  }

  lemma {:induction false} InTurnSame(rs: seq<Response>, i: nat, r: Response)
    requires i < |rs| && r.out == rs[i].out
    ensures InTurn(rs[i := r]) == InTurn(rs)
  {
    var n := |rs| - 1;
    if i == n {
      assert rs[i := r][..n] == rs[..n];
    } else {
      InTurnSame(rs[..n], i, r);
      assert rs[i := r][..n] == rs[..n][i := r];
    }
  }

  lemma {:induction false} InTurnMore(rs: seq<Response>, i: nat, r: Response, b: byte)
    requires i < |rs| && r.out == rs[i].out + [b]
    requires forall j :: i < j < |rs| ==> rs[j].out == []
    ensures InTurn(rs[i := r]) == InTurn(rs) + [b]
  {
    var n := |rs| - 1;
    if i == n {
      assert rs[i := r][..n] == rs[..n];
    } else {
      InTurnMore(rs[..n], i, r, b);
      assert rs[i := r][..n] == rs[..n][i := r];
    }
  }

  lemma FinalsMore(wire: seq<Item>, x: Item)
    ensures Finals(wire + [x]) == if x.Continue? then Finals(wire) else Finals(wire) + [x.value]
  {
    assert (wire + [x])[..|wire|] == wire;
  }

  /** Changing one response keeps the others well if its promise stays, or was pending. */
  lemma PutKeepsOk(s: State, i: nat, r: Response, t: State)
    requires Inv(s) && i < |s.responses| && t.responses == s.responses[i := r]
    requires s.responses[i].promise == r.promise || s.responses[i].promise.Pending?
    requires Ok(t, i)
    ensures forall k {:trigger Ok(t, k)} :: 0 <= k < |t.responses| ==> Ok(t, k)
  {
    forall k {:trigger Ok(t, k)} | 0 <= k < |t.responses| ensures Ok(t, k) {
      assert Ok(s, k);
      if k == i + 1 {
        assert MayPass(s, k) ==> MayPass(t, k);
      }
    }
  }

  /** A call on a response after a call on it threw. */
  predicate Retries(s: State, a: Action) {
    a.Call? && a.who < |s.responses| && s.responses[a.who].threw
  }

  lemma StepKeepsInv(s: State, a: Action)
    requires Inv(s) && Enabled(s, a) && !Retries(s, a)
    ensures Inv(Step(s, a))
  {
    var t := Step(s, a);
    match a
    case Open =>
      assert t.responses[..|s.responses|] == s.responses;
      forall k {:trigger Ok(t, k)} | 0 <= k < |t.responses| ensures Ok(t, k) {
        if k < |s.responses| {
          assert Ok(s, k);
        }
      }
    case Interim =>
      FinalsMore(s.wire, Continue);
      forall k {:trigger Ok(t, k)} | 0 <= k < |t.responses| ensures Ok(t, k) { assert Ok(s, k); }
    case Emit(i) => EmitKeepsInv(s, i);
    case _ => QuietKeepsInv(s, a);
  }

  /** The steps of a response that put nothing on the wire. */
  lemma QuietKeepsInv(s: State, a: Action)
    requires Inv(s) && Enabled(s, a) && !Retries(s, a) && (a.Call? || a.Pass? || a.Throw? || a.Finish? || a.Drop?)
    ensures Inv(Step(s, a))
  {
    var t, i := Step(s, a), a.who;
    assert Ok(s, i);
    InTurnSame(s.responses, i, t.responses[i]);
    assert Ok(t, i);
    PutKeepsOk(s, i, t.responses[i], t);
  }

  lemma EmitKeepsInv(s: State, i: nat)
    requires Inv(s) && Enabled(s, Emit(i))
    ensures Inv(Step(s, Emit(i)))
  {
    var t, b := Step(s, Emit(i)), s.responses[i].todo[0];
    assert Ok(s, i);
    forall j | i < j < |s.responses| ensures s.responses[j].out == [] {
      NothingAfterUnfinished(s, i, j);
    }
    InTurnMore(s.responses, i, t.responses[i], b);
    FinalsMore(s.wire, Byte(b, i));
    assert s.responses[i].todo == [b] + s.responses[i].todo[1..];
    PutKeepsOk(s, i, t.responses[i], t);
  }

  // ---------------------------------------------------------------- calls after a throw

  /** No call is made on a response after a call on it threw. */
  ghost predicate NoRetry(acts: seq<Action>, n: nat)
    requires n <= |acts|
  {
    forall j, k {:trigger acts[j], acts[k]} :: 0 <= j < k < n && acts[j].Throw? && acts[k].Call? ==> acts[j].who != acts[k].who
  }

  /** The history of a throw, read off the actions. */
  lemma {:induction false} ThrewIff(trace: seq<State>, acts: seq<Action>, n: nat, i: nat)
    requires IsRun(trace, acts) && n <= |acts| && i < |trace[n].responses|
    ensures trace[n].responses[i].threw <==> Throw(i) in acts[..n]
  {
    if n > 0 {
      var s, a := trace[n - 1], acts[n - 1];
      assert Enabled(s, a);
      assert acts[..n] == acts[..n - 1] + [a];
      if i < |s.responses| {
        ThrewIff(trace, acts, n - 1, i);
      } else {
        NoThrowYet(trace, acts, n - 1, i);
      }
    }
  }

  lemma {:induction false} NoThrowYet(trace: seq<State>, acts: seq<Action>, n: nat, i: nat)
    requires IsRun(trace, acts) && n <= |acts| && |trace[n].responses| <= i
    ensures Throw(i) !in acts[..n]
  {
    if n > 0 {
      assert Enabled(trace[n - 1], acts[n - 1]);
      assert acts[..n] == acts[..n - 1] + [acts[n - 1]];
      NoThrowYet(trace, acts, n - 1, i);
    }
  }

  lemma NoRetryStep(trace: seq<State>, acts: seq<Action>, n: nat)
    requires IsRun(trace, acts) && n < |acts| && NoRetry(acts, n + 1)
    ensures !Retries(trace[n], acts[n])
  {
    if acts[n].Call? && acts[n].who < |trace[n].responses| {
      ThrewIff(trace, acts, n, acts[n].who);
      assert forall j :: 0 <= j < n ==> acts[..n][j] == acts[j] != Throw(acts[n].who);
    }
  }

  lemma {:induction false} RunKeepsInv(trace: seq<State>, acts: seq<Action>, n: nat)
    requires IsRun(trace, acts) && n <= |acts| && NoRetry(acts, n)
    ensures Inv(trace[n])
  {
    if n > 0 {
      RunKeepsInv(trace, acts, n - 1);
      NoRetryStep(trace, acts, n - 1);
      assert Enabled(trace[n - 1], acts[n - 1]);
      StepKeepsInv(trace[n - 1], acts[n - 1]);
    }
  }

  // ---------------------------------------------------------------- theorems

  /** Being written, written in part, or ended. */
  predicate Started(r: Response) {
    r.pc.Sending? || r.out != [] || r.promise.Resolved?
  }

  /** A response is started only after every one before it has been finished. */
  ghost predicate InOrder(s: State) {
    forall i, j {:trigger s.responses[i], s.responses[j]} :: 0 <= j < i < |s.responses| && Started(s.responses[i]) ==>
      s.responses[j].promise.Resolved?
  }

  /** After a response dropped without end no later one is started. */
  ghost predicate DropStops(s: State) {
    forall i, j {:trigger s.responses[i], s.responses[j]} :: 0 <= j < i < |s.responses| && s.responses[j].promise.Broken? ==>
      !Started(s.responses[i])
  }

  /**
   * Section 6.3.2 of RFC 7230: as long as no call is made on a response after a call on it
   * threw, whatever order the handlers work in, the wire is the first response, then the
   * second, and so on; a response has bytes out only if all before it are whole.
   */
  lemma ResponsesInOrder(trace: seq<State>, acts: seq<Action>, n: nat)
    requires IsRun(trace, acts) && n <= |acts| && NoRetry(acts, n)
    ensures Finals(trace[n].wire) == InTurn(trace[n].responses)
    ensures InOrder(trace[n]) && DropStops(trace[n])
    ensures forall k {:trigger trace[n].responses[k]} :: 0 <= k < |trace[n].responses| ==>
      var r := trace[n].responses[k];
      r.out <= r.meant && (r.promise.Resolved? ==> r.out == r.meant)
  {
    var s := trace[n];
    RunKeepsInv(trace, acts, n);
    forall i, j {:trigger s.responses[i], s.responses[j]} | 0 <= j < i < |s.responses| && Started(s.responses[i])
      ensures s.responses[j].promise.Resolved?
    {
      assert Ok(s, i);
      AllBeforeFinished(s, j, i);
    }
    forall k {:trigger s.responses[k]} | 0 <= k < |s.responses|
      ensures s.responses[k].out <= s.responses[k].meant && (s.responses[k].promise.Resolved? ==> s.responses[k].out == s.responses[k].meant)
    {
      assert Ok(s, k);
    }
  }

  /** A call after a throw goes straight to the wire, past a predecessor that was dropped. */
  lemma RetryStartsEarly(trace: seq<State>, acts: seq<Action>, n: nat)
    requires IsRun(trace, acts) && n < |acts| && NoRetry(acts, n) && Retries(trace[n], acts[n])
    ensures !InOrder(trace[n + 1]) && !DropStops(trace[n + 1])
  {
    var s, t, i := trace[n], trace[n + 1], acts[n].who;
    RunKeepsInv(trace, acts, n);
    assert Enabled(s, acts[n]);
    assert Ok(s, i);
    assert Started(t.responses[i]) && t.responses[i - 1].promise.Broken?;
  }

  /**
   * Exactly then: order holds throughout a run if and only if no call is made on a response
   * after a call on it threw; and the same condition decides whether a drop stops the rest.
   */
  lemma OrderIff(trace: seq<State>, acts: seq<Action>)
    requires IsRun(trace, acts)
    ensures (forall n :: 0 <= n <= |acts| ==> InOrder(trace[n])) <==> NoRetry(acts, |acts|)
    ensures (forall n :: 0 <= n <= |acts| ==> DropStops(trace[n])) <==> NoRetry(acts, |acts|)
  {
    if NoRetry(acts, |acts|) {
      forall n | 0 <= n <= |acts| ensures InOrder(trace[n]) && DropStops(trace[n]) {
        ResponsesInOrder(trace, acts, n);
      }
    } else {
      var n := FirstRetry(trace, acts, |acts|);
      RetryStartsEarly(trace, acts, n);
    }
  }

  lemma {:induction false} FirstRetry(trace: seq<State>, acts: seq<Action>, m: nat) returns (n: nat)
    requires IsRun(trace, acts) && m <= |acts| && !NoRetry(acts, m)
    ensures n < m && NoRetry(acts, n) && Retries(trace[n], acts[n])
  {
    if !NoRetry(acts, m - 1) {
      n := FirstRetry(trace, acts, m - 1);
    } else {
      n := m - 1;
      var j, k :| 0 <= j < k < m && acts[j].Throw? && acts[k].Call? && acts[j].who == acts[k].who;
      assert k == n;
      assert Enabled(trace[n], acts[n]);
      assert acts[..n][j] == acts[j];
      ThrewIff(trace, acts, n, acts[n].who);
    }
  }

  /** A response dropped without end silences every later one on which nobody calls again after a throw. */
  lemma DroppedStopsTheRest(trace: seq<State>, acts: seq<Action>, n: nat, k: nat, j: nat)
    requires IsRun(trace, acts) && n <= |acts| && NoRetry(acts, n)
    requires k < j < |trace[n].responses| && trace[n].responses[k].promise.Broken?
    ensures trace[n].responses[j].out == [] && !trace[n].responses[j].promise.Resolved?
  {
    ResponsesInOrder(trace, acts, n);
    assert !Started(trace[n].responses[j]);
  }

  /** One more step of a run. */
  lemma Do(trace: seq<State>, acts: seq<Action>, a: Action) returns (more: seq<State>, did: seq<Action>)
    requires IsRun(trace, acts) && Enabled(trace[|acts|], a)
    ensures IsRun(more, did) && did == acts + [a] && more[|did|] == Step(trace[|acts|], a)
  {
    more, did := trace + [Step(trace[|acts|], a)], acts + [a];
    forall i {:trigger did[i]} | 0 <= i < |did| ensures Enabled(more[i], did[i]) && more[i + 1] == Step(more[i], did[i]) {
      if i < |acts| {
        assert did[i] == acts[i];
      }
    }
  }

  /** Three responses, of which nobody has called anything yet. */
  lemma ThreeOpen() returns (trace: seq<State>, acts: seq<Action>)
    ensures IsRun(trace, acts) && trace[|acts|] == State([NewResponse, NewResponse, NewResponse], [])
  {
    var r := NewResponse;
    trace, acts := Do([State([], [])], [], Open);
    assert trace[|acts|] == State([r], []);
    trace, acts := Do(trace, acts, Open);
    assert trace[|acts|] == State([r, r], []);
    trace, acts := Do(trace, acts, Open);
    assert trace[|acts|] == State([r, r, r], []);
  }

  /** The first of them has one of its two bytes out. */
  lemma HalfOut(a: byte, b: byte) returns (trace: seq<State>, acts: seq<Action>)
    ensures IsRun(trace, acts)
    ensures trace[|acts|] == State([Response(Sending, true, [b], true, Pending, false, true, [a], [a, b]), NewResponse, NewResponse], [Byte(a, 0)])
  {
    var r := NewResponse;
    trace, acts := ThreeOpen();
    assert [] + [a, b] == [a, b] && [a, b][1..] == [b] && [] + [a] == [a];
    trace, acts := Do(trace, acts, Call(0, [a, b], true));
    var x := Response(AtGate, true, [a, b], true, Pending, false, false, [], [a, b]);
    assert trace[|acts|] == State([x, r, r], []);
    trace, acts := Do(trace, acts, Pass(0));
    assert trace[|acts|] == State([x.(pc := Sending, passed := true), r, r], []);
    trace, acts := Do(trace, acts, Emit(0));
  }

  /** The second is dropped, and the third has caught what its call threw. */
  lemma Caught(a: byte, b: byte, c: byte) returns (trace: seq<State>, acts: seq<Action>)
    ensures IsRun(trace, acts)
    ensures trace[|acts|] == State(
      [Response(Sending, true, [b], true, Pending, false, true, [a], [a, b]), NewResponse.(pc := Over, promise := Broken),
       Response(Failed, true, [c], false, Pending, true, false, [], [c])], [Byte(a, 0)])
  {
    trace, acts := HalfOut(a, b);
    var half, r, wire := trace[|acts|].responses[0], NewResponse, [Byte(a, 0)];
    var gone := r.(pc := Over, promise := Broken);
    assert [] + [c] == [c];
    trace, acts := Do(trace, acts, Drop(1));
    assert trace[|acts|] == State([half, gone, r], wire);
    trace, acts := Do(trace, acts, Call(2, [c], false));
    assert trace[|acts|] == State([half, gone, Response(AtGate, true, [c], false, Pending, false, false, [], [c])], wire);
    trace, acts := Do(trace, acts, Throw(2));
  }

  /**
   * The first response is half out, the second is dropped, the third catches the broken promise
   * and calls again: its byte lands inside the first response.
   */
  lemma RetryCanSplitResponse(a: byte, b: byte, c: byte) returns (trace: seq<State>, acts: seq<Action>)
    requires b != c
    ensures IsRun(trace, acts) && trace[|acts|].wire == [Byte(a, 0), Byte(c, 2), Byte(b, 0)]
    ensures Finals(trace[|acts|].wire) != InTurn(trace[|acts|].responses)
  {
    trace, acts := Caught(a, b, c);
    var half, gone, failed := trace[|acts|].responses[0], trace[|acts|].responses[1], trace[|acts|].responses[2];
    assert [c][1..] == [] && [] + [c] == [c] && [a] + [b] == [a, b] && [b][1..] == [];
    trace, acts := Do(trace, acts, Call(2, [c], false));
    assert trace[|acts|] == State([half, gone, failed.(pc := Sending, meant := [c] + [c])], [Byte(a, 0)]);
    trace, acts := Do(trace, acts, Emit(2));
    var early := failed.(pc := Sending, meant := [c] + [c], todo := [], out := [c]);
    assert trace[|acts|] == State([half, gone, early], [Byte(a, 0), Byte(c, 2)]);
    trace, acts := Do(trace, acts, Emit(0));
    var whole := half.(todo := [], out := [a, b]);
    assert trace[|acts|] == State([whole, gone, early], [Byte(a, 0), Byte(c, 2), Byte(b, 0)]);
    ThreeInTurn(whole, gone, early);
    ThreeFinals(Byte(a, 0), Byte(c, 2), Byte(b, 0));
    assert [a, c, b][1] != ([a, b] + [] + [c])[1];
  }

  lemma ThreeInTurn(x: Response, y: Response, z: Response)
    ensures InTurn([x, y, z]) == x.out + y.out + z.out
  {
    assert [x, y, z][..2] == [x, y] && [x, y][..1] == [x] && [x][..0] == [];
    assert InTurn([x]) == [] + x.out == x.out;
    assert InTurn([x, y]) == x.out + y.out;
  }

  lemma ThreeFinals(x: Item, y: Item, z: Item)
    requires x.Byte? && y.Byte? && z.Byte?
    ensures Finals([x, y, z]) == [x.value, y.value, z.value]
  {
    assert [x, y, z][..2] == [x, y] && [x, y][..1] == [x] && [x][..0] == [];
    assert Finals([x]) == [x.value] && Finals([x, y]) == [x.value, y.value];
  }

  // ---------------------------------------------------------------- interim responses

  /** Interim responses do not wait: one can land between the bytes of another response. */
  lemma InterimCanSplitResponse(a: byte, b: byte) returns (trace: seq<State>, acts: seq<Action>)
    ensures IsRun(trace, acts) && trace[|acts|].wire == [Byte(a, 0), Continue, Byte(b, 0)]
  {
    trace, acts := HalfOut(a, b);
    var s := trace[|acts|];
    trace, acts := Do(trace, acts, Interim);
    assert trace[|acts|] == State(s.responses, [Byte(a, 0), Continue]);
    trace, acts := Do(trace, acts, Emit(0));
  }

  /** Some response has bytes on both sides of position p. */
  ghost predicate Splits(wire: seq<Item>, p: nat) {
    exists x, y {:trigger wire[x], wire[y]} :: 0 <= x < p < y < |wire| && wire[x].Byte? && wire[y].Byte? && wire[x].who == wire[y].who
  }

  predicate ByteOf(x: Item, k: nat) {
    x.Byte? && x.who == k
  }

  ghost predicate OnWire(s: State, k: nat) {
    exists x {:trigger s.wire[x]} :: 0 <= x < |s.wire| && ByteOf(s.wire[x], k)
  }

  /** A response has a byte on the wire exactly if it put one out. */
  lemma {:induction false} OnWireIff(trace: seq<State>, acts: seq<Action>, n: nat, k: nat)
    requires IsRun(trace, acts) && n <= |acts|
    ensures OnWire(trace[n], k) <==> k < |trace[n].responses| && trace[n].responses[k].out != []
  {
    if n > 0 {
      var s, t, a := trace[n - 1], trace[n], acts[n - 1];
      OnWireIff(trace, acts, n - 1, k);
      assert Enabled(s, a);
      if OnWire(s, k) {
        var x :| 0 <= x < |s.wire| && ByteOf(s.wire[x], k);
        assert t.wire[x] == s.wire[x];
      }
      if a == Emit(k) {
        assert ByteOf(t.wire[|s.wire|], k);
      }
      if OnWire(t, k) {
        var x :| 0 <= x < |t.wire| && ByteOf(t.wire[x], k);
        assert x < |s.wire| ==> s.wire[x] == t.wire[x];
      }
    }
  }

  /** The wire only grows, and each byte beyond an earlier wire was put there by an Emit since. */
  lemma {:induction false} WireGrows(trace: seq<State>, acts: seq<Action>, n: nat, m: nat)
    requires IsRun(trace, acts) && n <= m <= |acts|
    ensures trace[n].wire <= trace[m].wire
    ensures forall y {:trigger trace[m].wire[y]} :: |trace[n].wire| <= y < |trace[m].wire| && trace[m].wire[y].Byte? ==>
      Emit(trace[m].wire[y].who) in acts[n..m]
    ensures forall k: nat {:trigger Emit(k) in acts[n..m]} :: Emit(k) in acts[n..m] ==>
      exists y {:trigger trace[m].wire[y]} :: |trace[n].wire| <= y < |trace[m].wire| && ByteOf(trace[m].wire[y], k)
  {
    if n < m {
      WireGrows(trace, acts, n, m - 1);
      var s, t, a := trace[m - 1], trace[m], acts[m - 1];
      assert Enabled(s, a);
      assert acts[n..m] == acts[n..m - 1] + [a];
      assert s.wire <= t.wire;
      forall y {:trigger t.wire[y]} | |trace[n].wire| <= y < |t.wire| && t.wire[y].Byte? ensures Emit(t.wire[y].who) in acts[n..m] {
        if y < |s.wire| {
          assert s.wire[y] == t.wire[y];
        }
      }
      forall k: nat {:trigger Emit(k) in acts[n..m]} | Emit(k) in acts[n..m]
        ensures exists y {:trigger t.wire[y]} :: |trace[n].wire| <= y < |t.wire| && ByteOf(t.wire[y], k)
      {
        if a == Emit(k) {
          assert ByteOf(t.wire[|s.wire|], k);
        } else {
          assert Emit(k) in acts[n..m - 1];
          var y :| |trace[n].wire| <= y < |s.wire| && ByteOf(s.wire[y], k);
          assert t.wire[y] == s.wire[y];
        }
      }
    }
  }

  /**
   * Exactly then: the interim response written by step n is inside another response, by step m,
   * if and only if some response had bytes out at step n and put out more by step m. Otherwise
   * it lies on a boundary between responses.
   */
  lemma InterimSplitsIff(trace: seq<State>, acts: seq<Action>, n: nat, m: nat)
    requires IsRun(trace, acts) && n < m <= |acts| && acts[n].Interim?
    ensures |trace[n].wire| < |trace[m].wire| && trace[m].wire[|trace[n].wire|].Continue?
    ensures Splits(trace[m].wire, |trace[n].wire|) <==>
      exists k {:trigger trace[n].responses[k]} :: 0 <= k < |trace[n].responses| && trace[n].responses[k].out != [] && Emit(k) in acts[n + 1..m]
  {
    var s, w, p := trace[n], trace[m].wire, |trace[n].wire|;
    assert Enabled(s, acts[n]);
    WireGrows(trace, acts, n + 1, m);
    assert trace[n + 1].wire == s.wire + [Continue];
    assert w[p] == trace[n + 1].wire[p];
    if Splits(w, p) {
      var x, y :| 0 <= x < p < y < |w| && w[x].Byte? && w[y].Byte? && w[x].who == w[y].who;
      assert w[x] == trace[n + 1].wire[x] == s.wire[x];
      assert OnWire(s, w[x].who);
      OnWireIff(trace, acts, n, w[x].who);
      assert Emit(w[y].who) in acts[n + 1..m];
      assert s.responses[w[x].who].out != [];
    }
    if k :| 0 <= k < |s.responses| && s.responses[k].out != [] && Emit(k) in acts[n + 1..m] {
      OnWireIff(trace, acts, n, k);
      var x :| 0 <= x < |s.wire| && ByteOf(s.wire[x], k);
      var y :| |trace[n + 1].wire| <= y < |w| && ByteOf(w[y], k);
      assert w[x] == trace[n + 1].wire[x] == s.wire[x];
    }
  }

  // ---------------------------------------------------------------- bytes in turn

  /** No byte of a later response stands before a byte of an earlier one. */
  ghost predicate BytesInTurn(wire: seq<Item>) {
    forall x, y {:trigger wire[x], wire[y]} :: 0 <= x < y < |wire| && wire[x].Byte? && wire[y].Byte? ==> wire[x].who <= wire[y].who
  }

  /** Step b puts out a byte of response i although step a put out one of a later response k. */
  predicate Late(acts: seq<Action>, a: nat, b: nat) {
    a < b < |acts| && acts[a].Emit? && acts[b].Emit? && acts[b].who < acts[a].who
  }

  lemma LateIsOnWire(trace: seq<State>, acts: seq<Action>, a: nat, b: nat, n: nat)
    requires IsRun(trace, acts) && b < n <= |acts| && Late(acts, a, b)
    ensures !BytesInTurn(trace[n].wire)
  {
    var k, i, w := acts[a].who, acts[b].who, trace[n].wire;
    WireGrows(trace, acts, a + 1, n);
    WireGrows(trace, acts, b, n);
    WireGrows(trace, acts, a + 1, b);
    WireGrows(trace, acts, b + 1, n);
    assert Enabled(trace[a], acts[a]) && Enabled(trace[b], acts[b]);
    var x, y := |trace[a].wire|, |trace[b].wire|;
    assert trace[a + 1].wire[x] == Byte(trace[a].responses[k].todo[0], k) && trace[b + 1].wire[y] == Byte(trace[b].responses[i].todo[0], i);
    assert w[x] == trace[a + 1].wire[x] && w[y] == trace[b + 1].wire[y] && x < y;
  }

  lemma {:induction false} OutOfTurnIsLate(trace: seq<State>, acts: seq<Action>, n: nat) returns (a: nat, b: nat)
    requires IsRun(trace, acts) && n <= |acts| && !BytesInTurn(trace[n].wire)
    ensures b < n && Late(acts, a, b)
    decreases n
  {
    var s, t := trace[n - 1], trace[n];
    assert Enabled(s, acts[n - 1]);
    if !BytesInTurn(s.wire) {
      a, b := OutOfTurnIsLate(trace, acts, n - 1);
    } else {
      b := n - 1;
      var x, y :| 0 <= x < y < |t.wire| && t.wire[x].Byte? && t.wire[y].Byte? && t.wire[x].who > t.wire[y].who;
      assert forall z :: 0 <= z < |s.wire| ==> t.wire[z] == s.wire[z];
      assert y == |s.wire| && acts[b] == Emit(t.wire[y].who);
      WireGrows(trace, acts, 0, b);
      assert Emit(s.wire[x].who) in acts[0..b];
      a :| 0 <= a < b && acts[0..b][a] == Emit(s.wire[x].who);
    }
  }

  /**
   * Exactly then: the bytes on the wire are in turn if and only if no response puts out a byte
   * after a later one did.
   */
  lemma BytesInTurnIff(trace: seq<State>, acts: seq<Action>, n: nat)
    requires IsRun(trace, acts) && n <= |acts|
    ensures BytesInTurn(trace[n].wire) <==> forall a, b {:trigger Late(acts, a, b)} :: 0 <= a < b < n ==> !Late(acts, a, b)
  {
    if !BytesInTurn(trace[n].wire) {
      var a, b := OutOfTurnIsLate(trace, acts, n);
      assert Late(acts, a, b);
    } else if a, b :| 0 <= a < b < n && Late(acts, a, b) {
      LateIsOnWire(trace, acts, a, b, n);
    }
  }

  /** Where a byte goes out in turn, no later response has put out any. */
  lemma NoneLater(trace: seq<State>, acts: seq<Action>, n: nat, i: nat, j: nat)
    requires IsRun(trace, acts) && n < |acts| && acts[n] == Emit(i) && BytesInTurn(trace[n + 1].wire) && i < j < |trace[n].responses|
    ensures trace[n].responses[j].out == []
  {
    var s, w, last := trace[n], trace[n + 1].wire, |trace[n].wire|;
    assert Enabled(s, acts[n]);
    assert w[last].Byte? && w[last].who == i;
    OnWireIff(trace, acts, n, j);
    forall x {:trigger s.wire[x]} | 0 <= x < |s.wire| ensures !ByteOf(s.wire[x], j) {
      assert w[x] == s.wire[x] && (w[x].Byte? ==> w[x].who <= w[last].who);
    }
    assert !OnWire(s, j);
  }

  /** Then they are the first response's, then the second's, and so on. */
  lemma {:induction false} InTurnIsWhole(trace: seq<State>, acts: seq<Action>, n: nat)
    requires IsRun(trace, acts) && n <= |acts| && BytesInTurn(trace[n].wire)
    ensures Finals(trace[n].wire) == InTurn(trace[n].responses)
    decreases n
  {
    if n > 0 {
      var s, t, a := trace[n - 1], trace[n], acts[n - 1];
      assert Enabled(s, a);
      assert BytesInTurn(s.wire) by {
        assert forall z {:trigger s.wire[z]} :: 0 <= z < |s.wire| ==> t.wire[z] == s.wire[z];
      }
      InTurnIsWhole(trace, acts, n - 1);
      match a
      case Open => assert t.responses[..|s.responses|] == s.responses;
      case Interim => FinalsMore(s.wire, Continue);
      case Emit(i) => EmitInTurn(trace, acts, n - 1, i);
      case _ => InTurnSame(s.responses, a.who, t.responses[a.who]);
    }
  }

  lemma EmitInTurn(trace: seq<State>, acts: seq<Action>, n: nat, i: nat)
    requires IsRun(trace, acts) && n < |acts| && acts[n] == Emit(i) && BytesInTurn(trace[n + 1].wire)
    requires Finals(trace[n].wire) == InTurn(trace[n].responses)
    ensures Finals(trace[n + 1].wire) == InTurn(trace[n + 1].responses)
  {
    var s, t := trace[n], trace[n + 1];
    assert Enabled(s, acts[n]);
    forall j | i < j < |s.responses| ensures s.responses[j].out == [] { NoneLater(trace, acts, n, i, j); }
    var b := s.responses[i].todo[0];
    InTurnMore(s.responses, i, t.responses[i], b);
    FinalsMore(s.wire, Byte(b, i));
  }

  // ---------------------------------------------------------------- who is to blame

  /** Response j is called again after its gate threw, before step n. */
  ghost predicate Retried(acts: seq<Action>, n: nat, j: nat)
    requires n <= |acts|
  {
    exists x, y {:trigger acts[x], acts[y]} :: 0 <= x < y < n && acts[x] == Throw(j) && acts[y].Call? && acts[y].who == j
  }

  /** A response on which nobody calls again after a throw, whatever the others do. */
  ghost predicate Behaves(s: State, j: nat)
    requires j < |s.responses|
  {
    var r := s.responses[j];
    && (r.threw ==> (r.pc.Failed? || r.pc.Over?) && !Started(r))
    && (!r.threw ==> !r.pc.Failed? && (r.pc.Idle? ==> r.passed == r.headersSent) && (r.pc.AtGate? ==> r.headersSent && !r.passed) && (r.pc.Sending? ==> r.headersSent) && (Started(r) ==> r.passed))
    && (r.passed ==> MayPass(s, j))
    && (r.promise.Resolved? || r.promise.Broken? ==> r.pc.Over?)
  }

  lemma {:induction false} RunBehaves(trace: seq<State>, acts: seq<Action>, n: nat, j: nat)
    requires IsRun(trace, acts) && n <= |acts| && j < |trace[n].responses| && !Retried(acts, n, j)
    ensures Behaves(trace[n], j)
    decreases n
  {
    if n > 0 {
      var s, a := trace[n - 1], acts[n - 1];
      assert Enabled(s, a);
      if j < |s.responses| {
        assert !Retried(acts, n - 1, j);
        RunBehaves(trace, acts, n - 1, j);
        Settled(trace, acts, n - 1);
        if a.Call? && a.who == j {
          ThrewIff(trace, acts, n - 1, j);
          var before := acts[..n - 1];
          forall x {:trigger before[x]} | 0 <= x < n - 1 ensures before[x] != Throw(j) { assert before[x] == acts[x] && acts[n - 1] == a; }
        }
        BehavesStep(s, a, j);
      }
    }
  }

  /** A promise that is set belongs to a response that is over. */
  ghost predicate AllSettled(s: State) {
    forall i {:trigger s.responses[i]} :: 0 <= i < |s.responses| && !s.responses[i].promise.Pending? ==> s.responses[i].pc.Over?
  }

  lemma {:induction false} Settled(trace: seq<State>, acts: seq<Action>, n: nat)
    requires IsRun(trace, acts) && n <= |acts|
    ensures AllSettled(trace[n])
    decreases n
  {
    if n > 0 {
      Settled(trace, acts, n - 1);
      assert Enabled(trace[n - 1], acts[n - 1]);
    }
  }

  lemma BehavesStep(s: State, a: Action, j: nat)
    requires Enabled(s, a) && j < |s.responses| && Behaves(s, j) && AllSettled(s) && !(a.Call? && a.who == j && s.responses[j].threw)
    ensures j < |Step(s, a).responses| && Behaves(Step(s, a), j)
  {
  }

  /** If nobody between i and k calls again after a throw, k starts only when i is finished. */
  lemma {:induction false} StartedAfter(trace: seq<State>, acts: seq<Action>, n: nat, i: nat, k: nat)
    requires IsRun(trace, acts) && n <= |acts| && i < k < |trace[n].responses| && Started(trace[n].responses[k])
    requires forall j {:trigger Retried(acts, n, j)} :: i < j <= k ==> !Retried(acts, n, j)
    ensures trace[n].responses[i].promise.Resolved?
    decreases k
  {
    assert !Retried(acts, n, k);
    RunBehaves(trace, acts, n, k);
    if i < k - 1 {
      StartedAfter(trace, acts, n, i, k - 1);
    }
  }

  lemma {:induction false} FinishedStays(trace: seq<State>, acts: seq<Action>, n: nat, m: nat, i: nat)
    requires IsRun(trace, acts) && n <= m <= |acts| && i < |trace[n].responses| && trace[n].responses[i].promise.Resolved?
    ensures i < |trace[m].responses| && trace[m].responses[i].promise.Resolved?
    decreases m
  {
    if n < m {
      FinishedStays(trace, acts, n, m - 1, i);
      Settled(trace, acts, m - 1);
      assert Enabled(trace[m - 1], acts[m - 1]);
    }
  }

  /** A byte out of turn has its cause: a response between the two, or the later one, was called again after its gate threw. */
  lemma LateNeedsRetry(trace: seq<State>, acts: seq<Action>, a: nat, b: nat) returns (j: nat)
    requires IsRun(trace, acts) && Late(acts, a, b)
    ensures acts[b].who < j <= acts[a].who && Retried(acts, a, j)
  {
    var i, k := acts[b].who, acts[a].who;
    assert Enabled(trace[a], acts[a]) && Enabled(trace[b], acts[b]);
    if forall j {:trigger Retried(acts, a, j)} :: i < j <= k ==> !Retried(acts, a, j) {
      StartedAfter(trace, acts, a, i, k);
      FinishedStays(trace, acts, a, b, i);
      Settled(trace, acts, b);
    }
    j :| i < j <= k && Retried(acts, a, j);
  }
}
