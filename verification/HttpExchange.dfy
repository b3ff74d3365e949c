/**
 * Responses one after another on a connection, as handleConnection has them sent: the peer
 * reads them from one stream of bytes, and the connection is closed by what the requests said.
 */
module HttpExchange {
  import opened Prelude
  import opened Wire
  import opened Numbers
  import opened BodyReader
  import opened BodyWriter
  import opened HttpParser
  import opened HttpHead
  import opened HttpOutgoing

  /** What a handler makes of its response. */
  datatype Answer = Answer(
    extras: Extras, walk: Walk, headers: map<bytes, bytes>, code: nat, reason: bytes, writes: seq<bytes>, last: Option<bytes>)

  /**
   * A request, by whether it keeps the connection open, its response, and whether the handler or
   * the drain of the request throws behind it; or a handler that throws before it sends anything.
   */
  datatype Turn = Answered(keepAlive: bool, answer: Answer, fails: bool) | Threw

  /** The server goes on to the next request. */
  predicate GoesOn(t: Turn) {
    t.Answered? && t.keepAlive && !t.fails
  }

  ghost predicate GoodAnswer(a: Answer) {
    && a.extras.side.ResponseSide? && GoodExtras(a.extras) && GoodHeaders(a.headers) && Unframed(a.headers) && IsWalker(a.walk)
    && 100 <= a.code <= 999 && NoCrlf(a.reason)
    && ChunksFit(a.writes) && (a.last.Some? ==> |a.last.value| <= MaxChunk) && |AndLast(a.writes, a.last)| <= ULongMax
  }

  ghost predicate GoodTurns(turns: seq<Turn>) {
    forall i {:trigger turns[i]} :: 0 <= i < |turns| && turns[i].Answered? ==> GoodAnswer(turns[i].answer)
  }

  function StartOf(a: Answer): Start {
    StatusLine(a.extras.version, a.code, a.reason)
  }

  function ModeOf(a: Answer): TransferMode {
    if a.writes == [] then ModeContentLength else if a.extras.version.Http10? then ModeUntilClose else ModeChunked
  }

  function BodyOf(a: Answer): bytes {
    AndLast(a.writes, a.last)
  }

  // ---------------------------------------------------------------- what the server does

  /** How many turns are answered before the connection is closed, or the turns are over. */
  function Answers(turns: seq<Turn>, i: nat): nat
    decreases |turns| - i
  {
    if i >= |turns| || turns[i].Threw? then i else if !GoesOn(turns[i]) then i + 1 else Answers(turns, i + 1)
  }

  /** The server closes after a request that does not keep the connection open, and after an exception. */
  predicate Closes(turns: seq<Turn>, i: nat)
    decreases |turns| - i
  {
    i < |turns| && (!GoesOn(turns[i]) || Closes(turns, i + 1))
  }

  /** The bytes of the responses from i on. */
  function After(wires: seq<bytes>, i: nat): bytes
    decreases |wires| - i
  {
    if i >= |wires| then [] else wires[i] + After(wires, i + 1)
  }

  /** A response that its receiver understands, and that tells about the connection what its version, its framing and the request imply. */
  ghost predicate SentAs(wire: bytes, fields: seq<Field>, t: Turn)
    requires t.Answered?
  {
    && wire != [] && Understood(wire, StartOf(t.answer), ModeOf(t.answer), BodyOf(t.answer))
    && Tells(fields, t.answer.extras, KeepsOpen(t.answer.headers, !t.keepAlive || ModeOf(t.answer).ModeUntilClose?))
  }

  ghost predicate AllSent(turns: seq<Turn>, wires: seq<bytes>, heads: seq<seq<Field>>) {
    && |wires| == |heads| <= |turns|
    && forall i {:trigger SentAt(turns, wires, heads, i)} :: 0 <= i < |wires| ==> SentAt(turns, wires, heads, i)
  }

  ghost predicate SentAt(turns: seq<Turn>, wires: seq<bytes>, heads: seq<seq<Field>>, i: nat)
    requires i < |wires| == |heads| <= |turns|
  {
    turns[i].Answered? && SentAs(wires[i], heads[i], turns[i])
  }

  lemma {:induction false} AfterMore(wires: seq<bytes>, i: nat, w: bytes)
    requires i <= |wires|
    ensures After(wires + [w], i) == After(wires, i) + w
    decreases |wires| - i
  {
    if i < |wires| {
      AfterMore(wires, i + 1, w);
      assert wires[i] + (After(wires, i + 1) + w) == wires[i] + After(wires, i + 1) + w;
    } else {
      assert After(wires + [w], i + 1) == [];
      assert w + [] == w && [] + w == w;
    }
  }

  lemma AllSentMore(turns: seq<Turn>, wires: seq<bytes>, heads: seq<seq<Field>>, wire: bytes, fields: seq<Field>)
    requires AllSent(turns, wires, heads) && |wires| < |turns| && turns[|wires|].Answered? && SentAs(wire, fields, turns[|wires|])
    ensures AllSent(turns, wires + [wire], heads + [fields])
  {
    var w, h := wires + [wire], heads + [fields];
    forall i {:trigger SentAt(turns, w, h, i)} | 0 <= i < |w| ensures SentAt(turns, w, h, i) {
      if i < |wires| {
        assert SentAt(turns, wires, heads, i);
        SentAtSame(turns, wires, heads, w, h, i);
      } else {
        assert SentAs(w[i], h[i], turns[i]);
      }
    }
  }

  lemma OneMore(turns: seq<Turn>, start: bytes, wires: seq<bytes>, heads: seq<seq<Field>>, wire: bytes, fields: seq<Field>)
    returns (more: seq<bytes>, also: seq<seq<Field>>)
    requires AllSent(turns, wires, heads) && |wires| < |turns| && turns[|wires|].Answered? && SentAs(wire, fields, turns[|wires|])
    ensures |more| == |wires| + 1 && AllSent(turns, more, also) && start + After(wires, 0) + wire == start + After(more, 0)
  {
    AllSentMore(turns, wires, heads, wire, fields);
    AfterMore(wires, 0, wire);
    assert start + After(wires, 0) + wire == start + (After(wires, 0) + wire);
    more, also := wires + [wire], heads + [fields];
  }

  lemma SentAtSame(turns: seq<Turn>, wires: seq<bytes>, heads: seq<seq<Field>>, w: seq<bytes>, h: seq<seq<Field>>, i: nat)
    requires i < |wires| == |heads| <= |turns| && SentAt(turns, wires, heads, i)
    requires i < |w| == |h| <= |turns| && w[i] == wires[i] && h[i] == heads[i]
    ensures SentAt(turns, w, h, i)
  {
    assert SentAs(w[i], h[i], turns[i]);
  }

  /** One response: created for its request, written, ended. */
  method AnswerOne(stream: ByteStream, t: Turn) returns (ghost wire: bytes, ghost fields: seq<Field>)
    requires t.Answered? && GoodAnswer(t.answer)
    modifies stream`output
    ensures stream.output == old(stream.output) + wire && SentAs(wire, fields, t)
  {
    var a := t.answer;
    var response := new Outgoing(stream, StatusText(a.extras.version, a.code, a.reason), a.extras, false, !t.keepAlive, a.headers, a.walk);
    ghost var mode;
    mode, wire := SendResponse(response, a.extras.version, a.code, a.reason, a.writes, a.last);
    fields := response.fields;
  }

  /** The next response behind those before it. */
  method AnswerNext(stream: ByteStream, turns: seq<Turn>, i: nat, ghost start: bytes, ghost wires: seq<bytes>, ghost heads: seq<seq<Field>>)
    returns (ghost more: seq<bytes>, ghost also: seq<seq<Field>>)
    requires GoodTurns(turns) && i == |wires| < |turns| && turns[i].Answered? && AllSent(turns, wires, heads)
    requires stream.output == start + After(wires, 0)
    modifies stream`output
    ensures |more| == i + 1 && AllSent(turns, more, also) && stream.output == start + After(more, 0)
  {
    ghost var wire, fields;
    wire, fields := AnswerOne(stream, turns[i]);
    more, also := OneMore(turns, start, wires, heads, wire, fields);
  }

  /** handleConnection, as far as it writes. */
  method AnswerAll(stream: ByteStream, turns: seq<Turn>) returns (closed: bool, ghost wires: seq<bytes>, ghost heads: seq<seq<Field>>)
    requires GoodTurns(turns)
    modifies stream`output
    ensures closed == Closes(turns, 0) && |wires| == Answers(turns, 0) && AllSent(turns, wires, heads)
    ensures stream.output == old(stream.output) + After(wires, 0)
  {
    wires, heads := [], [];
    ghost var start := stream.output;
    var i := 0;
    while i < |turns|
      invariant i <= |turns| && |wires| == i && AllSent(turns, wires, heads)
      invariant Closes(turns, 0) == Closes(turns, i) && Answers(turns, 0) == Answers(turns, i)
      invariant stream.output == start + After(wires, 0)
    {
      if turns[i].Threw? {
        return true, wires, heads;
      }
      wires, heads := AnswerNext(stream, turns, i, start, wires, heads);
      if !turns[i].keepAlive || turns[i].fails {
        return true, wires, heads;
      }
      i := i + 1;
    }
    closed := false;
  }

  // ---------------------------------------------------------------- what the peer makes of it

  /**
   * The peer finds the response as it was meant, knows that it is whole, and goes on behind it.
   * A body that ends with the connection is known to be whole only when that is closed.
   */
  ghost predicate Recovered(wire: bytes, tail: bytes, closed: bool, a: Answer) {
    && Reads(wire + tail, |wire|, StepOf(ResponseSide, {}), StartOf(a), ModeOf(a), Decoded(BodyOf(a), tail))
    && (ModeOf(a).ModeUntilClose? ==> closed)
  }

  lemma RecoveredIffLast(wire: bytes, fields: seq<Field>, t: Turn, tail: bytes, closed: bool)
    requires t.Answered? && SentAs(wire, fields, t)
    ensures Recovered(wire, tail, closed, t.answer) <==> !ModeOf(t.answer).ModeUntilClose? || (closed && tail == [])
    ensures Reads(wire + tail, |wire|, StepOf(ResponseSide, {}), StartOf(t.answer), ModeOf(t.answer), TakenWith(ModeOf(t.answer), BodyOf(t.answer), tail))
  {
    var body := BodyOf(t.answer);
    assert body + [] == body;
    assert Reads(wire + tail, |wire|, StepOf(ResponseSide, {}), StartOf(t.answer), ModeOf(t.answer), TakenWith(ModeOf(t.answer), body, tail));
  }

  lemma {:induction false} AnswersAt(turns: seq<Turn>, i: nat, k: nat)
    requires k <= i < Answers(turns, k)
    ensures i < |turns| && turns[i].Answered? && Answers(turns, k) == Answers(turns, i) && Closes(turns, k) == Closes(turns, i)
    decreases i - k
  {
    if k < i {
      AnswersAt(turns, i, k + 1);
    }
  }

  lemma {:induction false} AnswersGrow(turns: seq<Turn>, i: nat)
    ensures Answers(turns, i) >= i && (i < |turns| && turns[i].Answered? ==> Answers(turns, i) > i)
    decreases |turns| - i
  {
    if i < |turns| && turns[i].Answered? {
      AnswersGrow(turns, i + 1);
    }
  }

  /** The last response, and a connection that is closed behind it. */
  lemma FollowedIff(turns: seq<Turn>, wires: seq<bytes>, i: nat)
    requires i < |turns| && turns[i].Answered? && i < |wires| == Answers(turns, i)
    ensures (i + 1 == |wires| && Closes(turns, i)) <==> !GoesOn(turns[i]) || (i + 1 < |turns| && turns[i + 1].Threw?)
    ensures i + 1 == |wires| ==> After(wires, i + 1) == []
    ensures i + 1 < |wires| && wires[i + 1] != [] ==> After(wires, i + 1) != []
  {
    if GoesOn(turns[i]) {
      assert Answers(turns, i) == Answers(turns, i + 1) && Closes(turns, i) == Closes(turns, i + 1);
      AnswersGrow(turns, i + 1);
    }
  }

  /**
   * Exactly then: a response is recovered unless it is streamed in HTTP/1.0 although the request
   * keeps the connection open, and neither does an exception end its turn nor the next handler
   * throw before it sends anything.
   */
  lemma RecoveredIff(turns: seq<Turn>, wires: seq<bytes>, heads: seq<seq<Field>>, i: nat)
    requires AllSent(turns, wires, heads) && |wires| == Answers(turns, 0) && i < |wires|
    ensures turns[i].Answered?
    ensures Recovered(wires[i], After(wires, i + 1), Closes(turns, 0), turns[i].answer) <==>
      || turns[i].answer.writes == [] || turns[i].answer.extras.version.Http11?
      || !turns[i].keepAlive || turns[i].fails || (i + 1 < |turns| && turns[i + 1].Threw?)
  {
    AnswersAt(turns, i, 0);
    assert SentAt(turns, wires, heads, i);
    RecoveredIffLast(wires[i], heads[i], turns[i], After(wires, i + 1), Closes(turns, 0));
    FollowedIff(turns, wires, i);
    if i + 1 < |wires| {
      AnswersAt(turns, i + 1, 0);
      assert SentAt(turns, wires, heads, i + 1);
    }
  }

  /** What its head says about the connection is what the request asked for, unless the application set the header, under nearly the same condition. */
  lemma ToldIsDoneIff(fields: seq<Field>, wire: bytes, t: Turn)
    requires t.Answered? && SentAs(wire, fields, t) && t.answer.extras.side.ResponseSide? && ConnectionName !in t.answer.headers
    ensures (KeepAlive(Headers(fields, ResponseSide), t.answer.extras.version, ResponseSide) <==> t.keepAlive) <==>
      t.answer.writes == [] || t.answer.extras.version.Http11? || !t.keepAlive
  {
  }

  /** The next response is taken for the rest of the body. */
  lemma NextIsSwallowed(a: Answer, b: Answer, wires: seq<bytes>, heads: seq<seq<Field>>)
    requires a.writes != [] && a.extras.version.Http10?
    requires |wires| == 2 && AllSent([Answered(true, a, false), Answered(false, b, false)], wires, heads)
    ensures !Recovered(wires[0], wires[1], true, a)
    ensures Reads(wires[0] + wires[1], |wires[0]|, StepOf(ResponseSide, {}), StartOf(a), ModeUntilClose, Decoded(BodyOf(a) + wires[1], []))
  {
    var turns := [Answered(true, a, false), Answered(false, b, false)];
    assert SentAt(turns, wires, heads, 0) && SentAt(turns, wires, heads, 1);
    RecoveredIffLast(wires[0], heads[0], turns[0], wires[1], true);
  }
}
