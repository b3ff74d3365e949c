/**
 * Pipelined requests: whatever well-formed requests a client sends back to back, the server
 * serves exactly those, each with its own body, however the network cuts the bytes.
 */
module HttpPipeline {
  import opened Prelude
  import opened Wire
  import opened BodyReader
  import opened BodyWriter
  import opened HttpParser
  import opened HttpHead
  import opened HttpText
  import opened HttpServer

  /** A request as a client means it: start line, header fields, and its body in pieces; and what the fields say of it. */
  datatype Sent = Sent(
    verb: bytes, target: bytes, version: Version, fields: seq<Field>, pieces: seq<bytes>, mode: TransferMode, length: nat, keepAlive: bool)

  ghost predicate GoodStart(s: Sent, methods: set<bytes>) {
    && s.verb != [] && s.verb in methods && Space !in s.verb && NoCrlf(s.verb)
    && Space !in s.target && NoCrlf(s.target)
  }

  /** The header fields say how the body is framed, and say it correctly, and whether the connection is to be kept open. */
  ghost predicate WellFormed(s: Sent, methods: set<bytes>) {
    && GoodStart(s, methods)
    && GoodFields(s.fields) && LengthsAgree(s.fields) && |s.fields| <= 126
    && ChunksFit(s.pieces) && SaysFraming(s.fields, RequestSide, Ok((s.mode, s.length)))
    && (s.mode.ModeContentLength? ==> s.length == |Flatten(s.pieces)|)
    && SaysKeepAlive(s.fields, s.version, RequestSide, s.keepAlive)
  }

  ghost predicate Short(s: Sent) {
    ShortLines(HeadLines(RequestText(s.verb, s.target, s.version), s.fields))
  }

  function Encode(s: Sent): bytes {
    HeadBytes(RequestText(s.verb, s.target, s.version), s.fields) + Body(s.mode, s.pieces)
  }

  /** What the server should make of it. */
  function Meant(s: Sent): Received {
    Received(
      Message(RequestLine(s.verb, s.target, s.version), Headers(s.fields, RequestSide), Cookies(s.fields, RequestSide),
              s.mode, s.length, s.keepAlive),
      Flatten(s.pieces), true)
  }

  lemma RequestHead(s: Sent, tail: bytes, methods: set<bytes>, step: Step)
    requires WellFormed(s, methods) && Follows(step, RequestSide, methods)
    ensures
      var head := HeadBytes(RequestText(s.verb, s.target, s.version), s.fields);
      && ParseHead(head + tail, ExpectStart, MaxHeaderCount, step) == Ok((Meant(s).message, tail))
      && (Short(s) ==> FitsHead(head + tail, ExpectStart, MaxHeaderCount, step))
  {
    var text, start := RequestText(s.verb, s.target, s.version), RequestLine(s.verb, s.target, s.version);
    RequestTextRoundTrip(s.verb, s.target, s.version, methods);
    assert LineStep(ExpectStart, text, RequestSide, methods) == ExpectHeader(start, map[], []);
    NoConflictIff(s.fields);
    HeadRoundTrip(text, start, s.fields, tail, RequestSide, methods, step, MaxHeaderCount);
    HeadMeans(text, start, s.fields, tail, RequestSide, methods, step, MaxHeaderCount);
    var r := ParseHead(HeadBytes(text, s.fields) + tail, ExpectStart, MaxHeaderCount, step);
    SaidOnce(s.fields, RequestSide, FramingOf(r), Ok((s.mode, s.length)));
  }

  /** One request at the front of a connection. */
  lemma OneRequest(s: Sent, tail: bytes, methods: set<bytes>, step: Step, patient: bool)
    requires WellFormed(s, methods) && Follows(step, RequestSide, methods)
    ensures Meant(s).message.keepAlive ==> Converse(Encode(s) + tail, step, patient) == Also(Meant(s), Converse(tail, step, patient))
    ensures !Meant(s).message.keepAlive ==> Converse(Encode(s) + tail, step, patient) == Conversation([Meant(s)], LastMessage)
  {
    var m, rest := Meant(s).message, Body(s.mode, s.pieces) + tail;
    RequestParts(s, tail, methods, step);
    CleanHeadSays(Encode(s) + tail, step, m, rest, Decoded(Flatten(s.pieces), tail), patient);
  }

  lemma OneRequestFits(s: Sent, tail: bytes, methods: set<bytes>, step: Step)
    requires WellFormed(s, methods) && Follows(step, RequestSide, methods)
    requires Short(s) && (Meant(s).message.keepAlive ==> FitsConversation(tail, step))
    ensures FitsConversation(Encode(s) + tail, step)
  {
    RequestParts(s, tail, methods, step);
  }

  lemma RequestBody(s: Sent, tail: bytes, methods: set<bytes>)
    requires WellFormed(s, methods)
    ensures
      var rest := Body(s.mode, s.pieces) + tail;
      && BodyReading(s.mode, rest, s.length) == Reading(Some(Decoded(Flatten(s.pieces), tail)), true, true)
      && DecodeBody(s.mode, rest, s.length) == Some(Decoded(Flatten(s.pieces), tail))
  {
    BodyRoundTrip(s.mode, s.pieces, tail);
  }

  /** Its head and its body, as the parser and the reader find them. */
  lemma RequestParts(s: Sent, tail: bytes, methods: set<bytes>, step: Step)
    requires WellFormed(s, methods) && Follows(step, RequestSide, methods)
    ensures
      var m, rest := Meant(s).message, Body(s.mode, s.pieces) + tail;
      && ParseHead(Encode(s) + tail, ExpectStart, MaxHeaderCount, step) == Ok((m, rest))
      && (Short(s) ==> FitsHead(Encode(s) + tail, ExpectStart, MaxHeaderCount, step))
      && BodyReading(m.mode, rest, m.contentLength) == Reading(Some(Decoded(Flatten(s.pieces), tail)), true, true)
      && DecodeBody(m.mode, rest, m.contentLength) == Some(Decoded(Flatten(s.pieces), tail))
  {
    var mode, head := s.mode, HeadBytes(RequestText(s.verb, s.target, s.version), s.fields);
    var rest := Body(mode, s.pieces) + tail;
    assert Encode(s) + tail == head + rest by {
      assert head + Body(mode, s.pieces) + tail == head + (Body(mode, s.pieces) + tail);
    }
    RequestHead(s, rest, methods, step);
    RequestBody(s, tail, methods);
  }

  ghost predicate AllPersistent(ms: seq<Sent>, methods: set<bytes>) {
    forall i {:trigger ms[i]} :: 0 <= i < |ms| ==> WellFormed(ms[i], methods) && Meant(ms[i]).message.keepAlive
  }

  function EncodeAll(ms: seq<Sent>, i: nat, tail: bytes): bytes
    decreases |ms| - i
  {
    if i >= |ms| then tail else Encode(ms[i]) + EncodeAll(ms, i + 1, tail)
  }

  function AllMeant(ms: seq<Sent>, i: nat, c: Conversation): Conversation
    decreases |ms| - i
  {
    if i >= |ms| then c else Also(Meant(ms[i]), AllMeant(ms, i + 1, c))
  }

  /**
   * Any number of requests back to back, then anything: the conversation is those requests
   * with those bodies, then whatever the rest of the connection says.
   */
  lemma {:induction false} PipelineRoundTrip(ms: seq<Sent>, i: nat, tail: bytes, methods: set<bytes>, step: Step, patient: bool)
    requires AllPersistent(ms, methods) && Follows(step, RequestSide, methods)
    ensures Converse(EncodeAll(ms, i, tail), step, patient) == AllMeant(ms, i, Converse(tail, step, patient))
    decreases |ms| - i
  {
    if i < |ms| {
      PipelineRoundTrip(ms, i + 1, tail, methods, step, patient);
      OneRequest(ms[i], EncodeAll(ms, i + 1, tail), methods, step, patient);
    }
  }

  ghost predicate AllShort(ms: seq<Sent>) {
    forall k {:trigger ms[k]} :: 0 <= k < |ms| ==> Short(ms[k])
  }

  lemma {:induction false} PipelineFits(ms: seq<Sent>, i: nat, tail: bytes, methods: set<bytes>, step: Step)
    requires AllPersistent(ms, methods) && Follows(step, RequestSide, methods) && AllShort(ms) && FitsConversation(tail, step)
    ensures FitsConversation(EncodeAll(ms, i, tail), step)
    decreases |ms| - i
  {
    if i < |ms| {
      PipelineFits(ms, i + 1, tail, methods, step);
      OneRequestFits(ms[i], EncodeAll(ms, i + 1, tail), methods, step);
    }
  }

  /** Requests that keep the connection open, a last one that does not, and bytes nobody reads. */
  method ServePipeline(stream: ByteStream, ms: seq<Sent>, last: Sent, junk: bytes, methods: set<bytes>)
    returns (log: seq<Served>, ending: Ending)
    requires AllPersistent(ms, methods) && WellFormed(last, methods)
    requires !Meant(last).message.keepAlive && Short(last) && AllShort(ms)
    requires stream.input == EncodeAll(ms, 0, Encode(last) + junk)
    modifies stream`input
    ensures |log| <= |ms| + 1 && (ending != HandlerStopped ==> |log| == |ms| + 1 && ending == LastMessage)
    ensures forall k :: 0 <= k < |log| ==> SawOf(log[k], if k < |ms| then Meant(ms[k]) else Meant(last))
  {
    ghost var step := StepOf(RequestSide, methods);
    StepOfFollows(RequestSide, methods);
    PipelineSays(ms, last, junk, methods, step);
    log, ending := HandleConnection(stream, methods, false);
  }

  lemma PipelineSays(ms: seq<Sent>, last: Sent, junk: bytes, methods: set<bytes>, step: Step)
    requires Follows(step, RequestSide, methods) && AllPersistent(ms, methods) && WellFormed(last, methods)
    requires !Meant(last).message.keepAlive && Short(last) && AllShort(ms)
    ensures FitsConversation(EncodeAll(ms, 0, Encode(last) + junk), step)
    ensures
      var c := Converse(EncodeAll(ms, 0, Encode(last) + junk), step, true);
      && |c.messages| == |ms| + 1 && c.ending == LastMessage
      && forall k :: 0 <= k <= |ms| ==> c.messages[k] == if k < |ms| then Meant(ms[k]) else Meant(last)
  {
    var end, tail := Conversation([Meant(last)], LastMessage), Encode(last) + junk;
    OneRequest(last, junk, methods, step, true);
    PipelineRoundTrip(ms, 0, tail, methods, step, true);
    assert FitsConversation(EncodeAll(ms, 0, tail), step) by {
      OneRequestFits(last, junk, methods, step);
      PipelineFits(ms, 0, tail, methods, step);
    }
    MeantThenLast(ms, Meant(last), end);
  }

  lemma MeantThenLast(ms: seq<Sent>, last: Received, end: Conversation)
    requires end == Conversation([last], LastMessage)
    ensures
      var c := AllMeant(ms, 0, end);
      && |c.messages| == |ms| + 1 && c.ending == LastMessage
      && forall k :: 0 <= k <= |ms| ==> c.messages[k] == if k < |ms| then Meant(ms[k]) else last
  {
    var c := AllMeant(ms, 0, end);
    AllMeantAt(ms, 0, end);
    assert c.messages[|ms|] == c.messages[|ms|..][0];
    forall k | 0 <= k < |ms| ensures c.messages[k] == Meant(ms[k]) {
      assert c.messages[k - 0] == Meant(ms[k]);
    }
  }

  lemma {:induction false} AllMeantAt(ms: seq<Sent>, i: nat, c: Conversation)
    requires i <= |ms|
    ensures AllMeant(ms, i, c).ending == c.ending && |AllMeant(ms, i, c).messages| == |ms| - i + |c.messages|
    ensures AllMeant(ms, i, c).messages[|ms| - i..] == c.messages
    ensures forall k {:trigger ms[k]} :: i <= k < |ms| ==> AllMeant(ms, i, c).messages[k - i] == Meant(ms[k])
    decreases |ms| - i
  {
    if i < |ms| {
      AllMeantAt(ms, i + 1, c);
      var all, more := AllMeant(ms, i, c).messages, AllMeant(ms, i + 1, c).messages;
      assert all == [Meant(ms[i])] + more;
      forall k {:trigger ms[k]} | i <= k < |ms| ensures all[k - i] == Meant(ms[k]) {
        if k > i {
          assert all[k - i] == more[k - (i + 1)];
        }
      }
    }
  }

  // ---------------------------------------------------------------- a body nobody should serve

  /** What a chunked request with one trailer line too many puts on the wire, before the bytes of q. */
  function EncodeOverrun(s: Sent, lines: seq<bytes>, q: bytes): bytes {
    HeadBytes(RequestText(s.verb, s.target, s.version), s.fields) + ([48] + CRLF + Joined(lines, 0, q))
  }

  /**
   * Whatever follows such a trailer as chunks, RFC 7230 ends the conversation there; handlers
   * that read on get those chunks as the body, and the connection goes on behind them.
   */
  lemma OverrunIsServed(s: Sent, lines: seq<bytes>, pieces: seq<bytes>, tail: bytes, methods: set<bytes>, step: Step)
    requires WellFormed(s, methods) && Follows(step, RequestSide, methods) && s.mode.ModeChunked?
    requires Meant(s).message.keepAlive && ChunksFit(pieces)
    requires TrailerLines(lines) && |lines| == MaxTrailerLines + 1
    ensures
      var p, m := EncodeOverrun(s, lines, Body(ModeChunked, pieces) + tail), Meant(s).message;
      && Converse(p, step, false) == Conversation([], BrokenBody(m))
      && Converse(p, step, true) == Also(Received(m, Flatten(pieces), false), Converse(tail, step, true))
  {
    var q := Body(ModeChunked, pieces) + tail;
    var p, m, rest := EncodeOverrun(s, lines, q), Meant(s).message, [48] + CRLF + Joined(lines, 0, q);
    RequestHead(s, rest, methods, step);
    OverrunReadsOn(lines, q);
    ChunkedRoundTrip(pieces, tail);
    HeadSays(p, step, m, rest, BodyReading(m.mode, rest, m.contentLength), Converse(p, step, true));
    StrictConversation(p, step);
    StrictAlso(Received(m, Flatten(pieces), false), Converse(tail, step, true));
  }
}
