/**
 * HttpServer.cc: parseNext and the keep-alive loop of handleConnection, cutting one byte
 * stream into requests and their bodies.
 */
module HttpServer {
  import opened Prelude
  import opened Wire
  import opened BodyReader
  import opened BodyWriter
  import opened HttpParser

  /** parser.parseLine, and what it leaves to be parsed; None while the head goes on. */
  method FeedLine(parser: Parser, line: bytes, ghost p: bytes, ghost rest: bytes, ghost room: nat, ghost step: Step)
    returns (r: Option<Result<Message, Error>>)
    requires parser.Valid() && Unfinished(parser.Value()) && Follows(step, parser.side, parser.methods)
    requires SplitLine(p) == Some((line, rest)) && room > 0
    modifies parser
    ensures parser.Valid()
    ensures r.None? ==> Unfinished(parser.Value())
    ensures r.None? ==> old(ParseHead(p, parser.Value(), room, step)) == ParseHead(rest, parser.Value(), room - 1, step)
    ensures r.None? && old(FitsHead(p, parser.Value(), room, step)) ==> FitsHead(rest, parser.Value(), room - 1, step)
    ensures r.Some? && r.value.Err? ==> old(ParseHead(p, parser.Value(), room, step)) == Err(r.value.error)
    ensures r.Some? && r.value.Ok? ==> old(ParseHead(p, parser.Value(), room, step)) == Ok((r.value.value, rest))
  {
    parser.ParseLine(line);
    r := match parser.state {
      case ErrorState => Some(Err(parser.errorCode))
      case HeadersDone =>
        Some(Ok(Message(parser.start, parser.headers, parser.cookies, parser.mode, parser.contentLength, parser.keepAlive)))
      case _ => None
    };
  }

  /** A line that was found is parsed, and then consumed. */
  method TakeIn(stream: ByteStream, buffer: StringBuffer, parser: Parser, line: bytes, ghost p: bytes, ghost rest: bytes, ghost room: nat, ghost step: Step)
    returns (r: Option<Result<Message, Error>>)
    requires buffer.Valid() && |line| + 2 <= |buffer.Contents()| && rest == buffer.Contents()[|line| + 2..] + stream.input
    requires parser.Valid() && Unfinished(parser.Value()) && Follows(step, parser.side, parser.methods)
    requires SplitLine(p) == Some((line, rest)) && room > 0
    modifies parser, buffer
    ensures buffer.Valid() && buffer.Contents() + stream.input == rest && parser.Valid()
    ensures r.None? ==> Unfinished(parser.Value())
    ensures r.None? ==> old(ParseHead(p, parser.Value(), room, step)) == ParseHead(rest, parser.Value(), room - 1, step)
    ensures r.None? && old(FitsHead(p, parser.Value(), room, step)) ==> FitsHead(rest, parser.Value(), room - 1, step)
    ensures r.Some? && r.value.Err? ==> old(ParseHead(p, parser.Value(), room, step)) == Err(r.value.error)
    ensures r.Some? && r.value.Ok? ==> old(ParseHead(p, parser.Value(), room, step)) == Ok((r.value.value, rest))
  {
    r := FeedLine(parser, line, p, rest, room, step);
    buffer.Consume(|line| + 2);
  }

  /** Where no line is found, or one too many. */
  lemma NoLineSays(q: bytes, at: Progress, room: nat, step: Step)
    ensures SplitLine(q).None? ==> ParseHead(q, at, room, step) == Err(ConnectionClosed)
    ensures SplitLine(q).Some? && room == 0 ==> ParseHead(q, at, room, step) == Err(MalformedStartLine)
    ensures FitsHead(q, at, room, step) && SplitLine(q).None? ==> |q| <= MaxHeaderLine
    ensures FitsHead(q, at, room, step) && SplitLine(q).Some? ==> WithinLimit(q, MaxHeaderLine + 1)
  {
  }

  /** What is still to be parsed comes to `goal`, and `fits` is whether every line of it is short enough. */
  ghost predicate Comes(q: bytes, at: Progress, room: nat, step: Step, goal: Result<(Message, bytes), Error>, fits: bool) {
    goal == ParseHead(q, at, room, step) && (fits ==> FitsHead(q, at, room, step))
  }

  /** One line read and parsed, or the end of parseNext. */
  method NextLine(stream: ByteStream, buffer: StringBuffer, parser: Parser, lines: nat, ghost step: Step,
                  ghost goal: Result<(Message, bytes), Error>, ghost fits: bool)
    returns (r: Option<Result<Message, Error>>)
    requires buffer.Valid() && parser.Valid() && Unfinished(parser.Value()) && Follows(step, parser.side, parser.methods) && lines <= MaxHeaderCount
    requires Comes(buffer.Contents() + stream.input, parser.Value(), MaxHeaderCount - lines, step, goal, fits)
    modifies parser, buffer, stream`input
    ensures buffer.Valid() && parser.Valid() && (r.None? ==> lines < MaxHeaderCount)
    ensures r.None? ==> Unfinished(parser.Value()) && |buffer.Contents() + stream.input| < old(|buffer.Contents() + stream.input|)
    ensures r.None? ==> Comes(buffer.Contents() + stream.input, parser.Value(), MaxHeaderCount - lines - 1, step, goal, fits)
    ensures r.Some? && r.value.Ok? ==> goal == Ok((r.value.value, buffer.Contents() + stream.input))
    ensures r.Some? && r.value.Err? && fits ==> goal == Err(r.value.error)
  {
    ghost var q := buffer.Contents() + stream.input;
    NoLineSays(q, parser.Value(), MaxHeaderCount - lines, step);
    var line, rest := PeekLine(stream, buffer, MaxHeaderLine + 1, 4096);
    match line {
      case NoLine(found) =>
        r := Some(Err(if found.Ended? then ConnectionClosed else MalformedStartLine));
      case Line(text) =>
        if lines + 1 > MaxHeaderCount {
          return Some(Err(MalformedStartLine));
        }
        r := TakeIn(stream, buffer, parser, text, q, rest, MaxHeaderCount - lines, step);
    }
  }

  /** The line loop of parseNext. */
  method ReadHead(stream: ByteStream, buffer: StringBuffer, parser: Parser, ghost step: Step) returns (r: Result<Message, Error>)
    requires buffer.Valid() && parser.Valid() && Unfinished(parser.Value()) && Follows(step, parser.side, parser.methods)
    modifies parser, buffer, stream`input
    ensures buffer.Valid()
    ensures r.Ok? ==>
      old(ParseHead(buffer.Contents() + stream.input, parser.Value(), MaxHeaderCount, step)) == Ok((r.value, buffer.Contents() + stream.input))
    ensures r.Err? && old(FitsHead(buffer.Contents() + stream.input, parser.Value(), MaxHeaderCount, step)) ==>
      old(ParseHead(buffer.Contents() + stream.input, parser.Value(), MaxHeaderCount, step)) == Err(r.error)
  {
    var lines := 0;
    ghost var q, at := buffer.Contents() + stream.input, parser.Value();
    ghost var goal, fits := ParseHead(q, at, MaxHeaderCount, step), FitsHead(q, at, MaxHeaderCount, step);
    while true
      invariant buffer.Valid() && parser.Valid() && lines <= MaxHeaderCount && Unfinished(parser.Value())
      invariant Comes(buffer.Contents() + stream.input, parser.Value(), MaxHeaderCount - lines, step, goal, fits)
      decreases |buffer.Contents() + stream.input|
    {
      var done := NextLine(stream, buffer, parser, lines, step, goal, fits);
      if done.Some? {
        return done.value;
      }
      lines := lines + 1;
    }
  }

  /** parseNext: the head at the front of the connection. */
  method ParseNext(stream: ByteStream, buffer: StringBuffer, methods: set<bytes>, ghost step: Step) returns (r: Result<Message, Error>)
    requires buffer.Valid() && Follows(step, RequestSide, methods)
    modifies buffer, stream`input
    ensures buffer.Valid()
    ensures r.Ok? ==>
      old(ParseHead(buffer.Contents() + stream.input, ExpectStart, MaxHeaderCount, step)) == Ok((r.value, buffer.Contents() + stream.input))
    ensures r.Err? && old(FitsHead(buffer.Contents() + stream.input, ExpectStart, MaxHeaderCount, step)) ==>
      old(ParseHead(buffer.Contents() + stream.input, ExpectStart, MaxHeaderCount, step)) == Err(r.error)
  {
    var parser := new Parser(RequestSide, methods);
    r := ReadHead(stream, buffer, parser, step);
  }

  // ---------------------------------------------------------------- whole connections

  /** A request and its body, and whether the body was read without a failure. */
  datatype Received = Received(message: Message, body: bytes, clean: bool)

  datatype Ending = Refused(error: Error) | BrokenBody(message: Message) | LastMessage | HandlerStopped

  /** What a connection's bytes say: the requests with their bodies, and why there are no more. */
  datatype Conversation = Conversation(messages: seq<Received>, ending: Ending)

  /** A request's body: as RFC 7230 has it, or as one comes to it who reads on after failures. */
  function BodyOf(m: Message, p: bytes, patient: bool): Option<Decoded> {
    if patient then BodyReading(m.mode, p, m.contentLength).left else DecodeBody(m.mode, p, m.contentLength)
  }

  function Converse(p: bytes, step: Step, patient: bool): Conversation
    decreases |p|
  {
    match ParseHead(p, ExpectStart, MaxHeaderCount, step)
    case Err(e) => Conversation([], Refused(e))
    case Ok((m, rest)) =>
      var d := BodyOf(m, rest, patient);
      if d.None? then Conversation([], BrokenBody(m)) else
      var r := Received(m, d.value.body, BodyOf(m, rest, false).Some?);
      if m.keepAlive then Also(r, Converse(d.value.rest, step, patient)) else Conversation([r], LastMessage)
  }

  function Also(r: Received, c: Conversation): Conversation {
    Conversation([r] + c.messages, c.ending)
  }

  /** No line on the connection is long enough to be refused for its length. */
  predicate FitsConversation(p: bytes, step: Step)
    decreases |p|
  {
    && FitsHead(p, ExpectStart, MaxHeaderCount, step)
    && match ParseHead(p, ExpectStart, MaxHeaderCount, step)
       case Err(_) => true
       case Ok((m, rest)) =>
         var r := BodyReading(m.mode, rest, m.contentLength);
         r.fits && (r.left.Some? && m.keepAlive ==> FitsConversation(r.left.value.rest, step))
  }

  /** No request needs a second try at its body. */
  ghost predicate AllClean(c: Conversation) {
    forall i :: 0 <= i < |c.messages| ==> c.messages[i].clean
  }

  /** A conversation up to the first request that needs one. */
  function Strict(c: Conversation): Conversation
    decreases |c.messages|
  {
    if c.messages == [] then c
    else if !c.messages[0].clean then Conversation([], BrokenBody(c.messages[0].message))
    else Also(c.messages[0], Strict(Conversation(c.messages[1..], c.ending)))
  }

  /** That is what the bytes say to one who takes no for an answer. */
  lemma {:induction false} StrictConversation(p: bytes, step: Step)
    ensures Converse(p, step, false) == Strict(Converse(p, step, true))
    decreases |p|
  {
    match ParseHead(p, ExpectStart, MaxHeaderCount, step)
    case Err(e) =>
    case Ok((m, rest)) =>
      BodyReadingDecodes(m.mode, rest, m.contentLength);
      var r := BodyReading(m.mode, rest, m.contentLength);
      if r.left.Some? && m.keepAlive {
        var more := Converse(r.left.value.rest, step, true);
        StrictConversation(r.left.value.rest, step);
        StrictAlso(Received(m, r.left.value.body, r.clean), more);
      }
  }

  lemma StrictAlso(r: Received, c: Conversation)
    ensures Strict(Also(r, c)) == if r.clean then Also(r, Strict(c)) else Conversation([], BrokenBody(r.message))
  {
    assert ([r] + c.messages)[1..] == c.messages;
  }

  lemma {:induction false} StrictIff(c: Conversation)
    ensures |Strict(c).messages| <= |c.messages|
    ensures |Strict(c).messages| == |c.messages| <==> AllClean(c)
    ensures AllClean(c) ==> Strict(c) == c
    decreases |c.messages|
  {
    if c.messages != [] {
      var first, more := c.messages[0], Conversation(c.messages[1..], c.ending);
      StrictIff(more);
      assert c == Also(first, more);
      if first.clean && AllClean(more) {
        forall i | 0 <= i < |c.messages| ensures c.messages[i].clean {
          assert i > 0 ==> c.messages[i] == more.messages[i - 1];
        }
      }
    }
  }

  /** Reading on after failures changes nothing exactly if no request needs it. */
  lemma PatienceMattersIff(p: bytes, step: Step)
    ensures Converse(p, step, false) == Converse(p, step, true) <==> AllClean(Converse(p, step, true))
    ensures !AllClean(Converse(p, step, true)) ==> |Converse(p, step, false).messages| < |Converse(p, step, true).messages|
  {
    StrictConversation(p, step);
    StrictIff(Converse(p, step, true));
  }

  // ---------------------------------------------------------------- handlers

  /** What a handler saw of a request: part of the body, or all of it. */
  datatype Served = Served(message: Message, seen: bytes, whole: bool)

  predicate SawOf(s: Served, r: Received) {
    s.message == r.message && s.seen <= r.body && (s.whole ==> s.seen == r.body)
  }

  /** What reads so far, and failures caught on the way, make of a body. */
  ghost predicate Handled(was: Reading, seen: bytes, now: Reading, stuck: bool) {
    && (stuck || was.left == Prepend(seen, now.left))
    && (was.fits ==> now.fits && was.left == Prepend(seen, now.left))
    && (was.clean && was.fits ==> now.clean)
  }

  /** One read of a handler. */
  method HandlerRead(reader: Reader, size: nat, ghost was: Reading, ghost seen: bytes) returns (r: Option<bytes>)
    requires reader.Valid() && !reader.draining && size > 0 && Handled(was, seen, reader.now, reader.Stuck())
    modifies reader`bytesRead, reader`state, reader`chunkSize, reader`chunkRead, reader`closed, reader`now
    modifies reader.buffer, reader.stream`input
    ensures reader.Valid()
    ensures r.Some? ==> Handled(was, seen + r.value, reader.now, reader.Stuck()) && |reader.Bytes()| + |r.value| <= old(|reader.Bytes()|)
    ensures r.Some? && r.value == [] ==> reader.IsComplete()
    ensures r.None? ==> Handled(was, seen, reader.now, reader.Stuck()) && |reader.Bytes()| <= old(|reader.Bytes()|)
    ensures r.None? && was.left.Some? && was.fits ==> |reader.Bytes()| < old(|reader.Bytes()|)
  {
    r := reader.Read(size);
    if r.Some? {
      PrependPrepend(seen, r.value, reader.now.left);
    }
  }

  /**
   * A handler: any number of reads of any positive sizes; where one fails it may give up or
   * read on; false if it throws. One that insists reads on until it has everything.
   */
  method RunHandler(reader: Reader, insists: bool) returns (ok: bool, seen: bytes, whole: bool)
    requires reader.Valid() && !reader.draining
    modifies reader`bytesRead, reader`state, reader`chunkSize, reader`chunkRead, reader`closed, reader`now
    modifies reader.buffer, reader.stream`input
    ensures reader.Valid() && Handled(old(reader.now), seen, reader.now, reader.Stuck()) && (whole ==> reader.IsComplete())
    ensures insists ==> ok && (old(reader.now).left.Some? && old(reader.now).fits ==> reader.IsComplete())
  {
    ghost var was := reader.now;
    seen, whole := [], false;
    PrependNothing(was.left);
    var rounds :| rounds >= 0;
    if insists {
      rounds := |reader.buffer.Contents()| + |reader.stream.input| + 1;
    }
    while rounds > 0
      invariant reader.Valid() && !whole && Handled(was, seen, reader.now, reader.Stuck())
      invariant insists && was.left.Some? && was.fits ==> rounds > |reader.Bytes()|
    {
      var size :| size > 0;
      var data := HandlerRead(reader, size, was, seen);
      rounds := rounds - 1;
      if data.None? {
        var stops: bool := *;
        if stops && !insists {
          return false, seen, false;
        }
      } else {
        seen := seen + data.value;
        if data.value == [] {
          return true, seen, true;
        }
      }
    }
    ok := *;
    ok := ok || insists;
  }

  datatype Turn = Next(served: Served) | Last(served: Served) | Stop(ending: Ending)

  /** The handler and the drain after it; Stop where an exception ends the connection. */
  method ServeBody(stream: ByteStream, buffer: StringBuffer, m: Message, insists: bool) returns (t: Turn, ghost r: Reading)
    requires buffer.Valid()
    modifies buffer, stream`input
    ensures buffer.Valid() && r == BodyReading(m.mode, old(buffer.Contents() + stream.input), m.contentLength)
    ensures !t.Stop? ==>
      && r.left.Some? && SawOf(t.served, Received(m, r.left.value.body, r.clean)) && t.Next? == m.keepAlive
      && buffer.Contents() + stream.input == r.left.value.rest
    ensures t.Stop? ==> t.ending in {HandlerStopped, BrokenBody(m)}
    ensures t == Stop(BrokenBody(m)) && r.fits ==> !r.clean
    ensures t.Stop? && insists ==> t.ending == BrokenBody(m) && (r.fits ==> r.left.None?)
  {
    var reader := new Reader(stream, buffer, m.mode, m.contentLength);
    r := reader.now;
    var ok, seen, whole := RunHandler(reader, insists);
    if !ok {
      return Stop(HandlerStopped), r;
    }
    assert seen + [] == seen;
    if !reader.IsComplete() {
      var drained := reader.Drain();
      if !drained {
        return Stop(BrokenBody(m)), r;
      }
    }
    t := if m.keepAlive then Next(Served(m, seen, whole)) else Last(Served(m, seen, whole));
  }

  // ---------------------------------------------------------------- the loop

  /** c goes on with a request whose body nobody tried twice. */
  ghost predicate StopsAtUnclean(c: Conversation, ending: Ending) {
    c.messages != [] && !c.messages[0].clean && ending == BrokenBody(c.messages[0].message)
  }

  /** What a head says about the conversation. */
  lemma HeadSays(p: bytes, step: Step, m: Message, rest: bytes, r: Reading, c: Conversation)
    requires ParseHead(p, ExpectStart, MaxHeaderCount, step) == Ok((m, rest))
    requires c == Converse(p, step, true) && r == BodyReading(m.mode, rest, m.contentLength)
    ensures r.left.None? ==> c == Conversation([], BrokenBody(m))
    ensures r.left.Some? && m.keepAlive ==> c == Also(Received(m, r.left.value.body, r.clean), Converse(r.left.value.rest, step, true))
    ensures r.left.Some? && !m.keepAlive ==> c == Conversation([Received(m, r.left.value.body, r.clean)], LastMessage)
  {
    var strict := BodyOf(m, rest, false);
    assert strict.Some? == r.clean by {
      BodyReadingDecodes(m.mode, rest, m.contentLength);
    }
    assert BodyOf(m, rest, true) == r.left;
  }

  /** A body that is read without a failure is the same to everybody. */
  lemma CleanHeadSays(p: bytes, step: Step, m: Message, rest: bytes, d: Decoded, patient: bool)
    requires ParseHead(p, ExpectStart, MaxHeaderCount, step) == Ok((m, rest))
    requires BodyOf(m, rest, true) == BodyOf(m, rest, false) == Some(d)
    ensures m.keepAlive ==> Converse(p, step, patient) == Also(Received(m, d.body, true), Converse(d.rest, step, patient))
    ensures !m.keepAlive ==> Converse(p, step, patient) == Conversation([Received(m, d.body, true)], LastMessage)
  {
    assert BodyOf(m, rest, patient) == Some(d);
  }

  lemma HeadFits(p: bytes, step: Step, m: Message, rest: bytes, r: Reading)
    requires ParseHead(p, ExpectStart, MaxHeaderCount, step) == Ok((m, rest))
    requires r == BodyReading(m.mode, rest, m.contentLength) && FitsConversation(p, step)
    ensures r.fits && (r.left.Some? && m.keepAlive ==> FitsConversation(r.left.value.rest, step))
  {
  }

  /** One turn of handleConnection. */
  method ServeOne(stream: ByteStream, buffer: StringBuffer, methods: set<bytes>, insists: bool, ghost step: Step, ghost c: Conversation)
    returns (t: Turn, ghost r: Option<Received>)
    requires buffer.Valid() && Follows(step, RequestSide, methods) && c == Converse(buffer.Contents() + stream.input, step, true)
    modifies buffer, stream`input
    ensures buffer.Valid()
    ensures !t.Stop? ==> r.Some? && SawOf(t.served, r.value)
    ensures t.Last? ==> c == Conversation([r.value], LastMessage)
    ensures t.Next? ==> c == Also(r.value, Converse(buffer.Contents() + stream.input, step, true))
    ensures t.Next? ==> |buffer.Contents() + stream.input| < old(|buffer.Contents() + stream.input|)
    ensures t.Next? && old(FitsConversation(buffer.Contents() + stream.input, step)) ==>
      FitsConversation(buffer.Contents() + stream.input, step)
    ensures t.Stop? && t.ending != HandlerStopped && old(FitsConversation(buffer.Contents() + stream.input, step)) ==>
      c == Conversation([], t.ending) || (!insists && StopsAtUnclean(c, t.ending))
    ensures t.Stop? && insists ==> t.ending != HandlerStopped
  {
    ghost var p := buffer.Contents() + stream.input;
    var head := ParseNext(stream, buffer, methods, step);
    if head.Err? {
      return Stop(Refused(head.error)), None;
    }
    var m := head.value;
    ghost var rest := buffer.Contents() + stream.input;
    ghost var reading;
    t, reading := ServeBody(stream, buffer, m, insists);
    HeadSays(p, step, m, rest, reading, c);
    if FitsConversation(p, step) {
      HeadFits(p, step, m, rest, reading);
    }
    r := if t.Stop? then None else Some(Received(m, reading.left.value.body, reading.clean));
  }

  /** What was served so far is the beginning of c, and `now` is the rest of c. */
  ghost predicate Told(c: Conversation, log: seq<Served>, now: Conversation) {
    && |log| <= |c.messages| && c.messages[|log|..] == now.messages && c.ending == now.ending
    && forall i :: 0 <= i < |log| ==> SawOf(log[i], c.messages[i])
  }

  lemma ToldMore(c: Conversation, log: seq<Served>, s: Served, r: Received, next: Conversation)
    requires Told(c, log, Also(r, next)) && SawOf(s, r)
    ensures Told(c, log + [s], next)
  {
    assert c.messages[|log|] == c.messages[|log|..][0] == r;
    assert c.messages[|log| + 1..] == c.messages[|log|..][1..] == next.messages;
  }

  /** The log and the ending tell all of c. */
  ghost predicate ToldAll(c: Conversation, log: seq<Served>, ending: Ending) {
    |log| == |c.messages| && ending == c.ending
  }

  /** They stop at a request whose body cannot be read without a failure. */
  ghost predicate ToldToUnclean(c: Conversation, log: seq<Served>, ending: Ending) {
    |log| < |c.messages| && !c.messages[|log|].clean && ending == BrokenBody(c.messages[|log|].message)
  }

  method ServeAll(stream: ByteStream, methods: set<bytes>, insists: bool, ghost step: Step, ghost c: Conversation)
    returns (log: seq<Served>, ending: Ending)
    requires Follows(step, RequestSide, methods) && c == Converse(stream.input, step, true)
    modifies stream`input
    ensures |log| <= |c.messages| && forall i :: 0 <= i < |log| ==> SawOf(log[i], c.messages[i])
    ensures old(FitsConversation(stream.input, step)) && ending != HandlerStopped ==>
      ToldAll(c, log, ending) || (!insists && ToldToUnclean(c, log, ending))
    ensures insists ==> ending != HandlerStopped
  {
    var buffer := new StringBuffer();
    log := [];
    ghost var q, now := buffer.Contents() + stream.input, c;
    assert q == stream.input;
    ghost var fits := FitsConversation(q, step);
    while true
      invariant buffer.Valid() && fresh(buffer) && q == buffer.Contents() + stream.input
      invariant now == Converse(q, step, true) && Told(c, log, now)
      invariant fits ==> FitsConversation(q, step)
      decreases |q|
    {
      var t, r := ServeOne(stream, buffer, methods, insists, step, now);
      if t.Stop? {
        assert now.messages != [] ==> c.messages[|log|] == now.messages[0];
        return log, t.ending;
      }
      q := buffer.Contents() + stream.input;
      ghost var next := if t.Last? then Conversation([], LastMessage) else Converse(q, step, true);
      assert now == Also(r.value, next);
      ToldMore(c, log, t.served, r.value, next);
      log, now := log + [t.served], next;
      if t.Last? {
        return log, LastMessage;
      }
    }
  }

  /**
   * handleConnection: whatever the reads and the handlers do, the requests served are the
   * ones the connection's bytes say, in order, each with its own body and no other bytes.
   * If no line is too long, they are all of them, except that a handler may leave it at a
   * body that cannot be read without a failure; handlers that read on serve those too.
   */
  method HandleConnection(stream: ByteStream, methods: set<bytes>, insists: bool) returns (log: seq<Served>, ending: Ending)
    modifies stream`input
    ensures
      var step := StepOf(RequestSide, methods);
      var c := Converse(old(stream.input), step, true);
      && |log| <= |c.messages|
      && (forall i :: 0 <= i < |log| ==> SawOf(log[i], c.messages[i]))
      && (FitsConversation(old(stream.input), step) && ending != HandlerStopped ==>
            ToldAll(c, log, ending) || (!insists && ToldToUnclean(c, log, ending)))
      && (insists ==> ending != HandlerStopped)
  {
    ghost var step := StepOf(RequestSide, methods);
    StepOfFollows(RequestSide, methods);
    log, ending := ServeAll(stream, methods, insists, step, Converse(stream.input, step, true));
  }
}
