/**
 * HttpParser.cc: start lines, header lines and the framing they imply, for requests and
 * responses. The parser class works line by line; ParseHead is the meaning of a whole head.
 */
module HttpParser {
  import opened Prelude
  import opened Wire
  import opened Numbers
  import opened BodyReader

  type bytes = seq<byte>

  const Space: byte := 32
  const Colon: byte := 58
  const ContentLengthName: bytes := [99, 111, 110, 116, 101, 110, 116, 45, 108, 101, 110, 103, 116, 104]
  const TransferEncodingName: bytes := [116, 114, 97, 110, 115, 102, 101, 114, 45, 101, 110, 99, 111, 100, 105, 110, 103]
  const ConnectionName: bytes := [99, 111, 110, 110, 101, 99, 116, 105, 111, 110]
  const CookieName: bytes := [99, 111, 111, 107, 105, 101]
  const SetCookieName: bytes := [115, 101, 116, 45, 99, 111, 111, 107, 105, 101]
  const ChunkedValue: bytes := [99, 104, 117, 110, 107, 101, 100]
  const IdentityValue: bytes := [105, 100, 101, 110, 116, 105, 116, 121]
  const KeepAliveValue: bytes := [107, 101, 101, 112, 45, 97, 108, 105, 118, 101]
  const CloseValue: bytes := [99, 108, 111, 115, 101]
  const Http10Text: bytes := [72, 84, 84, 80, 47, 49, 46, 48]
  const Http11Text: bytes := [72, 84, 84, 80, 47, 49, 46, 49]

  datatype Error = MalformedStartLine | AmbiguousContentLength | UnsupportedTransferEncoding | ConnectionClosed
  datatype Version = Http10 | Http11
  datatype Side = RequestSide | ResponseSide

  datatype Start =
    | RequestLine(verb: bytes, target: bytes, version: Version)
    | StatusLine(version: Version, code: nat, reason: bytes)

  /** HttpRequest or HttpResponse, with the metadata taken from its headers. */
  datatype Message = Message(
    start: Start,
    headers: map<bytes, bytes>,
    cookies: seq<bytes>,
    mode: TransferMode,
    contentLength: nat,
    keepAlive: bool)

  // ---------------------------------------------------------------- text

  function IndexOf(s: bytes, c: byte, from: nat): (r: Option<nat>)
    ensures r.Some? ==> from <= r.value < |s|
    decreases |s| - from
  {
    if from >= |s| then None else if s[from] == c then Some(from) else IndexOf(s, c, from + 1)
  }

  lemma {:induction false} IndexOfAt(s: bytes, c: byte, from: nat, i: nat)
    requires from <= i < |s| && s[i] == c && forall j :: from <= j < i ==> s[j] != c
    ensures IndexOf(s, c, from) == Some(i)
    decreases i - from
  {
    if from < i {
      IndexOfAt(s, c, from + 1, i);
    }
  }

  function TrimLeft(s: bytes): bytes {
    if s != [] && s[0] == Space then TrimLeft(s[1..]) else s
  }

  function TrimRight(s: bytes): bytes {
    if s != [] && s[|s| - 1] == Space then TrimRight(s[..|s| - 1]) else s
  }

  /** Neither empty-handed nor surrounded by spaces. */
  predicate Trimmed(s: bytes) {
    s == [] || (s[0] != Space && s[|s| - 1] != Space)
  }

  /** Section 3.2.6 of RFC 7230. */
  predicate IsTokenChar(c: byte) {
    && 32 < c < 127
    && c !in {40, 41, 60, 62, 64, 44, 59, 58, 92, 34, 47, 91, 93, 63, 61, 123, 125}
  }

  predicate IsToken(s: bytes) {
    s != [] && forall i :: 0 <= i < |s| ==> IsTokenChar(s[i])
  }

  function LowerChar(c: byte): byte {
    if 65 <= c <= 90 then c + 32 else c
  }

  function ToLower(s: bytes): bytes {
    seq(|s|, i requires 0 <= i < |s| => LowerChar(s[i]))
  }

  /** value.find(part) != npos. */
  predicate Contains(s: bytes, part: bytes) {
    part <= s || (s != [] && Contains(s[1..], part))
  }

  // ---------------------------------------------------------------- lines

  /** Name and value of a header line; None for lines that parseHeader passes over. */
  function ParseHeaderLine(line: bytes): Option<(bytes, bytes)> {
    match IndexOf(line, Colon, 0)
    case None => None
    case Some(colon) =>
      var name := TrimRight(TrimLeft(line[..colon]));
      if !IsToken(name) then None else Some((ToLower(name), TrimRight(TrimLeft(line[colon + 1..]))))
  }

  function ParseVersion(s: bytes): Option<Version> {
    if s == Http10Text then Some(Http10) else if s == Http11Text then Some(Http11) else None
  }

  function ParseRequestLine(line: bytes, methods: set<bytes>): Result<Start, Error> {
    match IndexOf(line, Space, 0)
    case None => Err(MalformedStartLine)
    case Some(a) =>
      match IndexOf(line, Space, a + 1)
      case None => Err(MalformedStartLine)
      case Some(b) =>
        var version := ParseVersion(line[b + 1..]);
        if line[..a] == [] || line[..a] !in methods || version.None? then Err(MalformedStartLine)
        else Ok(RequestLine(line[..a], line[a + 1..b], version.value))
  }

  function ParseStatusLine(line: bytes): Result<Start, Error> {
    match IndexOf(line, Space, 0)
    case None => Err(MalformedStartLine)
    case Some(a) =>
      var version := ParseVersion(line[..a]);
      if version.None? then Err(MalformedStartLine) else
      var end := IndexOf(line, Space, a + 1);
      var text := if end.None? then line[a + 1..] else line[a + 1..end.value];
      var reason := if end.None? then [] else line[end.value + 1..];
      match Stoi(text)
      case None => Err(MalformedStartLine)
      case Some(i) =>
        var code := i % 0x1_0000;
        if 100 <= code <= 999 then Ok(StatusLine(version.value, code, reason)) else Err(MalformedStartLine)
  }

  /** processTransferMode: section 3.3.3 of RFC 7230. */
  function Framing(headers: map<bytes, bytes>, side: Side): Result<(TransferMode, nat), Error> {
    var encoding := if TransferEncodingName in headers then Some(headers[TransferEncodingName]) else None;
    if encoding.Some? && Contains(encoding.value, ChunkedValue) then Ok((ModeChunked, 0))
    else if encoding.Some? && encoding.value != IdentityValue then Err(UnsupportedTransferEncoding)
    else if ContentLengthName in headers then
      var value := headers[ContentLengthName];
      if value == [] || value[0] == 45 then Err(AmbiguousContentLength) else
      match Stoul(value, Decimal)
      case None => Err(AmbiguousContentLength)
      case Some(n) => Ok((ModeContentLength, n))
    else Ok((if side.RequestSide? then ModeContentLength else ModeUntilClose, 0))
  }

  /** processKeepAlive, and the opposite of processConnectionClose. */
  predicate KeepAlive(headers: map<bytes, bytes>, version: Version, side: Side) {
    if ConnectionName in headers then
      if side.RequestSide? then ToLower(headers[ConnectionName]) == KeepAliveValue
      else ToLower(headers[ConnectionName]) != CloseValue
    else version.Http11?
  }

  function CookieHeader(side: Side): bytes {
    if side.RequestSide? then CookieName else SetCookieName
  }

  // ---------------------------------------------------------------- the parser

  datatype Progress =
    | ExpectStart
    | ExpectHeader(start: Start, headers: map<bytes, bytes>, cookies: seq<bytes>)
    | HeaderComplete(message: Message)
    | Failed(error: Error)

  function AddHeader(p: Progress, line: bytes, side: Side): Progress
    requires p.ExpectHeader?
  {
    match ParseHeaderLine(line)
    case None => p
    case Some((name, value)) =>
      if name == CookieHeader(side) then p.(cookies := p.cookies + [value])
      else if name !in p.headers then p.(headers := p.headers[name := value])
      else if side.RequestSide? && name == ContentLengthName && value != p.headers[name] then Failed(AmbiguousContentLength)
      else p
  }

  function Finish(start: Start, headers: map<bytes, bytes>, cookies: seq<bytes>, side: Side): Progress {
    match Framing(headers, side)
    case Err(e) => Failed(e)
    case Ok((mode, n)) =>
      HeaderComplete(Message(start, headers, cookies, mode, n, KeepAlive(headers, start.version, side)))
  }

  predicate Unfinished(p: Progress) {
    p.ExpectStart? || p.ExpectHeader?
  }

  /** parseLine; a parser that is done stays as it is. */
  function LineStep(p: Progress, line: bytes, side: Side, methods: set<bytes>): Progress {
    match p
    case ExpectStart =>
      (match (if side.RequestSide? then ParseRequestLine(line, methods) else ParseStatusLine(line))
       case Err(e) => Failed(e)
       case Ok(start) => ExpectHeader(start, map[], []))
    case ExpectHeader(start, headers, cookies) =>
      if line != [] then AddHeader(p, line, side) else Finish(start, headers, cookies, side)
    case _ => p
  }

  type Step = (Progress, bytes) -> Progress

  function StepOf(side: Side, methods: set<bytes>): Step {
    (p, line) => LineStep(p, line, side, methods)
  }

  /** step is parseLine. */
  ghost predicate Follows(step: Step, side: Side, methods: set<bytes>) {
    forall at, line {:trigger LineStep(at, line, side, methods)} :: step(at, line) == LineStep(at, line, side, methods)
  }

  lemma StepOfFollows(side: Side, methods: set<bytes>)
    ensures Follows(StepOf(side, methods), side, methods)
  {
  }

  const MaxHeaderLine := 8192
  const MaxHeaderCount := 128

  /** The message at the front of p and the bytes after its head, within a number of lines. */
  function ParseHead(p: bytes, at: Progress, room: nat, step: Step): (r: Result<(Message, bytes), Error>)
    ensures r.Ok? ==> |r.value.1| < |p|
    decreases |p|
  {
    match SplitLine(p)
    case None => Err(ConnectionClosed)
    case Some((line, rest)) =>
      if room == 0 then Err(MalformedStartLine) else
      match step(at, line)
      case Failed(e) => Err(e)
      case HeaderComplete(m) => Ok((m, rest))
      case next => ParseHead(rest, next, room - 1, step)
  }

  /** No line of the head is so long that it could be refused for its length. */
  predicate FitsHead(p: bytes, at: Progress, room: nat, step: Step)
    decreases |p|
  {
    match SplitLine(p)
    case None => |p| <= MaxHeaderLine
    case Some((line, rest)) =>
      |line| < MaxHeaderLine && (
        room == 0 || !Unfinished(step(at, line)) || FitsHead(rest, step(at, line), room - 1, step)
      )
  }

  /** One line of a head, by what it does to the parser. */
  lemma HeadLine(p: bytes, at: Progress, room: nat, step: Step, line: bytes, rest: bytes)
    requires SplitLine(p) == Some((line, rest)) && room > 0
    ensures ParseHead(p, at, room, step) ==
      match step(at, line)
      case Failed(e) => Err(e)
      case HeaderComplete(m) => Ok((m, rest))
      case next => ParseHead(rest, next, room - 1, step)
    ensures FitsHead(p, at, room, step) <==>
      |line| < MaxHeaderLine && (Unfinished(step(at, line)) ==> FitsHead(rest, step(at, line), room - 1, step))
  {
  }

  lemma {:induction false} JoinedTail(lines: seq<bytes>, i: nat, a: bytes, b: bytes)
    ensures Joined(lines, i, a) + b == Joined(lines, i, a + b)
    decreases |lines| - i
  {
    if i < |lines| {
      JoinedTail(lines, i + 1, a, b);
      assert lines[i] + CRLF + Joined(lines, i + 1, a) + b == lines[i] + CRLF + (Joined(lines, i + 1, a) + b);
    }
  }

  /** Line k takes the parser from state k to state k + 1, and only the last line finishes it. */
  ghost predicate Advances(lines: seq<bytes>, states: seq<Progress>, k: nat, step: Step)
    requires k < |lines| && |states| == |lines| + 1
  {
    && NoCrlf(lines[k]) && step(states[k], lines[k]) == states[k + 1]
    && (Unfinished(states[k + 1]) <==> k + 1 < |lines|)
  }

  /** What a finished parser makes of the bytes after the head. */
  function Outcome(p: Progress, tail: bytes): Result<(Message, bytes), Error> {
    match p
    case HeaderComplete(m) => Ok((m, tail))
    case Failed(e) => Err(e)
    case _ => Err(ConnectionClosed)
  }

  ghost predicate ShortLines(lines: seq<bytes>) {
    forall k :: 0 <= k < |lines| ==> |lines[k]| < 8192
  }

  /** A head laid out in lines is parsed line by line, whatever follows it. */
  lemma {:induction false} ParseJoined(lines: seq<bytes>, states: seq<Progress>, i: nat, room: nat, tail: bytes, step: Step)
    requires i < |lines| <= i + room && |states| == |lines| + 1
    requires forall k {:trigger Advances(lines, states, k, step)} :: 0 <= k < |lines| ==> Advances(lines, states, k, step)
    ensures ParseHead(Joined(lines, i, tail), states[i], room, step) == Outcome(states[|lines|], tail)
    ensures ShortLines(lines) ==> FitsHead(Joined(lines, i, tail), states[i], room, step)
    decreases |lines| - i
  {
    assert Advances(lines, states, i, step);
    SplitLineJoin(lines[i], Joined(lines, i + 1, tail));
    HeadLine(Joined(lines, i, tail), states[i], room, step, lines[i], Joined(lines, i + 1, tail));
    if i + 1 < |lines| {
      ParseJoined(lines, states, i + 1, room - 1, tail, step);
    }
  }

  datatype ParserState = ExpectStatusLine | ExpectHeaderLine | HeadersDone | ErrorState

  /** HttpParser<HttpRequest> and HttpParser<HttpResponse>. */
  class Parser {
    const side: Side
    const methods: set<bytes>
    var state: ParserState
    var errorCode: Error
    var start: Start
    var headers: map<bytes, bytes>
    var cookies: seq<bytes>
    var mode: TransferMode
    var contentLength: nat
    var keepAlive: bool

    ghost function Value(): Progress
      reads this
    {
      match state
      case ExpectStatusLine => ExpectStart
      case ExpectHeaderLine => ExpectHeader(start, headers, cookies)
      case HeadersDone => HeaderComplete(Message(start, headers, cookies, mode, contentLength, keepAlive))
      case ErrorState => Failed(errorCode)
    }

    ghost predicate Valid()
      reads this
    {
      state.ExpectStatusLine? ==> headers == map[] && cookies == []
    }

    constructor (side: Side, methods: set<bytes>)
      ensures Valid() && Value() == ExpectStart && this.side == side && this.methods == methods
    {
      this.side, this.methods, state, errorCode := side, methods, ExpectStatusLine, ConnectionClosed;
      start, headers, cookies := StatusLine(Http11, 200, []), map[], [];
      mode, contentLength, keepAlive := ModeUntilClose, 0, false;
    }

    method ParseLine(line: bytes)
      requires Valid() && Unfinished(Value())
      modifies this
      ensures Valid() && Value() == LineStep(old(Value()), line, side, methods)
    {
      if state.ExpectStatusLine? {
        var r := if side.RequestSide? then ParseRequestLine(line, methods) else ParseStatusLine(line);
        if r.Err? {
          SetError(r.error);
        } else {
          start := r.value;
          state := ExpectHeaderLine;
        }
      } else if line != [] {
        ParseHeader(line);
      } else {
        var ok := ProcessTransferMode();
        if ok {
          ProcessKeepAlive();
          state := HeadersDone;
        }
      }
    }

    method SetError(code: Error)
      modifies this`errorCode, this`state
      ensures state == ErrorState && errorCode == code
    {
      errorCode := code;
      state := ErrorState;
    }

    method ParseHeader(line: bytes)
      requires Value().ExpectHeader?
      modifies this`headers, this`cookies, this`errorCode, this`state
      ensures Value() == AddHeader(old(Value()), line, side) && !state.ExpectStatusLine?
    {
      var r := ParseHeaderLine(line);
      if r.None? {
        return;
      }
      var (name, value) := r.value;
      if name == CookieHeader(side) {
        cookies := cookies + [value];
      } else {
        var inserted := name !in headers;
        if inserted {
          headers := headers[name := value];
        } else if side.RequestSide? && name == ContentLengthName && value != headers[name] {
          SetError(AmbiguousContentLength);
        }
      }
    }

    method ProcessTransferMode() returns (ok: bool)
      requires Value().ExpectHeader?
      modifies this`mode, this`contentLength, this`errorCode, this`state
      ensures ok == Framing(headers, side).Ok?
      ensures ok ==> state == old(state) && Framing(headers, side) == Ok((mode, contentLength))
      ensures !ok ==> state == ErrorState && Framing(headers, side) == Err(errorCode)
    {
      contentLength := 0;
      if TransferEncodingName in headers {
        var value := headers[TransferEncodingName];
        if Contains(value, ChunkedValue) {
          mode := ModeChunked;
          return true;
        }
        if value != IdentityValue {
          SetError(UnsupportedTransferEncoding);
          return false;
        }
      }
      if ContentLengthName in headers {
        var value := headers[ContentLengthName];
        if value == [] || value[0] == 45 {
          SetError(AmbiguousContentLength);
          return false;
        }
        var n := Stoul(value, Decimal);
        if n.None? {
          SetError(AmbiguousContentLength);
          return false;
        }
        contentLength := n.value;
        mode := ModeContentLength;
      } else {
        mode := if side.RequestSide? then ModeContentLength else ModeUntilClose;
      }
      ok := true;
    }

    method ProcessKeepAlive()
      modifies this`keepAlive
      ensures keepAlive == KeepAlive(headers, start.version, side)
    {
      if ConnectionName in headers {
        var lower := ToLower(headers[ConnectionName]);
        keepAlive := if side.RequestSide? then lower == KeepAliveValue else lower != CloseValue;
      } else {
        keepAlive := start.version.Http11?;
      }
    }
  }
}
