/**
 * What the header fields of a message say, stated about their text: which field counts, how a
 * body is framed and whether the connection is kept open. The parser is proved to agree.
 */
module HttpText {
  import opened Prelude
  import opened Wire
  import opened Numbers
  import opened BodyReader
  import opened HttpParser
  import opened HttpHead

  // ---------------------------------------------------------------- text

  /** The same character, or the same letter in the other case. */
  predicate SameLetter(x: byte, y: byte) {
    x == y || (65 <= x <= 90 && y as int == x as int + 32) || (65 <= y <= 90 && x as int == y as int + 32)
  }

  predicate SameText(a: bytes, b: bytes) {
    |a| == |b| && forall i :: 0 <= i < |a| ==> SameLetter(a[i], b[i])
  }

  lemma SameTextIff(a: bytes, b: bytes)
    ensures SameText(a, b) <==> ToLower(a) == ToLower(b)
  {
    if ToLower(a) == ToLower(b) {
      assert |a| == |ToLower(a)| && |b| == |ToLower(b)|;
      forall i | 0 <= i < |a| ensures SameLetter(a[i], b[i]) { assert ToLower(a)[i] == ToLower(b)[i]; }
    }
  }

  predicate StandsAt(part: bytes, s: bytes, p: nat) {
    p + |part| <= |s| && s[p..p + |part|] == part
  }

  ghost predicate Occurs(part: bytes, s: bytes) {
    exists p: nat :: StandsAt(part, s, p)
  }

  lemma {:induction false} ContainsIff(s: bytes, part: bytes)
    ensures Contains(s, part) <==> Occurs(part, s)
  {
    assert StandsAt(part, s, 0) <==> part <= s;
    if s != [] {
      var more := s[1..];
      ContainsIff(more, part);
      forall p: nat | p + 1 <= |s| ensures StandsAt(part, more, p) == StandsAt(part, s, p + 1) {
        assert p + |part| <= |more| ==> more[p..p + |part|] == s[p + 1..p + 1 + |part|];
      }
      if p: nat :| StandsAt(part, more, p) {
        assert StandsAt(part, s, p + 1);
      }
      if p: nat :| StandsAt(part, s, p) && p > 0 {
        assert StandsAt(part, more, p - 1);
      }
    }
  }

  /** The texts that the parser looks for, and the byte of its separators. */
  lemma Texts()
    ensures ConnectionName == Ascii("connection") && KeepAliveValue == Ascii("keep-alive") && CloseValue == Ascii("close")
    ensures TransferEncodingName == Ascii("transfer-encoding") && ChunkedValue == Ascii("chunked") && IdentityValue == Ascii("identity")
    ensures ContentLengthName == Ascii("content-length") && [45] == Ascii("-")
    ensures [Space] == Ascii(" ") && [Colon] == Ascii(":") && CRLF == Ascii("\r\n")
  {
  }

  lemma OtherTexts()
    ensures CookieName == Ascii("cookie") && SetCookieName == Ascii("set-cookie")
    ensures Http10Text == Ascii("HTTP/1.0") && Http11Text == Ascii("HTTP/1.1")
  {
  }

  // ---------------------------------------------------------------- fields

  /** The value of the first field of a name, in whatever case it is written. */
  function ValueOf(fields: seq<Field>, name: string): Option<bytes> {
    if fields == [] then None
    else if SameText(fields[0].name, Ascii(name)) then Some(fields[0].value)
    else ValueOf(fields[1..], name)
  }

  lemma {:induction false} ValueOfMore(fields: seq<Field>, f: Field, name: string)
    ensures ValueOf(fields + [f], name) ==
      if ValueOf(fields, name).Some? then ValueOf(fields, name) else if SameText(f.name, Ascii(name)) then Some(f.value) else None
  {
    var all := fields + [f];
    if fields == [] {
      assert all[1..] == [];
    } else {
      assert all[1..] == fields[1..] + [f];
      ValueOfMore(fields[1..], f, name);
    }
  }

  /** The header map has, under each name but that of the cookies, the value of the first field of that name. */
  lemma {:induction false} HeadersAre(fields: seq<Field>, side: Side, name: string)
    requires ToLower(Ascii(name)) != CookieHeader(side)
    ensures ValueOf(fields, name) ==
      if ToLower(Ascii(name)) in Headers(fields, side) then Some(Headers(fields, side)[ToLower(Ascii(name))]) else None
  {
    if fields != [] {
      var front, last := fields[..|fields| - 1], fields[|fields| - 1];
      assert fields == front + [last];
      HeadersAre(front, side, name);
      ValueOfMore(front, last, name);
      SameTextIff(last.name, Ascii(name));
    }
  }

  /** The lengths that a message gives are one and the same. */
  ghost predicate LengthsAgree(fields: seq<Field>) {
    forall i, j {:trigger fields[i], fields[j]} ::
      0 <= i < j < |fields| && SameText(fields[i].name, Ascii("Content-Length")) && SameText(fields[j].name, Ascii("Content-Length")) ==>
        fields[i].value == fields[j].value
  }

  lemma LengthText()
    ensures ToLower(Ascii("Content-Length")) == ContentLengthName
  {
  }

  lemma IsLengthField(f: Field)
    ensures SameText(f.name, Ascii("Content-Length")) <==> ToLower(f.name) == ContentLengthName
  {
    LengthText();
    SameTextIff(f.name, Ascii("Content-Length"));
  }

  /** Where no conflict has been, the length in the map is that of every field that gives one. */
  lemma {:induction false} LengthInMap(fields: seq<Field>, n: nat, i: nat)
    requires i < n <= |fields| && NoConflict(fields, n, RequestSide) && ToLower(fields[i].name) == ContentLengthName
    ensures ContentLengthName in Headers(fields[..n], RequestSide) && Headers(fields[..n], RequestSide)[ContentLengthName] == fields[i].value
    decreases n
  {
    CookieIsNotLength(RequestSide);
    var front := fields[..n - 1];
    assert fields[..n][..n - 1] == front && fields[..n][n - 1] == fields[n - 1];
    if i < n - 1 {
      LengthInMap(fields, n - 1, i);
    } else {
      assert !ConflictAt(fields, n - 1, RequestSide);
    }
  }

  lemma NoConflictIff(fields: seq<Field>)
    ensures NoConflict(fields, |fields|, RequestSide) <==> LengthsAgree(fields)
  {
    if NoConflict(fields, |fields|, RequestSide) {
      forall i, j {:trigger fields[i], fields[j]} |
        0 <= i < j < |fields| && SameText(fields[i].name, Ascii("Content-Length")) && SameText(fields[j].name, Ascii("Content-Length"))
        ensures fields[i].value == fields[j].value
      {
        IsLengthField(fields[i]);
        IsLengthField(fields[j]);
        LengthInMap(fields, |fields|, i);
        LengthInMap(fields, |fields|, j);
      }
    }
    if LengthsAgree(fields) {
      forall j {:trigger ConflictAt(fields, j, RequestSide)} | 0 <= j < |fields| ensures !ConflictAt(fields, j, RequestSide) {
        AgreeingLength(fields, j);
      }
    }
  }

  lemma AgreeingLength(fields: seq<Field>, j: nat)
    requires LengthsAgree(fields) && j < |fields|
    ensures !ConflictAt(fields, j, RequestSide)
  {
    var front := fields[..j];
    if ToLower(fields[j].name) == ContentLengthName && ContentLengthName in Headers(front, RequestSide) {
      var i := FieldInMap(front);
      assert front[i] == fields[i];
      IsLengthField(fields[i]);
      IsLengthField(fields[j]);
    }
  }

  lemma {:induction false} FieldInMap(fields: seq<Field>) returns (i: nat)
    requires ContentLengthName in Headers(fields, RequestSide)
    ensures i < |fields| && ToLower(fields[i].name) == ContentLengthName && fields[i].value == Headers(fields, RequestSide)[ContentLengthName]
  {
    var front := fields[..|fields| - 1];
    if ContentLengthName in Headers(front, RequestSide) {
      i := FieldInMap(front);
    } else {
      i := |fields| - 1;
    }
  }

  // ---------------------------------------------------------------- what they say

  /** Section 3.3.3 of RFC 7230, and what the parser takes for errors: a coding that is chunked wins over a length. */
  ghost predicate SaysFraming(fields: seq<Field>, side: Side, r: Result<(TransferMode, nat), Error>) {
    var coding, length := ValueOf(fields, "Transfer-Encoding"), ValueOf(fields, "Content-Length");
    && (coding.Some? && Occurs(Ascii("chunked"), coding.value) ==> r == Ok((ModeChunked, 0)))
    && (coding.Some? && !Occurs(Ascii("chunked"), coding.value) && coding.value != Ascii("identity") ==> r == Err(UnsupportedTransferEncoding))
    && (coding.None? || coding.value == Ascii("identity") ==>
      && (length.None? ==> r == Ok((if side.RequestSide? then ModeContentLength else ModeUntilClose, 0)))
      && (length.Some? && (length.value == [] || length.value[0] == Ascii("-")[0] || Stoul(length.value, Decimal).None?) ==>
        r == Err(AmbiguousContentLength))
      && (length.Some? && length.value != [] && length.value[0] != Ascii("-")[0] && Stoul(length.value, Decimal).Some? ==>
        r == Ok((ModeContentLength, Stoul(length.value, Decimal).value))))
  }

  /** Section 6.1 of RFC 7230 as the two sides read it: a request must ask for keep-alive, a response for close. */
  ghost predicate SaysKeepAlive(fields: seq<Field>, version: Version, side: Side, keep: bool) {
    match ValueOf(fields, "Connection")
    case None => keep <==> version.Http11?
    case Some(value) => keep <==> if side.RequestSide? then SameText(value, Ascii("keep-alive")) else !SameText(value, Ascii("close"))
  }

  lemma FieldNames()
    ensures ToLower(Ascii("Transfer-Encoding")) == TransferEncodingName && ToLower(Ascii("Connection")) == ConnectionName
    ensures forall side :: CookieHeader(side) != TransferEncodingName && CookieHeader(side) != ConnectionName && CookieHeader(side) != ContentLengthName
  {
    assert |CookieName| == 6 && |SetCookieName| == 10 && |ContentLengthName| == 14 && |TransferEncodingName| == 17 && |ConnectionName| == 10;
    assert ConnectionName[0] == 99 && SetCookieName[0] == 115;
  }

  lemma FramingIsSaid(fields: seq<Field>, side: Side)
    ensures SaysFraming(fields, side, Framing(Headers(fields, side), side))
  {
    FieldNames();
    LengthText();
    HeadersAre(fields, side, "Transfer-Encoding");
    HeadersAre(fields, side, "Content-Length");
    var coding := ValueOf(fields, "Transfer-Encoding");
    Texts();
    if coding.Some? {
      ContainsIff(coding.value, ChunkedValue);
      NoChunkedIdentity();
    }
  }

  lemma NoChunkedIdentity()
    ensures !Contains(IdentityValue, ChunkedValue)
  {
    ContainsIff(IdentityValue, ChunkedValue);
    forall p: nat ensures !StandsAt(ChunkedValue, IdentityValue, p) {
      assert p <= 1 ==> IdentityValue[p..p + 7][0] != ChunkedValue[0];
    }
  }

  lemma KeepAliveIsSaid(fields: seq<Field>, version: Version, side: Side)
    ensures SaysKeepAlive(fields, version, side, KeepAlive(Headers(fields, side), version, side))
  {
    FieldNames();
    HeadersAre(fields, side, "Connection");
    Texts();
    var value := ValueOf(fields, "Connection");
    if value.Some? {
      LowerTexts();
      SameTextIff(value.value, Ascii("keep-alive"));
      SameTextIff(value.value, Ascii("close"));
    }
  }

  lemma LowerTexts()
    ensures ToLower(KeepAliveValue) == KeepAliveValue && ToLower(CloseValue) == CloseValue
  {
  }

  // ---------------------------------------------------------------- whole heads

  lemma {:induction false} JoinedSplit(lines: seq<bytes>, i: nat, m: nat, tail: bytes)
    requires i <= m <= |lines|
    ensures Joined(lines, i, tail) == Joined(lines[..m], i, Joined(lines, m, tail))
    decreases m - i
  {
    if i < m {
      JoinedSplit(lines, i + 1, m, tail);
      assert lines[..m][i] == lines[i];
    }
  }

  /** The parser before each line up to the one that it refuses, and after that. */
  function RefusedStates(start: Start, fields: seq<Field>, j: nat, side: Side): (states: seq<Progress>)
    requires j < |fields|
    ensures |states| == j + 3
  {
    [ExpectStart] + seq(j + 1, i requires 0 <= i <= j => After(start, fields[..i], side)) + [Failed(AmbiguousContentLength)]
  }

  lemma RefusedAdvances(text: bytes, start: Start, fields: seq<Field>, j: nat, k: nat, side: Side, methods: set<bytes>, step: Step)
    requires Follows(step, side, methods) && GoodFields(fields) && j < |fields| && ConflictAt(fields, j, side) && NoConflict(fields, j, side)
    requires NoCrlf(text) && LineStep(ExpectStart, text, side, methods) == ExpectHeader(start, map[], []) && k < j + 2
    ensures Advances(HeadLines(text, fields)[..j + 2], RefusedStates(start, fields, j, side), k, step)
  {
    var lines, states := HeadLines(text, fields)[..j + 2], RefusedStates(start, fields, j, side);
    if k == 0 {
      assert fields[..0] == [];
      assert lines[0] == text && states[1] == After(start, [], side);
    } else {
      var i := k - 1;
      var at := After(start, fields[..i], side);
      assert lines[k] == FieldLine(fields[i]) && states[k] == at;
      FieldLineIsLine(fields[i]);
      AfterOne(start, fields, i, side);
      assert step(at, lines[k]) == LineStep(at, lines[k], side, methods);
      assert i < j ==> !ConflictAt(fields, i, side) && states[k + 1] == After(start, fields[..i + 1], side);
    }
  }

  lemma HeadRefused(text: bytes, start: Start, fields: seq<Field>, j: nat, tail: bytes, side: Side, methods: set<bytes>, step: Step, room: nat)
    requires Follows(step, side, methods) && GoodFields(fields) && j < |fields| && ConflictAt(fields, j, side) && NoConflict(fields, j, side)
    requires NoCrlf(text) && LineStep(ExpectStart, text, side, methods) == ExpectHeader(start, map[], []) && |fields| + 2 <= room
    ensures ParseHead(HeadBytes(text, fields) + tail, ExpectStart, room, step) == Err(AmbiguousContentLength)
  {
    var all, states := HeadLines(text, fields), RefusedStates(start, fields, j, side);
    var lines := all[..j + 2];
    forall k | 0 <= k < |lines| ensures Advances(lines, states, k, step) {
      RefusedAdvances(text, start, fields, j, k, side, methods, step);
    }
    assert [] + tail == tail;
    JoinedTail(all, 0, [], tail);
    JoinedSplit(all, 0, j + 2, tail);
    ParseJoined(lines, states, 0, room, Joined(all, j + 2, tail), step);
  }

  /** Lines that go on where no more may come. */
  lemma {:induction false} OutOfRoom(lines: seq<bytes>, states: seq<Progress>, i: nat, room: nat, tail: bytes, step: Step)
    requires i + room < |lines| && |states| == |lines| + 1
    requires forall k {:trigger Advances(lines, states, k, step)} :: 0 <= k < |lines| ==> Advances(lines, states, k, step)
    ensures ParseHead(Joined(lines, i, tail), states[i], room, step) == Err(MalformedStartLine)
    decreases room
  {
    assert Advances(lines, states, i, step);
    SplitLineJoin(lines[i], Joined(lines, i + 1, tail));
    if room > 0 {
      HeadLine(Joined(lines, i, tail), states[i], room, step, lines[i], Joined(lines, i + 1, tail));
      OutOfRoom(lines, states, i + 1, room - 1, tail, step);
    }
  }

  /** A head of more than 128 lines, which is more than 126 fields, is refused. */
  lemma TooManyFields(text: bytes, start: Start, fields: seq<Field>, tail: bytes, side: Side, methods: set<bytes>, step: Step)
    requires Follows(step, side, methods) && GoodFields(fields) && NoConflict(fields, |fields|, side) && |fields| > 126
    requires NoCrlf(text) && LineStep(ExpectStart, text, side, methods) == ExpectHeader(start, map[], [])
    ensures ParseHead(HeadBytes(text, fields) + tail, ExpectStart, MaxHeaderCount, step) == Err(MalformedStartLine)
  {
    var lines, states := HeadLines(text, fields), HeadStates(start, fields, side);
    forall k | 0 <= k < |lines| ensures Advances(lines, states, k, step) {
      if 0 < k <= |fields| {
        FieldAdvances(text, start, fields, k - 1, side, methods, step);
      } else {
        EndsAdvance(text, start, fields, side, methods, step);
      }
    }
    assert [] + tail == tail;
    JoinedTail(lines, 0, [], tail);
    OutOfRoom(lines, states, 0, MaxHeaderCount, tail, step);
  }

  lemma {:induction false} FirstConflict(fields: seq<Field>, n: nat, side: Side) returns (j: nat)
    requires n <= |fields| && !NoConflict(fields, n, side)
    ensures j < n && ConflictAt(fields, j, side) && NoConflict(fields, j, side)
  {
    if !NoConflict(fields, n - 1, side) {
      j := FirstConflict(fields, n - 1, side);
    } else {
      j := n - 1;
    }
  }

  /** The framing that a parsed head comes to. */
  function FramingOf(r: Result<(Message, bytes), Error>): Result<(TransferMode, nat), Error> {
    match r
    case Err(e) => Err(e)
    case Ok((m, _)) => Ok((m.mode, m.contentLength))
  }

  /**
   * Any well-formed fields, in any case and with repetitions: two different lengths in a request
   * are an error; otherwise the head comes to the framing and the keep-alive that its text says.
   */
  lemma HeadMeans(text: bytes, start: Start, fields: seq<Field>, tail: bytes, side: Side, methods: set<bytes>, step: Step, room: nat)
    requires Follows(step, side, methods)
    requires NoCrlf(text) && LineStep(ExpectStart, text, side, methods) == ExpectHeader(start, map[], [])
    requires GoodFields(fields) && |fields| + 2 <= room
    ensures
      var r := ParseHead(HeadBytes(text, fields) + tail, ExpectStart, room, step);
      && (side.RequestSide? && !LengthsAgree(fields) ==> r == Err(AmbiguousContentLength))
      && (side.RequestSide? ==> LengthsAgree(fields) ==> SaysFraming(fields, side, FramingOf(r)))
      && (side.ResponseSide? ==> SaysFraming(fields, side, FramingOf(r)))
      && (r.Ok? ==>
        && r.value.1 == tail && r.value.0.start == start
        && r.value.0.headers == Headers(fields, side) && r.value.0.cookies == Cookies(fields, side)
        && SaysKeepAlive(fields, start.version, side, r.value.0.keepAlive))
  {
    if side.RequestSide? {
      NoConflictIff(fields);
    }
    if NoConflict(fields, |fields|, side) {
      HeadRoundTrip(text, start, fields, tail, side, methods, step, room);
      FramingIsSaid(fields, side);
      KeepAliveIsSaid(fields, start.version, side);
    } else {
      var j := FirstConflict(fields, |fields|, side);
      HeadRefused(text, start, fields, j, tail, side, methods, step, room);
    }
  }

  /** What the text says is one thing. */
  lemma SaidOnce(fields: seq<Field>, side: Side, a: Result<(TransferMode, nat), Error>, b: Result<(TransferMode, nat), Error>)
    requires SaysFraming(fields, side, a) && SaysFraming(fields, side, b)
    ensures a == b
  {
  }
}
