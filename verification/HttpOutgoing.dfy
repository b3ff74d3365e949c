/**
 * HttpOutgoingStream.cc for one message: how the framing is chosen, how the head is built,
 * and that the receiver recovers the framing and the body.
 */
module HttpOutgoing {
  import opened Prelude
  import opened Wire
  import opened Numbers
  import opened BodyReader
  import opened BodyWriter
  import opened HttpParser
  import opened HttpHead

  const DateName: bytes := [100, 97, 116, 101]
  const DateText: bytes := [68, 97, 116, 101]
  const ConnectionText: bytes := [67, 111, 110, 110, 101, 99, 116, 105, 111, 110]
  const CookieText: bytes := [67, 111, 111, 107, 105, 101]
  const SetCookieText: bytes := [83, 101, 116, 45, 67, 111, 111, 107, 105, 101]

  const MaxMergedBody := 32 * 1024

  /** A walk over the header map: each entry once. */
  ghost predicate IsWalk(fields: seq<Field>, headers: map<bytes, bytes>) {
    && (forall i {:trigger fields[i]} :: 0 <= i < |fields| ==> fields[i].name in headers && headers[fields[i].name] == fields[i].value)
    && (forall i, j {:trigger fields[i], fields[j]} :: 0 <= i < j < |fields| ==> fields[i].name != fields[j].name)
    && (forall name {:trigger name in headers} :: name in headers ==> exists i {:trigger fields[i]} :: 0 <= i < |fields| && fields[i].name == name)
  }

  /** Names as HttpHeader keeps them, in lower case; values that fit on a line. */
  ghost predicate GoodHeaders(headers: map<bytes, bytes>) {
    forall name {:trigger name in headers} :: name in headers ==> GoodField(Field(name, headers[name])) && ToLower(name) == name
  }

  /** What buildHeaders needs besides the header map. */
  datatype Extras = Extras(
    side: Side,
    version: Version,
    cookies: seq<bytes>,   // the values of Cookie or Set-Cookie lines
    date: Option<bytes>)   // the Date value, if one is to be sent

  ghost predicate GoodExtras(x: Extras) {
    && (forall i {:trigger x.cookies[i]} :: 0 <= i < |x.cookies| ==> Trimmed(x.cookies[i]) && NoCrlf(x.cookies[i]))
    && (x.date.Some? ==> Trimmed(x.date.value) && NoCrlf(x.date.value))
  }

  function CookieFields(x: Extras): seq<Field> {
    seq(|x.cookies|, i requires 0 <= i < |x.cookies| => Field(if x.side.RequestSide? then CookieText else SetCookieText, x.cookies[i]))
  }

  function DateFields(x: Extras, headers: map<bytes, bytes>): seq<Field> {
    if x.side.ResponseSide? && x.date.Some? && DateName !in headers then [Field(DateText, x.date.value)] else []
  }

  function ConnectionFields(x: Extras, headers: map<bytes, bytes>, shouldClose: bool): seq<Field> {
    if x.side.RequestSide? || ConnectionName in headers then []
    else if shouldClose then [Field(ConnectionText, CloseValue)]
    else if x.version.Http10? then [Field(ConnectionText, KeepAliveValue)]
    else []
  }

  /** The lines buildHeaders writes after the start line, given the order the map is walked in. */
  function AllFields(walk: seq<Field>, x: Extras, headers: map<bytes, bytes>, shouldClose: bool): seq<Field> {
    walk + Added(x, headers, shouldClose)
  }

  function Added(x: Extras, headers: map<bytes, bytes>, shouldClose: bool): seq<Field> {
    CookieFields(x) + DateFields(x, headers) + ConnectionFields(x, headers, shouldClose)
  }

  // ---------------------------------------------------------------- the fields are well formed

  lemma LowerNames()
    ensures ToLower(DateText) == DateName && ToLower(ConnectionText) == ConnectionName
    ensures ToLower(CookieText) == CookieName && ToLower(SetCookieText) == SetCookieName
    ensures IsToken(DateText) && IsToken(ConnectionText) && IsToken(CookieText) && IsToken(SetCookieText)
    ensures DateName != ConnectionName
  {
    assert |DateName| != |ConnectionName|;
  }

  /** The names as they are written. */
  lemma WrittenNames()
    ensures DateText == Ascii("Date") && ConnectionText == Ascii("Connection") && CookieText == Ascii("Cookie") && SetCookieText == Ascii("Set-Cookie")
  {
  }

  lemma GoodConstants()
    ensures Trimmed(CloseValue) && NoCrlf(CloseValue) && Trimmed(KeepAliveValue) && NoCrlf(KeepAliveValue)
  {
  }

  /** A name other than those that buildHeaders adds by itself. */
  ghost predicate Plain(name: bytes) {
    name != DateName && name != ConnectionName && name != CookieName && name != SetCookieName
  }

  /** The lines buildHeaders adds: well formed, and none with a plain name. */
  lemma AddedIsGood(x: Extras, headers: map<bytes, bytes>, shouldClose: bool, i: nat)
    requires GoodExtras(x) && i < |Added(x, headers, shouldClose)|
    ensures
      var f := Added(x, headers, shouldClose)[i];
      && GoodField(f) && !Plain(ToLower(f.name))
      && (ToLower(f.name) == CookieHeader(x.side) || ToLower(f.name) !in headers)
  {
    LowerNames();
    GoodConstants();
    if i < |x.cookies| {
      assert Trimmed(x.cookies[i]);
    }
  }

  lemma AddedDistinct(x: Extras, headers: map<bytes, bytes>, shouldClose: bool, i: nat, j: nat)
    requires i < j < |Added(x, headers, shouldClose)|
    ensures
      var a := Added(x, headers, shouldClose);
      ToLower(a[i].name) == ToLower(a[j].name) ==> ToLower(a[i].name) == CookieHeader(x.side)
  {
    LowerNames();
    assert |DateName| != |ConnectionName|;
  }

  lemma WalkIsGood(walk: seq<Field>, headers: map<bytes, bytes>, i: nat)
    requires IsWalk(walk, headers) && GoodHeaders(headers) && i < |walk|
    ensures GoodField(walk[i]) && ToLower(walk[i].name) == walk[i].name && walk[i].name in headers
  {
    assert walk[i].name in headers;
    assert Field(walk[i].name, headers[walk[i].name]) == walk[i];
  }

  lemma AllFieldsApart(walk: seq<Field>, x: Extras, headers: map<bytes, bytes>, shouldClose: bool, i: nat, j: nat)
    requires IsWalk(walk, headers) && GoodHeaders(headers) && GoodExtras(x) && i < j < |AllFields(walk, x, headers, shouldClose)|
    ensures
      var all := AllFields(walk, x, headers, shouldClose);
      ToLower(all[i].name) == ToLower(all[j].name) ==> ToLower(all[i].name) == CookieHeader(x.side)
  {
    var n := |walk|;
    if i >= n {
      AddedDistinct(x, headers, shouldClose, i - n, j - n);
    } else {
      WalkIsGood(walk, headers, i);
      if j < n {
        WalkIsGood(walk, headers, j);
        assert walk[i].name != walk[j].name;
      } else {
        AddedIsGood(x, headers, shouldClose, j - n);
      }
    }
  }

  lemma AllFieldsGood(walk: seq<Field>, x: Extras, headers: map<bytes, bytes>, shouldClose: bool)
    requires IsWalk(walk, headers) && GoodHeaders(headers) && GoodExtras(x)
    ensures GoodFields(AllFields(walk, x, headers, shouldClose))
    ensures DistinctNames(AllFields(walk, x, headers, shouldClose), x.side)
  {
    var all, n := AllFields(walk, x, headers, shouldClose), |walk|;
    forall i {:trigger all[i]} | 0 <= i < |all| ensures GoodField(all[i]) {
      if i < n {
        WalkIsGood(walk, headers, i);
      } else {
        AddedIsGood(x, headers, shouldClose, i - n);
      }
    }
    forall i, j {:trigger all[i], all[j]} | 0 <= i < j < |all|
      ensures ToLower(all[i].name) == ToLower(all[j].name) ==> ToLower(all[i].name) == CookieHeader(x.side)
    {
      AllFieldsApart(walk, x, headers, shouldClose, i, j);
    }
  }

  // ---------------------------------------------------------------- the framing survives

  /** A field's value is what the header map says under its name. */
  lemma {:induction false} HeadersValue(fields: seq<Field>, side: Side, i: nat)
    requires DistinctNames(fields, side) && i < |fields| && ToLower(fields[i].name) != CookieHeader(side)
    ensures ToLower(fields[i].name) in Headers(fields, side) && Headers(fields, side)[ToLower(fields[i].name)] == fields[i].value
  {
    var n := |fields| - 1;
    var front := fields[..n];
    assert forall j {:trigger front[j]} :: 0 <= j < n ==> front[j] == fields[j];
    if i < n {
      HeadersValue(front, side, i);
      assert ToLower(fields[i].name) != ToLower(fields[n].name);
    } else {
      HeadersHave(front, side, ToLower(fields[n].name));
    }
  }

  lemma HeadersAgree(walk: seq<Field>, x: Extras, headers: map<bytes, bytes>, shouldClose: bool, name: bytes)
    requires IsWalk(walk, headers) && GoodHeaders(headers) && GoodExtras(x) && Plain(name)
    ensures
      var h := Headers(AllFields(walk, x, headers, shouldClose), x.side);
      && (name in h <==> name in headers) && (name in headers ==> h[name] == headers[name])
  {
    var all := AllFields(walk, x, headers, shouldClose);
    AllFieldsGood(walk, x, headers, shouldClose);
    HeadersHave(all, x.side, name);
    if name in headers {
      var i :| 0 <= i < |walk| && walk[i].name == name;
      WalkIsGood(walk, headers, i);
      assert all[i] == walk[i];
      HeadersValue(all, x.side, i);
    } else {
      forall i {:trigger all[i]} | 0 <= i < |all| ensures ToLower(all[i].name) != name {
        if i < |walk| {
          WalkIsGood(walk, headers, i);
        } else {
          AddedIsGood(x, headers, shouldClose, i - |walk|);
        }
      }
    }
  }

  /** What buildHeaders adds does not change how the body is framed. */
  lemma FramingSurvives(walk: seq<Field>, x: Extras, headers: map<bytes, bytes>, shouldClose: bool)
    requires IsWalk(walk, headers) && GoodHeaders(headers) && GoodExtras(x)
    ensures Framing(Headers(AllFields(walk, x, headers, shouldClose), x.side), x.side) == Framing(headers, x.side)
  {
    FramingNamesArePlain();
    HeadersAgree(walk, x, headers, shouldClose, TransferEncodingName);
    HeadersAgree(walk, x, headers, shouldClose, ContentLengthName);
  }

  lemma FramingNamesArePlain()
    ensures Plain(TransferEncodingName) && Plain(ContentLengthName) && TransferEncodingName != ContentLengthName
  {
    assert |TransferEncodingName| == 17 && |ContentLengthName| == 14;
  }

  lemma ConnectionTold(walk: seq<Field>, x: Extras, headers: map<bytes, bytes>, shouldClose: bool, i: nat)
    requires IsWalk(walk, headers) && GoodHeaders(headers) && GoodExtras(x) && x.side.ResponseSide?
    requires i < |AllFields(walk, x, headers, shouldClose)| && ToLower(AllFields(walk, x, headers, shouldClose)[i].name) == ConnectionName
    ensures
      var h := Headers(AllFields(walk, x, headers, shouldClose), ResponseSide);
      ConnectionName in h && h[ConnectionName] == AllFields(walk, x, headers, shouldClose)[i].value
  {
    AllFieldsGood(walk, x, headers, shouldClose);
    assert |ConnectionName| != |SetCookieName| || ConnectionName[0] != SetCookieName[0];
    HeadersValue(AllFields(walk, x, headers, shouldClose), ResponseSide, i);
  }

  lemma NoConnectionField(walk: seq<Field>, x: Extras, headers: map<bytes, bytes>, i: nat)
    requires IsWalk(walk, headers) && GoodHeaders(headers) && x.side.ResponseSide? && ConnectionName !in headers && x.version.Http11?
    requires i < |AllFields(walk, x, headers, false)|
    ensures ToLower(AllFields(walk, x, headers, false)[i].name) != ConnectionName
  {
    LowerNames();
    assert |ConnectionName| != |SetCookieName| || ConnectionName[0] != SetCookieName[0];
    if i < |walk| {
      WalkIsGood(walk, headers, i);
    }
  }

  /**
   * What a response says about the connection is what its receiver understands: it will be
   * kept open exactly if the server means to, unless the application set the header itself.
   */
  lemma CloseIsTold(walk: seq<Field>, x: Extras, headers: map<bytes, bytes>, shouldClose: bool)
    requires IsWalk(walk, headers) && GoodHeaders(headers) && GoodExtras(x) && x.side.ResponseSide?
    ensures KeepAlive(Headers(AllFields(walk, x, headers, shouldClose), ResponseSide), x.version, ResponseSide) <==>
      if ConnectionName in headers then ToLower(headers[ConnectionName]) != CloseValue else !shouldClose
  {
    var all := AllFields(walk, x, headers, shouldClose);
    LowerNames();
    if ConnectionName in headers {
      var i :| 0 <= i < |walk| && walk[i].name == ConnectionName;
      WalkIsGood(walk, headers, i);
      assert all[i] == walk[i];
      ConnectionTold(walk, x, headers, shouldClose, i);
    } else if shouldClose || x.version.Http10? {
      var last := |all| - 1;
      assert all[last] == Field(ConnectionText, if shouldClose then CloseValue else KeepAliveValue);
      ConnectionTold(walk, x, headers, shouldClose, last);
      ValuesInLowerCase();
    } else {
      HeadersHave(all, ResponseSide, ConnectionName);
      forall i {:trigger all[i]} | 0 <= i < |all| ensures ToLower(all[i].name) != ConnectionName {
        NoConnectionField(walk, x, headers, i);
      }
    }
  }

  /** The Date line: the receiver finds the application's value, or else the one given, if any. */
  lemma DateIsTold(walk: seq<Field>, x: Extras, headers: map<bytes, bytes>, shouldClose: bool)
    requires IsWalk(walk, headers) && GoodHeaders(headers) && GoodExtras(x) && x.side.ResponseSide?
    ensures
      var h, date := Headers(AllFields(walk, x, headers, shouldClose), ResponseSide), Ascii("date");
      if date in headers then date in h && h[date] == headers[date]
      else if x.date.Some? then date in h && h[date] == x.date.value
      else date !in h
  {
    var all := AllFields(walk, x, headers, shouldClose);
    LowerNames();
    assert Ascii("date") == DateName && |DateName| != |SetCookieName| && |DateName| != |ConnectionName|;
    AllFieldsGood(walk, x, headers, shouldClose);
    if DateName in headers {
      var i :| 0 <= i < |walk| && walk[i].name == DateName;
      WalkIsGood(walk, headers, i);
      assert all[i] == walk[i];
      HeadersValue(all, ResponseSide, i);
    } else if x.date.Some? {
      var i := |walk| + |x.cookies|;
      assert all[i] == Field(DateText, x.date.value);
      HeadersValue(all, ResponseSide, i);
    } else {
      HeadersHave(all, ResponseSide, DateName);
      forall i {:trigger all[i]} | 0 <= i < |all| ensures ToLower(all[i].name) != DateName {
        if i < |walk| {
          WalkIsGood(walk, headers, i);
        }
      }
    }
  }

  lemma {:induction false} CookiesAdd(a: seq<Field>, b: seq<Field>, side: Side)
    ensures Cookies(a + b, side) == Cookies(a, side) + Cookies(b, side)
    decreases |b|
  {
    if b == [] {
      assert a + b == a;
    } else {
      CookiesAdd(a, b[..|b| - 1], side);
      assert (a + b)[..|a + b| - 1] == a + b[..|b| - 1];
    }
  }

  lemma {:induction false} NoCookies(fields: seq<Field>, side: Side)
    requires forall i {:trigger fields[i]} :: 0 <= i < |fields| ==> ToLower(fields[i].name) != CookieHeader(side)
    ensures Cookies(fields, side) == []
  {
    if fields != [] {
      var front := fields[..|fields| - 1];
      assert forall i {:trigger front[i]} :: 0 <= i < |front| ==> front[i] == fields[i];
      NoCookies(front, side);
    }
  }

  lemma {:induction false} AllCookies(fields: seq<Field>, values: seq<bytes>, side: Side)
    requires |fields| == |values|
    requires forall i {:trigger fields[i]} :: 0 <= i < |fields| ==> ToLower(fields[i].name) == CookieHeader(side) && fields[i].value == values[i]
    ensures Cookies(fields, side) == values
  {
    if fields != [] {
      var front, some := fields[..|fields| - 1], values[..|values| - 1];
      assert forall i {:trigger front[i]} :: 0 <= i < |front| ==> front[i] == fields[i] && some[i] == values[i];
      AllCookies(front, some, side);
      assert values == some + [values[|values| - 1]];
    }
  }

  lemma OtherLinesHaveNone(x: Extras, headers: map<bytes, bytes>, shouldClose: bool)
    ensures Cookies(DateFields(x, headers) + ConnectionFields(x, headers, shouldClose), x.side) == []
  {
    LowerNames();
    assert |DateName| == 4 && |ConnectionName| == 10 && |CookieName| == 6 && |SetCookieName| == 10 && SetCookieName[0] != ConnectionName[0];
    NoCookies(DateFields(x, headers) + ConnectionFields(x, headers, shouldClose), x.side);
  }

  lemma WalkHasNone(walk: seq<Field>, headers: map<bytes, bytes>, side: Side)
    requires IsWalk(walk, headers) && GoodHeaders(headers) && CookieHeader(side) !in headers
    ensures Cookies(walk, side) == []
  {
    forall i {:trigger walk[i]} | 0 <= i < |walk| ensures ToLower(walk[i].name) != CookieHeader(side) {
      WalkIsGood(walk, headers, i);
    }
    NoCookies(walk, side);
  }

  lemma CookieLines(x: Extras)
    ensures Cookies(CookieFields(x), x.side) == x.cookies
  {
    LowerNames();
    AllCookies(CookieFields(x), x.cookies, x.side);
  }

  /** The cookie lines: the receiver finds the cookies given, in order, if the application set no such header itself. */
  lemma CookiesAreTold(walk: seq<Field>, x: Extras, headers: map<bytes, bytes>, shouldClose: bool)
    requires IsWalk(walk, headers) && GoodHeaders(headers) && GoodExtras(x) && CookieHeader(x.side) !in headers
    ensures Cookies(AllFields(walk, x, headers, shouldClose), x.side) == x.cookies
  {
    var mine, rest := CookieFields(x), DateFields(x, headers) + ConnectionFields(x, headers, shouldClose);
    WalkHasNone(walk, headers, x.side);
    CookieLines(x);
    OtherLinesHaveNone(x, headers, shouldClose);
    CookiesAdd(mine, rest, x.side);
    CookiesAdd(walk, mine + rest, x.side);
    assert AllFields(walk, x, headers, shouldClose) == walk + (mine + rest);
    assert [] + (x.cookies + []) == x.cookies;
  }

  lemma ValuesInLowerCase()
    ensures ToLower(CloseValue) == CloseValue && ToLower(KeepAliveValue) == KeepAliveValue && CloseValue != KeepAliveValue
  {
    assert |CloseValue| != |KeepAliveValue|;
  }

  // ---------------------------------------------------------------- choosing the framing

  /** Neither Content-Length nor Transfer-Encoding has been set. */
  ghost predicate Unframed(headers: map<bytes, bytes>) {
    ContentLengthName !in headers && TransferEncodingName !in headers
  }

  lemma NoChunkedInDigits(n: nat)
    ensures Digits(n, Decimal) != [] && Digits(n, Decimal)[0] != 45
    ensures GoodField(Field(ContentLengthName, Digits(n, Decimal)))
  {
    var s := Digits(n, Decimal);
    assert IsDigit(s[0], Decimal) && IsDigit(s[|s| - 1], Decimal);
    DigitsIsWord(n);
  }

  /** With a Content-Length the receiver sees that length, up to the width of an unsigned long. */
  lemma FramedByLength(headers: map<bytes, bytes>, n: nat, side: Side)
    requires Unframed(headers) && n <= ULongMax
    ensures Framing(headers[ContentLengthName := Digits(n, Decimal)], side) == Ok((ModeContentLength, n))
  {
    FramingNamesArePlain();
    NoChunkedInDigits(n);
    StoulOfDigits(n, Decimal);
  }

  lemma FramedByChunks(headers: map<bytes, bytes>, side: Side)
    requires Unframed(headers)
    ensures Framing(headers[TransferEncodingName := ChunkedValue], side) == Ok((ModeChunked, 0))
  {
    assert ChunkedValue <= ChunkedValue;
  }

  lemma FramingNamesAreGood()
    ensures ToLower(ContentLengthName) == ContentLengthName && ToLower(TransferEncodingName) == TransferEncodingName
    ensures GoodField(Field(TransferEncodingName, ChunkedValue))
  {
  }

  // ---------------------------------------------------------------- the stream

  /** A head that was sent tells its receiver this framing. */
  ghost predicate Says(fields: seq<Field>, side: Side, mode: TransferMode, n: nat) {
    && GoodFields(fields) && DistinctNames(fields, side)
    && forall h {:trigger Framing(h, side)} :: h == Headers(fields, side) ==> Framing(h, side) == Ok((mode, n))
  }

  /** Two header maps say the same about the connection. */
  ghost predicate SameConnection(a: map<bytes, bytes>, b: map<bytes, bytes>) {
    (ConnectionName in a <==> ConnectionName in b) && (ConnectionName in a ==> a[ConnectionName] == b[ConnectionName])
  }

  /** Kept open unless the server or a Connection header of the application says otherwise. */
  predicate KeepsOpen(headers: map<bytes, bytes>, shouldClose: bool) {
    if ConnectionName in headers then ToLower(headers[ConnectionName]) != CloseValue else !shouldClose
  }

  /** The head of a response tells its receiver whether the connection is kept open. */
  ghost predicate Tells(fields: seq<Field>, x: Extras, keep: bool) {
    x.side.ResponseSide? ==>
      forall h {:trigger KeepAlive(h, x.version, x.side)} :: h == Headers(fields, x.side) ==> (KeepAlive(h, x.version, x.side) <==> keep)
  }

  type Walk = map<bytes, bytes> -> seq<Field>

  ghost predicate IsWalker(walk: Walk) {
    forall m {:trigger walk(m)} :: IsWalk(walk(m), m)
  }

  /** The order does not matter to what the head says. */
  lemma SaysFraming(walk: Walk, x: Extras, headers: map<bytes, bytes>, shouldClose: bool, mode: TransferMode, n: nat)
    requires IsWalker(walk) && GoodHeaders(headers) && GoodExtras(x) && Framing(headers, x.side) == Ok((mode, n))
    ensures Says(AllFields(walk(headers), x, headers, shouldClose), x.side, mode, n)
    ensures Tells(AllFields(walk(headers), x, headers, shouldClose), x, KeepsOpen(headers, shouldClose))
  {
    AllFieldsGood(walk(headers), x, headers, shouldClose);
    FramingSurvives(walk(headers), x, headers, shouldClose);
    if x.side.ResponseSide? {
      CloseIsTold(walk(headers), x, headers, shouldClose);
    }
  }

  class Outgoing {
    const stream: ByteStream
    const text: bytes       // the start line
    const extras: Extras
    const ignoreBody: bool  // the answer to a HEAD request
    const walk: Walk        // the order in which the header map is walked
    var headers: map<bytes, bytes>
    var shouldClose: bool
    var headersSent: bool
    var mode: TransferMode
    var writer: Writer?
    var bodyLength: nat
    ghost var before: bytes        // what was on the stream before this message
    ghost var fields: seq<Field>   // the header lines sent
    ghost var pieces: seq<bytes>   // the body pieces written

    ghost predicate Good()
      reads this
    {
      GoodHeaders(headers) && GoodExtras(extras) && IsWalker(walk)
    }

    /** The header lines sent are those that buildHeaders makes of the headers. */
    ghost predicate SentAll()
      reads this
    {
      forall h, close {:trigger AllFields(walk(h), extras, h, close)} ::
        h == headers && close == shouldClose ==> fields == AllFields(walk(h), extras, h, close)
    }

    /** HTTP/1.0 has no chunks: a response of unknown length ends with the connection. */
    predicate ClosesToEnd()
    {
      extras.side.ResponseSide? && extras.version.Http10?
    }

    /** Nothing sent, and no framing chosen by the application. */
    ghost predicate Fresh()
      reads this, stream
    {
      && !headersSent && writer == null && Unframed(headers) && Good()
      && pieces == [] && stream.output == before
      && (!ignoreBody ==> bodyLength == 0)
    }

    /** The head is out, and the body so far, in a framing that needs no length beforehand. */
    ghost predicate Streaming()
      reads this, stream
    {
      && headersSent && writer != null && writer.stream == stream && writer.mode == mode && !mode.ModeContentLength?
      && !ignoreBody && SentAll() && Says(fields, extras.side, mode, 0) && Tells(fields, extras, KeepsOpen(headers, shouldClose)) && (mode.ModeUntilClose? <==> ClosesToEnd())
      && (ClosesToEnd() ==> shouldClose)
      && stream.output == before + HeadBytes(text, fields) + Written(mode, pieces)
    }

    /** The whole message is out: a head, and a body framed as the head says. */
    ghost predicate Done(mode: TransferMode, n: nat)
      reads this, stream
    {
      && SentAll() && Says(fields, extras.side, mode, n) && Tells(fields, extras, KeepsOpen(headers, shouldClose))
      && (mode.ModeContentLength? && !ignoreBody ==> n == |Flatten(pieces)|)
      && stream.output == before + HeadBytes(text, fields) + if ignoreBody then [] else Body(mode, pieces)
    }

    constructor (stream: ByteStream, text: bytes, extras: Extras, ignoreBody: bool, shouldClose: bool, headers: map<bytes, bytes>, walk: Walk)
      requires GoodHeaders(headers) && Unframed(headers) && GoodExtras(extras) && IsWalker(walk)
      ensures Fresh() && before == stream.output && bodyLength == 0 && this.headers == headers && this.shouldClose == shouldClose
      ensures this.stream == stream && this.text == text && this.extras == extras && this.ignoreBody == ignoreBody
    {
      this.stream, this.text, this.extras, this.ignoreBody, this.walk := stream, text, extras, ignoreBody, walk;
      this.headers, this.shouldClose, headersSent, mode, writer := headers, shouldClose, false, ModeChunked, null;
      bodyLength, before, fields, pieces := 0, stream.output, [], [];
    }

    /** decideTransferMode: false where stoull throws. */
    method DecideTransferMode(lengthHint: Option<nat>) returns (ok: bool)
      requires writer == null && (lengthHint.Some? ==> lengthHint.value <= ULongMax)
      modifies this`headers, this`mode, this`writer, this`shouldClose
      ensures ok && writer != null ==> writer.stream == stream && writer.mode == mode && fresh(writer)
      ensures SameConnection(headers, old(headers)) && (old(Unframed(headers)) ==> shouldClose == (old(shouldClose) || mode.ModeUntilClose?))
      ensures old(Good()) && old(Unframed(headers)) ==>
        && ok && writer != null && Good()
        && (mode.ModeContentLength? <==> lengthHint.Some?)
        && (mode.ModeUntilClose? <==> lengthHint.None? && ClosesToEnd())
        && Framing(headers, extras.side) == Ok((mode, if lengthHint.Some? then lengthHint.value else 0))
    {
      FramingNamesAreGood();
      FramingNamesArePlain();
      assert Plain(ContentLengthName) && Plain(TransferEncodingName);
      if lengthHint.Some? {
        NoChunkedInDigits(lengthHint.value);
        if Unframed(headers) {
          FramedByLength(headers, lengthHint.value, extras.side);
        }
        headers := headers[ContentLengthName := Digits(lengthHint.value, Decimal)];
        mode := ModeContentLength;
        writer := new Writer(mode, stream);
        return true;
      }
      if ContentLengthName in headers {
        if Stoul(headers[ContentLengthName], Decimal).None? {
          return false;
        }
        mode := ModeContentLength;
        writer := new Writer(mode, stream);
        return true;
      }
      if TransferEncodingName in headers && Contains(headers[TransferEncodingName], ChunkedValue) {
        mode := ModeChunked;
        writer := new Writer(mode, stream);
        return true;
      }
      if extras.side.ResponseSide? && extras.version.Http10? {
        shouldClose := true;
        mode := ModeUntilClose;
        writer := new Writer(mode, stream);
        return true;
      }
      if Unframed(headers) {
        FramedByChunks(headers, extras.side);
      }
      headers := headers[TransferEncodingName := ChunkedValue];
      mode := ModeChunked;
      writer := new Writer(mode, stream);
      ok := true;
    }

    /** buildHeaders: everything but the empty line. */
    method BuildHeaders() returns (buf: bytes)
      ensures buf + CRLF == HeadBytes(text, AllFields(walk(headers), extras, headers, shouldClose))
    {
      var all := AllFields(walk(headers), extras, headers, shouldClose);
      ghost var lines := HeadLines(text, all);
      buf := text + CRLF;
      var i := 0;
      while i < |all|
        invariant i <= |all| && buf + Joined(lines, i + 1, []) == HeadBytes(text, all)
      {
        NextField(buf, text, all, i);
        buf := buf + (all[i].name + [Colon] + [Space] + all[i].value) + CRLF;
        i := i + 1;
      }
      assert Joined(lines, i + 1, []) == CRLF;
    }

    /** writeHeaders, once the responses before this one are out. */
    method WriteHeaders(ghost n: nat, ghost m: TransferMode)
      requires !headersSent && Good() && stream.output == before && Framing(headers, extras.side) == Ok((m, n))
      modifies this`headersSent, this`fields, stream`output
      ensures headersSent && SentAll() && Says(fields, extras.side, m, n) && Tells(fields, extras, KeepsOpen(headers, shouldClose))
      ensures stream.output == before + HeadBytes(text, fields)
    {
      headersSent := true;
      var head := BuildHeaders();
      head := head + CRLF;
      fields := AllFields(walk(headers), extras, headers, shouldClose);
      SaysFraming(walk, extras, headers, shouldClose, m, n);
      stream.Write(head);
    }

    method Write(data: bytes)
      requires Fresh() || Streaming()
      requires |data| <= MaxChunk && bodyLength + |data| <= ULongMax
      modifies this, stream`output
      ensures before == old(before) && bodyLength == old(bodyLength) + |data| && SameConnection(headers, old(headers))
      ensures shouldClose == (old(shouldClose) || (!ignoreBody && ClosesToEnd()))
      ensures ignoreBody ==> Fresh()
      ensures !ignoreBody ==> Streaming() && pieces == old(pieces) + [data]
    {
      bodyLength := bodyLength + |data|;
      if ignoreBody {
        return;
      }
      if writer == null {
        var _ := DecideTransferMode(None);
      }
      if !headersSent {
        WriteHeaders(0, mode);
        assert stream.output == before + HeadBytes(text, fields) + Written(mode, pieces);
      }
      WriteMore(data);
    }

    /** bodyWriter_->write. */
    method WriteMore(data: bytes)
      requires writer != null && writer.stream == stream && writer.mode == mode && |data| <= MaxChunk
      requires stream.output == before + HeadBytes(text, fields) + Written(mode, pieces)
      modifies this`pieces, stream`output
      ensures pieces == old(pieces) + [data]
      ensures stream.output == before + HeadBytes(text, fields) + Written(mode, pieces)
    {
      ghost var head := before + HeadBytes(text, fields);
      WrittenOne(mode, head, pieces, data);
      writer.Write(data);
      pieces := pieces + [data];
    }

    /** end(): the framing the receiver is told is the framing the body has. */
    method End() returns (ghost m: TransferMode, ghost n: nat)
      requires (Fresh() || Streaming()) && bodyLength <= ULongMax
      modifies this, stream`output
      ensures Done(m, n) && before == old(before) && pieces == old(pieces) && bodyLength == old(bodyLength)
      ensures shouldClose == old(shouldClose) && SameConnection(headers, old(headers))
      ensures m == if old(headersSent) then old(mode) else ModeContentLength
      ensures ignoreBody ==> m == ModeContentLength && n == bodyLength
    {
      if !headersSent {
        m, n := ModeContentLength, bodyLength;
        if ContentLengthName !in headers {
          FramingNamesAreGood();
          NoChunkedInDigits(bodyLength);
          FramedByLength(headers, bodyLength, extras.side);
          headers := headers[ContentLengthName := Digits(bodyLength, Decimal)];
        }
        WriteHeaders(n, m);
        assert stream.output == before + HeadBytes(text, fields) + [];
      } else {
        m, n := mode, 0;
      }
      if writer != null {
        writer.End();
        JoinEnd(before + HeadBytes(text, fields), mode, pieces);
      }
    }

    /** Head and body in one write. */
    method SendMerged(data: bytes)
      requires !headersSent && Good() && stream.output == before && !ignoreBody
      requires mode.ModeContentLength? && Framing(headers, extras.side) == Ok((ModeContentLength, |data|))
      modifies this`headersSent, this`fields, this`pieces, stream`output
      ensures pieces == [data] && Done(ModeContentLength, |data|)
      ensures stream.output == old(stream.output) + HeadBytes(text, fields) + data
    {
      headersSent := true;
      var response := BuildHeaders();
      fields, pieces := AllFields(walk(headers), extras, headers, shouldClose), [data];
      ghost var head := HeadBytes(text, fields);
      response := response + CRLF + data;
      assert response == head + data;
      stream.Write(response);
      assert stream.output == before + head + Body(ModeContentLength, pieces) by { JoinMerged(before, head, data, ModeContentLength); }
      assert Flatten(pieces) == data by { FlattenMore([], data); }
      SaysFraming(walk, extras, headers, shouldClose, ModeContentLength, |data|);
    }

    /** The last piece of a body, and its end. */
    method WriteLast(data: bytes)
      requires writer != null && writer.stream == stream && writer.mode == mode && |data| <= MaxChunk
      requires stream.output == before + HeadBytes(text, fields) + Written(mode, pieces)
      modifies this`pieces, stream`output
      ensures pieces == old(pieces) + [data]
      ensures stream.output == before + HeadBytes(text, fields) + Body(mode, pieces)
    {
      WriteMore(data);
      writer.End();
      JoinEnd(before + HeadBytes(text, fields), mode, pieces);
    }

    /** Head and body in a write each, and the end of the body. */
    method SendApart(data: bytes)
      requires !headersSent && Good() && stream.output == before && !ignoreBody && pieces == []
      requires writer != null && writer.stream == stream && writer.mode == mode && |data| <= MaxChunk
      requires mode.ModeContentLength? && Framing(headers, extras.side) == Ok((ModeContentLength, |data|))
      modifies this`headersSent, this`fields, this`pieces, stream`output
      ensures pieces == [data] && Done(ModeContentLength, |data|)
      ensures stream.output == old(stream.output) + HeadBytes(text, fields) + data
    {
      WriteHeaders(|data|, ModeContentLength);
      assert stream.output == before + HeadBytes(text, fields) + Written(mode, pieces);
      WriteLast(data);
      assert [] + [data] == [data];
      assert Flatten(pieces) == data by { FlattenMore([], data); }
      assert Body(ModeContentLength, [data]) == data by { WrittenPlainly(ModeContentLength, [data]); }
    }

    /** end(data): a short body goes out with its head in one write, and the bytes are the same. */
    method EndWith(data: bytes) returns (ghost m: TransferMode, ghost n: nat)
      requires Fresh() || Streaming()
      requires |data| <= MaxChunk && bodyLength + |data| <= ULongMax
      modifies this, stream`output
      ensures Done(m, n) && before == old(before) && bodyLength == old(bodyLength) + |data|
      ensures shouldClose == old(shouldClose) && SameConnection(headers, old(headers))
      ensures m == if old(headersSent) then old(mode) else ModeContentLength
      ensures ignoreBody ==> n == bodyLength
      ensures pieces == if ignoreBody || data == [] then old(pieces) else old(pieces) + [data]
    {
      FlattenMore(pieces, data);
      bodyLength := bodyLength + |data|;
      if ignoreBody || data == [] {
        m, n := End();
        return;
      }
      if !headersSent {
        SendWhole(data);
        assert [] + [data] == [data];
        return ModeContentLength, |data|;
      }
      m, n := mode, 0;
      WriteLast(data);
    }

    /** A body that is known as a whole before anything is sent. */
    method SendWhole(data: bytes)
      requires !headersSent && writer == null && Unframed(headers) && Good() && pieces == [] && stream.output == before
      requires !ignoreBody && |data| <= MaxChunk
      modifies this, stream`output
      ensures Done(ModeContentLength, |data|) && pieces == [data] && before == old(before) && bodyLength == old(bodyLength)
      ensures shouldClose == old(shouldClose) && SameConnection(headers, old(headers))
    {
      var _ := DecideTransferMode(Some(|data|));
      if mode.ModeContentLength? && |data| <= MaxMergedBody {
        SendMerged(data);
      } else {
        SendApart(data);
      }
    }
  }

  /** Merged or apart: from the same state, the same bytes. */
  method MergedIsApart(a: Outgoing, b: Outgoing, data: bytes)
    requires a != b && a.stream != b.stream && |data| <= MaxChunk
    requires a.text == b.text && a.extras == b.extras && a.walk == b.walk && a.headers == b.headers && a.shouldClose == b.shouldClose
    requires !a.headersSent && !a.ignoreBody && a.mode.ModeContentLength? && a.stream.output == a.before && a.Good()
    requires !b.headersSent && !b.ignoreBody && b.mode.ModeContentLength? && b.stream.output == b.before
    requires b.pieces == [] && b.writer != null && b.writer.stream == b.stream && b.writer.mode == b.mode
    requires a.before == b.before && Framing(a.headers, a.extras.side) == Ok((ModeContentLength, |data|))
    modifies a, b, a.stream`output, b.stream`output
    ensures a.stream.output == b.stream.output
  {
    a.SendMerged(data);
    b.SendApart(data);
    assert a.fields == AllFields(a.walk(a.headers), a.extras, a.headers, a.shouldClose) == b.fields;
  }

  lemma FlattenMore(pieces: seq<bytes>, data: bytes)
    ensures Flatten(pieces + [data]) == Flatten(pieces) + data && Flatten([data]) == data
    ensures data == [] ==> Flatten(pieces) + data == Flatten(pieces)
  {
    assert (pieces + [data])[..|pieces|] == pieces;
  }

  lemma WrittenOne(mode: TransferMode, start: bytes, pieces: seq<bytes>, data: bytes)
    ensures start + Written(mode, pieces + [data]) == start + Written(mode, pieces) + Piece(mode, data)
  {
    var all, i := pieces + [data], |pieces|;
    assert all[..i] == pieces && all[..i + 1] == all && all[i] == data;
    WrittenMore(mode, start, all, i);
  }

  lemma JoinEnd(head: bytes, mode: TransferMode, pieces: seq<bytes>)
    ensures head + Written(mode, pieces) + Terminator(mode) == head + Body(mode, pieces)
  {
  }

  lemma JoinMerged(before: bytes, head: bytes, data: bytes, mode: TransferMode)
    requires !mode.ModeChunked?
    ensures before + (head + data) == before + head + Body(mode, [data])
  {
    assert Written(mode, [data]) == [] + data == data;
    assert Body(mode, [data]) == data;
  }

  lemma NextField(buf: bytes, text: bytes, all: seq<Field>, i: nat)
    requires i < |all|
    ensures
      var lines, line := HeadLines(text, all), all[i].name + [Colon] + [Space] + all[i].value;
      buf + Joined(lines, i + 1, []) == buf + line + CRLF + Joined(lines, i + 2, [])
  {
    var lines := HeadLines(text, all);
    assert lines[i + 1] == FieldLine(all[i]);
    JoinLine(buf, FieldLine(all[i]), Joined(lines, i + 2, []));
  }

  lemma JoinLine(buf: bytes, line: bytes, rest: bytes)
    ensures buf + (line + CRLF + rest) == (buf + line + CRLF) + rest
  {
  }

  // ---------------------------------------------------------------- the receiver

  /** What a receiver finds after the head of a message of this framing, if other bytes follow it: one that ends with the connection has no end of its own. */
  function TakenWith(mode: TransferMode, body: bytes, tail: bytes): Decoded {
    if mode.ModeUntilClose? then Decoded(body + tail, []) else Decoded(body, tail)
  }

  /** A receiver of these bytes finds this start line and framing, and takes this for the body. */
  ghost predicate Reads(wire: bytes, room: nat, step: Step, start: Start, mode: TransferMode, d: Decoded) {
    match ParseHead(wire, ExpectStart, room, step)
    case Err(_) => false
    case Ok((m, rest)) => m.start == start && m.mode == mode && DecodeBody(m.mode, rest, m.contentLength) == Some(d)
  }

  lemma BodyTaken(mode: TransferMode, pieces: seq<bytes>, tail: bytes)
    requires ChunksFit(pieces)
    ensures DecodeBody(mode, Body(mode, pieces) + tail, |Flatten(pieces)|) == Some(TakenWith(mode, Flatten(pieces), tail))
  {
    if mode.ModeUntilClose? {
      WrittenPlainly(mode, pieces);
      assert Body(mode, pieces) == Flatten(pieces);
    } else {
      BodyRoundTrip(mode, pieces, tail);
    }
  }

  lemma ReceiverRecovers(
    text: bytes, start: Start, fields: seq<Field>, side: Side, mode: TransferMode, n: nat,
    pieces: seq<bytes>, tail: bytes, room: nat, methods: set<bytes>, step: Step)
    requires Follows(step, side, methods)
    requires NoCrlf(text) && LineStep(ExpectStart, text, side, methods) == ExpectHeader(start, map[], [])
    requires Says(fields, side, mode, n) && ChunksFit(pieces) && |fields| + 2 <= room
    requires mode.ModeContentLength? ==> n == |Flatten(pieces)|
    ensures Reads(HeadBytes(text, fields) + Body(mode, pieces) + tail, room, step, start, mode, TakenWith(mode, Flatten(pieces), tail))
  {
    var rest := Body(mode, pieces) + tail;
    assert HeadBytes(text, fields) + Body(mode, pieces) + tail == HeadBytes(text, fields) + rest;
    DistinctIsNoConflict(fields, side);
    HeadRoundTrip(text, start, fields, rest, side, methods, step, room);
    BodyTaken(mode, pieces, tail);
  }

  lemma HeadLength(text: bytes, fields: seq<Field>)
    ensures |fields| + 2 <= |HeadBytes(text, fields)|
  {
    JoinedLength(HeadLines(text, fields), 0, []);
  }

  lemma {:induction false} JoinedLength(lines: seq<bytes>, i: nat, tail: bytes)
    requires i <= |lines|
    ensures |Joined(lines, i, tail)| >= |lines| - i
    decreases |lines| - i
  {
    if i < |lines| {
      JoinedLength(lines, i + 1, tail);
    }
  }

  lemma NextFits(writes: seq<bytes>, front: seq<bytes>)
    requires front < writes && ChunksFit(writes) && |Flatten(writes)| <= ULongMax
    ensures |Flatten(front)| + |writes[|front|]| <= ULongMax && |writes[|front|]| <= MaxChunk && front + [writes[|front|]] <= writes
    ensures |Flatten(front + [writes[|front|]])| == |Flatten(front)| + |writes[|front|]|
  {
    var i := |front|;
    assert front == writes[..i];
    FlattenPrefix(writes, i);
    FlattenMore(front, writes[i]);
  }

  /** write, once for each piece. */
  method WriteEach(response: Outgoing, writes: seq<bytes>)
    requires response.Fresh() && !response.ignoreBody && ChunksFit(writes) && |Flatten(writes)| <= ULongMax
    modifies response, response.stream`output
    ensures if writes == [] then response.Fresh() else response.Streaming()
    ensures response.shouldClose == (old(response.shouldClose) || (writes != [] && response.ClosesToEnd()))
    ensures SameConnection(response.headers, old(response.headers))
    ensures response.before == old(response.before) && response.pieces == writes && response.bodyLength == |Flatten(writes)|
  {
    var i := 0;
    ghost var front := [];
    while i < |writes|
      invariant |front| == i && front <= writes && response.before == old(response.before)
      invariant response.shouldClose == (old(response.shouldClose) || (front != [] && response.ClosesToEnd()))
      invariant SameConnection(response.headers, old(response.headers))
      invariant if front == [] then response.Fresh() else response.Streaming()
      invariant response.pieces == front && response.bodyLength == |Flatten(front)|
    {
      NextFits(writes, front);
      response.Write(writes[i]);
      front := front + [writes[i]];
      i := i + 1;
    }
    assert front == writes;
  }

  function AndLast(writes: seq<bytes>, last: Option<bytes>): bytes {
    if last.Some? then Flatten(writes) + last.value else Flatten(writes)
  }

  /** The pieces that reach the body writer: an empty last one does not. */
  function AllPieces(writes: seq<bytes>, last: Option<bytes>): seq<bytes> {
    if last.Some? && last.value != [] then writes + [last.value] else writes
  }

  lemma AllPiecesFlatten(writes: seq<bytes>, last: Option<bytes>)
    requires ChunksFit(writes) && (last.Some? ==> |last.value| <= MaxChunk)
    ensures ChunksFit(AllPieces(writes, last)) && Flatten(AllPieces(writes, last)) == AndLast(writes, last)
  {
    if last.Some? {
      FlattenMore(writes, last.value);
    }
  }

  /** The end of a response, with or without data. */
  method Finish(response: Outgoing, last: Option<bytes>) returns (ghost mode: TransferMode, ghost n: nat)
    requires (response.Fresh() || response.Streaming()) && !response.ignoreBody
    requires response.bodyLength + (if last.Some? then |last.value| else 0) <= ULongMax && (last.Some? ==> |last.value| <= MaxChunk)
    modifies response, response.stream`output
    ensures response.Done(mode, n) && response.before == old(response.before)
    ensures response.shouldClose == old(response.shouldClose) && SameConnection(response.headers, old(response.headers))
    ensures response.pieces == AllPieces(old(response.pieces), last)
    ensures mode == if old(response.headersSent) then old(response.mode) else ModeContentLength
  {
    if last.Some? {
      mode, n := response.EndWith(last.value);
    } else {
      mode, n := response.End();
    }
  }

  /** Any writes and a final end, with or without data: what the receiver is told is what was written. */
  method Send(response: Outgoing, writes: seq<bytes>, last: Option<bytes>)
    returns (ghost mode: TransferMode, ghost n: nat)
    requires response.Fresh() && !response.ignoreBody
    requires ChunksFit(writes) && (last.Some? ==> |last.value| <= MaxChunk) && |AndLast(writes, last)| <= ULongMax
    modifies response, response.stream`output
    ensures response.Done(mode, n) && response.before == old(response.before) && response.pieces == AllPieces(writes, last)
    ensures response.shouldClose == (old(response.shouldClose) || mode.ModeUntilClose?) && SameConnection(response.headers, old(response.headers))
    ensures mode == if writes == [] then ModeContentLength else if response.ClosesToEnd() then ModeUntilClose else ModeChunked
  {
    WriteEach(response, writes);
    mode, n := Finish(response, last);
  }

  /** Every finished response is read by its receiver, whatever bytes come after it. */
  lemma ResponseRecovered(
    version: Version, code: nat, reason: bytes, fields: seq<Field>, mode: TransferMode, n: nat, pieces: seq<bytes>, tail: bytes, step: Step)
    requires 100 <= code <= 999 && NoCrlf(reason) && Follows(step, ResponseSide, {})
    requires Says(fields, ResponseSide, mode, n) && ChunksFit(pieces) && (mode.ModeContentLength? ==> n == |Flatten(pieces)|)
    ensures
      var wire := HeadBytes(StatusText(version, code, reason), fields) + Body(mode, pieces);
      Reads(wire + tail, |wire|, step, StatusLine(version, code, reason), mode, TakenWith(mode, Flatten(pieces), tail))
  {
    var text := StatusText(version, code, reason);
    StatusTextIsLine(version, code, reason);
    StatusTextRoundTrip(version, code, reason);
    HeadLength(text, fields);
    ReceiverRecovers(text, StatusLine(version, code, reason), fields, ResponseSide, mode, n, pieces, tail,
                     |HeadBytes(text, fields) + Body(mode, pieces)|, {}, step);
  }

  /** Whatever follows the response on the connection, its receiver finds the status and the framing, and the body as far as the framing tells it. */
  ghost predicate Understood(wire: bytes, start: Start, mode: TransferMode, body: bytes) {
    forall tail :: Reads(wire + tail, |wire|, StepOf(ResponseSide, {}), start, mode, TakenWith(mode, body, tail))
  }

  lemma ResponseUnderstood(
    version: Version, code: nat, reason: bytes, fields: seq<Field>, mode: TransferMode, n: nat, pieces: seq<bytes>, wire: bytes)
    requires 100 <= code <= 999 && NoCrlf(reason)
    requires Says(fields, ResponseSide, mode, n) && ChunksFit(pieces) && (mode.ModeContentLength? ==> n == |Flatten(pieces)|)
    requires wire == HeadBytes(StatusText(version, code, reason), fields) + Body(mode, pieces)
    ensures Understood(wire, StatusLine(version, code, reason), mode, Flatten(pieces))
  {
    StepOfFollows(ResponseSide, {});
    forall tail ensures Reads(wire + tail, |wire|, StepOf(ResponseSide, {}), StatusLine(version, code, reason), mode, TakenWith(mode, Flatten(pieces), tail)) {
      ResponseRecovered(version, code, reason, fields, mode, n, pieces, tail, StepOf(ResponseSide, {}));
    }
  }

  /** From the writes of a handler to what its peer reads. */
  method SendResponse(response: Outgoing, version: Version, code: nat, reason: bytes, writes: seq<bytes>, last: Option<bytes>)
    returns (ghost mode: TransferMode, ghost wire: bytes)
    requires response.Fresh() && !response.ignoreBody && response.extras.side.ResponseSide?
    requires 100 <= code <= 999 && NoCrlf(reason) && response.text == StatusText(version, code, reason) && response.extras.version == version
    requires ChunksFit(writes) && (last.Some? ==> |last.value| <= MaxChunk) && |AndLast(writes, last)| <= ULongMax
    modifies response, response.stream`output
    ensures response.stream.output == old(response.stream.output) + wire && wire != []
    ensures mode == if writes == [] then ModeContentLength else if version.Http10? then ModeUntilClose else ModeChunked
    ensures Understood(wire, StatusLine(version, code, reason), mode, AndLast(writes, last))
    ensures Tells(response.fields, response.extras, KeepsOpen(old(response.headers), old(response.shouldClose) || mode.ModeUntilClose?))
  {
    ghost var n;
    mode, n := Send(response, writes, last);
    wire := OnTheWire(response.before, version, code, reason, response.fields, mode, n, writes, last);
  }

  lemma OnTheWire(
    before: bytes, version: Version, code: nat, reason: bytes, fields: seq<Field>, mode: TransferMode, n: nat, writes: seq<bytes>, last: Option<bytes>)
    returns (wire: bytes)
    requires 100 <= code <= 999 && NoCrlf(reason) && Says(fields, ResponseSide, mode, n)
    requires ChunksFit(writes) && (last.Some? ==> |last.value| <= MaxChunk) && (mode.ModeContentLength? ==> n == |Flatten(AllPieces(writes, last))|)
    ensures before + HeadBytes(StatusText(version, code, reason), fields) + Body(mode, AllPieces(writes, last)) == before + wire && wire != []
    ensures Understood(wire, StatusLine(version, code, reason), mode, AndLast(writes, last))
  {
    var text, pieces := StatusText(version, code, reason), AllPieces(writes, last);
    AllPiecesFlatten(writes, last);
    wire := HeadBytes(text, fields) + Body(mode, pieces);
    HeadLength(text, fields);
    ResponseUnderstood(version, code, reason, fields, mode, n, pieces, wire);
  }

  lemma FlattenPrefix(pieces: seq<bytes>, i: nat)
    requires i < |pieces|
    ensures |Flatten(pieces[..i])| + |pieces[i]| == |Flatten(pieces[..i + 1])| <= |Flatten(pieces)|
    decreases |pieces| - i
  {
    assert pieces[..i + 1][..i] == pieces[..i];
    if i + 1 < |pieces| {
      FlattenPrefix(pieces, i + 1);
    } else {
      assert pieces[..i + 1] == pieces;
    }
  }
}
