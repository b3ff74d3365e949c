/**
 * Message heads as buildHeaders of HttpOutgoingStream.cc lays them out, and the proof that
 * HttpParser.cc reads back what was laid out.
 */
module HttpHead {
  import opened Prelude
  import opened Wire
  import opened Numbers
  import opened BodyReader
  import opened HttpParser

  datatype Field = Field(name: bytes, value: bytes)

  function FieldLine(f: Field): bytes {
    f.name + [Colon] + [Space] + f.value
  }

  /** A start line, header lines, and the empty line. */
  function HeadLines(start: bytes, fields: seq<Field>): (lines: seq<bytes>)
    ensures |lines| == |fields| + 2
  {
    [start] + seq(|fields|, i requires 0 <= i < |fields| => FieldLine(fields[i])) + [[]]
  }

  function HeadBytes(start: bytes, fields: seq<Field>): bytes {
    Joined(HeadLines(start, fields), 0, [])
  }

  ghost predicate GoodField(f: Field) {
    IsToken(f.name) && Trimmed(f.value) && NoCrlf(f.value)
  }

  ghost predicate GoodFields(fields: seq<Field>) {
    forall i {:trigger fields[i]} :: 0 <= i < |fields| ==> GoodField(fields[i])
  }

  /** No two fields have the same name, but for those that carry cookies. */
  ghost predicate DistinctNames(fields: seq<Field>, side: Side) {
    forall i, j {:trigger fields[i], fields[j]} :: 0 <= i < j < |fields| && ToLower(fields[i].name) == ToLower(fields[j].name) ==>
      ToLower(fields[i].name) == CookieHeader(side)
  }

  /** The header map and the cookies that a list of fields stands for: of several fields with one name the first counts. */
  function Headers(fields: seq<Field>, side: Side): map<bytes, bytes> {
    if fields == [] then map[] else
    var front, last := Headers(fields[..|fields| - 1], side), fields[|fields| - 1];
    var name := ToLower(last.name);
    if name == CookieHeader(side) || name in front then front else front[name := last.value]
  }

  /** A request that gives its length once more, and differently. */
  predicate ConflictAt(fields: seq<Field>, i: nat, side: Side)
    requires i < |fields|
  {
    && side.RequestSide? && ToLower(fields[i].name) == ContentLengthName
    && ContentLengthName in Headers(fields[..i], side) && Headers(fields[..i], side)[ContentLengthName] != fields[i].value
  }

  ghost predicate NoConflict(fields: seq<Field>, n: nat, side: Side)
    requires n <= |fields|
  {
    forall i {:trigger ConflictAt(fields, i, side)} :: 0 <= i < n ==> !ConflictAt(fields, i, side)
  }

  function Cookies(fields: seq<Field>, side: Side): seq<bytes> {
    if fields == [] then [] else
    var front, last := Cookies(fields[..|fields| - 1], side), fields[|fields| - 1];
    if ToLower(last.name) == CookieHeader(side) then front + [last.value] else front
  }

  // ---------------------------------------------------------------- one line

  lemma NoCrlfJoin(a: bytes, c: byte, b: bytes)
    requires NoCrlf(a) && NoCrlf(b) && c != CR && c != LF
    ensures NoCrlf(a + [c] + b)
  {
    var s := a + [c] + b;
    forall j | 0 <= j < |s| ensures !CrlfAt(s, j) {
      if j < |a| {
        assert !CrlfAt(a, j);
      } else if j > |a| {
        assert !CrlfAt(b, j - |a| - 1);
      }
    }
  }

  lemma NoCrlfInToken(s: bytes)
    requires IsToken(s)
    ensures NoCrlf(s)
  {
    forall j | 0 <= j < |s| ensures !CrlfAt(s, j) { assert IsTokenChar(s[j]); }
  }

  lemma FieldLineIsLine(f: Field)
    requires GoodField(f)
    ensures NoCrlf(FieldLine(f)) && FieldLine(f) != []
  {
    NoCrlfInToken(f.name);
    NoCrlfJoin([], Space, f.value);
    assert [] + [Space] + f.value == [Space] + f.value;
    NoCrlfJoin(f.name, Colon, [Space] + f.value);
    assert f.name + [Colon] + ([Space] + f.value) == FieldLine(f);
  }

  /** A header line is read back as its name, in lower case, and its value. */
  lemma ParseFieldLine(f: Field)
    requires GoodField(f)
    ensures ParseHeaderLine(FieldLine(f)) == Some((ToLower(f.name), f.value))
  {
    var line, n := FieldLine(f), |f.name|;
    forall j | 0 <= j < n ensures line[j] != Colon { assert IsTokenChar(f.name[j]); }
    IndexOfAt(line, Colon, 0, n);
    assert line[..n] == f.name && line[n + 1..] == [Space] + f.value;
    assert IsTokenChar(f.name[0]) && IsTokenChar(f.name[n - 1]);
    assert TrimLeft(f.name) == f.name && TrimRight(f.name) == f.name;
    assert ([Space] + f.value)[1..] == f.value;
    assert TrimLeft([Space] + f.value) == TrimLeft(f.value) == f.value;
  }

  // ---------------------------------------------------------------- all the header lines

  /** The parser after the first i fields. */
  function After(start: Start, fields: seq<Field>, side: Side): Progress {
    ExpectHeader(start, Headers(fields, side), Cookies(fields, side))
  }

  lemma {:induction false} HeadersHave(fields: seq<Field>, side: Side, name: bytes)
    ensures name in Headers(fields, side) <==>
      name != CookieHeader(side) && exists i {:trigger fields[i]} :: 0 <= i < |fields| && ToLower(fields[i].name) == name
  {
    if fields != [] {
      var front, last := fields[..|fields| - 1], fields[|fields| - 1];
      HeadersHave(front, side, name);
      if i :| 0 <= i < |front| && ToLower(front[i].name) == name {
        assert fields[i] == front[i];
      }
      if i :| 0 <= i < |fields| && ToLower(fields[i].name) == name {
        assert i == |fields| - 1 || front[i] == fields[i];
      }
    }
  }

  /** One more header line takes the parser to one more field. */
  lemma AfterOne(start: Start, fields: seq<Field>, i: nat, side: Side)
    requires GoodFields(fields) && i < |fields|
    ensures AddHeader(After(start, fields[..i], side), FieldLine(fields[i]), side) ==
      if ConflictAt(fields, i, side) then Failed(AmbiguousContentLength) else After(start, fields[..i + 1], side)
  {
    var f := fields[i];
    assert GoodField(f);
    ParseFieldLine(f);
    CookieIsNotLength(side);
    assert fields[..i + 1][..i] == fields[..i] && fields[..i + 1][i] == f;
  }

  lemma CookieIsNotLength(side: Side)
    ensures CookieHeader(side) != ContentLengthName
  {
    assert |CookieName| == 6 && |SetCookieName| == 10 && |ContentLengthName| == 14;
  }

  /** The parser before each line of a head, and after the last. */
  function HeadStates(start: Start, fields: seq<Field>, side: Side): (states: seq<Progress>)
    ensures |states| == |fields| + 3
  {
    [ExpectStart] + seq(|fields| + 1, i requires 0 <= i <= |fields| => After(start, fields[..i], side))
    + [Finish(start, Headers(fields, side), Cookies(fields, side), side)]
  }

  lemma HeadAt(text: bytes, start: Start, fields: seq<Field>, i: nat, side: Side)
    requires i < |fields|
    ensures HeadLines(text, fields)[i + 1] == FieldLine(fields[i])
    ensures HeadStates(start, fields, side)[i + 1] == After(start, fields[..i], side)
    ensures HeadStates(start, fields, side)[i + 2] == After(start, fields[..i + 1], side)
  {
  }

  lemma FieldAdvances(text: bytes, start: Start, fields: seq<Field>, i: nat, side: Side, methods: set<bytes>, step: Step)
    requires Follows(step, side, methods) && GoodFields(fields) && i < |fields| && !ConflictAt(fields, i, side)
    ensures Advances(HeadLines(text, fields), HeadStates(start, fields, side), i + 1, step)
  {
    var at, line, next := After(start, fields[..i], side), FieldLine(fields[i]), After(start, fields[..i + 1], side);
    assert NoCrlf(line) && LineStep(at, line, side, methods) == next by {
      FieldLineIsLine(fields[i]);
      AfterOne(start, fields, i, side);
    }
    assert step(at, line) == next;
    HeadAt(text, start, fields, i, side);
  }

  lemma EndsAdvance(text: bytes, start: Start, fields: seq<Field>, side: Side, methods: set<bytes>, step: Step)
    requires Follows(step, side, methods)
    requires NoCrlf(text) && LineStep(ExpectStart, text, side, methods) == ExpectHeader(start, map[], [])
    ensures Advances(HeadLines(text, fields), HeadStates(start, fields, side), 0, step)
    ensures Advances(HeadLines(text, fields), HeadStates(start, fields, side), |fields| + 1, step)
  {
    assert fields[..0] == [] && fields[..|fields|] == fields;
    var end := Finish(start, Headers(fields, side), Cookies(fields, side), side);
    assert LineStep(After(start, fields, side), [], side, methods) == end;
    assert HeadStates(start, fields, side)[|fields| + 1] == After(start, fields, side);
  }

  /** A head that was laid out is read back as it was meant, and nothing after it is touched. */
  lemma HeadRoundTrip(text: bytes, start: Start, fields: seq<Field>, tail: bytes, side: Side, methods: set<bytes>, step: Step, room: nat)
    requires Follows(step, side, methods)
    requires NoCrlf(text) && LineStep(ExpectStart, text, side, methods) == ExpectHeader(start, map[], [])
    requires GoodFields(fields) && NoConflict(fields, |fields|, side) && |fields| + 2 <= room
    ensures
      ParseHead(HeadBytes(text, fields) + tail, ExpectStart, room, step)
        == Outcome(Finish(start, Headers(fields, side), Cookies(fields, side), side), tail)
    ensures ShortLines(HeadLines(text, fields)) ==> FitsHead(HeadBytes(text, fields) + tail, ExpectStart, room, step)
  {
    var lines, states := HeadLines(text, fields), HeadStates(start, fields, side);
    forall k | 0 <= k < |lines| ensures Advances(lines, states, k, step) {
      if 1 <= k <= |fields| {
        FieldAdvances(text, start, fields, k - 1, side, methods, step);
      } else {
        EndsAdvance(text, start, fields, side, methods, step);
      }
    }
    assert [] + tail == tail;
    JoinedTail(lines, 0, [], tail);
    ParseJoined(lines, states, 0, room, tail, step);
  }

  /** Where names are distinct there is no conflict. */
  lemma DistinctIsNoConflict(fields: seq<Field>, side: Side)
    requires DistinctNames(fields, side)
    ensures NoConflict(fields, |fields|, side)
  {
    CookieIsNotLength(side);
    forall i {:trigger ConflictAt(fields, i, side)} | 0 <= i < |fields| ensures !ConflictAt(fields, i, side) {
      HeadersHave(fields[..i], side, ContentLengthName);
      assert forall j {:trigger fields[..i][j]} :: 0 <= j < i ==> fields[..i][j] == fields[j];
    }
  }

  // ---------------------------------------------------------------- start lines

  function VersionText(v: Version): bytes {
    if v.Http10? then Http10Text else Http11Text
  }

  function RequestText(verb: bytes, target: bytes, version: Version): bytes {
    verb + [Space] + (target + [Space] + VersionText(version))
  }

  function StatusText(version: Version, code: nat, reason: bytes): bytes {
    VersionText(version) + [Space] + (Digits(code, Decimal) + [Space] + reason)
  }

  lemma VersionTextIsToken(v: Version)
    ensures ParseVersion(VersionText(v)) == Some(v) && NoCrlf(VersionText(v)) && Space !in VersionText(v)
  {
    assert Http10Text[7] == 48 && Http11Text[7] == 49;
  }

  /** A word ends at the separator after it. */
  lemma WordEnds(line: bytes, from: nat, word: bytes)
    requires from + |word| < |line| && line[from..from + |word|] == word && Space !in word && line[from + |word|] == Space
    ensures IndexOf(line, Space, from) == Some(from + |word|)
  {
    forall j | from <= j < from + |word| ensures line[j] != Space {
      assert line[j] == word[j - from];
    }
    IndexOfAt(line, Space, from, from + |word|);
  }

  /** line is a, b and c with separators between. */
  ghost predicate Words(line: bytes, a: bytes, b: bytes, c: bytes) {
    && |line| == |a| + |b| + |c| + 2 && Space !in a && Space !in b && line[|a|] == Space && line[|a| + 1 + |b|] == Space
    && line[..|a|] == line[0..|a|] == a && line[|a| + 1..|a| + 1 + |b|] == b && line[|a| + 1 + |b| + 1..] == c
  }

  lemma WordSlices(line: bytes, a: bytes, b: bytes, c: bytes)
    requires line == a + [Space] + (b + [Space] + c) && Space !in a && Space !in b
    ensures Words(line, a, b, c)
  {
  }

  lemma RequestOfWords(line: bytes, verb: bytes, target: bytes, text: bytes, version: Version, methods: set<bytes>)
    requires Words(line, verb, target, text) && verb != [] && verb in methods && ParseVersion(text) == Some(version)
    ensures ParseRequestLine(line, methods) == Ok(RequestLine(verb, target, version))
  {
    WordEnds(line, 0, verb);
    WordEnds(line, |verb| + 1, target);
  }

  lemma StatusOfWords(line: bytes, text: bytes, digits: bytes, reason: bytes, version: Version, code: nat)
    requires Words(line, text, digits, reason) && ParseVersion(text) == Some(version) && 100 <= code <= 999 && digits == Digits(code, Decimal)
    ensures ParseStatusLine(line) == Ok(StatusLine(version, code, reason))
  {
    WordEnds(line, 0, text);
    WordEnds(line, |text| + 1, digits);
    assert Stoi(digits) == Some(code) by { StoiOfDigits(code); }
  }

  lemma RequestTextRoundTrip(verb: bytes, target: bytes, version: Version, methods: set<bytes>)
    requires verb != [] && verb in methods && Space !in verb && Space !in target && NoCrlf(verb) && NoCrlf(target)
    ensures NoCrlf(RequestText(verb, target, version))
    ensures ParseRequestLine(RequestText(verb, target, version), methods) == Ok(RequestLine(verb, target, version))
  {
    VersionTextIsToken(version);
    var rest := target + [Space] + VersionText(version);
    NoCrlfJoin(target, Space, VersionText(version));
    NoCrlfJoin(verb, Space, rest);
    var line := RequestText(verb, target, version);
    WordSlices(line, verb, target, VersionText(version));
    RequestOfWords(line, verb, target, VersionText(version), version, methods);
  }

  lemma DigitsIsWord(n: nat)
    ensures Space !in Digits(n, Decimal) && NoCrlf(Digits(n, Decimal))
  {
    var digits := Digits(n, Decimal);
    forall j | 0 <= j < |digits| ensures digits[j] != Space && !CrlfAt(digits, j) { assert IsDigit(digits[j], Decimal); }
  }

  lemma StatusTextIsLine(version: Version, code: nat, reason: bytes)
    requires NoCrlf(reason)
    ensures NoCrlf(StatusText(version, code, reason))
  {
    VersionTextIsToken(version);
    DigitsIsWord(code);
    NoCrlfJoin(Digits(code, Decimal), Space, reason);
    NoCrlfJoin(VersionText(version), Space, Digits(code, Decimal) + [Space] + reason);
  }

  lemma StatusTextRoundTrip(version: Version, code: nat, reason: bytes)
    requires 100 <= code <= 999
    ensures ParseStatusLine(StatusText(version, code, reason)) == Ok(StatusLine(version, code, reason))
  {
    var v, digits, line := VersionText(version), Digits(code, Decimal), StatusText(version, code, reason);
    VersionTextIsToken(version);
    DigitsIsWord(code);
    WordSlices(line, v, digits, reason);
    StatusOfWords(line, v, digits, reason, version, code);
  }
}
