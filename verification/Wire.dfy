/** Byte streams, the buffer they are read into (StringBuffer.h), and lines in them. */
module Wire {
  import opened Prelude

  const CR: byte := 13
  const LF: byte := 10
  const CRLF: seq<byte> := [CR, LF]

  predicate CrlfAt(s: seq<byte>, i: nat) {
    i + 1 < |s| && s[i] == CR && s[i + 1] == LF
  }

  /** i is where the first CR LF of s begins. */
  ghost predicate FirstCrlf(s: seq<byte>, i: nat) {
    CrlfAt(s, i) && forall j :: 0 <= j < i ==> !CrlfAt(s, j)
  }

  ghost predicate NoCrlf(s: seq<byte>) {
    forall j :: 0 <= j < |s| ==> !CrlfAt(s, j)
  }

  /** The position of the first CR LF at or after `from`. */
  function FindFrom(s: seq<byte>, from: nat): (r: Option<nat>)
    ensures r.Some? ==> from <= r.value && r.value + 1 < |s|
    decreases |s| - from
  {
    if from + 1 >= |s| then None else if CrlfAt(s, from) then Some(from) else FindFrom(s, from + 1)
  }

  /** It is a CR LF, and there is none between. */
  lemma {:induction false} FindFromIsFirst(s: seq<byte>, from: nat)
    ensures match FindFrom(s, from)
      case Some(i) => CrlfAt(s, i) && forall j :: from <= j < i ==> !CrlfAt(s, j)
      case None => forall j :: from <= j < |s| ==> !CrlfAt(s, j)
    decreases |s| - from
  {
    if from + 1 < |s| && !CrlfAt(s, from) {
      FindFromIsFirst(s, from + 1);
    }
  }

  /** s cut at its first CR LF: the line before it and the bytes after it. */
  function SplitLine(s: seq<byte>): (r: Option<(seq<byte>, seq<byte>)>)
    ensures r.Some? ==> |s| == |r.value.0| + 2 + |r.value.1|
  {
    match FindFrom(s, 0)
    case None => None
    case Some(i) => Some((s[..i], s[i + 2..]))
  }

  lemma SplitLineIsFirst(s: seq<byte>)
    ensures match SplitLine(s)
      case Some((line, rest)) => s == line + CRLF + rest && FirstCrlf(s, |line|)
      case None => NoCrlf(s)
  {
    FindFromIsFirst(s, 0);
    match FindFrom(s, 0)
    case Some(i) => assert s == s[..i] + CRLF + s[i + 2..];
    case None =>
  }

  lemma SplitLineAt(s: seq<byte>, i: nat)
    requires FirstCrlf(s, i)
    ensures SplitLine(s) == Some((s[..i], s[i + 2..]))
  {
    FindFromIsFirst(s, 0);
    assert CrlfAt(s, i);
    var f := FindFrom(s, 0);
    assert f.Some?;
    assert CrlfAt(s, f.value);
  }

  /** More bytes at the end do not move the first CR LF. */
  lemma FirstCrlfExtends(s: seq<byte>, t: seq<byte>, i: nat)
    requires FirstCrlf(s, i)
    ensures SplitLine(s + t) == Some((s[..i], s[i + 2..] + t))
  {
    forall j | 0 <= j < i ensures !CrlfAt(s + t, j) { assert !CrlfAt(s, j); }
    SplitLineAt(s + t, i);
    assert (s + t)[..i] == s[..i] && (s + t)[i + 2..] == s[i + 2..] + t;
  }

  /** A line that holds no CR LF is what SplitLine finds in front of one. */
  lemma SplitLineJoin(line: seq<byte>, rest: seq<byte>)
    requires NoCrlf(line)
    ensures SplitLine(line + CRLF + rest) == Some((line, rest))
  {
    var s, i := line + CRLF + rest, |line|;
    forall j | 0 <= j < i ensures !CrlfAt(s, j) {
      assert !CrlfAt(line, j);
      assert j + 1 < i ==> s[j] == line[j] && s[j + 1] == line[j + 1];
    }
    SplitLineAt(s, i);
    assert s[..i] == line && s[i + 2..] == rest;
  }

  /** Lines from i on, each with its CR LF, and then other bytes. */
  function Joined(lines: seq<seq<byte>>, i: nat, tail: seq<byte>): seq<byte>
    decreases |lines| - i
  {
    if i >= |lines| then tail else lines[i] + CRLF + Joined(lines, i + 1, tail)
  }

  /** While no CR LF is buffered, the first line is longer than what is buffered, less one. */
  lemma NoCrlfYet(buffered: seq<byte>, more: seq<byte>)
    requires NoCrlf(buffered)
    ensures match SplitLine(buffered + more)
      case Some(p) => |buffered| <= |p.0| + 1
      case None => true
  {
    SplitLineIsFirst(buffered + more);
    match SplitLine(buffered + more)
    case Some((line, _)) =>
      if |line| + 1 < |buffered| {
        assert CrlfAt(buffered, |line|);
      }
    case None =>
  }

  /** A peer's bytes; each read takes as many as the kernel happens to have. */
  class ByteStream {
    var input: seq<byte>   // still to be read
    var output: seq<byte>  // written so far

    constructor (input: seq<byte>)
      ensures this.input == input && output == []
    {
      this.input, output := input, [];
    }

    /** At most len bytes; none only at the end of the stream. */
    method Read(len: nat) returns (data: seq<byte>)
      modifies this`input
      ensures data + input == old(input) && |data| <= len
      ensures data == old(input)[..|data|] && input == old(input)[|data|..]
      ensures data == [] <==> len == 0 || old(input) == []
    {
      if len == 0 || input == [] {
        data := [];
      } else {
        var n :| 1 <= n <= len && n <= |input|;
        data, input := input[..n], input[n..];
      }
    }

    method Write(data: seq<byte>)
      modifies this`output
      ensures output == old(output) + data
    {
      output := output + data;
    }
  }

  /** StringBuffer: storage with a read and a write offset; it stands for the bytes between them. */
  class StringBuffer {
    var buffer: seq<byte>
    var readOffset: nat
    var writeOffset: nat

    ghost predicate Valid()
      reads this
    {
      readOffset <= writeOffset <= |buffer|
    }

    function Contents(): (r: seq<byte>)
      reads this
      requires Valid()
      ensures |r| == writeOffset - readOffset
    {
      buffer[readOffset..writeOffset]
    }

    constructor ()
      ensures Valid() && Contents() == []
    {
      buffer, readOffset, writeOffset := [], 0, 0;
    }

    /** find("\r\n") over the unconsumed bytes. */
    method FindCrlf() returns (pos: Option<nat>)
      requires Valid()
      ensures pos == FindFrom(Contents(), 0)
    {
      var v := Contents();
      var i := 0;
      while i + 1 < |v|
        invariant FindFrom(v, 0) == FindFrom(v, i)
      {
        if v[i] == CR && v[i + 1] == LF {
          return Some(i);
        }
        i := i + 1;
      }
      pos := None;
    }

    method Consume(n: nat)
      requires Valid() && n <= |Contents()|
      modifies this
      ensures Valid() && Contents() == old(Contents())[n..]
    {
      readOffset := readOffset + n;
    }

    /** Room for len more bytes, by moving the unconsumed bytes to the front or by growing. */
    method PrepareWrite(len: nat)
      requires Valid()
      modifies this
      ensures Valid() && Contents() == old(Contents())
      ensures |buffer| - writeOffset >= len
    {
      if |buffer| - writeOffset < len {
        if readOffset > 0 && |buffer| - (writeOffset - readOffset) >= len {
          var remaining := writeOffset - readOffset;
          buffer := buffer[readOffset..writeOffset] + buffer[remaining..];
          writeOffset := remaining;
          readOffset := 0;
        } else {
          buffer := buffer + seq(writeOffset + len - |buffer|, _ => 0);
        }
      }
    }

    /** How much can be written without growing; grown by `extend` if that is below `threshold`. */
    method Room(threshold: nat, extend: nat) returns (available: nat)
      requires Valid() && 0 < threshold <= extend
      modifies this
      ensures Valid() && Contents() == old(Contents()) && threshold <= available <= |buffer| - writeOffset
    {
      available := |buffer| - writeOffset;
      if available < threshold {
        PrepareWrite(extend);
        available := extend;
      }
    }

    /** The stream stores what it read at the write position. */
    method StoreAtWrite(data: seq<byte>)
      requires Valid() && |data| <= |buffer| - writeOffset
      modifies this`buffer
      ensures Valid() && Contents() == old(Contents()) && |buffer| == old(|buffer|)
      ensures buffer[writeOffset..writeOffset + |data|] == data
    {
      buffer := buffer[..writeOffset] + data + buffer[writeOffset + |data|..];
    }

    method CommitWrite(n: nat)
      requires Valid() && n <= |buffer| - writeOffset
      modifies this`writeOffset
      ensures Valid() && Contents() == old(Contents() + buffer[writeOffset..writeOffset + n])
    {
      writeOffset := writeOffset + n;
    }

    /** What the stream stored, committed. */
    method Append(data: seq<byte>)
      requires Valid() && |data| <= |buffer| - writeOffset
      modifies this
      ensures Valid() && Contents() == old(Contents()) + data
    {
      StoreAtWrite(data);
      CommitWrite(|data|);
    }

    /** The unconsumed bytes as a string of their own; the buffer is empty afterwards. */
    method Extract() returns (result: seq<byte>)
      requires Valid()
      modifies this
      ensures Valid() && result == old(Contents()) && Contents() == []
    {
      if readOffset == 0 {
        result := buffer[..writeOffset];
      } else {
        result := buffer[readOffset..writeOffset];
      }
      buffer, readOffset, writeOffset := [], 0, 0;
    }

    /** prepareWrite, read, commitWrite, as every reader of the stream does it. */
    method Fill(stream: ByteStream, want: nat) returns (n: nat)
      requires Valid() && want > 0
      modifies this, stream`input
      ensures Valid() && Contents() + stream.input == old(Contents() + stream.input)
      ensures n <= want && n <= old(|stream.input|) && (n == 0 <==> old(stream.input) == [])
      ensures Contents() == old(Contents() + stream.input[..n]) && stream.input == old(stream.input[n..])
    {
      PrepareWrite(want);
      var data := stream.Read(want);
      n := |data|;
      Append(data);
    }
  }

  // ---------------------------------------------------------------- line loops

  datatype LineFound = Found(pos: nat) | TooLong | Ended

  /** How many bytes a read delivers that asks for `want` of those there. */
  function ReadCount(size: nat, want: nat, there: nat): (n: nat)
    requires want > 0 && there > 0
    ensures 1 <= n <= want && n <= there && (1 <= size <= want && size <= there ==> n == size)
  {
    var most := if want < there then want else there;
    if size == 0 then 1 else if size < most then size else most
  }

  /**
   * The line loop that parseNext, parseChunkSize and skipTrailer share, as a function of the
   * sizes in which the reads deliver the bytes. TooLong: `limit` bytes without a CR LF.
   */
  function LineLoop(buffered: seq<byte>, input: seq<byte>, sizes: nat -> nat, k: nat, limit: nat, want: nat): LineFound
    requires want > 0
    decreases |input|
  {
    match FindFrom(buffered, 0)
    case Some(i) => Found(i)
    case None =>
      if |buffered| >= limit then TooLong
      else if input == [] then Ended
      else
        var n := ReadCount(sizes(k), want, |input|);
        LineLoop(buffered + input[..n], input[n..], sizes, k + 1, limit, want)
  }

  /** The first CR LF is buffered once enough bytes are. */
  lemma FindBuffered(b: seq<byte>, input: seq<byte>, line: seq<byte>, rest: seq<byte>)
    requires SplitLine(b + input) == Some((line, rest))
    ensures FindFrom(b, 0) == if |line| + 2 <= |b| then Some(|line|) else None
    ensures |line| + 2 <= |b| + |input|
  {
    var found := FindFrom(b, 0);
    FindFromIsFirst(b, 0);
    if found.Some? {
      FirstCrlfExtends(b, input, found.value);
      assert |b[..found.value]| == |line|;
    } else {
      assert NoCrlf(b);
      NoCrlfYet(b, input);
      assert |b| <= |line| + 1;
    }
  }

  lemma Moved(b: seq<byte>, input: seq<byte>, n: nat)
    requires n <= |input|
    ensures b + input[..n] + input[n..] == b + input
  {
    assert input == input[..n] + input[n..];
  }

  /** A line within the limit is found however the reads fall; any line is found or refused. */
  lemma {:induction false} LoopFinds(b: seq<byte>, input: seq<byte>, line: seq<byte>, rest: seq<byte>, sizes: nat -> nat, k: nat, limit: nat, want: nat)
    requires want > 0 && SplitLine(b + input) == Some((line, rest))
    ensures LineLoop(b, input, sizes, k, limit, want) in {Found(|line|), TooLong}
    ensures |line| + 2 <= |b| || |line| + 2 <= limit ==> LineLoop(b, input, sizes, k, limit, want) == Found(|line|)
    ensures LineLoop(b, input, sizes, k, limit, want).Found? ==>
      |line| + 2 <= |b| || (|b| < limit && |line| + 2 <= limit - 1 + want)
    decreases |input|
  {
    FindBuffered(b, input, line, rest);
    if |line| + 2 > |b| && |b| < limit {
      var n := ReadCount(sizes(k), want, |input|);
      Moved(b, input, n);
      LoopFinds(b + input[..n], input[n..], line, rest, sizes, k + 1, limit, want);
    }
  }

  /** One byte at a time, a longer line is refused. */
  lemma {:induction false} LoopRefuses(b: seq<byte>, input: seq<byte>, line: seq<byte>, rest: seq<byte>, sizes: nat -> nat, k: nat, limit: nat, want: nat)
    requires want > 0 && SplitLine(b + input) == Some((line, rest)) && (forall j :: sizes(j) == 1)
    requires |line| + 2 > |b| && |line| + 2 > limit
    ensures LineLoop(b, input, sizes, k, limit, want) == TooLong
    decreases |input|
  {
    FindBuffered(b, input, line, rest);
    if |b| < limit {
      Moved(b, input, 1);
      LoopRefuses(b + input[..1], input[1..], line, rest, sizes, k + 1, limit, want);
    }
  }

  /** The sizes that get the most past the limit: single bytes to just below it, then as much as one read takes. */
  function Latest(held: nat, last: nat, want: nat): nat -> nat {
    k => if held + k < last then 1 else want
  }

  lemma {:induction false} LoopAccepts(b: seq<byte>, input: seq<byte>, line: seq<byte>, rest: seq<byte>, held: nat, k: nat, limit: nat, want: nat)
    requires want > 0 && SplitLine(b + input) == Some((line, rest)) && |b| == held + k
    requires |b| < |line| + 2 <= limit - 1 + want && |b| < limit
    ensures
      var last := if limit <= |line| + 1 then limit - 1 else |line| + 1;
      LineLoop(b, input, Latest(held, last, want), k, limit, want) == Found(|line|)
    decreases |input|
  {
    FindBuffered(b, input, line, rest);
    var last := if limit <= |line| + 1 then limit - 1 else |line| + 1;
    var sizes := Latest(held, last, want);
    var n := ReadCount(sizes(k), want, |input|);
    Moved(b, input, n);
    if |b| < last {
      LoopAccepts(b + input[..n], input[n..], line, rest, held, k + 1, limit, want);
    } else {
      assert |b + input[..n]| >= |line| + 2;
      FindBuffered(b + input[..n], input[n..], line, rest);
    }
  }

  /** A line is accepted under every split exactly if it fits the limit with its CR LF, or is buffered already. */
  lemma AcceptedAlwaysIff(b: seq<byte>, input: seq<byte>, line: seq<byte>, rest: seq<byte>, limit: nat, want: nat)
    requires want > 0 && SplitLine(b + input) == Some((line, rest))
    ensures (forall sizes :: LineLoop(b, input, sizes, 0, limit, want) == Found(|line|)) <==> |line| + 2 <= |b| || |line| + 2 <= limit
  {
    if |line| + 2 <= |b| || |line| + 2 <= limit {
      forall sizes ensures LineLoop(b, input, sizes, 0, limit, want) == Found(|line|) {
        LoopFinds(b, input, line, rest, sizes, 0, limit, want);
      }
    } else {
      var ones: nat -> nat := _ => 1;
      LoopRefuses(b, input, line, rest, ones, 0, limit, want);
    }
  }

  /** And under some split exactly if one read below the limit can reach its end. */
  lemma AcceptedSometimesIff(b: seq<byte>, input: seq<byte>, line: seq<byte>, rest: seq<byte>, limit: nat, want: nat)
    requires want > 0 && SplitLine(b + input) == Some((line, rest))
    ensures (exists sizes :: LineLoop(b, input, sizes, 0, limit, want) == Found(|line|)) <==>
      |line| + 2 <= |b| || (|b| < limit && |line| + 2 <= limit - 1 + want)
  {
    if |line| + 2 <= |b| {
      var ones: nat -> nat := _ => 1;
      LoopFinds(b, input, line, rest, ones, 0, limit, want);
    } else if |b| < limit && |line| + 2 <= limit - 1 + want {
      LoopAccepts(b, input, line, rest, |b|, 0, limit, want);
    } else {
      forall sizes ensures LineLoop(b, input, sizes, 0, limit, want) != Found(|line|) {
        LoopFinds(b, input, line, rest, sizes, 0, limit, want);
      }
    }
  }

  ghost predicate Starts(sizes: nat -> nat, taken: seq<nat>) {
    forall j :: 0 <= j < |taken| ==> sizes(j) == taken[j]
  }

  /** However the sizes go on after these reads, the loop that began with b0 and in0 goes on with b and input. */
  ghost predicate GoesOn(b0: seq<byte>, in0: seq<byte>, taken: seq<nat>, b: seq<byte>, input: seq<byte>, limit: nat, want: nat)
    requires want > 0
  {
    forall sizes {:trigger Starts(sizes, taken)} :: Starts(sizes, taken) ==>
      LineLoop(b0, in0, sizes, 0, limit, want) == LineLoop(b, input, sizes, |taken|, limit, want)
  }

  lemma StartsMore(sizes: nat -> nat, taken: seq<nat>, n: nat)
    requires Starts(sizes, taken + [n])
    ensures Starts(sizes, taken) && sizes(|taken|) == n
  {
    var more := taken + [n];
    assert sizes(|taken|) == more[|taken|] == n;
    forall j | 0 <= j < |taken| ensures sizes(j) == taken[j] {
      assert sizes(j) == more[j];
    }
  }

  lemma LoopStep(b: seq<byte>, input: seq<byte>, sizes: nat -> nat, k: nat, n: nat, limit: nat, want: nat)
    requires FindFrom(b, 0).None? && |b| < limit && 1 <= n <= want && n <= |input| && sizes(k) == n
    ensures LineLoop(b, input, sizes, k, limit, want) == LineLoop(b + input[..n], input[n..], sizes, k + 1, limit, want)
  {
  }

  /** With too much buffered, the loop gives up before it reads anything. */
  lemma JammedLoop(b: seq<byte>, input: seq<byte>, sizes: nat -> nat, limit: nat, want: nat)
    requires want > 0
    ensures NoCrlf(b) && |b| >= limit ==> LineLoop(b, input, sizes, 0, limit, want) == TooLong
  {
    FindFromIsFirst(b, 0);
  }

  lemma GoesOnAfter(b0: seq<byte>, in0: seq<byte>, taken: seq<nat>, b: seq<byte>, input: seq<byte>, n: nat, limit: nat, want: nat)
    requires want > 0 && GoesOn(b0, in0, taken, b, input, limit, want)
    requires FindFrom(b, 0).None? && |b| < limit && 1 <= n <= want && n <= |input|
    ensures GoesOn(b0, in0, taken + [n], b + input[..n], input[n..], limit, want)
  {
    forall sizes | Starts(sizes, taken + [n])
      ensures LineLoop(b0, in0, sizes, 0, limit, want) == LineLoop(b + input[..n], input[n..], sizes, |taken + [n]|, limit, want)
    {
      StartsMore(sizes, taken, n);
      LoopStep(b, input, sizes, |taken|, n, limit, want);
    }
  }

  /** The loop itself: some read sizes, and what the loop makes of them. Nothing is consumed. */
  method FindLine(stream: ByteStream, buffer: StringBuffer, limit: nat, want: nat) returns (r: LineFound, ghost sizes: nat -> nat)
    requires buffer.Valid() && want > 0
    modifies buffer, stream`input
    ensures buffer.Valid() && buffer.Contents() + stream.input == old(buffer.Contents() + stream.input)
    ensures r == LineLoop(old(buffer.Contents()), old(stream.input), sizes, 0, limit, want)
    ensures r.Found? ==> FindFrom(buffer.Contents(), 0) == Some(r.pos)
    ensures !r.Found? ==> FindFrom(buffer.Contents(), 0).None?
    ensures r.TooLong? ==> |buffer.Contents()| >= limit
    ensures r.Ended? ==> stream.input == []
  {
    ghost var b0, in0, taken := buffer.Contents(), stream.input, [];
    while true
      invariant buffer.Valid() && buffer.Contents() + stream.input == b0 + in0
      invariant GoesOn(b0, in0, taken, buffer.Contents(), stream.input, limit, want)
      decreases |stream.input|
    {
      ghost var b, input := buffer.Contents(), stream.input;
      sizes := Continued(taken);
      assert Starts(sizes, taken);
      var pos := buffer.FindCrlf();
      if pos.Some? {
        return Found(pos.value), sizes;
      }
      if |buffer.Contents()| >= limit {
        return TooLong, sizes;
      }
      var n := buffer.Fill(stream, want);
      if n == 0 {
        assert input == [] && b + input[..0] == b;
        return Ended, sizes;
      }
      GoesOnAfter(b0, in0, taken, b, input, n, limit, want);
      taken := taken + [n];
    }
  }

  function Continued(taken: seq<nat>): nat -> nat {
    (k: nat) => if k < |taken| then taken[k] else 1
  }

  datatype LineResult = Line(line: seq<byte>) | NoLine(found: LineFound)

  /** The first line of the connection, left where it is; `rest` is what will follow it. */
  method PeekLine(stream: ByteStream, buffer: StringBuffer, limit: nat, want: nat) returns (r: LineResult, ghost rest: seq<byte>)
    requires buffer.Valid() && want > 0
    modifies buffer, stream`input
    ensures buffer.Valid() && buffer.Contents() + stream.input == old(buffer.Contents() + stream.input)
    ensures r.Line? ==> old(SplitLine(buffer.Contents() + stream.input)) == Some((r.line, rest))
    ensures r.Line? ==> |r.line| + 2 <= |buffer.Contents()| && rest == buffer.Contents()[|r.line| + 2..] + stream.input
    ensures r.NoLine? ==> NoCrlf(buffer.Contents())
    ensures r.NoLine? ==> match r.found
      case Found(_) => false
      case Ended => old(SplitLine(buffer.Contents() + stream.input)).None?
      case TooLong => |buffer.Contents()| >= limit && !WithinLimit(old(buffer.Contents() + stream.input), limit)
  {
    var found, sizes := FindLine(stream, buffer, limit, want);
    LineFoundSays(buffer.Contents(), stream.input, found, limit);
    rest := [];
    if found.Found? {
      rest := buffer.Contents()[found.pos + 2..] + stream.input;
      r := Line(buffer.Contents()[..found.pos]);
    } else {
      r := NoLine(found);
    }
  }

  /** One line off the connection, for skipTrailer, which consumes it at once. */
  method TakeLine(stream: ByteStream, buffer: StringBuffer, limit: nat, want: nat) returns (r: LineResult)
    requires buffer.Valid() && want > 0
    modifies buffer, stream`input
    ensures buffer.Valid()
    ensures r.Line? ==> old(SplitLine(buffer.Contents() + stream.input)) == Some((r.line, buffer.Contents() + stream.input))
    ensures r.NoLine? ==> buffer.Contents() + stream.input == old(buffer.Contents() + stream.input) && NoCrlf(buffer.Contents())
    ensures r.NoLine? ==> match r.found
      case Found(_) => false
      case Ended => SplitLine(buffer.Contents() + stream.input).None?
      case TooLong => |buffer.Contents()| >= limit && !WithinLimit(buffer.Contents() + stream.input, limit)
  {
    ghost var rest;
    r, rest := PeekLine(stream, buffer, limit, want);
    if r.Line? {
      buffer.Consume(|r.line| + 2);
    }
  }

  /** The first line, if there is one, is accepted under every split. */
  predicate WithinLimit(p: seq<byte>, limit: nat) {
    SplitLine(p).Some? && |SplitLine(p).value.0| + 2 <= limit
  }

  /** What a search says about the first line, from what is buffered when it ends. */
  lemma LineFoundSays(b: seq<byte>, input: seq<byte>, r: LineFound, limit: nat)
    requires if r.Found? then FindFrom(b, 0) == Some(r.pos) else FindFrom(b, 0).None?
    requires (r.TooLong? ==> |b| >= limit) && (r.Ended? ==> input == [])
    ensures r.Found? ==> SplitLine(b + input) == Some((b[..r.pos], b[r.pos + 2..] + input))
    ensures !r.Found? ==> NoCrlf(b)
    ensures r.Ended? ==> SplitLine(b + input).None?
    ensures r.TooLong? ==> !WithinLimit(b + input, limit)
  {
    FindFromIsFirst(b, 0);
    match r
    case Found(i) => FirstCrlfExtends(b, input, i);
    case TooLong => NoCrlfYet(b, input);
    case Ended =>
      assert b + input == b;
      SplitLineIsFirst(b);
  }
}
