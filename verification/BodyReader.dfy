/**
 * Message bodies off the wire: chunked, content-length and close-delimited readers
 * (ChunkedReader.cc, ContentLengthReader.cc, UntilCloseReader.cc) behind BodyReader.cc.
 * The specification decodes a whole byte string at once; the class decodes whatever the
 * stream happens to deliver, into caller buffers of any size.
 */
module BodyReader {
  import opened Prelude
  import opened Wire
  import opened Numbers

  const MaxChunkSizeLine := 64
  const MaxTrailerLine := 8192
  const MaxTrailerLines := 128

  // ---------------------------------------------------------------- specification

  /** A decoded body and the bytes after it. */
  datatype Decoded = Decoded(body: seq<byte>, rest: seq<byte>)

  datatype TrailerEnd = Done | Overrun | Cut

  /** How a trailer ends, what is left after it, and whether its lines are accepted however the reads fall. */
  datatype Trailer = Trailer(end: TrailerEnd, rest: seq<byte>, fits: bool)

  /** Lines up to an empty one, or one more than there may be. */
  function SkipTrailer(p: seq<byte>, lines: nat): (t: Trailer)
    ensures |t.rest| <= |p|
    decreases |p|
  {
    match SplitLine(p)
    case None => Trailer(Cut, p, true)
    case Some((line, rest)) =>
      var fits := |line| + 2 <= MaxTrailerLine;
      if line == [] then Trailer(Done, rest, fits)
      else if lines + 1 > MaxTrailerLines then Trailer(Overrun, rest, fits)
      else
        var t := SkipTrailer(rest, lines + 1);
        t.(fits := fits && t.fits)
  }

  /** Section 4.1 of RFC 7230: chunks up to a chunk of size zero, then the trailer. */
  function DecodeChunks(p: seq<byte>): (d: Option<Decoded>)
    ensures d.Some? ==> |d.value.rest| <= |p|
    decreases |p|, 0
  {
    match SplitLine(p)
    case None => None
    case Some((line, rest)) =>
      if |line| > MaxChunkSizeLine then None else
      match Stoul(line, Hex)
      case None => None
      case Some(n) => DecodeSized(rest, n)
  }

  /** After a chunk-size line of n: its data, or the trailer if n is zero. */
  function DecodeSized(p: seq<byte>, n: nat): (d: Option<Decoded>)
    ensures d.Some? ==> |d.value.rest| <= |p|
    decreases |p|, 2
  {
    if n > 0 then DecodeData(p, n) else
    match SkipTrailer(p, 0)
    case Trailer(Done, rest, _) => Some(Decoded([], rest))
    case _ => None
  }

  /** n bytes of chunk data and the two bytes after them, then further chunks. */
  function DecodeData(p: seq<byte>, n: nat): (d: Option<Decoded>)
    ensures d.Some? ==> |d.value.rest| <= |p|
    decreases |p|, 1
  {
    if |p| < n + 2 then None else Prepend(p[..n], DecodeChunks(p[n + 2..]))
  }

  function DecodeLength(p: seq<byte>, n: nat): Option<Decoded> {
    if |p| < n then None else Some(Decoded(p[..n], p[n..]))
  }

  /** Section 3.3.3 of RFC 7230: what a body of the given framing is, and what follows it. */
  function DecodeBody(mode: TransferMode, p: seq<byte>, length: nat): (d: Option<Decoded>)
    ensures d.Some? ==> |d.value.rest| <= |p|
  {
    match mode
    case ModeContentLength => DecodeLength(p, length)
    case ModeChunked => DecodeChunks(p)
    case ModeUntilClose => Some(Decoded(p, []))
  }

  function Prepend(data: seq<byte>, d: Option<Decoded>): Option<Decoded> {
    match d
    case None => None
    case Some(Decoded(body, rest)) => Some(Decoded(data + body, rest))
  }

  // ---------------------------------------------------------------- reading on after a failure

  /**
   * What a reader comes to that is asked again after every failure: the body and what follows
   * it, whether it gets there without a failure, and whether every line it meets is accepted
   * however the reads fall. A failed read leaves the reader where it was, with one exception:
   * a trailer of too many lines is gone, and the next read takes what follows for chunks.
   */
  datatype Reading = Reading(left: Option<Decoded>, clean: bool, fits: bool)

  function ChunkReading(p: seq<byte>): (r: Reading)
    ensures (r.clean ==> r.left.Some?) && (r.left.Some? ==> |r.left.value.rest| <= |p|)
    decreases |p|, 0
  {
    match SplitLine(p)
    case None => Reading(None, false, true)
    case Some((line, rest)) =>
      if |line| > MaxChunkSizeLine then Reading(None, false, false) else
      var fits := |line| + 2 <= MaxChunkSizeLine;
      match Stoul(line, Hex)
      case None => Reading(None, false, fits)
      case Some(n) =>
        var r := SizedReading(rest, n);
        r.(fits := fits && r.fits)
  }

  function SizedReading(p: seq<byte>, n: nat): (r: Reading)
    ensures (r.clean ==> r.left.Some?) && (r.left.Some? ==> |r.left.value.rest| <= |p|)
    decreases |p|, 2
  {
    if n > 0 then DataReading(p, n) else
    var t := SkipTrailer(p, 0);
    match t.end
    case Done => Reading(Some(Decoded([], t.rest)), true, t.fits)
    case Cut => Reading(None, false, t.fits)
    case Overrun => Retried(t.fits, ChunkReading(t.rest))
  }

  function Retried(fits: bool, r: Reading): Reading {
    Reading(r.left, false, fits && r.fits)
  }

  /** What a trailer comes to. */
  function TrailerReading(t: Trailer): Reading {
    match t.end
    case Done => Reading(Some(Decoded([], t.rest)), true, t.fits)
    case Cut => Reading(None, false, t.fits)
    case Overrun => Retried(t.fits, ChunkReading(t.rest))
  }

  function DataReading(p: seq<byte>, n: nat): (r: Reading)
    ensures (r.clean ==> r.left.Some?) && (r.left.Some? ==> |r.left.value.rest| <= |p|)
    decreases |p|, 1
  {
    if |p| < n + 2 then Reading(None, false, true) else Before(p[..n], ChunkReading(p[n + 2..]))
  }

  function LengthReading(p: seq<byte>, n: nat): Reading {
    Reading(DecodeLength(p, n), |p| >= n, true)
  }

  function BodyReading(mode: TransferMode, p: seq<byte>, length: nat): (r: Reading)
    ensures r.left.Some? ==> |r.left.value.rest| <= |p|
  {
    match mode
    case ModeContentLength => LengthReading(p, length)
    case ModeChunked => ChunkReading(p)
    case ModeUntilClose => Reading(Some(Decoded(p, [])), true, true)
  }

  function Before(data: seq<byte>, r: Reading): Reading {
    r.(left := Prepend(data, r.left))
  }

  /** Without a failure it is decoding, and a failure is what decoding does not allow. */
  lemma {:induction false} ChunkReadingDecodes(p: seq<byte>)
    ensures ChunkReading(p).clean <==> DecodeChunks(p).Some?
    ensures ChunkReading(p).clean ==> ChunkReading(p).left == DecodeChunks(p)
    decreases |p|
  {
    match SplitLine(p)
    case None =>
    case Some((line, rest)) =>
      match Stoul(line, Hex)
      case None =>
      case Some(n) =>
        if n > 0 {
          assert SizedReading(rest, n) == DataReading(rest, n) && DecodeSized(rest, n) == DecodeData(rest, n);
          if |rest| >= n + 2 {
            ChunkReadingDecodes(rest[n + 2..]);
          }
        }
  }

  lemma BodyReadingDecodes(mode: TransferMode, p: seq<byte>, length: nat)
    ensures BodyReading(mode, p, length).clean <==> DecodeBody(mode, p, length).Some?
    ensures BodyReading(mode, p, length).clean ==> BodyReading(mode, p, length).left == DecodeBody(mode, p, length)
  {
    ChunkReadingDecodes(p);
  }

  // ---------------------------------------------------------------- trailers of too many lines

  ghost predicate TrailerLines(lines: seq<seq<byte>>) {
    forall i {:trigger lines[i]} :: 0 <= i < |lines| ==> lines[i] != [] && NoCrlf(lines[i])
  }

  lemma {:induction false} TooManyLines(lines: seq<seq<byte>>, i: nat, q: seq<byte>)
    requires TrailerLines(lines) && |lines| == MaxTrailerLines + 1 && i < |lines|
    ensures SkipTrailer(Joined(lines, i, q), i).end == Overrun && SkipTrailer(Joined(lines, i, q), i).rest == q
    decreases |lines| - i
  {
    SplitLineJoin(lines[i], Joined(lines, i + 1, q));
    if i + 1 < |lines| {
      TooManyLines(lines, i + 1, q);
    }
  }

  /**
   * A last chunk with one trailer line too many, then anything: no body, but a reader that is
   * asked again takes whatever follows for the body.
   */
  lemma OverrunReadsOn(lines: seq<seq<byte>>, q: seq<byte>)
    requires TrailerLines(lines) && |lines| == MaxTrailerLines + 1
    ensures
      var p := [48] + CRLF + Joined(lines, 0, q);
      DecodeChunks(p) == None && ChunkReading(p).left == ChunkReading(q).left && !ChunkReading(p).clean
  {
    var zero: seq<byte> := [48];
    SplitLineJoin(zero, Joined(lines, 0, q));
    assert Digits(0, Hex) == zero;
    StoulOfDigits(0, Hex);
    TooManyLines(lines, 0, q);
  }

  // ---------------------------------------------------------------- one step of reading

  /** The same body after fewer bytes: no failure on the way. */
  ghost predicate Keeps(was: Reading, now: Reading) {
    was.left == now.left && was.clean == now.clean && (was.fits ==> now.fits)
  }

  /** What a failure leaves: the same body, unless a line that does not fit was met and nothing more can be read. */
  ghost predicate Fails(was: Reading, now: Reading, stuck: bool) {
    (now.left == was.left || (stuck && !was.fits)) && (was.fits ==> now.fits)
  }

  lemma PrependPrepend(a: seq<byte>, b: seq<byte>, d: Option<Decoded>)
    ensures Prepend(a, Prepend(b, d)) == Prepend(a + b, d)
  {
    match d
    case None =>
    case Some(x) => assert a + (b + x.body) == a + b + x.body;
  }

  lemma PrependNothing(d: Option<Decoded>)
    ensures Prepend([], d) == d
  {
    match d
    case None =>
    case Some(x) => assert [] + x.body == x.body;
  }

  /** r is what comes of reading p as chunks, as a chunk's data, as a trailer or as a body of known length. */
  ghost predicate MeansChunks(r: Reading, p: seq<byte>) {
    forall q {:trigger ChunkReading(q)} :: q == p ==> r == ChunkReading(q)
  }

  ghost predicate MeansData(r: Reading, p: seq<byte>, n: nat) {
    forall q, m {:trigger DataReading(q, m)} :: q == p && m == n ==> r == DataReading(q, m)
  }

  ghost predicate MeansTrailer(r: Reading, p: seq<byte>) {
    forall q {:trigger SkipTrailer(q, 0)} :: q == p ==> r == TrailerReading(SkipTrailer(q, 0))
  }

  ghost predicate MeansLength(r: Reading, p: seq<byte>, n: nat) {
    forall q, m {:trigger LengthReading(q, m)} :: q == p && m == n ==> r == LengthReading(q, m)
  }

  /** At the end of a chunk's data: two bytes, then further chunks. */
  lemma DataDone(r: Reading, p: seq<byte>)
    requires MeansData(r, p, 0)
    ensures |p| >= 2 ==> MeansChunks(r, p[2..]) && (r.clean ==> r.left.Some?)
    ensures |p| < 2 ==> r == Reading(None, false, true)
  {
    assert r == DataReading(p, 0);
    if |p| >= 2 {
      assert p[..0] == [];
      PrependNothing(ChunkReading(p[2..]).left);
    }
  }

  /** Taking part of a chunk's data off the front leaves the rest of that chunk. */
  lemma DataTaken(was: Reading, p: seq<byte>, n: nat, data: seq<byte>, q: seq<byte>) returns (now: Reading)
    requires MeansData(was, p, n) && p == data + q && |data| <= n
    ensures MeansData(now, q, n - |data|) && was == Before(data, now) && (now.clean ==> now.left.Some?)
    ensures |p| < n + 2 ==> was == Reading(None, false, true)
  {
    now := DataReading(q, n - |data|);
    assert was == DataReading(data + q, n);
    DataPart(data, q, n);
  }

  lemma LengthTaken(was: Reading, p: seq<byte>, n: nat, data: seq<byte>, q: seq<byte>) returns (now: Reading)
    requires MeansLength(was, p, n) && p == data + q && |data| <= n
    ensures MeansLength(now, q, n - |data|) && was == Before(data, now) && (now.clean ==> now.left.Some?)
    ensures |p| < n ==> was.left.None?
    ensures |data| == n ==> now == Reading(Some(Decoded([], q)), true, true)
  {
    now := LengthReading(q, n - |data|);
    assert was == LengthReading(data + q, n);
    LengthPart(data, q, n);
    assert q[..0] == [] && q[0..] == q;
  }

  /** Taking part of a chunk's data off the front leaves the rest of that chunk. */
  lemma DataPart(data: seq<byte>, p: seq<byte>, n: nat)
    requires |data| <= n
    ensures DataReading(data + p, n) == Before(data, DataReading(p, n - |data|))
  {
    if |p| + |data| >= n + 2 {
      var m := n - |data|;
      assert (data + p)[..n] == data + p[..m];
      assert (data + p)[n + 2..] == p[m + 2..];
      PrependPrepend(data, p[..m], ChunkReading(p[m + 2..]).left);
    }
  }

  lemma LengthPart(data: seq<byte>, p: seq<byte>, n: nat)
    requires |data| <= n
    ensures LengthReading(data + p, n) == Before(data, LengthReading(p, n - |data|))
  {
    if |p| + |data| >= n {
      assert (data + p)[..n] == data + p[..n - |data|] && (data + p)[n..] == p[n - |data|..];
    }
  }

  // ---------------------------------------------------------------- lines of chunk sizes

  /** p begins with the size n, and goes on with rest. */
  predicate SizeLine(p: seq<byte>, n: nat, rest: seq<byte>) {
    match SplitLine(p)
    case None => false
    case Some((line, after)) => |line| <= MaxChunkSizeLine && Stoul(line, Hex) == Some(n) && after == rest
  }

  /** Nothing at the front of p is read as a size, or not under every split. */
  predicate NoSizeLine(p: seq<byte>) {
    match SplitLine(p)
    case None => true
    case Some((line, _)) => |line| + 2 > MaxChunkSizeLine || Stoul(line, Hex).None?
  }

  lemma SizeLineReading(p: seq<byte>, n: nat, rest: seq<byte>, was: Reading) returns (now: Reading)
    requires SizeLine(p, n, rest) && MeansChunks(was, p)
    ensures |rest| < |p| && Keeps(was, now) && (now.clean ==> now.left.Some?)
    ensures if n > 0 then MeansData(now, rest, n) else MeansTrailer(now, rest)
  {
    assert was == ChunkReading(p);
    now := SizedReading(rest, n);
  }

  lemma NoSizeLineReading(p: seq<byte>, was: Reading)
    requires NoSizeLine(p) && MeansChunks(was, p)
    ensures was.left.None? || !was.fits
  {
    assert was == ChunkReading(p);
  }

  /** After a trailer that failed, reading on comes to what the trailer says, or nothing more can be read. */
  lemma TrailerFailedReading(was: Reading, p: seq<byte>, q: seq<byte>, jammed: bool) returns (now: Reading)
    requires MeansTrailer(was, p) && TrailerFailed(SkipTrailer(p, 0), q, jammed)
    ensures MeansChunks(now, q) && Fails(was, now, jammed) && !(was.clean && was.fits) && (now.clean ==> now.left.Some?)
  {
    assert was == TrailerReading(SkipTrailer(p, 0));
    now := ChunkReading(q);
  }

  /** What skipTrailer leaves where it throws: all it read is gone. */
  ghost predicate TrailerFailed(t: Trailer, q: seq<byte>, jammed: bool) {
    || (t.end.Overrun? && t.rest == q)
    || (t.end.Cut? && SplitLine(q).None?)
    || (!t.fits && jammed)
  }

  /** Whether the size line at the front is accepted, if the reads deliver the bytes in these sizes. */
  predicate SizeLineAccepted(buffered: seq<byte>, input: seq<byte>, sizes: nat -> nat) {
    var found := LineLoop(buffered, input, sizes, 0, MaxChunkSizeLine, 128);
    found.Found? && found.pos <= MaxChunkSizeLine
  }

  /** Up to 62 bytes always; 63 or 64 depending on the reads; more never. */
  lemma SizeLineAcceptedIff(p: seq<byte>, line: seq<byte>, rest: seq<byte>)
    requires SplitLine(p) == Some((line, rest))
    ensures (forall sizes :: SizeLineAccepted([], p, sizes)) <==> |line| <= 62
    ensures (exists sizes :: SizeLineAccepted([], p, sizes)) <==> |line| <= 64
  {
    assert [] + p == p;
    forall sizes ensures LineLoop([], p, sizes, 0, MaxChunkSizeLine, 128) in {Found(|line|), TooLong} {
      LoopFinds([], p, line, rest, sizes, 0, MaxChunkSizeLine, 128);
    }
    AcceptedAlwaysIff([], p, line, rest, MaxChunkSizeLine, 128);
    AcceptedSometimesIff([], p, line, rest, MaxChunkSizeLine, 128);
    if |line| <= 62 {
      forall sizes ensures SizeLineAccepted([], p, sizes) {
        assert LineLoop([], p, sizes, 0, MaxChunkSizeLine, 128) == Found(|line|);
      }
    }
    if |line| <= 64 {
      var sizes :| LineLoop([], p, sizes, 0, MaxChunkSizeLine, 128) == Found(|line|);
      assert SizeLineAccepted([], p, sizes);
    }
    if |line| > 62 {
      var sizes :| LineLoop([], p, sizes, 0, MaxChunkSizeLine, 128) != Found(|line|);
      assert !SizeLineAccepted([], p, sizes);
    }
  }

  // ---------------------------------------------------------------- the readers

  datatype Kind = Noop | ContentLength | Chunked | UntilClose
  datatype ChunkState = ReadSize | ReadData | Complete
  datatype TransferMode = ModeContentLength | ModeChunked | ModeUntilClose

  class Reader {
    const stream: ByteStream
    const buffer: StringBuffer
    const kind: Kind
    const contentLength: nat
    var bytesRead: nat
    var state: ChunkState
    var chunkSize: nat
    var chunkRead: nat
    var closed: bool
    var draining: bool
    ghost var now: Reading  // what is still to be read

    /** What the connection still holds: bytes buffered and bytes to come. */
    ghost function Bytes(): seq<byte>
      reads this, buffer, stream
      requires buffer.Valid()
    {
      buffer.Contents() + stream.input
    }

    predicate IsComplete()
      reads this
    {
      match kind
      case Noop => true
      case ContentLength => bytesRead >= contentLength
      case Chunked => state.Complete?
      case UntilClose => closed
    }

    ghost predicate Valid()
      reads this, buffer, stream
    {
      && buffer.Valid() && bytesRead <= contentLength && (now.clean ==> now.left.Some?)
      && (state.ReadData? ==> chunkRead <= chunkSize && (chunkRead == chunkSize ==> |Bytes()| < 2))
      && (IsComplete() ==> now == Reading(Some(Decoded([], Bytes())), true, true))
      && (kind.ContentLength? ==> MeansLength(now, Bytes(), contentLength - bytesRead))
      && (kind.Chunked? && state.ReadSize? ==> MeansChunks(now, Bytes()))
      && (kind.Chunked? && state.ReadData? ==> MeansData(now, Bytes(), chunkSize - chunkRead))
      && (kind.UntilClose? && !closed ==> now == Reading(Some(Decoded(Bytes(), [])), true, true))
    }

    /** So much is buffered without a CR LF that a chunk-size line is refused before anything is read. */
    ghost predicate Jammed()
      reads this, buffer
      requires buffer.Valid()
    {
      NoCrlf(buffer.Contents()) && |buffer.Contents()| >= MaxChunkSizeLine
    }

    /** No read will ever succeed again. */
    ghost predicate Stuck()
      reads this, buffer
      requires buffer.Valid()
    {
      kind.Chunked? && state.ReadSize? && Jammed()
    }

    /** BodyReader::create. */
    constructor (stream: ByteStream, buffer: StringBuffer, mode: TransferMode, contentLength: nat)
      requires buffer.Valid()
      ensures Valid() && this.stream == stream && this.buffer == buffer && !draining
      ensures now == BodyReading(mode, buffer.Contents() + stream.input, contentLength)
    {
      this.stream, this.buffer := stream, buffer;
      match mode {
        case ModeContentLength => kind := if contentLength == 0 then Noop else ContentLength;
        case ModeChunked => kind := Chunked;
        case ModeUntilClose => kind := UntilClose;
      }
      this.contentLength := contentLength;
      bytesRead, state, chunkSize, chunkRead, closed, draining := 0, ReadSize, 0, 0, false, false;
      now := BodyReading(mode, buffer.Contents() + stream.input, contentLength);
      new;
      assert Bytes()[..0] == [] && Bytes()[0..] == Bytes();
    }

    /** One line of the trailer: None while it goes on, then whether it ended well. */
    method SkipTrailerLine(lines: nat) returns (r: Option<bool>)
      requires buffer.Valid()
      modifies buffer, stream`input
      ensures buffer.Valid() && |Bytes()| <= old(|Bytes()|)
      ensures r.None? ==>
        var was, t := old(SkipTrailer(Bytes(), lines)), SkipTrailer(Bytes(), lines + 1);
        |Bytes()| < old(|Bytes()|) && was.end == t.end && was.rest == t.rest && (was.fits ==> t.fits)
      ensures r == Some(true) ==> old(SkipTrailer(Bytes(), lines)).end.Done? && old(SkipTrailer(Bytes(), lines)).rest == Bytes()
      ensures r == Some(false) ==> TrailerFailed(old(SkipTrailer(Bytes(), lines)), Bytes(), Jammed())
    {
      var line := TakeLine(stream, buffer, MaxTrailerLine, 128);
      r := if !line.Line? then Some(false)
      else if line.line == [] then Some(true)
      else if lines + 1 > MaxTrailerLines then Some(false)
      else None;
    }

    /** skipTrailer. */
    method SkipTrailerLines() returns (ok: bool)
      requires buffer.Valid()
      modifies buffer, stream`input
      ensures buffer.Valid() && |Bytes()| <= old(|Bytes()|)
      ensures ok ==> old(SkipTrailer(Bytes(), 0)).end.Done? && old(SkipTrailer(Bytes(), 0)).rest == Bytes()
      ensures !ok ==> TrailerFailed(old(SkipTrailer(Bytes(), 0)), Bytes(), Jammed())
    {
      var lines := 0;
      ghost var q := Bytes();
      ghost var t := SkipTrailer(q, 0);
      ghost var goal := t;
      while true
        invariant buffer.Valid() && q == Bytes() && |q| <= old(|Bytes()|)
        invariant t == SkipTrailer(q, lines) && goal.end == t.end && goal.rest == t.rest && (goal.fits ==> t.fits)
        decreases |q|
      {
        var done := SkipTrailerLine(lines);
        if done.Some? {
          return done.value;
        }
        q, lines := Bytes(), lines + 1;
        t := SkipTrailer(q, lines);
      }
    }

    /** The size line of a chunk: None where it cannot be read, and then nothing is consumed. */
    method ReadChunkSize() returns (n: Option<nat>, ghost sizes: nat -> nat)
      requires buffer.Valid()
      modifies buffer, stream`input
      ensures buffer.Valid()
      ensures n.Some? ==> SizeLine(old(Bytes()), n.value, Bytes())
      ensures n.None? ==> Bytes() == old(Bytes()) && NoSizeLine(Bytes())
      ensures old(Jammed()) ==> n.None? && Jammed()
      ensures !old(SizeLineAccepted(buffer.Contents(), stream.input, sizes)) ==> n.None?
    {
      ghost var b, input := buffer.Contents(), stream.input;
      var found;
      found, sizes := FindLine(stream, buffer, MaxChunkSizeLine, 128);
      LineFoundSays(buffer.Contents(), stream.input, found, MaxChunkSizeLine);
      JammedLoop(b, input, sizes, MaxChunkSizeLine, 128);
      if !found.Found? || found.pos > MaxChunkSizeLine {
        return None, sizes;
      }
      n := Stoul(buffer.Contents()[..found.pos], Hex);
      if n.Some? {
        buffer.Consume(found.pos + 2);
      }
    }

    /** What parseChunkSize does after a size of zero. */
    method EndChunks(ghost was: Reading) returns (ok: bool)
      requires buffer.Valid() && bytesRead <= contentLength && kind.Chunked? && state.ReadSize?
      requires MeansTrailer(was, Bytes())
      modifies this`state, this`now, buffer, stream`input
      ensures Valid() && |Bytes()| <= old(|Bytes()|)
      ensures ok ==> state.Complete? && Keeps(was, now)
      ensures !ok ==> state.ReadSize? && Fails(was, now, Stuck()) && !(was.clean && was.fits)
    {
      ghost var p := Bytes();
      ok := SkipTrailerLines();
      if ok {
        assert was == TrailerReading(SkipTrailer(p, 0));
        state, now := Complete, Reading(Some(Decoded([], Bytes())), true, true);
      } else {
        now := TrailerFailedReading(was, p, Bytes(), Jammed());
      }
    }

    /** parseChunkSize: false where it throws. It takes framing off the connection, no body. */
    method ParseChunkSize() returns (ok: bool)
      requires Valid() && kind.Chunked? && state.ReadSize?
      modifies this`state, this`chunkSize, this`chunkRead, this`now, buffer, stream`input
      ensures Valid() && |Bytes()| <= old(|Bytes()|)
      ensures ok ==> !state.ReadSize? && Keeps(old(now), now)
      ensures !ok ==> state.ReadSize? && Fails(old(now), now, Stuck()) && !(old(now).clean && old(now).fits)
      ensures !ok && old(now).left.Some? && old(now).fits ==> |Bytes()| < old(|Bytes()|)
      ensures old(Stuck()) ==> !ok && Stuck()
    {
      ghost var p, was := Bytes(), now;
      var n, sizes := ReadChunkSize();
      if n.None? {
        NoSizeLineReading(p, was);
        return false;
      }
      chunkSize, chunkRead := n.value, 0;
      ghost var mid := SizeLineReading(p, n.value, Bytes(), was);
      if n.value > 0 {
        state, now := ReadData, mid;
        return true;
      }
      ok := EndChunks(mid);
    }

    /** skipCRLF: any two bytes. */
    method SkipTwo() returns (ok: bool)
      requires buffer.Valid()
      modifies buffer, stream`input
      ensures buffer.Valid() && ok == (old(|Bytes()|) >= 2)
      ensures Bytes() == if ok then old(Bytes())[2..] else old(Bytes())
    {
      ghost var p := Bytes();
      while |buffer.Contents()| < 2
        invariant buffer.Valid() && Bytes() == p
        decreases |stream.input|
      {
        var n := buffer.Fill(stream, 128);
        if n == 0 {
          return false;
        }
      }
      buffer.Consume(2);
      ok := true;
    }

    /** From the buffer if it holds anything, otherwise straight from the stream. */
    method TakeSome(most: nat) returns (data: seq<byte>)
      requires buffer.Valid()
      modifies buffer, stream`input
      ensures buffer.Valid() && data + Bytes() == old(Bytes()) && |data| <= most
      ensures data == [] <==> most == 0 || old(Bytes()) == []
      ensures most == 0 ==> buffer.Contents() == old(buffer.Contents())
    {
      var available := |buffer.Contents()|;
      if available > 0 {
        var n := if available < most then available else most;
        data := buffer.Contents()[..n];
        buffer.Consume(n);
      } else {
        data := stream.Read(most);
      }
    }

    /** The end of a chunk: false where the two bytes after its data are missing. */
    method EndChunk() returns (ok: bool)
      requires buffer.Valid() && bytesRead <= contentLength && kind.Chunked? && state.ReadData? && chunkRead == chunkSize
      requires MeansData(now, Bytes(), 0)
      modifies this`state, buffer, stream`input
      ensures Valid() && |Bytes()| <= old(|Bytes()|) && ok == state.ReadSize? && ok == (old(|Bytes()|) >= 2)
      ensures !ok ==> state.ReadData? && now == Reading(None, false, true)
    {
      DataDone(now, Bytes());
      ok := SkipTwo();
      if ok {
        state := ReadSize;
      }
    }

    /** Some of a chunk's data: None where the connection ends before it. */
    method TakeChunkData(len: nat) returns (r: Option<seq<byte>>)
      requires buffer.Valid() && chunkRead <= chunkSize && MeansData(now, Bytes(), chunkSize - chunkRead)
      modifies this`chunkRead, this`now, buffer, stream`input
      ensures buffer.Valid() && chunkRead <= chunkSize && MeansData(now, Bytes(), chunkSize - chunkRead)
      ensures old(now) == Before(if r.Some? then r.value else [], now) && (now.clean ==> now.left.Some?)
      ensures r.Some? ==> |Bytes()| + |r.value| == old(|Bytes()|) && |r.value| <= len && chunkRead == old(chunkRead) + |r.value|
      ensures r.Some? && r.value == [] ==> len == 0 || chunkRead == chunkSize
      ensures r.None? ==> Bytes() == old(Bytes()) && chunkRead == old(chunkRead)
      ensures old(|Bytes()|) < chunkSize - old(chunkRead) + 2 ==> old(now) == Reading(None, false, true)
      ensures r.None? && len > 0 && chunkRead < chunkSize ==> Bytes() == []
    {
      ghost var p := Bytes();
      var size := chunkSize - chunkRead;
      var data := TakeSome(if size < len then size else len);
      now := DataTaken(now, p, size, data, Bytes());
      if data == [] && |buffer.Contents()| == 0 {
        assert data + Bytes() == Bytes();
        return None;
      }
      chunkRead := chunkRead + |data|;
      r := Some(data);
    }

    /** The part of ChunkedReader::readImpl after the chunk size is known. */
    method ReadChunkData(len: nat) returns (r: Option<seq<byte>>)
      requires Valid() && kind.Chunked? && state.ReadData?
      modifies this`state, this`chunkRead, this`now, buffer, stream`input
      ensures Valid() && |Bytes()| <= old(|Bytes()|) && !state.Complete?
      ensures r.Some? ==> old(now) == Before(r.value, now) && |Bytes()| + |r.value| <= old(|Bytes()|) && |r.value| <= len
      ensures r.Some? && len > 0 ==> r.value != []
      ensures r.None? ==> now == old(now) && (len > 0 ==> now.left.None?)
    {
      ghost var was := now;
      r := TakeChunkData(len);
      PrependNothing(now.left);
      if r.Some? && chunkRead >= chunkSize {
        var ok := EndChunk();
        if !ok {
          return None;
        }
      }
    }

    /** ChunkedReader::readImpl; None where it throws. */
    method ReadChunked(len: nat) returns (r: Option<seq<byte>>)
      requires Valid() && kind.Chunked?
      modifies this`state, this`chunkSize, this`chunkRead, this`now, buffer, stream`input
      ensures Valid() && |Bytes()| <= old(|Bytes()|)
      ensures r.Some? ==> Keeps(old(now), Before(r.value, now)) && |Bytes()| + |r.value| <= old(|Bytes()|)
      ensures r.Some? ==> |r.value| <= len && (len > 0 ==> (r.value == [] <==> IsComplete()))
      ensures r.None? ==> Fails(old(now), now, Stuck()) && (len > 0 ==> !(old(now).clean && old(now).fits))
      ensures r.None? && len > 0 && old(now).left.Some? && old(now).fits ==> |Bytes()| < old(|Bytes()|)
      ensures old(Stuck()) ==> r.None? && Stuck()
    {
      PrependNothing(now.left);
      if state.Complete? {
        return Some([]);
      }
      if state.ReadSize? {
        var ok := ParseChunkSize();
        PrependNothing(now.left);
        if !ok {
          return None;
        }
        if state.Complete? {
          return Some([]);
        }
      }
      r := ReadChunkData(len);
    }

    /** ContentLengthReader::readImpl. */
    method ReadLength(len: nat) returns (r: Option<seq<byte>>)
      requires Valid() && kind.ContentLength?
      modifies this`bytesRead, this`now, buffer, stream`input
      ensures Valid() && |Bytes()| <= old(|Bytes()|)
      ensures r.Some? ==> old(now) == Before(r.value, now) && |Bytes()| + |r.value| <= old(|Bytes()|)
      ensures r.Some? ==> |r.value| <= len && (len > 0 && r.value == [] ==> IsComplete())
      ensures r.None? ==> now == old(now) && (len > 0 ==> now.left.None?)
    {
      PrependNothing(now.left);
      if bytesRead >= contentLength {
        return Some([]);
      }
      ghost var p := Bytes();
      var size := contentLength - bytesRead;
      var data := TakeSome(if len < size then len else size);
      ghost var next := LengthTaken(now, p, size, data, Bytes());
      if data == [] && |buffer.Contents()| == 0 {
        assert data + Bytes() == Bytes();
        return None;
      }
      bytesRead, now := bytesRead + |data|, next;
      r := Some(data);
    }

    /** UntilCloseReader::readImpl. A read of no bytes on an empty buffer closes it. */
    method ReadUntilClose(len: nat) returns (data: seq<byte>)
      requires Valid() && kind.UntilClose?
      modifies this`closed, this`now, buffer, stream`input
      ensures Valid() && |data| <= len && |Bytes()| + |data| <= old(|Bytes()|)
      ensures len > 0 ==> old(now) == Before(data, now) && (data == [] <==> IsComplete())
      ensures len == 0 ==> Bytes() == old(Bytes()) && IsComplete() == (old(IsComplete()) || old(buffer.Contents()) == [])
    {
      PrependNothing(now.left);
      if closed {
        return [];
      }
      data := TakeSome(len);
      if data == [] && |buffer.Contents()| == 0 {
        assert data + Bytes() == Bytes();
        closed := true;
        now := Reading(Some(Decoded([], Bytes())), true, true);
      } else {
        now := Reading(Some(Decoded(Bytes(), [])), true, true);
      }
    }

    /** readImpl of whichever reader this is. */
    method ReadImpl(len: nat) returns (r: Option<seq<byte>>)
      requires Valid()
      modifies this`bytesRead, this`state, this`chunkSize, this`chunkRead, this`closed, this`now, buffer, stream`input
      ensures Valid() && |Bytes()| <= old(|Bytes()|)
      ensures r.Some? ==> |r.value| <= len && |Bytes()| + |r.value| <= old(|Bytes()|)
      ensures r.Some? && len > 0 ==> Keeps(old(now), Before(r.value, now)) && (r.value == [] ==> IsComplete())
      ensures r.None? ==> Fails(old(now), now, Stuck()) && (len > 0 ==> !(old(now).clean && old(now).fits))
      ensures r.None? && len > 0 && old(now).left.Some? && old(now).fits ==> |Bytes()| < old(|Bytes()|)
      ensures old(Stuck()) ==> r.None? && Stuck()
    {
      match kind {
        case Noop =>
          PrependNothing(now.left);
          r := Some([]);
        case ContentLength =>
          r := ReadLength(len);
        case Chunked =>
          r := ReadChunked(len);
        case UntilClose =>
          var data := ReadUntilClose(len);
          r := Some(data);
      }
    }

    /** BodyReader::read. After a failure it may be called again. */
    method Read(len: nat) returns (r: Option<seq<byte>>)
      requires Valid()
      modifies this`bytesRead, this`state, this`chunkSize, this`chunkRead, this`closed, this`now, buffer, stream`input
      ensures Valid() && |Bytes()| <= old(|Bytes()|)
      ensures draining ==> r == Some([]) && now == old(now) && Bytes() == old(Bytes())
      ensures r.Some? ==> |r.value| <= len && |Bytes()| + |r.value| <= old(|Bytes()|)
      ensures r.Some? && len > 0 ==> Keeps(old(now), Before(r.value, now)) && (r.value == [] ==> draining || IsComplete())
      ensures r.None? ==> Fails(old(now), now, Stuck()) && (len > 0 ==> !(old(now).clean && old(now).fits))
      ensures r.None? && len > 0 && old(now).left.Some? && old(now).fits ==> |Bytes()| < old(|Bytes()|)
      ensures old(Stuck()) && !draining ==> r.None? && Stuck()
    {
      PrependNothing(now.left);
      if draining || IsComplete() {
        return Some([]);
      }
      r := ReadImpl(len);
    }

    /** One read after others that gave `gone`. */
    method ReadMore(len: nat, ghost was: Reading, ghost gone: seq<byte>) returns (r: Option<seq<byte>>)
      requires Valid() && len > 0 && Keeps(was, Before(gone, now))
      modifies this`bytesRead, this`state, this`chunkSize, this`chunkRead, this`closed, this`now, buffer, stream`input
      ensures Valid()
      ensures r.Some? ==> Keeps(was, Before(gone + r.value, now)) && |r.value| <= len && |Bytes()| + |r.value| <= old(|Bytes()|)
      ensures r.Some? ==> (r.value == [] ==> draining || IsComplete()) && (draining ==> r.value == [])
      ensures r.None? ==> !(was.clean && was.fits)
    {
      r := Read(len);
      if r.Some? {
        PrependPrepend(gone, r.value, now.left);
      }
    }

    /** One round of drain. */
    method DrainSome(ghost was: Reading, ghost gone: seq<byte>) returns (r: Option<seq<byte>>)
      requires Valid() && Keeps(was, Before(gone, now))
      modifies this`bytesRead, this`state, this`chunkSize, this`chunkRead, this`closed, this`now, buffer, stream`input
      ensures Valid() && (old(Stuck()) ==> r.None?)
      ensures r.Some? ==> Keeps(was, Before(gone + r.value, now)) && |Bytes()| + |r.value| <= old(|Bytes()|)
      ensures r.Some? && r.value == [] ==> IsComplete()
      ensures r.None? ==> !(was.clean && was.fits)
    {
      r := ReadImpl(4096);
      if r.Some? {
        PrependPrepend(gone, r.value, now.left);
      }
    }

    /** BodyReader::drain: false where it throws. What is left is what followed the body. */
    method Drain() returns (ok: bool)
      requires Valid()
      modifies this`draining, this`bytesRead, this`state, this`chunkSize, this`chunkRead, this`closed, this`now
      modifies buffer, stream`input
      ensures Valid() && draining
      ensures ok ==> IsComplete() && !old(Stuck()) && old(now).left.Some? && Bytes() == old(now).left.value.rest
      ensures !ok ==> !(old(now).clean && old(now).fits)
    {
      draining := true;
      ghost var was, stuck, gone := now, Stuck(), [];
      PrependNothing(now.left);
      while !IsComplete()
        invariant Valid() && draining && Keeps(was, Before(gone, now)) && (stuck ==> Stuck())
        decreases |Bytes()|
      {
        var data := DrainSome(was, gone);
        if data.None? {
          return false;
        }
        gone := gone + data.value;
        if data.value == [] {
          break;
        }
      }
      ok := true;
    }

    /** readToEnd: appends the whole body to `out` and stops at its last byte. */
    method ReadToEnd(out: StringBuffer) returns (total: Option<nat>)
      requires Valid() && out.Valid() && out != buffer
      modifies this`bytesRead, this`state, this`chunkSize, this`chunkRead, this`closed, this`now
      modifies out, buffer, stream`input
      ensures Valid() && out.Valid()
      ensures total.Some? && draining ==> total.value == 0 && out.Contents() == old(out.Contents())
      ensures total.Some? && !draining ==>
        && old(now).left.Some? && Bytes() == old(now).left.value.rest
        && out.Contents() == old(out.Contents()) + old(now).left.value.body
        && total.value == |old(now).left.value.body|
      ensures total.None? ==> !(old(now).clean && old(now).fits)
    {
      ghost var was, gone: seq<byte>, start := now, [], out.Contents();
      PrependNothing(now.left);
      var n := 0;
      while !IsComplete()
        invariant Valid() && out.Valid() && Keeps(was, Before(gone, now))
        invariant out.Contents() == start + gone && n == |gone| && (draining ==> gone == [])
        decreases |Bytes()|
      {
        var available := out.Room(4096, 8192);
        var data := ReadMore(available, was, gone);
        if data.None? {
          return None;
        }
        if data.value == [] {
          assert gone + [] == gone;
          break;
        }
        out.Append(data.value);
        assert start + gone + data.value == start + (gone + data.value);
        gone, n := gone + data.value, n + |data.value|;
      }
      assert gone + [] == gone;
      total := Some(n);
    }
  }
}
