/** What the chunked reader makes of a body laid out as in section 4.1 of RFC 7230, extensions and trailer included. */
module ChunkText {
  import opened Prelude
  import opened Wire
  import opened Numbers
  import opened NumberText
  import opened BodyReader

  type bytes = seq<byte>

  /** A size in digits of either case, with an extension or none; the data; and the two bytes after it, which are not looked at. */
  datatype Chunk = Chunk(size: bytes, ext: bytes, data: bytes, after: bytes)

  /** A size line of n. */
  ghost predicate SaysSize(size: bytes, ext: bytes, n: nat) {
    && size != [] && AllDigits(size, Hex) && Value(size, Hex) == n < 0x1_0000_0000_0000_0000
    && (ext == [] || ext[0] == Ascii(";")[0]) && NoCrlf(size + ext)
  }

  ghost predicate GoodChunk(c: Chunk) {
    SaysSize(c.size, c.ext, |c.data|) && |c.size + c.ext| <= 64 && c.data != [] && |c.after| == 2
  }

  ghost predicate GoodChunks(chunks: seq<Chunk>) {
    forall i {:trigger chunks[i]} :: 0 <= i < |chunks| ==> GoodChunk(chunks[i])
  }

  /** A chunk, then other bytes. */
  function OneBytes(c: Chunk, rest: bytes): bytes {
    (c.size + c.ext) + CRLF + (c.data + (c.after + rest))
  }

  /** The chunks from i on, then other bytes. */
  function ChunkBytes(chunks: seq<Chunk>, i: nat, tail: bytes): bytes
    decreases |chunks| - i
  {
    if i >= |chunks| then tail else OneBytes(chunks[i], ChunkBytes(chunks, i + 1, tail))
  }

  function ChunkData(chunks: seq<Chunk>, i: nat): bytes
    decreases |chunks| - i
  {
    if i >= |chunks| then [] else chunks[i].data + ChunkData(chunks, i + 1)
  }

  /** A size line is read to its size. */
  lemma SizeIsRead(size: bytes, ext: bytes, n: nat)
    requires SaysSize(size, ext, n)
    ensures Stoul(size + ext, Hex) == Some(n)
  {
    assert Ascii(";") == [59];
    assert !HasHexPrefix(size + ext) by {
      if |size| > 1 {
        assert IsDigit(size[1], Hex) && (size + ext)[1] == size[1];
      }
    }
    StoulReads([], [], [], size, ext, Hex);
    assert [] + ([] + ([] + (size + ext))) == size + ext;
  }

  /** One chunk off the front; a size line of more than 64 bytes is refused. */
  lemma OneChunk(c: Chunk, rest: bytes)
    requires SaysSize(c.size, c.ext, |c.data|) && c.data != [] && |c.after| == 2
    ensures DecodeChunks(OneBytes(c, rest)) ==
      if |c.size + c.ext| <= 64 then Prepend(c.data, DecodeChunks(rest)) else None
  {
    var p := c.data + (c.after + rest);
    SplitLineJoin(c.size + c.ext, p);
    SizeIsRead(c.size, c.ext, |c.data|);
    DataOff(c, rest, p);
  }

  lemma DataOff(c: Chunk, rest: bytes, p: bytes)
    requires p == c.data + (c.after + rest) && c.data != [] && |c.after| == 2
    ensures DecodeSized(p, |c.data|) == Prepend(c.data, DecodeChunks(rest))
  {
    var n := |c.data|;
    assert p[..n] == c.data && p[n + 2..] == rest;
    assert DecodeSized(p, n) == DecodeData(p, n);
  }

  ghost predicate IsSkip(skip: (bytes, nat) -> Trailer) {
    forall p, n {:trigger skip(p, n)} :: skip(p, n) == SkipTrailer(p, n)
  }

  lemma TrailerStep(line: bytes, rest: bytes, n: nat, skip: (bytes, nat) -> Trailer)
    requires IsSkip(skip) && NoCrlf(line)
    ensures line == [] ==> skip(line + CRLF + rest, n) == Trailer(Done, rest, true)
    ensures line != [] && n < 128 ==> skip(line + CRLF + rest, n) == skip(rest, n + 1).(fits := |line| + 2 <= 8192 && skip(rest, n + 1).fits)
  {
    SplitLineJoin(line, rest);
  }

  ghost predicate ShortLines(lines: seq<bytes>, i: nat) {
    forall k {:trigger lines[k]} :: i <= k < |lines| ==> |lines[k]| + 2 <= 8192
  }

  lemma {:induction false} SkippedFrom(lines: seq<bytes>, i: nat, tail: bytes, skip: (bytes, nat) -> Trailer)
    requires IsSkip(skip) && TrailerLines(lines) && i <= |lines| <= 128
    ensures skip(Joined(lines, i, CRLF + tail), i) == Trailer(Done, tail, ShortLines(lines, i))
    decreases |lines| - i
  {
    if i < |lines| {
      TrailerStep(lines[i], Joined(lines, i + 1, CRLF + tail), i, skip);
      SkippedFrom(lines, i + 1, tail, skip);
    } else {
      TrailerStep([], tail, i, skip);
      assert [] + CRLF + tail == CRLF + tail;
    }
  }

  /** A trailer is skipped up to its empty line, if it has no more than 128 lines, and fits any read if none has more than 8192 bytes. */
  lemma TrailerSkipped(lines: seq<bytes>, tail: bytes)
    requires TrailerLines(lines) && |lines| <= 128
    ensures SkipTrailer(Joined(lines, 0, CRLF + tail), 0) == Trailer(Done, tail, ShortLines(lines, 0))
  {
    SkippedFrom(lines, 0, tail, (p: bytes, n: nat) => SkipTrailer(p, n));
  }

  /** The last size line and the trailer. */
  lemma LastChunk(size: bytes, ext: bytes, lines: seq<bytes>, tail: bytes)
    requires SaysSize(size, ext, 0) && |size + ext| <= 64 && TrailerLines(lines) && |lines| <= 128
    ensures DecodeChunks((size + ext) + CRLF + Joined(lines, 0, CRLF + tail)) == Some(Decoded([], tail))
  {
    SplitLineJoin(size + ext, Joined(lines, 0, CRLF + tail));
    SizeIsRead(size, ext, 0);
    TrailerSkipped(lines, tail);
  }

  /** The decoder takes one chunk after the other. */
  ghost predicate TakesChunks(decode: bytes -> Option<Decoded>) {
    forall c, rest {:trigger OneBytes(c, rest)} :: GoodChunk(c) ==> decode(OneBytes(c, rest)) == Prepend(c.data, decode(rest))
  }

  lemma {:induction false} ChunksBefore(chunks: seq<Chunk>, i: nat, end: bytes, tail: bytes, decode: bytes -> Option<Decoded>)
    requires GoodChunks(chunks) && i <= |chunks| && TakesChunks(decode) && decode(end) == Some(Decoded([], tail))
    ensures decode(ChunkBytes(chunks, i, end)) == Some(Decoded(ChunkData(chunks, i), tail))
    decreases |chunks| - i
  {
    if i < |chunks| {
      ChunksBefore(chunks, i + 1, end, tail, decode);
    }
  }

  /** Any chunks, a last one of size zero and any trailer of up to 128 lines are decoded to the data of the chunks and what follows. */
  lemma ChunkedIs(chunks: seq<Chunk>, size: bytes, ext: bytes, lines: seq<bytes>, tail: bytes)
    requires GoodChunks(chunks) && SaysSize(size, ext, 0) && |size + ext| <= 64 && TrailerLines(lines) && |lines| <= 128
    ensures
      var last := (size + ext) + CRLF + Joined(lines, 0, CRLF + tail);
      DecodeChunks(ChunkBytes(chunks, 0, last)) == Some(Decoded(ChunkData(chunks, 0), tail))
  {
    LastChunk(size, ext, lines, tail);
    forall c, rest {:trigger OneBytes(c, rest)} | GoodChunk(c) ensures DecodeChunks(OneBytes(c, rest)) == Prepend(c.data, DecodeChunks(rest)) {
      OneChunk(c, rest);
    }
    ChunksBefore(chunks, 0, (size + ext) + CRLF + Joined(lines, 0, CRLF + tail), tail, p => DecodeChunks(p));
  }
}
