/**
 * Message bodies onto the wire: the chunked, content-length and close-delimited writers
 * (ChunkedWriter.cc, ContentLengthWriter.cc, UntilCloseWriter.cc), and what the readers
 * make of what they write.
 */
module BodyWriter {
  import opened Prelude
  import opened Wire
  import opened Numbers
  import opened BodyReader

  /** Longest chunk whose size line fits the 16-byte buffer it is printed into: 13 digits, CR, LF, NUL. */
  const MaxChunk := 0xF_FFFF_FFFF_FFFF

  const LastChunk: seq<byte> := [48] + CRLF + CRLF

  predicate ChunksFit(pieces: seq<seq<byte>>) {
    forall i :: 0 <= i < |pieces| ==> |pieces[i]| <= MaxChunk
  }

  function Chunk(data: seq<byte>): seq<byte> {
    if data == [] then [] else Digits(|data|, Hex) + CRLF + data + CRLF
  }

  function Piece(mode: TransferMode, data: seq<byte>): seq<byte> {
    if mode.ModeChunked? then Chunk(data) else data
  }

  function Written(mode: TransferMode, pieces: seq<seq<byte>>): seq<byte> {
    if pieces == [] then [] else Written(mode, pieces[..|pieces| - 1]) + Piece(mode, pieces[|pieces| - 1])
  }

  function Terminator(mode: TransferMode): seq<byte> {
    if mode.ModeChunked? then LastChunk else []
  }

  /** What the pieces written in a given mode look like on the wire, up to and including end(). */
  function Body(mode: TransferMode, pieces: seq<seq<byte>>): seq<byte> {
    Written(mode, pieces) + Terminator(mode)
  }

  function Flatten(pieces: seq<seq<byte>>): seq<byte> {
    if pieces == [] then [] else Flatten(pieces[..|pieces| - 1]) + pieces[|pieces| - 1]
  }

  lemma WrittenMore(mode: TransferMode, start: seq<byte>, pieces: seq<seq<byte>>, i: nat)
    requires i < |pieces|
    ensures start + Written(mode, pieces[..i + 1]) == start + Written(mode, pieces[..i]) + Piece(mode, pieces[i])
  {
    assert pieces[..i + 1][..i] == pieces[..i];
  }

  lemma WrittenAll(mode: TransferMode, start: seq<byte>, pieces: seq<seq<byte>>)
    ensures start + Written(mode, pieces[..|pieces|]) + Terminator(mode) == start + Body(mode, pieces)
  {
    assert pieces[..|pieces|] == pieces;
  }

  class Writer {
    const stream: ByteStream
    const mode: TransferMode

    /** BodyWriter::create. */
    constructor (mode: TransferMode, stream: ByteStream)
      ensures this.mode == mode && this.stream == stream
    {
      this.mode, this.stream := mode, stream;
    }

    method Write(data: seq<byte>)
      requires |data| <= MaxChunk
      modifies stream`output
      ensures stream.output == old(stream.output) + Piece(mode, data)
    {
      if mode.ModeChunked? {
        if data == [] {
          return;
        }
        var chunk := Digits(|data|, Hex) + CRLF;
        chunk := chunk + data;
        chunk := chunk + CRLF;
        stream.Write(chunk);
      } else {
        stream.Write(data);
      }
    }

    method End()
      modifies stream`output
      ensures stream.output == old(stream.output) + Terminator(mode)
    {
      if mode.ModeChunked? {
        stream.Write(LastChunk);
      }
    }
  }

  /** write for each piece, then end. */
  method WriteBody(writer: Writer, pieces: seq<seq<byte>>)
    requires ChunksFit(pieces)
    modifies writer.stream`output
    ensures writer.stream.output == old(writer.stream.output) + Body(writer.mode, pieces)
  {
    ghost var start := writer.stream.output;
    var i := 0;
    while i < |pieces|
      invariant i <= |pieces| && writer.stream.output == start + Written(writer.mode, pieces[..i])
    {
      WrittenMore(writer.mode, start, pieces, i);
      writer.Write(pieces[i]);
      i := i + 1;
    }
    writer.End();
    WrittenAll(writer.mode, start, pieces);
  }

  // ---------------------------------------------------------------- round trips

  lemma NoCrlfInDigits(n: nat)
    ensures NoCrlf(Digits(n, Hex))
  {
    var s := Digits(n, Hex);
    forall j | 0 <= j < |s| ensures !CrlfAt(s, j) { assert IsDigit(s[j], Hex); }
  }

  /** A chunk in front of an encoded body puts its data in front of the decoded one. */
  lemma ReadChunk(data: seq<byte>, p: seq<byte>)
    requires |data| <= MaxChunk
    ensures ChunkReading(Chunk(data) + p) == Before(data, ChunkReading(p))
  {
    if data == [] {
      assert Chunk(data) + p == p;
      PrependNothing(ChunkReading(p).left);
    } else {
      var line, after := Digits(|data|, Hex), data + CRLF + p;
      assert Chunk(data) + p == line + CRLF + after;
      NoCrlfInDigits(|data|);
      SplitLineJoin(line, after);
      assert Pow(Hex, 13) == 0x10_0000_0000_0000;
      StoulOfDigits(|data|, Hex);
      DigitsLength(|data|, Hex, 13);
      assert after[..|data|] == data && after[|data| + 2..] == p;
      assert SizedReading(after, |data|) == DataReading(after, |data|);
    }
  }

  lemma DecodeChunk(data: seq<byte>, p: seq<byte>)
    requires |data| <= MaxChunk
    ensures DecodeChunks(Chunk(data) + p) == Prepend(data, DecodeChunks(p))
  {
    ReadChunk(data, p);
    ChunkReadingDecodes(p);
    ChunkReadingDecodes(Chunk(data) + p);
  }

  lemma ReadLastChunk(tail: seq<byte>)
    ensures ChunkReading(LastChunk + tail) == Reading(Some(Decoded([], tail)), true, true)
  {
    var zero: seq<byte> := [48];
    assert Digits(0, Hex) == zero;
    StoulOfDigits(0, Hex);
    assert LastChunk + tail == zero + CRLF + (CRLF + tail);
    NoCrlfInDigits(0);
    SplitLineJoin(zero, CRLF + tail);
    assert CRLF + tail == [] + CRLF + tail;
    SplitLineJoin([], tail);
  }

  lemma {:induction false} ReadAllChunks(pieces: seq<seq<byte>>, p: seq<byte>)
    requires ChunksFit(pieces)
    ensures ChunkReading(Written(ModeChunked, pieces) + p) == Before(Flatten(pieces), ChunkReading(p))
  {
    if pieces == [] {
      assert [] + p == p;
      PrependNothing(ChunkReading(p).left);
    } else {
      var front, last := pieces[..|pieces| - 1], pieces[|pieces| - 1];
      var q := Chunk(last) + p;
      assert Written(ModeChunked, pieces) + p == Written(ModeChunked, front) + q;
      ReadAllChunks(front, q);
      ReadChunk(last, p);
      PrependPrepend(Flatten(front), last, ChunkReading(p).left);
    }
  }

  /** The chunked reader undoes the chunked writer and stops at the byte after the terminator. */
  lemma ChunkedRoundTrip(pieces: seq<seq<byte>>, tail: seq<byte>)
    requires ChunksFit(pieces)
    ensures DecodeChunks(Body(ModeChunked, pieces) + tail) == Some(Decoded(Flatten(pieces), tail))
    ensures ChunkReading(Body(ModeChunked, pieces) + tail) == Reading(Some(Decoded(Flatten(pieces), tail)), true, true)
  {
    ReadAllChunks(pieces, LastChunk + tail);
    ReadLastChunk(tail);
    assert Body(ModeChunked, pieces) + tail == Written(ModeChunked, pieces) + (LastChunk + tail);
    assert Flatten(pieces) + [] == Flatten(pieces);
    ChunkReadingDecodes(Body(ModeChunked, pieces) + tail);
  }

  lemma {:induction false} WrittenPlainly(mode: TransferMode, pieces: seq<seq<byte>>)
    requires !mode.ModeChunked?
    ensures Written(mode, pieces) == Flatten(pieces)
  {
    if pieces != [] {
      WrittenPlainly(mode, pieces[..|pieces| - 1]);
    }
  }

  /** A reader of the same mode undoes the writer, and leaves what follows. */
  lemma BodyRoundTrip(mode: TransferMode, pieces: seq<seq<byte>>, tail: seq<byte>)
    requires ChunksFit(pieces) && (mode.ModeUntilClose? ==> tail == [])
    ensures DecodeBody(mode, Body(mode, pieces) + tail, |Flatten(pieces)|) == Some(Decoded(Flatten(pieces), tail))
    ensures BodyReading(mode, Body(mode, pieces) + tail, |Flatten(pieces)|) == Reading(Some(Decoded(Flatten(pieces), tail)), true, true)
  {
    if mode.ModeChunked? {
      ChunkedRoundTrip(pieces, tail);
    } else {
      var all := Flatten(pieces);
      WrittenPlainly(mode, pieces);
      assert Body(mode, pieces) == all;
      assert (all + tail)[..|all|] == all && (all + tail)[|all|..] == tail;
    }
  }

  /** Reads a body into caller buffers of any positive sizes, until a read returns nothing. */
  method ReadPieces(reader: Reader, size: nat -> nat) returns (body: Option<seq<byte>>)
    requires reader.Valid() && !reader.draining && forall i :: size(i) > 0
    modifies reader, reader.buffer, reader.stream`input
    ensures reader.Valid()
    ensures body.Some? ==> reader.IsComplete() && old(reader.now).left == Some(Decoded(body.value, reader.Bytes()))
    ensures body.None? ==> !(old(reader.now).clean && old(reader.now).fits)
  {
    ghost var was := reader.now;
    PrependNothing(reader.now.left);
    var gone, i := [], 0;
    while true
      invariant reader.Valid() && !reader.draining && Keeps(was, Before(gone, reader.now))
      decreases |reader.Bytes()|
    {
      var data := reader.ReadMore(size(i), was, gone);
      if data.None? {
        return None;
      }
      gone, i := gone + data.value, i + 1;
      if data.value == [] {
        assert gone + [] == gone;
        return Some(gone);
      }
    }
  }

  /** Every chunked body, however the writes, the network and the reads cut it, arrives whole. */
  method Transfer(pieces: seq<seq<byte>>, tail: seq<byte>, size: nat -> nat) returns (body: Option<seq<byte>>, left: seq<byte>)
    requires ChunksFit(pieces) && forall i :: size(i) > 0
    ensures body == Some(Flatten(pieces)) && left == tail
  {
    var wire := new ByteStream([]);
    var writer := new Writer(ModeChunked, wire);
    WriteBody(writer, pieces);
    assert wire.output == Body(ModeChunked, pieces);
    var peer := new ByteStream(wire.output + tail);
    var buffer := new StringBuffer();
    assert buffer.Contents() + peer.input == Body(ModeChunked, pieces) + tail;
    ChunkedRoundTrip(pieces, tail);
    var reader := new Reader(peer, buffer, ModeChunked, 0);
    body := ReadPieces(reader, size);
    left := buffer.Contents() + peer.input;
  }
}
