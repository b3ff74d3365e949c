/**
 * WsConnection.cc: frames of sections 5.2 to 5.5 of RFC 6455, received from a stream that
 * delivers bytes as it pleases, and sent whole.
 */
module WebSocket {
  import opened Prelude
  import opened Wire

  type bytes = seq<byte>

  const Continuation := 0
  const Text := 1
  const Binary := 2
  const Close := 8
  const Ping := 9
  const Pong := 10

  // ---------------------------------------------------------------- bytes

  /** Bitwise exclusive or of the lowest n bits. */
  function XorBits(a: nat, b: nat, n: nat): nat {
    if n == 0 then 0 else 2 * XorBits(a / 2, b / 2, n - 1) + (a % 2 + b % 2) % 2
  }

  function Pow2(n: nat): nat {
    if n == 0 then 1 else 2 * Pow2(n - 1)
  }

  lemma {:induction false} XorBitsBound(a: nat, b: nat, n: nat)
    ensures XorBits(a, b, n) < Pow2(n)
  {
    if n > 0 {
      XorBitsBound(a / 2, b / 2, n - 1);
    }
  }

  lemma {:induction false} XorBitsTwice(a: nat, b: nat, n: nat)
    requires a < Pow2(n)
    ensures XorBits(XorBits(a, b, n), b, n) == a
  {
    if n > 0 {
      var x := XorBits(a, b, n);
      assert x / 2 == XorBits(a / 2, b / 2, n - 1) && x % 2 == (a % 2 + b % 2) % 2;
      XorBitsTwice(a / 2, b / 2, n - 1);
      BitTwice(a, b);
    }
  }

  lemma BitTwice(a: nat, b: nat)
    ensures ((a % 2 + b % 2) % 2 + b % 2) % 2 == a % 2
  {
  }

  function Xor(a: byte, b: byte): byte {
    XorBitsBound(a as nat, b as nat, 8);
    assert Pow2(8) == 256;
    XorBits(a as nat, b as nat, 8) as byte
  }

  lemma XorTwice(a: byte, b: byte)
    ensures Xor(Xor(a, b), b) == a
  {
    assert Pow2(8) == 256;
    XorBitsTwice(a as nat, b as nat, 8);
  }

  /** A payload under a mask key; the same again takes it off. */
  function Masked(key: bytes, data: bytes): bytes
    requires |key| == 4
  {
    seq(|data|, i requires 0 <= i < |data| => Xor(data[i], key[i % 4]))
  }

  lemma MaskedTwice(key: bytes, data: bytes)
    requires |key| == 4
    ensures Masked(key, Masked(key, data)) == data
  {
    forall i | 0 <= i < |data| ensures Masked(key, Masked(key, data))[i] == data[i] { XorTwice(data[i], key[i % 4]); }
  }

  /** Bit k of a number. */
  function Bit(v: nat, k: nat): nat {
    if k == 0 then v % 2 else Bit(v / 2, k - 1)
  }

  lemma {:induction false} XorBitsIs(a: nat, b: nat, n: nat, k: nat)
    requires k < n
    ensures Bit(XorBits(a, b, n), k) == 1 <==> Bit(a, k) != Bit(b, k)
    decreases k
  {
    var x := XorBits(a / 2, b / 2, n - 1);
    assert XorBits(a, b, n) / 2 == x && XorBits(a, b, n) % 2 == (a % 2 + b % 2) % 2;
    if k > 0 {
      XorBitsIs(a / 2, b / 2, n - 1, k - 1);
    }
  }

  /** A masked byte differs from the byte in exactly the one-bits of the byte of the key in its turn. */
  lemma MaskedIs(key: bytes, data: bytes, i: nat, k: nat)
    requires |key| == 4 && i < |data| && k < 8
    ensures |Masked(key, data)| == |data|
    ensures Bit(Masked(key, data)[i] as nat, k) != Bit(data[i] as nat, k) <==> Bit(key[i % 4] as nat, k) == 1
  {
    XorBitsIs(data[i] as nat, key[i % 4] as nat, 8, k);
    BitIsBit(data[i] as nat, k);
    BitIsBit(key[i % 4] as nat, k);
    BitIsBit(Masked(key, data)[i] as nat, k);
  }

  lemma {:induction false} BitIsBit(v: nat, k: nat)
    ensures Bit(v, k) == 0 || Bit(v, k) == 1
  {
    if k > 0 {
      BitIsBit(v / 2, k - 1);
    }
  }

  /** The value of big-endian bytes. */
  function BigEndian(s: bytes): nat {
    if s == [] then 0 else 256 * BigEndian(s[..|s| - 1]) + s[|s| - 1] as nat
  }

  /** v in n big-endian bytes. */
  function ToBigEndian(v: nat, n: nat): (s: bytes)
    ensures |s| == n
  {
    if n == 0 then [] else ToBigEndian(v / 256, n - 1) + [(v % 256) as byte]
  }

  function Pow256(n: nat): nat {
    if n == 0 then 1 else 256 * Pow256(n - 1)
  }

  lemma {:induction false} BigEndianRoundTrip(v: nat, n: nat)
    requires v < Pow256(n)
    ensures BigEndian(ToBigEndian(v, n)) == v
  {
    if n > 0 {
      BigEndianRoundTrip(v / 256, n - 1);
      assert ToBigEndian(v, n)[..n - 1] == ToBigEndian(v / 256, n - 1);
    }
  }

  /** v >> (8 * k). */
  function ShiftBytes(v: nat, k: nat): nat {
    if k == 0 then v else ShiftBytes(v / 256, k - 1)
  }

  lemma {:induction false} ShiftOnce(v: nat, k: nat)
    ensures ShiftBytes(v, k + 1) == ShiftBytes(v, k) / 256
  {
    if k > 0 {
      ShiftOnce(v / 256, k - 1);
    }
  }

  const MaxLength := 0x1_0000_0000_0000_0000

  lemma Powers()
    ensures Pow256(2) == 65536 && Pow256(8) == MaxLength
  {
    assert Pow256(4) == 0x1_0000_0000;
  }

  // ---------------------------------------------------------------- frames

  /** The three encodings of a payload length. */
  datatype LengthForm = Short | Medium | Long

  datatype Frame = Frame(fin: bool, opcode: nat, key: Option<bytes>, form: LengthForm, payload: bytes)

  predicate FormFits(form: LengthForm, n: nat) {
    match form
    case Short => n < 126
    case Medium => n < 65536
    case Long => n < MaxLength
  }

  predicate GoodFrame(f: Frame) {
    f.opcode < 16 && (f.key.Some? ==> |f.key.value| == 4) && FormFits(f.form, |f.payload|)
  }

  function LengthCode(form: LengthForm, n: nat): nat
    requires FormFits(form, n)
  {
    match form
    case Short => n
    case Medium => 126
    case Long => 127
  }

  function LengthBytes(form: LengthForm, n: nat): bytes {
    match form
    case Short => []
    case Medium => ToBigEndian(n, 2)
    case Long => ToBigEndian(n, 8)
  }

  function HeaderBytes(f: Frame): bytes
    requires GoodFrame(f)
  {
    [(if f.fin then 128 + f.opcode else f.opcode) as byte,
     (LengthCode(f.form, |f.payload|) + if f.key.Some? then 128 else 0) as byte]
  }

  function MaskBytes(f: Frame): bytes {
    if f.key.Some? then f.key.value else []
  }

  function PayloadBytes(f: Frame): bytes
    requires GoodFrame(f)
  {
    if f.key.Some? then Masked(f.key.value, f.payload) else f.payload
  }

  function Encode(f: Frame): bytes
    requires GoodFrame(f)
  {
    HeaderBytes(f) + LengthBytes(f.form, |f.payload|) + MaskBytes(f) + PayloadBytes(f)
  }

  /** What the receiver makes of a frame. */
  datatype Got = Got(fin: bool, opcode: nat, payload: bytes, rest: bytes)

  /** The length that a length code and the bytes after it say, and how many bytes say it. */
  function ExtraBytes(code: nat): nat {
    if code == 126 then 2 else if code == 127 then 8 else 0
  }

  function DecodeFrame(p: bytes): Option<Got> {
    if |p| < 2 then None
    else DecodeAfter(p[0] as nat >= 128, p[0] as nat % 16, p[1] as nat >= 128, p[1] as nat % 128, p[2..])
  }

  function DecodeAfter(fin: bool, opcode: nat, masked: bool, code: nat, q: bytes): Option<Got> {
    var extra := ExtraBytes(code);
    if |q| < extra then None else
    DecodePayload(fin, opcode, masked, if extra == 0 then code else BigEndian(q[..extra]), q[extra..])
  }

  function DecodePayload(fin: bool, opcode: nat, masked: bool, length: nat, q: bytes): Option<Got> {
    if masked then
      if |q| < 4 + length then None else Some(Got(fin, opcode, Masked(q[..4], q[4..4 + length]), q[4 + length..]))
    else if |q| < length then None else Some(Got(fin, opcode, q[..length], q[length..]))
  }

  lemma DecodePayloadRoundTrip(f: Frame, tail: bytes)
    requires GoodFrame(f)
    ensures
      DecodePayload(f.fin, f.opcode, f.key.Some?, |f.payload|, MaskBytes(f) + PayloadBytes(f) + tail)
        == Some(Got(f.fin, f.opcode, f.payload, tail))
  {
    var n := |f.payload|;
    if f.key.Some? {
      var key, data := f.key.value, PayloadBytes(f);
      var q := key + data + tail;
      assert q[..4] == key && q[4..4 + n] == data && q[4 + n..] == tail;
      MaskedTwice(key, f.payload);
    } else {
      var q := [] + f.payload + tail;
      assert q[..n] == f.payload && q[n..] == tail;
    }
  }

  lemma LengthRoundTrip(form: LengthForm, n: nat, rest: bytes)
    requires FormFits(form, n)
    ensures
      var code, q := LengthCode(form, n), LengthBytes(form, n) + rest;
      var extra := ExtraBytes(code);
      && extra == |LengthBytes(form, n)| && q[extra..] == rest
      && (if extra == 0 then code else BigEndian(q[..extra])) == n
  {
    match form
    case Short =>
    case Medium =>
      Powers();
      BigEndianRoundTrip(n, 2);
      assert (LengthBytes(form, n) + rest)[..2] == LengthBytes(form, n);
    case Long =>
      Powers();
      BigEndianRoundTrip(n, 8);
      assert (LengthBytes(form, n) + rest)[..8] == LengthBytes(form, n);
  }

  lemma HeaderRoundTrip(f: Frame)
    requires GoodFrame(f)
    ensures
      var h := HeaderBytes(f);
      && (h[0] as nat >= 128 <==> f.fin) && h[0] as nat % 16 == f.opcode
      && (h[1] as nat >= 128 <==> f.key.Some?) && h[1] as nat % 128 == LengthCode(f.form, |f.payload|)
  {
  }

  /** An encoded frame: two header bytes, and then the rest. */
  lemma EncodeSplit(f: Frame, tail: bytes)
    requires GoodFrame(f)
    ensures
      var p, h := Encode(f) + tail, HeaderBytes(f);
      |p| >= 2 && p[0] == h[0] && p[1] == h[1]
      && p[2..] == LengthBytes(f.form, |f.payload|) + (MaskBytes(f) + PayloadBytes(f) + tail)
  {
    assert Encode(f) + tail == HeaderBytes(f) + (LengthBytes(f.form, |f.payload|) + (MaskBytes(f) + PayloadBytes(f) + tail));
  }

  lemma AfterHeader(fin: bool, opcode: nat, masked: bool, form: LengthForm, n: nat, rest: bytes)
    requires FormFits(form, n)
    ensures DecodeAfter(fin, opcode, masked, LengthCode(form, n), LengthBytes(form, n) + rest) == DecodePayload(fin, opcode, masked, n, rest)
  {
    LengthRoundTrip(form, n, rest);
  }

  /** Every frame, in each length encoding, masked or not, is read back as it was. */
  lemma FrameRoundTrip(f: Frame, tail: bytes)
    requires GoodFrame(f)
    ensures DecodeFrame(Encode(f) + tail) == Some(Got(f.fin, f.opcode, f.payload, tail))
  {
    EncodeSplit(f, tail);
    HeaderRoundTrip(f);
    AfterHeader(f.fin, f.opcode, f.key.Some?, f.form, |f.payload|, MaskBytes(f) + PayloadBytes(f) + tail);
    DecodePayloadRoundTrip(f, tail);
  }

  // ---------------------------------------------------------------- messages

  datatype MessageType = TextMessage | BinaryMessage

  datatype Outcome = Delivered(kind: MessageType, payload: bytes) | PeerClosed | Broken

  /** How one call of receive ends, what it leaves unread, and what it wrote. */
  datatype Received = Received(outcome: Outcome, rest: bytes, wrote: bytes)

  function MinimalForm(n: nat): LengthForm {
    if n < 126 then Short else if n < 65536 then Medium else Long
  }

  /** The frame that sendFrame writes. */
  function Plain(opcode: nat, payload: bytes): Frame {
    Frame(true, opcode, None, MinimalForm(|payload|), payload)
  }

  function KindOf(opcode: nat): MessageType {
    if opcode == Binary then BinaryMessage else TextMessage
  }

  function Wrote(data: bytes, r: Received): Received {
    r.(wrote := data + r.wrote)
  }

  lemma {:induction false} DecodeShrinks(p: bytes)
    ensures DecodeFrame(p).Some? ==> |DecodeFrame(p).value.rest| < |p| && |DecodeFrame(p).value.payload| < |p| && DecodeFrame(p).value.opcode < 16
  {
  }

  /** receive, from the bytes it will be given, with what it has so far of a message. */
  function Receive(p: bytes, so: bytes, opcode: nat): Received
    requires |p| < MaxLength
    decreases |p|
  {
    DecodeShrinks(p);
    match DecodeFrame(p)
    case None => Received(Broken, [], [])
    case Some(f) =>
      if f.opcode == Ping then
        PlainIsGood(Pong, f.payload);
        Wrote(Encode(Plain(Pong, f.payload)), Receive(f.rest, so, opcode))
      else if f.opcode == Close then Received(PeerClosed, f.rest, [])
      else
        var op := if f.opcode != Continuation then f.opcode else opcode;
        if f.fin then Received(Delivered(KindOf(op), so + f.payload), f.rest, [])
        else Receive(f.rest, so + f.payload, op)
  }

  lemma PlainIsGood(opcode: nat, payload: bytes)
    requires opcode < 16 && |payload| < MaxLength
    ensures GoodFrame(Plain(opcode, payload))
  {
  }

  /** One frame of a receive. */
  lemma ReceiveFrame(f: Frame, tail: bytes, so: bytes, opcode: nat)
    requires GoodFrame(f) && |Encode(f) + tail| < MaxLength && |f.payload| < MaxLength
    ensures Receive(Encode(f) + tail, so, opcode) == (
      if f.opcode == Ping then
        PlainIsGood(Pong, f.payload);
        Wrote(Encode(Plain(Pong, f.payload)), Receive(tail, so, opcode))
      else if f.opcode == Close then Received(PeerClosed, tail, [])
      else if f.fin then Received(Delivered(KindOf(if f.opcode != Continuation then f.opcode else opcode), so + f.payload), tail, [])
      else Receive(tail, so + f.payload, if f.opcode != Continuation then f.opcode else opcode))
  {
    FrameRoundTrip(f, tail);
  }

  function OpcodeOf(kind: MessageType): nat {
    if kind.BinaryMessage? then Binary else Text
  }

  /** receive undoes send: any payload, in whichever of the three length encodings it takes. */
  lemma ReceiveUndoesSend(payload: bytes, kind: MessageType, tail: bytes)
    requires |payload| < MaxLength && GoodFrame(Plain(OpcodeOf(kind), payload))
    requires |Encode(Plain(OpcodeOf(kind), payload)) + tail| < MaxLength
    ensures Receive(Encode(Plain(OpcodeOf(kind), payload)) + tail, [], Continuation) == Received(Delivered(kind, payload), tail, [])
  {
    assert [] + payload == payload;
    ReceiveFrame(Plain(OpcodeOf(kind), payload), tail, [], Continuation);
  }

  // ---------------------------------------------------------------- bytes of a frame

  /** Section 5.2 of RFC 6455 by position: what the first bytes of a frame say. */
  lemma FrameBytesSay(p: bytes)
    requires |p| >= 2
    ensures
      var n := p[1] as nat % 128;
      && (n < 126 ==> Lengths(p) == Some((n, 2)))
      && (n == 126 ==> Lengths(p) == if |p| < 4 then None else Some((256 * p[2] as nat + p[3] as nat, 4)))
      && (n == 127 && |p| >= 10 ==> Lengths(p) == Some((
        0x100_0000_0000_0000 * p[2] as nat + 0x1_0000_0000_0000 * p[3] as nat + 0x100_0000_0000 * p[4] as nat + 0x1_0000_0000 * p[5] as nat
        + 0x100_0000 * p[6] as nat + 0x1_0000 * p[7] as nat + 0x100 * p[8] as nat + p[9] as nat, 10)))
      && (n == 127 && |p| < 10 ==> Lengths(p) == None)
    ensures DecodeFrame(p).Some? ==>
      && Lengths(p).Some? && (DecodeFrame(p).value.fin <==> p[0] as nat >= 128) && DecodeFrame(p).value.opcode == p[0] as nat % 16
      && |DecodeFrame(p).value.payload| == Lengths(p).value.0
  {
    var extra := ExtraBytes(p[1] as nat % 128);
    if |p| >= 2 + extra {
      SliceOfDrop(p, 2, extra);
      var q := p[2..2 + extra];
      assert extra == 2 ==> q == [p[2], p[3]];
      assert extra == 8 ==> q == [p[2], p[3], p[4], p[5], p[6], p[7], p[8], p[9]];
      if extra == 2 {
        BigEndianOfTwo(p[2], p[3]);
      } else if extra == 8 {
        BigEndianOfEight(q);
      }
    }
  }

  /** The payload length of the frame at the front, and where the mask key or the payload begins. */
  function Lengths(p: bytes): Option<(nat, nat)>
    requires |p| >= 2
  {
    var extra := ExtraBytes(p[1] as nat % 128);
    if |p| < 2 + extra then None
    else Some((if extra == 0 then p[1] as nat % 128 else BigEndian(p[2..2 + extra]), 2 + extra))
  }

  lemma BigEndianOfTwo(a: byte, b: byte)
    ensures BigEndian([a, b]) == 256 * a as nat + b as nat
  {
    assert [a, b][..1] == [a] && [a][..0] == [];
    assert BigEndian([a]) == a as nat;
  }

  lemma BigEndianMore(s: bytes, b: byte)
    ensures BigEndian(s + [b]) == 256 * BigEndian(s) + b as nat
  {
    assert (s + [b])[..|s|] == s;
  }

  lemma BigEndianOfEight(q: bytes)
    requires |q| == 8
    ensures BigEndian(q) ==
      0x100_0000_0000_0000 * q[0] as nat + 0x1_0000_0000_0000 * q[1] as nat + 0x100_0000_0000 * q[2] as nat + 0x1_0000_0000 * q[3] as nat
      + 0x100_0000 * q[4] as nat + 0x1_0000 * q[5] as nat + 0x100 * q[6] as nat + q[7] as nat
  {
    BigEndianOfTwo(q[0], q[1]);
    BigEndianMore([q[0], q[1]], q[2]);
    var three := [q[0], q[1]] + [q[2]];
    BigEndianMore(three, q[3]);
    var four := three + [q[3]];
    BigEndianMore(four, q[4]);
    var five := four + [q[4]];
    BigEndianMore(five, q[5]);
    var six := five + [q[5]];
    BigEndianMore(six, q[6]);
    var seven := six + [q[6]];
    BigEndianMore(seven, q[7]);
    assert q == seven + [q[7]];
  }

  /** A short frame, byte by byte. */
  lemma ShortFrame(b: byte, data: bytes, tail: bytes)
    requires |data| < 126
    ensures DecodeFrame([b, |data| as byte] + data + tail) == Some(Got(b as nat >= 128, b as nat % 16, data, tail))
  {
    var p, n := [b, |data| as byte] + data + tail, |data|;
    assert p[2..] == data + tail && p[0] == b && p[1] as nat == n;
    var q := p[2..];
    assert q[0..] == q && q[..n] == data && q[n..] == tail;
  }

  /** The same with a mask key. */
  lemma ShortMaskedFrame(b: byte, key: bytes, data: bytes, tail: bytes)
    requires |key| == 4 && |data| < 126
    ensures DecodeFrame([b, (128 + |data|) as byte] + key + data + tail) == Some(Got(b as nat >= 128, b as nat % 16, Masked(key, data), tail))
  {
    var p, n := [b, (128 + |data|) as byte] + key + data + tail, |data|;
    assert p[2..] == key + data + tail && p[0] == b && p[1] as nat == 128 + n;
    var q := p[2..];
    assert q[0..] == q && q[..4] == key && q[4..4 + n] == data && q[4 + n..] == tail;
  }

  /** What receive makes of the frame it decodes, by the number of its opcode. */
  lemma ReceiveGot(p: bytes, g: Got, so: bytes, opcode: nat)
    requires |p| < MaxLength && DecodeFrame(p) == Some(g)
    ensures |g.rest| < |p| && GoodFrame(Plain(10, g.payload))
    ensures
      var r := Receive(p, so, opcode);
      && (g.opcode == 8 ==> r == Received(PeerClosed, g.rest, []))
      && (g.opcode == 9 ==> r == Wrote(Encode(Plain(10, g.payload)), Receive(g.rest, so, opcode)))
      && (g.opcode == 0 ==> r == if g.fin then Received(Delivered(KindOf(opcode), so + g.payload), g.rest, []) else Receive(g.rest, so + g.payload, opcode))
      && (g.opcode == 1 ==> r == if g.fin then Received(Delivered(TextMessage, so + g.payload), g.rest, []) else Receive(g.rest, so + g.payload, 1))
      && (g.opcode == 2 ==> r == if g.fin then Received(Delivered(BinaryMessage, so + g.payload), g.rest, []) else Receive(g.rest, so + g.payload, 2))
  {
    DecodeShrinks(p);
    PlainIsGood(Pong, g.payload);
  }

  lemma UnmaskOne()
    ensures Xor(0x7f, 0x37) == 0x48
  {
    assert XorBits(0x1, 0x0, 2) == 0x1;
    assert XorBits(0x7, 0x3, 4) == 0x4;
    assert XorBits(0x1f, 0xd, 6) == 0x12;
    assert XorBits(0x7f, 0x37, 8) == 0x48;
  }

  lemma UnmaskTwo()
    ensures Xor(0x9f, 0xfa) == 0x65
  {
    assert XorBits(0x2, 0x3, 2) == 0x1;
    assert XorBits(0x9, 0xf, 4) == 0x6;
    assert XorBits(0x27, 0x3e, 6) == 0x19;
    assert XorBits(0x9f, 0xfa, 8) == 0x65;
  }

  lemma UnmaskThree()
    ensures Xor(0x4d, 0x21) == 0x6c
  {
    assert XorBits(0x1, 0x0, 2) == 0x1;
    assert XorBits(0x4, 0x2, 4) == 0x6;
    assert XorBits(0x13, 0x8, 6) == 0x1b;
    assert XorBits(0x4d, 0x21, 8) == 0x6c;
  }

  lemma UnmaskFour()
    ensures Xor(0x51, 0x3d) == 0x6c
  {
    assert XorBits(0x1, 0x0, 2) == 0x1;
    assert XorBits(0x5, 0x3, 4) == 0x6;
    assert XorBits(0x14, 0xf, 6) == 0x1b;
    assert XorBits(0x51, 0x3d, 8) == 0x6c;
  }

  lemma UnmaskFive()
    ensures Xor(0x58, 0x37) == 0x6f
  {
    assert XorBits(0x1, 0x0, 2) == 0x1;
    assert XorBits(0x5, 0x3, 4) == 0x6;
    assert XorBits(0x16, 0xd, 6) == 0x1b;
    assert XorBits(0x58, 0x37, 8) == 0x6f;
  }

  lemma MaskedFive(key: bytes, data: bytes, plain: bytes)
    requires |key| == 4 && |data| == 5 && |plain| == 5 && Xor(data[4], key[0]) == plain[4]
    requires Xor(data[0], key[0]) == plain[0] && Xor(data[1], key[1]) == plain[1] && Xor(data[2], key[2]) == plain[2] && Xor(data[3], key[3]) == plain[3]
    ensures Masked(key, data) == plain
  {
  }

  lemma MaskedHello(key: bytes, data: bytes)
    requires key == [0x37, 0xfa, 0x21, 0x3d] && data == [0x7f, 0x9f, 0x4d, 0x51, 0x58]
    ensures Masked(key, data) == [0x48, 0x65, 0x6c, 0x6c, 0x6f]
  {
    UnmaskOne();
    UnmaskTwo();
    UnmaskThree();
    UnmaskFour();
    UnmaskFive();
    MaskedFive(key, data, [0x48, 0x65, 0x6c, 0x6c, 0x6f]);
  }

  /** The masked text of section 5.7 of RFC 6455. */
  lemma MaskedExample(key: bytes, data: bytes)
    requires key == [0x37, 0xfa, 0x21, 0x3d] && data == [0x7f, 0x9f, 0x4d, 0x51, 0x58]
    ensures DecodeFrame([0x81, 0x85] + key + data) == Some(Got(true, 1, Ascii("Hello"), []))
  {
    MaskedHello(key, data);
    assert Ascii("Hello") == [0x48, 0x65, 0x6c, 0x6c, 0x6f];
    ShortMaskedFrame(0x81, key, data, []);
    assert [0x81, 0x85] + key + data + [] == [0x81, 0x85] + key + data;
  }

  /** What sendFrame writes in front of a payload, by position. */
  lemma SentBytes(opcode: nat, payload: bytes)
    requires opcode < 16 && |payload| < MaxLength && GoodFrame(Plain(opcode, payload))
    ensures
      var s, n := Encode(Plain(opcode, payload)), |payload|;
      && (n < 126 ==> s == [(128 + opcode) as byte, n as byte] + payload)
      && (126 <= n < 65536 ==> s == [(128 + opcode) as byte, 126, (n / 256) as byte, (n % 256) as byte] + payload)
      && (n >= 65536 ==> s == [(128 + opcode) as byte, 127] + ToBigEndian(n, 8) + payload && BigEndian(ToBigEndian(n, 8)) == n)
  {
    var n := |payload|;
    if 126 <= n < 65536 {
      assert ToBigEndian(n, 2) == [(n / 256) as byte, (n % 256) as byte];
    } else if n >= 65536 {
      Powers();
      BigEndianRoundTrip(n, 8);
    }
  }

  // ---------------------------------------------------------------- fragments and pings

  /** What a peer may send while it sends one message: pieces of it, and pings between them. */
  datatype Item =
    | Probe(data: bytes, key: Option<bytes>, form: LengthForm)
    | Piece(data: bytes, key: Option<bytes>, form: LengthForm)

  predicate GoodItems(items: seq<Item>) {
    && items != [] && items[|items| - 1].Piece?
    && forall i {:trigger items[i]} :: 0 <= i < |items| ==>
      (items[i].key.Some? ==> |items[i].key.value| == 4) && FormFits(items[i].form, |items[i].data|)
  }

  /** Item i as a frame: the first piece carries the opcode, the last one the FIN bit. */
  function FrameOf(items: seq<Item>, i: nat, opcode: nat): Frame
    requires i < |items|
  {
    var x := items[i];
    if x.Probe? then Frame(true, Ping, x.key, x.form, x.data) else Frame(i == |items| - 1, opcode, x.key, x.form, x.data)
  }

  function EncodeItems(items: seq<Item>, i: nat, opcode: nat, tail: bytes): bytes
    requires GoodItems(items) && opcode < 16
    decreases |items| - i
  {
    if i >= |items| then tail else
    Encode(FrameOf(items, i, opcode)) + EncodeItems(items, i + 1, if items[i].Piece? then Continuation else opcode, tail)
  }

  function Pieces(items: seq<Item>, i: nat): bytes
    decreases |items| - i
  {
    if i >= |items| then [] else if items[i].Piece? then items[i].data + Pieces(items, i + 1) else Pieces(items, i + 1)
  }

  function PongFor(data: bytes): bytes
    requires |data| < MaxLength
  {
    PlainIsGood(Pong, data);
    Encode(Plain(Pong, data))
  }

  /** A pong for each ping, with the ping's own payload. */
  function Pongs(items: seq<Item>, i: nat): bytes
    requires GoodItems(items)
    decreases |items| - i
  {
    if i >= |items| then [] else
    FormIsLength(items[i].form, |items[i].data|);
    if items[i].Probe? then PongFor(items[i].data) + Pongs(items, i + 1) else Pongs(items, i + 1)
  }

  lemma FormIsLength(form: LengthForm, n: nat)
    requires FormFits(form, n)
    ensures n < MaxLength
  {
  }

  /** What receive comes to after one item. */
  function Next(x: Item, last: bool, op: nat, so: bytes, cur: nat, tail: bytes, rest: bytes): Received
    requires |x.data| < MaxLength && |rest| < MaxLength
  {
    if x.Probe? then Wrote(PongFor(x.data), Receive(rest, so, cur))
    else if last then Received(Delivered(KindOf(op), so + x.data), tail, [])
    else Receive(rest, so + x.data, op)
  }

  lemma ItemStep(items: seq<Item>, i: nat, opcode: nat, so: bytes, cur: nat, tail: bytes, p: bytes, rest: bytes)
    requires GoodItems(items) && i < |items| && opcode in {Continuation, Text, Binary}
    requires p == EncodeItems(items, i, opcode, tail) && |p| < MaxLength
    requires rest == EncodeItems(items, i + 1, if items[i].Piece? then Continuation else opcode, tail)
    ensures |items[i].data| < MaxLength && |rest| < MaxLength
    ensures Receive(p, so, cur) == Next(items[i], i == |items| - 1, if opcode != Continuation then opcode else cur, so, cur, tail, rest)
  {
    FormIsLength(items[i].form, |items[i].data|);
    ReceiveFrame(FrameOf(items, i, opcode), rest, so, cur);
  }

  /** What comes of a message from item i on. */
  ghost predicate Arrives(items: seq<Item>, i: nat, p: bytes, op: nat, so: bytes, cur: nat, tail: bytes)
    requires GoodItems(items) && |p| < MaxLength
  {
    Receive(p, so, cur) == Received(Delivered(KindOf(op), so + Pieces(items, i)), tail, Pongs(items, i))
  }

  lemma ArrivesAfterProbe(items: seq<Item>, i: nat, op: nat, so: bytes, cur: nat, tail: bytes, p: bytes, rest: bytes)
    requires GoodItems(items) && i < |items| && |p| < MaxLength && |rest| < MaxLength && |items[i].data| < MaxLength
    requires items[i].Probe? && Receive(p, so, cur) == Wrote(PongFor(items[i].data), Receive(rest, so, cur))
    requires Arrives(items, i + 1, rest, op, so, cur, tail)
    ensures Arrives(items, i, p, op, so, cur, tail)
  {
  }

  lemma ArrivesAfterPiece(items: seq<Item>, i: nat, op: nat, so: bytes, cur: nat, tail: bytes, p: bytes, rest: bytes)
    requires GoodItems(items) && i < |items| && |p| < MaxLength && |rest| < MaxLength
    requires items[i].Piece? && Receive(p, so, cur) == Receive(rest, so + items[i].data, op)
    requires Arrives(items, i + 1, rest, op, so + items[i].data, op, tail)
    ensures Arrives(items, i, p, op, so, cur, tail)
  {
    assert so + (items[i].data + Pieces(items, i + 1)) == so + items[i].data + Pieces(items, i + 1);
  }

  lemma ArrivesLast(items: seq<Item>, op: nat, so: bytes, cur: nat, tail: bytes, p: bytes)
    requires GoodItems(items) && |p| < MaxLength
    requires Receive(p, so, cur) == Received(Delivered(KindOf(op), so + items[|items| - 1].data), tail, [])
    ensures Arrives(items, |items| - 1, p, op, so, cur, tail)
  {
    var i := |items| - 1;
    assert Pieces(items, i) == items[i].data + [] == items[i].data;
  }

  /** Section 5.4 of RFC 6455: however a message is cut, masked and interrupted by pings, it arrives whole. */
  lemma {:induction false} Reassembles(items: seq<Item>, i: nat, opcode: nat, so: bytes, cur: nat, tail: bytes)
    requires GoodItems(items) && i < |items| && opcode in {Continuation, Text, Binary}
    requires |EncodeItems(items, i, opcode, tail)| < MaxLength
    ensures Arrives(items, i, EncodeItems(items, i, opcode, tail), if opcode != Continuation then opcode else cur, so, cur, tail)
    decreases |items| - i
  {
    var next := if items[i].Piece? then Continuation else opcode;
    var p, rest := EncodeItems(items, i, opcode, tail), EncodeItems(items, i + 1, next, tail);
    var op := if opcode != Continuation then opcode else cur;
    ItemStep(items, i, opcode, so, cur, tail, p, rest);
    if items[i].Probe? {
      Reassembles(items, i + 1, next, so, cur, tail);
      ArrivesAfterProbe(items, i, op, so, cur, tail, p, rest);
    } else if i + 1 < |items| {
      Reassembles(items, i + 1, next, so + items[i].data, op, tail);
      ArrivesAfterPiece(items, i, op, so, cur, tail, p, rest);
    } else {
      ArrivesLast(items, op, so, cur, tail, p);
    }
  }

  // ---------------------------------------------------------------- any frames at all

  predicate IsData(opcode: nat) {
    opcode == Continuation || opcode == Text || opcode == Binary
  }

  /** A frame that receive has no branch for: an unasked Pong, or a reserved opcode. */
  predicate IsStray(f: Frame) {
    !IsData(f.opcode) && f.opcode != Ping && f.opcode != Close
  }

  /** The frame that ends a message, or the connection. */
  predicate Ends(f: Frame) {
    f.opcode == Close || (IsData(f.opcode) && f.fin)
  }

  /** What a peer sends up to the end of one message. */
  ghost predicate IsMessage(fs: seq<Frame>) {
    && fs != [] && (forall i {:trigger fs[i]} :: 0 <= i < |fs| ==> GoodFrame(fs[i]) && (Ends(fs[i]) <==> i == |fs| - 1))
  }

  function EncodeFrames(fs: seq<Frame>, i: nat, tail: bytes): bytes
    requires forall k {:trigger fs[k]} :: 0 <= k < |fs| ==> GoodFrame(fs[k])
    decreases |fs| - i
  {
    if i >= |fs| then tail else Encode(fs[i]) + EncodeFrames(fs, i + 1, tail)
  }

  /** The payloads of the data frames, or of the data frames and the stray ones, from i on. */
  function Payloads(fs: seq<Frame>, i: nat, strays: bool): bytes
    decreases |fs| - i
  {
    if i >= |fs| then []
    else if IsData(fs[i].opcode) || (strays && IsStray(fs[i])) then fs[i].payload + Payloads(fs, i + 1, strays)
    else Payloads(fs, i + 1, strays)
  }

  /** The last opcode other than Continuation among the same frames, or the one there was before. */
  function LastOpcode(fs: seq<Frame>, i: nat, strays: bool, opcode: nat): nat
    decreases |fs| - i
  {
    if i >= |fs| then opcode
    else if fs[i].opcode != Continuation && (IsData(fs[i].opcode) || (strays && IsStray(fs[i]))) then LastOpcode(fs, i + 1, strays, fs[i].opcode)
    else LastOpcode(fs, i + 1, strays, opcode)
  }

  function Pings(fs: seq<Frame>, i: nat): seq<bytes>
    decreases |fs| - i
  {
    if i >= |fs| then [] else if fs[i].opcode == Ping then [fs[i].payload] + Pings(fs, i + 1) else Pings(fs, i + 1)
  }

  /** How receive goes through a list of frames: how it ends, at which frame, and the pings on the way. */
  datatype Taken = Taken(outcome: Outcome, at: nat, pings: seq<bytes>)

  function Take(fs: seq<Frame>, i: nat, so: bytes, opcode: nat): Taken
    decreases |fs| - i
  {
    if i >= |fs| then Taken(Broken, i, []) else
    var f := fs[i];
    var op := if f.opcode != Continuation then f.opcode else opcode;
    if f.opcode == Ping then
      var t := Take(fs, i + 1, so, opcode);
      t.(pings := [f.payload] + t.pings)
    else if f.opcode == Close then Taken(PeerClosed, i + 1, [])
    else if f.fin then Taken(Delivered(KindOf(op), so + f.payload), i + 1, [])
    else Take(fs, i + 1, so + f.payload, op)
  }

  /** What should come of a message: the data frames and nothing else, up to its last frame. */
  function Expected(fs: seq<Frame>): Taken
    requires IsMessage(fs)
  {
    Taken(
      if fs[|fs| - 1].opcode == Close then PeerClosed
      else Delivered(KindOf(LastOpcode(fs, 0, false, Continuation)), Payloads(fs, 0, false)),
      |fs|, Pings(fs, 0))
  }

  // ---------------------------------------------------------------- frames and bytes

  ghost predicate ShortEach(pings: seq<bytes>) {
    forall k {:trigger pings[k]} :: 0 <= k < |pings| ==> |pings[k]| < MaxLength
  }

  /** A pong for each ping. */
  function PongBytes(pings: seq<bytes>): bytes
    requires ShortEach(pings)
  {
    if pings == [] then [] else PongFor(pings[0]) + PongBytes(pings[1..])
  }

  /** A taking of frames as what receive does to the bytes. */
  function OnBytes(fs: seq<Frame>, t: Taken, tail: bytes): Received
    requires (forall k {:trigger fs[k]} :: 0 <= k < |fs| ==> GoodFrame(fs[k])) && ShortEach(t.pings)
  {
    Received(t.outcome, EncodeFrames(fs, t.at, tail), PongBytes(t.pings))
  }

  /** What one frame does to receive. */
  function OneFrame(f: Frame, rest: bytes, so: bytes, opcode: nat): Received
    requires |f.payload| < MaxLength && |rest| < MaxLength
  {
    if f.opcode == Ping then Wrote(PongFor(f.payload), Receive(rest, so, opcode))
    else if f.opcode == Close then Received(PeerClosed, rest, [])
    else if f.fin then Received(Delivered(KindOf(if f.opcode != Continuation then f.opcode else opcode), so + f.payload), rest, [])
    else Receive(rest, so + f.payload, if f.opcode != Continuation then f.opcode else opcode)
  }

  lemma FrameStep(fs: seq<Frame>, i: nat, tail: bytes, so: bytes, opcode: nat, p: bytes, rest: bytes)
    requires IsMessage(fs) && i < |fs| && p == EncodeFrames(fs, i, tail) && rest == EncodeFrames(fs, i + 1, tail) && |p| < MaxLength
    ensures |fs[i].payload| < MaxLength && |rest| < |p| && Receive(p, so, opcode) == OneFrame(fs[i], rest, so, opcode)
  {
    assert GoodFrame(fs[i]);
    FormIsLength(fs[i].form, |fs[i].payload|);
    ReceiveFrame(fs[i], rest, so, opcode);
  }

  /** A ping in front of what follows it. */
  lemma PingInFront(fs: seq<Frame>, t: Taken, ping: bytes, tail: bytes)
    requires (forall k {:trigger fs[k]} :: 0 <= k < |fs| ==> GoodFrame(fs[k])) && ShortEach(t.pings) && |ping| < MaxLength
    ensures ShortEach([ping] + t.pings)
    ensures OnBytes(fs, t.(pings := [ping] + t.pings), tail) == Wrote(PongFor(ping), OnBytes(fs, t, tail))
  {
    assert ([ping] + t.pings)[1..] == t.pings;
  }

  /** Receiving the bytes of a message is taking its frames. */
  lemma {:induction false} ReceiveTakes(fs: seq<Frame>, i: nat, so: bytes, opcode: nat, tail: bytes)
    requires IsMessage(fs) && i < |fs| && |EncodeFrames(fs, i, tail)| < MaxLength
    ensures ShortEach(Take(fs, i, so, opcode).pings)
    ensures Receive(EncodeFrames(fs, i, tail), so, opcode) == OnBytes(fs, Take(fs, i, so, opcode), tail)
    decreases |fs| - i
  {
    var f, p, rest := fs[i], EncodeFrames(fs, i, tail), EncodeFrames(fs, i + 1, tail);
    assert Ends(f) <==> i == |fs| - 1;
    FrameStep(fs, i, tail, so, opcode, p, rest);
    if f.opcode == Ping {
      ReceiveTakes(fs, i + 1, so, opcode, tail);
      PingInFront(fs, Take(fs, i + 1, so, opcode), f.payload, tail);
    } else if f.opcode != Close && !f.fin {
      ReceiveTakes(fs, i + 1, so + f.payload, if f.opcode != Continuation then f.opcode else opcode, tail);
    }
  }

  // ---------------------------------------------------------------- when receive is right

  ghost predicate NoFinalStray(fs: seq<Frame>) {
    forall k {:trigger fs[k]} :: 0 <= k < |fs| ==> !(IsStray(fs[k]) && fs[k].fin)
  }

  /** Without a stray frame that has the FIN bit, receive goes on to the end and takes the strays for data. */
  lemma {:induction false} TakesStrays(fs: seq<Frame>, i: nat, so: bytes, opcode: nat)
    requires IsMessage(fs) && i < |fs| && NoFinalStray(fs)
    ensures Take(fs, i, so, opcode) == Taken(
      if fs[|fs| - 1].opcode == Close then PeerClosed
      else Delivered(KindOf(LastOpcode(fs, i, true, opcode)), so + Payloads(fs, i, true)),
      |fs|, Pings(fs, i))
    decreases |fs| - i
  {
    var f := fs[i];
    assert Ends(f) <==> i == |fs| - 1;
    if i == |fs| - 1 {
      assert f.payload + [] == f.payload;
    } else if f.opcode == Ping {
      TakesStrays(fs, i + 1, so, opcode);
    } else {
      TakesStrays(fs, i + 1, so + f.payload, if f.opcode != Continuation then f.opcode else opcode);
      assert so + (f.payload + Payloads(fs, i + 1, true)) == so + f.payload + Payloads(fs, i + 1, true);
    }
  }

  /** The first stray frame with the FIN bit ends receive, as a message of its own opcode with its payload added. */
  lemma {:induction false} StrayCutsShort(fs: seq<Frame>, i: nat, j: nat, so: bytes, opcode: nat)
    requires IsMessage(fs) && i <= j < |fs| && IsStray(fs[j]) && fs[j].fin
    requires forall k {:trigger fs[k]} :: i <= k < j ==> !(IsStray(fs[k]) && fs[k].fin)
    ensures j + 1 < |fs| && Take(fs, i, so, opcode).at == j + 1
    ensures Take(fs, i, so, opcode).outcome == Delivered(TextMessage, so + Payloads(fs[..j + 1], i, true))
    decreases j - i
  {
    var f, cut := fs[i], fs[..j + 1];
    assert cut[i] == f && (Ends(f) <==> i == |fs| - 1) && (Ends(fs[j]) <==> j == |fs| - 1);
    if i == j {
      assert f.payload + [] == f.payload;
    } else if f.opcode == Ping {
      StrayCutsShort(fs, i + 1, j, so, opcode);
    } else {
      StrayCutsShort(fs, i + 1, j, so + f.payload, if f.opcode != Continuation then f.opcode else opcode);
      assert so + (f.payload + Payloads(cut, i + 1, true)) == so + f.payload + Payloads(cut, i + 1, true);
    }
  }

  ghost predicate NoStrayPayload(fs: seq<Frame>, i: nat) {
    forall k {:trigger fs[k]} :: i <= k < |fs| && IsStray(fs[k]) ==> fs[k].payload == []
  }

  lemma {:induction false} PayloadsAgreeIff(fs: seq<Frame>, i: nat)
    ensures |Payloads(fs, i, false)| <= |Payloads(fs, i, true)|
    ensures Payloads(fs, i, true) == Payloads(fs, i, false) <==> NoStrayPayload(fs, i)
    decreases |fs| - i
  {
    if i < |fs| {
      PayloadsAgreeIff(fs, i + 1);
      var a, b, x := Payloads(fs, i + 1, true), Payloads(fs, i + 1, false), fs[i].payload;
      if IsData(fs[i].opcode) {
        assert (x + a)[|x|..] == a && (x + b)[|x|..] == b;
      } else if IsStray(fs[i]) {
        assert |x + a| == |x| + |a|;
        assert x == [] ==> x + a == a;
        if NoStrayPayload(fs, i + 1) && x == [] {
          assert NoStrayPayload(fs, i);
        }
        if x != [] {
          assert |x + a| > |b|;
        }
      }
    }
  }

  /** The strays, if any, are empty pieces without FIN that leave the type as it is; before a Close only FIN matters. */
  ghost predicate Harmless(fs: seq<Frame>)
    requires IsMessage(fs)
  {
    && NoFinalStray(fs)
    && (fs[|fs| - 1].opcode == Close ||
        (NoStrayPayload(fs, 0) && KindOf(LastOpcode(fs, 0, true, Continuation)) == KindOf(LastOpcode(fs, 0, false, Continuation))))
  }

  lemma FirstFinalStray(fs: seq<Frame>, n: nat) returns (j: nat)
    requires n <= |fs| && exists k {:trigger fs[k]} :: 0 <= k < n && IsStray(fs[k]) && fs[k].fin
    ensures j < n && IsStray(fs[j]) && fs[j].fin && forall k {:trigger fs[k]} :: 0 <= k < j ==> !(IsStray(fs[k]) && fs[k].fin)
  {
    j := 0;
    while !(IsStray(fs[j]) && fs[j].fin)
      invariant j < n && forall k {:trigger fs[k]} :: 0 <= k < j ==> !(IsStray(fs[k]) && fs[k].fin)
      decreases n - j
    {
      j := j + 1;
    }
  }

  lemma TakeIsRightIff(fs: seq<Frame>)
    requires IsMessage(fs)
    ensures Take(fs, 0, [], Continuation) == Expected(fs) <==> Harmless(fs)
  {
    if NoFinalStray(fs) {
      TakesStrays(fs, 0, [], Continuation);
      PayloadsAgreeIff(fs, 0);
      assert [] + Payloads(fs, 0, true) == Payloads(fs, 0, true);
    } else {
      var j := FirstFinalStray(fs, |fs|);
      StrayCutsShort(fs, 0, j, [], Continuation);
    }
  }

  lemma {:induction false} EncodeFramesLonger(fs: seq<Frame>, i: nat, tail: bytes)
    requires (forall k {:trigger fs[k]} :: 0 <= k < |fs| ==> GoodFrame(fs[k])) && i <= |fs|
    ensures |EncodeFrames(fs, i, tail)| >= |tail| + |fs| - i
    decreases |fs| - i
  {
    if i < |fs| {
      EncodeFramesLonger(fs, i + 1, tail);
    }
  }

  lemma {:induction false} PingsShort(fs: seq<Frame>, i: nat)
    requires (forall k {:trigger fs[k]} :: 0 <= k < |fs| ==> GoodFrame(fs[k])) && i <= |fs|
    ensures ShortEach(Pings(fs, i))
    decreases |fs| - i
  {
    if i < |fs| {
      PingsShort(fs, i + 1);
      FormIsLength(fs[i].form, |fs[i].payload|);
    }
  }

  lemma {:induction false} TakeStopsInside(fs: seq<Frame>, i: nat, so: bytes, opcode: nat)
    requires IsMessage(fs) && i < |fs|
    ensures Take(fs, i, so, opcode).at <= |fs| && (Take(fs, i, so, opcode).at == |fs| ==> Take(fs, i, so, opcode).pings == Pings(fs, i))
    decreases |fs| - i
  {
    var f := fs[i];
    assert Ends(f) <==> i == |fs| - 1;
    if f.opcode == Ping {
      TakeStopsInside(fs, i + 1, so, opcode);
    } else if f.opcode != Close && !f.fin {
      TakeStopsInside(fs, i + 1, so + f.payload, if f.opcode != Continuation then f.opcode else opcode);
    }
  }

  /**
   * Exactly then: whatever frames a peer sends up to the end of a message, receive delivers the
   * data frames and nothing else, answers the pings and stops after the last frame, if and only
   * if every stray frame before it is harmless.
   */
  lemma ReceiveIsRightIff(fs: seq<Frame>, tail: bytes)
    requires IsMessage(fs) && |EncodeFrames(fs, 0, tail)| < MaxLength
    ensures ShortEach(Expected(fs).pings)
    ensures Receive(EncodeFrames(fs, 0, tail), [], Continuation) == OnBytes(fs, Expected(fs), tail) <==> Harmless(fs)
  {
    var t, e := Take(fs, 0, [], Continuation), Expected(fs);
    PingsShort(fs, 0);
    ReceiveTakes(fs, 0, [], Continuation, tail);
    TakeIsRightIff(fs);
    TakeStopsInside(fs, 0, [], Continuation);
    EncodeFramesLonger(fs, t.at, tail);
    assert EncodeFrames(fs, e.at, tail) == tail;
  }

  /**
   * If the peer never fragments a frame that is not data, as section 5.5 of RFC 6455 demands of
   * control frames, that means no stray frame at all.
   */
  lemma HarmlessIff(fs: seq<Frame>)
    requires IsMessage(fs) && forall k {:trigger fs[k]} :: 0 <= k < |fs| && !fs[k].fin ==> IsData(fs[k].opcode)
    ensures Harmless(fs) <==>
      forall k {:trigger fs[k]} :: 0 <= k < |fs| ==> fs[k].opcode in {Continuation, Text, Binary, Close, Ping}
  {
    if forall k {:trigger fs[k]} :: 0 <= k < |fs| ==> !IsStray(fs[k]) {
      SameOpcode(fs, 0, Continuation);
    }
  }

  lemma {:induction false} SameOpcode(fs: seq<Frame>, i: nat, opcode: nat)
    requires forall k {:trigger fs[k]} :: 0 <= k < |fs| ==> !IsStray(fs[k])
    ensures LastOpcode(fs, i, true, opcode) == LastOpcode(fs, i, false, opcode)
    decreases |fs| - i
  {
    if i < |fs| {
      SameOpcode(fs, i + 1, opcode);
      SameOpcode(fs, i + 1, fs[i].opcode);
    }
  }

  /** A Pong that nobody asked for, between the pieces of a binary message: it arrives early, as text, with the Pong in it. */
  lemma PongCutsMessage(first: bytes, pong: bytes, last: bytes)
    requires |first| < 126 && |pong| < 126 && |last| < 126
    ensures
      var fs := [Frame(false, Binary, None, Short, first), Frame(true, Pong, None, Short, pong), Frame(true, Continuation, None, Short, last)];
      && IsMessage(fs) && !Harmless(fs)
      && Take(fs, 0, [], Continuation) == Taken(Delivered(TextMessage, first + pong), 2, [])
      && Expected(fs) == Taken(Delivered(BinaryMessage, first + last), 3, [])
  {
    var fs := [Frame(false, Binary, None, Short, first), Frame(true, Pong, None, Short, pong), Frame(true, Continuation, None, Short, last)];
    assert [] + first == first && last + [] == last;
    assert IsStray(fs[1]) && fs[1].fin;
    assert Take(fs, 1, first, Binary) == Taken(Delivered(TextMessage, first + pong), 2, []);
    assert Payloads(fs, 3, false) == [];
    assert Payloads(fs, 2, false) == last;
    assert Payloads(fs, 1, false) == last;
    assert LastOpcode(fs, 3, false, Binary) == Binary;
    assert LastOpcode(fs, 2, false, Binary) == Binary;
    assert LastOpcode(fs, 1, false, Binary) == Binary;
    assert Pings(fs, 3) == [];
    assert Pings(fs, 2) == [];
    assert Pings(fs, 1) == [];
  }

  // ---------------------------------------------------------------- the payload buffer

  /**
   * A frame whose header has come in: how long the payload was before it, the length that the
   * header declares, and how many bytes are still to come.
   */
  datatype Visit = Visit(offset: nat, declared: nat, coming: nat)

  /** payload.resize(offset + payloadLen), in 64 bits. */
  function BufferSize(v: Visit): nat {
    (v.offset + v.declared) % MaxLength
  }

  /** The bytes that readExact stores: one by one from the offset on, until they are all there or no more come. */
  function Stored(v: Visit): nat {
    if v.declared < v.coming then v.declared else v.coming
  }

  /** Where the k-th of them goes. */
  function Position(v: Visit, k: nat): nat {
    v.offset + k
  }

  ghost predicate StoresInside(v: Visit) {
    forall k :: 0 <= k < Stored(v) ==> Position(v, k) < BufferSize(v)
  }

  /** The length declared at the front of p, and the bytes after it and the mask key. */
  function Declared(p: bytes): (r: Option<(nat, bytes)>)
    ensures r.Some? ==> r.value.0 < MaxLength && |r.value.1| < |p|
  {
    if |p| < 2 then None else
    var code, mask := p[1] as nat % 128, if p[1] as nat >= 128 then 4 else 0;
    var extra := ExtraBytes(code);
    if |p| < 2 + extra + mask then None else
    BigEndianBound(p[2..2 + extra]);
    Powers();
    Some((if extra == 0 then code else BigEndian(p[2..2 + extra]), p[2 + extra + mask..]))
  }

  lemma {:induction false} BigEndianBound(s: bytes)
    ensures BigEndian(s) < Pow256(|s|)
  {
    if s != [] {
      BigEndianBound(s[..|s| - 1]);
    }
  }

  /** The visit to the frame at the front. */
  function FirstVisit(p: bytes, so: nat): Option<Visit> {
    match Declared(p)
    case None => None
    case Some((n, q)) => Some(Visit(so, n, |q|))
  }

  /** Where receive goes on after the frame at the front. */
  function GoesOnAt(g: Option<Got>, so: nat): Option<(bytes, nat)> {
    if g.None? then None
    else if g.value.opcode == Ping then Some((g.value.rest, so))
    else if g.value.opcode == Close || g.value.fin then None
    else Some((g.value.rest, so + |g.value.payload|))
  }

  /** The frames that receive visits, given how much of a message it has. */
  function Visits(p: bytes, so: nat): seq<Visit>
    decreases |p|
  {
    DecodeShrinks(p);
    var first, next := FirstVisit(p, so), GoesOnAt(DecodeFrame(p), so);
    if first.None? then [] else if next.None? then [first.value] else [first.value] + Visits(next.value.0, next.value.1)
  }

  ghost predicate Each(vs: seq<Visit>, good: Visit -> bool) {
    forall i {:trigger vs[i]} :: 0 <= i < |vs| ==> good(vs[i])
  }

  ghost predicate AllInside(vs: seq<Visit>) {
    Each(vs, v => StoresInside(v))
  }

  /** The size does not wrap around, or nothing comes to be stored. */
  predicate Fits(v: Visit) {
    v.coming == 0 || v.offset + v.declared < MaxLength
  }

  ghost predicate AllFit(vs: seq<Visit>) {
    Each(vs, v => Fits(v))
  }

  lemma InsideIff(v: Visit)
    requires v.offset < MaxLength && v.declared < MaxLength
    ensures StoresInside(v) <==> Fits(v)
  {
    if v.offset + v.declared < MaxLength {
      assert BufferSize(v) == v.offset + v.declared;
    } else {
      assert BufferSize(v) == v.offset + v.declared - MaxLength;
      assert Position(v, 0) >= BufferSize(v);
      assert v.coming > 0 ==> 0 < Stored(v);
    }
  }

  /** A frame comes whole exactly if as many bytes come as were declared. */
  lemma DecodeIsDeclared(p: bytes)
    ensures DecodeFrame(p).Some? <==> Declared(p).Some? && Declared(p).value.0 <= |Declared(p).value.1|
    ensures DecodeFrame(p).Some? ==>
      |DecodeFrame(p).value.payload| == Declared(p).value.0 && |DecodeFrame(p).value.rest| + Declared(p).value.0 == |Declared(p).value.1|
  {
    if |p| >= 2 {
      var extra := ExtraBytes(p[1] as nat % 128);
      if |p| >= 2 + extra {
        SliceOfDrop(p, 2, extra);
      }
    }
  }

  /** Each of the visits is good, under another name that does not unfold. */
  ghost predicate IsEach(each: (bytes, nat) -> bool, good: Visit -> bool) {
    forall p, so {:trigger Visits(p, so)} :: Each(Visits(p, so), good) <==> each(p, so)
  }

  lemma EachCons(v: Visit, vs: seq<Visit>, good: Visit -> bool)
    ensures Each([v] + vs, good) <==> good(v) && Each(vs, good)
  {
    var all := [v] + vs;
    assert all[0] == v && forall i {:trigger vs[i]} :: 0 <= i < |vs| ==> all[i + 1] == vs[i];
  }

  /** One frame of the visits. */
  lemma EachStep(p: bytes, so: nat, g: Option<Got>, each: (bytes, nat) -> bool, good: Visit -> bool)
    requires g == DecodeFrame(p) && IsEach(each, good)
    ensures each(p, so) <==>
      && (FirstVisit(p, so).Some? ==> good(FirstVisit(p, so).value))
      && (GoesOnAt(g, so).Some? ==> each(GoesOnAt(g, so).value.0, GoesOnAt(g, so).value.1))
  {
    var first, next := FirstVisit(p, so), GoesOnAt(g, so);
    assert first.None? ==> next.None? by { DecodeIsDeclared(p); }
    assert each(p, so) <==> Each(Visits(p, so), good);
    if first.Some? {
      if next.Some? {
        var more := Visits(next.value.0, next.value.1);
        assert each(next.value.0, next.value.1) <==> Each(more, good);
        EachCons(first.value, more, good);
      } else {
        EachCons(first.value, [], good);
        assert [first.value] + [] == [first.value];
      }
    }
  }

  lemma WholeFrame(p: bytes, so: nat, g: Option<Got>)
    requires so + |p| < MaxLength && g == DecodeFrame(p)
    ensures g.Some? ==> FirstVisit(p, so).Some? && Fits(FirstVisit(p, so).value)
    ensures g.Some? ==> so + |g.value.payload| + |g.value.rest| < MaxLength && |g.value.rest| < |p|
  {
    DecodeShrinks(p);
    DecodeIsDeclared(p);
  }

  lemma {:induction false} InsideIffFrom(p: bytes, so: nat, inside: (bytes, nat) -> bool, fit: (bytes, nat) -> bool)
    requires so + |p| < MaxLength && IsEach(inside, v => StoresInside(v)) && IsEach(fit, v => Fits(v))
    ensures inside(p, so) <==> fit(p, so)
    decreases |p|
  {
    var g := DecodeFrame(p);
    WholeFrame(p, so, g);
    EachStep(p, so, g, inside, v => StoresInside(v));
    EachStep(p, so, g, fit, v => Fits(v));
    if FirstVisit(p, so).Some? {
      InsideIff(FirstVisit(p, so).value);
    }
    var next := GoesOnAt(g, so);
    if next.Some? {
      InsideIffFrom(next.value.0, next.value.1, inside, fit);
    }
  }

  /**
   * Exactly then: every byte that receive stores lies inside the payload if and only if, at
   * each frame after whose header a byte comes, what there is of the message and the declared
   * length are below 2^64 together.
   */
  lemma StoresInsideIff(p: bytes)
    requires |p| < MaxLength
    ensures AllInside(Visits(p, 0)) <==> AllFit(Visits(p, 0))
  {
    InsideIffFrom(p, 0, (p: bytes, so: nat) => AllInside(Visits(p, so)), (p: bytes, so: nat) => AllFit(Visits(p, so)));
  }

  /** The frames that receive needs before it returns all come whole. */
  predicate Completes(p: bytes)
    decreases |p|
  {
    DecodeShrinks(p);
    var g := DecodeFrame(p);
    g.Some? && (GoesOnAt(g, 0).Some? ==> Completes(g.value.rest))
  }

  lemma {:induction false} CompletesIff(p: bytes, so: bytes, opcode: nat)
    requires |p| < MaxLength
    ensures Receive(p, so, opcode).outcome.Broken? <==> !Completes(p)
    decreases |p|
  {
    DecodeShrinks(p);
    if DecodeFrame(p).Some? {
      var f := DecodeFrame(p).value;
      if f.opcode == Ping {
        CompletesIff(f.rest, so, opcode);
      } else if f.opcode != Close && !f.fin {
        CompletesIff(f.rest, so + f.payload, if f.opcode != Continuation then f.opcode else opcode);
      }
    }
  }

  ghost predicate IsCompletes(whole: bytes -> bool) {
    forall q {:trigger whole(q)} :: whole(q) <==> Completes(q)
  }

  lemma WholeStep(p: bytes, so: nat, g: Option<Got>, whole: bytes -> bool)
    requires g == DecodeFrame(p) && IsCompletes(whole) && whole(p)
    ensures g.Some? && (GoesOnAt(g, so).Some? ==> GoesOnAt(g, so).value.0 == g.value.rest && whole(g.value.rest))
  {
  }

  lemma {:induction false} CompleteFits(p: bytes, so: nat, whole: bytes -> bool, fit: (bytes, nat) -> bool)
    requires so + |p| < MaxLength && IsCompletes(whole) && whole(p) && IsEach(fit, v => Fits(v))
    ensures fit(p, so)
    decreases |p|
  {
    var g := DecodeFrame(p);
    WholeFrame(p, so, g);
    WholeStep(p, so, g, whole);
    EachStep(p, so, g, fit, v => Fits(v));
    var next := GoesOnAt(g, so);
    if next.Some? {
      CompleteFits(next.value.0, next.value.1, whole, fit);
    }
  }

  /** A frame that does not fit never comes whole: whatever receive returns was stored inside. */
  lemma ReturnedIsInside(p: bytes)
    requires |p| < MaxLength && !Receive(p, [], Continuation).outcome.Broken?
    ensures AllInside(Visits(p, 0))
  {
    CompletesIff(p, [], Continuation);
    CompleteFits(p, 0, (q: bytes) => Completes(q), (p: bytes, so: nat) => AllFit(Visits(p, so)));
    StoresInsideIff(p);
  }

  /** The header of a continuation that declares n bytes. */
  function LongHeader(n: nat): bytes {
    [128, 127] + ToBigEndian(n, 8)
  }

  lemma LongHeaderDeclares(n: nat, tail: bytes)
    requires n < MaxLength
    ensures Declared(LongHeader(n) + tail) == Some((n, tail))
  {
    var p, b := LongHeader(n) + tail, ToBigEndian(n, 8);
    Powers();
    BigEndianRoundTrip(n, 8);
    assert p[2..10] == b && p[10..] == tail;
  }

  /**
   * Any first piece with a byte in it, and a second whose declared length makes the sum wrap
   * around: the next byte is stored outside, although the connection carries only a few bytes.
   */
  lemma WrapStoresOutside(data: bytes, n: nat, tail: bytes)
    requires 0 < |data| < 126 && n < MaxLength <= |data| + n && tail != [] && |tail| < 1000
    ensures
      var p := Encode(Frame(false, Text, None, Short, data)) + (LongHeader(n) + tail);
      && |p| < 1200 && !AllInside(Visits(p, 0)) && Receive(p, [], Continuation).outcome == Broken
  {
    var f, q := Frame(false, Text, None, Short, data), LongHeader(n) + tail;
    var p := Encode(f) + q;
    FrameRoundTrip(f, q);
    LongHeaderDeclares(n, tail);
    DecodeIsDeclared(q);
    var first, v := FirstVisit(p, 0), Visit(|data|, n, |tail|);
    DecodeIsDeclared(p);
    assert Visits(q, |data|) == [v];
    assert Visits(p, 0)[1] == v;
    assert !StoresInside(v) by { InsideIff(v); }
    assert !Completes(q);
    CompletesIff(p, [], Continuation);
  }

  // ---------------------------------------------------------------- the connection

  /** What resize makes of a string. */
  function Resized(s: bytes, n: nat): (r: bytes)
    ensures |r| == n
  {
    if n <= |s| then s[..n] else s + seq(n - |s|, _ => 0)
  }

  function Overwritten(s: bytes, at: nat, data: bytes): (r: bytes)
    requires at + |data| <= |s|
    ensures |r| == |s|
  {
    s[..at] + data + s[at + |data|..]
  }

  /** One more piece stored behind those before it. */
  lemma StoredMore(s: bytes, offset: nat, q: bytes, total: nat, data: bytes)
    requires offset + total + |data| <= |s| && total + |data| <= |q| && data == q[total..][..|data|]
    ensures Overwritten(s[..offset] + q[..total] + s[offset + total..], offset + total, data)
      == s[..offset] + q[..total + |data|] + s[offset + total + |data|..]
  {
    assert q[..total] + data == q[..total + |data|];
  }

  ghost predicate FrameInside(p: bytes, so: nat) {
    FirstVisit(p, so).Some? ==> StoresInside(FirstVisit(p, so).value)
  }

  /** What receive makes of a frame, and of what comes after it. */
  ghost function AfterGot(f: Got, so: bytes, opcode: nat, recv: (bytes, bytes, nat) -> Received): Received
    requires |f.payload| < MaxLength
  {
    var op := if f.opcode != Continuation then f.opcode else opcode;
    if f.opcode == Ping then Wrote(PongFor(f.payload), recv(f.rest, so, opcode))
    else if f.opcode == Close then Received(PeerClosed, f.rest, [])
    else if f.fin then Received(Delivered(KindOf(op), so + f.payload), f.rest, [])
    else recv(f.rest, so + f.payload, op)
  }

  lemma RoundOf(p: bytes, so: bytes, opcode: nat, g: Option<Got>, recv: (bytes, bytes, nat) -> Received)
    requires |p| < MaxLength && IsReceive(recv) && g == DecodeFrame(p)
    ensures g.None? ==> recv(p, so, opcode) == Received(Broken, [], [])
    ensures g.Some? ==> |g.value.payload| < MaxLength && |g.value.rest| < |p| && recv(p, so, opcode) == AfterGot(g.value, so, opcode, recv)
  {
    DecodeShrinks(p);
    assert recv(p, so, opcode) == Receive(p, so, opcode);
  }

  /** One round of receive, as far as the buffer goes. */
  lemma SafeStep(p: bytes, so: nat, g: Option<Got>, safe: (bytes, nat) -> bool, fine: bool)
    requires so + |p| < MaxLength && g == DecodeFrame(p) && IsEach(safe, v => StoresInside(v)) && (fine <==> FrameInside(p, so))
    ensures GoesOnAt(g, so).None? ==> (safe(p, so) <==> fine)
    ensures g.Some? ==> so + |g.value.payload| + |g.value.rest| < MaxLength && |g.value.rest| < |p|
    ensures GoesOnAt(g, so).Some? ==> (safe(p, so) <==> safe(GoesOnAt(g, so).value.0, GoesOnAt(g, so).value.1))
  {
    WholeFrame(p, so, g);
    EachStep(p, so, g, safe, v => StoresInside(v));
    if g.Some? {
      InsideIff(FirstVisit(p, so).value);
    }
  }

  /** What is left of a frame when its length is known. */
  lemma HeaderRead(p: bytes, so: nat, n: nat, q: bytes)
    requires |p| >= 2 && |p[2..]| >= ExtraBytes(p[1] as nat % 128) && q == p[2..][ExtraBytes(p[1] as nat % 128)..]
    requires
      var code := p[1] as nat % 128;
      n == if ExtraBytes(code) == 0 then code else BigEndian(p[2..][..ExtraBytes(code)])
    ensures n < MaxLength
    ensures DecodeFrame(p) == DecodePayload(p[0] as nat >= 128, p[0] as nat % 16, p[1] as nat >= 128, n, q)
    ensures
      var key := if p[1] as nat >= 128 then 4 else 0;
      FrameInside(p, so) <==> (|q| >= key ==> StoresInside(Visit(so, n, |q| - key)))
  {
    var extra := ExtraBytes(p[1] as nat % 128);
    SliceOfDrop(p, 2, extra);
    BigEndianBound(p[2..2 + extra]);
    Powers();
  }

  /** Receive under another name, which does not unfold. */
  ghost predicate IsReceive(recv: (bytes, bytes, nat) -> Received) {
    forall p, so, op {:trigger Receive(p, so, op)} :: |p| < MaxLength ==> Receive(p, so, op) == recv(p, so, op)
  }

  class Connection {
    const stream: ByteStream

    constructor (stream: ByteStream)
      ensures this.stream == stream
    {
      this.stream := stream;
    }

    /** readExact: None where it throws because the connection ended. */
    method ReadExact(len: nat) returns (r: Option<bytes>)
      modifies stream`input
      ensures r.Some? <==> |old(stream.input)| >= len
      ensures r.Some? ==> r.value == old(stream.input)[..len] && stream.input == old(stream.input)[len..]
    {
      var buf := [];
      while |buf| < len
        invariant |buf| <= len && buf + stream.input == old(stream.input)
        decreases len - |buf|
      {
        var data := stream.Read(len - |buf|);
        if data == [] {
          return None;
        }
        buf := buf + data;
      }
      r := Some(buf);
    }

    /** The length that follows the header: two or eight bytes, the first one most significant. */
    method ReadLength(code: nat) returns (r: Option<nat>)
      modifies stream`input
      ensures r.Some? <==> |old(stream.input)| >= ExtraBytes(code)
      ensures r.Some? ==>
        var extra := ExtraBytes(code);
        && r.value == (if extra == 0 then code else BigEndian(old(stream.input)[..extra]))
        && stream.input == old(stream.input)[extra..]
    {
      if code != 126 && code != 127 {
        return Some(code);
      }
      var ext := ReadExact(if code == 126 then 2 else 8);
      if ext.None? {
        return None;
      }
      var length, i := 0, 0;
      while i < |ext.value|
        invariant i <= |ext.value| && length == BigEndian(ext.value[..i])
      {
        assert ext.value[..i + 1][..i] == ext.value[..i];
        length := 256 * length + ext.value[i] as nat;
        i := i + 1;
      }
      assert ext.value[..i] == ext.value;
      r := Some(length);
    }

    /** readExact into the payload, from offset on. `inside`: every byte it stored was within the payload. */
    method ReadInto(payload: bytes, offset: nat, len: nat) returns (r: Option<bytes>, inside: bool)
      modifies stream`input
      ensures r.Some? <==> |old(stream.input)| >= len
      ensures inside <==> old(stream.input) == [] || len == 0 || offset + Stored(Visit(offset, len, |old(stream.input)|)) <= |payload|
      ensures r.Some? && inside && |payload| == offset + len ==>
        r.value == payload[..offset] + old(stream.input)[..len] && stream.input == old(stream.input)[len..]
    {
      ghost var q := stream.input;
      var buf, total := payload, 0;
      inside := true;
      while total < len
        invariant total <= len && total <= |q| && stream.input == q[total..] && |buf| == |payload|
        invariant inside <==> total == 0 || offset + total <= |payload|
        invariant inside && offset <= |payload| ==> buf == payload[..offset] + q[..total] + payload[offset + total..]
        decreases len - total
      {
        var data := stream.Read(len - total);
        if data == [] {
          return None, inside;
        }
        if offset + total + |data| <= |buf| {
          buf := Overwritten(buf, offset + total, data);
          StoredMore(payload, offset, q, total, data);
        } else {
          inside := false;
        }
        total := total + |data|;
      }
      r := Some(buf);
    }

    /** The payload, added to what there is of the message, and unmasked where it stands. */
    method ReadPayload(payload: bytes, masked: bool, length: nat) returns (r: Option<bytes>, inside: bool)
      requires |payload| + |stream.input| < MaxLength && length < MaxLength
      modifies stream`input
      ensures
        var got := DecodePayload(true, 0, masked, length, old(stream.input));
        match r
        case None => got.None?
        case Some(all) => inside && got.Some? && all == payload + got.value.payload && stream.input == got.value.rest
      ensures
        var key := if masked then 4 else 0;
        inside <==> (|old(stream.input)| >= key ==> StoresInside(Visit(|payload|, length, |old(stream.input)| - key)))
    {
      ghost var p := stream.input;
      var key := [0, 0, 0, 0];
      if masked {
        var k := ReadExact(4);
        if k.None? {
          return None, true;
        }
        key := k.value;
      }
      ghost var q := stream.input;
      InsideIff(Visit(|payload|, length, |q|));
      var offset := |payload|;
      var sized := Resized(payload, (offset + length) % MaxLength);
      r, inside := ReadInto(sized, offset, length);
      if r.None? {
        return;
      }
      assert sized[..offset] == payload && r.value == payload + q[..length];
      if masked {
        SliceOfDrop(p, 4, length);
        assert r.value[..offset] == payload && r.value[offset..] == q[..length];
        var all := Unmask(r.value, offset, key);
        r := Some(all);
      }
    }

    method Unmask(payload: bytes, offset: nat, key: bytes) returns (all: bytes)
      requires offset <= |payload| && |key| == 4
      ensures all == payload[..offset] + Masked(key, payload[offset..])
    {
      all := payload;
      var i := 0;
      while i < |payload| - offset
        invariant i <= |payload| - offset && |all| == |payload|
        invariant forall j :: 0 <= j < |all| ==>
          all[j] == if offset <= j < offset + i then Xor(payload[j], key[(j - offset) % 4]) else payload[j]
      {
        all := all[offset + i := Xor(all[offset + i], key[i % 4])];
        i := i + 1;
      }
    }

    /** One frame: FIN, opcode, and the message so far with the frame's payload added. */
    method ReadFrame(payload: bytes, ghost fine: bool, ghost got: Option<Got>) returns (r: Option<(bool, nat, bytes)>, inside: bool)
      requires |payload| + |stream.input| < MaxLength && (fine <==> FrameInside(stream.input, |payload|)) && got == DecodeFrame(stream.input)
      modifies stream`input
      ensures inside <==> fine
      ensures
        match r
        case None => got.None?
        case Some((fin, opcode, all)) =>
          got.Some? && fin == got.value.fin && opcode == got.value.opcode
          && all == payload + got.value.payload && stream.input == got.value.rest
    {
      ghost var p := stream.input;
      var header := ReadExact(2);
      if header.None? {
        return None, true;
      }
      var b0, b1 := header.value[0] as nat, header.value[1] as nat;
      var length := ReadLength(b1 % 128);
      if length.None? {
        return None, true;
      }
      HeaderRead(p, |payload|, length.value, stream.input);
      var all, ok := ReadPayload(payload, b1 >= 128, length.value);
      inside := ok;
      if all.None? {
        return None, inside;
      }
      r := Some((b0 >= 128, b0 % 16, all.value));
    }

    /** One round of the loop of receive: None while the message goes on, and then what is left of it. */
    method ReceiveRound(
      payload: bytes, finalOpcode: nat, ghost recv: (bytes, bytes, nat) -> Received, ghost was: Received, ghost safe: (bytes, nat) -> bool)
      returns (done: Option<Outcome>, all: bytes, op: nat, inside: bool, ghost wrote: bytes, ghost left: Received)
      requires |payload| + |stream.input| < MaxLength && IsReceive(recv) && was == recv(stream.input, payload, finalOpcode) && IsEach(safe, v => StoresInside(v))
      modifies stream
      ensures stream.output == old(stream.output) + wrote
      ensures done.None? ==> |stream.input| < old(|stream.input|) && left == recv(stream.input, all, op) && was == Wrote(wrote, left)
      ensures done.None? ==> |all| + |stream.input| < MaxLength && (safe(old(stream.input), |payload|) <==> safe(stream.input, |all|))
      ensures done.Some? ==> wrote == [] && was.outcome == done.value && was.wrote == []
      ensures done.Some? ==> (inside <==> safe(old(stream.input), |payload|))
      ensures done.Some? && !done.value.Broken? ==> was.rest == stream.input
    {
      ghost var p := stream.input;
      ghost var g, fine := DecodeFrame(p), FrameInside(p, |payload|);
      SafeStep(p, |payload|, g, safe, fine);
      RoundOf(p, payload, finalOpcode, g, recv);
      var frame, ok := ReadFrame(payload, fine, g);
      if frame.None? {
        return Some(Broken), payload, finalOpcode, ok, [], was;
      }
      var (fin, opcode, more) := frame.value;
      inside := ok;
      done, all, op, wrote, left := HandleFrame(payload, finalOpcode, fin, opcode, more, g.value, recv, was);
    }

    /** What receive does with a frame that it has read. */
    method HandleFrame(
      payload: bytes, finalOpcode: nat, fin: bool, opcode: nat, more: bytes, ghost f: Got, ghost recv: (bytes, bytes, nat) -> Received, ghost was: Received)
      returns (done: Option<Outcome>, all: bytes, op: nat, ghost wrote: bytes, ghost left: Received)
      requires fin == f.fin && opcode == f.opcode && more == payload + f.payload && stream.input == f.rest && |f.payload| < MaxLength
      requires was == AfterGot(f, payload, finalOpcode, recv)
      modifies stream`output
      ensures stream.output == old(stream.output) + wrote
      ensures done.None? <==> GoesOnAt(Some(f), |payload|).Some?
      ensures done.None? ==> |all| == GoesOnAt(Some(f), |payload|).value.1 && left == recv(stream.input, all, op) && was == Wrote(wrote, left)
      ensures done.Some? ==> wrote == [] && was.outcome == done.value && was.wrote == []
      ensures done.Some? ==> was.rest == stream.input && !done.value.Broken?
    {
      all, op, wrote, left := payload, finalOpcode, [], was;
      assert stream.output == old(stream.output) + wrote;
      var offset := |payload|;
      assert more[offset..] == f.payload && more[..offset] == payload;
      if opcode == Ping {
        SendFrame(Pong, more[offset..]);
        wrote := PongFor(more[offset..]);
        left := recv(stream.input, payload, finalOpcode);
        return None, more[..offset], finalOpcode, wrote, left;
      }
      if opcode == Close {
        return Some(PeerClosed), all, op, wrote, left;
      }
      if opcode != Continuation {
        op := opcode;
      }
      if fin {
        return Some(Delivered(if op == Binary then BinaryMessage else TextMessage, more)), more, op, wrote, left;
      }
      NothingWrote(recv(stream.input, more, op));
      done, all, left := None, more, recv(stream.input, more, op);
    }

    /**
     * receive: the next message, whatever the reads deliver, with every ping answered on the
     * way, and whether every byte was stored inside the payload.
     */
    method ReceiveMessage() returns (r: Outcome, inside: bool)
      requires |stream.input| < MaxLength
      modifies stream
      ensures r == old(Receive(stream.input, [], Continuation)).outcome
      ensures stream.output == old(stream.output) + old(Receive(stream.input, [], Continuation)).wrote
      ensures !r.Broken? ==> stream.input == old(Receive(stream.input, [], Continuation)).rest && inside
      ensures inside <==> old(AllInside(Visits(stream.input, 0)))
    {
      ghost var p := stream.input;
      ghost var recv := (p: bytes, so: bytes, op: nat) => if |p| < MaxLength then Receive(p, so, op) else Received(Broken, [], []);
      ghost var safe := (p: bytes, so: nat) => AllInside(Visits(p, so));
      r, inside := ReceiveLoop(recv, Receive(stream.input, [], Continuation), safe);
      if !r.Broken? {
        ReturnedIsInside(p);
      }
    }

    method ReceiveLoop(ghost recv: (bytes, bytes, nat) -> Received, ghost goal: Received, ghost safe: (bytes, nat) -> bool)
      returns (r: Outcome, inside: bool)
      requires |stream.input| < MaxLength && IsReceive(recv) && goal == recv(stream.input, [], Continuation) && IsEach(safe, v => StoresInside(v))
      modifies stream
      ensures r == goal.outcome && stream.output == old(stream.output) + goal.wrote
      ensures !r.Broken? ==> stream.input == goal.rest
      ensures inside <==> safe(old(stream.input), 0)
    {
      ghost var sent, left := [], goal;
      var payload: bytes, finalOpcode: nat := [], Continuation;
      NothingWrote(goal);
      while true
        invariant |payload| + |stream.input| < MaxLength && left == recv(stream.input, payload, finalOpcode)
        invariant stream.output == old(stream.output) + sent && goal == Wrote(sent, left)
        invariant safe(old(stream.input), 0) <==> safe(stream.input, |payload|)
        decreases |stream.input|
      {
        var done, all, op, ok, wrote, next := ReceiveRound(payload, finalOpcode, recv, left, safe);
        if done.Some? {
          assert sent + [] == sent;
          return done.value, ok;
        }
        WroteWrote(sent, wrote, next);
        payload, finalOpcode, sent, left := all, op, sent + wrote, next;
      }
    }

    /** sendFrame, unmasked. */
    method SendFrame(opcode: nat, data: bytes)
      requires opcode < 16 && |data| < MaxLength
      modifies stream`output
      ensures GoodFrame(Plain(opcode, data)) && stream.output == old(stream.output) + Encode(Plain(opcode, data))
    {
      PlainIsGood(opcode, data);
      var frame: bytes := [(128 + opcode) as byte];
      var len := |data|;
      if len < 126 {
        frame := frame + [len as byte];
      } else if len < 65536 {
        frame := frame + [126];
        frame := frame + [(len / 256) as byte] + [(len % 256) as byte];
        assert ToBigEndian(len, 2) == [(len / 256) as byte, (len % 256) as byte];
      } else {
        frame := frame + [127];
        var tail := LongLength(len);
        frame := frame + tail;
      }
      assert frame == HeaderBytes(Plain(opcode, data)) + LengthBytes(MinimalForm(len), len);
      frame := frame + data;
      stream.Write(frame);
    }

    /** The eight bytes of a long length, from the highest shift down. */
    method LongLength(len: nat) returns (s: bytes)
      requires len < MaxLength
      ensures s == ToBigEndian(len, 8)
    {
      s := [];
      var i := 8;
      while i > 0
        invariant i <= 8 && s == ToBigEndian(ShiftBytes(len, i), 8 - i)
      {
        i := i - 1;
        ShiftOnce(len, i);
        s := s + [(ShiftBytes(len, i) % 256) as byte];
      }
    }

    method Send(data: bytes, kind: MessageType)
      requires |data| < MaxLength
      modifies stream`output
      ensures GoodFrame(Plain(OpcodeOf(kind), data))
      ensures stream.output == old(stream.output) + Encode(Plain(OpcodeOf(kind), data))
    {
      SendFrame(OpcodeOf(kind), data);
    }
  }

  lemma NothingWrote(r: Received)
    ensures Wrote([], r) == r
  {
    assert [] + r.wrote == r.wrote;
  }

  lemma WroteWrote(a: bytes, b: bytes, r: Received)
    ensures Wrote(a, Wrote(b, r)) == Wrote(a + b, r)
  {
    assert a + (b + r.wrote) == a + b + r.wrote;
  }
}
