/** Percent-encoding (UrlEncode.cc; section 2.1 of RFC 3986), for paths and for components. */
module UrlEncode {
  import opened Prelude

  type bytes = seq<byte>

  const Percent: byte := 37
  const Plus: byte := 43
  const Slash: byte := 47
  const Space: byte := 32

  predicate IsUnreserved(c: byte) {
    65 <= c <= 90 || 97 <= c <= 122 || 48 <= c <= 57 || c == 45 || c == 95 || c == 46 || c == 126
  }

  function HexVal(c: byte): Option<nat> {
    if 48 <= c <= 57 then Some(c as nat - 48)
    else if 65 <= c <= 70 then Some(c as nat - 55)
    else if 97 <= c <= 102 then Some(c as nat - 87)
    else None
  }

  function HexChar(d: nat): byte
    requires d < 16
  {
    if d < 10 then (48 + d) as byte else (55 + d) as byte
  }

  function PercentEncoded(c: byte): (r: bytes)
    ensures |r| == 3
  {
    [Percent, HexChar(c as nat / 16), HexChar(c as nat % 16)]
  }

  /** One byte, as urlEncode (component false) or urlEncodeComponent (component true) writes it. */
  function EncodeByte(c: byte, component: bool): bytes {
    if IsUnreserved(c) || (c == Slash && !component) then [c] else if c == Plus then [Percent, 50, 66] else PercentEncoded(c)
  }

  function Encode(s: bytes, component: bool): bytes {
    if s == [] then [] else Encode(s[..|s| - 1], component) + EncodeByte(s[|s| - 1], component)
  }

  /** The byte that a % sequence at the front of s stands for. */
  function Escape(s: bytes): Option<byte> {
    if |s| > 2 && s[0] == Percent && HexVal(s[1]).Some? && HexVal(s[2]).Some? then
      Some((16 * HexVal(s[1]).value + HexVal(s[2]).value) as byte)
    else None
  }

  /** decodeImpl: urlDecode keeps an encoded slash encoded, urlDecodeComponent turns + into a space. */
  function Decode(s: bytes, component: bool): bytes {
    if s == [] then []
    else if component && s[0] == Plus then [Space] + Decode(s[1..], component)
    else if Escape(s).Some? then
      (if !component && Escape(s).value == Slash then [Percent, 50, 70] else [Escape(s).value]) + Decode(s[3..], component)
    else [s[0]] + Decode(s[1..], component)
  }

  // ---------------------------------------------------------------- the loops

  method EncodeLoop(input: bytes, component: bool) returns (result: bytes)
    ensures result == Encode(input, component)
  {
    result := [];
    var i := 0;
    while i < |input|
      invariant i <= |input| && result == Encode(input[..i], component)
    {
      var c := input[i];
      assert input[..i + 1][..i] == input[..i];
      if IsUnreserved(c) || (c == Slash && !component) {
        result := result + [c];
      } else if c == Plus {
        result := result + [Percent, 50, 66];
      } else {
        result := result + PercentEncoded(c);
      }
      i := i + 1;
    }
    assert input[..i] == input;
  }

  /** One round of decodeImpl at position i: what it appends, and where it goes on. */
  method DecodeOne(input: bytes, i: nat, component: bool) returns (piece: bytes, next: nat)
    requires i < |input|
    ensures i < next <= |input| && Decode(input[i..], component) == piece + Decode(input[next..], component)
  {
    ghost var rest := input[i..];
    assert rest[1..] == input[i + 1..];
    var c := input[i];
    if component && c == Plus {
      return [Space], i + 1;
    }
    if c == Percent && i + 2 < |input| && HexVal(input[i + 1]).Some? && HexVal(input[i + 2]).Some? {
      assert rest[3..] == input[i + 3..];
      var decoded := (16 * HexVal(input[i + 1]).value + HexVal(input[i + 2]).value) as byte;
      assert Escape(rest) == Some(decoded);
      return if !component && decoded == Slash then [Percent, 50, 70] else [decoded], i + 3;
    }
    assert Escape(rest).None?;
    piece, next := [c], i + 1;
  }

  method DecodeLoop(input: bytes, component: bool) returns (result: bytes)
    ensures result == Decode(input, component)
  {
    result := [];
    var i := 0;
    assert input[0..] == input;
    while i < |input|
      invariant i <= |input| && result + Decode(input[i..], component) == Decode(input, component)
      decreases |input| - i
    {
      var piece, next := DecodeOne(input, i, component);
      assert result + (piece + Decode(input[next..], component)) == result + piece + Decode(input[next..], component);
      result, i := result + piece, next;
    }
  }

  // ---------------------------------------------------------------- round trips

  lemma HexRoundTrip(d: nat)
    requires d < 16
    ensures HexVal(HexChar(d)) == Some(d)
  {
  }

  /** Decoding one encoded byte gives it back, whatever follows. */
  lemma DecodeEncodedByte(c: byte, rest: bytes, component: bool)
    ensures Decode(EncodeByte(c, component) + rest, component) == [c] + Decode(rest, component)
  {
    var s := EncodeByte(c, component) + rest;
    if |EncodeByte(c, component)| == 1 {
      assert s[1..] == rest;
      assert Escape(s).None?;
    } else {
      HexRoundTrip(c as nat / 16);
      HexRoundTrip(c as nat % 16);
      assert s[3..] == rest;
      assert s[0] == Percent && s[1] == EncodeByte(c, component)[1] && s[2] == EncodeByte(c, component)[2];
      assert Escape(s) == Some(c);
    }
  }

  lemma EncodeLast(front: bytes, c: byte, rest: bytes, component: bool)
    ensures Encode(front + [c], component) + rest == Encode(front, component) + (EncodeByte(c, component) + rest)
  {
    assert (front + [c])[..|front|] == front;
  }

  lemma {:induction false} DecodeEncoded(s: bytes, rest: bytes, component: bool)
    ensures Decode(Encode(s, component) + rest, component) == s + Decode(rest, component)
  {
    if s == [] {
      assert [] + rest == rest;
    } else {
      var front, c := s[..|s| - 1], s[|s| - 1];
      var more, tail := EncodeByte(c, component) + rest, Decode(rest, component);
      assert s == front + [c];
      EncodeLast(front, c, rest, component);
      DecodeEncoded(front, more, component);
      assert Decode(more, component) == [c] + tail by { DecodeEncodedByte(c, rest, component); }
      assert front + ([c] + tail) == s + tail;
    }
  }

  /** Both decoders undo their encoders on every byte string. */
  lemma RoundTrip(s: bytes, component: bool)
    ensures Decode(Encode(s, component), component) == s
  {
    DecodeEncoded(s, [], component);
    assert Encode(s, component) + [] == Encode(s, component) && s + [] == s;
  }

  /** A path has as many segments after decoding as before: no slash appears, and none goes. */
  function Slashes(s: bytes): nat {
    if s == [] then 0 else (if s[0] == Slash then 1 else 0) + Slashes(s[1..])
  }

  lemma {:induction false} SlashesAdd(a: bytes, b: bytes)
    ensures Slashes(a + b) == Slashes(a) + Slashes(b)
  {
    if a == [] {
      assert a + b == b;
    } else {
      SlashesAdd(a[1..], b);
      assert (a + b)[1..] == a[1..] + b;
    }
  }

  lemma {:induction false} DecodeKeepsSlashes(s: bytes)
    ensures Slashes(Decode(s, false)) == Slashes(s)
  {
    if s != [] {
      if Escape(s).Some? {
        DecodeKeepsSlashes(s[3..]);
        var head := if Escape(s).value == Slash then [Percent, 50, 70] else [Escape(s).value];
        SlashesAdd(head, Decode(s[3..], false));
        SlashesAdd(s[..3], s[3..]);
        assert s == s[..3] + s[3..];
        NoSlashInThree(head);
        NoSlashInThree(s[..3]);
      } else {
        DecodeKeepsSlashes(s[1..]);
        SlashesAdd([s[0]], Decode(s[1..], false));
        assert Slashes([s[0]]) == if s[0] == Slash then 1 else 0;
      }
    }
  }

  lemma {:induction false} NoSlashInThree(s: bytes)
    requires Slash !in s
    ensures Slashes(s) == 0
  {
    if s != [] {
      NoSlashInThree(s[1..]);
    }
  }

  // ---------------------------------------------------------------- by character

  const UpperHex := Ascii("0123456789ABCDEF")
  const LowerHex := Ascii("0123456789abcdef")

  /** The characters that stand for themselves, section 2.3 of RFC 3986. */
  predicate StandsForItself(c: char) {
    'A' <= c <= 'Z' || 'a' <= c <= 'z' || '0' <= c <= '9' || c in "-_.~"
  }

  /** An unreserved byte, and in a path a slash, is left bare; every other byte becomes a % and two upper-case digits. */
  lemma EncodedByteIs(c: byte, component: bool)
    ensures EncodeByte(c, component) ==
      if StandsForItself(c as char) || (c as char == '/' && !component) then [c]
      else [Ascii("%")[0], UpperHex[c / 16], UpperHex[c % 16]]
  {
  }

  lemma HexDigitIs(c: byte, d: nat)
    requires d < 16
    ensures HexVal(c) == Some(d) <==> c == UpperHex[d] || c == LowerHex[d]
  {
  }

  lemma HexDigitsAre(c: byte)
    ensures HexVal(c).Some? <==> c in UpperHex + LowerHex
  {
    if HexVal(c).Some? {
      var d := HexVal(c).value;
      HexDigitIs(c, d);
      assert (UpperHex + LowerHex)[d] == UpperHex[d] && (UpperHex + LowerHex)[16 + d] == LowerHex[d];
    } else {
      forall d | 0 <= d < 32 ensures (UpperHex + LowerHex)[d] != c {
        HexDigitIs(c, d % 16);
      }
    }
  }

  /** In a component a plus is a space; in a path it is a plus. */
  lemma DecodedPlus(rest: bytes, component: bool)
    ensures Decode(Ascii("+") + rest, component) == Ascii(if component then " " else "+") + Decode(rest, component)
  {
    assert (Ascii("+") + rest)[1..] == rest;
  }

  /** A % and two digits of either case are the byte they name, except that a path keeps a slash encoded. */
  lemma DecodedEscape(hi: nat, lo: nat, h: byte, l: byte, rest: bytes, component: bool)
    requires hi < 16 && lo < 16 && h in {UpperHex[hi], LowerHex[hi]} && l in {UpperHex[lo], LowerHex[lo]}
    ensures Decode(Ascii("%") + [h, l] + rest, component) ==
      (if !component && 16 * hi + lo == 0x2F then Ascii("%2F") else [(16 * hi + lo) as byte]) + Decode(rest, component)
  {
    HexDigitIs(h, hi);
    HexDigitIs(l, lo);
    var s := Ascii("%") + [h, l] + rest;
    assert s[0] == Percent && s[1] == h && s[2] == l && s[3..] == rest;
    assert Ascii("%2F") == [Percent, 50, 70];
  }

  /** Every other character is kept: any but % and +, and a % that two digits do not follow. */
  lemma DecodedOther(c: byte, rest: bytes, component: bool)
    requires c as char != '+'
    requires c as char == '%' && |rest| >= 2 ==> rest[0] !in UpperHex + LowerHex || rest[1] !in UpperHex + LowerHex
    ensures Decode([c] + rest, component) == [c] + Decode(rest, component)
  {
    var s := [c] + rest;
    assert s[1..] == rest;
    if |rest| >= 2 {
      HexDigitsAre(rest[0]);
      HexDigitsAre(rest[1]);
      assert s[1] == rest[0] && s[2] == rest[1];
    }
  }
}
