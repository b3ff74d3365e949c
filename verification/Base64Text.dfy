/** What base64Encode writes, character by character, against section 4 of RFC 4648. */
module Base64Text {
  import opened Prelude
  import opened Base64

  const Upper := Ascii("ABCDEFGHIJKLMNOPQRSTUVWXYZ")
  const Lower := Ascii("abcdefghijklmnopqrstuvwxyz")
  const Figures := Ascii("0123456789")

  /** Table 1 of RFC 4648. */
  function Alphabet(): (t: bytes)
    ensures |t| == 64
  {
    Upper + Lower + Figures + Ascii("+/")
  }

  lemma UpperIs(i: nat)
    requires i < 26
    ensures Upper[i] as nat == 65 + i
  {
  }

  lemma LowerIs(i: nat)
    requires i < 26
    ensures Lower[i] as nat == 97 + i
  {
  }

  lemma EncCharIs(v: nat)
    requires v < 64
    ensures EncChar(v) == Alphabet()[v]
  {
    if v < 26 {
      UpperIs(v);
    } else if v < 52 {
      LowerIs(v - 26);
    } else if v < 62 {
      assert Alphabet()[v] == Figures[v - 52];
    } else {
      assert Alphabet()[v] == Ascii("+/")[v - 62];
    }
  }

  /** The decoding table is the inverse of the alphabet, and knows no other character. */
  lemma DecValIs(c: byte)
    ensures forall v: nat {:trigger Alphabet()[v]} :: v < 64 ==> (DecVal(c) == v <==> Alphabet()[v] == c)
    ensures DecVal(c) == -1 <==> c !in Alphabet()
  {
    forall v: nat {:trigger Alphabet()[v]} | v < 64 ensures DecVal(c) == v <==> Alphabet()[v] == c {
      EncCharIs(v);
    }
    if DecVal(c) >= 0 {
      assert Alphabet()[DecVal(c)] == c;
    }
  }

  /** The bits of a byte, the most significant first. */
  function ByteBits(b: byte): (t: seq<nat>)
    ensures |t| == 8
  {
    var v := b as nat;
    [v / 128 % 2, v / 64 % 2, v / 32 % 2, v / 16 % 2, v / 8 % 2, v / 4 % 2, v / 2 % 2, v % 2]
  }

  /** A byte string as a string of bits. */
  function BitString(s: bytes): (t: seq<nat>)
    ensures |t| == 8 * |s|
  {
    if s == [] then [] else ByteBits(s[0]) + BitString(s[1..])
  }

  /** Bit i, or zero past the end. */
  function BitAt(t: seq<nat>, i: nat): nat {
    if i < |t| then t[i] else 0
  }

  /** The six bits from i on, as a number. */
  function SixBits(t: seq<nat>, i: nat): nat {
    32 * BitAt(t, i) + 16 * BitAt(t, i + 1) + 8 * BitAt(t, i + 2) + 4 * BitAt(t, i + 3) + 2 * BitAt(t, i + 4) + BitAt(t, i + 5)
  }

  lemma Halves(a: nat)
    ensures a / 4 == a / 2 / 2 && a / 8 == a / 4 / 2 && a / 16 == a / 8 / 2
    ensures a / 32 == a / 16 / 2 && a / 64 == a / 32 / 2 && a / 128 == a / 64 / 2
  {
  }

  lemma HighBits(a: nat)
    requires a < 256
    ensures 2 * (a / 128 % 2) + a / 64 % 2 == a / 64
    ensures 8 * (a / 128 % 2) + 4 * (a / 64 % 2) + 2 * (a / 32 % 2) + a / 16 % 2 == a / 16
    ensures 32 * (a / 128 % 2) + 16 * (a / 64 % 2) + 8 * (a / 32 % 2) + 4 * (a / 16 % 2) + 2 * (a / 8 % 2) + a / 4 % 2 == a / 4
  {
    Halves(a);
    Telescope(a / 4, a / 8, a / 16, a / 32, a / 64, a / 128);
  }

  lemma LowBits(a: nat)
    requires a < 256
    ensures 2 * (a / 2 % 2) + a % 2 == a % 4
    ensures 8 * (a / 8 % 2) + 4 * (a / 4 % 2) + 2 * (a / 2 % 2) + a % 2 == a % 16
    ensures 32 * (a / 32 % 2) + 16 * (a / 16 % 2) + 8 * (a / 8 % 2) + 4 * (a / 4 % 2) + 2 * (a / 2 % 2) + a % 2 == a % 64
  {
    Halves(a);
    Telescope(a, a / 2, a / 4, a / 8, a / 16, a / 32);
  }

  lemma Telescope(a: nat, b: nat, c: nat, d: nat, e: nat, f: nat)
    requires b == a / 2 && c == b / 2 && d == c / 2 && e == d / 2 && f == e / 2
    ensures 2 * (b % 2) + a % 2 == a - 4 * c
    ensures 8 * (d % 2) + 4 * (c % 2) + 2 * (b % 2) + a % 2 == a - 16 * e
    ensures 32 * (f % 2) + 16 * (e % 2) + 8 * (d % 2) + 4 * (c % 2) + 2 * (b % 2) + a % 2 == a - 64 * (f / 2)
    ensures 2 * (f % 2) + e % 2 == e - 4 * (f / 2) && 8 * (f % 2) + 4 * (e % 2) + 2 * (d % 2) + c % 2 == c - 16 * (f / 2)
  {
  }

  lemma SixOfOne(a: byte, t: seq<nat>)
    ensures SixBits(ByteBits(a) + t, 0) == a as nat / 4 && SixBits(ByteBits(a) + t, 2) == a as nat % 64
  {
    HighBits(a as nat);
    LowBits(a as nat);
  }

  lemma SixOfTwo(a: byte, b: byte, t: seq<nat>)
    ensures SixBits(ByteBits(a) + (ByteBits(b) + t), 6) == (a as nat % 4) * 16 + b as nat / 16
    ensures SixBits(ByteBits(a) + (ByteBits(b) + t), 4) == (a as nat % 16) * 4 + b as nat / 64
  {
    LowBits(a as nat);
    HighBits(b as nat);
  }

  lemma SixAtEnd(a: byte)
    ensures SixBits(ByteBits(a), 6) == (a as nat % 4) * 16 && SixBits(ByteBits(a), 4) == (a as nat % 16) * 4
  {
    LowBits(a as nat);
  }

  lemma SixLater(u: seq<nat>, v: seq<nat>, t: seq<nat>, i: nat, k: nat)
    requires t == u + v && k == |u| + i
    ensures SixBits(t, k) == SixBits(v, i)
  {
  }

  lemma SixSooner(u: seq<nat>, v: seq<nat>, t: seq<nat>, i: nat)
    requires t == u + v && i + 6 <= |u|
    ensures SixBits(t, i) == SixBits(u, i)
  {
  }

  lemma BitStringAdd(a: bytes, b: bytes)
    ensures BitString(a + b) == BitString(a) + BitString(b)
  {
    if a == [] {
      assert a + b == b;
    } else {
      assert (a + b)[1..] == a[1..] + b;
      BitStringAdd(a[1..], b);
    }
  }

  /** The bits of a group from its second byte on. */
  function After(s: bytes, n: nat): seq<nat> {
    if n < |s| then BitString(s[n..]) else []
  }

  lemma AfterOne(s: bytes, n: nat)
    requires n < |s|
    ensures After(s, n) == ByteBits(s[n]) + After(s, n + 1)
  {
    assert s[n..][1..] == s[n + 1..];
  }

  /** The numbers that EncodeGroup looks up. */
  function GroupValue(s: bytes, k: nat): nat
    requires 1 <= |s| <= 3
  {
    var a := s[0] as nat;
    var b := if |s| > 1 then s[1] as nat else 0;
    var c := if |s| > 2 then s[2] as nat else 0;
    if k == 0 then a / 4 else if k == 1 then (a % 4) * 16 + b / 16 else if k == 2 then (b % 16) * 4 + c / 64 else c % 64
  }

  /** Six bits that begin in byte n and end in the next. */
  lemma SixFrom(s: bytes, n: nat)
    requires n < |s|
    ensures
      var a, b := s[n] as nat, if n + 1 < |s| then s[n + 1] as nat else 0;
      && SixBits(After(s, n), 0) == a / 4 && SixBits(After(s, n), 2) == a % 64
      && SixBits(After(s, n), 6) == (a % 4) * 16 + b / 16 && SixBits(After(s, n), 4) == (a % 16) * 4 + b / 64
  {
    AfterOne(s, n);
    SixOfOne(s[n], After(s, n + 1));
    if n + 1 < |s| {
      AfterOne(s, n + 1);
      SixOfTwo(s[n], s[n + 1], After(s, n + 2));
    } else {
      assert ByteBits(s[n]) + [] == ByteBits(s[n]);
      SixAtEnd(s[n]);
    }
  }

  lemma AfterIs(s: bytes, n: nat)
    requires n < |s|
    ensures BitString(s) == BitString(s[..n]) + After(s, n)
  {
    assert s == s[..n] + s[n..];
    BitStringAdd(s[..n], s[n..]);
  }

  lemma BitsOfGroup(s: bytes, k: nat)
    requires 1 <= |s| <= 3 && k < 4 && 6 * k < 8 * |s|
    ensures SixBits(BitString(s), 6 * k) == GroupValue(s, k)
  {
    var n := if k < 2 then 0 else k - 1;
    var i := 6 * k - 8 * n;
    var value := GroupValue(s, k);
    assert SixBits(After(s, n), i) == value by { SixFrom(s, n); }
    AfterIs(s, n);
    SixLater(BitString(s[..n]), After(s, n), BitString(s), i, 6 * k);
  }

  lemma LooksUp(s: bytes, k: nat)
    requires 1 <= |s| <= 3 && k < 4 && 6 * k < 8 * |s|
    ensures GroupValue(s, k) < 64 && EncodeGroup(s)[k] == EncChar(GroupValue(s, k))
  {
  }

  /** Character k is the one for bits 6k to 6k + 5, or a pad where the input has no more bits. */
  ghost predicate CharIs(s: bytes, k: nat, c: byte) {
    if 6 * k < 8 * |s| then SixBits(BitString(s), 6 * k) < 64 && c == Alphabet()[SixBits(BitString(s), 6 * k)] else c == Ascii("=")[0]
  }

  lemma GroupIs(s: bytes, k: nat)
    requires 1 <= |s| <= 3 && k < 4
    ensures CharIs(s, k, EncodeGroup(s)[k])
  {
    if 6 * k < 8 * |s| {
      BitsOfGroup(s, k);
      LooksUp(s, k);
      EncCharIs(GroupValue(s, k));
    }
  }

  lemma CharMoves(s: bytes, k: nat, c: byte)
    requires |s| > 3
    ensures k < 4 && CharIs(s[..3], k, c) ==> CharIs(s, k, c)
    ensures k >= 4 && CharIs(s[3..], k - 4, c) ==> CharIs(s, k, c)
  {
    assert s == s[..3] + s[3..];
    BitStringAdd(s[..3], s[3..]);
    if k < 4 {
      SixSooner(BitString(s[..3]), BitString(s[3..]), BitString(s), 6 * k);
    } else {
      SixLater(BitString(s[..3]), BitString(s[3..]), BitString(s), 6 * (k - 4), 6 * k);
    }
  }

  lemma {:induction false} EncodedIs(s: bytes)
    ensures |Encode(s)| == (|s| + 2) / 3 * 4
    ensures forall k {:trigger Encode(s)[k]} :: 0 <= k < |Encode(s)| ==> CharIs(s, k, Encode(s)[k])
  {
    if |s| > 3 {
      EncodedIs(s[3..]);
    }
    forall k {:trigger Encode(s)[k]} | 0 <= k < |Encode(s)| ensures CharIs(s, k, Encode(s)[k]) {
      if |s| <= 3 {
        GroupIs(s, k);
      } else {
        CharMoves(s, k, Encode(s)[k]);
        if k < 4 {
          GroupIs(s[..3], k);
        } else {
          assert Encode(s)[k] == Encode(s[3..])[k - 4];
        }
      }
    }
  }

  lemma Repadded(e: bytes, n: nat)
    requires |e| % 4 == 0 && 0 < n <= |e| < n + 4 && forall k :: n <= k < |e| ==> e[k] == Pad
    ensures Padded(e[..n]) == e
  {
  }

  /** The encoding is read back without its padding, too. */
  lemma PaddingIsOptional(s: bytes, n: nat)
    requires s != [] && n == (8 * |s| + 5) / 6
    ensures 0 < n <= |Encode(s)| < n + 3 && Decode(Encode(s)[..n]) == Some(s)
  {
    PadsAtEnd(s, n);
    var e := Encode(s);
    Repadded(e, n);
    Repadded(e, |e|);
    assert e[..|e|] == e;
    RoundTrip(s);
  }

  lemma PadsAtEnd(s: bytes, n: nat)
    requires s != [] && n == (8 * |s| + 5) / 6
    ensures 0 < n <= |Encode(s)| < n + 3 && forall k :: n <= k < |Encode(s)| ==> Encode(s)[k] == Pad
  {
    EncodedIs(s);
    forall k | n <= k < |Encode(s)| ensures Encode(s)[k] == Pad {
      assert CharIs(s, k, Encode(s)[k]);
    }
  }

  /** Character k of four may be read: one of the alphabet, or a pad in the third or fourth place. */
  predicate Readable(k: nat, c: byte) {
    c in Alphabet() || (k % 4 >= 2 && c == Ascii("=")[0])
  }

  lemma GroupReadable(g: bytes)
    requires |g| == 4
    ensures DecodeGroup(g).Some? <==> Readable(0, g[0]) && Readable(1, g[1]) && Readable(2, g[2]) && Readable(3, g[3])
  {
    DecValIs(g[0]);
    DecValIs(g[1]);
    DecValIs(g[2]);
    DecValIs(g[3]);
  }

  ghost predicate Everywhere(p: bytes, ok: (nat, byte) -> bool) {
    forall k: nat {:trigger p[k]} :: k < |p| ==> ok(k, p[k])
  }

  ghost predicate AllReadable(p: bytes) {
    Everywhere(p, (k: nat, c: byte) => Readable(k, c))
  }

  lemma Period(ok: (nat, byte) -> bool, j: nat, x: byte)
    requires forall k: nat, c: byte {:trigger ok(k + 4, c)} :: ok(k + 4, c) == ok(k, c)
    ensures ok(j + 4, x) == ok(j, x)
  {
  }

  lemma EverywhereSplit(p: bytes, ok: (nat, byte) -> bool)
    requires |p| >= 4 && forall k: nat, c: byte {:trigger ok(k + 4, c)} :: ok(k + 4, c) == ok(k, c)
    ensures Everywhere(p, ok) <==> Everywhere(p[4..], ok) && ok(0, p[0]) && ok(1, p[1]) && ok(2, p[2]) && ok(3, p[3])
  {
    if Everywhere(p, ok) {
      forall k: nat {:trigger p[4..][k]} | k < |p[4..]| ensures ok(k, p[4..][k]) {
        assert ok(k + 4, p[k + 4]);
      }
    }
    if Everywhere(p[4..], ok) && ok(0, p[0]) && ok(1, p[1]) && ok(2, p[2]) && ok(3, p[3]) {
      forall k: nat {:trigger p[k]} | k < |p| ensures ok(k, p[k]) {
        if k >= 4 {
          assert p[k] == p[4..][k - 4] && ok(k - 4, p[k]);
          Period(ok, k - 4, p[k]);
        }
      }
    }
  }

  lemma AllReadableSplit(p: bytes)
    requires |p| >= 4
    ensures AllReadable(p) <==> AllReadable(p[4..]) && Readable(0, p[0]) && Readable(1, p[1]) && Readable(2, p[2]) && Readable(3, p[3])
  {
    EverywhereSplit(p, (k: nat, c: byte) => Readable(k, c));
  }

  lemma {:induction false} GroupsReadable(p: bytes)
    requires |p| % 4 == 0
    ensures DecodeGroups(p).Some? <==> AllReadable(p)
    ensures DecodeGroups(p).Some? ==> |DecodeGroups(p).value| == Needed(p)
  {
    if |p| >= 4 {
      GroupReadable(p[..4]);
      AllReadableSplit(p);
      GroupsReadable(p[4..]);
    }
  }

  /** base64Decode refuses exactly the inputs that, padded to whole groups, have a character out of place. */
  lemma DecodesIff(s: bytes)
    requires s != []
    ensures Decode(s).Some? <==> AllReadable(Padded(s))
  {
    GroupsReadable(Padded(s));
    NeededFits(Padded(s));
  }
}
