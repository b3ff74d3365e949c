/** Base64.cc (section 4 of RFC 4648), with its index loops over a result of fixed size. */
module Base64 {
  import opened Prelude

  type bytes = seq<byte>

  const Pad: byte := 61

  /** kEncTable. */
  function EncChar(v: nat): byte
    requires v < 64
  {
    if v < 26 then (65 + v) as byte
    else if v < 52 then (71 + v) as byte
    else if v < 62 then (v - 4) as byte
    else if v == 62 then 43 else 47
  }

  /** kDecTable, with -1 for everything else. */
  function DecVal(c: byte): (v: int)
    ensures -1 <= v < 64
  {
    if 65 <= c <= 90 then c as int - 65
    else if 97 <= c <= 122 then c as int - 71
    else if 48 <= c <= 57 then c as int + 4
    else if c == 43 then 62 else if c == 47 then 63 else -1
  }

  /** What three, two or one bytes are encoded as. */
  function EncodeGroup(s: bytes): (r: bytes)
    requires 1 <= |s| <= 3
    ensures |r| == 4
  {
    var a := s[0] as nat;
    var b := if |s| > 1 then s[1] as nat else 0;
    var c := if |s| > 2 then s[2] as nat else 0;
    [EncChar(a / 4), EncChar((a % 4) * 16 + b / 16),
     if |s| > 1 then EncChar((b % 16) * 4 + c / 64) else Pad,
     if |s| > 2 then EncChar(c % 64) else Pad]
  }

  function Encode(s: bytes): (r: bytes)
    ensures |r| % 4 == 0 && (s != [] ==> |r| >= 4)
  {
    if s == [] then [] else if |s| <= 3 then EncodeGroup(s) else EncodeGroup(s[..3]) + Encode(s[3..])
  }

  /** How many bytes a group of four characters stands for. */
  function GroupSize(g: bytes): nat
    requires |g| == 4
  {
    1 + (if g[2] != Pad then 1 else 0) + (if g[3] != Pad then 1 else 0)
  }

  /** One group; None where base64Decode throws. */
  function DecodeGroup(g: bytes): (r: Option<bytes>)
    requires |g| == 4
    ensures r.Some? ==> |r.value| == GroupSize(g)
  {
    var a, b, c, d := DecVal(g[0]), DecVal(g[1]), DecVal(g[2]), DecVal(g[3]);
    if a < 0 || b < 0 || (g[2] != Pad && c < 0) || (g[3] != Pad && d < 0) then None else
    // c & 3 of a pad, whose table value is -1, is 3
    var low := if c < 0 then 3 else c % 4;
    Some([(a * 4 + b / 16) as byte] + (if g[2] != Pad then [((b % 16) * 16 + c / 4) as byte] else [])
         + if g[3] != Pad then [(low * 64 + d) as byte] else [])
  }

  function Prepend(a: bytes, r: Option<bytes>): Option<bytes> {
    if r.None? then None else Some(a + r.value)
  }

  function DecodeGroups(p: bytes): Option<bytes> {
    if |p| < 4 then Some([]) else
    match DecodeGroup(p[..4])
    case None => None
    case Some(x) => Prepend(x, DecodeGroups(p[4..]))
  }

  function Padded(s: bytes): (p: bytes)
    ensures |p| % 4 == 0 && |p| >= |s|
  {
    if |s| % 4 == 0 then s else s + seq(4 - |s| % 4, _ => Pad)
  }

  /** The size the result is given before the loop. */
  function OutLen(p: bytes): int
    requires p != [] && |p| % 4 == 0
  {
    |p| / 4 * 3 - (if p[|p| - 1] == Pad then 1 else 0) - (if p[|p| - 2] == Pad then 1 else 0)
  }

  /** base64Decode of a non-empty input: what the groups say, then zeros if they say less than expected. */
  function Decode(s: bytes): Option<bytes>
    requires s != []
  {
    var p := Padded(s);
    match DecodeGroups(p)
    case None => None
    case Some(x) => if |x| <= OutLen(p) then Some(x + seq(OutLen(p) - |x|, _ => 0 as byte)) else None
  }

  // ---------------------------------------------------------------- sizes

  /** Four characters for every three bytes begun. */
  function EncodedLen(n: nat): nat {
    if n == 0 then 0 else if n <= 3 then 4 else 4 + EncodedLen(n - 3)
  }

  lemma {:induction false} EncodedLenIs(n: nat)
    ensures EncodedLen(n) == (n + 2) / 3 * 4
  {
    if n > 3 {
      EncodedLenIs(n - 3);
    }
  }

  function Needed(p: bytes): nat {
    if |p| < 4 then 0 else GroupSize(p[..4]) + Needed(p[4..])
  }

  /** The result is always large enough for what the loop writes. */
  lemma {:induction false} NeededFits(p: bytes)
    requires p != [] && |p| % 4 == 0
    ensures Needed(p) <= OutLen(p)
  {
    var q := p[4..];
    if q == [] {
      assert p[..4] == p;
    } else {
      NeededFits(q);
      assert q[|q| - 1] == p[|p| - 1] && q[|q| - 2] == p[|p| - 2];
    }
  }

  // ---------------------------------------------------------------- the loops

  /** Four characters at position j. */
  method PutGroup(result: array<byte>, j: nat, a: byte, b: byte, c: byte, d: byte)
    requires j + 4 <= result.Length
    modifies result
    ensures result[..j + 4] == old(result[..j]) + [a, b, c, d]
  {
    result[j] := a;
    result[j + 1] := b;
    result[j + 2] := c;
    result[j + 3] := d;
  }

  /** The first group of what is left of the input. */
  lemma EncodeStep(done: bytes, input: bytes, i: nat)
    requires i + 3 <= |input|
    ensures done + EncodeGroup(input[i..i + 3]) + Encode(input[i + 3..]) == done + Encode(input[i..])
  {
    SliceOfDrop(input, i, 3);
    var rest := input[i..];
    if |rest| == 3 {
      assert rest[..3] == rest && input[i + 3..] == [];
      assert EncodeGroup(rest) + [] == EncodeGroup(rest);
    }
    assert done + EncodeGroup(rest[..3]) + Encode(rest[3..]) == done + (EncodeGroup(rest[..3]) + Encode(rest[3..]));
  }

  method EncodeThree(result: array<byte>, j: nat, input: bytes, i: nat)
    requires i + 3 <= |input| && j + 4 <= result.Length
    modifies result
    ensures result[..j + 4] == old(result[..j]) + EncodeGroup(input[i..i + 3])
  {
    var a, b, c := input[i] as nat, input[i + 1] as nat, input[i + 2] as nat;
    assert input[i..i + 3] == [input[i], input[i + 1], input[i + 2]];
    PutGroup(result, j, EncChar(a / 4), EncChar((a % 4) * 16 + b / 16), EncChar((b % 16) * 4 + c / 64), EncChar(c % 64));
  }

  method EncodeLoop(input: bytes) returns (result: array<byte>)
    ensures fresh(result) && result[..] == Encode(input)
  {
    var outLen := (|input| + 2) / 3 * 4;
    EncodedLenIs(|input|);
    result := new byte[outLen];
    var i: nat, j: nat := 0, 0;
    assert input[0..] == input && result[..0] == [];
    while i + 2 < |input|
      invariant i <= |input| && j + EncodedLen(|input| - i) == result.Length
      invariant result[..j] + Encode(input[i..]) == Encode(input)
    {
      EncodeStep(result[..j], input, i);
      EncodeThree(result, j, input, i);
      i, j := i + 3, j + 4;
    }
    if i < |input| {
      EncodeLast(result, j, input[i..]);
      return;
    }
    assert input[i..] == [] && j == result.Length;
    assert result[..] == result[..j] + [];
  }

  /** The last one or two bytes. */
  method EncodeLast(result: array<byte>, j: nat, rest: bytes)
    requires 1 <= |rest| <= 2 && j + 4 == result.Length
    modifies result
    ensures result[..] == old(result[..j]) + Encode(rest)
  {
    var a := rest[0] as nat;
    if |rest| > 1 {
      var b := rest[1] as nat;
      PutGroup(result, j, EncChar(a / 4), EncChar((a % 4) * 16 + b / 16), EncChar((b % 16) * 4), Pad);
    } else {
      PutGroup(result, j, EncChar(a / 4), EncChar((a % 4) * 16), Pad, Pad);
    }
    assert result[..] == result[..j + 4];
  }

  /** What one group adds to the result at position j. */
  method PutDecoded(result: array<byte>, j: nat, g: bytes, ghost start: bytes) returns (k: nat, ok: bool)
    requires |g| == 4 && j + GroupSize(g) <= result.Length == |start| && result[j..] == start[j..]
    modifies result
    ensures ok == DecodeGroup(g).Some?
    ensures ok ==> k == j + GroupSize(g) && result[..k] == old(result[..j]) + DecodeGroup(g).value
    ensures ok ==> result[k..] == start[k..]
  {
    var a, b, c, d := DecVal(g[0]), DecVal(g[1]), DecVal(g[2]), DecVal(g[3]);
    k := j;
    assert forall x :: j <= x < result.Length ==> result[x] == result[j..][x - j] == start[j..][x - j] == start[x];
    if a < 0 || b < 0 {
      return k, false;
    }
    result[k] := (a * 4 + b / 16) as byte;
    k := k + 1;
    if g[2] != Pad {
      if c < 0 {
        return k, false;
      }
      result[k] := ((b % 16) * 16 + c / 4) as byte;
      k := k + 1;
    }
    if g[3] != Pad {
      if d < 0 {
        return k, false;
      }
      result[k] := ((if c < 0 then 3 else c % 4) * 64 + d) as byte;
      k := k + 1;
    }
    ok := true;
  }

  lemma DecodeStep(done: bytes, p: bytes, i: nat)
    requires i + 4 <= |p|
    ensures |p[i..i + 4]| == 4 && Needed(p[i..]) == GroupSize(p[i..i + 4]) + Needed(p[i + 4..])
    ensures Prepend(done, DecodeGroups(p[i..])) ==
      match DecodeGroup(p[i..i + 4])
      case None => None
      case Some(x) => Prepend(done + x, DecodeGroups(p[i + 4..]))
  {
    SliceOfDrop(p, i, 4);
    match DecodeGroup(p[i..i + 4])
    case None =>
    case Some(x) =>
      match DecodeGroups(p[i + 4..])
      case None =>
      case Some(y) => assert done + (x + y) == done + x + y;
  }

  lemma PrependEmpty(r: Option<bytes>)
    ensures Prepend([], r) == r
  {
    assert r.Some? ==> [] + r.value == r.value;
  }

  /** One round of the loop of base64Decode. */
  method DecodeRound(result: array<byte>, p: bytes, i: nat, j: nat, ghost start: bytes) returns (k: nat, ok: bool)
    requires i + 4 <= |p| && j + Needed(p[i..]) <= result.Length == |start| && result[j..] == start[j..]
    modifies result
    ensures ok ==> k + Needed(p[i + 4..]) <= result.Length && result[k..] == start[k..]
    ensures ok ==> Prepend(result[..k], DecodeGroups(p[i + 4..])) == old(Prepend(result[..j], DecodeGroups(p[i..])))
    ensures !ok ==> DecodeGroups(p[i..]).None?
  {
    DecodeStep(result[..j], p, i);
    k, ok := PutDecoded(result, j, p[i..i + 4], start);
  }

  /** The loop of base64Decode: it writes from the front and leaves the rest of the result alone. */
  method DecodeInto(result: array<byte>, p: bytes) returns (j: nat, ok: bool)
    requires |p| % 4 == 0 && Needed(p) <= result.Length
    modifies result
    ensures ok == DecodeGroups(p).Some?
    ensures ok ==> j <= result.Length && result[..j] == DecodeGroups(p).value && result[j..] == old(result[..])[j..]
  {
    ghost var goal, start, n, groups: nat := DecodeGroups(p), result[..], 0, |p| / 4;
    var i: nat := 0;
    j := 0;
    assert p[0..] == p && result[..0] == [] && result[0..] == start[0..];
    PrependEmpty(goal);
    while i < |p|
      invariant i == 4 * n && |p| == 4 * groups && n <= groups && j + Needed(p[i..]) <= result.Length
      invariant Prepend(result[..j], DecodeGroups(p[i..])) == goal
      invariant result[j..] == start[j..]
    {
      var k, fine := DecodeRound(result, p, i, j, start);
      if !fine {
        return j, false;
      }
      i, j, n := i + 4, k, n + 1;
    }
    assert p[i..] == [] && result[..j] + [] == result[..j];
    ok := true;
  }

  /** base64Decode: every write is within the result, for any non-empty input. */
  method DecodeLoop(input: bytes) returns (r: Option<bytes>)
    requires input != []
    ensures r == Decode(input)
  {
    var p := Padded(input);
    NeededFits(p);
    var outLen := |p| / 4 * 3;
    if p[|p| - 1] == Pad {
      outLen := outLen - 1;
    }
    if p[|p| - 2] == Pad {
      outLen := outLen - 1;
    }
    var result := new byte[outLen](_ => 0);
    var j, ok := DecodeInto(result, p);
    if !ok {
      return None;
    }
    assert result[..] == result[..j] + result[j..];
    assert result[j..] == seq(outLen - j, _ => 0 as byte);
    r := Some(result[..]);
  }

  // ---------------------------------------------------------------- round trip

  lemma CharRoundTrip(v: nat)
    requires v < 64
    ensures DecVal(EncChar(v)) == v && EncChar(v) != Pad
  {
  }

  lemma GroupRoundTrip(s: bytes)
    requires 1 <= |s| <= 3
    ensures DecodeGroup(EncodeGroup(s)) == Some(s)
    ensures (EncodeGroup(s)[2] == Pad <==> |s| < 2) && (EncodeGroup(s)[3] == Pad <==> |s| < 3)
  {
    var a := s[0] as nat;
    var b := if |s| > 1 then s[1] as nat else 0;
    var c := if |s| > 2 then s[2] as nat else 0;
    CharRoundTrip(a / 4);
    CharRoundTrip((a % 4) * 16 + b / 16);
    CharRoundTrip((b % 16) * 4 + c / 64);
    CharRoundTrip(c % 64);
    Quarters(a, b, c);
    var r := DecodeGroup(EncodeGroup(s));
    assert r.Some? && |r.value| == |s|;
    assert r.value[0] as nat == a;
    assert |s| > 1 ==> r.value[1] as nat == b;
    assert |s| > 2 ==> r.value[2] as nat == c;
    assert r.value == s;
  }

  lemma Quarters(a: nat, b: nat, c: nat)
    requires a < 256 && b < 256 && c < 256
    ensures
      var v1, v2, v3 := (a % 4) * 16 + b / 16, (b % 16) * 4 + c / 64, c % 64;
      && a / 4 * 4 + v1 / 16 == a
      && (v1 % 16) * 16 + v2 / 4 == b
      && (v2 % 4) * 64 + v3 == c
  {
  }

  lemma {:induction false} GroupsRoundTrip(s: bytes)
    ensures DecodeGroups(Encode(s)) == Some(s)
  {
    if s != [] {
      var n := if |s| <= 3 then |s| else 3;
      var g, rest := s[..n], s[n..];
      assert s == g + rest;
      GroupRoundTrip(g);
      if |s| <= 3 {
        assert g == s;
        assert Encode(s)[..4] == EncodeGroup(s) && Encode(s)[4..] == [];
        assert s + [] == s;
      } else {
        GroupsRoundTrip(rest);
        assert Encode(s)[..4] == EncodeGroup(g) && Encode(s)[4..] == Encode(rest);
      }
    }
  }

  lemma {:induction false} EncodeOutLen(s: bytes)
    requires s != []
    ensures OutLen(Encode(s)) == |s|
  {
    if |s| <= 3 {
      GroupRoundTrip(s);
    } else {
      var rest := s[3..];
      EncodeOutLen(rest);
      OutLenMore(EncodeGroup(s[..3]), Encode(rest));
    }
  }

  lemma OutLenMore(g: bytes, p: bytes)
    requires |g| == 4 && p != [] && |p| % 4 == 0
    ensures OutLen(g + p) == 3 + OutLen(p)
  {
    assert (g + p)[|g + p| - 1] == p[|p| - 1] && (g + p)[|g + p| - 2] == p[|p| - 2];
  }

  /** Decoding undoes encoding for every non-empty byte string. */
  lemma RoundTrip(s: bytes)
    requires s != []
    ensures Encode(s) != [] && Decode(Encode(s)) == Some(s)
  {
    var e := Encode(s);
    assert DecodeGroups(e) == Some(s) by { GroupsRoundTrip(s); }
    assert OutLen(e) == |s| by { EncodeOutLen(s); }
    assert Padded(e) == e;
    var none: bytes := seq(0, _ => 0 as byte);
    assert s + none == s;
  }
}
