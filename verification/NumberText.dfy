/** What std::stoul, std::stoi, std::to_string and "%zx" make of the text of a number. */
module NumberText {
  import opened Prelude
  import opened Numbers

  const LowerDigits := Ascii("0123456789abcdef")
  const UpperDigits := Ascii("0123456789ABCDEF")

  lemma BasesAre()
    ensures Decimal.Num() == 10 && Hex.Num() == 16
  {
  }

  /** Digits are printed in lower case and read in either. */
  lemma DigitIs(c: byte, d: nat)
    requires d < 16
    ensures DigitChar(d) == LowerDigits[d]
    ensures DigitVal(c) == Some(d) <==> c == LowerDigits[d] || c == UpperDigits[d]
  {
  }

  /** The value of a text is that of its first digits, moved by as many places as follow, and of those. */
  lemma {:induction false} ValueIsPositional(a: seq<byte>, b: seq<byte>, base: Base)
    requires AllDigits(a, base) && AllDigits(b, base)
    ensures AllDigits(a + b, base) && Value(a + b, base) == Value(a, base) * Pow(base, |b|) + Value(b, base)
    decreases |b|
  {
    if b == [] {
      assert a + b == a;
    } else {
      var front, last := b[..|b| - 1], b[|b| - 1];
      assert a + b == (a + front) + [last];
      ValueIsPositional(a, front, base);
      assert (a + b)[..|a + b| - 1] == a + front;
      Moved(Value(a, base), Pow(base, |front|), Value(front, base), DigitVal(last).value, base);
    }
  }

  lemma Moved(a: nat, p: nat, b: nat, d: nat, base: Base)
    ensures base.Shift(a * p + b, d) == a * base.Shift(p, 0) + base.Shift(b, d)
  {
    if base.Decimal? {
      assert a * (10 * p) == 10 * (a * p);
    } else {
      assert a * (16 * p) == 16 * (a * p);
    }
  }

  /** One digit is worth itself. */
  lemma ValueOfOne(d: nat, base: Base)
    requires d < base.Num()
    ensures AllDigits([LowerDigits[d]], base) && Value([LowerDigits[d]], base) == d
  {
    DigitIs(LowerDigits[d], d);
    var s := [LowerDigits[d]];
    assert s[..0] == [];
  }

  // ---------------------------------------------------------------- reading

  predicate Blank(s: seq<byte>) {
    forall i {:trigger s[i]} :: 0 <= i < |s| ==> s[i] == 32 || s[i] == 9 || s[i] == 10 || s[i] == 11 || s[i] == 12 || s[i] == 13
  }

  lemma {:induction false} BlanksGo(spaces: seq<byte>, t: seq<byte>)
    requires Blank(spaces) && t != [] && !IsSpace(t[0])
    ensures DropSpaces(spaces + t) == t
  {
    if spaces == [] {
      assert spaces + t == t;
    } else {
      BlanksGo(spaces[1..], t);
      assert (spaces + t)[1..] == spaces[1..] + t;
    }
  }

  /** Digits up to the first character that is none. */
  predicate EndsAt(rest: seq<byte>, base: Base) {
    rest == [] || !IsDigit(rest[0], base)
  }

  lemma {:induction false} LeadIs(digits: seq<byte>, rest: seq<byte>, base: Base)
    requires AllDigits(digits, base) && EndsAt(rest, base)
    ensures LeadDigits(digits + rest, base) == |digits|
  {
    if digits == [] {
      assert digits + rest == rest;
    } else {
      LeadIs(digits[1..], rest, base);
      assert (digits + rest)[1..] == digits[1..] + rest;
    }
  }

  /** A sign, or none. */
  predicate IsSign(sign: seq<byte>) {
    sign == [] || sign == Ascii("+") || sign == Ascii("-")
  }

  /** In base 16 a 0x may come first; it is not one if no digit follows. */
  predicate PrefixFits(prefix: seq<byte>, digits: seq<byte>, rest: seq<byte>, base: Base) {
    if prefix == [] then base.Hex? ==> !HasHexPrefix(digits + rest) else base.Hex? && (prefix == Ascii("0x") || prefix == Ascii("0X"))
  }

  lemma Signs()
    ensures Ascii("+") == [43] && Ascii("-") == [45] && Ascii("0x") == [48, 120] && Ascii("0X") == [48, 88]
  {
  }

  lemma AfterSign(sign: seq<byte>, t: seq<byte>, base: Base)
    requires IsSign(sign) && t != [] && IsDigit(t[0], base)
    ensures
      var a := sign + t;
      && a != [] && !IsSpace(a[0]) && (a[0] == 45 <==> sign == Ascii("-"))
      && (if a[0] == 45 || a[0] == 43 then a[1..] else a) == t
  {
    Signs();
    if sign == [] {
      assert sign + t == t;
    } else {
      assert (sign + t)[1..] == t;
    }
  }

  lemma AfterPrefix(prefix: seq<byte>, digits: seq<byte>, rest: seq<byte>, base: Base)
    requires digits != [] && AllDigits(digits, base) && PrefixFits(prefix, digits, rest, base)
    ensures
      var b := prefix + (digits + rest);
      && b != [] && IsDigit(b[0], base) && (if base.Hex? && HasHexPrefix(b) then b[2..] else b) == digits + rest
  {
    Signs();
    var b := prefix + (digits + rest);
    if prefix == [] {
      assert b == digits + rest;
    } else {
      assert b[2..] == digits + rest && b[2] == digits[0];
    }
  }

  lemma StoulFrom(s: seq<byte>, a: seq<byte>, b: seq<byte>, c: seq<byte>, digits: seq<byte>, base: Base)
    requires a == DropSpaces(s) && a != [] && b == (if a[0] == 45 || a[0] == 43 then a[1..] else a)
    requires c == (if base.Hex? && HasHexPrefix(b) then b[2..] else b)
    requires digits != [] && LeadDigits(c, base) == |digits| && c[..|digits|] == digits
    ensures AllDigits(digits, base)
    ensures Stoul(s, base) ==
      var v := Value(digits, base);
      if v > ULongMax then None else if a[0] == 45 && v > 0 then Some(ULongMax + 1 - v) else Some(v)
  {
  }

  lemma StoiFrom(s: seq<byte>, a: seq<byte>, b: seq<byte>, digits: seq<byte>)
    requires a == DropSpaces(s) && a != [] && b == (if a[0] == 45 || a[0] == 43 then a[1..] else a)
    requires digits != [] && LeadDigits(b, Decimal) == |digits| && b[..|digits|] == digits
    ensures AllDigits(digits, Decimal)
    ensures Stoi(s) ==
      var v: int := if a[0] == 45 then 0 - Value(digits, Decimal) else Value(digits, Decimal);
      if -0x8000_0000 <= v < 0x8000_0000 then Some(v) else None
  {
  }

  /**
   * std::stoul on blanks, a sign, in base 16 perhaps 0x, digits, and anything else: the value of
   * the digits, modulo 2^64 negated after a minus, and an exception from 2^64 on.
   */
  lemma StoulReads(spaces: seq<byte>, sign: seq<byte>, prefix: seq<byte>, digits: seq<byte>, rest: seq<byte>, base: Base)
    requires Blank(spaces) && IsSign(sign) && digits != [] && AllDigits(digits, base) && EndsAt(rest, base) && PrefixFits(prefix, digits, rest, base)
    ensures Stoul(spaces + (sign + (prefix + (digits + rest))), base) ==
      var v := Value(digits, base);
      if v >= 0x1_0000_0000_0000_0000 then None
      else if sign == Ascii("-") && v > 0 then Some(0x1_0000_0000_0000_0000 - v)
      else Some(v)
  {
    var c := digits + rest;
    var b := prefix + c;
    var a := sign + b;
    AfterPrefix(prefix, digits, rest, base);
    AfterSign(sign, b, base);
    BlanksGo(spaces, a);
    LeadIs(digits, rest, base);
    assert c[..|digits|] == digits;
    StoulFrom(spaces + a, a, b, c, digits, base);
  }

  /** std::stoi in the same way, with an exception outside 32 bits. */
  lemma StoiReads(spaces: seq<byte>, sign: seq<byte>, digits: seq<byte>, rest: seq<byte>)
    requires Blank(spaces) && IsSign(sign) && digits != [] && AllDigits(digits, Decimal) && EndsAt(rest, Decimal)
    ensures Stoi(spaces + (sign + (digits + rest))) ==
      var v: int := if sign == Ascii("-") then 0 - Value(digits, Decimal) else Value(digits, Decimal);
      if -0x8000_0000 <= v < 0x8000_0000 then Some(v) else None
  {
    var b := digits + rest;
    var a := sign + b;
    AfterSign(sign, b, Decimal);
    BlanksGo(spaces, a);
    LeadIs(digits, rest, Decimal);
    assert b[..|digits|] == digits;
    StoiFrom(spaces + a, a, b, digits);
  }

  /** Without a digit where the number should begin both throw. */
  lemma NoDigitThrows(spaces: seq<byte>, sign: seq<byte>, rest: seq<byte>, base: Base)
    requires Blank(spaces) && IsSign(sign) && sign != [] && EndsAt(rest, base)
    ensures Stoul(spaces + (sign + rest), base) == None
    ensures base.Decimal? ==> Stoi(spaces + (sign + rest)) == None
  {
    Signs();
    BlanksGo(spaces, sign + rest);
    assert (sign + rest)[1..] == rest;
  }

  lemma NothingThrows(spaces: seq<byte>, rest: seq<byte>, base: Base)
    requires Blank(spaces) && rest != [] && !IsSpace(rest[0]) && !IsDigit(rest[0], base) && rest[0] != Ascii("+")[0] && rest[0] != Ascii("-")[0]
    ensures Stoul(spaces + rest, base) == None
    ensures base.Decimal? ==> Stoi(spaces + rest) == None
  {
    Signs();
    BlanksGo(spaces, rest);
  }
}
