/** Numbers as text: std::to_string, printf "%zx" and std::stoul, and how they undo each other. */
module Numbers {
  import opened Prelude

  const ULongMax := 0xFFFF_FFFF_FFFF_FFFF

  function DigitChar(d: nat): byte
    requires d < 16
  {
    if d < 10 then (48 + d) as byte else (87 + d) as byte
  }

  /** The value of a digit in any base up to 16, in either case. */
  function DigitVal(c: byte): Option<nat> {
    if 48 <= c <= 57 then Some(c as nat - 48)
    else if 65 <= c <= 70 then Some(c as nat - 55)
    else if 97 <= c <= 102 then Some(c as nat - 87)
    else None
  }

  datatype Base = Decimal | Hex {
    function Num(): nat {
      if Decimal? then 10 else 16
    }
    function Div(n: nat): nat {
      if Decimal? then n / 10 else n / 16
    }
    function Mod(n: nat): (r: nat)
      ensures r < Num()
    {
      if Decimal? then n % 10 else n % 16
    }
    function Shift(v: nat, d: nat): nat {
      if Decimal? then 10 * v + d else 16 * v + d
    }
  }

  predicate IsDigit(c: byte, base: Base) {
    DigitVal(c).Some? && DigitVal(c).value < base.Num()
  }

  predicate AllDigits(s: seq<byte>, base: Base) {
    forall i :: 0 <= i < |s| ==> IsDigit(s[i], base)
  }

  /** n in the given base, lower case, without leading zeros. */
  function Digits(n: nat, base: Base): (s: seq<byte>)
    ensures s != [] && AllDigits(s, base)
  {
    if n < base.Num() then [DigitChar(n)] else Digits(base.Div(n), base) + [DigitChar(base.Mod(n))]
  }

  function Value(s: seq<byte>, base: Base): nat
    requires AllDigits(s, base)
  {
    if s == [] then 0 else base.Shift(Value(s[..|s| - 1], base), DigitVal(s[|s| - 1]).value)
  }

  /** How many digits s starts with. */
  function LeadDigits(s: seq<byte>, base: Base): (n: nat)
    ensures n <= |s| && AllDigits(s[..n], base)
    ensures n < |s| ==> !IsDigit(s[n], base)
  {
    if s == [] || !IsDigit(s[0], base) then 0 else
    var m := LeadDigits(s[1..], base);
    assert s[..m + 1] == [s[0]] + s[1..][..m];
    m + 1
  }

  predicate IsSpace(c: byte) {
    c == 32 || 9 <= c <= 13
  }

  function DropSpaces(s: seq<byte>): seq<byte> {
    if s != [] && IsSpace(s[0]) then DropSpaces(s[1..]) else s
  }

  predicate HasHexPrefix(s: seq<byte>) {
    |s| > 2 && s[0] == 48 && (s[1] == 120 || s[1] == 88) && IsDigit(s[2], Hex)
  }

  /** std::stoul(s, nullptr, base): None where it throws. */
  function Stoul(s: seq<byte>, base: Base): Option<nat>
  {
    var a := DropSpaces(s);
    var negative := a != [] && a[0] == 45;
    var b := if a != [] && (a[0] == 45 || a[0] == 43) then a[1..] else a;
    var c := if base.Hex? && HasHexPrefix(b) then b[2..] else b;
    var n := LeadDigits(c, base);
    if n == 0 then None else
    var v := Value(c[..n], base);
    if v > ULongMax then None
    else if negative && v > 0 then Some(ULongMax + 1 - v)
    else Some(v)
  }

  /** std::stoi(s) with 32-bit int. */
  function Stoi(s: seq<byte>): Option<int> {
    var a := DropSpaces(s);
    var negative := a != [] && a[0] == 45;
    var b := if a != [] && (a[0] == 45 || a[0] == 43) then a[1..] else a;
    var n := LeadDigits(b, Decimal);
    if n == 0 then None else
    var v: int := Value(b[..n], Decimal);
    if negative then (if v > 0x8000_0000 then None else Some(-v))
    else if v > 0x7FFF_FFFF then None
    else Some(v)
  }

  lemma DigitCharVal(d: nat)
    requires d < 16
    ensures DigitVal(DigitChar(d)) == Some(d)
  {
  }

  lemma ValueAppend(s: seq<byte>, d: nat, base: Base)
    requires AllDigits(s, base) && d < base.Num()
    ensures AllDigits(s + [DigitChar(d)], base) && Value(s + [DigitChar(d)], base) == base.Shift(Value(s, base), d)
  {
    DigitCharVal(d);
    assert (s + [DigitChar(d)])[..|s|] == s;
  }

  lemma {:induction false} ValueOfDigits(n: nat, base: Base)
    ensures Value(Digits(n, base), base) == n
  {
    if n < base.Num() {
      ValueAppend([], n, base);
      assert Digits(n, base) == [] + [DigitChar(n)];
    } else {
      ValueOfDigits(base.Div(n), base);
      ValueAppend(Digits(base.Div(n), base), base.Mod(n), base);
    }
  }

  lemma {:induction false} LeadDigitsAll(s: seq<byte>, base: Base)
    requires AllDigits(s, base)
    ensures LeadDigits(s, base) == |s|
  {
    if s != [] {
      LeadDigitsAll(s[1..], base);
    }
  }

  /** stoul reads back what to_string and %zx print, up to the width of an unsigned long. */
  lemma StoulOfDigits(n: nat, base: Base)
    ensures Stoul(Digits(n, base), base) == if n <= ULongMax then Some(n) else None
  {
    var s := Digits(n, base);
    assert IsDigit(s[0], base);
    assert DropSpaces(s) == s;
    assert |s| > 1 ==> IsDigit(s[1], base);
    LeadDigitsAll(s, base);
    assert s[..|s|] == s;
    ValueOfDigits(n, base);
  }

  lemma StoiOfDigits(n: nat)
    requires n < 0x8000_0000
    ensures Stoi(Digits(n, Decimal)) == Some(n)
  {
    var s := Digits(n, Decimal);
    assert IsDigit(s[0], Decimal);
    assert DropSpaces(s) == s;
    LeadDigitsAll(s, Decimal);
    assert s[..|s|] == s;
    ValueOfDigits(n, Decimal);
  }

  /** base to the k. */
  function Pow(base: Base, k: nat): (p: nat)
    ensures p >= 1
  {
    if k == 0 then 1 else base.Shift(Pow(base, k - 1), 0)
  }

  /** k digits are enough exactly below base to the k. */
  lemma {:induction false} DigitsLength(n: nat, base: Base, k: nat)
    requires k > 0
    ensures |Digits(n, base)| <= k <==> n < Pow(base, k)
  {
    if k == 1 {
      assert Pow(base, 1) == base.Num();
    } else if n >= base.Num() {
      DigitsLength(base.Div(n), base, k - 1);
    }
  }
}
