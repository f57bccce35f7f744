/**
 * Character classes and the two numeric conversions the reader relies on:
 * `std::stoi`, modelled exactly on 32-bit `int`, and `std::stod`, kept abstract.
 */
module Numbers {
  import opened Wrappers

  /** `isspace` in the classic locale: what `\s` matches and what stoi/stod skip. */
  predicate IsSpace(c: char) {
    c == ' ' || c == '\t' || c == '\n' || c == '\r' || c == '\U{B}' || c == '\U{C}'
  }

  predicate IsDigit(c: char) {
    '0' <= c <= '9'
  }

  predicate AllDigits(s: string) {
    forall i :: 0 <= i < |s| ==> IsDigit(s[i])
  }

  /** Length of the longest prefix of `s` made of white space. */
  function SpacePrefix(s: string): (n: nat)
    ensures n <= |s|
    ensures forall i :: 0 <= i < n ==> IsSpace(s[i])
    ensures n < |s| ==> !IsSpace(s[n])
  {
    if s == [] || !IsSpace(s[0]) then 0 else 1 + SpacePrefix(s[1..])
  }

  /** Length of the longest prefix of `s` made of decimal digits. */
  function DigitPrefix(s: string): (n: nat)
    ensures n <= |s| && AllDigits(s[..n])
    ensures n < |s| ==> !IsDigit(s[n])
  {
    if s == [] || !IsDigit(s[0]) then 0 else 1 + DigitPrefix(s[1..])
  }

  function DigitValue(c: char): (d: nat)
    requires IsDigit(c)
    ensures d < 10
  {
    c as int - '0' as int
  }

  function DigitChar(d: nat): (c: char)
    requires d < 10
    ensures IsDigit(c) && DigitValue(c) == d
  {
    ('0' as int + d) as char
  }

  /** The value of a string of decimal digits, most significant first. */
  function DigitsValue(ds: string): nat
    requires AllDigits(ds)
    decreases |ds|
  {
    if ds == [] then 0
    else DigitsValue(ds[..|ds| - 1]) * 10 + DigitValue(ds[|ds| - 1])
  }

  /** The shortest decimal spelling of a natural number. */
  function NatDigits(n: nat): (ds: string)
    ensures ds != [] && AllDigits(ds)
    decreases n
  {
    if n < 10 then [DigitChar(n)] else NatDigits(n / 10) + [DigitChar(n % 10)]
  }

  /** The decimal spelling of an integer, with a leading '-' when negative. */
  function Decimal(v: int): string {
    if v < 0 then "-" + NatDigits(-v) else NatDigits(v)
  }

  const IntMin: int := -0x8000_0000
  const IntMax: int := 0x7fff_ffff

  /**
   * std::stoi: skip leading white space, take an optional sign and the longest
   * run of digits after it, ignore whatever follows; no digit at all is
   * std::invalid_argument and a value outside `int` is std::out_of_range.
   */
  function ParseInt(s: string): (r: Option<int>)
    ensures r.Some? ==> IntMin <= r.value <= IntMax
  {
    var t := s[SpacePrefix(s)..];
    var signed := |t| > 0 && (t[0] == '-' || t[0] == '+');
    var u := if signed then t[1..] else t;
    var n := DigitPrefix(u);
    if n == 0 then None
    else
      var magnitude := DigitsValue(u[..n]);
      var v: int := if signed && t[0] == '-' then -(magnitude as int) else magnitude as int;
      if IntMin <= v <= IntMax then Some(v) else None
  }

  lemma {:induction false} DigitsValueOfNatDigits(n: nat)
    ensures DigitsValue(NatDigits(n)) == n
    decreases n
  {
    if n >= 10 {
      var ds := NatDigits(n / 10) + [DigitChar(n % 10)];
      assert ds[..|ds| - 1] == NatDigits(n / 10);
      DigitsValueOfNatDigits(n / 10);
    }
  }

  /** The digit run of `ds + rest` is `ds` when `rest` does not start with a digit. */
  lemma DigitPrefixOfDigits(ds: string, rest: string)
    requires AllDigits(ds)
    requires rest == [] || !IsDigit(rest[0])
    ensures DigitPrefix(ds + rest) == |ds| && (ds + rest)[..|ds|] == ds
  {
    var u := ds + rest;
    assert u[..|ds|] == ds;
  }

  /** std::stoi on a run of digits followed by text that does not start with a digit. */
  lemma ParseIntOfDigits(ds: string, rest: string)
    requires ds != [] && AllDigits(ds)
    requires rest == [] || !IsDigit(rest[0])
    ensures ParseInt(ds + rest) == if DigitsValue(ds) <= IntMax then Some(DigitsValue(ds) as int) else None
  {
    DigitPrefixOfDigits(ds, rest);
    ParseIntUnsigned(ds + rest);
  }

  /** std::stoi on a minus sign, a run of digits and text that does not start with a digit. */
  lemma ParseIntOfNegativeDigits(ds: string, rest: string)
    requires ds != [] && AllDigits(ds)
    requires rest == [] || !IsDigit(rest[0])
    ensures ParseInt("-" + (ds + rest)) == var v: int := DigitsValue(ds); if IntMin <= -v then Some(-v) else None
  {
    var u := ds + rest;
    var s := "-" + u;
    DigitPrefixOfDigits(ds, rest);
    assert s[1..] == u;
    ParseIntSigned(s);
    assert DigitPrefix(s[1..]) == |ds| && s[1..][..|ds|] == ds;
  }

  /** std::stoi reads back the digits of a value that fits an int, whatever non-digit text follows. */
  lemma ParseIntOfDecimal(v: int, rest: string)
    requires IntMin <= v <= IntMax
    requires rest == [] || !IsDigit(rest[0])
    ensures ParseInt(Decimal(v) + rest) == Some(v)
  {
    var m: nat := if v < 0 then -v else v;
    var ds := NatDigits(m);
    DigitsValueOfNatDigits(m);
    if v < 0 {
      assert Decimal(v) + rest == "-" + (ds + rest);
      ParseIntOfNegativeDigits(ds, rest);
    } else {
      assert Decimal(v) + rest == ds + rest;
      ParseIntOfDigits(ds, rest);
    }
  }

  /** std::stoi on text that starts with a digit. */
  lemma ParseIntUnsigned(u: string)
    requires |u| > 0 && IsDigit(u[0])
    ensures var n := DigitPrefix(u); var v := DigitsValue(u[..n]);
      ParseInt(u) == if v <= IntMax then Some(v) else None
  {
    assert SpacePrefix(u) == 0;
    assert u[0..] == u;
  }

  /** std::stoi on a minus sign followed by text that starts with a digit. */
  lemma ParseIntSigned(s: string)
    requires |s| > 1 && s[0] == '-' && IsDigit(s[1])
    ensures var n := DigitPrefix(s[1..]); var v: int := DigitsValue(s[1..][..n]);
      ParseInt(s) == if IntMin <= -v then Some(-v) else None
  {
    assert SpacePrefix(s) == 0;
    assert s[0..] == s;
  }

  /**
   * A real number as read by std::stod. Floating-point values are not modelled:
   * a number is identified by the token it was read from.
   */
  datatype Num = Num(literal: string)

  /** Three numbers, for OFFSET and end-site positions (Eigen::Vector3d). */
  datatype Vec3 = Vec3(x: Num, y: Num, z: Num)

  /**
   * Whether std::stod can convert some prefix of `s` to a decimal number:
   * after white space and an optional sign, a digit, or a '.' followed by a digit.
   */
  predicate StartsDecimal(s: string) {
    var t := s[SpacePrefix(s)..];
    var u := if |t| > 0 && (t[0] == '-' || t[0] == '+') then t[1..] else t;
    (|u| > 0 && IsDigit(u[0])) || (|u| > 1 && u[0] == '.' && IsDigit(u[1]))
  }

  /** std::stod, abstracted: the token becomes a number exactly when stod can convert it. */
  function ParseNum(s: string): (r: Option<Num>)
    ensures r.Some? <==> StartsDecimal(s)
    ensures r.Some? ==> r.value.literal == s
  {
    if StartsDecimal(s) then Some(Num(s)) else None
  }

  /** Every `int` spelling that stoi accepts is also a number for stod. */
  lemma ParseNumOfDecimal(v: int)
    ensures ParseNum(Decimal(v)) == Some(Num(Decimal(v)))
  {
    var ds := NatDigits(if v < 0 then -v else v);
    assert SpacePrefix(Decimal(v)) == 0;
    assert Decimal(v)[SpacePrefix(Decimal(v))..] == Decimal(v);
    if v < 0 {
      assert Decimal(v)[1..] == ds;
    }
  }
}
