/**
 * The two JavaScript number conversions the handlers use on counts:
 * `parseInt(text, 10)` and `String(n)` (template interpolation), over
 * integers, with NaN as its own value.
 */
module JsNumber {
  import opened JsText

  /** A JavaScript number as the handlers see it: an integer or NaN. */
  datatype Number = NaN | Int(value: int)

  predicate IsDigit(c: char) {
    '0' <= c <= '9'
  }

  predicate AllDigits(s: string) {
    forall x | 0 <= x < |s| :: IsDigit(s[x])
  }

  /** End of the run of decimal digits that starts at `i`. */
  function DigitsEnd(s: string, i: nat): (j: nat)
    requires i <= |s|
    ensures i <= j <= |s|
    ensures forall x | i <= x < j :: IsDigit(s[x])
    ensures j == |s| || !IsDigit(s[j])
    decreases |s| - i
  {
    if i < |s| && IsDigit(s[i]) then DigitsEnd(s, i + 1) else i
  }

  /** The value of a string of decimal digits, most significant first. */
  function DigitsValue(ds: string): nat
    requires AllDigits(ds)
    decreases |ds|
  {
    if ds == [] then 0
    else DigitsValue(ds[..|ds| - 1]) * 10 + (ds[|ds| - 1] as int - '0' as int)
  }

  /**
   * `parseInt(s, 10)`: leading white space is skipped, then one optional sign,
   * then the longest run of decimal digits; no digit at all gives NaN.
   * (JavaScript's `-0` is written 0: every use here treats them alike.)
   */
  function ParseInt(s: string): (r: Number)
    ensures r.Int? <==> var t := s[SpaceEnd(s, 0)..];
      (|t| > 0 && IsDigit(t[0])) || (|t| > 1 && (t[0] == '-' || t[0] == '+') && IsDigit(t[1]))
  {
    var t := s[SpaceEnd(s, 0)..];
    var signed := |t| > 0 && (t[0] == '-' || t[0] == '+');
    var u := if signed then t[1..] else t;
    var n := DigitsEnd(u, 0);
    if n == 0 then NaN
    else
      var v: int := DigitsValue(u[..n]);
      Int(if signed && t[0] == '-' then -v else v)
  }

  function DigitChar(d: nat): (c: char)
    requires d < 10
    ensures IsDigit(c) && c as int - '0' as int == d
  {
    (d + '0' as int) as char
  }

  /** The decimal digits of `n`, without leading zeros. */
  function ShowNat(n: nat): (r: string)
    ensures |r| >= 1 && AllDigits(r)
    ensures DigitsValue(r) == n
    decreases n
  {
    if n < 10 then [DigitChar(n)]
    else
      var r := ShowNat(n / 10) + [DigitChar(n % 10)];
      assert r[..|r| - 1] == ShowNat(n / 10);
      r
  }

  /** `String(n)` for an integer. */
  function ShowInt(n: int): string {
    if n < 0 then "-" + ShowNat(-n) else ShowNat(n)
  }

  /** `String(x)`. */
  function Show(x: Number): string {
    match x
    case NaN => "NaN"
    case Int(n) => ShowInt(n)
  }

  /** `x + 1`; NaN stays NaN. */
  function Succ(x: Number): Number {
    match x
    case NaN => NaN
    case Int(n) => Int(n + 1)
  }

  /** `parseInt` reads back what `String` writes. */
  lemma ParseShow(n: int)
    ensures ParseInt(ShowInt(n)) == Int(n)
  {
    var s := ShowInt(n);
    var digits := ShowNat(if n < 0 then -n else n);
    assert !IsSpace(s[0]);
    SpaceEndAt(s, 0, 0);
    assert s[0..] == s;
    var u := if n < 0 then s[1..] else s;
    assert u == digits;
    DigitsEndAt(u, 0, |u|);
    assert u[..|u|] == digits;
  }

  /** `parseInt` of a string of decimal digits is their value. */
  lemma ParseDigits(s: string)
    requires s != [] && AllDigits(s)
    ensures ParseInt(s) == Int(DigitsValue(s))
  {
    assert !IsSpace(s[0]);
    SpaceEndAt(s, 0, 0);
    assert s[0..] == s;
    DigitsEndAt(s, 0, |s|);
    assert s[..|s|] == s;
  }

  /**
   * `parseInt` reads the longest prefix that is a number: after leading white
   * space it takes the digits up to the first non-digit and ignores whatever
   * follows, so "12.5" and "12abc" are 12.
   */
  lemma ParsePrefix(ws: string, ds: string, rest: string)
    requires Blank(ws) && ds != [] && AllDigits(ds) && (rest == [] || !IsDigit(rest[0]))
    ensures ParseInt(ws + ds + rest) == Int(DigitsValue(ds))
  {
    var s := ws + ds + rest;
    assert s[|ws|] == ds[0];
    SpaceEndAt(s, 0, |ws|);
    var u := ds + rest;
    assert s[|ws|..] == u;
    DigitsEndAt(u, 0, |ds|);
    assert u[..|ds|] == ds;
  }

  /** The same with one sign before the digits: "-" negates, "+" does not. */
  lemma ParseSignedPrefix(ws: string, sign: char, ds: string, rest: string)
    requires Blank(ws) && (sign == '+' || sign == '-')
    requires ds != [] && AllDigits(ds) && (rest == [] || !IsDigit(rest[0]))
    ensures var v: int := DigitsValue(ds); ParseInt(ws + [sign] + ds + rest) == Int(if sign == '-' then -v else v)
  {
    var s := ws + [sign] + ds + rest;
    assert s[|ws|] == sign;
    SpaceEndAt(s, 0, |ws|);
    var u := ds + rest;
    assert s[|ws|..] == [sign] + u;
    assert s[|ws|..][1..] == u;
    DigitsEndAt(u, 0, |ds|);
    assert u[..|ds|] == ds;
  }

  /** "12.5" reads as 12: the fraction is ignored. */
  lemma ParseFraction()
    ensures ParseInt("12.5") == Int(12)
  {
    assert "12.5" == "" + "12" + ".5";
    ParsePrefix("", "12", ".5");
  }

  /** " -7px" reads as -7: leading space is skipped and the unit ignored. */
  lemma ParseUnit()
    ensures ParseInt(" -7px") == Int(-7)
  {
    assert " -7px" == " " + ['-'] + "7" + "px";
    ParseSignedPrefix(" ", '-', "7", "px");
  }

  lemma DigitsEndAt(s: string, i: nat, j: nat)
    requires i <= j <= |s|
    requires forall x | i <= x < j :: IsDigit(s[x])
    requires j == |s| || !IsDigit(s[j])
    ensures DigitsEnd(s, i) == j
  {
  }
}
