/**
 * Character and string helpers the source takes from .NET: ASCII case
 * mapping (`char.ToUpper`, `char.IsUpper`, `string.ToUpper`), decimal
 * formatting of integers (string interpolation) and `int.TryParse`.
 */
module Text {
  import opened Basics

  predicate IsAsciiUpper(c: char) {
    'A' <= c <= 'Z'
  }

  predicate IsAsciiLower(c: char) {
    'a' <= c <= 'z'
  }

  predicate IsDigit(c: char) {
    '0' <= c <= '9'
  }

  /** Upper-case mapping of one character, restricted to the ASCII letters. */
  function UpperChar(c: char): (u: char)
    ensures IsAsciiLower(c) ==> IsAsciiUpper(u) && u as int == c as int - 32
    ensures !IsAsciiLower(c) ==> u == c
    ensures !IsAsciiLower(u)
  {
    if IsAsciiLower(c) then (c as int - 32) as char else c
  }

  function LowerChar(c: char): (l: char)
    ensures IsAsciiUpper(c) ==> IsAsciiLower(l) && UpperChar(l) == c
    ensures !IsAsciiUpper(c) ==> l == c
  {
    if IsAsciiUpper(c) then (c as int + 32) as char else c
  }

  /** Upper-case mapping of a whole string, character by character. */
  function Upper(s: string): (u: string)
    ensures |u| == |s|
    ensures forall i :: 0 <= i < |s| ==> u[i] == UpperChar(s[i])
  {
    seq(|s|, i requires 0 <= i < |s| => UpperChar(s[i]))
  }

  function Lower(s: string): (l: string)
    ensures |l| == |s|
    ensures forall i :: 0 <= i < |s| ==> l[i] == LowerChar(s[i])
  {
    seq(|s|, i requires 0 <= i < |s| => LowerChar(s[i]))
  }

  /** Upper-casing twice is upper-casing once, and it undoes lower-casing. */
  lemma UpperIdempotent(s: string)
    ensures Upper(Upper(s)) == Upper(s)
    ensures Upper(Lower(s)) == Upper(s)
  {
    assert forall i :: 0 <= i < |s| ==> Upper(Upper(s))[i] == Upper(s)[i];
    assert forall i :: 0 <= i < |s| ==> Upper(Lower(s))[i] == Upper(s)[i];
  }

  // ---------------------------------------------------------------- decimal

  function DigitChar(d: nat): (c: char)
    requires d < 10
    ensures IsDigit(c)
  {
    ('0' as int + d) as char
  }

  function DigitValue(c: char): (d: nat)
    requires IsDigit(c)
    ensures d < 10 && DigitChar(d) == c
  {
    c as int - '0' as int
  }

  predicate AllDigits(s: string) {
    forall i :: 0 <= i < |s| ==> IsDigit(s[i])
  }

  /** Decimal digits of a natural number, most significant first, no leading zeros. */
  function NatToString(n: nat): (s: string)
    ensures |s| > 0 && AllDigits(s)
    ensures |s| > 1 ==> s[0] != '0'
    decreases n
  {
    if n < 10 then [DigitChar(n)] else NatToString(n / 10) + [DigitChar(n % 10)]
  }

  /** Decimal rendering of an integer, as C# string interpolation writes an `int`. */
  function IntToString(n: int): (s: string)
    ensures |s| > 0
    ensures IsDigit(s[|s| - 1])
    ensures n < 0 <==> s[0] == '-'
  {
    if n < 0 then "-" + NatToString(-n) else NatToString(n)
  }

  /** Value of a non-empty run of decimal digits. */
  function DigitsValue(s: string): nat
    requires AllDigits(s)
  {
    if |s| == 0 then 0 else DigitsValue(s[..|s| - 1]) * 10 + DigitValue(s[|s| - 1])
  }

  lemma {:induction false} DigitsValueOfNatToString(n: nat)
    ensures DigitsValue(NatToString(n)) == n
    decreases n
  {
    if n >= 10 {
      var s := NatToString(n);
      assert s[..|s| - 1] == NatToString(n / 10);
      DigitsValueOfNatToString(n / 10);
    }
  }

  // ---------------------------------------------------------------- parsing

  /** The white space `int.TryParse` skips: U+0009 to U+000D and the space. */
  predicate IsWhite(c: char) {
    c == ' ' || '\t' <= c <= '\r'
  }

  function TrimStartWhite(s: string): (t: string)
    ensures |t| <= |s| && t == s[|s| - |t|..]
    ensures |t| > 0 ==> !IsWhite(t[0])
  {
    if |s| > 0 && IsWhite(s[0]) then TrimStartWhite(s[1..]) else s
  }

  function TrimEndWhite(s: string): (t: string)
    ensures |t| <= |s| && t == s[..|t|]
    ensures |t| > 0 ==> !IsWhite(t[|t| - 1])
  {
    if |s| > 0 && IsWhite(s[|s| - 1]) then TrimEndWhite(s[..|s| - 1]) else s
  }

  /** Trailing NUL characters, which .NET number parsing also accepts after the number. */
  function TrimEndNul(s: string): (t: string)
    ensures |t| <= |s| && t == s[..|t|]
    ensures |t| > 0 ==> t[|t| - 1] != '\0'
  {
    if |s| > 0 && s[|s| - 1] == '\0' then TrimEndNul(s[..|s| - 1]) else s
  }

  /**
   * `int.TryParse(s, out v)` with the invariant culture: optional white space,
   * an optional `+` or `-`, at least one ASCII digit, optional white space and
   * NULs; the value must fit in an `int`.
   */
  function TryParseInt(s: string): (r: Option<int32>)
    ensures r.Some? ==> exists i :: 0 <= i < |s| && IsDigit(s[i])
  {
    var core := TrimStartWhite(TrimEndWhite(TrimEndNul(s)));
    var r := ParseSigned(core);
    if r.Some? then
      assert exists i :: 0 <= i < |core| && IsDigit(core[i]);
      r
    else r
  }

  /** The sign and digits left once the surrounding white space is gone. */
  function ParseSigned(core: string): (r: Option<int32>)
    ensures r.Some? ==> exists i :: 0 <= i < |core| && IsDigit(core[i])
  {
    var negative := |core| > 0 && core[0] == '-';
    var digits := if |core| > 0 && (core[0] == '-' || core[0] == '+') then core[1..] else core;
    if |digits| == 0 || !AllDigits(digits) then None
    else
      var v: int := if negative then 0 - (DigitsValue(digits) as int) else DigitsValue(digits);
      if InInt32(v) then
        assert IsDigit(core[|core| - 1]);
        Some(v)
      else None
  }

  lemma FormattedHasNoPadding(n: int)
    ensures TrimStartWhite(TrimEndWhite(TrimEndNul(IntToString(n)))) == IntToString(n)
  {
    var s := IntToString(n);
    assert TrimEndNul(s) == s;
    assert TrimEndWhite(s) == s;
    assert TrimStartWhite(s) == s;
  }

  /** Formatting an `int` and parsing it back gives the same `int`. */
  lemma FormatThenParse(n: int32)
    ensures TryParseInt(IntToString(n)) == Some(n)
  {
    FormattedHasNoPadding(n);
    ParseFormatted(n);
  }

  lemma ParseFormatted(n: int32)
    ensures ParseSigned(IntToString(n)) == Some(n)
  {
    if n < 0 {
      var m: nat := 0 - (n as int);
      var d := NatToString(m);
      assert IntToString(n)[1..] == d;
      DigitsValueOfNatToString(m);
    } else {
      var d := NatToString(n);
      assert d[0] != '-' && d[0] != '+';
      DigitsValueOfNatToString(n);
    }
  }

  /** Distinct integers have distinct decimal renderings. */
  lemma FormatInjective(m: int32, n: int32)
    requires IntToString(m) == IntToString(n)
    ensures m == n
  {
    FormatThenParse(m);
    FormatThenParse(n);
  }
}
