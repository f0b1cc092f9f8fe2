/** PHP 8's numeric strings: the is_numeric() test and the (int) cast of a
    string, as the shortcode applies them to its count attribute. */
module PhpNumbers {
  import opened Wrappers
  import PhpStrings

  predicate IsDigit(c: char) {
    '0' <= c <= '9'
  }

  predicate AllDigits(s: string) {
    forall i :: 0 <= i < |s| ==> IsDigit(s[i])
  }

  predicate IsSign(c: char) {
    c == '+' || c == '-'
  }

  predicate IsExponentMark(c: char) {
    c == 'e' || c == 'E'
  }

  /** The whitespace PHP's numeric-string grammar allows around a number:
      space, tab, line feed, carriage return, vertical tab and form feed. */
  const NumericSpace: set<char> := {' ', '\t', '\n', '\r', '\U{000B}', '\U{000C}'}

  /** Length of the longest run of decimal digits at the start of `s`. */
  function DigitRun(s: string): (n: nat)
    ensures n <= |s|
    ensures forall i :: 0 <= i < n ==> IsDigit(s[i])
    ensures n == |s| || !IsDigit(s[n])
  {
    if |s| > 0 && IsDigit(s[0]) then 1 + DigitRun(s[1..]) else 0
  }

  /** Length of the longest run of numeric whitespace at the start of `s`. */
  function SpaceRun(s: string): (n: nat)
    ensures n <= |s|
    ensures forall i :: 0 <= i < n ==> s[i] in NumericSpace
    ensures n == |s| || s[n] !in NumericSpace
  {
    if |s| > 0 && s[0] in NumericSpace then 1 + SpaceRun(s[1..]) else 0
  }

  /** Where the digits of an exponent part start: after the mark and an
      optional sign. */
  function ExponentDigitsStart(b: string): nat
    requires |b| >= 2
  {
    if IsSign(b[1]) then 2 else 1
  }

  /** Length of the exponent part (`e`, optional sign, at least one digit) at
      the start of `b`; 0 when there is none. */
  function ExponentLength(b: string): (n: nat)
    ensures n > 0 ==> 2 <= n <= |b| && IsExponentMark(b[0])
    ensures n > 0 ==> (ExponentDigitsStart(b) < n
                       && forall i :: ExponentDigitsStart(b) <= i < n ==> IsDigit(b[i]))
  {
    if |b| >= 2 && IsExponentMark(b[0]) then
      var start := ExponentDigitsStart(b);
      var d := DigitRun(b[start..]);
      if d > 0 then start + d else 0
    else 0
  }

  /** A number as PHP's numeric-string grammar reads it:
      [+-]? (digits | digits? '.' digits | digits '.' digits?) ([eE] [+-]? digits)? */
  datatype Numeral = Numeral(negative: bool, intDigits: string, fracDigits: string,
                             expNegative: bool, expDigits: string)

  /** The shape of the mantissa at the start of `a`: the number of integer
      digits, whether a '.' follows them, and the number of fraction digits
      after it. */
  datatype Mantissa = Mantissa(intLen: nat, dot: bool, fracLen: nat) {
    function Length(): nat {
      if dot then intLen + 1 + fracLen else intLen
    }
  }

  function ScanMantissa(a: string): (m: Mantissa)
    ensures m.Length() <= |a|
    ensures AllDigits(a[..m.intLen])
    ensures m.dot ==> a[m.intLen] == '.' && AllDigits(a[m.intLen + 1..m.Length()])
    ensures !m.dot ==> m.fracLen == 0
  {
    var ni := DigitRun(a);
    if ni < |a| && a[ni] == '.' then
      var nf := DigitRun(a[ni + 1..]);
      assert a[ni + 1..ni + 1 + nf] == a[ni + 1..][..nf];
      Mantissa(ni, true, nf)
    else Mantissa(ni, false, 0)
  }

  /** The digits of the exponent part at the start of `b`, if there is one. */
  function ExponentDigits(b: string): (d: string)
    ensures AllDigits(d)
  {
    var ne := ExponentLength(b);
    if ne > 0 then b[ExponentDigitsStart(b)..ne] else []
  }

  /** The longest prefix of `s` that reads as a number, with its length. */
  function ScanNumeral(s: string): (r: Option<(Numeral, nat)>)
    ensures r.Some? ==> 0 < r.value.1 <= |s|
    ensures r.Some? ==> |r.value.0.intDigits| + |r.value.0.fracDigits| > 0
    ensures r.Some? ==> (AllDigits(r.value.0.intDigits) && AllDigits(r.value.0.fracDigits)
                         && AllDigits(r.value.0.expDigits))
  {
    var signLen := if |s| > 0 && IsSign(s[0]) then 1 else 0;
    var a := s[signLen..];
    var m := ScanMantissa(a);
    if m.intLen + m.fracLen == 0 then None
    else
      var b := a[m.Length()..];
      var ne := ExponentLength(b);
      var numeral := Numeral(
        signLen == 1 && s[0] == '-',
        a[..m.intLen],
        if m.dot then a[m.intLen + 1..m.Length()] else [],
        ne > 0 && b[1] == '-',
        ExponentDigits(b));
      Some((numeral, signLen + m.Length() + ne))
  }

  function DigitValue(c: char): nat {
    if IsDigit(c) then c as int - '0' as int else 0
  }

  /** The value of a string of decimal digits. */
  function DigitsValue(s: string): nat {
    if s == [] then 0 else 10 * DigitsValue(s[..|s| - 1]) + DigitValue(s[|s| - 1])
  }

  function Pow10(n: nat): (p: nat)
    ensures p >= 1
  {
    if n == 0 then 1 else 10 * Pow10(n - 1)
  }

  /** The numeral's value truncated toward zero, which is what converting it to
      an integer yields. */
  function Truncate(n: Numeral): int {
    var m := DigitsValue(n.intDigits + n.fracDigits);
    var e: int := if n.expNegative then -(DigitsValue(n.expDigits) as int) else DigitsValue(n.expDigits);
    var f := |n.fracDigits|;
    var magnitude := if e >= f then m * Pow10(e - f) else m / Pow10(f - e);
    if n.negative then -magnitude else magnitude
  }

  /** PHP 8's is_numeric($s) on a string: optional leading whitespace, one
      number, optional trailing whitespace, and nothing else. */
  predicate IsNumeric(s: string) {
    var t := s[SpaceRun(s)..];
    match ScanNumeral(t)
    case None => false
    case Some((_, len)) => SpaceRun(t[len..]) == |t| - len
  }

  /** PHP 8's (int)$s: after leading whitespace, the number at the start of the
      string truncated toward zero, and 0 when there is none. */
  function IntCast(s: string): int {
    var t := s[SpaceRun(s)..];
    match ScanNumeral(t)
    case None => 0
    case Some((n, _)) => Truncate(n)
  }

  function DigitChar(d: nat): (c: char)
    requires d < 10
    ensures IsDigit(c) && DigitValue(c) == d
  {
    ('0' as int + d) as char
  }

  /** The decimal rendering of a natural number, without leading zeros. */
  function NatToString(n: nat): (s: string)
    ensures |s| > 0 && AllDigits(s)
  {
    if n < 10 then [DigitChar(n)] else NatToString(n / 10) + [DigitChar(n % 10)]
  }

  /** The decimal rendering of an integer, with a leading '-' when negative. */
  function IntToString(i: int): string {
    if i < 0 then "-" + NatToString(-i) else NatToString(i)
  }

  lemma {:induction false} NatToStringValue(n: nat)
    ensures DigitsValue(NatToString(n)) == n
  {
    if n >= 10 {
      NatToStringValue(n / 10);
      var s := NatToString(n);
      assert s[..|s| - 1] == NatToString(n / 10);
    }
  }

  /** A run of digits, optionally after a '-', scans in full as an integer
      numeral. */
  lemma ScanDigits(neg: bool, d: string)
    requires |d| > 0 && AllDigits(d)
    ensures var s := if neg then "-" + d else d;
      ScanNumeral(s) == Some((Numeral(neg, d, [], false, []), |s|))
  {
    var s := if neg then "-" + d else d;
    var signLen := if neg then 1 else 0;
    assert s[signLen..] == d;
    assert DigitRun(d) == |d|;
    assert ScanMantissa(d) == Mantissa(|d|, false, 0);
    assert d[|d|..] == [];
    assert ExponentLength([]) == 0;
    assert d[..|d|] == d;
  }

  /** Every decimal rendering of an integer is numeric and the (int) cast
      reads it back as the same integer. */
  lemma DecimalRoundTrip(i: int)
    ensures IsNumeric(IntToString(i))
    ensures IntCast(IntToString(i)) == i
  {
    var d := NatToString(if i < 0 then -i else i);
    NatToStringValue(if i < 0 then -i else i);
    SignedDigitsCast(i < 0, d);
    assert IntToString(i) == (if i < 0 then "-" + d else d);
  }

  /** A decimal rendering has no surrounding trim characters. */
  lemma TrimOfDecimal(k: int)
    ensures PhpStrings.Trim(IntToString(k)) == IntToString(k)
  {
    var d := NatToString(if k < 0 then -k else k);
    var s := IntToString(k);
    assert IsDigit(d[0]) && IsDigit(d[|d| - 1]);
    assert s[|s| - 1] == d[|d| - 1];
    PhpStrings.TrimOfTrimmed(s);
  }

  /** A run of digits, optionally after a '-', is numeric and casts to its
      value, negated when the sign is there. */
  lemma SignedDigitsCast(neg: bool, d: string)
    requires |d| > 0 && AllDigits(d)
    ensures var s := if neg then "-" + d else d;
      && IsNumeric(s)
      && IntCast(s) == if neg then -(DigitsValue(d) as int) else DigitsValue(d)
  {
    var s := if neg then "-" + d else d;
    SignedDigitsScan(neg, d);
    assert IsNumeric(s);
    TruncateWhole(neg, d);
  }

  /** A run of digits, optionally after a '-', has no leading whitespace and
      scans in full, leaving nothing after it. */
  lemma SignedDigitsScan(neg: bool, d: string)
    requires |d| > 0 && AllDigits(d)
    ensures var s := if neg then "-" + d else d;
      && SpaceRun(s) == 0 && s[SpaceRun(s)..] == s
      && ScanNumeral(s) == Some((Numeral(neg, d, [], false, []), |s|))
      && SpaceRun(s[|s|..]) == 0
  {
    var s := if neg then "-" + d else d;
    ScanDigits(neg, d);
    assert s[0] !in NumericSpace;
    assert s[0..] == s;
    assert s[|s|..] == [];
  }

  /** A numeral with no fraction and no exponent truncates to its digits'
      value, negated when it carries a '-'. */
  lemma TruncateWhole(neg: bool, d: string)
    ensures Truncate(Numeral(neg, d, [], false, [])) == if neg then -(DigitsValue(d) as int) else DigitsValue(d)
  {
    assert d + [] == d;
    assert DigitsValue([]) == 0;
    assert Pow10(0) == 1;
  }
}
