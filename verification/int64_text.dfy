/**
 * Decimal text for 64-bit integers as .NET reads and writes it:
 * `long.TryParse(s, out n)` (integer number style, invariant signs) and
 * `n.ToString()`.
 */
module Int64Text {
  import opened Wrappers

  const MinInt64: int := -0x8000_0000_0000_0000
  const MaxInt64: int := 0x7FFF_FFFF_FFFF_FFFF

  predicate InInt64(n: int) {
    MinInt64 <= n <= MaxInt64
  }

  /** White space the integer number style allows around the number. */
  predicate IsNumberWhite(c: char) {
    c == ' ' || '\t' <= c <= '\r'
  }

  predicate IsDigit(c: char) {
    '0' <= c <= '9'
  }

  /** Length of the leading run of white space. */
  function WhiteSpan(s: string): (n: nat)
    ensures n <= |s|
    ensures forall i :: 0 <= i < n ==> IsNumberWhite(s[i])
    ensures n == |s| || !IsNumberWhite(s[n])
  {
    if s == [] || !IsNumberWhite(s[0]) then 0 else 1 + WhiteSpan(s[1..])
  }

  /** Length of the leading run of decimal digits. */
  function DigitSpan(s: string): (n: nat)
    ensures n <= |s|
    ensures forall i :: 0 <= i < n ==> IsDigit(s[i])
    ensures n == |s| || !IsDigit(s[n])
  {
    if s == [] || !IsDigit(s[0]) then 0 else 1 + DigitSpan(s[1..])
  }

  /** The value of a run of decimal digits, most significant first. */
  function DigitsValue(s: string): nat
    requires forall i :: 0 <= i < |s| ==> IsDigit(s[i])
  {
    if s == [] then 0
    else
      assert IsDigit(s[|s| - 1]);
      10 * DigitsValue(s[..|s| - 1]) + (s[|s| - 1] as int - '0' as int)
  }

  /** The unsigned part of a number and whether it was negated. */
  function SignAndRest(s: string): (r: (bool, string))
    ensures |r.1| <= |s|
  {
    if s != [] && s[0] == '-' then (true, s[1..])
    else if s != [] && s[0] == '+' then (false, s[1..])
    else (false, s)
  }

  /**
   * `long.TryParse`: optional leading white space, an optional sign, one or more
   * digits, optional trailing white space, then nothing but NUL characters;
   * the value must fit in 64 bits.
   */
  function TryParseInt64(s: string): (r: Option<int>)
    ensures r.Some? ==> InInt64(r.value)
  {
    var body := s[WhiteSpan(s)..];
    var (negative, unsigned) := SignAndRest(body);
    var d := DigitSpan(unsigned);
    var tail := unsigned[d..];
    var rest := tail[WhiteSpan(tail)..];
    if d == 0 || exists i :: 0 <= i < |rest| && rest[i] != '\0' then None
    else
      var magnitude: int := DigitsValue(unsigned[..d]);
      var n: int := if negative then -magnitude else magnitude;
      if InInt64(n) then Some(n) else None
  }

  function DigitChar(d: nat): (c: char)
    requires d < 10
    ensures IsDigit(c) && c as int - '0' as int == d
  {
    ('0' as int + d) as char
  }

  /** The decimal digits of a natural number, without leading zeros. */
  function Digits(n: nat): (s: string)
    ensures s != [] && forall i :: 0 <= i < |s| ==> IsDigit(s[i])
    ensures |s| > 1 ==> s[0] != '0'
  {
    if n < 10 then [DigitChar(n)] else Digits(n / 10) + [DigitChar(n % 10)]
  }

  /** `n.ToString()` for a 64-bit integer: a '-' before the digits of a negative number. */
  function ToDecimal(n: int): (s: string)
    ensures s != []
    ensures (s[0] == '-') == (n < 0)
    ensures forall i :: (if n < 0 then 1 else 0) <= i < |s| ==> IsDigit(s[i])
    ensures |s| > (if n < 0 then 2 else 1) ==> s[if n < 0 then 1 else 0] != '0'
  {
    if n < 0 then "-" + Digits(-n) else Digits(n)
  }

  lemma {:induction false} DigitsValueOfDigits(n: nat)
    ensures DigitsValue(Digits(n)) == n
  {
    if n >= 10 {
      var s := Digits(n);
      assert s[..|s| - 1] == Digits(n / 10);
      DigitsValueOfDigits(n / 10);
    }
  }

  lemma {:induction false} DigitSpanAll(s: string)
    requires forall i :: 0 <= i < |s| ==> IsDigit(s[i])
    ensures DigitSpan(s) == |s|
  {
    if s != [] {
      DigitSpanAll(s[1..]);
    }
  }

  /** Writing a 64-bit integer and reading it back gives the same integer. */
  lemma ParseToDecimal(n: int)
    requires InInt64(n)
    ensures TryParseInt64(ToDecimal(n)) == Some(n)
  {
    var s := ToDecimal(n);
    var m := if n < 0 then -n else n;
    var digits := Digits(m);
    assert s[0] == '-' || IsDigit(s[0]);
    assert WhiteSpan(s) == 0;
    assert s[0..] == s;
    assert SignAndRest(s) == (n < 0, digits) by {
      if n < 0 { assert s[1..] == digits; }
    }
    DigitSpanAll(digits);
    assert digits[|digits|..] == [];
    assert digits[..|digits|] == digits;
    DigitsValueOfDigits(m);
  }

  /** The canonical text of a 64-bit integer: what `ToString` writes. */
  predicate Canonical(s: string) {
    var r := TryParseInt64(s);
    r.Some? && ToDecimal(r.value) == s
  }

  /** Every 64-bit integer's text is canonical. */
  lemma ToDecimalIsCanonical(n: int)
    requires InInt64(n)
    ensures Canonical(ToDecimal(n))
  {
    ParseToDecimal(n);
  }
}
