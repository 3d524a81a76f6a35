/** Decimal text of 64-bit integers: Rust's `i64::to_string` and `str::parse::<i64>`,
    which the entry form uses for the `serving_id` and `food_id` values. */
module Decimal {
  import opened Wrappers
  import opened Errors

  const MinI64: int := -0x8000_0000_0000_0000
  const MaxI64: int := 0x7fff_ffff_ffff_ffff

  predicate IsI64(n: int) {
    MinI64 <= n <= MaxI64
  }

  predicate IsDigit(c: char) {
    '0' <= c <= '9'
  }

  predicate AllDigits(s: string) {
    forall i :: 0 <= i < |s| ==> IsDigit(s[i])
  }

  function DigitValue(c: char): (d: nat)
    requires IsDigit(c)
    ensures d < 10
  {
    c as int - '0' as int
  }

  function DigitChar(d: nat): (c: char)
    requires d < 10
    ensures IsDigit(c) && DigitValue(c) == d
  {
    ('0' as int + d) as char
  }

  /** The value of a string of decimal digits, most significant first. */
  function DigitsValue(s: string): nat
    requires AllDigits(s)
  {
    if |s| == 0 then 0 else DigitsValue(s[..|s| - 1]) * 10 + DigitValue(s[|s| - 1])
  }

  /** Display of a non-negative integer: shortest digit string, no leading zero. */
  function NatToString(n: nat): (s: string)
    ensures |s| >= 1 && AllDigits(s)
    ensures |s| > 1 ==> s[0] != '0'
    ensures DigitsValue(s) == n
  {
    if n < 10 then [DigitChar(n)]
    else
      var s := NatToString(n / 10) + [DigitChar(n % 10)];
      assert s[..|s| - 1] == NatToString(n / 10);
      s
  }

  /** `i64::to_string`: a minus sign for negative values, then the digits. */
  function IntToString(n: int): (s: string)
    ensures |s| >= 1 && (n < 0 <==> s[0] == '-')
    ensures forall i :: 0 < i < |s| ==> IsDigit(s[i])
    ensures n >= 0 ==> AllDigits(s) && DigitsValue(s) == n && (|s| > 1 ==> s[0] != '0')
    ensures n < 0 ==> |s| >= 2 && AllDigits(s[1..]) && DigitsValue(s[1..]) == -n && (|s| > 2 ==> s[1] != '0')
  {
    if n < 0 then
      var s := "-" + NatToString(-n);
      assert s[1..] == NatToString(-n);
      s
    else NatToString(n)
  }

  /** The text after one leading sign, if there is one. */
  function Unsigned(s: string): (d: string)
    ensures |d| <= |s|
  {
    if |s| > 0 && (s[0] == '-' || s[0] == '+') then s[1..] else s
  }

  /** The value an optionally signed digit string spells. */
  function SignedValue(s: string): int
    requires AllDigits(Unsigned(s))
  {
    var v: int := DigitsValue(Unsigned(s));
    if |s| > 0 && s[0] == '-' then -v else v
  }

  /** `<i64 as FromStr>::from_str` with the error mapped by `From<ParseIntError>`:
      an optional `+` or `-`, then one or more ASCII digits, and the value must fit
      in 64 bits. Empty input, a lone sign, any other character and overflow fail. */
  function ParseI64(s: string): (r: Fallible<int>)
    ensures r.Ok? <==> |Unsigned(s)| > 0 && AllDigits(Unsigned(s)) && IsI64(SignedValue(s))
    ensures r.Ok? ==> r.value == SignedValue(s) && IsI64(r.value)
    ensures r.Err? ==> r.error == ParseIntError
    ensures s == "" ==> r.Err?
    ensures r.Ok? ==> exists i :: 0 <= i < |s| && IsDigit(s[i])
  {
    if |s| == 0 then Err(ParseIntError)
    else
      var negative := s[0] == '-';
      var digits := if s[0] == '-' || s[0] == '+' then s[1..] else s;
      if |digits| == 0 || !AllDigits(digits) then Err(ParseIntError)
      else
        var v: int := if negative then 0 - DigitsValue(digits) as int else DigitsValue(digits);
        assert IsDigit(s[|s| - 1]);
        if IsI64(v) then Ok(v) else Err(ParseIntError)
  }

  /** A leading zero does not change the value of a digit string. */
  lemma {:induction false} LeadingZeroValue(d: string)
    requires AllDigits(d)
    ensures AllDigits("0" + d) && DigitsValue("0" + d) == DigitsValue(d)
  {
    if |d| > 0 {
      var z := "0" + d;
      assert z[..|z| - 1] == "0" + d[..|d| - 1];
      LeadingZeroValue(d[..|d| - 1]);
    }
  }

  /** Parsing accepts more than printing writes: a `+` sign and leading zeros
      leave the value as it is. */
  lemma ParseLenient(n: nat)
    requires IsI64(n)
    ensures ParseI64("+" + NatToString(n)) == Ok(n)
    ensures ParseI64("0" + NatToString(n)) == Ok(n)
  {
    var d := NatToString(n);
    assert ("+" + d)[1..] == d;
    LeadingZeroValue(d);
  }

  /** Printing a 64-bit value and parsing the text back gives the value. */
  lemma ParseIntToString(n: int)
    requires IsI64(n)
    ensures ParseI64(IntToString(n)) == Ok(n)
  {
    var s := IntToString(n);
    if n < 0 {
      assert s[1..] == NatToString(-n);
    } else {
      assert s[0] != '-' && s[0] != '+';
    }
  }
}
