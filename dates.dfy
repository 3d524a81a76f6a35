/** Calendar dates and their `YYYY-MM-DD` text (crates/shared/src/date.rs): the
    full-date form of section 5.6 of RFC 3339, printed with chrono's `%Y-%m-%d`
    and parsed back with the same format, plus the SQL column round trip. */
module Dates {
  import opened Wrappers
  import opened Errors
  import opened Decimal

  datatype Ymd = Ymd(year: int, month: int, day: int)

  /** Proleptic Gregorian leap years, as chrono counts them. */
  predicate IsLeapYear(y: int) {
    y % 4 == 0 && (y % 100 != 0 || y % 400 == 0)
  }

  function DaysInMonth(y: int, m: int): (n: int)
    requires 1 <= m <= 12
    ensures 28 <= n <= 31
  {
    if m == 2 then (if IsLeapYear(y) then 29 else 28)
    else if m == 4 || m == 6 || m == 9 || m == 11 then 30
    else 31
  }

  /** A real calendar day whose year has four digits. */
  predicate IsValidDate(d: Ymd) {
    && 0 <= d.year <= 9999
    && 1 <= d.month <= 12
    && 1 <= d.day <= DaysInMonth(d.year, d.month)
  }

  /** chrono's `NaiveDate`: only real calendar days can be built. */
  type NaiveDate = d: Ymd | IsValidDate(d) witness Ymd(1970, 1, 1)

  function Pow10(k: nat): (p: nat)
    ensures p >= 1
  {
    if k == 0 then 1 else 10 * Pow10(k - 1)
  }

  /** `n` written with exactly `width` digits, zero-padded on the left. */
  function Padded(n: nat, width: nat): (s: string)
    requires n < Pow10(width)
    ensures |s| == width && AllDigits(s) && DigitsValue(s) == n
  {
    if width == 0 then ""
    else
      var s := Padded(n / 10, width - 1) + [DigitChar(n % 10)];
      assert s[..|s| - 1] == Padded(n / 10, width - 1);
      s
  }

  /** Every digit string is the padded form of its own value. */
  lemma {:induction false} PaddedDigitsValue(t: string)
    requires AllDigits(t)
    ensures DigitsValue(t) < Pow10(|t|)
    ensures Padded(DigitsValue(t), |t|) == t
  {
    if |t| > 0 {
      var init := t[..|t| - 1];
      PaddedDigitsValue(init);
      var v := DigitsValue(t);
      assert v / 10 == DigitsValue(init) && v % 10 == DigitValue(t[|t| - 1]);
      assert init + [t[|t| - 1]] == t;
    }
  }

  /** chrono's `format("%Y-%m-%d")`. */
  function Format(d: NaiveDate): (s: string)
    ensures |s| == 10 && s[4] == '-' && s[7] == '-'
    ensures AllDigits(s[..4]) && AllDigits(s[5..7]) && AllDigits(s[8..])
    ensures '/' !in s
  {
    var s := Padded(d.year, 4) + "-" + Padded(d.month, 2) + "-" + Padded(d.day, 2);
    assert s[..4] == Padded(d.year, 4) && s[5..7] == Padded(d.month, 2) && s[8..] == Padded(d.day, 2);
    s
  }

  /** Four digits, a dash, two digits, a dash, two digits. */
  predicate IsDateShape(s: string) {
    && |s| == 10 && s[4] == '-' && s[7] == '-'
    && AllDigits(s[..4]) && AllDigits(s[5..7]) && AllDigits(s[8..])
  }

  /** The fields a date-shaped text spells, valid or not. */
  function Fields(s: string): Ymd
    requires IsDateShape(s)
  {
    Ymd(DigitsValue(s[..4]), DigitsValue(s[5..7]), DigitsValue(s[8..]))
  }

  /** A date-shaped text naming a real day is the printed form of that day. */
  lemma FormatFields(s: string)
    requires IsDateShape(s) && IsValidDate(Fields(s))
    ensures Format(Fields(s)) == s
  {
    var f, y, m, d := Fields(s), s[..4], s[5..7], s[8..];
    PaddedDigitsValue(y);
    PaddedDigitsValue(m);
    PaddedDigitsValue(d);
    assert Padded(f.year, 4) == y && Padded(f.month, 2) == m && Padded(f.day, 2) == d;
    assert s == y + "-" + m + "-" + d;
  }

  /** `NaiveDate::parse_from_str(s, "%Y-%m-%d")` on the zero-padded form: the text
      must have the date shape and name a real calendar day. */
  function ParseNaive(s: string): (r: Option<NaiveDate>)
    ensures r.Some? <==> IsDateShape(s) && IsValidDate(Fields(s))
    ensures r.Some? ==> r.value == Fields(s) && Format(r.value) == s
  {
    if IsDateShape(s) && IsValidDate(Fields(s)) then
      FormatFields(s);
      Some(Fields(s))
    else None
  }

  /** Printing a date and parsing the text gives the date back. */
  lemma ParseFormat(d: NaiveDate)
    ensures ParseNaive(Format(d)) == Some(d)
  {
    var s := Format(d);
    assert s[..4] == Padded(d.year, 4) && s[5..7] == Padded(d.month, 2) && s[8..] == Padded(d.day, 2);
  }

  /** Two dates print alike only when they are the same date, so comparing the
      printed text compares the dates. */
  lemma FormatInjective(a: NaiveDate, b: NaiveDate)
    ensures Format(a) == Format(b) <==> a == b
  {
    if Format(a) == Format(b) {
      ParseFormat(a);
      ParseFormat(b);
    }
  }

  /** `Date`, the newtype around `NaiveDate`. */
  datatype Date = Date(inner: NaiveDate)

  /** `Date::new`. */
  function New(naive: NaiveDate): (d: Date)
    ensures IntoInner(d) == naive
  {
    Date(naive)
  }

  /** `Date::into_inner`: the wrapped date, so `into_inner(new(n)) == n`. */
  function IntoInner(d: Date): (n: NaiveDate)
    ensures Date(n) == d
  {
    d.inner
  }

  /** `impl Display for Date`: the `%Y-%m-%d` text, which parses back to the date. */
  function ToString(d: Date): (s: string)
    ensures |s| == 10 && IsDateShape(s)
    ensures ParseNaive(s) == Some(d.inner)
  {
    ParseFormat(d.inner);
    Format(d.inner)
  }

  function InvalidDate(text: string): AppError {
    AppError("invalid date: " + text)
  }

  /** `impl TryFrom<String> for Date`: the parsed date, or "invalid date: <input>". */
  function TryFrom(s: string): (r: Fallible<Date>)
    ensures r.Ok? <==> IsDateShape(s) && IsValidDate(Fields(s))
    ensures r.Ok? ==> ToString(r.value) == s
    ensures r.Err? ==> r.error == InvalidDate(s)
  {
    match ParseNaive(s)
    case Some(n) => Ok(Date(n))
    case None => Err(InvalidDate(s))
  }

  lemma TryFromToString(d: Date)
    ensures TryFrom(ToString(d)) == Ok(d)
  {
  }

  /** The SQLite values a column can hold. */
  datatype SqlValue =
    | Null
    | Integer(i: int)
    | Real(r: real)
    | Text(t: string)
    | Blob(bytes: seq<bv8>)

  /** rusqlite's `FromSqlError`, reduced to the two kinds that reach this code. */
  datatype FromSqlError = InvalidType | Other(cause: AppError)

  /** `impl ToSql for Date`: the date is stored as its display text. */
  function ToSql(d: Date): (v: SqlValue)
    ensures v.Text? && |v.t| == 10
  {
    Text(ToString(d))
  }

  /** `impl FromSql for Date`: a text column is parsed with `TryFrom`, and a parse
      failure becomes `FromSqlError::Other`; any other column kind is the type error
      that reading a `String` raises. */
  function ColumnResult(v: SqlValue): (r: Result<Date, FromSqlError>)
    ensures !v.Text? ==> r == Err(InvalidType)
    ensures v.Text? ==> (r.Ok? <==> TryFrom(v.t).Ok?)
    ensures v.Text? && r.Err? ==> r == Err(Other(InvalidDate(v.t)))
  {
    match v
    case Text(t) =>
      (match TryFrom(t)
       case Ok(d) => Ok(d)
       case Err(e) => Err(Other(e)))
    case _ => Err(InvalidType)
  }

  /** Storing a date and reading the column back yields the same date. */
  lemma SqlRoundTrip(d: Date)
    ensures ColumnResult(ToSql(d)) == Ok(d)
  {
    TryFromToString(d);
  }
}
