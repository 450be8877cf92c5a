/**
  Spreadsheet cells and calendar values.  A cell is either empty (NaN after
  reading) or holds a value; for a filled cell the model keeps the three views the
  engine takes of it: its string form (`astype(str)`), what the external numeric
  parser makes of it (`pd.to_numeric(errors="coerce")`) and what the external date
  parser makes of it (`pd.to_datetime(errors="coerce")`).  The parsers themselves
  are outside the model; their verdicts are data.
 */
module Cells {
  import opened Options

  const NanosPerDay: int := 86_400_000_000_000

  /** A timestamp split into calendar fields and the nanoseconds since midnight. */
  datatype DateTime = DateTime(year: int, month: int, day: int, nanos: int)

  /** The fields a pandas `Timestamp` can hold (its range is years 1677 to 2262). */
  predicate ValidDateTime(d: DateTime) {
    && 1677 <= d.year <= 2262
    && 1 <= d.month <= 12
    && 1 <= d.day <= 31
    && 0 <= d.nanos < NanosPerDay
  }

  type Stamp = d: DateTime | ValidDateTime(d) witness DateTime(1970, 1, 1, 0)

  datatype Cell =
    | Missing
    | Filled(text: string, number: Option<real>, stamp: Option<Stamp>)

  /** `astype(str)`: an empty cell is the float NaN, whose string form is "nan". */
  function AsText(c: Cell): string {
    match c
    case Missing => "nan"
    case Filled(t, _, _) => t
  }

  /** `isna()` / `isnull()`. */
  predicate IsNa(c: Cell) {
    c.Missing?
  }

  /** `pd.to_numeric(errors="coerce")`: absent for an empty cell or unparsable text. */
  function ToNumeric(c: Cell): Option<real> {
    match c
    case Missing => None
    case Filled(_, n, _) => n
  }

  /** `pd.to_datetime(errors="coerce")`: NaT for an empty cell or an unparsable value. */
  function ToDatetime(c: Cell): Option<Stamp> {
    match c
    case Missing => None
    case Filled(_, _, d) => d
  }

  // ----- strftime("%d/%m/%Y") and its inverse -----

  /** A calendar day: what "%d/%m/%Y" keeps of a timestamp. */
  datatype Day = Day(day: int, month: int, year: int)

  function DayOf(d: Stamp): Day {
    Day(d.day, d.month, d.year)
  }

  function Digit(n: int): char
    requires 0 <= n <= 9
  {
    ('0' as int + n) as char
  }

  predicate IsDigit(c: char) {
    '0' <= c <= '9'
  }

  function DigitValue(c: char): int {
    c as int - '0' as int
  }

  function Pad2(n: int): string
    requires 0 <= n <= 99
  {
    [Digit(n / 10), Digit(n % 10)]
  }

  function Pad4(n: int): string
    requires 0 <= n <= 9999
  {
    [Digit(n / 1000), Digit(n / 100 % 10), Digit(n / 10 % 10), Digit(n % 10)]
  }

  /** `strftime("%d/%m/%Y")` of a timestamp. */
  function FormatDay(d: Stamp): (r: string)
    ensures |r| == 10 && r[2] == '/' && r[5] == '/'
  {
    Pad2(d.day) + "/" + Pad2(d.month) + "/" + Pad4(d.year)
  }

  /** The same, lifted over NaT: `.dt.strftime` leaves NaT as NaN. */
  function FormatDayOpt(d: Option<Stamp>): (r: Option<string>)
    ensures r.Some? <==> d.Some?
  {
    match d
    case None => None
    case Some(v) => Some(FormatDay(v))
  }

  /** Reads a "dd/mm/yyyy" string back into a day; anything else is rejected. */
  function ParseDay(s: string): Option<Day> {
    if |s| == 10 && s[2] == '/' && s[5] == '/'
       && IsDigit(s[0]) && IsDigit(s[1]) && IsDigit(s[3]) && IsDigit(s[4])
       && IsDigit(s[6]) && IsDigit(s[7]) && IsDigit(s[8]) && IsDigit(s[9])
    then
      Some(Day(
        10 * DigitValue(s[0]) + DigitValue(s[1]),
        10 * DigitValue(s[3]) + DigitValue(s[4]),
        1000 * DigitValue(s[6]) + 100 * DigitValue(s[7]) + 10 * DigitValue(s[8]) + DigitValue(s[9])))
    else None
  }

  lemma Pad2Value(n: int)
    requires 0 <= n <= 99
    ensures IsDigit(Pad2(n)[0]) && IsDigit(Pad2(n)[1])
    ensures 10 * DigitValue(Pad2(n)[0]) + DigitValue(Pad2(n)[1]) == n
  {
  }

  lemma Pad4Value(n: int)
    requires 0 <= n <= 9999
    ensures forall i :: 0 <= i < 4 ==> IsDigit(Pad4(n)[i])
    ensures 1000 * DigitValue(Pad4(n)[0]) + 100 * DigitValue(Pad4(n)[1])
            + 10 * DigitValue(Pad4(n)[2]) + DigitValue(Pad4(n)[3]) == n
  {
    var a, b, c, e := n / 1000, n / 100 % 10, n / 10 % 10, n % 10;
    assert n / 100 == 10 * a + b;
    assert n / 10 == 10 * (n / 100) + c;
    assert n == 10 * (n / 10) + e;
  }

  /** Round trip: the day written by "%d/%m/%Y" is read back exactly. */
  lemma FormatThenParse(d: Stamp)
    ensures ParseDay(FormatDay(d)) == Some(DayOf(d))
  {
    var s := FormatDay(d);
    Pad2Value(d.day);
    Pad2Value(d.month);
    Pad4Value(d.year);
    assert s[0..2] == Pad2(d.day);
    assert s[3..5] == Pad2(d.month);
    assert s[6..10] == Pad4(d.year);
  }

  /** Two timestamps format to the same "dd/mm/yyyy" string exactly when they fall on the same
      calendar day, whatever their times of day. */
  lemma FormatDayInjective(a: Stamp, b: Stamp)
    ensures FormatDay(a) == FormatDay(b) <==> DayOf(a) == DayOf(b)
  {
    FormatThenParse(a);
    FormatThenParse(b);
  }

  /** Comparing formatted (possibly NaN) dates is comparing calendar days, with NaN equal to NaN
      as in pandas' `duplicated` and `groupby`. */
  predicate SameDay(a: Option<Stamp>, b: Option<Stamp>) {
    (a.None? && b.None?) || (a.Some? && b.Some? && DayOf(a.value) == DayOf(b.value))
  }

  lemma FormatDayOptEq(a: Option<Stamp>, b: Option<Stamp>)
    ensures FormatDayOpt(a) == FormatDayOpt(b) <==> SameDay(a, b)
  {
    if a.Some? && b.Some? {
      FormatDayInjective(a.value, b.value);
    }
  }
}
