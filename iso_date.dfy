/**
 * Calendar dates on the proleptic Gregorian calendar, printed and parsed in the
 * ISO 8601 extended format YYYY-MM-DD (section 4.1.2.2 of ISO 8601:2004), the
 * way java.time.LocalDate does: toString, parse (DateTimeFormatter
 * ISO_LOCAL_DATE with its strict resolver) and minusDays(1).
 */
module IsoDate {
  import opened Wrappers
  import opened JavaText

  /** The years LocalDate can hold. */
  const MinYear: int := -999_999_999
  const MaxYear: int := 999_999_999

  datatype Date = Date(year: int, month: int, day: int)

  predicate IsLeapYear(y: int) {
    y % 4 == 0 && (y % 100 != 0 || y % 400 == 0)
  }

  function DaysInMonth(y: int, m: int): (n: int)
    requires 1 <= m <= 12
    ensures 28 <= n <= 31
  {
    if m == 2 then (if IsLeapYear(y) then 29 else 28)
    else if m == 4 || m == 6 || m == 9 || m == 11 then 30
    else 31
  }

  /** A real day of the calendar (month 1..12, day within the month). */
  predicate IsValid(d: Date) {
    1 <= d.month <= 12 && 1 <= d.day <= DaysInMonth(d.year, d.month)
  }

  predicate InRange(d: Date) {
    MinYear <= d.year <= MaxYear
  }

  /** Chronological order. */
  predicate Before(a: Date, b: Date) {
    || a.year < b.year
    || (a.year == b.year && a.month < b.month)
    || (a.year == b.year && a.month == b.month && a.day < b.day)
  }

  /** LocalDate.minusDays(1), on the unbounded calendar. */
  function PrevDay(d: Date): (p: Date)
    requires IsValid(d)
    ensures IsValid(p) && Before(p, d)
    ensures p.year == d.year || p.year == d.year - 1
  {
    if d.day > 1 then Date(d.year, d.month, d.day - 1)
    else if d.month > 1 then Date(d.year, d.month - 1, DaysInMonth(d.year, d.month - 1))
    else Date(d.year - 1, 12, 31)
  }

  /** LocalDate.plusDays(1): the reference inverse of PrevDay. */
  function NextDay(d: Date): (n: Date)
    requires IsValid(d)
    ensures IsValid(n) && Before(d, n)
  {
    if d.day < DaysInMonth(d.year, d.month) then Date(d.year, d.month, d.day + 1)
    else if d.month < 12 then Date(d.year, d.month + 1, 1)
    else Date(d.year + 1, 1, 1)
  }

  /** Stepping back a day and forward again, or forward and back, returns to the start. */
  lemma PrevNextInverse(d: Date)
    requires IsValid(d)
    ensures NextDay(PrevDay(d)) == d
    ensures PrevDay(NextDay(d)) == d
  {
  }

  /** No day lies strictly between a day and the day before it. */
  lemma PrevDayAdjacent(d: Date, e: Date)
    requires IsValid(d) && IsValid(e)
    ensures !(Before(PrevDay(d), e) && Before(e, d))
  {
  }

  /** The day k days before d: minusDays(1) applied k times. */
  function DaysBefore(d: Date, k: nat): (r: Date)
    requires IsValid(d)
    ensures IsValid(r)
    ensures r.year <= d.year
    decreases k
  {
    if k == 0 then d else PrevDay(DaysBefore(d, k - 1))
  }

  /** Stepping back one day and then j more is stepping back j + 1 days. */
  lemma {:induction false} DaysBeforeShift(d: Date, j: nat)
    requires IsValid(d)
    ensures DaysBefore(PrevDay(d), j) == DaysBefore(d, j + 1)
    decreases j
  {
    if j > 0 {
      DaysBeforeShift(d, j - 1);
    }
  }

  /** Walking further back gives strictly earlier days. */
  lemma {:induction false} DaysBeforeStrictlyEarlier(d: Date, i: nat, j: nat)
    requires IsValid(d) && i < j
    ensures Before(DaysBefore(d, j), DaysBefore(d, i))
    decreases j
  {
    if i < j - 1 {
      DaysBeforeStrictlyEarlier(d, i, j - 1);
    }
  }

  /** Years never increase while walking back, so a walk whose last day is in
      LocalDate's range stayed in range all along. */
  lemma {:induction false} DaysBeforeYearsDecrease(d: Date, i: nat, j: nat)
    requires IsValid(d) && i <= j
    ensures DaysBefore(d, j).year <= DaysBefore(d, i).year
    decreases j
  {
    if i < j {
      DaysBeforeYearsDecrease(d, i, j - 1);
    }
  }

  // ---------------------------------------------------------------------------
  // LocalDate.toString

  /** n in decimal, zero-padded on the left to at least width digits. */
  function PaddedDigits(n: nat, width: nat): (r: string)
    ensures |r| >= 1 && |r| >= width
    decreases n, width
  {
    var c := DigitChar(n % 10);
    if n < 10 && width <= 1 then [c]
    else PaddedDigits(n / 10, if width > 0 then width - 1 else 0) + [c]
  }

  /** The padded digits are decimal digits whose value is n. */
  lemma {:induction false} PaddedDigitsValue(n: nat, width: nat)
    ensures AllDigits(PaddedDigits(n, width)) && DigitsValue(PaddedDigits(n, width)) == n
    decreases n, width
  {
    if !(n < 10 && width <= 1) {
      var p := PaddedDigits(n / 10, if width > 0 then width - 1 else 0);
      PaddedDigitsValue(n / 10, if width > 0 then width - 1 else 0);
      assert PaddedDigits(n, width)[..|p|] == p;
    }
  }

  /** Padding to width digits needs no more than k >= width digits exactly
      when n < 10^k. */
  lemma {:induction false} PaddedDigitsLength(n: nat, width: nat, k: nat)
    requires 1 <= k && width <= k
    ensures |PaddedDigits(n, width)| <= k <==> n < Pow10(k)
    decreases n, width
  {
    if !(n < 10 && width <= 1) {
      var w := if width > 0 then width - 1 else 0;
      if k > 1 {
        PaddedDigitsLength(n / 10, w, k - 1);
        assert n < Pow10(k) <==> n / 10 < Pow10(k - 1);
      }
    }
  }

  /** The magnitude of a year in decimal, zero-padded to four digits. */
  function YearDigits(a: nat): (r: string)
    ensures |r| >= 4
  {
    PaddedDigits(a, 4)
  }

  /** The sign LocalDate prints before a year: '-' before year 0, '+' after
      year 9999, none in between. */
  function YearSign(y: int): string {
    if y < 0 then "-" else if y > 9999 then "+" else ""
  }

  /** At least four digits, with '-' for years before year 0 and '+' for years
      after 9999. */
  function FormatYear(y: int): string {
    YearSign(y) + YearDigits(if y < 0 then -y else y)
  }

  /** The six characters after the year: '-', two month digits, '-', two
      day digits. */
  function MonthDayText(month: int, day: int): (r: string)
    requires 0 <= month < 100 && 0 <= day < 100
    ensures |r| == 6
  {
    ['-', DigitChar(month / 10), DigitChar(month % 10), '-', DigitChar(day / 10), DigitChar(day % 10)]
  }

  /** LocalDate.toString: YYYY-MM-DD. */
  function FormatIsoDate(d: Date): string
    requires IsValid(d)
  {
    FormatYear(d.year) + MonthDayText(d.month, d.day)
  }

  // ---------------------------------------------------------------------------
  // LocalDate.parse

  /** The year field of ISO_LOCAL_DATE, parsed strictly: four to ten digits; no
      sign for exactly four; '+' only for more than four; '-' for negative
      years, never with the value zero. */
  function ParseYear(s: string): Option<int> {
    if |s| == 0 then None
    else
      var signed := s[0] == '+' || s[0] == '-';
      var digits := if signed then s[1..] else s;
      if !AllDigits(digits) || |digits| < 4 || |digits| > 10 then None
      else if s[0] == '+' && |digits| <= 4 then None
      else if !signed && |digits| > 4 then None
      else
        var v: int := DigitsValue(digits);
        if s[0] == '-' && v == 0 then None
        else if s[0] == '-' then Some(0 - v) else Some(v)
  }

  /** The month and day of the last six characters: '-', two digits, '-',
      two digits. */
  function ParseMonthDay(t: string): Option<(int, int)>
    requires |t| == 6
  {
    if t[0] != '-' || t[3] != '-' then None
    else if !IsDigit(t[1]) || !IsDigit(t[2]) || !IsDigit(t[4]) || !IsDigit(t[5]) then None
    else Some((10 * DigitValue(t[1]) + DigitValue(t[2]), 10 * DigitValue(t[4]) + DigitValue(t[5])))
  }

  /** LocalDate.parse: None where it throws DateTimeParseException. The text is
      a year, '-', two month digits, '-', two day digits, and nothing else; the
      year must be in range and the day must exist. */
  function ParseIsoDate(s: string): (r: Option<Date>)
    ensures r.Some? ==> IsValid(r.value) && InRange(r.value)
  {
    if |s| < 10 then None
    else
      var md := ParseMonthDay(s[|s| - 6..]);
      var y := ParseYear(s[..|s| - 6]);
      if md.None? || y.None? then None
      else
        var d := Date(y.value, md.value.0, md.value.1);
        if InRange(d) && IsValid(d) then Some(d) else None
  }

  /** The year field reads back what FormatYear printed. */
  lemma ParseFormatYear(y: int)
    requires MinYear <= y <= MaxYear
    ensures ParseYear(FormatYear(y)) == Some(y)
  {
    var s := FormatYear(y);
    var a := if y < 0 then -y else y;
    var digits := YearDigits(a);
    PaddedDigitsValue(a, 4);
    PaddedDigitsLength(a, 4, 4);
    PaddedDigitsLength(a, 4, 10);
    assert Pow10(4) == 10000;
    assert Pow10(10) == 10_000_000_000;
    if y < 0 {
      assert s == "-" + digits;
      assert s[1..] == digits;
    } else if y > 9999 {
      assert s == "+" + digits;
      assert s[1..] == digits;
    } else {
      assert s == digits;
      assert IsDigit(s[0]);
    }
  }

  lemma ParseMonthDayText(month: int, day: int)
    requires 0 <= month < 100 && 0 <= day < 100
    ensures ParseMonthDay(MonthDayText(month, day)) == Some((month, day))
  {
  }

  /** LocalDate.parse reads back what LocalDate.toString printed, for every
      date LocalDate can hold. */
  lemma ParseFormatIsoDate(d: Date)
    requires IsValid(d) && InRange(d)
    ensures ParseIsoDate(FormatIsoDate(d)) == Some(d)
  {
    var y := FormatYear(d.year);
    var t := MonthDayText(d.month, d.day);
    var s := FormatIsoDate(d);
    ParseFormatYear(d.year);
    ParseMonthDayText(d.month, d.day);
    assert s[..|s| - 6] == y;
    assert s[|s| - 6..] == t;
  }

  /** Different dates print differently. */
  lemma FormatIsoDateInjective(d: Date, e: Date)
    requires IsValid(d) && InRange(d) && IsValid(e) && InRange(e)
    requires FormatIsoDate(d) == FormatIsoDate(e)
    ensures d == e
  {
    ParseFormatIsoDate(d);
    ParseFormatIsoDate(e);
  }
}
