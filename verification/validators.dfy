/**
 * `is_valid_date`: `datetime.strptime(s, "%Y-%m-%d")` followed by
 * `date >= today`, any `ValueError` giving `False`.
 *
 * `strptime` matches the regular expression it builds for the format
 * (`%Y` = `\d\d\d\d`, `%m` = `1[0-2]|0[1-9]|[1-9]`,
 * `%d` = `3[01]|[12]\d|0[1-9]|[1-9]| [1-9]`) at the start of the string,
 * rejects unconverted trailing text, and then builds a `date`, which
 * rejects year 0 and days past the end of the month. For this format the
 * first alternative that matches is always the only one that can reach the
 * end of the string, so the fields below are whole-field matches.
 */
module Validators {
  import opened Wrappers
  import opened PyStr

  datatype Date = Date(year: int, month: int, day: int)

  predicate IsLeap(y: int) {
    y % 4 == 0 && (y % 100 != 0 || y % 400 == 0)
  }

  function DaysInMonth(y: int, m: int): int
    requires 1 <= m <= 12
  {
    if m == 2 then (if IsLeap(y) then 29 else 28)
    else if m == 4 || m == 6 || m == 9 || m == 11 then 30
    else 31
  }

  /** A day that `datetime.date` accepts. */
  predicate IsCalendarDate(d: Date) {
    1 <= d.year <= 9999 && 1 <= d.month <= 12 && 1 <= d.day <= DaysInMonth(d.year, d.month)
  }

  /** `a < b` on dates. */
  predicate Before(a: Date, b: Date) {
    a.year < b.year
    || (a.year == b.year && a.month < b.month)
    || (a.year == b.year && a.month == b.month && a.day < b.day)
  }

  /** The `%m` field: `1[0-2]`, `0[1-9]` or `[1-9]`. */
  function MonthField(m: string): (r: Option<int>)
    ensures r.Some? ==> 1 <= r.value <= 12
  {
    if |m| == 2 && m[0] == '1' && '0' <= m[1] <= '2' then Some(10 + DigitValue(m[1]))
    else if |m| == 2 && m[0] == '0' && '1' <= m[1] <= '9' then Some(DigitValue(m[1]))
    else if |m| == 1 && '1' <= m[0] <= '9' then Some(DigitValue(m[0]))
    else None
  }

  /** The `%d` field: `3[01]`, `[12]\d`, `0[1-9]`, `[1-9]` or a space and `[1-9]`. */
  function DayField(d: string): (r: Option<int>)
    ensures r.Some? ==> 1 <= r.value <= 31
  {
    if |d| == 2 && d[0] == '3' && '0' <= d[1] <= '1' then Some(30 + DigitValue(d[1]))
    else if |d| == 2 && '1' <= d[0] <= '2' && IsDigit(d[1]) then Some(10 * DigitValue(d[0]) + DigitValue(d[1]))
    else if |d| == 2 && d[0] == '0' && '1' <= d[1] <= '9' then Some(DigitValue(d[1]))
    else if |d| == 1 && '1' <= d[0] <= '9' then Some(DigitValue(d[0]))
    else if |d| == 2 && d[0] == ' ' && '1' <= d[1] <= '9' then Some(DigitValue(d[1]))
    else None
  }

  predicate FourDigits(s: string) {
    |s| >= 4 && IsDigit(s[0]) && IsDigit(s[1]) && IsDigit(s[2]) && IsDigit(s[3])
  }

  /** The `%Y` field: exactly four digits. */
  function YearValue(s: string): (y: nat)
    requires FourDigits(s)
    ensures y <= 9999
  {
    1000 * DigitValue(s[0]) + 100 * DigitValue(s[1]) + 10 * DigitValue(s[2]) + DigitValue(s[3])
  }

  /** What the `%Y-%m-%d` pattern extracts from `s`, or `None` where `strptime` raises. */
  function ParseYmd(s: string): (r: Option<Date>)
    ensures r.Some? ==> 0 <= r.value.year <= 9999 && 1 <= r.value.month <= 12 && 1 <= r.value.day <= 31
  {
    if !FourDigits(s) || |s| < 5 || s[4] != '-' then None
    else
      var rest := s[5..];
      var i := IndexOf(rest, '-');
      if i == |rest| then None
      else
        match (MonthField(rest[..i]), DayField(rest[i + 1..]))
        case (Some(m), Some(d)) => Some(Date(YearValue(s), m, d))
        case _ => None
  }

  /** `is_valid_date(s)` with `today` standing for `datetime.now().date()`. */
  predicate IsValidDate(s: string, today: Date) {
    match ParseYmd(s)
    case None => false
    case Some(d) => IsCalendarDate(d) && !Before(d, today)
  }

  // ---------------------------------------------------------------------
  // Canonical text of a date, and what `is_valid_date` says about it

  /** A date that `YYYY-MM-DD` can spell. */
  predicate Spellable(d: Date) {
    0 <= d.year <= 9999 && 1 <= d.month <= 12 && 1 <= d.day <= 31
  }

  function TwoDigits(n: int): string
    requires 0 <= n <= 99
  {
    [DigitChar(n / 10), DigitChar(n % 10)]
  }

  /** `d.isoformat()`: `YYYY-MM-DD` with zero padding. */
  function Iso(d: Date): (s: string)
    requires Spellable(d)
    ensures |s| == 10
  {
    var y := d.year;
    [DigitChar(y / 10 / 10 / 10), DigitChar(y / 10 / 10 % 10), DigitChar(y / 10 % 10), DigitChar(y % 10)]
    + "-" + TwoDigits(d.month) + "-" + TwoDigits(d.day)
  }

  lemma MonthFieldOfTwoDigits(m: int)
    requires 1 <= m <= 12
    ensures MonthField(TwoDigits(m)) == Some(m)
  {
  }

  lemma DayFieldOfTwoDigits(d: int)
    requires 1 <= d <= 31
    ensures DayField(TwoDigits(d)) == Some(d)
  {
  }

  lemma YearValueOfIso(d: Date)
    requires Spellable(d)
    ensures FourDigits(Iso(d)) && YearValue(Iso(d)) == d.year
  {
    var y := d.year;
    var y1 := y / 10;
    var y2 := y1 / 10;
    assert y == 10 * y1 + y % 10;
    assert y1 == 10 * y2 + y1 % 10;
    assert y2 == 10 * (y2 / 10) + y2 % 10;
    assert y2 / 10 < 10;
  }

  lemma IsoFields(d: Date)
    requires Spellable(d)
    ensures ParseYmd(Iso(d)) == Some(d)
  {
    var s := Iso(d);
    YearValueOfIso(d);
    MonthFieldOfTwoDigits(d.month);
    DayFieldOfTwoDigits(d.day);
    var mm, dd := TwoDigits(d.month), TwoDigits(d.day);
    var rest := s[5..];
    assert s[4] == '-';
    assert rest == mm + "-" + dd;
    assert IndexOf(rest, '-') == 2 by {
      assert rest[0] != '-' && rest[1] != '-' && rest[2] == '-';
    }
    assert rest[..2] == mm && rest[3..] == dd;
  }

  /**
   * On well-formed text, `is_valid_date` accepts exactly the real calendar
   * days that are not before today.
   */
  lemma IsValidDateOfIso(d: Date, today: Date)
    requires Spellable(d)
    ensures IsValidDate(Iso(d), today) <==> IsCalendarDate(d) && !Before(d, today)
  {
    IsoFields(d);
  }

  /** Today's date is accepted (the comparison is `>=`). */
  lemma TodayIsValid(today: Date)
    requires IsCalendarDate(today)
    ensures IsValidDate(Iso(today), today)
  {
    IsoFields(today);
  }

  /** A real day strictly before today is refused. */
  lemma PastIsInvalid(d: Date, today: Date)
    requires IsCalendarDate(d) && Before(d, today)
    ensures !IsValidDate(Iso(d), today)
  {
    IsoFields(d);
  }

  /** A real day after today is accepted. */
  lemma FutureIsValid(d: Date, today: Date)
    requires IsCalendarDate(d) && Before(today, d)
    ensures IsValidDate(Iso(d), today)
  {
    IsoFields(d);
  }

  /** 29 February of a non-leap year does not exist, whatever today is. */
  lemma NoFebruary29InCommonYears(y: int, today: Date)
    requires 0 <= y <= 9999 && !IsLeap(y)
    ensures !IsValidDate(Iso(Date(y, 2, 29)), today)
  {
    IsoFields(Date(y, 2, 29));
  }

  /** Accepted text is 8 to 10 characters of digits, two dashes and at most one space. */
  lemma AcceptedShape(s: string, today: Date)
    requires IsValidDate(s, today)
    ensures 8 <= |s| <= 10
    ensures forall i | 0 <= i < |s| :: IsDigit(s[i]) || s[i] == '-' || s[i] == ' '
  {
    var rest := s[5..];
    var i := IndexOf(rest, '-');
    var m := rest[..i];
    var d := rest[i + 1..];
    assert MonthField(m).Some? && DayField(d).Some?;
    assert s == s[..5] + m + "-" + d;
    forall k | 0 <= k < |s| ensures IsDigit(s[k]) || s[k] == '-' || s[k] == ' ' {
      if k < 5 {
      } else if k < 5 + |m| {
        assert s[k] == m[k - 5];
      } else if k > 5 + |m| {
        assert s[k] == d[k - 6 - |m|];
      }
    }
  }

  /** Month 13 is refused by the `%m` pattern itself. */
  lemma MonthThirteenIsInvalid(today: Date)
    ensures !IsValidDate("2025-13-01", today)
  {
    var rest := "13-01";
    assert "2025-13-01"[5..] == rest;
    assert IndexOf(rest, '-') == 2;
    assert rest[..2] == "13";
  }

  /** Text in another layout is refused rather than raising. */
  lemma OtherLayoutIsInvalid(today: Date)
    ensures !IsValidDate("08.09.2025", today)
    ensures !IsValidDate("2025/09/08", today)
    ensures !IsValidDate("", today)
  {
  }
}
