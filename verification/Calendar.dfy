/** Day numbers: the era arithmetic of `days_from_civil` against plain day counting, and the
    age computation built on it (the same code in both backends). */
module Calendar {
  import opened Wrappers
  import Text

  const I32_MIN: int := -0x8000_0000
  const I32_MAX: int := 0x7FFF_FFFF
  const U32_MAX: int := 0xFFFF_FFFF
  const SECONDS_PER_DAY := 86_400

  // ---------- counting days one by one ----------

  /** The leap rule of RFC 3339, appendix C. */
  predicate IsLeap(year: int) {
    year % 4 == 0 && (year % 100 != 0 || year % 400 == 0)
  }

  function DaysInMonth(year: int, month: int): int {
    if month == 2 then if IsLeap(year) then 29 else 28
    else if month in {4, 6, 9, 11} then 30
    else 31
  }

  function YearLength(year: int): int {
    if IsLeap(year) then 366 else 365
  }

  /** Days from 1970-01-01 to the first day of the year, year by year. */
  function DaysBeforeYear(year: int): int
    decreases if year >= 1970 then year - 1970 else 1970 - year
  {
    if year == 1970 then 0
    else if year > 1970 then DaysBeforeYear(year - 1) + YearLength(year - 1)
    else DaysBeforeYear(year + 1) - YearLength(year)
  }

  function DaysBeforeMonth(year: int, month: int): int
    requires 1 <= month <= 12
    decreases month
  {
    if month == 1 then 0 else DaysBeforeMonth(year, month - 1) + DaysInMonth(year, month - 1)
  }

  function DayNumber(year: int, month: int, day: int): int
    requires 1 <= month <= 12
  {
    DaysBeforeYear(year) + DaysBeforeMonth(year, month) + day - 1
  }

  predicate ValidDate(year: int, month: int, day: int) {
    1 <= month <= 12 && 1 <= day <= DaysInMonth(year, month)
  }

  // ---------- the closed form ----------

  /** Rust's integer division, which truncates towards zero. */
  function TruncDiv(a: int, b: int): int
    requires b > 0
  {
    if a >= 0 then a / b else -((-a) / b)
  }

  /** Every intermediate value of the source's i32 computation, in unbounded integers;
      `ofYear` and `ofEra` hold the products and partial sums on the way to the day of the
      year and of the era. */
  datatype Civil = Civil(
    adjustedYear: int, eraNumerator: int, era: int, eraYears: int, yearOfEra: int,
    dayOfYear: int, dayOfEra: int, eraDays: int, eraDaysAndDay: int, days: int,
    ofYear: seq<int>, ofEra: seq<int>)

  function Compute(year: int, month: int, day: int): Civil {
    var adjustedYear := year - (if month <= 2 then 1 else 0);
    var eraNumerator := if adjustedYear >= 0 then adjustedYear else adjustedYear - 399;
    var era := TruncDiv(eraNumerator, 400);
    var yearOfEra := adjustedYear - era * 400;
    var shifted := month + (if month > 2 then -3 else 9);
    var fifths := TruncDiv(153 * shifted + 2, 5);
    var dayOfYear := fifths + day - 1;
    var commonDays := yearOfEra * 365;
    var leapDays := commonDays + TruncDiv(yearOfEra, 4);
    var centuryDays := leapDays - TruncDiv(yearOfEra, 100);
    var dayOfEra := centuryDays + dayOfYear;
    Civil(adjustedYear, eraNumerator, era, era * 400, yearOfEra, dayOfYear, dayOfEra,
          era * 146_097, era * 146_097 + dayOfEra, era * 146_097 + dayOfEra - 719_468,
          [shifted, 153 * shifted, 153 * shifted + 2, fifths, fifths + day],
          [commonDays, TruncDiv(yearOfEra, 4), leapDays, TruncDiv(yearOfEra, 100), centuryDays])
  }

  function DaysFromCivil(year: int, month: int, day: int): Option<int> {
    var days := Compute(year, month, day).days;
    if days >= 0 then Some(days) else None
  }

  /** Days before a year in closed form. */
  lemma {:induction false} YearsInClosedForm(year: int)
    ensures DaysBeforeYear(year) == 365 * (year - 1) + (year - 1) / 4 - (year - 1) / 100 + (year - 1) / 400 - 719_162
    decreases if year >= 1970 then year - 1970 else 1970 - year
  {
    if year > 1970 {
      YearsInClosedForm(year - 1);
      LeapStep(year - 1);
    } else if year < 1970 {
      YearsInClosedForm(year + 1);
      LeapStep(year);
    }
  }

  /** The three quotients step exactly at leap years. */
  lemma LeapStep(year: int)
    ensures year / 4 - year / 100 + year / 400
            == (year - 1) / 4 - (year - 1) / 100 + (year - 1) / 400 + (if IsLeap(year) then 1 else 0)
  {
    QuotientStep(year, 4);
    QuotientStep(year, 100);
    QuotientStep(year, 400);
    MultiplesNest(year);
  }

  lemma MultiplesNest(year: int)
    ensures year % 400 == 0 ==> year % 100 == 0
    ensures year % 100 == 0 ==> year % 4 == 0
  {
    if year % 400 == 0 {
      ExactMultiple(year, 100, 4 * (year / 400));
    }
    if year % 100 == 0 {
      ExactMultiple(year, 4, 25 * (year / 100));
    }
  }

  lemma ExactMultiple(n: int, d: int, q: int)
    requires d in {4, 100} && n == d * q
    ensures n % d == 0
  {
  }

  lemma QuotientStep(year: int, k: int)
    requires k in {4, 100, 400}
    ensures year / k == (year - 1) / k + (if year % k == 0 then 1 else 0)
  {
  }

  lemma EraIsFloor(year: int, month: int, day: int)
    ensures
      var c := Compute(year, month, day);
      && c.era == c.adjustedYear / 400
      && c.yearOfEra == c.adjustedYear % 400
      && 0 <= c.yearOfEra < 400
  {
    var a := Compute(year, month, day).adjustedYear;
    if a < 0 {
      assert (399 - a) / 400 == -(a / 400);
    }
  }

  /** The March-based day of year: 153 days in every five months. */
  lemma MonthsInClosedForm(year: int, month: int, day: int)
    requires 1 <= month <= 12 && day >= 1
    ensures Compute(year, month, day).dayOfYear ==
      if month > 2 then DaysBeforeMonth(year, month) - DaysBeforeMonth(year, 3) + day - 1
      else 306 + DaysBeforeMonth(year, month) + day - 1
    ensures DaysBeforeMonth(year, 3) == 59 + (if IsLeap(year) then 1 else 0)
  {
    MonthTable(year);
    assert month in {1, 2, 3, 4, 5, 6, 7, 8, 9, 10, 11, 12};
  }

  lemma MonthTable(year: int)
    ensures
      var leap := if IsLeap(year) then 1 else 0;
      && DaysBeforeMonth(year, 1) == 0 && DaysBeforeMonth(year, 2) == 31
      && DaysBeforeMonth(year, 3) == 59 + leap && DaysBeforeMonth(year, 4) == 90 + leap
      && DaysBeforeMonth(year, 5) == 120 + leap && DaysBeforeMonth(year, 6) == 151 + leap
      && DaysBeforeMonth(year, 7) == 181 + leap && DaysBeforeMonth(year, 8) == 212 + leap
      && DaysBeforeMonth(year, 9) == 243 + leap && DaysBeforeMonth(year, 10) == 273 + leap
      && DaysBeforeMonth(year, 11) == 304 + leap && DaysBeforeMonth(year, 12) == 334 + leap
  {
    assert DaysBeforeMonth(year, 3) == DaysBeforeMonth(year, 2) + DaysInMonth(year, 2);
    assert DaysBeforeMonth(year, 5) == DaysBeforeMonth(year, 4) + 30;
    assert DaysBeforeMonth(year, 7) == DaysBeforeMonth(year, 6) + 30;
    assert DaysBeforeMonth(year, 9) == DaysBeforeMonth(year, 8) + 31;
    assert DaysBeforeMonth(year, 11) == DaysBeforeMonth(year, 10) + 31;
  }

  lemma EraArithmetic(a: int)
    ensures (a / 400) * 146_097 + (a % 400) * 365 + (a % 400) / 4 - (a % 400) / 100
            == 365 * a + a / 4 - a / 100 + a / 400
  {
    var era, yoe := a / 400, a % 400;
    assert a == 400 * era + yoe;
    assert a / 4 == 100 * era + yoe / 4;
    assert a / 100 == 4 * era + yoe / 100;
  }

  /** The era formula is the day count, for every year and month and for any day of the
      month, past the month's end included. */
  lemma ClosedFormCountsDays(year: int, month: int, day: int)
    requires 1 <= month <= 12 && day >= 1
    ensures Compute(year, month, day).days == DayNumber(year, month, day)
    ensures DaysFromCivil(year, month, day)
            == if DayNumber(year, month, day) >= 0 then Some(DayNumber(year, month, day)) else None
  {
    var c := Compute(year, month, day);
    EraIsFloor(year, month, day);
    MonthsInClosedForm(year, month, day);
    EraArithmetic(c.adjustedYear);
    YearsInClosedForm(year);
    LeapStep(year);
  }

  // ---------- no overflow ----------

  predicate InI32(x: int) {
    I32_MIN <= x <= I32_MAX
  }

  predicate FitsI32(c: Civil) {
    && InI32(c.adjustedYear) && InI32(c.eraNumerator) && InI32(c.era) && InI32(c.eraYears)
    && InI32(c.yearOfEra) && InI32(c.dayOfYear) && InI32(c.dayOfEra)
    && InI32(c.eraDays) && InI32(c.eraDaysAndDay) && InI32(c.days)
    && (forall i :: 0 <= i < |c.ofYear| ==> InI32(c.ofYear[i]))
    && (forall i :: 0 <= i < |c.ofEra| ==> InI32(c.ofEra[i]))
  }

  /** From year 0 on, the i32 computation overflows exactly when the day number counted from
      0000-03-01 does; every year up to 999999 is far inside. */
  lemma NoOverflowExactly(year: int, month: int, day: int)
    requires 0 <= year <= I32_MAX && 1 <= month <= 12 && 1 <= day <= 31
    ensures FitsI32(Compute(year, month, day)) <==> DayNumber(year, month, day) + 719_468 <= I32_MAX
    ensures year <= 999_999 ==> FitsI32(Compute(year, month, day))
  {
    ClosedFormCountsDays(year, month, day);
    EraIsFloor(year, month, day);
    var c := Compute(year, month, day);
    assert 0 <= c.dayOfYear <= 366 + 31;
    assert 0 <= c.dayOfEra <= 400 * 366 + 400;
    assert c.era >= -1;
  }

  // ---------- calendar order ----------

  /** The next day on the calendar. */
  function NextDate(year: int, month: int, day: int): (int, int, int) {
    if day < DaysInMonth(year, month) then (year, month, day + 1)
    else if month < 12 then (year, month + 1, 1)
    else (year + 1, 1, 1)
  }

  lemma NextYearFollows(year: int)
    ensures DaysBeforeYear(year + 1) == DaysBeforeYear(year) + YearLength(year)
  {
  }

  lemma DecemberEndsTheYear(year: int)
    ensures DaysBeforeMonth(year, 12) + 31 == YearLength(year)
  {
    MonthTable(year);
  }

  lemma NextDayNumber(year: int, month: int, day: int)
    requires ValidDate(year, month, day)
    ensures
      var (y, m, d) := NextDate(year, month, day);
      ValidDate(y, m, d) && DayNumber(y, m, d) == DayNumber(year, month, day) + 1
  {
    NextYearFollows(year);
    DecemberEndsTheYear(year);
  }

  /** One calendar day is one day number. */
  lemma SuccessorCountsOne(year: int, month: int, day: int)
    requires ValidDate(year, month, day)
    ensures
      var (y, m, d) := NextDate(year, month, day);
      ValidDate(y, m, d) && Compute(y, m, d).days == Compute(year, month, day).days + 1
  {
    var (y, m, d) := NextDate(year, month, day);
    NextDayNumber(year, month, day);
    ClosedFormCountsDays(year, month, day);
    ClosedFormCountsDays(y, m, d);
  }

  predicate Earlier(y: int, m: int, d: int, y': int, m': int, d': int) {
    y < y' || (y == y' && (m < m' || (m == m' && d < d')))
  }

  lemma {:induction false} YearsIncrease(year: int, later: int)
    requires year < later
    ensures DaysBeforeYear(year) + YearLength(year) <= DaysBeforeYear(later)
    decreases later - year
  {
    NextYearFollows(year);
    if year + 1 < later {
      YearsIncrease(year + 1, later);
    }
  }

  lemma {:induction false} MonthsIncrease(year: int, month: int, later: int)
    requires 1 <= month < later <= 12
    ensures DaysBeforeMonth(year, month) + DaysInMonth(year, month) <= DaysBeforeMonth(year, later)
    decreases later - month
  {
    if month + 1 < later {
      MonthsIncrease(year, month + 1, later);
    }
  }

  lemma DayInsideYear(year: int, month: int, day: int)
    requires ValidDate(year, month, day)
    ensures 0 <= DaysBeforeMonth(year, month) + day - 1 < YearLength(year)
  {
    MonthTable(year);
  }

  /** An earlier date has a smaller day number, so no two dates share one. */
  lemma DayNumbersIncrease(y: int, m: int, d: int, y': int, m': int, d': int)
    requires ValidDate(y, m, d) && ValidDate(y', m', d') && Earlier(y, m, d, y', m', d')
    ensures Compute(y, m, d).days < Compute(y', m', d').days
  {
    ClosedFormCountsDays(y, m, d);
    ClosedFormCountsDays(y', m', d');
    if y < y' {
      YearsIncrease(y, y');
      DayInsideYear(y, m, d);
      DayInsideYear(y', m', d');
    } else if m < m' {
      MonthsIncrease(y, m, m');
    }
  }

  // ---------- ages ----------

  /** Bytes of one character in UTF-8. */
  function Utf8Width(c: char): nat {
    if c < '\U{80}' then 1 else if c < '\U{800}' then 2 else if c < '\U{10000}' then 3 else 4
  }

  /** `str::get(0..n)`: the first n bytes, if they end at a character boundary. */
  function TakeBytes(s: string, n: nat): (r: Option<string>)
    ensures r.Some? ==> |r.value| <= n
  {
    if n == 0 then Some([])
    else if s == [] || Utf8Width(s[0]) > n then None
    else
      var rest := TakeBytes(s[1..], n - Utf8Width(s[0]));
      if rest.None? then None else Some([s[0]] + rest.value)
  }

  datatype Date = Date(year: int, month: int, day: int)

  /** The date in the first ten bytes; the day is checked against 31 only. */
  function ParseDate(created: string): Option<Date> {
    var prefix := TakeBytes(created, 10);
    if prefix.None? then None
    else
      var segments := Text.Split(prefix.value, '-');
      if |segments| < 3 then None
      else
        var year := Text.ParseInt(segments[0], I32_MIN, I32_MAX);
        var month := Text.ParseInt(segments[1], 0, U32_MAX);
        var day := Text.ParseInt(segments[2], 0, U32_MAX);
        if year.None? || month.None? || day.None? then None
        else if !(1 <= month.value <= 12) || !(1 <= day.value <= 31) then None
        else Some(Date(year.value, month.value, day.value))
  }

  /** `now` is in seconds since the epoch; a clock before the epoch yields no age. */
  function ParseAgeDays(created: string, now: int): (age: Option<nat>)
    ensures age.Some? ==> age.value <= now
  {
    var date := ParseDate(created);
    if date.None? then None
    else
      var createdDays := DaysFromCivil(date.value.year, date.value.month, date.value.day);
      if createdDays.None? || now < 0 then None
      else
        var nowDays := now / SECONDS_PER_DAY;
        if createdDays.value > nowDays then None else Some(nowDays - createdDays.value)
  }

  lemma ShortSegments(s: string)
    requires |Text.Split(s, '-')| >= 3
    ensures
      var p := Text.Split(s, '-');
      |p[0]| + |p[1]| + |p[2]| + 2 <= |s|
  {
    var i := Text.FirstIndex(s, '-');
    var rest := s[i + 1..];
    assert Text.Split(s, '-') == [s[..i]] + Text.Split(rest, '-');
    var j := Text.FirstIndex(rest, '-');
    assert Text.Split(rest, '-') == [rest[..j]] + Text.Split(rest[j + 1..], '-');
    FirstSegmentFits(rest[j + 1..]);
  }

  lemma FirstSegmentFits(s: string)
    ensures |Text.Split(s, '-')[0]| <= |s|
  {
  }

  /** Ten bytes hold no year above 999999, and the separator rules out a negative one; so
      no parsed date can overflow the i32 computation. */
  lemma ParsedDatesNeverOverflow(created: string)
    requires ParseDate(created).Some?
    ensures 0 <= ParseDate(created).value.year <= 999_999
    ensures var date := ParseDate(created).value; FitsI32(Compute(date.year, date.month, date.day))
  {
    var prefix := TakeBytes(created, 10).value;
    var segments := Text.Split(prefix, '-');
    ShortSegments(prefix);
    var digits := if segments[0][0] == '+' then segments[0][1..] else segments[0];
    Text.NumberBelowPower(digits);
    Text.Power10Monotone(|digits|, 6);
    assert Text.Power10(6) == 1_000_000 by {
      assert Text.Power10(3) == 1000;
    }
    var date := ParseDate(created).value;
    NoOverflowExactly(date.year, date.month, date.day);
  }

  /** An age is returned exactly for readable dates between the epoch and today, and then
      the age and the day count of the date add up to today. */
  lemma AgeIsExact(created: string, now: int)
    ensures
      var date := ParseDate(created);
      ParseAgeDays(created, now).Some?
      <==> date.Some? && 0 <= DayNumber(date.value.year, date.value.month, date.value.day) <= now / SECONDS_PER_DAY
    ensures ParseAgeDays(created, now).Some? ==>
      var date := ParseDate(created).value;
      ParseAgeDays(created, now).value + DayNumber(date.year, date.month, date.day) == now / SECONDS_PER_DAY
  {
    var date := ParseDate(created);
    if date.Some? {
      ClosedFormCountsDays(date.value.year, date.value.month, date.value.day);
    }
  }

  /** An age depends on the day of the reading only, and never shrinks from one reading to a
      later one. */
  lemma AgesFollowTheClock(created: string, now: int, later: int)
    requires 0 <= now <= later
    ensures now / SECONDS_PER_DAY == later / SECONDS_PER_DAY ==> ParseAgeDays(created, later) == ParseAgeDays(created, now)
    ensures ParseAgeDays(created, now).Some? ==>
      ParseAgeDays(created, later).Some? && ParseAgeDays(created, later).value >= ParseAgeDays(created, now).value
  {
    hide ParseDate, DaysFromCivil;
    assert now / SECONDS_PER_DAY <= later / SECONDS_PER_DAY;
  }

  // ---------- dates as they are written ----------

  /** Four, two and two digits, as in RFC 3339. */
  function DateText(year: nat, month: nat, day: nat): string {
    Text.Digits(year, 4) + "-" + (Text.Digits(month, 2) + "-" + Text.Digits(day, 2))
  }

  lemma {:induction false} TakesAscii(s: string, behind: string)
    requires forall i :: 0 <= i < |s| ==> s[i] < '\U{80}'
    ensures TakeBytes(s + behind, |s|) == Some(s)
  {
    if s != [] {
      TakesAscii(s[1..], behind);
      assert (s + behind)[1..] == s[1..] + behind && (s + behind)[0] == s[0];
      assert [s[0]] + s[1..] == s;
    }
  }

  lemma TwoDigits(n: nat)
    requires n <= 99
    ensures |Text.Digits(n, 2)| == 2 && Text.Free(Text.Digits(n, 2), '-') && IsAscii(Text.Digits(n, 2))
    ensures Text.ParseInt(Text.Digits(n, 2), 0, U32_MAX) == Some(n)
  {
    SmallPowers();
    Text.DigitsReadBack(n, 2);
    Text.ParsePaddedInt(n, 2, 0, U32_MAX);
    DigitsAreAscii(Text.Digits(n, 2));
  }

  lemma FourDigits(n: nat)
    requires n <= 9999
    ensures |Text.Digits(n, 4)| == 4 && Text.Free(Text.Digits(n, 4), '-') && IsAscii(Text.Digits(n, 4))
    ensures Text.ParseInt(Text.Digits(n, 4), I32_MIN, I32_MAX) == Some(n)
  {
    SmallPowers();
    Text.DigitsReadBack(n, 4);
    Text.ParsePaddedInt(n, 4, I32_MIN, I32_MAX);
    DigitsAreAscii(Text.Digits(n, 4));
  }

  predicate IsAscii(s: string) {
    forall i :: 0 <= i < |s| ==> s[i] < '\U{80}'
  }

  lemma SmallPowers()
    ensures Text.Power10(2) == 100 && Text.Power10(4) == 10_000
  {
    assert Text.Power10(1) == 10;
    assert Text.Power10(3) == 1000;
  }

  lemma DigitsAreAscii(s: string)
    requires Text.AllDigits(s)
    ensures IsAscii(s) && Text.Free(s, '-')
  {
  }

  /** A written date is read as year, month and day, whatever follows it, if month and day are
      in range, and refused if not. */
  lemma WrittenDateIsRead(year: nat, month: nat, day: nat, behind: string)
    requires year <= 9999 && month <= 99 && day <= 99
    ensures ParseDate(DateText(year, month, day) + behind)
            == if 1 <= month <= 12 && 1 <= day <= 31 then Some(Date(year, month, day)) else None
  {
    hide Text.Digits, Text.ParseInt, Text.Split, TakeBytes;
    var y, m, d := Text.Digits(year, 4), Text.Digits(month, 2), Text.Digits(day, 2);
    var s := DateText(year, month, day);
    FourDigits(year);
    TwoDigits(month);
    TwoDigits(day);
    TextIsAscii(y, m, d);
    TakesAscii(s, behind);
    Text.SplitStep(y, '-', m + "-" + d);
    Text.SplitStep(m, '-', d);
    OnlySegment(d);
  }

  lemma TextIsAscii(y: string, m: string, d: string)
    requires IsAscii(y) && IsAscii(m) && IsAscii(d)
    ensures IsAscii(y + "-" + (m + "-" + d))
  {
  }

  lemma OnlySegment(s: string)
    requires Text.Free(s, '-')
    ensures Text.Split(s, '-') == [s]
  {
  }

  /** The age of a written date: the days from it to today, exactly for dates from the epoch
      to today. */
  lemma WrittenAgeIsExact(year: nat, month: nat, day: nat, behind: string, now: int)
    requires year <= 9999 && ValidDate(year, month, day) && now >= 0
    ensures
      var number, today := DayNumber(year, month, day), now / 86_400;
      ParseAgeDays(DateText(year, month, day) + behind, now)
      == if 0 <= number <= today then Some(today - number) else None
  {
    hide ParseDate, DateText;
    WrittenDateIsRead(year, month, day, behind);
    AgeIsExact(DateText(year, month, day) + behind, now);
  }

  /** For instance, the second of November is 29 days before the first of December. */
  lemma NovemberBeforeDecember()
    ensures DayNumber(2024, 12, 1) - DayNumber(2024, 11, 2) == 29
  {
    MonthTable(2024);
  }
}
