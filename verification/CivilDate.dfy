/** The Gregorian day number (`civil_to_days`, src/builtins/date.rs), for every year. */
module CivilDate {
  datatype Date = Date(year: int, month: int, day: int)

  /** Division as Rust does it: towards zero. */
  function TruncatedQuotient(a: int, b: int): int
    requires b > 0
  {
    if a >= 0 then a / b else -(-a / b)
  }

  /** The year that begins in March with this date's month in it. */
  function MarchYear(date: Date): int {
    if date.month <= 2 then date.year - 1 else date.year
  }

  function CivilToDays(date: Date): int {
    var y := MarchYear(date);
    var era := TruncatedQuotient(if y >= 0 then y else y - 399, 400);
    var yoe := y - era * 400;
    var doy := (153 * (if date.month > 2 then date.month - 3 else date.month + 9) + 2) / 5 + date.day - 1;
    var doe := yoe * 365 + yoe / 4 - yoe / 100 + doy;
    era * 146097 + doe - 719468
  }

  // ---- The calendar -------------------------------------------------------------------------

  predicate IsLeap(year: int) {
    year % 4 == 0 && (year % 100 != 0 || year % 400 == 0)
  }

  function DaysInMonth(year: int, month: int): int {
    if month == 2 then if IsLeap(year) then 29 else 28
    else if month == 4 || month == 6 || month == 9 || month == 11 then 30
    else 31
  }

  predicate IsDate(date: Date) {
    1 <= date.month <= 12 && 1 <= date.day <= DaysInMonth(date.year, date.month)
  }

  function NextDate(date: Date): (next: Date)
    requires IsDate(date)
    ensures IsDate(next)
  {
    if date.day < DaysInMonth(date.year, date.month) then Date(date.year, date.month, date.day + 1)
    else if date.month < 12 then Date(date.year, date.month + 1, 1)
    else Date(date.year + 1, 1, 1)
  }

  function PreviousDate(date: Date): (previous: Date)
    requires IsDate(date)
    ensures IsDate(previous)
  {
    if date.day > 1 then Date(date.year, date.month, date.day - 1)
    else if date.month > 1 then Date(date.year, date.month - 1, DaysInMonth(date.year, date.month - 1))
    else Date(date.year - 1, 12, 31)
  }

  lemma PreviousIsBeforeNext(date: Date)
    requires IsDate(date)
    ensures NextDate(PreviousDate(date)) == date && PreviousDate(NextDate(date)) == date
  {
  }

  predicate Earlier(a: Date, b: Date) {
    a.year < b.year || (a.year == b.year && (a.month < b.month || (a.month == b.month && a.day < b.day)))
  }

  // ---- Years that begin in March ------------------------------------------------------------

  /** Days before 1 March of year `y`, counted from 1 March of year 0. */
  function MarchFirst(y: int): int {
    365 * y + y / 4 - y / 100 + y / 400
  }

  lemma EraIsFloor(y: int)
    ensures TruncatedQuotient(if y >= 0 then y else y - 399, 400) == y / 400
  {
  }

  /** For a date, no intermediate result is negative: the unsigned arithmetic of the source is exact. */
  lemma IntermediatesAreUnsigned(date: Date)
    requires IsDate(date)
    ensures
      var y := MarchYear(date);
      var yoe := y - TruncatedQuotient(if y >= 0 then y else y - 399, 400) * 400;
      var doy := DaysBeforeMonth(date.month) + date.day - 1;
      0 <= yoe < 400 && 0 <= doy < 366 && 0 <= yoe * 365 + yoe / 4 - yoe / 100
  {
  }

  predicate Fits32(n: int) { -0x8000_0000 <= n < 0x8000_0000 }

  predicate FitsUnsigned32(n: int) { 0 <= n < 0x1_0000_0000 }

  predicate Fits64(n: int) { -0x8000_0000_0000_0000 <= n < 0x8000_0000_0000_0000 }

  /** Every intermediate result of the source fits the type it has there. */
  predicate IntermediatesFit(date: Date) {
    var y := MarchYear(date);
    var dividend := if y >= 0 then y else y - 399;
    var era := TruncatedQuotient(dividend, 400);
    var yoe := y - era * 400;
    var month := if date.month > 2 then date.month - 3 else date.month + 9;
    var doy := (153 * month + 2) / 5 + date.day - 1;
    && Fits32(y) && Fits32(dividend) && Fits32(era * 400) && Fits32(yoe)
    && FitsUnsigned32(yoe) && FitsUnsigned32(month) && FitsUnsigned32(153 * month + 2) && FitsUnsigned32(doy)
    && FitsUnsigned32(yoe * 365 + yoe / 4) && FitsUnsigned32(yoe * 365 + yoe / 4 - yoe / 100 + doy)
    && Fits64(era * 146097) && Fits64(CivilToDays(date))
  }

  /** They fit for all dates of 32-bit years but the first 400 or so, where `y - 399` wraps around. */
  lemma IntermediatesFitIff(date: Date)
    requires IsDate(date) && Fits32(date.year)
    ensures IntermediatesFit(date) <==> MarchYear(date) >= -0x8000_0000 + 399
  {
    var y := MarchYear(date);
    EraIsFloor(y);
    IntermediatesAreUnsigned(date);
    assert y / 400 * 400 <= y < y / 400 * 400 + 400;
  }

  lemma DaysOfEra(y: int)
    ensures
      var yoe := y - y / 400 * 400;
      y / 400 * 146097 + yoe * 365 + yoe / 4 - yoe / 100 == MarchFirst(y)
  {
    var era, yoe := y / 400, y % 400;
    assert y == 400 * era + yoe;
    assert y / 4 == 100 * era + yoe / 4 && y / 100 == 4 * era + yoe / 100;
  }

  lemma NextMarch(y: int)
    ensures MarchFirst(y + 1) == MarchFirst(y) + if IsLeap(y + 1) then 366 else 365
  {
    Carry(y, 4);
    Carry(y, 100);
    Carry(y, 400);
    assert (y + 1) % 400 == 0 ==> (y + 1) % 100 == 0;
    assert (y + 1) % 100 == 0 ==> (y + 1) % 4 == 0;
  }

  lemma Carry(y: int, n: int)
    requires n == 4 || n == 100 || n == 400
    ensures (y + 1) / n == y / n + if (y + 1) % n == 0 then 1 else 0
  {
  }

  /** Days before the month within the year that begins in March. */
  function DaysBeforeMonth(month: int): int {
    (153 * (if month > 2 then month - 3 else month + 9) + 2) / 5
  }

  lemma DayNumber(date: Date)
    ensures CivilToDays(date) ==
            MarchFirst(MarchYear(date)) + DaysBeforeMonth(date.month) + date.day - 719469
  {
    var y := MarchYear(date);
    EraIsFloor(y);
    DaysOfEra(y);
  }

  lemma NextMonth(month: int, year: int)
    requires 1 <= month <= 12 && month != 2
    ensures DaysBeforeMonth(if month == 12 then 1 else month + 1) == DaysBeforeMonth(month) + DaysInMonth(year, month)
  {
  }

  // ---- The day number counts days -----------------------------------------------------------

  lemma EpochIsZero()
    ensures CivilToDays(Date(1970, 1, 1)) == 0
  {
  }

  lemma NextDayIsOneMore(date: Date)
    requires IsDate(date) && date.day < DaysInMonth(date.year, date.month)
    ensures CivilToDays(NextDate(date)) == CivilToDays(date) + 1
  {
  }

  lemma MarchFollowsFebruary(year: int)
    ensures CivilToDays(Date(year, 3, 1)) == CivilToDays(Date(year, 2, DaysInMonth(year, 2))) + 1
  {
    DayNumber(Date(year, 3, 1));
    DayNumber(Date(year, 2, DaysInMonth(year, 2)));
    NextMarch(year - 1);
  }

  lemma NextMonthIsOneMore(date: Date)
    requires IsDate(date) && date.day == DaysInMonth(date.year, date.month) && date.month != 2
    ensures CivilToDays(NextDate(date)) == CivilToDays(date) + 1
  {
    DayNumber(date);
    DayNumber(NextDate(date));
    NextMonth(date.month, date.year);
  }

  /** The next date has the next number, in every year. */
  lemma NextDateIsOneMore(date: Date)
    requires IsDate(date)
    ensures CivilToDays(NextDate(date)) == CivilToDays(date) + 1
  {
    if date.day < DaysInMonth(date.year, date.month) {
      NextDayIsOneMore(date);
    } else if date.month == 2 {
      MarchFollowsFebruary(date.year);
    } else {
      NextMonthIsOneMore(date);
    }
  }

  /** 1 January of year `y` is DayFromYear(y) of section 15.9.1.3 of ECMA-262 5.1. */
  lemma FirstOfJanuaryIsDayFromYear(y: int)
    ensures CivilToDays(Date(y, 1, 1)) == 365 * (y - 1970) + (y - 1969) / 4 - (y - 1901) / 100 + (y - 1601) / 400
  {
    DayNumber(Date(y, 1, 1));
    assert (y - 1969) / 4 == (y - 1) / 4 - 492;
    assert (y - 1901) / 100 == (y - 1) / 100 - 19;
    assert (y - 1601) / 400 == (y - 1) / 400 - 4;
  }

  /** The first of a month has the day within the year that section 15.9.1.4 of ECMA-262 5.1 tabulates. */
  lemma FirstOfMonthIsDayWithinYear(year: int, month: int)
    requires 1 <= month <= 12
    ensures
      var leap := year % 4 == 0 && (year % 100 != 0 || year % 400 == 0);
      var before := [0, 31, 59, 90, 120, 151, 181, 212, 243, 273, 304, 334][month - 1];
      CivilToDays(Date(year, month, 1)) ==
      CivilToDays(Date(year, 1, 1)) + before + if leap && month > 2 then 1 else 0
  {
    hide CivilToDays, MarchFirst;
    DayNumber(Date(year, month, 1));
    DayNumber(Date(year, 1, 1));
    NextMarch(year - 1);
  }

  // ---- Counting days is a bijection that keeps the order ------------------------------------

  /** A numbering of dates that goes up by one from each date to the next. */
  ghost predicate CountsDays(number: Date -> int) {
    forall date: Date :: IsDate(date) ==> number(NextDate(date)) == number(date) + 1
  }

  /** The date `n` days after (or before) another. */
  function DaysAfter(date: Date, n: int): (r: Date)
    requires IsDate(date)
    ensures IsDate(r)
    decreases if n < 0 then -n else n
  {
    if n == 0 then date
    else if n > 0 then NextDate(DaysAfter(date, n - 1))
    else PreviousDate(DaysAfter(date, n + 1))
  }

  lemma {:induction false} DaysAfterCounts(number: Date -> int, date: Date, n: int)
    requires CountsDays(number) && IsDate(date)
    ensures number(DaysAfter(date, n)) == number(date) + n
    decreases if n < 0 then -n else n
  {
    if n > 0 {
      DaysAfterCounts(number, date, n - 1);
    } else if n < 0 {
      var tomorrow := DaysAfter(date, n + 1);
      DaysAfterCounts(number, date, n + 1);
      PreviousIsBeforeNext(tomorrow);
      assert number(NextDate(PreviousDate(tomorrow))) == number(PreviousDate(tomorrow)) + 1;
    }
  }

  lemma {:induction false} WithinMonth(number: Date -> int, date: Date)
    requires CountsDays(number) && IsDate(date)
    ensures number(date) == number(Date(date.year, date.month, 1)) + date.day - 1
    decreases date.day
  {
    if date.day > 1 {
      var yesterday := Date(date.year, date.month, date.day - 1);
      WithinMonth(number, yesterday);
      assert NextDate(yesterday) == date;
    }
  }

  lemma {:induction false} MonthsGrow(number: Date -> int, year: int, m: int, n: int)
    requires CountsDays(number) && 1 <= m < n <= 12
    ensures number(Date(year, m, 1)) + DaysInMonth(year, m) <= number(Date(year, n, 1))
    decreases n - m
  {
    var last := Date(year, n - 1, DaysInMonth(year, n - 1));
    WithinMonth(number, last);
    assert NextDate(last) == Date(year, n, 1);
    if m < n - 1 { MonthsGrow(number, year, m, n - 1); }
  }

  lemma EarlierMonth(number: Date -> int, a: Date, b: Date)
    requires CountsDays(number) && IsDate(a) && IsDate(b) && a.year == b.year && a.month < b.month
    ensures number(a) < number(b)
  {
    MonthsGrow(number, a.year, a.month, b.month);
    WithinMonth(number, a);
    WithinMonth(number, b);
  }

  /** A date lies between the first and the last day of its year. */
  lemma NotBeforeNewYear(number: Date -> int, date: Date)
    requires CountsDays(number) && IsDate(date)
    ensures number(Date(date.year, 1, 1)) <= number(date)
  {
    if date.month > 1 { EarlierMonth(number, Date(date.year, 1, 1), date); } else { WithinMonth(number, date); }
  }

  lemma NotAfterYearsEnd(number: Date -> int, date: Date)
    requires CountsDays(number) && IsDate(date)
    ensures number(date) <= number(Date(date.year, 12, 31))
  {
    if date.month < 12 {
      EarlierMonth(number, date, Date(date.year, 12, 31));
    } else {
      WithinMonth(number, date);
      WithinMonth(number, Date(date.year, 12, 31));
    }
  }

  lemma WithinYear(number: Date -> int, date: Date)
    requires CountsDays(number) && IsDate(date)
    ensures number(Date(date.year, 1, 1)) <= number(date) < number(Date(date.year + 1, 1, 1))
  {
    NotBeforeNewYear(number, date);
    NotAfterYearsEnd(number, date);
    assert NextDate(Date(date.year, 12, 31)) == Date(date.year + 1, 1, 1);
  }

  lemma {:induction false} YearsGrow(number: Date -> int, y: int, z: int)
    requires CountsDays(number) && y <= z
    ensures number(Date(y, 1, 1)) <= number(Date(z, 1, 1))
    decreases z - y
  {
    if y < z {
      YearsGrow(number, y, z - 1);
      WithinYear(number, Date(z - 1, 1, 1));
    }
  }

  lemma EarlierIsLess(number: Date -> int, a: Date, b: Date)
    requires CountsDays(number) && IsDate(a) && IsDate(b) && Earlier(a, b)
    ensures number(a) < number(b)
  {
    if a.year < b.year {
      WithinYear(number, a);
      YearsGrow(number, a.year + 1, b.year);
      WithinYear(number, b);
    } else if a.month < b.month {
      EarlierMonth(number, a, b);
    } else {
      WithinMonth(number, a);
      WithinMonth(number, b);
    }
  }

  lemma KeepsOrder(number: Date -> int, a: Date, b: Date)
    requires CountsDays(number) && IsDate(a) && IsDate(b)
    ensures Earlier(a, b) <==> number(a) < number(b)
    ensures number(a) == number(b) ==> a == b
  {
    if Earlier(a, b) {
      EarlierIsLess(number, a, b);
    } else if Earlier(b, a) {
      EarlierIsLess(number, b, a);
    }
  }

  lemma CivilToDaysCounts()
    ensures CountsDays(CivilToDays)
  {
    forall date: Date | IsDate(date) ensures CivilToDays(NextDate(date)) == CivilToDays(date) + 1 {
      NextDateIsOneMore(date);
    }
  }

  /** Every integer is the number of a date: of the one that is so many days after 1 January 1970. */
  lemma EveryNumberIsADate(n: int)
    ensures IsDate(DaysAfter(Date(1970, 1, 1), n)) && CivilToDays(DaysAfter(Date(1970, 1, 1), n)) == n
  {
    EpochIsZero();
    CivilToDaysCounts();
    DaysAfterCounts(CivilToDays, Date(1970, 1, 1), n);
  }

  /** The day number keeps the order of dates, and so never gives two dates the same number. */
  lemma EarlierIffLess(a: Date, b: Date)
    requires IsDate(a) && IsDate(b)
    ensures Earlier(a, b) <==> CivilToDays(a) < CivilToDays(b)
    ensures CivilToDays(a) == CivilToDays(b) ==> a == b
  {
    CivilToDaysCounts();
    KeepsOrder(CivilToDays, a, b);
  }
}
