module CivilInverse {
  // The date of a day number (`days_to_civil`, src/builtins/date.rs): for which days it is the right one.

  import opened Options
  import opened CivilDate

  /** The source's estimate of the year of the era, from the day of the era. */
  function EstimatedYear(doe: int): int {
    (doe - doe / 1020 + doe / 1461 - doe / 146096) / 365
  }

  /** Days before 1 March of a year of the era. */
  function DaysBeforeYear(yoe: int): int {
    365 * yoe + yoe / 4 - yoe / 100
  }

  /** The day of the year is unsigned: there is no result where the estimated year starts too late. There a
      debug build stops, and a release build wraps around. */
  function DaysToCivil(days: int): Option<Date> {
    var z := days + 719468;
    var era := TruncatedQuotient(if z >= 0 then z else z - 146096, 146097);
    var doe := z - era * 146097;
    var yoe := EstimatedYear(doe);
    if doe < DaysBeforeYear(yoe) then None
    else Some(DateOf(yoe + era * 400, doe - DaysBeforeYear(yoe)))
  }

  /** The date of a day of a year that begins in March. */
  function DateOf(year: int, doy: int): Date {
    var mp := (5 * doy + 2) / 153;
    var day := doy - (153 * mp + 2) / 5 + 1;
    var month := if mp < 10 then mp + 3 else mp - 9;
    Date(if month <= 2 then year + 1 else year, month, day)
  }

  // ---- Where a date lies in its era ---------------------------------------------------------

  function YearOfEra(date: Date): int {
    MarchYear(date) % 400
  }

  /** Days since 1 March. */
  function DayOfYear(date: Date): int {
    DaysBeforeMonth(date.month) + date.day - 1
  }

  function DayOfEra(date: Date): int {
    DaysBeforeYear(YearOfEra(date)) + DayOfYear(date)
  }

  /** The days up to the date without those of 365-day years, as the source counts them, are fewer than a
      year and not negative. */
  predicate EstimateFits(date: Date) {
    var doe := DayOfEra(date);
    0 <= doe - doe / 1020 + doe / 1461 - doe / 146096 - 365 * YearOfEra(date) < 365
  }

  lemma DayOfYearBounds(date: Date)
    requires IsDate(date)
    ensures 0 <= DayOfYear(date) <= 365
    ensures DayOfYear(date) == 365 ==> date.month == 2 && IsLeap(date.year)
  {
  }

  lemma EveryFourth(a: int, k: int)
    ensures (a + 400 * k) % 4 == a % 4
  {
    assert a + 400 * k == 4 * (a / 4 + 100 * k) + a % 4;
  }

  lemma EveryHundredth(a: int, k: int)
    ensures (a + 400 * k) % 100 == a % 100
  {
    assert a + 400 * k == 100 * (a / 100 + 4 * k) + a % 100;
  }

  lemma LeapInEra(year: int)
    ensures IsLeap(year + 1) <==> IsLeap(year % 400 + 1)
  {
    EveryFourth(year % 400 + 1, year / 400);
    EveryHundredth(year % 400 + 1, year / 400);
  }

  lemma DayOfEraBounds(date: Date)
    requires IsDate(date)
    ensures 0 <= DayOfYear(date) <= 365 && 0 <= YearOfEra(date) < 400 && 0 <= DayOfEra(date) < 146097
    ensures DayOfYear(date) == 365 ==> IsLeap(YearOfEra(date) + 1)
  {
    hide DayOfYear, IsLeap;
    DayOfYearBounds(date);
    LeapInEra(MarchYear(date));
  }

  lemma NumberOfEra(date: Date)
    requires IsDate(date)
    ensures CivilToDays(date) + 719468 == MarchYear(date) / 400 * 146097 + DayOfEra(date)
  {
    EraIsFloor(MarchYear(date));
  }

  lemma EraOfNumber(z: int, era: int, doe: int)
    requires z == era * 146097 + doe && 0 <= doe < 146097
    ensures TruncatedQuotient(if z >= 0 then z else z - 146096, 146097) == era
  {
  }

  /** The day of the year determines month and day. */
  lemma DateOfDay(date: Date)
    requires IsDate(date)
    ensures DateOf(MarchYear(date), DayOfYear(date)) == date
  {
  }

  /** What the source computes for the number of a date. */
  lemma Decoded(date: Date)
    requires IsDate(date)
    ensures
      var doe, yoe := DayOfEra(date), EstimatedYear(DayOfEra(date));
      DaysToCivil(CivilToDays(date)) ==
      if doe < DaysBeforeYear(yoe) then None
      else Some(DateOf(MarchYear(date) - YearOfEra(date) + yoe, doe - DaysBeforeYear(yoe)))
  {
    hide TruncatedQuotient, CivilToDays, DateOf, EstimatedYear, DaysBeforeYear, DayOfEra;
    DayOfEraBounds(date);
    NumberOfEra(date);
    EraOfNumber(CivilToDays(date) + 719468, MarchYear(date) / 400, DayOfEra(date));
  }

  lemma EstimateFitsIff(date: Date)
    ensures EstimateFits(date) <==> EstimatedYear(DayOfEra(date)) == YearOfEra(date)
  {
  }

  lemma DateOfYear(year: int, doy: int)
    ensures MarchYear(DateOf(year, doy)) == year
  {
  }

  /** The date of the number of a date is that date if and only if the estimate fits. */
  lemma DecodingUndoesEncodingIff(date: Date)
    requires IsDate(date)
    ensures DaysToCivil(CivilToDays(date)) == Some(date) <==> EstimateFits(date)
  {
    hide CivilToDays, DaysToCivil, DateOf, EstimatedYear;
    var doe, yoe := DayOfEra(date), EstimatedYear(DayOfEra(date));
    Decoded(date);
    DayOfEraBounds(date);
    EstimateFitsIff(date);
    DateOfDay(date);
    DateOfYear(MarchYear(date) - YearOfEra(date) + yoe, doe - DaysBeforeYear(yoe));
  }

  lemma OneMoreYear(a: int)
    requires 0 <= a
    ensures DaysBeforeYear(a + 1) == DaysBeforeYear(a) + 365
            + (if (a + 1) % 4 == 0 && (a + 1) % 100 != 0 then 1 else 0)
  {
    Carry(a, 4);
    Carry(a, 100);
    assert (a + 1) % 100 == 0 ==> (a + 1) % 4 == 0;
  }

  lemma {:induction false} YearsGrowInEra(a: int, b: int)
    requires 0 <= a <= b
    ensures DaysBeforeYear(a) <= DaysBeforeYear(b)
    decreases b
  {
    if a < b {
      OneMoreYear(b - 1);
      YearsGrowInEra(a, b - 1);
    }
  }

  lemma LastDayOfEra()
    ensures EstimatedYear(146096) == 400 && DaysBeforeYear(400) == 146096
  {
  }

  /** There is no date exactly where the estimate is too high, but for the last day of an era ... */
  lemma NoDateIff(date: Date)
    requires IsDate(date)
    ensures DaysToCivil(CivilToDays(date)) == None <==>
            EstimatedYear(DayOfEra(date)) > YearOfEra(date) && DayOfEra(date) != 146096
  {
    hide CivilToDays, DaysToCivil, DateOf, EstimatedYear;
    var yoe, estimate := YearOfEra(date), EstimatedYear(DayOfEra(date));
    Decoded(date);
    DayOfEraBounds(date);
    LastDayOfEra();
    if estimate > yoe {
      OneMoreYear(yoe);
      YearsGrowInEra(yoe + 1, estimate);
    } else {
      EstimateIsNotNegative(DayOfEra(date));
      YearsGrowInEra(estimate, yoe);
    }
  }

  lemma EstimateIsNotNegative(doe: int)
    requires 0 <= doe
    ensures EstimatedYear(doe) >= 0
  {
  }

  lemma Estimates(doe: int)
    ensures doe == 2921 ==> EstimatedYear(doe) == 8
    ensures doe == 146096 ==> EstimatedYear(doe) == 400
    ensures doe == 1095 ==> EstimatedYear(doe) == 2
  {
  }

  lemma FirstAndLastDay(year: int, doy: int)
    ensures doy == 0 ==> DateOf(year, doy) == Date(year, 3, 1)
    ensures doy == 365 ==> DateOf(year, doy) == Date(year + 1, 2, 29)
  {
  }

  /** ... so there is none for 29 February 2008. That of 2000 is taken for 1 March, and 1 March 2003 for a
      29 February. */
  lemma LeapDaysAreMistaken(date: Date)
    ensures date == Date(2008, 2, 29) ==> DaysToCivil(CivilToDays(date)) == None
    ensures date == Date(2000, 2, 29) ==> DaysToCivil(CivilToDays(date)) == Some(Date(2000, 3, 1))
    ensures date == Date(2003, 3, 1) ==> DaysToCivil(CivilToDays(date)) == Some(Date(2003, 2, 29))
    ensures !IsDate(Date(2003, 2, 29))
  {
    hide CivilToDays, DaysToCivil, EstimatedYear, DateOf;
    Estimates(DayOfEra(date));
    if date in {Date(2008, 2, 29), Date(2000, 2, 29), Date(2003, 3, 1)} { Decoded(date); }
    FirstAndLastDay(2000, 0);
    FirstAndLastDay(2002, 365);
  }

  /** Every date from 2 March to 31 December is found. */
  lemma MostDatesAreFound(date: Date)
    requires IsDate(date) && date.month >= 3 && !(date.month == 3 && date.day == 1)
    ensures DaysToCivil(CivilToDays(date)) == Some(date)
  {
    hide CivilToDays, DaysToCivil;
    DayOfEraBounds(date);
    DecodingUndoesEncodingIff(date);
  }
}
