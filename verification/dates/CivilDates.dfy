/** Days of the proleptic Gregorian calendar. */
module CivilDates {
  /** Whether a year is a leap year; the remainder is never negative. */
  predicate IsLeapYear(year: int) {
    year % 4 == 0 && (year % 100 != 0 || year % 400 == 0)
  }

  function DaysInMonth(year: int, month: int): int {
    if month == 2 then (if IsLeapYear(year) then 29 else 28)
    else if month == 4 || month == 6 || month == 9 || month == 11 then 30
    else 31
  }

  datatype Date = Date(year: int, month: int, day: int)

  predicate ValidDate(date: Date) {
    1 <= date.month <= 12 && 1 <= date.day <= DaysInMonth(date.year, date.month)
  }

  /** Days since 1970-01-01, counted in eras of 400 years that begin in March. */
  function DaysFromCivil(date: Date): int {
    var year := date.year - (if date.month <= 2 then 1 else 0);
    var era := year / 400;
    var yearOfEra := year - era * 400;
    var marchMonth := if date.month > 2 then date.month - 3 else date.month + 9;
    var dayOfYear := (153 * marchMonth + 2) / 5 + date.day - 1;
    var dayOfEra := yearOfEra * 365 + yearOfEra / 4 - yearOfEra / 100 + dayOfYear;
    era * 146_097 + dayOfEra - 719_468
  }

  // ---- The calendar itself ----

  function DaysInYear(year: int): int {
    if IsLeapYear(year) then 366 else 365
  }

  /** The days from 1970-01-01 to the first day of a year, year by year in either direction. */
  ghost function YearStart(year: int): int
    decreases if year >= 1970 then year - 1970 else 1970 - year
  {
    if year == 1970 then 0
    else if year > 1970 then YearStart(year - 1) + DaysInYear(year - 1)
    else YearStart(year + 1) - DaysInYear(year)
  }

  /** The days before a month of a year, month by month. */
  ghost function MonthStart(year: int, month: nat): int {
    if month <= 1 then 0 else MonthStart(year, month - 1) + DaysInMonth(year, month - 1)
  }

  /** Days before the March of a year that begins in it. */
  function MarchYears(year: int): int {
    365 * year + year / 4 - year / 100 + year / 400 - 719_468
  }

  lemma EraSplits(year: int)
    ensures var era := year / 400; var yearOfEra := year - era * 400;
      era * 146_097 + yearOfEra * 365 + yearOfEra / 4 - yearOfEra / 100 - 719_468 == MarchYears(year)
  {
    var era := year / 400;
    var yearOfEra := year - era * 400;
    assert 0 <= yearOfEra < 400;
    assert year / 4 == era * 100 + yearOfEra / 4;
    assert year / 100 == era * 4 + yearOfEra / 100;
  }

  lemma NextMarchYear(year: int)
    ensures MarchYears(year + 1) == MarchYears(year) + DaysInYear(year + 1)
  {
    StepDiv(year, 4);
    StepDiv(year, 100);
    StepDiv(year, 400);
  }

  lemma StepDiv(year: int, cycle: int)
    requires cycle == 4 || cycle == 100 || cycle == 400
    ensures (year + 1) / cycle == year / cycle + (if (year + 1) % cycle == 0 then 1 else 0)
  {}

  /** January and February belong to the March year before. */
  lemma {:induction false} YearStartIs(year: int)
    ensures YearStart(year) == MarchYears(year - 1) + 306
    decreases if year >= 1970 then year - 1970 else 1970 - year
  {
    if year > 1970 {
      YearStartIs(year - 1);
      NextMarchYear(year - 2);
    } else if year < 1970 {
      YearStartIs(year + 1);
      NextMarchYear(year - 1);
    }
  }

  lemma MonthStartIs(year: int, month: nat)
    requires 1 <= month <= 12
    ensures MonthStart(year, month) ==
      if month <= 2 then (153 * (month + 9) + 2) / 5 - 306
      else (153 * (month - 3) + 2) / 5 + 59 + (if IsLeapYear(year) then 1 else 0)
  {
    assert MonthStart(year, 2) == 31;
    assert MonthStart(year, 3) == MonthStart(year, 2) + DaysInMonth(year, 2);
    assert MonthStart(year, 4) == MonthStart(year, 3) + 31;
    assert MonthStart(year, 5) == MonthStart(year, 4) + 30;
    assert MonthStart(year, 6) == MonthStart(year, 5) + 31;
    assert MonthStart(year, 7) == MonthStart(year, 6) + 30;
    assert MonthStart(year, 8) == MonthStart(year, 7) + 31;
    assert MonthStart(year, 9) == MonthStart(year, 8) + 31;
    assert MonthStart(year, 10) == MonthStart(year, 9) + 30;
    assert MonthStart(year, 11) == MonthStart(year, 10) + 31;
    assert MonthStart(year, 12) == MonthStart(year, 11) + 30;
  }

  /** The day number by the March year and the days before the month in it. */
  lemma DaysFromMarch(date: Date)
    ensures DaysFromCivil(date)
         == MarchYears(if date.month <= 2 then date.year - 1 else date.year)
            + (153 * (if date.month <= 2 then date.month + 9 else date.month - 3) + 2) / 5 + date.day - 1
  {
    EraSplits(if date.month <= 2 then date.year - 1 else date.year);
    hide MarchYears;
  }

  /** The day number of a date is the sum of the lengths of the years and months before it. */
  lemma CountsTheDays(date: Date)
    requires 1 <= date.month <= 12
    ensures DaysFromCivil(date) == YearStart(date.year) + MonthStart(date.year, date.month) + date.day - 1
  {
    hide YearStart, MonthStart, MarchYears, DaysFromCivil, IsLeapYear;
    YearStartIs(date.year);
    MonthStartIs(date.year, date.month);
    DaysFromMarch(date);
    NextMarchYear(date.year - 1);
  }

  // ---- Consecutive days ----

  function NextDay(date: Date): Date {
    if date.day < DaysInMonth(date.year, date.month) then Date(date.year, date.month, date.day + 1)
    else if date.month < 12 then Date(date.year, date.month + 1, 1)
    else Date(date.year + 1, 1, 1)
  }

  predicate Earlier(one: Date, other: Date) {
    one.year < other.year
    || (one.year == other.year && (one.month < other.month || (one.month == other.month && one.day < other.day)))
  }

  lemma NextIsYears(year: int)
    ensures YearStart(year + 1) == YearStart(year) + DaysInYear(year)
  {
    hide YearStart;
    YearStartIs(year);
    YearStartIs(year + 1);
    NextMarchYear(year - 1);
  }

  lemma WholeYear(year: int)
    ensures MonthStart(year, 12) + 31 == DaysInYear(year)
  {
    MonthStartIs(year, 12);
  }

  /** The day after a date has the next number. */
  lemma NextDayIsNext(date: Date)
    requires ValidDate(date)
    ensures ValidDate(NextDay(date)) && DaysFromCivil(NextDay(date)) == DaysFromCivil(date) + 1
  {
    hide YearStart, DaysFromCivil;
    CountsTheDays(date);
    CountsTheDays(NextDay(date));
    NextIsYears(date.year);
    WholeYear(date.year);
    assert MonthStart(date.year + 1, 1) == 0;
  }

  lemma {:induction false} YearsGrow(low: int, high: int)
    requires low <= high
    ensures YearStart(low) + 365 * (high - low) <= YearStart(high)
    decreases high - low
  {
    if low < high {
      YearsGrow(low, high - 1);
      NextIsYears(high - 1);
    }
  }

  lemma {:induction false} MonthsGrow(year: int, low: nat, high: nat)
    requires 1 <= low <= high
    ensures MonthStart(year, low) <= MonthStart(year, high)
    ensures low < high ==> MonthStart(year, low) + DaysInMonth(year, low) <= MonthStart(year, high)
    decreases high - low
  {
    if low < high {
      MonthsGrow(year, low, high - 1);
    }
  }

  lemma InsideYear(date: Date)
    requires ValidDate(date)
    ensures YearStart(date.year) <= DaysFromCivil(date) < YearStart(date.year + 1)
  {
    hide YearStart, DaysFromCivil;
    CountsTheDays(date);
    MonthsGrow(date.year, 1, date.month);
    MonthsGrow(date.year, date.month, 12);
    NextIsYears(date.year);
    WholeYear(date.year);
  }

  /** Day numbers order dates, so different dates have different numbers. */
  lemma OrdersDates(one: Date, other: Date)
    requires ValidDate(one) && ValidDate(other)
    ensures Earlier(one, other) <==> DaysFromCivil(one) < DaysFromCivil(other)
    ensures one == other <==> DaysFromCivil(one) == DaysFromCivil(other)
  {
    if Earlier(one, other) {
      EarlierIsLess(one, other);
    } else if Earlier(other, one) {
      EarlierIsLess(other, one);
    }
  }

  lemma EarlierIsLess(one: Date, other: Date)
    requires ValidDate(one) && ValidDate(other) && Earlier(one, other)
    ensures DaysFromCivil(one) < DaysFromCivil(other)
  {
    hide YearStart, DaysFromCivil, MonthStart;
    if one.year < other.year {
      InsideYear(one);
      InsideYear(other);
      YearsGrow(one.year + 1, other.year);
    } else {
      CountsTheDays(one);
      CountsTheDays(other);
      MonthsGrow(one.year, one.month, other.month);
    }
  }

  function DayBefore(date: Date): Date {
    if date.day > 1 then Date(date.year, date.month, date.day - 1)
    else if date.month > 1 then Date(date.year, date.month - 1, DaysInMonth(date.year, date.month - 1))
    else Date(date.year - 1, 12, 31)
  }

  /** Every number is the number of a date. */
  lemma {:induction false} DateOf(number: int) returns (date: Date)
    ensures ValidDate(date) && DaysFromCivil(date) == number
    decreases if number >= 0 then number else 0 - number
  {
    hide DaysFromCivil;
    if number == 0 {
      date := Date(1970, 1, 1);
      Epoch();
    } else if number > 0 {
      var before := DateOf(number - 1);
      date := NextDay(before);
      NextDayIsNext(before);
    } else {
      var after := DateOf(number + 1);
      date := DayBefore(after);
      assert ValidDate(date) && NextDay(date) == after;
      NextDayIsNext(date);
    }
  }

  lemma Epoch()
    ensures DaysFromCivil(Date(1970, 1, 1)) == 0
  {}
}
