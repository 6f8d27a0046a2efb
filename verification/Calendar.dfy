/**
  Calendar times of different precision (app/lib/datatype.js:137-173, 180-373): the next time, times as
  numbers, and reading back printed values. Every year divisible by four is a leap year.
 */
module Calendar {
  import opened Common

  datatype Precision = Millennium | Century | Decade | Year | Month | Day

  // Month and day count when the precision says so.
  datatype Time = Time(year: int, month: int, day: int, precision: Precision)

  predicate Leap(year: int) {
    year % 4 == 0
  }

  function DaysInMonth(year: int, month: int): (r: int)
    requires 1 <= month <= 12
    ensures 28 <= r <= 31
  {
    if month == 2 then if Leap(year) then 29 else 28
    else if month in {4, 6, 9, 11} then 30 else 31
  }

  /** The lengths of the twelve months. */
  lemma MonthLengths(year: int, month: int)
    requires 1 <= month <= 12
    ensures DaysInMonth(year, month) ==
            if month == 2 && year % 4 == 0 then 29
            else [31, 28, 31, 30, 31, 30, 31, 31, 30, 31, 30, 31][month - 1]
  {
  }

  function YearDays(year: int): int {
    if Leap(year) then 366 else 365
  }

  /** A date that exists; what the precision leaves open is zero. */
  predicate Valid(t: Time) {
    match t.precision
    case Day => 1 <= t.month <= 12 && 1 <= t.day <= DaysInMonth(t.year, t.month)
    case Month => 1 <= t.month <= 12 && t.day == 0
    case _ => t.month == 0 && t.day == 0
  }

  function Next(t: Time): (r: Time)
    requires Valid(t)
    ensures Valid(r) && r.precision == t.precision
  {
    match t.precision
    case Millennium => t.(year := t.year + 1000)
    case Century => t.(year := t.year + 100)
    case Decade => t.(year := t.year + 10)
    case Year => t.(year := t.year + 1)
    case Month => if t.month + 1 > 12 then t.(year := t.year + 1, month := 1) else t.(month := t.month + 1)
    case Day =>
      if t.day + 1 <= DaysInMonth(t.year, t.month) then t.(day := t.day + 1)
      else if t.month + 1 > 12 then t.(year := t.year + 1, month := 1, day := 1)
      else t.(month := t.month + 1, day := 1)
  }

  function After(t: Time, n: nat): (r: Time)
    requires Valid(t)
    ensures Valid(r) && r.precision == t.precision
  {
    if n == 0 then t else Next(After(t, n - 1))
  }

  // The days of a year before a month.
  function DaysBefore(year: int, month: int): (r: int)
    requires 1 <= month <= 13
    ensures r >= 28 * (month - 1)
    decreases month
  {
    if month == 1 then 0 else DaysBefore(year, month - 1) + DaysInMonth(year, month - 1)
  }

  lemma DaysOfYear(year: int)
    ensures DaysBefore(year, 13) == YearDays(year)
  {
    assert DaysBefore(year, 3) == 31 + DaysInMonth(year, 2);
    assert DaysBefore(year, 5) == DaysBefore(year, 3) + 61;
    assert DaysBefore(year, 7) == DaysBefore(year, 5) + 61;
    assert DaysBefore(year, 9) == DaysBefore(year, 7) + 62;
    assert DaysBefore(year, 11) == DaysBefore(year, 9) + 61;
  }

  // The number of a day in its year.
  function Ordinal(t: Time): int
    requires t.precision.Day? && Valid(t)
  {
    DaysBefore(t.year, t.month) + t.day
  }

  lemma {:induction false} DaysBeforeGrows(year: int, month: int)
    requires 1 <= month <= 12
    ensures DaysBefore(year, month) + DaysInMonth(year, month) <= DaysBefore(year, 13)
    decreases 12 - month
  {
    if month < 12 {
      DaysBeforeGrows(year, month + 1);
    }
  }

  // Only the last day of December has the number of days of the year.
  lemma DayFits(t: Time)
    requires t.precision.Day? && Valid(t)
    ensures 1 <= Ordinal(t) <= YearDays(t.year)
    ensures Ordinal(t) == YearDays(t.year) <==> t.month == 12 && t.day == DaysInMonth(t.year, 12)
  {
    hide YearDays, DaysInMonth, DaysBefore;
    DaysOfYear(t.year);
    DaysBeforeGrows(t.year, t.month);
    DaysAdd(t.year, t.month);
    if t.month < 12 {
      DaysBeforeGrows(t.year, t.month + 1);
    }
  }

  lemma DaysAdd(year: int, month: int)
    requires 1 <= month <= 12
    ensures DaysBefore(year, month + 1) == DaysBefore(year, month) + DaysInMonth(year, month)
  {
  }

  // One day on: the next number in the same year, or the first day of the next year after the last.
  lemma NextOrdinal(t: Time)
    requires t.precision.Day? && Valid(t)
    ensures 1 <= Ordinal(t) <= YearDays(t.year)
    ensures Ordinal(t) < YearDays(t.year) ==> Next(t).year == t.year && Ordinal(Next(t)) == Ordinal(t) + 1
    ensures Ordinal(t) == YearDays(t.year) <==> Next(t) == Time(t.year + 1, 1, 1, Day)
  {
    hide YearDays, DaysInMonth, DaysBefore;
    DayFits(t);
    DaysAdd(t.year, t.month);
  }

  /** The successor at day precision: the first day of the next year is reached after exactly the days that
      are left, and not before; from the first day of a year that is 365 or 366 steps. */
  lemma {:induction false} AfterDays(t: Time, n: nat)
    requires t.precision.Day? && Valid(t)
    ensures var left := YearDays(t.year) - Ordinal(t) + 1;
            && (n < left ==> After(t, n).year == t.year && Ordinal(After(t, n)) == Ordinal(t) + n)
            && (n == left ==> After(t, n) == Time(t.year + 1, 1, 1, Day))
  {
    hide YearDays, DaysInMonth, DaysBefore, Next, Ordinal;
    if n > 0 {
      AfterDays(t, n - 1);
      NextOrdinal(After(t, n - 1));
    } else {
      NextOrdinal(t);
    }
  }

  lemma NewYear(year: int)
    ensures After(Time(year, 1, 1, Day), YearDays(year)) == Time(year + 1, 1, 1, Day)
  {
    AfterDays(Time(year, 1, 1, Day), YearDays(year));
  }

  // ----- times as numbers -----

  function Number(t: Time): int {
    t.year * 10000 + t.month * 100 + t.day
  }

  // The days that have passed in the year of a time.
  function Passed(t: Time): int
    requires Valid(t) && (t.precision.Month? || t.precision.Day?)
  {
    DaysBefore(t.year, t.month) + if t.precision.Day? then t.day else 0
  }

  function DecimalTime(t: Time): real
    requires Valid(t)
  {
    if t.precision.Month? || t.precision.Day? then t.year as real + Passed(t) as real / YearDays(t.year) as real
    else t.year as real
  }

  // The months are added up one by one.
  method Decimal(t: Time) returns (r: real)
    requires Valid(t)
    ensures r == DecimalTime(t)
  {
    if !(t.precision.Month? || t.precision.Day?) {
      return t.year as real;
    }
    var days, m := 0, 0;
    while m < t.month - 1
      invariant 0 <= m <= t.month - 1 && days == DaysBefore(t.year, m + 1)
    {
      days := days + DaysInMonth(t.year, m + 1);
      m := m + 1;
    }
    if t.precision.Day? {
      days := days + t.day;
    }
    return t.year as real + days as real / YearDays(t.year) as real;
  }

  lemma Fractions(a: int, b: int, n: int)
    requires n > 0 && a < b
    ensures a as real / n as real < b as real / n as real
  {
  }

  /** Both numbers strictly increase from one time to the next, at every precision and in every year. */
  lemma NextIncreases(t: Time)
    requires Valid(t)
    ensures Number(t) < Number(Next(t)) && DecimalTime(t) < DecimalTime(Next(t))
  {
    var u := Next(t);
    if t.precision.Month? || t.precision.Day? {
      if t.precision.Day? {
        NextOrdinal(t);
        DaysBeforeGrows(t.year, t.month);
        DaysOfYear(t.year);
      } else {
        DaysBeforeGrows(t.year, t.month);
        DaysOfYear(t.year);
      }
      var n := YearDays(t.year);
      if u.year == t.year {
        assert Passed(t) < Passed(u);
        Fractions(Passed(t), Passed(u), n);
      } else {
        LastOfYear(t, u);
      }
    }
  }

  // How much of its year has passed at a time.
  lemma PassedBounds(t: Time)
    requires Valid(t) && (t.precision.Month? || t.precision.Day?)
    ensures 0 <= Passed(t) <= YearDays(t.year)
    ensures if t.precision.Month? then Passed(t) < YearDays(t.year) else Passed(t) > 0
  {
    hide YearDays, Leap, DaysBefore;
    DaysOfYear(t.year);
    DaysBeforeGrows(t.year, t.month);
  }

  lemma Share(p: int, n: int)
    requires 0 <= p <= n && n > 0
    ensures 0.0 <= p as real / n as real <= 1.0
    ensures p < n ==> p as real / n as real < 1.0
    ensures p > 0 ==> p as real / n as real > 0.0
  {
    if p < n {
      Fractions(p, n, n);
    }
    if p > 0 {
      Fractions(0, p, n);
    }
  }

  lemma LastOfYear(t: Time, u: Time)
    requires Valid(t) && Valid(u) && t.precision == u.precision && (t.precision.Month? || t.precision.Day?)
    requires u.year == t.year + 1 && (t.precision.Month? ==> t.month == 12)
    ensures DecimalTime(t) < DecimalTime(u)
  {
    hide Passed, Valid, Leap;
    PassedBounds(t);
    PassedBounds(u);
    Share(Passed(t), YearDays(t.year));
    Share(Passed(u), YearDays(u.year));
  }

  // ----- printed values -----

  // The value of a time from year 1000 on. The value of a millennium is computed from the year itself.
  function Value(t: Time): real
    requires t.year >= 1000
  {
    match t.precision
    case Millennium => (t.year as real - 0.001).Floor as real
    case Century => ((t.year - 1) as real / 100.0).Floor as real
    case Decade => t.year as real / 10.0
    case Year => t.year as real
    case Month => (t.year * 100 + t.month) as real
    case Day => (t.year * 10000 + t.month * 100 + t.day) as real
  }

  // Reading a positive number: its size tells the precision.
  function FromNumber(t: real): Time
    requires t > 0.0
  {
    if t >= 1000000.0 then Time(t.Floor / 10000, t.Floor % 10000 / 100, t.Floor % 100, Day)
    else if t >= 10000.0 then Time(t.Floor / 100, t.Floor % 100, 0, Month)
    else if t >= 1000.0 then Time(t.Floor, 0, 0, Year)
    else if t >= 100.0 then Time((t * 10.0).Floor, 0, 0, Decade)
    else if t >= 10.0 then Time((t * 100.0 + 1.0).Floor, 0, 0, Century)
    else Time((t * 1000.0 + 1.0).Floor, 0, 0, Millennium)
  }

  lemma CenturyOf(year: int)
    ensures ((year - 1) as real / 100.0).Floor == (year - 1) / 100
  {
    var q := (year - 1) / 100;
    assert (100 * q) as real <= (year - 1) as real < (100 * q + 100) as real;
    assert q as real <= (year - 1) as real / 100.0 < (q + 1) as real;
  }

  /** The exact condition for reading back a printed value, from year 1000 on: days always; months, years and
      decades up to year 9999; centuries up to year 9999 when the year is the first of its century; a
      millennium never. */
  lemma ValueExact(t: Time)
    requires Valid(t) && t.year >= 1000
    ensures Value(t) > 0.0
    ensures FromNumber(Value(t)) == t <==>
            match t.precision
            case Day => true
            case Century => t.year <= 9999 && t.year % 100 == 1
            case Millennium => false
            case _ => t.year <= 9999
  {
    match t.precision
    case Day => DayExact(t);
    case Month => MonthExact(t);
    case Year =>
    case Decade => assert t.year as real / 10.0 * 10.0 == t.year as real;
    case Century =>
      CenturyOf(t.year);
      CenturyExact(t);
    case Millennium =>
      assert (t.year as real - 0.001).Floor == t.year - 1;
      MillenniumLost(t);
  }

  lemma DayExact(t: Time)
    requires Valid(t) && t.year >= 1000 && t.precision.Day?
    ensures FromNumber(Value(t)) == t
  {
    var n := t.year * 10000 + t.month * 100 + t.day;
    assert n % 10000 == t.month * 100 + t.day;
  }

  lemma MonthExact(t: Time)
    requires Valid(t) && t.year >= 1000 && t.precision.Month?
    ensures FromNumber(Value(t)) == t <==> t.year <= 9999
  {
    var n := t.year * 100 + t.month;
    assert n % 100 == t.month && n / 100 == t.year;
  }

  lemma CenturyExact(t: Time)
    requires Valid(t) && t.year >= 1000 && t.precision.Century? && Value(t) == ((t.year - 1) / 100) as real
    ensures FromNumber(Value(t)) == t <==> t.year <= 9999 && t.year % 100 == 1
  {
    var c := (t.year - 1) / 100;
    assert (c as real * 100.0 + 1.0).Floor == c * 100 + 1;
    assert t.year - 1 == 100 * c + (t.year - 1) % 100;
  }

  lemma MillenniumLost(t: Time)
    requires Valid(t) && t.year >= 1000 && t.precision.Millennium? && Value(t) == (t.year - 1) as real
    ensures FromNumber(Value(t)) != t
  {
  }

  /** Some values, and how numbers are read. */
  lemma SomeValues()
    ensures Value(Time(2023, 5, 17, Day)) == 20230517.0 && Value(Time(2023, 5, 0, Month)) == 202305.0
    ensures Value(Time(2023, 0, 0, Year)) == 2023.0 && Value(Time(1980, 0, 0, Decade)) == 198.0
    ensures Value(Time(1901, 0, 0, Century)) == 19.0 && Value(Time(1001, 0, 0, Millennium)) == 1000.0
    ensures FromNumber(20230517.0) == Time(2023, 5, 17, Day) && FromNumber(202305.0) == Time(2023, 5, 0, Month)
    ensures FromNumber(2023.0) == Time(2023, 0, 0, Year) && FromNumber(198.0) == Time(1980, 0, 0, Decade)
    ensures FromNumber(19.0) == Time(1901, 0, 0, Century) && FromNumber(1.0) == Time(1001, 0, 0, Millennium)
  {
    assert (1980 as real) / 10.0 == 198.0;
    assert (1900 as real) / 100.0 == 19.0;
    assert (1001.0 - 0.001).Floor == 1000;
    assert (198.0 * 10.0).Floor == 1980 && (19.0 * 100.0 + 1.0).Floor == 1901 && (1.0 * 1000.0 + 1.0).Floor == 1001;
  }

  /** Some next times and decimal times: the first of March is the 60th day of the year 2023 and the 61st of 2024. */
  lemma SomeTimes()
    ensures Next(Time(2023, 12, 31, Day)) == Time(2024, 1, 1, Day)
    ensures Next(Time(2024, 2, 28, Day)) == Time(2024, 2, 29, Day)
    ensures Next(Time(2023, 2, 28, Day)) == Time(2023, 3, 1, Day)
    ensures Next(Time(2023, 12, 0, Month)) == Time(2024, 1, 0, Month)
    ensures Next(Time(2023, 0, 0, Year)).year == 2024 && Next(Time(1980, 0, 0, Decade)).year == 1990
    ensures Next(Time(1901, 0, 0, Century)).year == 2001 && Next(Time(1001, 0, 0, Millennium)).year == 2001
    ensures DecimalTime(Time(2023, 3, 1, Day)) == 2023.0 + 60.0 / 365.0
    ensures DecimalTime(Time(2024, 3, 1, Day)) == 2024.0 + 61.0 / 366.0
    ensures DecimalTime(Time(2023, 3, 0, Month)) == 2023.0 + 59.0 / 365.0
  {
    assert DaysBefore(2023, 3) == DaysBefore(2023, 2) + 28 && DaysBefore(2023, 2) == 31;
    assert DaysBefore(2024, 3) == DaysBefore(2024, 2) + 29 && DaysBefore(2024, 2) == 31;
  }
}
