/**
 * The calendar reading of a day number: Python's `date.year` and `date.month`
 * for the day `n` days after 1970-01-01 (proleptic Gregorian calendar).
 */
module Dates {

  datatype Civil = Civil(year: int, month: int, day: int)

  /** The year within its 400-year era of the era's day `doe`. */
  function YearOfEra(doe: int): int
  {
    (doe - doe / 1460 + doe / 36524 - doe / 146096) / 365
  }

  /** The day within its (March-based) year of the era's day `doe`. */
  function DayOfYear(doe: int): int
  {
    var yoe := YearOfEra(doe);
    doe - (365 * yoe + yoe / 4 - yoe / 100)
  }

  /** Year, month and day of day number `n`, by whole 400-year eras
      (146097 days each) counted from 0000-03-01. */
  function CivilFromDays(n: int): (c: Civil)
    ensures 1 <= c.month <= 12
    ensures 1 <= c.day <= 31
  {
    var z := n + 719468;
    var era := z / 146097;
    var doe := z - era * 146097;
    var y := YearOfEra(doe) + era * 400;
    var doy := DayOfYear(doe);
    var mp := (5 * doy + 2) / 153;
    var d := doy - (153 * mp + 2) / 5 + 1;
    var m := if mp < 10 then mp + 3 else mp - 9;
    Civil(if m <= 2 then y + 1 else y, m, d)
  }

  /** The day number of a civil date: the inverse computation, by eras of
      400 years counted from 0000-03-01. */
  function DaysFromCivil(c: Civil): int
  {
    var y := if c.month <= 2 then c.year - 1 else c.year;
    var era := y / 400;
    var yoe := y - era * 400;
    var mp := if c.month > 2 then c.month - 3 else c.month + 9;
    var doy := (153 * mp + 2) / 5 + c.day - 1;
    var doe := yoe * 365 + yoe / 4 - yoe / 100 + doy;
    era * 146097 + doe - 719468
  }

  /** The year of an era has 0 <= yoe <= 399 for every day of the era. */
  lemma YearOfEraBounds(doe: int)
    requires 0 <= doe <= 146096
    ensures 0 <= YearOfEra(doe) <= 399
  {
    var x := doe - doe / 1460 + doe / 36524 - doe / 146096;
    assert doe / 146096 <= 1;
    assert doe / 36524 <= 4;
    if doe == 146096 {
      assert x == 145999;
    } else {
      assert doe / 146096 == 0;
      assert 1460 * (doe / 1460) <= doe;
      assert 36524 * (doe / 36524) <= doe;
      assert x <= 145999;
    }
  }

  /** A day of an era short of the last, split into centuries `c`, four-year
      cycles `q` and the day `s` of the cycle. */
  lemma EraParts(doe: int) returns (c: int, q: int, s: int)
    requires 0 <= doe < 146096
    ensures doe == 36524 * c + 1461 * q + s
    ensures 0 <= c <= 3 && 0 <= q <= 24 && 0 <= s < 1461
    ensures q == 24 ==> s < 1460
  {
    c := doe / 36524;
    var r := doe - 36524 * c;
    q := r / 1461;
    s := r - 1461 * q;
  }

  /** Within an era, the day of the (March-based) year lies in 0..365. */
  lemma DayOfYearBounds(doe: int)
    requires 0 <= doe <= 146096
    ensures 0 <= DayOfYear(doe) <= 365
  {
    if doe < 146096 {
      var c, q, s := EraParts(doe);
      var t := 24 * c + q + s;
      var f := if t >= 1460 then 25 * c + q + 1 else 25 * c + q;
      assert doe / 1460 == f;
      assert doe / 36524 == c;
      assert doe / 146096 == 0;
      var w := if t >= 1460 then 3 else s / 365;
      assert 0 <= w <= 3;
      var yoe := 100 * c + 4 * q + w;
      assert (doe - f + c) / 365 == yoe;
      assert YearOfEra(doe) == yoe;
      assert yoe / 4 == 25 * c + q;
      assert yoe / 100 == c;
    } else {
      assert YearOfEra(doe) == 399;
    }
  }

  /** Month and day of a day of the (March-based) year, and back. */
  lemma MonthRoundTrip(doy: int)
    requires 0 <= doy <= 365
    ensures var mp := (5 * doy + 2) / 153;
      var m := if mp < 10 then mp + 3 else mp - 9;
      var d := doy - (153 * mp + 2) / 5 + 1;
      && 0 <= mp <= 11 && (m <= 2 <==> mp >= 10)
      && (if m > 2 then m - 3 else m + 9) == mp
      && (153 * (if m > 2 then m - 3 else m + 9) + 2) / 5 + d - 1 == doy
  {
  }

  /** Reading a day number as a date and back gives the day number. */
  lemma CivilRoundTrip(n: int)
    ensures DaysFromCivil(CivilFromDays(n)) == n
  {
    var z := n + 719468;
    var era := z / 146097;
    var doe := z - era * 146097;
    var yoe := YearOfEra(doe);
    var y := yoe + era * 400;
    var doy := DayOfYear(doe);
    var mp := (5 * doy + 2) / 153;
    var m := if mp < 10 then mp + 3 else mp - 9;
    var d := doy - (153 * mp + 2) / 5 + 1;
    var c := Civil(if m <= 2 then y + 1 else y, m, d);
    assert CivilFromDays(n) == c;
    assert 0 <= doe <= 146096;
    YearOfEraBounds(doe);
    DayOfYearBounds(doe);
    MonthRoundTrip(doy);
    assert (if c.month <= 2 then c.year - 1 else c.year) == y;
    DaysFromCivilParts(c, era, yoe, mp, doy);
  }

  /** `DaysFromCivil` in terms of the era, year of era, month index from
      March and day of year that it computes. */
  lemma DaysFromCivilParts(c: Civil, era: int, yoe: int, mp: int, doy: int)
    requires 0 <= yoe <= 399
    requires (if c.month <= 2 then c.year - 1 else c.year) == yoe + era * 400
    requires (if c.month > 2 then c.month - 3 else c.month + 9) == mp
    requires (153 * mp + 2) / 5 + c.day - 1 == doy
    ensures DaysFromCivil(c) == era * 146097 + yoe * 365 + yoe / 4 - yoe / 100 + doy - 719468
  {
    var y := yoe + era * 400;
    assert y / 400 == era;
  }

  /** Day 19845 is 2024-05-02. */
  lemma CivilFromDaysExample()
    ensures CivilFromDays(19845) == Civil(2024, 5, 2)
  {
    var z := 19845 + 719468;
    assert z / 146097 == 5;
    var doe := z - 5 * 146097;
    assert doe == 8828;
    assert YearOfEra(doe) == 24;
    assert DayOfYear(doe) == 62;
    assert (5 * 62 + 2) / 153 == 2;
    assert 62 - (153 * 2 + 2) / 5 + 1 == 2;
  }

  /** The first day of the day count. */
  lemma CivilFromDaysEpoch()
    ensures CivilFromDays(0) == Civil(1970, 1, 1)
  {
    var z := 0 + 719468;
    assert z / 146097 == 4;
    var doe := z - 4 * 146097;
    assert doe == 135080;
    assert YearOfEra(doe) == 369;
    assert DayOfYear(doe) == 306;
    assert (5 * 306 + 2) / 153 == 10;
  }

  /** The day before it. */
  lemma CivilFromDaysBeforeEpoch()
    ensures CivilFromDays(-1) == Civil(1969, 12, 31)
  {
    var z := -1 + 719468;
    assert z / 146097 == 4;
    var doe := z - 4 * 146097;
    assert doe == 135079;
    assert YearOfEra(doe) == 369;
    assert DayOfYear(doe) == 305;
    assert (5 * 305 + 2) / 153 == 9;
  }

  /** A leap day of a year divisible by 400. */
  lemma CivilFromDaysLeapCentury()
    ensures CivilFromDays(11016) == Civil(2000, 2, 29)
  {
    var z := 11016 + 719468;
    assert z / 146097 == 4;
    var doe := z - 4 * 146097;
    assert doe == 146096;
    assert YearOfEra(doe) == 399;
    assert DayOfYear(doe) == 365;
    assert (5 * 365 + 2) / 153 == 11;
    assert 365 - (153 * 11 + 2) / 5 + 1 == 29;
  }

  /** The last day of 2023. */
  lemma CivilFromDaysYearEnd()
    ensures CivilFromDays(19722) == Civil(2023, 12, 31)
  {
    var z := 19722 + 719468;
    assert z / 146097 == 5;
    var doe := z - 5 * 146097;
    assert doe == 8705;
    assert YearOfEra(doe) == 23;
    assert DayOfYear(doe) == 305;
    assert (5 * 305 + 2) / 153 == 9;
  }

  /** The first day of 2024. */
  lemma CivilFromDaysNewYear()
    ensures CivilFromDays(19723) == Civil(2024, 1, 1)
  {
    var z := 19723 + 719468;
    assert z / 146097 == 5;
    var doe := z - 5 * 146097;
    assert doe == 8706;
    assert YearOfEra(doe) == 23;
    assert DayOfYear(doe) == 306;
    assert (5 * 306 + 2) / 153 == 10;
  }

  /** The end of February in the leap year 2024. */
  lemma CivilFromDaysLeapDay()
    ensures CivilFromDays(19782) == Civil(2024, 2, 29)
  {
    var z := 19782 + 719468;
    assert z / 146097 == 5;
    var doe := z - 5 * 146097;
    assert doe == 8765;
    assert YearOfEra(doe) == 23;
    assert DayOfYear(doe) == 365;
    assert (5 * 365 + 2) / 153 == 11;
    assert 365 - (153 * 11 + 2) / 5 + 1 == 29;
  }

  /** The day after it. */
  lemma CivilFromDaysMarchFirst()
    ensures CivilFromDays(19783) == Civil(2024, 3, 1)
  {
    var z := 19783 + 719468;
    assert z / 146097 == 5;
    var doe := z - 5 * 146097;
    assert doe == 8766;
    assert YearOfEra(doe) == 24;
    assert DayOfYear(doe) == 0;
    assert (5 * 0 + 2) / 153 == 0;
    assert 0 - (153 * 0 + 2) / 5 + 1 == 1;
  }

  /** Day 19797 is 2024-03-15. */
  lemma CivilFromDaysMarch()
    ensures CivilFromDays(19797) == Civil(2024, 3, 15)
  {
    var z := 19797 + 719468;
    assert z / 146097 == 5;
    var doe := z - 5 * 146097;
    assert doe == 8780;
    assert YearOfEra(doe) == 24;
    assert DayOfYear(doe) == 14;
    assert (5 * 14 + 2) / 153 == 0;
    assert 14 - (153 * 0 + 2) / 5 + 1 == 15;
  }
}
