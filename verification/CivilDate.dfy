/** The date of a log line: days since 1970-01-01 to year, month and day (fmt_ts in src/state.rs), against
    the Gregorian calendar. */
module CivilDate {

  // ---- the calendar ----

  datatype Date = Date(year: int, month: int, day: int)

  predicate Leap(y: int) {
    y % 4 == 0 && (y % 100 != 0 || y % 400 == 0)
  }

  function DaysIn(y: int, m: int): int {
    if m == 2 then (if Leap(y) then 29 else 28)
    else if m == 4 || m == 6 || m == 9 || m == 11 then 30
    else 31
  }

  predicate Valid(d: Date) {
    1 <= d.month <= 12 && 1 <= d.day <= DaysIn(d.year, d.month)
  }

  function Successor(d: Date): Date {
    if d.day < DaysIn(d.year, d.month) then d.(day := d.day + 1)
    else if d.month < 12 then Date(d.year, d.month + 1, 1)
    else Date(d.year + 1, 1, 1)
  }

  const EPOCH: Date := Date(1970, 1, 1)

  function DaysOfYear(y: int): int {
    if Leap(y) then 366 else 365
  }

  function DaysBeforeYear(y: int): int
    decreases y
  {
    if y <= 1970 then 0 else DaysBeforeYear(y - 1) + DaysOfYear(y - 1)
  }

  function DaysBeforeMonth(y: int, m: int): int
    decreases m
  {
    if m <= 1 then 0 else DaysBeforeMonth(y, m - 1) + DaysIn(y, m - 1)
  }

  /** Days counted from 1970-01-01, year by year and month by month. */
  function DayNumber(d: Date): int {
    DaysBeforeYear(d.year) + DaysBeforeMonth(d.year, d.month) + d.day - 1
  }

  /** Day n of the calendar: n successors after 1970-01-01. */
  function DateAt(n: nat): Date {
    if n == 0 then EPOCH else Successor(DateAt(n - 1))
  }

  lemma SuccessorValid(d: Date)
    requires Valid(d)
    ensures Valid(Successor(d))
  {
  }

  /** Day n is a valid date, and counting year by year and month by month gives n back. */
  lemma {:induction false} DateAtCounts(n: nat)
    ensures Valid(DateAt(n)) && DateAt(n).year >= 1970 && DayNumber(DateAt(n)) == n
  {
    if n == 0 {
      assert DaysBeforeMonth(1970, 1) == 0;
    } else {
      DateAtCounts(n - 1);
      SuccessorValid(DateAt(n - 1));
      SuccessorCounts(DateAt(n - 1));
    }
  }

  lemma SuccessorCounts(d: Date)
    requires Valid(d) && d.year >= 1970
    ensures DayNumber(Successor(d)) == DayNumber(d) + 1
  {
    if d.day == DaysIn(d.year, d.month) && d.month == 12 {
      YearByMonths(d.year);
    }
  }

  lemma YearByMonths(y: int)
    ensures DaysBeforeMonth(y, 13) == DaysOfYear(y)
  {
    assert DaysBeforeMonth(y, 4) == DaysIn(y, 1) + DaysIn(y, 2) + DaysIn(y, 3);
    assert DaysBeforeMonth(y, 7) == DaysBeforeMonth(y, 4) + DaysIn(y, 4) + DaysIn(y, 5) + DaysIn(y, 6);
    assert DaysBeforeMonth(y, 10) == DaysBeforeMonth(y, 7) + DaysIn(y, 7) + DaysIn(y, 8) + DaysIn(y, 9);
  }

  predicate Earlier(a: Date, b: Date) {
    a.year < b.year || (a.year == b.year && (a.month < b.month || (a.month == b.month && a.day < b.day)))
  }

  lemma {:induction false} MonthsGrow(y: int, m: int, m': int)
    requires 1 <= m < m' <= 13
    ensures DaysBeforeMonth(y, m) + DaysIn(y, m) <= DaysBeforeMonth(y, m')
    decreases m'
  {
    if m + 1 < m' {
      MonthsGrow(y, m, m' - 1);
    }
  }

  lemma {:induction false} YearsGrow(y: int, y': int)
    requires 1970 <= y < y'
    ensures DaysBeforeYear(y) + DaysOfYear(y) <= DaysBeforeYear(y')
    decreases y'
  {
    if y + 1 < y' {
      YearsGrow(y, y' - 1);
    }
  }

  lemma EarlierCounts(a: Date, b: Date)
    requires Valid(a) && Valid(b) && a.year >= 1970 && Earlier(a, b)
    ensures DayNumber(a) < DayNumber(b)
  {
    if a.year == b.year {
      if a.month < b.month {
        MonthsGrow(a.year, a.month, b.month);
      }
    } else {
      MonthsGrow(a.year, a.month, 13);
      YearByMonths(a.year);
      YearsGrow(a.year, b.year);
      MonthStartNotNegative(b.year, b.month);
    }
  }

  lemma {:induction false} MonthStartNotNegative(y: int, m: int)
    requires m >= 1
    ensures DaysBeforeMonth(y, m) >= 0
    decreases m
  {
    if m > 1 {
      MonthStartNotNegative(y, m - 1);
    }
  }

  lemma {:induction false} YearStartNotNegative(y: int)
    ensures DaysBeforeYear(y) >= 0
    decreases y
  {
    if y > 1970 {
      YearStartNotNegative(y - 1);
    }
  }

  /** Every date from 1970 on is the day its number says. */
  lemma DateAtInverse(d: Date)
    requires Valid(d) && d.year >= 1970
    ensures DayNumber(d) >= 0 && DateAt(DayNumber(d)) == d
  {
    MonthStartNotNegative(d.year, d.month);
    YearStartNotNegative(d.year);
    var e := DateAt(DayNumber(d));
    DateAtCounts(DayNumber(d));
    if Earlier(d, e) {
      EarlierCounts(d, e);
    }
    if Earlier(e, d) {
      EarlierCounts(e, d);
    }
  }

  // ---- what the program computes ----

  /** The date part of `fmt_ts`: days are counted from 0000-03-01, so that leap days end a year. */
  method CivilFromDays(days: nat) returns (d: Date)
    ensures d == DateAt(days)
  {
    var y, doy := MarchYear(days + 719_468);
    From1970(y, doy, days + 719_468);
    d := MonthAndDay(y, doy);
    DaysToYear(y);
    DateAtInverse(d);
  }

  /** The year, starting in March, and the day of it: eras of 400 years. */
  method MarchYear(z: nat) returns (y: nat, doy: nat)
    ensures MarchStart(y) + doy == z && doy < DaysOfYear(y + 1)
  {
    var era := z / 146_097;
    var doe := z - era * 146_097;
    var yoe := (doe - doe / 1460 + doe / 36_524 - doe / 146_096) / 365;
    EraYear(doe, yoe);
    y := yoe + era * 400;
    doy := doe - (365 * yoe + yoe / 4 - yoe / 100);
    EraBegins(era, yoe, y);
  }

  method MonthAndDay(y: nat, doy: nat) returns (d: Date)
    requires doy < DaysOfYear(y + 1) && y >= 1969 && (y == 1969 ==> doy >= 306)
    ensures Valid(d) && d.year >= 1970 && DayNumber(d) == DaysBeforeYear(y + 1) - 306 + doy
  {
    var mp := (5 * doy + 2) / 153;
    var dd := doy - (153 * mp + 2) / 5 + 1;
    var mm := if mp < 10 then mp + 3 else mp - 9;
    var yy := if mm <= 2 then y + 1 else y;
    d := Date(yy, mm, dd);
    InYearCounts(y, doy, mp, d);
  }

  datatype Stamp = Stamp(date: Date, hour: nat, minute: nat, second: nat)

  /** The whole of `fmt_ts`, up to the text layout: the stamp names its second. */
  method TimeStamp(secs: nat) returns (t: Stamp)
    ensures t.date == DateAt(secs / 86_400) && t.hour < 24 && t.minute < 60 && t.second < 60
    ensures DayNumber(t.date) * 86_400 + t.hour * 3600 + t.minute * 60 + t.second == secs
  {
    var days, rem := secs / 86_400, secs % 86_400;
    var date := CivilFromDays(days);
    t := Stamp(date, rem / 3600, rem % 3600 / 60, rem % 60);
    DateAtCounts(days);
    TimeOfDay(rem);
  }

  lemma TimeOfDay(rem: nat)
    requires rem < 86_400
    ensures rem / 3600 < 24 && rem / 3600 * 3600 + rem % 3600 / 60 * 60 + rem % 60 == rem
  {
    assert rem % 60 == rem % 3600 % 60;
  }

  // ---- the year of the era ----

  function YearOfEra(doe: nat): int {
    (doe - doe / 1460 + doe / 36_524 - doe / 146_096) / 365
  }

  function EraYearStart(yoe: int): int {
    365 * yoe + yoe / 4 - yoe / 100
  }

  /** A day of an era in centuries, four-year cycles and days. */
  predicate EraParts(doe: nat, c: nat, q: nat, s: nat) {
    doe == 36_524 * c + 1461 * q + s && c <= 3 && q <= 24 && s <= 1460 && (q == 24 && s == 1460 ==> c == 3)
  }

  lemma EraCycles(doe: nat, c: nat, q: nat, s: nat)
    requires EraParts(doe, c, q, s)
    ensures doe / 1460 == 25 * c + q + if q + s + 24 * c >= 1460 then 1 else 0
  {
  }

  lemma EraCenturies(doe: nat, c: nat, q: nat, s: nat)
    requires EraParts(doe, c, q, s)
    ensures doe / 36_524 - doe / 146_096 == c
  {
    var last := if c == 3 && q == 24 && s == 1460 then 1 else 0;
    assert doe / 36_524 == c + last && doe / 146_096 == last;
  }

  function YearOfCycle(s: nat): nat {
    if s == 1460 then 3 else s / 365
  }

  lemma EraQuotient(c: nat, q: nat, s: nat, extra: nat)
    requires s <= 1460 && extra <= 1 && (s == 1460 ==> extra == 1) && (extra == 1 ==> s >= 1364)
    ensures (36_500 * c + 1460 * q + s - extra) / 365 == 100 * c + 4 * q + YearOfCycle(s)
  {
    assert (s - extra) / 365 == YearOfCycle(s);
    assert 36_500 * c + 1460 * q + s - extra == 365 * (100 * c + 4 * q) + (s - extra);
  }

  lemma EraStart(c: nat, q: nat, u: nat)
    requires c <= 3 && q <= 24 && u <= 3
    ensures EraYearStart(100 * c + 4 * q + u) == 36_524 * c + 1461 * q + 365 * u
  {
    var y := 100 * c + 4 * q + u;
    assert y / 4 == 25 * c + q && y / 100 == c;
  }

  /** The computed year in terms of the parts. */
  lemma EraYearOfParts(doe: nat, c: nat, q: nat, s: nat)
    requires EraParts(doe, c, q, s)
    ensures YearOfEra(doe) == 100 * c + 4 * q + YearOfCycle(s)
    ensures EraYearStart(YearOfEra(doe)) == 36_524 * c + 1461 * q + 365 * YearOfCycle(s)
  {
    EraCycles(doe, c, q, s);
    EraCenturies(doe, c, q, s);
    EraQuotient(c, q, s, if q + s + 24 * c >= 1460 then 1 else 0);
    EraStart(c, q, YearOfCycle(s));
  }

  function EraYearDays(yoe: int): int {
    if Leap(yoe + 1) then 366 else 365
  }

  /** The computed year contains the day: its start is at most the day, the next year's start is after it. */
  lemma EraYear(doe: nat, yoe: int)
    requires doe < 146_097 && yoe == YearOfEra(doe)
    ensures 0 <= yoe < 400 && EraYearStart(yoe) <= doe < EraYearStart(yoe) + EraYearDays(yoe)
  {
    var c := if doe == 146_096 then 3 else doe / 36_524;
    var r := doe - 36_524 * c;
    var q, s := r / 1461, r % 1461;
    EraYearOfParts(doe, c, q, s);
    if s == 1460 {
      assert (100 * c + 4 * q + 4) % 4 == 0;
      LeapInEra(c, q);
    }
  }

  lemma LeapInEra(c: nat, q: nat)
    requires c <= 3 && q <= 24 && (q == 24 ==> c == 3)
    ensures Leap(100 * c + 4 * q + 4)
  {
    var y := 100 * c + 4 * q + 4;
    assert y % 4 == 0;
    if q < 24 {
      assert y % 100 == 4 * q + 4;
    } else {
      assert y == 400;
    }
  }

  /** Days from year 0 to the March of year `y`. */
  function MarchStart(y: int): int {
    365 * y + y / 4 - y / 100 + y / 400
  }

  lemma EraBegins(era: nat, yoe: nat, y: nat)
    requires yoe < 400 && y == yoe + era * 400
    ensures MarchStart(y) == era * 146_097 + EraYearStart(yoe)
    ensures Leap(y + 1) <==> Leap(yoe + 1)
  {
    Mod4(yoe + 1, 100 * era);
    Mod100(yoe + 1, 4 * era);
    Mod400(yoe + 1, era);
    Mod4(yoe, 100 * era);
    Mod100(yoe, 4 * era);
    Mod400(yoe, era);
  }

  lemma Mod4(y: int, k: int)
    ensures (y + 4 * k) % 4 == y % 4 && (y + 4 * k) / 4 == y / 4 + k
  {
  }

  lemma Mod100(y: int, k: int)
    ensures (y + 100 * k) % 100 == y % 100 && (y + 100 * k) / 100 == y / 100 + k
  {
  }

  lemma Mod400(y: int, k: int)
    ensures (y + 400 * k) % 400 == y % 400 && (y + 400 * k) / 400 == y / 400 + k
  {
  }

  /** One year of the formula is one year of the calendar. */
  lemma MarchStep(y: nat)
    ensures MarchStart(y + 1) == MarchStart(y) + DaysOfYear(y + 1)
  {
    assert (y + 1) / 4 == y / 4 + (if (y + 1) % 4 == 0 then 1 else 0);
    assert (y + 1) / 100 == y / 100 + (if (y + 1) % 100 == 0 then 1 else 0);
    assert (y + 1) / 400 == y / 400 + (if (y + 1) % 400 == 0 then 1 else 0);
    Multiples(y + 1);
  }

  lemma Multiples(y: nat)
    ensures y % 400 == 0 ==> y % 100 == 0
    ensures y % 100 == 0 ==> y % 4 == 0
  {
    if y % 400 == 0 {
      Mod100(0, 4 * (y / 400));
    }
    if y % 100 == 0 {
      Mod4(0, 25 * (y / 100));
    }
  }

  lemma {:induction false} DaysToYear(y: nat)
    requires y >= 1969
    ensures DaysBeforeYear(y + 1) == MarchStart(y) - MarchStart(1969)
    ensures MarchStart(1969) + 306 == 719_468
  {
    if y > 1969 {
      DaysToYear(y - 1);
      MarchStep(y - 1);
    }
  }

  /** Day 0 is in the year that ends in February 1970. */
  lemma From1970(y: nat, doy: nat, z: nat)
    requires MarchStart(y) + doy == z >= 719_468 && doy < DaysOfYear(y + 1)
    ensures y >= 1969 && (y == 1969 ==> doy >= 306)
  {
  }

  // ---- months ----

  function MarchMonthStart(mp: int): int {
    (153 * mp + 2) / 5
  }

  /** The length of a month counted from March, in a year whose February has `feb` days. */
  function MarchMonthDays(mp: int, feb: int): int {
    if mp == 11 then feb else if mp == 1 || mp == 3 || mp == 6 || mp == 8 then 30 else 31
  }

  lemma MonthOfDay(doy: int)
    requires 0 <= doy < 366
    ensures var mp := (5 * doy + 2) / 153;
            0 <= mp <= 11 && MarchMonthStart(mp) <= doy < MarchMonthStart(mp) + MarchMonthDays(mp, 29)
    ensures var mp := (5 * doy + 2) / 153;
            mp < 11 ==> MarchMonthStart(mp + 1) == MarchMonthStart(mp) + MarchMonthDays(mp, 29)
  {
  }

  lemma MonthsBefore(y: int)
    ensures DaysBeforeMonth(y, 1) == 0 && DaysBeforeMonth(y, 2) == 31 && DaysBeforeMonth(y, 3) == DaysOfYear(y) - 306
  {
  }

  lemma {:induction false} MarchMonths(y: int, mm: int)
    requires 3 <= mm <= 12
    ensures DaysBeforeMonth(y, mm) == DaysOfYear(y) - 306 + MarchMonthStart(mm - 3)
  {
    if mm == 3 {
      MonthsBefore(y);
    } else {
      MarchMonths(y, mm - 1);
    }
  }

  /** A day of a year that starts in March is a valid date, `doy` days into it. */
  lemma InYearCounts(y: nat, doy: nat, mp: int, d: Date)
    requires doy < DaysOfYear(y + 1) && mp == (5 * doy + 2) / 153 && (y == 1969 ==> doy >= 306) && y >= 1969
    requires d.day == doy - MarchMonthStart(mp) + 1 && d.month == (if mp < 10 then mp + 3 else mp - 9)
    requires d.year == if d.month <= 2 then y + 1 else y
    ensures Valid(d) && d.year >= 1970 && DayNumber(d) == DaysBeforeYear(y + 1) - 306 + doy
  {
    MonthOfDay(doy);
    if mp < 10 {
      MarchMonths(y, d.month);
    } else {
      MonthsBefore(y + 1);
    }
  }
}
