/**
 From seconds since the Epoch to a calendar date, against the closed form of section 4.16
 (Seconds Since the Epoch) of the Base Definitions of IEEE Std 1003.1-2017.
 */
module Calendar {

  datatype Date = Date(year: nat, month: nat, day: nat, hour: nat, minute: nat, second: nat)

  predicate IsLeap(y: nat) { (y % 4 == 0 && y % 100 != 0) || y % 400 == 0 }

  function DaysInYear(y: nat): nat { if IsLeap(y) then 366 else 365 }

  function MonthDays(y: nat): (r: seq<nat>)
    ensures |r| == 12
  {
    [31, if IsLeap(y) then 29 else 28, 31, 30, 31, 30, 31, 31, 30, 31, 30, 31]
  }

  /** Days of the year before month m. */
  function DaysBeforeMonth(y: nat, m: nat): nat
    requires 1 <= m <= 13
  {
    if m == 1 then 0 else DaysBeforeMonth(y, m - 1) + MonthDays(y)[m - 2]
  }

  predicate Valid(d: Date) {
    && d.year >= 1970 && 1 <= d.month <= 12 && 1 <= d.day <= MonthDays(d.year)[d.month - 1]
    && d.hour < 24 && d.minute < 60 && d.second < 60
  }

  // ----- the closed form -----

  function YearDay(d: Date): nat
    requires Valid(d)
  {
    DaysBeforeMonth(d.year, d.month) + d.day - 1
  }

  /** The standard's expression, with tm_year = year - 1900 and tm_yday = YearDay. */
  function Seconds(d: Date): int
    requires Valid(d)
  {
    var tm_year, tm_yday := d.year - 1900, YearDay(d);
    d.second + d.minute * 60 + d.hour * 3600 + tm_yday * 86400 + (tm_year - 70) * 31536000
    + ((tm_year - 69) / 4) * 86400 - ((tm_year - 1) / 100) * 86400 + ((tm_year + 299) / 400) * 86400
  }

  /** Days before 1 January of a year. */
  function DaysBeforeYear(y: nat): int
    requires y >= 1970
  {
    (y - 1970) * 365 + (y - 1969) / 4 - (y - 1901) / 100 + (y - 1601) / 400
  }

  lemma NextYear(y: nat)
    requires y >= 1970
    ensures DaysBeforeYear(y + 1) == DaysBeforeYear(y) + DaysInYear(y)
  {
    Leap4(y);
    Leap100(y);
    Leap400(y);
  }

  /** Each correction grows by one exactly after a multiple of its period. */
  lemma Leap4(y: nat)
    requires y >= 1970
    ensures (y - 1968) / 4 == (y - 1969) / 4 + (if y % 4 == 0 then 1 else 0)
  {
  }

  lemma Leap100(y: nat)
    requires y >= 1970
    ensures (y - 1900) / 100 == (y - 1901) / 100 + (if y % 100 == 0 then 1 else 0)
  {
  }

  lemma Leap400(y: nat)
    requires y >= 1970
    ensures (y - 1600) / 400 == (y - 1601) / 400 + (if y % 400 == 0 then 1 else 0)
    ensures (y % 400 == 0 ==> y % 100 == 0) && (y % 100 == 0 ==> y % 4 == 0)
  {
  }

  lemma YearDayInYear(d: Date)
    requires Valid(d)
    ensures YearDay(d) < DaysInYear(d.year)
  {
    MonthStarts(d.year, d.month);
  }

  lemma MonthStarts(y: nat, m: nat)
    requires 1 <= m <= 12
    ensures DaysBeforeMonth(y, 13) == DaysInYear(y)
    ensures DaysBeforeMonth(y, m + 1) == DaysBeforeMonth(y, m) + MonthDays(y)[m - 1]
    ensures DaysBeforeMonth(y, m + 1) <= DaysInYear(y)
  {
    MonthsGrow(y, m + 1, 13);
    var feb := if IsLeap(y) then 29 else 28;
    assert DaysBeforeMonth(y, 2) == 31;
    assert DaysBeforeMonth(y, 3) == 31 + feb;
    assert DaysBeforeMonth(y, 5) == 92 + feb;
    assert DaysBeforeMonth(y, 7) == 153 + feb;
    assert DaysBeforeMonth(y, 9) == 215 + feb;
    assert DaysBeforeMonth(y, 11) == 276 + feb;
    assert DaysBeforeMonth(y, 13) == 337 + feb;
  }

  /** The day of the year on which each month starts, and how many days it has. */
  lemma MonthTable(y: nat, m: nat, day: nat)
    requires y >= 1970 && 1 <= m <= 12
    ensures var leap := y % 400 == 0 || (y % 4 == 0 && y % 100 != 0);
            && Valid(Date(y, m, 1, 0, 0, 0))
            && YearDay(Date(y, m, 1, 0, 0, 0))
               == [0, 31, 59, 90, 120, 151, 181, 212, 243, 273, 304, 334][m - 1] + (if leap && m > 2 then 1 else 0)
            && (Valid(Date(y, m, day, 0, 0, 0)) <==>
                  1 <= day <= [31, 28, 31, 30, 31, 30, 31, 31, 30, 31, 30, 31][m - 1] + (if leap && m == 2 then 1 else 0))
  {
    var feb := if IsLeap(y) then 29 else 28;
    assert DaysBeforeMonth(y, 1) == 0 && DaysBeforeMonth(y, 2) == 31;
    assert DaysBeforeMonth(y, 3) == 31 + feb && DaysBeforeMonth(y, 4) == 62 + feb;
    assert DaysBeforeMonth(y, 5) == 92 + feb && DaysBeforeMonth(y, 6) == 123 + feb;
    assert DaysBeforeMonth(y, 7) == 153 + feb && DaysBeforeMonth(y, 8) == 184 + feb;
    assert DaysBeforeMonth(y, 9) == 215 + feb && DaysBeforeMonth(y, 10) == 245 + feb;
    assert DaysBeforeMonth(y, 11) == 276 + feb && DaysBeforeMonth(y, 12) == 306 + feb;
  }

  lemma {:induction false} MonthsGrow(y: nat, a: nat, b: nat)
    requires 1 <= a <= b <= 13
    ensures DaysBeforeMonth(y, a) <= DaysBeforeMonth(y, b)
  {
    if a < b { MonthsGrow(y, a, b - 1); }
  }

  lemma {:induction false} YearsGrow(a: nat, b: nat)
    requires 1970 <= a < b
    ensures DaysBeforeYear(a) + DaysInYear(a) <= DaysBeforeYear(b)
    decreases b
  {
    NextYear(b - 1);
    if a < b - 1 { YearsGrow(a, b - 1); }
  }

  function TimeOfDay(d: Date): nat { d.second + d.minute * 60 + d.hour * 3600 }
  function Days(d: Date): int
    requires Valid(d)
  {
    DaysBeforeYear(d.year) + YearDay(d)
  }

  lemma SecondsOfDays(d: Date)
    requires Valid(d)
    ensures Seconds(d) == Days(d) * 86400 + TimeOfDay(d) && TimeOfDay(d) < 86400
  {
  }

  /** The calendar order. */
  predicate Before(a: Date, b: Date) {
    || a.year < b.year
    || (a.year == b.year && (a.month < b.month || (a.month == b.month && (a.day < b.day || (a.day == b.day && (
         a.hour < b.hour || (a.hour == b.hour && (a.minute < b.minute || (a.minute == b.minute && a.second < b.second)))))))))
  }

  lemma DaysOrder(a: Date, b: Date)
    requires Valid(a) && Valid(b) && Before(a, b)
    ensures Days(a) <= Days(b)
    ensures (a.year, a.month, a.day) != (b.year, b.month, b.day) ==> Days(a) < Days(b)
  {
    YearDayInYear(a);
    YearDayInYear(b);
    if a.year < b.year {
      YearsGrow(a.year, b.year);
    } else if a.month < b.month {
      MonthStarts(a.year, a.month);
      MonthsGrow(a.year, a.month + 1, b.month);
    }
  }

  /** The closed form is strictly monotone in the calendar order. */
  lemma SecondsOrder(a: Date, b: Date)
    requires Valid(a) && Valid(b)
    ensures Before(a, b) <==> Seconds(a) < Seconds(b)
  {
    SecondsOfDays(a);
    SecondsOfDays(b);
    if Before(a, b) {
      DaysOrder(a, b);
    } else if Before(b, a) {
      DaysOrder(b, a);
    }
    hide Seconds, Days;
  }

  // ----- the loops -----

  /** `unix_secs_to_iso`, up to formatting. */
  method FromSeconds(secs: nat) returns (d: Date)
    ensures Valid(d) && Seconds(d) == secs
    ensures forall e :: Valid(e) && Seconds(e) == secs ==> e == d
  {
    var days, time_of_day := secs / 86400, secs % 86400;
    var remaining, year := days, 1970;
    while remaining >= DaysInYear(year)
      invariant year >= 1970 && remaining >= 0 && DaysBeforeYear(year) + remaining == days
    {
      NextYear(year);
      remaining := remaining - DaysInYear(year);
      year := year + 1;
    }
    var months, month := MonthDays(year), 1;
    ghost var in_year := remaining;
    MonthStarts(year, 12);
    while month <= 12 && remaining >= months[month - 1]
      invariant 1 <= month <= 13 && remaining >= 0 && DaysBeforeMonth(year, month) + remaining == in_year
    {
      remaining := remaining - months[month - 1];
      month := month + 1;
    }
    d := Date(year, month, remaining + 1, time_of_day / 3600, time_of_day % 3600 / 60, time_of_day % 60);
    SecondsOfDays(d);
    TimeParts(time_of_day);
    forall e | Valid(e) && Seconds(e) == secs ensures e == d { Unique(d, e); }
  }

  lemma TimeParts(t: nat)
    requires t < 86400
    ensures t % 60 + t % 3600 / 60 * 60 + t / 3600 * 3600 == t && t / 3600 < 24 && t % 3600 / 60 < 60
  {
    assert t % 3600 % 60 == t % 60;
  }

  lemma Unique(a: Date, b: Date)
    requires Valid(a) && Valid(b) && Seconds(a) == Seconds(b)
    ensures a == b
  {
    SecondsOrder(a, b);
    SecondsOrder(b, a);
  }
}
