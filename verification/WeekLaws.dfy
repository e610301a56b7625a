/** What the weekdays and week numbers mean in terms of days alone: Sunday is 0 and Monday is 1. */
module WeekLaws {
  import opened Civil
  import opened WeekDates
  import opened WeekNumbers
  import Words

  /** 1970-01-01 was a Thursday, and the weekdays follow each other. */
  lemma WeekdaysFollow(z: int)
    requires FitsInt(z) && FitsInt(z + 1)
    ensures ToDays(1970, 1, 1) == 0 && WeekdayFromDays(0) == 4
    ensures WeekdayFromDays(z + 1) == if WeekdayFromDays(z) == 6 then 0 else WeekdayFromDays(z) + 1
  {
    WeekdayIsMod(z);
    WeekdayIsMod(z + 1);
    var w := (z + 4) % 7;
    Words.ModUnique(if w == 6 then 0 else w + 1, (z + 4) / 7 + (if w == 6 then 1 else 0), 7, z + 1 + 4);
  }

  /** The nth weekday of a month is the day on that weekday among the nth seven days of the month. */
  lemma NthDay(v: NthDate, d: int)
    requires NthOk(v) && v.index <= 5 && 7 * (v.index - 1) < d <= 7 * v.index
    requires WeekdayFromDays(ToDays(v.y, v.m, d)) == v.wd
    ensures NthToDays(v) == ToDays(v.y, v.m, d)
  {
    var first := ToDays(v.y, v.m, 1);
    NthWeekday(v);
    NthToDaysIs(v);
    MonthFits(v.y, v.m, d);
    NthFits(v);
    SameMonth(v.y, v.m, d);
    OneOfSeven(first, v.wd, v.index, d, first + d - 1, NthToDays(v));
  }

  lemma NthFits(v: NthDate)
    requires NthFields(v)
    ensures FitsInt(NthToDays(v))
  {
    NthInMonth(v);
    MonthFits(v.y, v.m, 1 + NthOffset(v));
  }

  lemma OneOfSeven(first: int, wd: int, n: int, d: int, z: int, nth: int)
    requires 0 <= wd <= 6 && nth == first + (wd - (first + 4) % 7) % 7 + (n - 1) * 7 && z == first + d - 1
    requires FitsInt(z) && FitsInt(nth) && 7 * (n - 1) < d <= 7 * n
    requires WeekdayFromDays(z) == wd == WeekdayFromDays(nth)
    ensures z == nth
  {
    WeekdayIsMod(z);
    WeekdayIsMod(nth);
    SameResidue(z + 4, nth + 4);
  }

  /** Week 01 of every year of the range is the week of the fourth of January. */
  lemma FourthOfJanuary(g: int)
    requires YEAR_MIN <= g <= YEAR_MAX
    ensures var z := ToDays(g, 1, 4); InRange(z) && IsoYear(z) == g && IsoWeek(z) == 1
  {
    var z := ToDays(g, 1, 4);
    OkInRange(Date(g, 1, 4));
    EndsOfYear(g);
    DaysOfMonth(g, 1, 1, 4);
    Jan1Next(g);
    ThursdayNear(z);
    ParsedYear(z, g);
    IsoAgrees(z);
  }

  lemma ThursdayNear(z: int)
    ensures z - 3 <= Thursday(z) <= z + 3
  {
  }

  lemma IsoPrints(z: int)
    requires InRange(z) && z >= ToDays(YEAR_MIN, 1, 3)
    ensures IsoYear(z) == RefYear(z) && IsoWeek(z) == RefWeek(z)
  {
    IsoExact(z);
  }

  lemma SameWeek(y: int, z: int)
    requires Thursday(y) == Thursday(z)
    ensures RefYear(y) == RefYear(z) && RefWeek(y) == RefWeek(z)
  {
  }

  /** Weeks begin on Mondays: any other day has the week and the year of the day before. */
  lemma WeeksBeginOnMonday(z: int)
    requires InRange(z - 1) && InRange(z) && z - 1 >= ToDays(YEAR_MIN, 1, 3) && WeekdayFromDays(z) != 1
    ensures IsoYear(z) == IsoYear(z - 1) && IsoWeek(z) == IsoWeek(z - 1)
  {
    IsoPrints(z);
    IsoPrints(z - 1);
    NotMonday(z);
    SameThursday(z);
    SameWeek(z, z - 1);
  }

  lemma NotMonday(z: int)
    requires InRange(z) && WeekdayFromDays(z) != 1
    ensures (z + 4) % 7 != 1
  {
    RangeFits(z);
    WeekdayIsMod(z);
  }

  lemma SameThursday(z: int)
    requires (z + 4) % 7 != 1
    ensures Thursday(z) == Thursday(z - 1)
  {
    var r := (z + 3) % 7;
    if r == 0 { Words.ModUnique(1, (z + 3) / 7, 7, z + 4); }
    Words.ModUnique(r - 1, (z + 3) / 7, 7, z - 1 + 3);
  }

  /** Seven days on, the number is one more, unless the year of the week has changed; then it is 1. */
  lemma WeekAfter(z: int)
    requires InRange(z) && InRange(z + 7) && z >= ToDays(YEAR_MIN, 1, 3)
    ensures IsoYear(z + 7) == IsoYear(z) ==> IsoWeek(z + 7) == IsoWeek(z) + 1
    ensures IsoYear(z + 7) != IsoYear(z) ==> IsoYear(z + 7) == IsoYear(z) + 1 && IsoWeek(z + 7) == 1
  {
    IsoPrints(z);
    IsoPrints(z + 7);
    Words.ModUnique((z + 3) % 7, (z + 3) / 7 + 1, 7, z + 7 + 3);
    assert Thursday(z + 7) == Thursday(z) + 7;
    RefYearBounds(z);
    RefYearBounds(z + 7);
    RefWeekIs(z, RefYear(z));
    NextRefWeek(z, RefYear(z));
  }

  lemma NextRefWeek(z: int, y: int)
    requires RefYear(z) == y && Thursday(z + 7) == Thursday(z) + 7
    ensures RefYear(z + 7) == y ==> RefWeek(z + 7) == RefWeek(z) + 1
    ensures RefYear(z + 7) != y ==> RefYear(z + 7) == y + 1 && RefWeek(z + 7) == 1
  {
    var t := Thursday(z);
    RefYearBounds(z);
    RefYearBounds(z + 7);
    Jan1Next(y);
    Jan1Next(y + 1);
    Jan1Order(t + 7, RefYear(z + 7), y);
    Jan1Order(t + 7, RefYear(z + 7), y + 1);
    Jan1Order(t + 7, RefYear(z + 7), y + 2);
    OneWeekOn(t - Jan1(y));
  }

  lemma OneWeekOn(n: int)
    ensures (n + 7) / 7 == n / 7 + 1
  {
  }

  lemma YearBegins(z: int)
    ensures Jan1(FromDays(z).y) == ToDays(FromDays(z).y, 1, 1)
  {
    EndsOfYear(FromDays(z).y);
  }

  lemma SinceSunday(z: int, wday: int)
    requires InRange(z) && wday == WeekdayFromDays(z)
    ensures WdMinus(wday, 0) == wday
  {
    RangeFits(z);
    WeekdayIsMod(z);
    WdMinusIsMod(wday, 0);
    MondayDistance(wday);
  }

  lemma SinceMonday(z: int, wday: int)
    requires InRange(z) && wday == WeekdayFromDays(z)
    ensures WdMinus(wday, 1) == (wday + 6) % 7
  {
    RangeFits(z);
    WeekdayIsMod(z);
    WdMinusIsMod(wday, 1);
    MondayDistance(wday);
  }

  /** %U is what strftime makes of the day of the year and the weekday. */
  lemma SundayWeekIs(z: int, y: int, wday: int)
    requires InRange(z) && y == FromDays(z).y && wday == WeekdayFromDays(z)
    ensures WeekNumber(z, 0) == (z - ToDays(y, 1, 1) + 7 - wday) / 7
  {
    WeekNumberAgrees(z, 0);
    SinceSunday(z, wday);
    YearBegins(z);
  }

  /** %W likewise. */
  lemma MondayWeekIs(z: int, y: int, wday: int)
    requires InRange(z) && y == FromDays(z).y && wday == WeekdayFromDays(z)
    ensures WeekNumber(z, 1) == (z - ToDays(y, 1, 1) + 7 - (wday + 6) % 7) / 7
  {
    WeekNumberAgrees(z, 1);
    SinceMonday(z, wday);
    YearBegins(z);
  }

  lemma MondayDistance(w: int)
    requires 0 <= w <= 6
    ensures w % 7 == w && (w - 1) % 7 == (w + 6) % 7
  {
  }

  /** The code of %U. */
  method SundayWeek(ld: int) returns (wn: int)
    ensures wn == WeekNumber(ld, 0)
    ensures InRange(ld) ==> wn == (ld - ToDays(FromDays(ld).y, 1, 1) + 7 - WeekdayFromDays(ld)) / 7
  {
    if InRange(ld) { SundayWeekIs(ld, FromDays(ld).y, WeekdayFromDays(ld)); }
    wn := PrintWeek(ld, SUNDAY);
  }

  /** The code of %W. */
  method MondayWeek(ld: int) returns (wn: int)
    ensures wn == WeekNumber(ld, 1)
    ensures InRange(ld) ==>
              wn == (ld - ToDays(FromDays(ld).y, 1, 1) + 7 - (WeekdayFromDays(ld) + 6) % 7) / 7
  {
    if InRange(ld) { MondayWeekIs(ld, FromDays(ld).y, WeekdayFromDays(ld)); }
    wn := PrintWeek(ld, MONDAY);
  }
}
