/** The week numbers that date.hpp prints and parses: %G and %V (ISO 8601), %U and %W. */
module WeekNumbers {
  import opened Civil
  import opened WeekDates
  import Words

  const SUNDAY: int := 0
  const MONDAY: int := 1
  const THURSDAY: int := 4

  // ---------------------------------------------------------------------------------------------
  // %G and %V

  /** The Monday that starts the week-based year `y`, from the last Thursday of the year before. */
  function IsoStart(y: int): int {
    LastToDays(Short(y - 1), 12, THURSDAY) + WdMinus(MONDAY, THURSDAY)
  }

  /** The year whose weeks hold `ld`, given the calendar year of the day three days on. */
  function WeekYear(ld: int, y: int): int {
    if ld < IsoStart(y) then Short(y - 1) else y
  }

  /** The year that %G prints. */
  function IsoYear(z: int): int { WeekYear(z, FromDays(z + 3).y) }

  /** The number of the week of `ld` when week 01 starts with `st`. */
  function WeekFrom(ld: int, st: int): int { CDiv(ld - st, 7) + 1 }

  /** The week number that %V prints. */
  function IsoWeek(z: int): int {
    WeekFrom(z, IsoStart(IsoYear(z)))
  }

  /** The day that the parser computes from %G, %V and a weekday. */
  function FromIso(g: int, v: int, wd: int): int {
    IsoStart(g) + (v - 1) * 7 + WdMinus(wd, MONDAY)
  }

  /** The lines that step the year and its start back. */
  method FindStart(ld: int, year: int) returns (y: int, st: int)
    ensures y == WeekYear(ld, year) && st == IsoStart(y)
  {
    y, st := year, IsoStart(year);
    if ld < st {
      y := Short(y - 1);
      st := IsoStart(y);
    }
  }

  /** The Thursday of the Monday-based week of `z`. */
  function Thursday(z: int): int { z + 3 - (z + 3) % 7 }

  /** Section 4.1.4 of ISO 8601:2004: a week belongs to the year of its Thursday and is numbered by
      the Thursdays of that year. */
  function RefYear(z: int): int { LongFromDays(Thursday(z)).y }

  function RefWeek(z: int): int { (Thursday(z) - Jan1(RefYear(z))) / 7 + 1 }

  /** The first Thursday of a year: day numbers divisible by 7 are Thursdays. */
  function FirstThursday(y: int): int { Jan1(y) + (-Jan1(y)) % 7 }

  lemma RoundUp7(j: int)
    ensures (j + (-j) % 7) % 7 == 0 && 0 <= (-j) % 7 <= 6
  {
    Words.ModUnique(0, -((-j) / 7), 7, j + (-j) % 7);
  }

  lemma RoundDown7(j: int)
    ensures (j - j % 7) % 7 == 0 && 0 <= j % 7 <= 6
  {
    Words.ModUnique(0, j / 7, 7, j - j % 7);
  }

  lemma LastThursdayBefore(j: int)
    ensures j - 1 - ((j - 1 + 4) % 7 - 4) % 7 == j + (-j) % 7 - 7
  {
    var k := -((-j) / 7);
    var e := (-j) % 7;
    assert j == 7 * k - e;
    var w := (j - 1 + 4) % 7;
    Words.ModUnique(if e <= 3 then 3 - e else 10 - e, if e <= 3 then k else k - 1, 7, j - 1 + 4);
    Words.ModUnique(6 - e, if e <= 3 then -1 else 0, 7, w - 4);
  }

  lemma LastThursdayIs(y: int)
    requires -0x8000 <= y <= YEAR_MAX
    ensures LastToDays(y, 12, THURSDAY) == FirstThursday(y + 1) - 7
  {
    LastToDaysIs(y, 12, THURSDAY);
    EndsOfYear(y);
    LastThursdayBefore(Jan1(y + 1));
  }

  lemma ShortBefore(y: int)
    ensures Short(Short(y) - 1) == Short(y - 1)
  {
  }

  lemma IsoStartFrom(s: int, y: int, last: int)
    requires Short(s - 1) == y && LastToDays(y, 12, THURSDAY) == last
    ensures IsoStart(s) == last + 4
  {
  }

  /** The 16-bit years -32767 to 32768, the last of which wraps, start where the standard says. */
  lemma IsoStartIs(y: int)
    requires YEAR_MIN <= y <= YEAR_MAX + 1
    ensures IsoStart(Short(y)) == FirstThursday(y) - 3
  {
    ShortBefore(y);
    LastThursdayIs(y - 1);
    IsoStartFrom(Short(y), y - 1, FirstThursday(y) - 7);
  }

  lemma Jan1Next(y: int)
    ensures 365 <= Jan1(y + 1) - Jan1(y) <= 366
  {
    Jan1Step(y);
  }

  lemma YearOf(z: int, y: int)
    requires Jan1(y) <= z < Jan1(y + 1)
    ensures LongFromDays(z).y == y
  {
    LongYearBetween(z, y, y);
  }

  lemma Multiples7(a: int, b: int)
    requires a % 7 == 0 && b % 7 == 0 && a < b
    ensures a + 7 <= b
  {
  }

  /** Whether a day comes before the start of the week-based year of its calendar year (that of the
      day three days on) decides the year of its Thursday. */
  lemma RefYearIs(z: int, y: int)
    requires Jan1(y) <= z + 3 < Jan1(y + 1)
    ensures RefYear(z) == if z < FirstThursday(y) - 3 then y - 1 else y
  {
    RoundUp7(Jan1(y));
    RoundDown7(z + 3);
    Jan1Next(y - 1);
    if z + 3 < FirstThursday(y) {
      Multiples7(Thursday(z), FirstThursday(y));
      YearOf(Thursday(z), y - 1);
    } else {
      if Thursday(z) < FirstThursday(y) { Multiples7(Thursday(z), FirstThursday(y)); }
      YearOf(Thursday(z), y);
    }
  }

  lemma YearThreeOn(z: int)
    requires InRange(z)
    ensures var y := LongFromDays(z + 3).y;
            && YEAR_MIN <= y <= YEAR_MAX + 1 && Jan1(y) <= z + 3 < Jan1(y + 1)
            && FromDays(z + 3).y == Short(y)
  {
    EndsOfYear(YEAR_MIN);
    EndsOfYear(YEAR_MAX);
    Jan1Next(YEAR_MAX + 1);
    LongYearBetween(z + 3, YEAR_MIN, YEAR_MAX + 1);
    LongYearBounds(z + 3);
  }

  lemma IsoYearFrom(z: int, y: int, start: int)
    requires FromDays(z + 3).y == Short(y) && IsoStart(Short(y)) == start
    ensures IsoYear(z) == Short(if z < start then y - 1 else y)
  {
    ShortBefore(y);
  }

  /** %G prints the year of the standard, reduced to 16 bits. */
  lemma IsoYearIs(z: int)
    requires InRange(z)
    ensures IsoYear(z) == Short(RefYear(z))
    ensures YEAR_MIN - 1 <= RefYear(z) <= YEAR_MAX + 1
  {
    YearThreeOn(z);
    var y := LongFromDays(z + 3).y;
    IsoStartIs(y);
    RefYearIs(z, y);
    IsoYearFrom(z, y, FirstThursday(y) - 3);
  }

  lemma RefYearBounds(z: int)
    ensures Jan1(RefYear(z)) <= Thursday(z) < Jan1(RefYear(z) + 1)
  {
    LongYearBounds(Thursday(z));
  }

  /** First Thursday and Thursday of the week counted in weeks: day 7 * k and day 7 * t. */
  lemma WeekArithmetic(z: int, j: int) returns (k: int, t: int)
    requires 0 <= z + 3 - (z + 3) % 7 - j < 366
    ensures j + (-j) % 7 == 7 * k && 7 * t <= z + 3 < 7 * t + 7 && 0 <= t - k <= 52
    ensures (z + 3 - (z + 3) % 7 - j) / 7 == t - k
  {
    k, t := -((-j) / 7), (z + 3) / 7;
    Words.ModUnique((-j) % 7, t - k, 7, z + 3 - (z + 3) % 7 - j);
  }

  lemma IsoWeekday(z: int)
    requires FitsInt(z)
    ensures WdMinus(WeekdayFromDays(z), MONDAY) == (z + 3) % 7
  {
    WeekdayIsMod(z);
    WdMinusIsMod((z + 4) % 7, MONDAY);
    DayBefore(z + 4);
  }

  lemma DayBefore(x: int)
    ensures (x % 7 - 1) % 7 == (x - 1) % 7
  {
    Words.ModUnique((x - 1) % 7, (x - 1) / 7 - x / 7, 7, x % 7 - 1);
  }

  lemma IsoWeekFrom(z: int, y: int, start: int)
    requires IsoYear(z) == y && IsoStart(y) == start <= z
    ensures IsoWeek(z) == (z - start) / 7 + 1
  {
  }

  lemma RefWeekIs(z: int, y: int)
    requires RefYear(z) == y
    ensures var j := Jan1(y);
            0 <= z + 3 - (z + 3) % 7 - j < 366 && RefWeek(z) == (z + 3 - (z + 3) % 7 - j) / 7 + 1
  {
    RefYearBounds(z);
    Jan1Next(y);
  }

  /** The week-based year `y` of `z` starts three days before day 7 * k, and the week of `z` three days
      before day 7 * t. */
  ghost predicate InWeek(z: int, y: int, k: int, t: int) {
    && IsoYear(z) == y
    && IsoStart(y) == 7 * k - 3
    && 7 * t <= z + 3 < 7 * t + 7
    && 0 <= t - k <= 52
  }

  /** The code and the standard agree on the year `y` of `z`, which starts with day `j`. */
  ghost predicate Agreed(z: int, y: int, j: int) {
    RefYear(z) == IsoYear(z) == y && Jan1(y) == j && IsoStart(y) == j + (-j) % 7 - 3
  }

  lemma IsoYearAgrees(z: int)
    requires InRange(z) && YEAR_MIN <= RefYear(z) <= YEAR_MAX
    ensures Agreed(z, RefYear(z), Jan1(RefYear(z)))
  {
    IsoYearIs(z);
    IsoStartIs(RefYear(z));
  }

  lemma IsoInWeek(z: int) returns (k: int, t: int)
    requires InRange(z) && YEAR_MIN <= RefYear(z) <= YEAR_MAX
    ensures InWeek(z, RefYear(z), k, t) && RefWeek(z) == t - k + 1
  {
    IsoYearAgrees(z);
    k, t := RefInWeek(z, RefYear(z), Jan1(RefYear(z)));
  }

  lemma RefInWeek(z: int, y: int, j: int) returns (k: int, t: int)
    requires Agreed(z, y, j)
    ensures InWeek(z, y, k, t) && RefWeek(z) == t - k + 1
  {
    RefWeekIs(z, y);
    k, t := InWeekOf(z, y, j);
  }

  lemma InWeekOf(z: int, y: int, j: int) returns (k: int, t: int)
    requires IsoYear(z) == y && IsoStart(y) == j + (-j) % 7 - 3 && 0 <= z + 3 - (z + 3) % 7 - j < 366
    ensures InWeek(z, y, k, t) && (z + 3 - (z + 3) % 7 - j) / 7 == t - k
  {
    k, t := WeekArithmetic(z, j);
  }

  lemma IsoWeekIs(z: int, y: int, k: int, t: int)
    requires InWeek(z, y, k, t)
    ensures IsoYear(z) == y && IsoWeek(z) == t - k + 1 && 0 <= t - k <= 52
  {
    IsoWeekFrom(z, y, 7 * k - 3);
    Words.ModUnique(z + 3 - 7 * t, t - k, 7, z - (7 * k - 3));
  }

  lemma IsoAgrees(z: int)
    requires InRange(z) && YEAR_MIN <= RefYear(z) <= YEAR_MAX
    ensures IsoYear(z) == RefYear(z) && IsoWeek(z) == RefWeek(z) && 1 <= IsoWeek(z) <= 53
  {
    var k, t := IsoInWeek(z);
    IsoWeekIs(z, RefYear(z), k, t);
  }

  lemma IsoReturns(z: int)
    requires InRange(z) && YEAR_MIN <= RefYear(z) <= YEAR_MAX
    ensures FromIso(RefYear(z), RefWeek(z), WeekdayFromDays(z)) == z
  {
    var k, t := IsoInWeek(z);
    RangeFits(z);
    IsoReturnsAt(z, RefYear(z), k, t);
  }

  lemma IsoReturnsAt(z: int, y: int, k: int, t: int)
    requires InWeek(z, y, k, t) && FitsInt(z)
    ensures FromIso(y, t - k + 1, WeekdayFromDays(z)) == z
  {
    DaysSinceMonday(z, t);
    FromIsoFrom(y, t - k + 1, WeekdayFromDays(z), 7 * k - 3);
  }

  lemma DaysSinceMonday(z: int, t: int)
    requires FitsInt(z) && 7 * t <= z + 3 < 7 * t + 7
    ensures WdMinus(WeekdayFromDays(z), MONDAY) == z + 3 - 7 * t
  {
    IsoWeekday(z);
    Words.ModUnique(z + 3 - 7 * t, t, 7, z + 3);
  }

  lemma FromIsoFrom(g: int, v: int, wd: int, start: int)
    requires IsoStart(g) == start
    ensures FromIso(g, v, wd) == start + (v - 1) * 7 + WdMinus(wd, MONDAY)
  {
  }

  lemma EdgeYears(z: int)
    requires InRange(z)
    ensures YEAR_MIN <= RefYear(z) <= YEAR_MAX <==> z >= ToDays(YEAR_MIN, 1, 3)
    ensures RefYear(z) <= YEAR_MAX
  {
    RangeNumbers();
    EndsOfYear(YEAR_MIN);
    EndsOfYear(YEAR_MAX);
    DaysOfMonth(YEAR_MIN, 1, 1, 3);
    RoundDown7(z + 3);
    RefYearBounds(z);
    Jan1Order(Thursday(z), RefYear(z), YEAR_MIN);
    Jan1Order(Thursday(z), RefYear(z), YEAR_MAX + 1);
    ThursdayAtEdges(z);
  }

  lemma ThursdayAtEdges(z: int)
    ensures Thursday(z) >= -12687428 <==> z >= -12687426
    ensures z <= 11248737 ==> Thursday(z) < 11248738
  {
  }

  /** The week date that %G and %V print is that of the standard and feeds back to the same day,
      exactly when the day is not the first or the second of January of the year -32767: there the
      week belongs to the year -32768, whose start wraps to that of 32768. */
  lemma IsoExact(z: int)
    requires InRange(z)
    ensures z >= ToDays(YEAR_MIN, 1, 3) <==>
            && 1 <= IsoWeek(z) <= 53 && IsoYear(z) == RefYear(z) && IsoWeek(z) == RefWeek(z)
            && FromIso(IsoYear(z), IsoWeek(z), WeekdayFromDays(z)) == z
  {
    EdgeYears(z);
    if z >= ToDays(YEAR_MIN, 1, 3) {
      IsoAgrees(z);
      IsoReturns(z);
    } else {
      IsoWraps(z);
    }
  }

  lemma IsoWraps(z: int)
    requires InRange(z) && RefYear(z) < YEAR_MIN
    ensures IsoWeek(z) < 1
  {
    IsoYearIs(z);
    assert IsoYear(z) == Short(YEAR_MAX + 1);
    IsoStartIs(YEAR_MAX + 1);
    RoundUp7(Jan1(YEAR_MAX + 1));
    EndsOfYear(YEAR_MAX);
    RefYearBounds(z);
    Jan1Mono(RefYear(z) + 1, YEAR_MIN);
    Jan1Mono(YEAR_MIN, YEAR_MAX + 1);
    RoundDown7(z + 3);
  }

  /** The first of January of the year -32767 shows the failure: its week number is negative. */
  lemma IsoFails()
    ensures Ok(Date(YEAR_MIN, 1, 1)) && IsoWeek(ToDays(YEAR_MIN, 1, 1)) < 1
  {
    var z := ToDays(YEAR_MIN, 1, 1);
    RangeNumbers();
    EdgeYears(z);
    DaysOfMonth(YEAR_MIN, 1, 1, 3);
    IsoWraps(z);
  }

  /** A week date with the year `g` and any number for its week, parsed and printed again, is the same
      exactly when the year has that week: its Thursday is a day of `g`. */
  lemma IsoParsed(g: int, v: int, wd: int)
    requires YEAR_MIN <= g <= YEAR_MAX && 0 <= wd <= 6
    requires InRange(FromIso(g, v, wd))
    ensures (var z := FromIso(g, v, wd); IsoYear(z) == g && IsoWeek(z) == v && WeekdayFromDays(z) == wd)
      <==> Jan1(g) <= FirstThursday(g) + (v - 1) * 7 < Jan1(g + 1)
  {
    var z := FromIso(g, v, wd);
    RangeFits(z);
    ParsedDay(g, v, wd);
    ParsedYear(z, g);
    IsoPrinted(z, g, v);
  }

  lemma IsoPrinted(z: int, g: int, v: int)
    requires YEAR_MIN <= g <= YEAR_MAX && InRange(z) && Thursday(z) == FirstThursday(g) + (v - 1) * 7
    ensures IsoYear(z) == g && IsoWeek(z) == v <==> RefYear(z) == g
  {
    if RefYear(z) == g {
      IsoAgrees(z);
      RefWeekIs(z, g);
      WeekOf(Jan1(g), v);
    } else {
      IsoElsewhere(z, g);
    }
  }

  lemma ParsedDay(g: int, v: int, wd: int)
    requires YEAR_MIN <= g <= YEAR_MAX && 0 <= wd <= 6 && FitsInt(FromIso(g, v, wd))
    ensures Thursday(FromIso(g, v, wd)) == FirstThursday(g) + (v - 1) * 7
    ensures WeekdayFromDays(FromIso(g, v, wd)) == wd
  {
    ParsedFrom(g, v, wd);
    NthThursday(g, v);
    ParsedThursday(FirstThursday(g) + (v - 1) * 7, wd, FromIso(g, v, wd));
    WeekdayIsMod(FromIso(g, v, wd));
  }

  lemma ParsedFrom(g: int, v: int, wd: int)
    requires YEAR_MIN <= g <= YEAR_MAX
    ensures FromIso(g, v, wd) == FirstThursday(g) + (v - 1) * 7 - 3 + (wd - 1) % 7
  {
    IsoStartIs(g);
    FromIsoFrom(g, v, wd, FirstThursday(g) - 3);
    WdMinusIsMod(wd, MONDAY);
  }

  lemma NthThursday(g: int, v: int)
    ensures (FirstThursday(g) + (v - 1) * 7) % 7 == 0
  {
    RoundUp7(Jan1(g));
    ModShift(FirstThursday(g), v - 1);
  }

  lemma ParsedYear(z: int, g: int)
    ensures RefYear(z) == g <==> Jan1(g) <= Thursday(z) < Jan1(g + 1)
  {
    RefYearBounds(z);
    Jan1Order(Thursday(z), RefYear(z), g);
    Jan1Order(Thursday(z), RefYear(z), g + 1);
  }

  lemma IsoElsewhere(z: int, g: int)
    requires InRange(z) && RefYear(z) != g && YEAR_MIN <= g <= YEAR_MAX
    ensures IsoYear(z) != g
  {
    IsoYearIs(z);
    EdgeYears(z);
    assert YEAR_MIN - 1 <= RefYear(z) <= YEAR_MAX;
  }

  lemma WeekOf(j: int, v: int)
    ensures (j + (-j) % 7 + (v - 1) * 7 - j) / 7 + 1 == v
  {
    Words.ModUnique((-j) % 7, v - 1, 7, j + (-j) % 7 + (v - 1) * 7 - j);
  }

  lemma ParsedThursday(t: int, wd: int, z: int)
    requires t % 7 == 0 && 0 <= wd <= 6 && z == t - 3 + (wd - 1) % 7
    ensures Thursday(z) == t && (z + 4) % 7 == wd
  {
    var o := (wd - 1) % 7;
    assert o == if wd >= 1 then wd - 1 else 6;
    Words.ModUnique(o, t / 7, 7, z + 3);
    Words.ModUnique(wd, t / 7 + (if wd >= 1 then 0 else 1), 7, z + 4);
  }

  // ---------------------------------------------------------------------------------------------
  // %U and %W

  /** The first Sunday or Monday of the year. */
  function WeekStart(y: int, first: int): int { NthToDays(NthDate(y, 1, first, 1)) }

  /** The number that %U (weeks from Sunday) or %W (from Monday) prints. */
  function WeekNumber(z: int, first: int): int {
    var st := WeekStart(FromDays(z).y, first);
    if z < st then 0 else WeekFrom(z, st)
  }

  /** The day that the parser computes from %Y, the week number and a weekday. */
  function FromWeek(y: int, w: int, wd: int, first: int): int {
    WeekStart(y, first) + (w - 1) * 7 + WdMinus(wd, first)
  }

  lemma WeekStartIs(y: int, j: int, first: int)
    requires YEAR_MIN <= y <= YEAR_MAX && first in {SUNDAY, MONDAY} && Jan1(y) == j
    ensures WeekStart(y, first) == j + (first - (j + 4) % 7) % 7
  {
    EndsOfYear(y);
    FirstOfJanuary(NthDate(y, 1, first, 1), j);
  }

  lemma FirstOfJanuary(v: NthDate, j: int)
    requires NthFields(v) && v.index == 1 && ToDays(v.y, v.m, 1) == j
    ensures NthToDays(v) == j + (v.wd - (j + 4) % 7) % 7
  {
    NthToDaysIs(v);
  }

  lemma WeekCount(z: int, j: int, first: int) returns (st: int, q: int, o: int)
    requires j <= z < j + 366 && 0 <= first <= 6
    ensures st == j + (first - (j + 4) % 7) % 7 && 0 <= st - j <= 6
    ensures z == st + 7 * q + o && 0 <= o <= 6 && -1 <= q <= 52
    ensures o == ((z + 4) % 7 - first) % 7
  {
    st := j + (first - (j + 4) % 7) % 7;
    LandsOn(j, first, 0);
    assert (st + 4) % 7 == first;
    o, q := (z - st) % 7, (z - st) / 7;
    Words.ModUnique(o, (st + 4) / 7 + q - (z + 4) / 7, 7, (z + 4) % 7 - first);
  }

  lemma WeekNumberFrom(z: int, y: int, first: int, st: int)
    requires FromDays(z).y == y && WeekStart(y, first) == st
    ensures WeekNumber(z, first) == if z < st then 0 else (z - st) / 7 + 1
  {
  }

  lemma DaysSince(z: int, first: int)
    requires FitsInt(z)
    ensures WdMinus(WeekdayFromDays(z), first) == ((z + 4) % 7 - first) % 7
  {
    WeekdayIsMod(z);
    WdMinusIsMod(WeekdayFromDays(z), first);
  }

  lemma YearOfDay(z: int)
    requires InRange(z)
    ensures var y := FromDays(z).y; YEAR_MIN <= y <= YEAR_MAX && Jan1(y) <= z < Jan1(y) + 366
  {
    LongYearInRange(z);
    LongYearBounds(z);
    Jan1Next(LongFromDays(z).y);
  }

  /** `z` is a day of the year `y`, q weeks and o days after the first day of week 01. */
  ghost predicate InYear(z: int, y: int, first: int, st: int, q: int, o: int) {
    && FromDays(z).y == y
    && WeekStart(y, first) == st
    && z == st + 7 * q + o && 0 <= o <= 6 && -1 <= q <= 52
    && WdMinus(WeekdayFromDays(z), first) == o
  }

  lemma DayInYear(z: int, y: int, j: int, first: int) returns (st: int, q: int, o: int)
    requires FitsInt(z) && FromDays(z).y == y && WeekStart(y, first) == j + (first - (j + 4) % 7) % 7
    requires j <= z < j + 366 && 0 <= first <= 6
    ensures InYear(z, y, first, st, q, o) && 0 <= st - j <= 6
  {
    DaysSince(z, first);
    st, q, o := WeekCount(z, j, first);
  }

  lemma RangeInYear(z: int, first: int) returns (st: int, q: int, o: int)
    requires InRange(z) && first in {SUNDAY, MONDAY}
    ensures InYear(z, FromDays(z).y, first, st, q, o) && 0 <= st - Jan1(FromDays(z).y) <= 6
  {
    YearOfDay(z);
    RangeFits(z);
    st, q, o := FirstWeekOf(z, FromDays(z).y, Jan1(FromDays(z).y), first);
  }

  lemma FirstWeekOf(z: int, y: int, j: int, first: int) returns (st: int, q: int, o: int)
    requires FitsInt(z) && FromDays(z).y == y && YEAR_MIN <= y <= YEAR_MAX && Jan1(y) == j <= z < j + 366
    requires first in {SUNDAY, MONDAY}
    ensures InYear(z, y, first, st, q, o) && 0 <= st - j <= 6
  {
    WeekStartIs(y, j, first);
    st, q, o := DayInYear(z, y, j, first);
  }

  lemma WeekNumberIs(z: int, y: int, first: int, st: int, q: int, o: int)
    requires InYear(z, y, first, st, q, o)
    ensures WeekNumber(z, first) == q + 1
  {
    WeekNumberFrom(z, y, first, st);
    Words.ModUnique(o, q, 7, z - st);
  }

  lemma FromWeekIs(z: int, y: int, first: int, st: int, q: int, o: int)
    requires InYear(z, y, first, st, q, o)
    ensures FromWeek(y, q + 1, WeekdayFromDays(z), first) == z
  {
  }

  /** %Y with %U or %W and the weekday feeds back to the same day, week 00 included. */
  lemma WeekRoundTrip(z: int, first: int)
    requires InRange(z) && first in {SUNDAY, MONDAY}
    ensures 0 <= WeekNumber(z, first) <= 53
    ensures FromWeek(FromDays(z).y, WeekNumber(z, first), WeekdayFromDays(z), first) == z
  {
    var st, q, o := RangeInYear(z, first);
    WeekNumberIs(z, FromDays(z).y, first, st, q, o);
    FromWeekIs(z, FromDays(z).y, first, st, q, o);
  }

  /** The number is the one of the C standard's strftime: (days since the first of January + 7 - days
      since the first day of the week) / 7. */
  lemma WeekNumberAgrees(z: int, first: int)
    requires InRange(z) && first in {SUNDAY, MONDAY}
    ensures WeekNumber(z, first) == (z - Jan1(FromDays(z).y) + 7 - WdMinus(WeekdayFromDays(z), first)) / 7
  {
    var st, q, o := RangeInYear(z, first);
    WeekNumberIs(z, FromDays(z).y, first, st, q, o);
    YearDayWeeks(z, Jan1(FromDays(z).y), st, q, o);
  }

  lemma YearDayWeeks(z: int, j: int, st: int, q: int, o: int)
    requires z == st + 7 * q + o && 0 <= st - j <= 6
    ensures (z - j + 7 - o) / 7 == q + 1
  {
    Words.ModUnique(st - j, q + 1, 7, z - j + 7 - o);
  }

  // ---------------------------------------------------------------------------------------------
  // The code that prints

  lemma IsoMeaning(ld: int)
    ensures InRange(ld) && ld >= ToDays(YEAR_MIN, 1, 3) ==>
              IsoYear(ld) == RefYear(ld) && IsoWeek(ld) == RefWeek(ld)
              && FromIso(IsoYear(ld), IsoWeek(ld), WeekdayFromDays(ld)) == ld
  {
    if InRange(ld) { IsoExact(ld); }
  }

  /** The code of %V: the year and the week of the standard, which feed back to the same day. */
  method PrintIsoWeek(ld: int) returns (y: int, wn: int)
    ensures y == IsoYear(ld) && wn == IsoWeek(ld)
    ensures InRange(ld) && ld >= ToDays(YEAR_MIN, 1, 3) ==>
              y == RefYear(ld) && wn == RefWeek(ld) && FromIso(y, wn, WeekdayFromDays(ld)) == ld
  {
    IsoMeaning(ld);
    y, wn := IsoWeekOf(ld);
  }

  method IsoWeekOf(ld: int) returns (y: int, wn: int)
    ensures y == IsoYear(ld) && wn == IsoWeek(ld)
  {
    var st;
    y, st := FindStart(ld, FromDays(ld + 3).y);
    wn := WeekFrom(ld, st);
  }

  /** `n` is the week number of `ld` for weeks that start with the weekday `first`, by the formula of
      the C standard's strftime, and feeds back to the day. */
  ghost predicate IsWeekOfYear(ld: int, first: int, n: int) {
    var y, wd := FromDays(ld).y, WeekdayFromDays(ld);
    0 <= n <= 53 && FromWeek(y, n, wd, first) == ld && n == (ld - Jan1(y) + 7 - WdMinus(wd, first)) / 7
  }

  lemma WeekMeaning(ld: int, first: int)
    ensures InRange(ld) && first in {SUNDAY, MONDAY} ==> IsWeekOfYear(ld, first, WeekNumber(ld, first))
  {
    if InRange(ld) && first in {SUNDAY, MONDAY} {
      WeekRoundTrip(ld, first);
      WeekNumberAgrees(ld, first);
    }
  }

  /** The code of %U and %W: the week number that feeds back to the same day, as strftime has it. */
  method PrintWeek(ld: int, first: int) returns (wn: int)
    ensures wn == WeekNumber(ld, first)
    ensures InRange(ld) && first in {SUNDAY, MONDAY} ==> IsWeekOfYear(ld, first, wn)
  {
    WeekMeaning(ld, first);
    wn := WeekSince(ld, NthToDays(NthDate(FromDays(ld).y, 1, first, 1)));
  }

  method WeekSince(ld: int, st: int) returns (wn: int)
    ensures wn == if ld < st then 0 else WeekFrom(ld, st)
  {
    wn := 0;
    if ld >= st { wn := WeekFrom(ld, st); }
  }
}
