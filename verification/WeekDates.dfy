/** Weekdays, nth-weekday dates and week numbers of date.hpp. Years are 16-bit: arithmetic on them
    wraps where the source's does. */
module WeekDates {
  import opened Civil
  import Words

  const UINT: int := 0x1_0000_0000

  /** `weekday::weekday_from_days`, with the wrap of `unsigned`. Sunday is 0. */
  function WeekdayFromDays(z: int): int {
    var u := z % UINT;
    if z >= -4 then ((u + 4) % UINT) % 7 else u % 7
  }

  /** `weekday - weekday`: the days from `y` on to the next `x`. */
  function WdMinus(x: int, y: int): int {
    var wdu := x - y;
    wdu - CDiv(if wdu >= 0 then wdu else wdu - 6, 7) * 7
  }

  /** The weekday count starts with Thursday, 1970-01-01, and the wrap of `unsigned` does no harm. */
  lemma WeekdayIsMod(z: int)
    requires FitsInt(z)
    ensures WeekdayFromDays(z) == (z + 4) % 7
  {
    if z < -4 {
      Words.ModUnique((z + 4) % 7, (z + 4) / 7 + 613566756, 7, z + UINT);
    }
  }

  lemma WdMinusIsMod(x: int, y: int)
    ensures WdMinus(x, y) == (x - y) % 7
  {
  }

  // ---------------------------------------------------------------------------------------------
  // The nth and the last weekday of a month

  datatype NthDate = NthDate(y: int, m: int, wd: int, index: int)

  /** `year_month_weekday::to_days` */
  function NthToDays(v: NthDate): int {
    var d := ToDays(v.y, v.m, 1);
    d + (WdMinus(v.wd, WeekdayFromDays(d)) + (v.index - 1) * 7)
  }

  /** `year_month_weekday::from_days` */
  function NthFromDays(z: int): NthDate {
    var t := FromDays(z);
    NthDate(t.y, t.m, WeekdayFromDays(z), (t.d - 1) / 7 + 1)
  }

  /** `year_month_weekday::ok` */
  predicate NthOk(v: NthDate) {
    if !(YEAR_MIN <= v.y <= YEAR_MAX) || !(1 <= v.m <= 12) || !(0 <= v.wd <= 6) || v.index < 1 then false
    else if v.index <= 4 then true
    else WdMinus(v.wd, WeekdayFromDays(ToDays(v.y, v.m, 1))) + (v.index - 1) * 7 + 1 <= LastDay(v.y, v.m)
  }

  /** `year_month_weekday_last::to_days` */
  function LastToDays(y: int, m: int, wd: int): int
    requires 1 <= m <= 12
  {
    var d := ToDays(y, m, LastDay(y, m));
    d - WdMinus(WeekdayFromDays(d), wd)
  }

  lemma ModShift(z: int, k: int)
    ensures (z + 7 * k) % 7 == z % 7
  {
    Words.ModUnique(z % 7, z / 7 + k, 7, z + 7 * k);
  }

  /** Going on from `d` to the next weekday `wd` and some whole weeks further lands on `wd`. */
  lemma LandsOn(d: int, wd: int, k: int)
    requires 0 <= wd <= 6
    ensures (d + (wd - (d + 4) % 7) % 7 + 7 * k + 4) % 7 == wd
  {
    var w := (d + 4) % 7;
    var o := (wd - w) % 7;
    assert o == if wd >= w then wd - w else wd - w + 7;
    Words.ModUnique(wd, (d + 4) / 7 + k + (if wd >= w then 0 else 1), 7, d + o + 7 * k + 4);
  }

  /** A year that a short can hold, and the month's days fit an int. */
  lemma MonthFits(y: int, m: int, d: int)
    requires -0x8000 <= y <= 0x8000 && 1 <= m <= 12 && -400 <= d <= 400
    ensures FitsInt(ToDays(y, m, d))
  {
    ToDaysSplit(y, m, d);
    MonthEnd(y, m);
  }

  lemma SameMonth(y: int, m: int, d: int)
    ensures ToDays(y, m, d) == ToDays(y, m, 1) + d - 1
  {
    DaysOfMonth(y, m, 1, d);
  }

  /** The offset that NthToDays adds to the first of the month. */
  function NthOffset(v: NthDate): int {
    (v.wd - (ToDays(v.y, v.m, 1) + 4) % 7) % 7 + (v.index - 1) * 7
  }

  predicate NthFields(v: NthDate) {
    -0x8000 <= v.y <= 0x8000 && 1 <= v.m <= 12 && 0 <= v.wd <= 6 && 1 <= v.index <= 15
  }

  /** The distance from a day on to the next day `wd`, as the source computes it. */
  lemma DaysToNext(first: int, wd: int)
    requires FitsInt(first) && 0 <= wd <= 6
    ensures WdMinus(wd, WeekdayFromDays(first)) == (wd - (first + 4) % 7) % 7
  {
    WeekdayIsMod(first);
    WdMinusIsMod(wd, WeekdayFromDays(first));
  }

  lemma NthToDaysIs(v: NthDate)
    requires NthFields(v)
    ensures NthToDays(v) == ToDays(v.y, v.m, 1) + NthOffset(v)
    ensures NthOk(v) <==> YEAR_MIN <= v.y <= YEAR_MAX && NthOffset(v) + 1 <= LastDay(v.y, v.m)
  {
    MonthFits(v.y, v.m, 1);
    DaysToNext(ToDays(v.y, v.m, 1), v.wd);
  }

  lemma NthInMonth(v: NthDate)
    requires NthFields(v)
    ensures NthToDays(v) == ToDays(v.y, v.m, 1 + NthOffset(v))
  {
    NthToDaysIs(v);
    SameMonth(v.y, v.m, 1 + NthOffset(v));
  }

  lemma LandsOnWeekday(first: int, wd: int, k: int, z: int)
    requires 0 <= wd <= 6 && FitsInt(z) && z == first + (wd - (first + 4) % 7) % 7 + k * 7
    ensures WeekdayFromDays(z) == wd
  {
    LandsOn(first, wd, k);
    WeekdayIsMod(z);
  }

  /** An nth-weekday date converts to a day on its weekday. */
  lemma NthWeekday(v: NthDate)
    requires NthFields(v)
    ensures WeekdayFromDays(NthToDays(v)) == v.wd
  {
    NthInMonth(v);
    MonthFits(v.y, v.m, 1 + NthOffset(v));
    NthToDaysIs(v);
    LandsOnWeekday(ToDays(v.y, v.m, 1), v.wd, v.index - 1, NthToDays(v));
  }

  /** For a year and a month that are ok, and any weekday and index that their four-bit fields can
      hold, an nth-weekday date is ok exactly when converting it to a day number and back returns it:
      for the indices 1 to 4 always, for 5 when the month has a fifth such weekday, for others never. */
  lemma NthOkIffRoundTrip(v: NthDate)
    requires YEAR_MIN <= v.y <= YEAR_MAX && 1 <= v.m <= 12 && 0 <= v.wd <= 15 && 0 <= v.index <= 15
    ensures NthOk(v) <==> NthFromDays(NthToDays(v)) == v
  {
    FieldsOfDay(NthToDays(v));
    if v.wd <= 6 && v.index >= 1 { NthOkIffReturns(v); }
  }

  lemma FieldsOfDay(z: int)
    ensures 0 <= NthFromDays(z).wd <= 6 && 1 <= NthFromDays(z).index <= 5
  {
    LongDate(z);
    NthMonth(z);
  }

  lemma NthOkIffReturns(v: NthDate)
    requires NthFields(v) && YEAR_MIN <= v.y <= YEAR_MAX
    ensures NthOk(v) <==> NthFromDays(NthToDays(v)) == v
  {
    NthToDaysIs(v);
    NthInMonth(v);
    if NthOffset(v) + 1 <= LastDay(v.y, v.m) {
      NthOkReturns(v);
    } else if v.index == 5 {
      NthSpills(v);
    } else {
      FieldsOfDay(NthToDays(v));
    }
  }

  lemma NthOkReturns(v: NthDate)
    requires NthFields(v) && YEAR_MIN <= v.y <= YEAR_MAX && NthOffset(v) + 1 <= LastDay(v.y, v.m)
    ensures NthFromDays(NthToDays(v)) == v
  {
    NthInMonth(v);
    NthWeekday(v);
    LongFromDaysOfToDays(v.y, v.m, NthOffset(v) + 1);
    NthFieldsOf(NthToDays(v), v.y, v.m, NthOffset(v) + 1);
  }

  lemma NthFieldsOf(z: int, y: int, m: int, d: int)
    requires LongFromDays(z) == Date(y, m, d) && -0x8000 <= y < 0x8000
    ensures NthFromDays(z) == NthDate(y, m, WeekdayFromDays(z), (d - 1) / 7 + 1)
  {
  }

  lemma NthMonth(z: int)
    ensures NthFromDays(z).m == LongFromDays(z).m && NthFromDays(z).index == (LongFromDays(z).d - 1) / 7 + 1
  {
  }

  lemma AtLeast28(y: int, m: int)
    requires 1 <= m <= 12
    ensures LastDay(y, m) >= 28
  {
  }

  lemma IntoMonth(y: int, m: int, y1: int, m1: int, e: int, k: int)
    requires 1 <= m1 <= 12 && 1 <= k <= 28
    requires ToDays(y1, m1, 1) - ToDays(y, m, 1) == e
    ensures LongFromDays(ToDays(y, m, e + k)).m == m1
  {
    SameDay(y, m, y1, m1, e, k);
    MonthOfDay28(y1, m1, k);
  }

  lemma SameDay(y: int, m: int, y1: int, m1: int, e: int, k: int)
    requires ToDays(y1, m1, 1) - ToDays(y, m, 1) == e
    ensures ToDays(y, m, e + k) == ToDays(y1, m1, k)
  {
    SameMonth(y, m, e + k);
    SameMonth(y1, m1, k);
  }

  lemma MonthOfDay28(y: int, m: int, k: int)
    requires 1 <= m <= 12 && 1 <= k <= 28
    ensures LongFromDays(ToDays(y, m, k)).m == m
  {
    AtLeast28(y, m);
    LongFromDaysOfToDays(y, m, k);
  }

  lemma PastMonth(y: int, m: int, k: int)
    requires 1 <= m <= 12 && 1 <= k <= 28
    ensures LongFromDays(ToDays(y, m, LastDay(y, m) + k)).m != m
  {
    if m < 12 { PastMonthWithin(y, m, k); } else { PastDecember(y, k); }
  }

  lemma PastMonthWithin(y: int, m: int, k: int)
    requires 1 <= m < 12 && 1 <= k <= 28
    ensures LongFromDays(ToDays(y, m, LastDay(y, m) + k)).m == m + 1
  {
    MonthLengthWithin(y, m);
    IntoNextMonth(y, m, LastDay(y, m), k);
  }

  lemma IntoNextMonth(y: int, m: int, e: int, k: int)
    requires 1 <= m < 12 && 1 <= k <= 28 && ToDays(y, m + 1, 1) - ToDays(y, m, 1) == e
    ensures LongFromDays(ToDays(y, m, e + k)).m == m + 1
  {
    IntoMonth(y, m, y, m + 1, e, k);
  }

  lemma PastDecember(y: int, k: int)
    requires 1 <= k <= 28
    ensures LongFromDays(ToDays(y, 12, 31 + k)).m == 1
  {
    DecemberLength(y);
    IntoMonth(y, 12, y + 1, 1, 31, k);
  }

  /** A fifth weekday that the month does not have is a day of the next month. */
  lemma NthSpills(v: NthDate)
    requires NthFields(v) && v.index == 5 && NthOffset(v) + 1 > LastDay(v.y, v.m)
    ensures NthFromDays(NthToDays(v)).m != v.m
  {
    NthInMonth(v);
    PastMonth(v.y, v.m, NthOffset(v) + 1 - LastDay(v.y, v.m));
    NthMonth(NthToDays(v));
  }

  /** Every day number of the range survives the way through its nth-weekday date, which is ok. */
  lemma NthRoundTrip(z: int)
    requires InRange(z)
    ensures NthToDays(NthFromDays(z)) == z && NthOk(NthFromDays(z))
  {
    RangeFits(z);
    ToDaysOfFromDays(z);
    WeekdayIsMod(z);
    NthOfDate(FromDays(z), z, NthFromDays(z));
  }

  lemma NthOfDate(t: Date, z: int, v: NthDate)
    requires Ok(t) && z == ToDays(t.y, t.m, t.d) && v == NthDate(t.y, t.m, (z + 4) % 7, (t.d - 1) / 7 + 1)
    ensures NthToDays(v) == z && NthOk(v)
  {
    NthOffsetOfDate(t, z, v);
    SameMonth(t.y, t.m, t.d);
    NthToDaysIs(v);
  }

  lemma NthOffsetOfDate(t: Date, z: int, v: NthDate)
    requires Ok(t) && z == ToDays(t.y, t.m, t.d) && v == NthDate(t.y, t.m, (z + 4) % 7, (t.d - 1) / 7 + 1)
    ensures NthOffset(v) == t.d - 1
  {
    SameMonth(t.y, t.m, t.d);
    OffsetOfDay(ToDays(t.y, t.m, 1), t.d);
    OffsetIs(v, t, z);
  }

  lemma RangeFits(z: int)
    requires InRange(z)
    ensures FitsInt(z - 400) && FitsInt(z + 400)
  {
    RangeNumbers();
  }

  lemma OffsetIs(v: NthDate, t: Date, z: int)
    requires v == NthDate(t.y, t.m, (z + 4) % 7, (t.d - 1) / 7 + 1)
    ensures NthOffset(v) == ((z + 4) % 7 - (ToDays(t.y, t.m, 1) + 4) % 7) % 7 + (t.d - 1) / 7 * 7
  {
  }

  lemma OffsetOfDay(first: int, d: int)
    requires 1 <= d <= 31
    ensures ((first + d - 1 + 4) % 7 - (first + 4) % 7) % 7 + (d - 1) / 7 * 7 == d - 1
  {
    var e := d - 1;
    var w := (first + 4) % 7;
    var x := w + e % 7;
    var carry := if x >= 7 then 1 else 0;
    Words.ModUnique(x - 7 * carry, (first + 4) / 7 + e / 7 + carry, 7, first + d - 1 + 4);
  }

  lemma LastToDaysIs(y: int, m: int, wd: int)
    requires -0x8000 <= y <= YEAR_MAX && 1 <= m <= 12 && 0 <= wd <= 6
    ensures var last := ToDays(y, m, LastDay(y, m));
            LastToDays(y, m, wd) == last - ((last + 4) % 7 - wd) % 7
    ensures FitsInt(LastToDays(y, m, wd))
  {
    var last := ToDays(y, m, LastDay(y, m));
    MonthFits(y, m, LastDay(y, m));
    MonthFits(y, m, LastDay(y, m) - 6);
    DaysOfMonth(y, m, LastDay(y, m) - 6, LastDay(y, m));
    WeekdayIsMod(last);
    WdMinusIsMod(WeekdayFromDays(last), wd);
  }

  /** year_month_weekday_last::to_days is the latest day of the month on that weekday. */
  lemma LastIsLatest(y: int, m: int, wd: int, d: int)
    requires -0x8000 <= y <= YEAR_MAX && 1 <= m <= 12 && 0 <= wd <= 6 && 1 <= d <= LastDay(y, m)
    ensures WeekdayFromDays(LastToDays(y, m, wd)) == wd
    ensures ToDays(y, m, LastDay(y, m)) - 6 <= LastToDays(y, m, wd) <= ToDays(y, m, LastDay(y, m))
    ensures WeekdayFromDays(ToDays(y, m, d)) == wd ==> ToDays(y, m, d) <= LastToDays(y, m, wd)
  {
    MonthFits(y, m, d);
    DaysOfMonth(y, m, d, LastDay(y, m));
    LastToDaysIs(y, m, wd);
    LastOfRun(ToDays(y, m, LastDay(y, m)), wd, LastToDays(y, m, wd), ToDays(y, m, d));
  }

  lemma LastOfRun(last: int, wd: int, r: int, z: int)
    requires 0 <= wd <= 6 && FitsInt(r) && FitsInt(z) && z <= last
    requires r == last - ((last + 4) % 7 - wd) % 7
    ensures WeekdayFromDays(r) == wd && last - 6 <= r <= last
    ensures WeekdayFromDays(z) == wd ==> z <= r
  {
    GoesBackTo(last, wd);
    WeekdayIsMod(r);
    WeekdayIsMod(z);
    if (z + 4) % 7 == wd { LatestOn(last, wd, z); }
  }

  lemma GoesBackTo(last: int, wd: int)
    requires 0 <= wd <= 6
    ensures (last - ((last + 4) % 7 - wd) % 7 + 4) % 7 == wd
  {
    var w := (last + 4) % 7;
    Words.ModUnique(wd, (last + 4) / 7 - (if w >= wd then 0 else 1), 7, last - (w - wd) % 7 + 4);
  }

  lemma LatestOn(last: int, wd: int, z: int)
    requires 0 <= wd <= 6 && z <= last && (z + 4) % 7 == wd
    ensures z <= last - ((last + 4) % 7 - wd) % 7
  {
    GoesBackTo(last, wd);
    SameResidue(last - ((last + 4) % 7 - wd) % 7 + 4, z + 4);
  }

  /** Numbers on the same residue differ by whole weeks. */
  lemma SameResidue(a: int, b: int)
    requires a % 7 == b % 7
    ensures a < b ==> a + 7 <= b
    ensures b < a ==> b + 7 <= a
  {
  }
}
