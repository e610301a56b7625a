/** The civil calendar of date.hpp: the conversions between a day number (days since 1970-01-01) and
    year, month and day, with C++'s truncating division and the 16-bit year written out. */
module Civil {
  import Words

  /** Integer division of C++, by a positive divisor: it truncates toward zero. */
  function CDiv(a: int, b: int): int
    requires b > 0
  {
    if a >= 0 then a / b else -(-a / b)
  }

  /** Conversion of an int to a short. */
  function Short(y: int): (r: int)
    ensures -0x8000 <= r < 0x8000 && (y - r) % 0x1_0000 == 0
    ensures -0x8000 <= y < 0x8000 ==> r == y
  {
    (y + 0x8000) % 0x1_0000 - 0x8000
  }

  const YEAR_MIN: int := -32767
  const YEAR_MAX: int := 32767

  datatype Date = Date(y: int, m: int, d: int)

  predicate IsLeap(y: int) {
    y % 4 == 0 && (y % 100 != 0 || y % 400 == 0)
  }

  /** `year_month_day_last::day` */
  function LastDay(y: int, m: int): int
    requires 1 <= m <= 12
  {
    if m != 2 || !IsLeap(y) then [31, 28, 31, 30, 31, 30, 31, 31, 30, 31, 30, 31][m - 1] else 29
  }

  predicate Ok(t: Date) {
    YEAR_MIN <= t.y <= YEAR_MAX && 1 <= t.m <= 12 && 1 <= t.d <= LastDay(t.y, t.m)
  }

  // The intermediate values of year_month_day::to_days

  function MarchYear(y: int, m: int): int { y - (if m <= 2 then 1 else 0) }

  function Era(y: int): int { CDiv(if y >= 0 then y else y - 399, 400) }

  function MonthOffset(m: int): int { (153 * (if m > 2 then m - 3 else m + 9) + 2) / 5 }

  function DayOfEra(yoe: int, doy: int): int { yoe * 365 + yoe / 4 - yoe / 100 + doy }

  /** `year_month_day::to_days` */
  function ToDays(y: int, m: int, d: int): int {
    var y1 := MarchYear(y, m);
    var era := Era(y1);
    var yoe := y1 - era * 400;
    var doy := MonthOffset(m) + d - 1;
    era * 146097 + DayOfEra(yoe, doy) - 719468
  }

  // The intermediate values of year_month_day::from_days

  function EraOfDay(z: int): int { CDiv(if z >= 0 then z else z - 146096, 146097) }

  function YearOfEra(doe: int): int { (doe - doe / 1460 + doe / 36524 - doe / 146096) / 365 }

  function DayOfYear(doe: int): int { doe - DayOfEra(YearOfEra(doe), 0) }

  function MonthPosition(doy: int): int { (5 * doy + 2) / 153 }

  /** The last lines of from_days: the date of day `doy` of the March-based year `yoe` of an era. */
  function DateAt(era: int, yoe: int, doy: int): Date {
    var y := yoe + era * 400;
    var mp := MonthPosition(doy);
    var d := doy - (153 * mp + 2) / 5 + 1;
    var m := if mp < 10 then mp + 3 else mp - 9;
    Date(y + (if m <= 2 then 1 else 0), m, d)
  }

  /** The date of a day number before its year is converted to a short. */
  function LongFromDays(days: int): Date {
    var z := days + 719468;
    var era := EraOfDay(z);
    var doe := z - era * 146097;
    DateAt(era, YearOfEra(doe), DayOfYear(doe))
  }

  /** `year_month_day::from_days` */
  function FromDays(days: int): Date {
    var t := LongFromDays(days);
    t.(y := Short(t.y))
  }

  // ---------------------------------------------------------------------------------------------
  // The day count of the Gregorian rule

  function YearLength(y: int): int { if IsLeap(y) then 366 else 365 }

  /** Days from 1970-01-01 to the first of January of `y`, counted year by year. */
  function YearStart(y: int): int
    decreases if y >= 1970 then y - 1970 else 1970 - y
  {
    if y == 1970 then 0
    else if y > 1970 then YearStart(y - 1) + YearLength(y - 1)
    else YearStart(y + 1) - YearLength(y)
  }

  /** Days from the first of January to the first of month `m`, counted month by month. */
  function MonthStart(y: int, m: int): int
    requires 1 <= m <= 12
    decreases m
  {
    if m == 1 then 0 else MonthStart(y, m - 1) + LastDay(y, m - 1)
  }

  lemma EraIsFloor(y: int)
    ensures Era(y) == y / 400
  {
  }

  lemma EraOfDayIsFloor(z: int)
    ensures EraOfDay(z) == z / 146097
  {
  }

  /** The days before the March-based year `y`. */
  function MarchDays(y: int): int { 365 * y + y / 4 - y / 100 + y / 400 }

  lemma ToDaysClosed(y: int, m: int, d: int)
    ensures ToDays(y, m, d) == MarchDays(MarchYear(y, m)) + MonthOffset(m) + d - 1 - 719468
  {
    var y1 := MarchYear(y, m);
    var q, r := y1 / 400, y1 % 400;
    EraIsFloor(y1);
    assert y1 == 400 * q + r;
    assert y1 / 4 == 100 * q + r / 4;
    assert y1 / 100 == 4 * q + r / 100;
  }

  /** The number of the first of January of `y`. */
  function Jan1(y: int): int { MarchDays(y - 1) + 306 - 719468 }

  lemma Floor4(y: int)
    ensures y / 4 - (y - 1) / 4 == if y % 4 == 0 then 1 else 0
  {
    var q, r := y / 4, y % 4;
    if r == 0 { Words.ModUnique(3, q - 1, 4, y - 1); } else { Words.ModUnique(r - 1, q, 4, y - 1); }
  }

  lemma Floor100(y: int)
    ensures y / 100 - (y - 1) / 100 == if y % 100 == 0 then 1 else 0
    ensures y % 100 == 0 ==> y % 4 == 0
  {
    var q, r := y / 100, y % 100;
    if r == 0 { Words.ModUnique(99, q - 1, 100, y - 1); } else { Words.ModUnique(r - 1, q, 100, y - 1); }
    if r == 0 { Words.ModUnique(0, 25 * q, 4, y); }
  }

  lemma Floor400(y: int)
    ensures y / 400 - (y - 1) / 400 == if y % 400 == 0 then 1 else 0
    ensures y % 400 == 0 ==> y % 100 == 0
  {
    var q, r := y / 400, y % 400;
    if r == 0 { Words.ModUnique(399, q - 1, 400, y - 1); } else { Words.ModUnique(r - 1, q, 400, y - 1); }
    if r == 0 { Words.ModUnique(0, 4 * q, 100, y); }
  }

  lemma MarchDaysStep(y: int)
    ensures MarchDays(y) == MarchDays(y - 1) + YearLength(y)
  {
    Floor4(y);
    Floor100(y);
    Floor400(y);
  }

  lemma Jan1Step(y: int)
    ensures Jan1(y + 1) == Jan1(y) + YearLength(y)
  {
    MarchDaysStep(y);
  }

  lemma {:induction false} YearStartClosed(y: int)
    ensures YearStart(y) == Jan1(y)
    decreases if y >= 1970 then y - 1970 else 1970 - y
  {
    if y > 1970 {
      YearStartClosed(y - 1);
      Jan1Step(y - 1);
    } else if y < 1970 {
      YearStartClosed(y + 1);
      Jan1Step(y);
    }
  }

  lemma MonthOffsets(m: int)
    requires 1 <= m <= 12
    ensures MonthOffset(m) == [306, 337, 0, 31, 61, 92, 122, 153, 184, 214, 245, 275][m - 1]
  {
  }

  lemma {:induction false} MonthStartClosed(y: int, m: int)
    requires 1 <= m <= 12
    ensures MonthStart(y, m) == if m <= 2 then MonthOffset(m) - 306 else YearLength(y) + MonthOffset(m) - 306
    decreases m
  {
    MonthOffsets(m);
    if m > 1 {
      MonthStartClosed(y, m - 1);
      MonthOffsets(m - 1);
    }
  }

  lemma December(y: int)
    ensures MonthStart(y, 12) + 31 == YearLength(y)
  {
    MonthStartClosed(y, 12);
    MonthOffsets(12);
  }

  lemma ToDaysSplit(y: int, m: int, d: int)
    requires 1 <= m <= 12
    ensures ToDays(y, m, d) == Jan1(y) + MonthStart(y, m) + d - 1
  {
    ToDaysClosed(y, m, d);
    MonthStartClosed(y, m);
    MarchDaysStep(y);
  }

  /** `to_days` counts the days of the Gregorian calendar: whole years, whole months and days since
      1970-01-01, for every year. */
  lemma ToDaysCounts(y: int, m: int, d: int)
    requires 1 <= m <= 12
    ensures ToDays(y, m, d) == YearStart(y) + MonthStart(y, m) + d - 1
  {
    ToDaysSplit(y, m, d);
    YearStartClosed(y);
  }

  /** The days of a year lie between its start and the start of the next. */
  lemma {:induction false} MonthEnd(y: int, m: int)
    requires 1 <= m <= 12
    ensures 0 <= MonthStart(y, m) && MonthStart(y, m) + LastDay(y, m) <= YearLength(y)
    decreases 12 - m
  {
    if m == 12 { December(y); } else { MonthEnd(y, m + 1); }
    MonthStartClosed(y, m);
    MonthOffsets(m);
  }

  lemma WithinYear(y: int, m: int, d: int)
    requires 1 <= m <= 12 && 1 <= d <= LastDay(y, m)
    ensures Jan1(y) <= ToDays(y, m, d) < Jan1(y + 1)
  {
    ToDaysSplit(y, m, d);
    MonthEnd(y, m);
    Jan1Step(y);
  }

  lemma EndsOfYear(y: int)
    ensures ToDays(y, 1, 1) == Jan1(y) && ToDays(y, 12, 31) == Jan1(y + 1) - 1
  {
    ToDaysSplit(y, 1, 1);
    ToDaysSplit(y, 12, 31);
    December(y);
    Jan1Step(y);
  }

  // ---------------------------------------------------------------------------------------------
  // The bijection

  /** A day of a March-based year of an era, the year split into centuries, four-year cycles and
      years: a year has a 366th day when it ends a cycle, unless it ends a century but not the era. */
  ghost predicate EraSplit(yoe: int, doy: int, c: int, q: int, r: int) {
    && 0 <= c <= 3 && 0 <= q <= 24 && 0 <= r <= 3 && yoe == 100 * c + 4 * q + r
    && 0 <= doy <= 364 + (if r == 3 && (q < 24 || c == 3) then 1 else 0)
  }

  lemma EraSplitDays(yoe: int, doy: int, c: int, q: int, r: int)
    requires EraSplit(yoe, doy, c, q, r)
    ensures yoe / 4 == 25 * c + q && yoe / 100 == c
    ensures DayOfEra(yoe, doy) == 36524 * c + 1461 * q + 365 * r + doy
    ensures 0 <= DayOfEra(yoe, doy) <= 146096 && 0 <= yoe <= 399
  {
  }

  lemma Cycles(doe: int, n: int, s: int)
    requires doe == 1460 * n + s && 0 <= s < 2920
    ensures doe / 1460 == n + s / 1460 && 0 <= s / 1460 <= 1
  {
    Words.ModUnique(s % 1460, n + s / 1460, 1460, doe);
  }

  lemma Centuries(doe: int, c: int)
    requires 0 <= c <= 3 && 36524 * c <= doe < 36524 * (c + 1) + (if c == 3 then 1 else 0)
    ensures doe / 36524 - doe / 146096 == c
  {
    if doe == 146096 {
      Words.ModUnique(0, 4, 36524, doe);
    } else {
      Words.ModUnique(doe - 36524 * c, c, 36524, doe);
      Words.ModUnique(doe, 0, 146096, doe);
    }
  }

  lemma YearOfEraInverts(yoe: int, doy: int, c: int, q: int, r: int)
    requires EraSplit(yoe, doy, c, q, r)
    ensures YearOfEra(DayOfEra(yoe, doy)) == yoe
  {
    EraSplitDays(yoe, doy, c, q, r);
    var doe := DayOfEra(yoe, doy);
    var s := 24 * c + q + 365 * r + doy;
    Cycles(doe, 25 * c + q, s);
    Centuries(doe, c);
    Words.ModUnique(doy - s / 1460, yoe, 365, doe - doe / 1460 + c);
  }

  lemma SplitDayOfEra(doe: int) returns (yoe: int, doy: int, c: int, q: int, r: int)
    requires 0 <= doe <= 146096
    ensures EraSplit(yoe, doy, c, q, r) && DayOfEra(yoe, doy) == doe
    ensures YearOfEra(doe) == yoe && DayOfYear(doe) == doy
  {
    c := if doe / 36524 <= 3 then doe / 36524 else 3;
    var x := doe - 36524 * c;
    q := x / 1461;
    var w := x - 1461 * q;
    r := if w / 365 <= 3 then w / 365 else 3;
    doy := w - 365 * r;
    yoe := 100 * c + 4 * q + r;
    EraSplitDays(yoe, doy, c, q, r);
    YearOfEraInverts(yoe, doy, c, q, r);
  }

  /** A day of the March-based year falls into the month whose offset it has passed. */
  lemma MonthOfDay(doy: int)
    requires 0 <= doy <= 365
    ensures var mp := MonthPosition(doy);
            var m := if mp < 10 then mp + 3 else mp - 9;
            var d := doy - (153 * mp + 2) / 5 + 1;
            && 0 <= mp <= 11 && 1 <= d <= (if m == 2 then 29 else LastDay(1, m))
            && MonthOffset(m) + d - 1 == doy && (m == 2 && d == 29 <==> doy == 365)
  {
  }

  lemma DayOfMonthPosition(m: int, d: int)
    requires 1 <= m <= 12 && 1 <= d <= (if m == 2 then 29 else LastDay(1, m))
    ensures var doy := MonthOffset(m) + d - 1;
            var mp := MonthPosition(doy);
            && 0 <= doy <= 365 && m == (if mp < 10 then mp + 3 else mp - 9)
            && d == doy - (153 * mp + 2) / 5 + 1 && (doy == 365 <==> m == 2 && d == 29)
  {
  }

  lemma ModOfSum(e: int, k: int)
    ensures (400 * e + k) % 4 == k % 4 && (400 * e + k) % 100 == k % 100 && (400 * e + k) % 400 == k % 400
  {
    Mod4(e, k);
    Mod100(e, k);
    Mod400(e, k);
  }

  lemma Mod4(e: int, k: int)
    ensures (400 * e + k) % 4 == k % 4
  {
    Words.ModUnique(k % 4, 100 * e + k / 4, 4, 400 * e + k);
  }

  lemma Mod100(e: int, k: int)
    ensures (400 * e + k) % 100 == k % 100
  {
    Words.ModUnique(k % 100, 4 * e + k / 100, 100, 400 * e + k);
  }

  lemma Mod400(e: int, k: int)
    ensures (400 * e + k) % 400 == k % 400
  {
    Words.ModUnique(k % 400, e + k / 400, 400, 400 * e + k);
  }

  lemma LeapOfSplit(y: int, yoe: int, c: int, q: int, r: int)
    requires yoe == (y - 1) % 400 && yoe == 100 * c + 4 * q + r && 0 <= c <= 3 && 0 <= q <= 24 && 0 <= r <= 3
    ensures IsLeap(y) <==> r == 3 && (q < 24 || c == 3)
  {
    var e := (y - 1) / 400;
    ModOfSum(e, yoe + 1);
    assert y == 400 * e + (yoe + 1);
    LastOfCycle(yoe + 1, c, q, r);
  }

  lemma LastOfCycle(k: int, c: int, q: int, r: int)
    requires k == 100 * c + 4 * q + r + 1 && 0 <= c <= 3 && 0 <= q <= 24 && 0 <= r <= 3
    ensures k % 4 == 0 <==> r == 3
    ensures k % 100 == 0 <==> r == 3 && q == 24
    ensures k % 400 == 0 <==> r == 3 && q == 24 && c == 3
  {
  }

  lemma FromDaysSplit(days: int, era: int, doe: int)
    requires 0 <= doe <= 146096 && days == era * 146097 + doe - 719468
    ensures LongFromDays(days) == DateAt(era, YearOfEra(doe), DayOfYear(doe))
  {
    EraOfDayAt(era, doe);
    assert EraOfDay(days + 719468) == era;
  }

  lemma DayOfYearInverts(yoe: int, doy: int, c: int, q: int, r: int)
    requires EraSplit(yoe, doy, c, q, r)
    ensures DayOfYear(DayOfEra(yoe, doy)) == doy
  {
    YearOfEraInverts(yoe, doy, c, q, r);
  }

  /** from_days on a day given by era, year of era and day of year. */
  lemma FromDaysAt(days: int, era: int, yoe: int, doy: int, c: int, q: int, r: int)
    requires EraSplit(yoe, doy, c, q, r) && days == era * 146097 + DayOfEra(yoe, doy) - 719468
    ensures LongFromDays(days) == DateAt(era, yoe, doy)
  {
    EraSplitDays(yoe, doy, c, q, r);
    YearOfEraInverts(yoe, doy, c, q, r);
    DayOfYearInverts(yoe, doy, c, q, r);
    FromDaysSplit(days, era, DayOfEra(yoe, doy));
  }

  lemma EraOfDayAt(era: int, doe: int)
    requires 0 <= doe <= 146096
    ensures EraOfDay(era * 146097 + doe) == era
  {
    EraOfDayIsFloor(era * 146097 + doe);
  }

  lemma ToDaysAt(y: int, m: int, d: int)
    ensures var y1 := MarchYear(y, m);
            ToDays(y, m, d) == (y1 / 400) * 146097 + DayOfEra(y1 % 400, MonthOffset(m) + d - 1) - 719468
  {
    EraIsFloor(MarchYear(y, m));
  }

  /** from_days undoes to_days on every date that is ok. */
  lemma FromDaysOfToDays(t: Date)
    requires Ok(t)
    ensures FromDays(ToDays(t.y, t.m, t.d)) == t
  {
    LongFromDaysOfToDays(t.y, t.m, t.d);
  }

  lemma LongFromDaysOfToDays(y: int, m: int, d: int)
    requires 1 <= m <= 12 && 1 <= d <= LastDay(y, m)
    ensures LongFromDays(ToDays(y, m, d)) == Date(y, m, d)
  {
    var era, yoe := MarchYear(y, m) / 400, MarchYear(y, m) % 400;
    var c, q, r := SplitYear(y, m, d);
    ToDaysAt(y, m, d);
    FromDaysIs(ToDays(y, m, d), era, yoe, y, m, d, c, q, r);
  }

  lemma FromDaysIs(days: int, era: int, yoe: int, y: int, m: int, d: int, c: int, q: int, r: int)
    requires 1 <= m <= 12 && 1 <= d <= (if m == 2 then 29 else LastDay(1, m))
    requires MarchYear(y, m) == era * 400 + yoe && EraSplit(yoe, MonthOffset(m) + d - 1, c, q, r)
    requires days == era * 146097 + DayOfEra(yoe, MonthOffset(m) + d - 1) - 719468
    ensures LongFromDays(days) == Date(y, m, d)
  {
    DateAtIs(era, yoe, y, m, d);
    FromDaysOf(days, era, yoe, MonthOffset(m) + d - 1, c, q, r, Date(y, m, d));
  }

  lemma FromDaysOf(days: int, era: int, yoe: int, doy: int, c: int, q: int, r: int, t: Date)
    requires EraSplit(yoe, doy, c, q, r) && days == era * 146097 + DayOfEra(yoe, doy) - 719468
    requires DateAt(era, yoe, doy) == t
    ensures LongFromDays(days) == t
  {
    FromDaysAt(days, era, yoe, doy, c, q, r);
  }

  lemma DateAtIs(era: int, yoe: int, y: int, m: int, d: int)
    requires 1 <= m <= 12 && 1 <= d <= (if m == 2 then 29 else LastDay(1, m))
    requires MarchYear(y, m) == era * 400 + yoe
    ensures DateAt(era, yoe, MonthOffset(m) + d - 1) == Date(y, m, d)
  {
    DayOfMonthPosition(m, d);
  }

  lemma SplitYear(y: int, m: int, d: int) returns (c: int, q: int, r: int)
    requires 1 <= m <= 12 && 1 <= d <= LastDay(y, m)
    ensures EraSplit(MarchYear(y, m) % 400, MonthOffset(m) + d - 1, c, q, r)
  {
    var yoe := MarchYear(y, m) % 400;
    c, q, r := yoe / 100, (yoe % 100) / 4, yoe % 4;
    DayOfMonthPosition(m, d);
    if m == 2 { LeapOfSplit(y, yoe, c, q, r); }
  }

  /** The date of a day number, before the year becomes a short: to_days undoes from_days. */
  lemma LongDate(days: int)
    ensures var t := LongFromDays(days);
            && 1 <= t.m <= 12 && 1 <= t.d <= LastDay(t.y, t.m)
            && ToDays(t.y, t.m, t.d) == days
  {
    var era, doe := (days + 719468) / 146097, (days + 719468) % 146097;
    var yoe, doy, c, q, r := SplitDayOfEra(doe);
    FromDaysAt(days, era, yoe, doy, c, q, r);
    DateAtToDays(era, yoe, doy, c, q, r);
  }

  lemma DateAtToDays(era: int, yoe: int, doy: int, c: int, q: int, r: int)
    requires EraSplit(yoe, doy, c, q, r)
    ensures var t := DateAt(era, yoe, doy);
            && 1 <= t.m <= 12 && 1 <= t.d <= LastDay(t.y, t.m)
            && ToDays(t.y, t.m, t.d) == era * 146097 + DayOfEra(yoe, doy) - 719468
  {
    MonthOfDay(doy);
    var t := DateAt(era, yoe, doy);
    MarchYearAt(t.y, t.m, era, yoe, c, q, r);
    ToDaysAt(t.y, t.m, t.d);
  }

  lemma MarchYearAt(y: int, m: int, era: int, yoe: int, c: int, q: int, r: int)
    requires 0 <= yoe <= 399 && yoe == 100 * c + 4 * q + r && 0 <= c <= 3 && 0 <= q <= 24 && 0 <= r <= 3
    requires y == yoe + era * 400 + (if m <= 2 then 1 else 0)
    ensures MarchYear(y, m) / 400 == era && MarchYear(y, m) % 400 == yoe
    ensures m <= 2 ==> (IsLeap(y) <==> r == 3 && (q < 24 || c == 3))
  {
    Words.ModUnique(yoe, era, 400, yoe + era * 400);
    if m <= 2 { LeapOfSplit(y, yoe, c, q, r); }
  }

  /** The day numbers of the years -32767 .. 32767. */
  predicate InRange(days: int) {
    ToDays(YEAR_MIN, 1, 1) <= days <= ToDays(YEAR_MAX, 12, 31)
  }

  lemma LongYearBounds(days: int)
    ensures Jan1(LongFromDays(days).y) <= days < Jan1(LongFromDays(days).y + 1)
  {
    LongDate(days);
    var t := LongFromDays(days);
    WithinYear(t.y, t.m, t.d);
  }

  lemma {:induction false} Jan1Mono(a: int, b: int)
    requires a <= b
    ensures Jan1(b) - Jan1(a) >= 365 * (b - a)
    decreases b - a
  {
    if a < b {
      Jan1Mono(a, b - 1);
      Jan1Step(b - 1);
    }
  }

  /** A day number lies in a range of years exactly when it lies between their first and last days. */
  lemma LongYearBetween(days: int, a: int, b: int)
    ensures Jan1(a) <= days ==> a <= LongFromDays(days).y
    ensures days < Jan1(b + 1) ==> LongFromDays(days).y <= b
  {
    LongYearBounds(days);
    Jan1Order(days, LongFromDays(days).y, a);
    Jan1Order(days, LongFromDays(days).y, b + 1);
  }

  lemma Jan1Order(days: int, x: int, a: int)
    requires Jan1(x) <= days < Jan1(x + 1)
    ensures Jan1(a) <= days <==> a <= x
  {
    if x < a { Jan1Mono(x + 1, a); } else { Jan1Mono(a, x); }
  }

  lemma LongYearInRange(days: int)
    requires InRange(days)
    ensures YEAR_MIN <= LongFromDays(days).y <= YEAR_MAX
  {
    EndsOfYear(YEAR_MIN);
    EndsOfYear(YEAR_MAX);
    LongYearBetween(days, YEAR_MIN, YEAR_MAX);
  }

  /** to_days undoes from_days on every day number of the years -32767 .. 32767, and from_days yields
      an ok date there. */
  lemma ToDaysOfFromDays(days: int)
    requires InRange(days)
    ensures Ok(FromDays(days))
    ensures var t := FromDays(days); ToDays(t.y, t.m, t.d) == days
  {
    LongDate(days);
    LongYearInRange(days);
  }

  lemma OkInRange(t: Date)
    requires Ok(t)
    ensures InRange(ToDays(t.y, t.m, t.d))
  {
    WithinYear(t.y, t.m, t.d);
    EndsOfYear(YEAR_MIN);
    EndsOfYear(YEAR_MAX);
    Jan1Mono(YEAR_MIN, t.y);
    Jan1Mono(t.y + 1, YEAR_MAX + 1);
  }

  predicate FitsInt(x: int) { -0x8000_0000 <= x < 0x8000_0000 }

  /** The bounds that the source's comments give for the intermediate values hold, no signed
      operation overflows, and no unsigned one goes below zero. */
  lemma ToDaysBounds(t: Date)
    requires Ok(t)
    ensures var y1 := MarchYear(t.y, t.m);
            var era := Era(y1);
            var yoe := y1 - era * 400;
            var doy := MonthOffset(t.m) + t.d - 1;
            && 0 <= yoe <= 399 && 0 <= doy <= 365 && 0 <= DayOfEra(yoe, doy) <= 146096
            && FitsInt(y1 - 399) && FitsInt(era * 400) && FitsInt(era * 146097)
            && FitsInt(era * 146097 + DayOfEra(yoe, doy)) && FitsInt(ToDays(t.y, t.m, t.d))
  {
    var y1 := MarchYear(t.y, t.m);
    EraIsFloor(y1);
    DayOfMonthPosition(t.m, t.d);
    var c, q, r := SplitYear(t.y, t.m, t.d);
    EraSplitDays(y1 % 400, MonthOffset(t.m) + t.d - 1, c, q, r);
    assert -82 <= y1 / 400 <= 81;
  }

  lemma FromDaysBounds(days: int)
    requires InRange(days)
    ensures var z := days + 719468;
            var era := EraOfDay(z);
            && 0 <= z - era * 146097 <= 146096
            && FitsInt(z) && FitsInt(z - 146096) && FitsInt(era * 146097) && FitsInt(era * 400 + 399)
  {
    RangeNumbers();
    EraOfDayIsFloor(days + 719468);
    EraInRange(days + 719468);
  }

  lemma DayOfEraBounds(doe: int)
    requires 0 <= doe <= 146096
    ensures 0 <= doe - doe / 1460 && 0 <= YearOfEra(doe) <= 399 && 0 <= DayOfYear(doe) <= 365
    ensures var mp := MonthPosition(DayOfYear(doe));
            0 <= mp <= 11 && 1 <= DayOfYear(doe) - (153 * mp + 2) / 5 + 1 <= 31
  {
    var yoe, doy, c, q, r := SplitDayOfEra(doe);
    MonthOfDay(doy);
  }

  lemma EraInRange(z: int)
    requires -12687428 + 719468 <= z <= 11248737 + 719468
    ensures -82 <= z / 146097 <= 81
  {
  }

  lemma RangeNumbers()
    ensures ToDays(YEAR_MIN, 1, 1) == -12687428 && ToDays(YEAR_MAX, 12, 31) == 11248737
  {
  }

  // ---------------------------------------------------------------------------------------------
  // Order

  predicate Before(a: Date, b: Date) {
    a.y < b.y || (a.y == b.y && (a.m < b.m || (a.m == b.m && a.d < b.d)))
  }

  lemma {:induction false} MonthStartMono(y: int, m: int, n: int)
    requires 1 <= m < n <= 12
    ensures MonthStart(y, m) + LastDay(y, m) <= MonthStart(y, n)
    decreases n
  {
    if m < n - 1 { MonthStartMono(y, m, n - 1); }
  }

  /** to_days is strictly increasing in the order of dates. */
  lemma ToDaysIncreasing(a: Date, b: Date)
    requires Ok(a) && Ok(b)
    ensures Before(a, b) <==> ToDays(a.y, a.m, a.d) < ToDays(b.y, b.m, b.d)
  {
    if Before(a, b) { BeforeIsLess(a, b); }
    else if Before(b, a) { BeforeIsLess(b, a); }
  }

  lemma BeforeIsLess(a: Date, b: Date)
    requires Ok(a) && Ok(b) && Before(a, b)
    ensures ToDays(a.y, a.m, a.d) < ToDays(b.y, b.m, b.d)
  {
    if a.y < b.y {
      WithinYear(a.y, a.m, a.d);
      WithinYear(b.y, b.m, b.d);
      Jan1Mono(a.y + 1, b.y);
    } else {
      ToDaysSplit(a.y, a.m, a.d);
      ToDaysSplit(b.y, b.m, b.d);
      if a.m < b.m { MonthStartMono(a.y, a.m, b.m); }
    }
  }

  /** The next civil day. */
  function NextDay(t: Date): Date
    requires Ok(t)
  {
    if t.d < LastDay(t.y, t.m) then t.(d := t.d + 1)
    else if t.m < 12 then Date(t.y, t.m + 1, 1)
    else Date(t.y + 1, 1, 1)
  }

  /** The next civil day has the next number. */
  lemma NextDayIsNext(t: Date)
    requires Ok(t)
    ensures var n := NextDay(t); ToDays(n.y, n.m, n.d) == ToDays(t.y, t.m, t.d) + 1
  {
    if t.d < LastDay(t.y, t.m) {
      DaysOfMonth(t.y, t.m, t.d, t.d + 1);
    } else {
      DaysOfMonth(t.y, t.m, 1, t.d);
      MonthLength(t.y, t.m);
    }
  }

  lemma DaysOfMonth(y: int, m: int, d: int, e: int)
    ensures ToDays(y, m, e) - ToDays(y, m, d) == e - d
  {
  }

  /** Months begin `year_month_day_last::day` days apart. */
  lemma MonthLength(y: int, m: int)
    requires 1 <= m <= 12
    ensures (if m < 12 then ToDays(y, m + 1, 1) else ToDays(y + 1, 1, 1)) - ToDays(y, m, 1) == LastDay(y, m)
  {
    if m < 12 { MonthLengthWithin(y, m); } else { DecemberLength(y); }
  }

  lemma MonthLengthWithin(y: int, m: int)
    requires 1 <= m < 12
    ensures ToDays(y, m + 1, 1) - ToDays(y, m, 1) == LastDay(y, m)
  {
    ToDaysSplit(y, m, 1);
    ToDaysSplit(y, m + 1, 1);
  }

  lemma DecemberLength(y: int)
    ensures ToDays(y + 1, 1, 1) - ToDays(y, 12, 1) == 31
  {
    EndsOfYear(y);
    EndsOfYear(y + 1);
    DaysOfMonth(y, 12, 1, 31);
  }
}
