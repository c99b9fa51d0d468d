/** Proleptic Gregorian calendar (crates/elyra-core/src/datetime.rs; month arithmetic of predicate.rs). */
module Calendar {

  datatype Civil = Civil(year: int, month: int, day: int)

  /** Integer division of the source: toward zero. */
  function Trunc(a: int, b: int): int
    requires b > 0
  {
    if a >= 0 then a / b else -((-a) / b)
  }

  /** Days since 1970-01-01, counted in 400-year eras of years that begin in March. */
  function DaysFromCivil(date: Civil): int {
    var y := if date.month <= 2 then date.year - 1 else date.year;
    var era := Trunc(if y >= 0 then y else y - 399, 400);
    var yoe := y - era * 400;
    var doy := Trunc(153 * (if date.month > 2 then date.month - 3 else date.month + 9) + 2, 5) + date.day - 1;
    var doe := yoe * 365 + Trunc(yoe, 4) - Trunc(yoe, 100) + doy;
    era * 146097 + doe - 719468
  }

  function CivilFromDays(days: int): Civil {
    var z := days + 719468;
    var era := Trunc(if z >= 0 then z else z - 146096, 146097);
    CivilInEra(era, z - era * 146097)
  }

  /** The source's conversion once the era is known, and once the year is known. */
  function CivilInEra(era: int, doe: int): Civil {
    var yoe := Trunc(doe - Trunc(doe, 1460) + Trunc(doe, 36524) - Trunc(doe, 146096), 365);
    CivilInYear(yoe + era * 400, doe - (365 * yoe + Trunc(yoe, 4) - Trunc(yoe, 100)))
  }

  function CivilInYear(y: int, doy: int): Civil {
    var mp := Trunc(5 * doy + 2, 153);
    var d := doy - Trunc(153 * mp + 2, 5) + 1;
    var m := if mp < 10 then mp + 3 else mp - 9;
    Civil(if m <= 2 then y + 1 else y, m, d)
  }

  // ----------------------------------------------------------------- the calendar

  predicate Leap(y: int) {
    (y % 4 == 0 && y % 100 != 0) || y % 400 == 0
  }

  function MonthLength(y: int, m: int): int
    requires 1 <= m <= 12
  {
    if m == 2 then (if Leap(y) then 29 else 28)
    else if m == 4 || m == 6 || m == 9 || m == 11 then 30
    else 31
  }

  predicate Valid(date: Civil) {
    1 <= date.month <= 12 && 1 <= date.day <= MonthLength(date.year, date.month)
  }

  function NextDay(date: Civil): Civil
    requires Valid(date)
  {
    if date.day < MonthLength(date.year, date.month) then date.(day := date.day + 1)
    else if date.month < 12 then Civil(date.year, date.month + 1, 1)
    else Civil(date.year + 1, 1, 1)
  }

  // ------------------------------------------------------------- inside one era

  /** Days before year `yoe` of an era. */
  function YearStart(yoe: int): int {
    yoe * 365 + yoe / 4 - yoe / 100
  }

  /** Days before month `mp` of a year that begins in March. */
  function MonthStart(mp: int): int {
    (153 * mp + 2) / 5
  }

  /** Length of March-based year `yoe`: it ends with the February of calendar year `yoe + 1`. */
  function YearLength(yoe: int): int {
    if Leap(yoe + 1) then 366 else 365
  }

  /** The source's way of dividing toward minus infinity. */
  lemma {:induction false} FloorDiv(a: int)
    ensures Trunc(if a >= 0 then a else a - 399, 400) == a / 400
    ensures Trunc(if a >= 0 then a else a - 146096, 146097) == a / 146097
  {
  }

  lemma {:induction false} YearStep(yoe: int)
    requires 0 <= yoe < 400
    ensures yoe < 399 ==> YearStart(yoe + 1) == YearStart(yoe) + YearLength(yoe)
    ensures yoe == 399 ==> YearStart(yoe) + YearLength(yoe) == 146097
  {
    var n := yoe + 1;
    assert n / 4 == yoe / 4 + (if n % 4 == 0 then 1 else 0);
    assert n / 100 == yoe / 100 + (if n % 100 == 0 then 1 else 0);
    assert n % 400 == 0 <==> n == 400;
    assert n % 100 == 0 ==> n % 4 == 0;
  }

  lemma {:induction false} YearsAscend(a: int, b: int)
    requires 0 <= a < b < 400
    ensures YearStart(a) + YearLength(a) <= YearStart(b)
    decreases b - a
  {
    YearStep(a);
    if a + 1 < b {
      YearsAscend(a + 1, b);
    }
  }

  /** A day of an era: century, four-year cycle, year of the cycle, day of the year. */
  ghost predicate Parts(c: int, q: int, t: int, u: int) {
    && 0 <= c <= 3 && 0 <= q <= 24 && 0 <= t <= 3 && 0 <= u <= 365
    && (u == 365 ==> t == 3 && (q < 24 || c == 3))
  }

  ghost function DayOf(c: int, q: int, t: int, u: int): int {
    36524 * c + 1461 * q + 365 * t + u
  }

  lemma {:induction false} SplitDay(doe: int) returns (c: int, q: int, t: int, u: int)
    requires 0 <= doe < 146097
    ensures Parts(c, q, t, u) && doe == DayOf(c, q, t, u)
  {
    c := if doe < 146096 then doe / 36524 else 3;
    var r := doe - 36524 * c;
    assert 0 <= r <= 36524 && (r == 36524 ==> c == 3);
    q := r / 1461;
    var s := r - 1461 * q;
    assert 0 <= s < 1461 && 0 <= q <= 24;
    t := if s < 1460 then s / 365 else 3;
    u := s - 365 * t;
  }

  lemma {:induction false} PartsYear(c: int, q: int, t: int, u: int)
    requires Parts(c, q, t, u)
    ensures YearStart(100 * c + 4 * q + t) == DayOf(c, q, t, u) - u
    ensures u < YearLength(100 * c + 4 * q + t)
  {
    var yoe := 100 * c + 4 * q + t;
    assert yoe / 4 == 25 * c + q;
    assert yoe / 100 == c;
    if u == 365 {
      assert yoe + 1 == 100 * c + 4 * (q + 1);
      assert (yoe + 1) % 4 == 0;
      if q < 24 {
        assert (yoe + 1) % 100 == 4 * (q + 1);
      } else {
        assert yoe + 1 == 400;
      }
    }
  }

  function YearNumerator(doe: int): int {
    doe - doe / 1460 + doe / 36524 - doe / 146096
  }

  function YearFormula(doe: int): int {
    YearNumerator(doe) / 365
  }

  /** The quotients of the year-of-era formula, term by term. */
  lemma {:induction false} PartsFormula(c: int, q: int, t: int, u: int)
    requires Parts(c, q, t, u)
    ensures YearFormula(DayOf(c, q, t, u)) == 100 * c + 4 * q + t
  {
    var doe := DayOf(c, q, t, u);
    var w := 1461 * q + 365 * t + u;
    assert 0 <= w <= 36524 && (w == 36524 ==> doe == 146096);
    assert doe / 36524 - doe / 146096 == c;
    var low := 24 * c + q + 365 * t + u;
    var e := if low >= 1460 then 1 else 0;
    assert doe == 1460 * (25 * c + q) + low;
    assert doe / 1460 == 25 * c + q + e;
    assert doe - doe / 1460 + c == 365 * (100 * c + 4 * q + t) + (u - e);
    assert 0 <= u - e < 365;
  }

  /** The year-of-era formula finds the year a day belongs to. */
  lemma {:induction false} YearOfDay(doe: int)
    requires 0 <= doe < 146097
    ensures
      var yoe := YearFormula(doe);
      0 <= yoe < 400 && YearStart(yoe) <= doe < YearStart(yoe) + YearLength(yoe)
  {
    var c, q, t, u := SplitDay(doe);
    PartsFormula(c, q, t, u);
    PartsYear(c, q, t, u);
    assert YearFormula(doe) == 100 * c + 4 * q + t;
  }

  /** The month formula finds the month a day of the year belongs to. */
  lemma {:induction false} MonthOfDay(doy: int)
    requires 0 <= doy <= 365
    ensures
      var mp := (5 * doy + 2) / 153;
      0 <= mp <= 11 && MonthStart(mp) <= doy < MonthStart(mp + 1) && (mp < 11 ==> MonthStart(mp + 1) <= 337)
  {
  }

  // ---------------------------------------------------------------- both directions

  /** A March-based date: era, year of the era, month, day of the month from 0. */
  datatype March = March(era: int, yoe: int, mp: int, dom: int)

  ghost predicate ValidMarch(x: March) {
    && 0 <= x.yoe < 400 && 0 <= x.mp <= 11 && 0 <= x.dom && x.dom < MonthStart(x.mp + 1) - MonthStart(x.mp)
    && MonthStart(x.mp) + x.dom < YearLength(x.yoe)
  }

  ghost function DaysOf(x: March): int {
    x.era * 146097 + YearStart(x.yoe) + MonthStart(x.mp) + x.dom - 719468
  }

  ghost function ToMarch(date: Civil): March {
    var y := if date.month <= 2 then date.year - 1 else date.year;
    March(y / 400, y % 400, if date.month > 2 then date.month - 3 else date.month + 9, date.day - 1)
  }

  ghost function FromMarch(x: March): Civil {
    var m := if x.mp < 10 then x.mp + 3 else x.mp - 9;
    Civil(x.yoe + x.era * 400 + (if m <= 2 then 1 else 0), m, x.dom + 1)
  }

  lemma {:induction false} MonthTable()
    ensures MonthStart(0) == 0 && MonthStart(1) == 31 && MonthStart(2) == 61 && MonthStart(3) == 92
    ensures MonthStart(4) == 122 && MonthStart(5) == 153 && MonthStart(6) == 184 && MonthStart(7) == 214
    ensures MonthStart(8) == 245 && MonthStart(9) == 275 && MonthStart(10) == 306 && MonthStart(11) == 337
    ensures MonthStart(12) == 367
  {
  }

  lemma {:induction false} Shift4(q: int, n: int)
    ensures (400 * q + n) % 4 == n % 4
  {
    var x, r := 400 * q + n, n % 4;
    assert x - r == 4 * (100 * q + n / 4);
  }

  lemma {:induction false} Shift100(q: int, n: int)
    ensures (400 * q + n) % 100 == n % 100
  {
    var x, r := 400 * q + n, n % 100;
    assert x - r == 100 * (4 * q + n / 100);
  }

  lemma {:induction false} Shift400(q: int, n: int)
    ensures (400 * q + n) % 400 == n % 400
  {
    var x, r := 400 * q + n, n % 400;
    assert x - r == 400 * (q + n / 400);
  }

  lemma {:induction false} LeapShift(y: int)
    ensures Leap(y + 1) == Leap(y % 400 + 1)
  {
    var q, r := y / 400, y % 400;
    Shift4(q, r + 1);
    Shift100(q, r + 1);
    Shift400(q, r + 1);
    assert y + 1 == 400 * q + (r + 1);
  }

  /** Calendar dates and March-based dates are the same dates. */
  lemma {:induction false} MarchIsCivil(date: Civil)
    requires 1 <= date.month <= 12
    ensures Valid(date) <==> ValidMarch(ToMarch(date))
    ensures FromMarch(ToMarch(date)) == date
  {
    MonthTable();
    var y := if date.month <= 2 then date.year - 1 else date.year;
    assert y == 400 * (y / 400) + y % 400;
    LeapShift(y);
  }

  lemma {:induction false} CivilIsMarch(x: March)
    requires ValidMarch(x)
    ensures ToMarch(FromMarch(x)) == x && Valid(FromMarch(x))
  {
    var date := FromMarch(x);
    var y := x.yoe + x.era * 400;
    assert y / 400 == x.era && y % 400 == x.yoe;
    MarchIsCivil(date);
  }

  lemma {:induction false} DaysAreMarch(date: Civil)
    requires 1 <= date.month <= 12
    ensures DaysFromCivil(date) == DaysOf(ToMarch(date))
  {
    FloorDiv(if date.month <= 2 then date.year - 1 else date.year);
  }

  /** The March-based date of a day number. */
  ghost function MarchOf(days: int): March {
    MarchInEra((days + 719468) / 146097, (days + 719468) % 146097)
  }

  ghost function MarchInEra(era: int, doe: int): March {
    var yoe := YearFormula(doe);
    MarchInYear(era, yoe, doe - YearStart(yoe))
  }

  ghost function MarchInYear(era: int, yoe: int, doy: int): March {
    var mp := (5 * doy + 2) / 153;
    March(era, yoe, mp, doy - MonthStart(mp))
  }

  lemma {:induction false} TruncPositive(a: int, b: int)
    requires a >= 0 && b > 0
    ensures Trunc(a, b) == a / b
  {
  }

  lemma {:induction false} YearByTrunc(doe: int)
    requires 0 <= doe
    ensures Trunc(doe - Trunc(doe, 1460) + Trunc(doe, 36524) - Trunc(doe, 146096), 365) ==
            Trunc(YearNumerator(doe), 365)
  {
    TruncPositive(doe, 1460);
    TruncPositive(doe, 36524);
    TruncPositive(doe, 146096);
  }

  lemma {:induction false} CivilByEra(era: int, doe: int, yoe: int)
    requires 0 <= doe && 0 <= yoe && yoe == YearFormula(doe)
    ensures CivilInEra(era, doe) == CivilInYear(yoe + era * 400, doe - YearStart(yoe))
  {
    YearByTrunc(doe);
    TruncPositive(YearNumerator(doe), 365);
    TruncPositive(yoe, 4);
    TruncPositive(yoe, 100);
  }

  lemma {:induction false} CivilByYear(era: int, yoe: int, doy: int)
    requires 0 <= doy <= 365
    ensures CivilInYear(yoe + era * 400, doy) == FromMarch(MarchInYear(era, yoe, doy))
  {
    var mp := (5 * doy + 2) / 153;
    TruncPositive(5 * doy + 2, 153);
    TruncPositive(153 * mp + 2, 5);
  }

  lemma {:induction false} MarchOfDays(days: int)
    ensures ValidMarch(MarchOf(days)) && DaysOf(MarchOf(days)) == days
  {
    var z := days + 719468;
    var doe := z % 146097;
    var yoe := YearFormula(doe);
    YearOfDay(doe);
    var doy := doe - YearStart(yoe);
    MonthOfDay(doy);
    var x := MarchOf(days);
    assert x == March(z / 146097, yoe, x.mp, doy - MonthStart(x.mp));
    assert x.era * 146097 + doe == z;
  }

  lemma {:induction false} EraOfDays(days: int, era: int, doe: int)
    requires era == (days + 719468) / 146097 && doe == (days + 719468) % 146097
    ensures CivilFromDays(days) == CivilInEra(era, doe)
  {
    FloorDiv(days + 719468);
  }

  lemma {:induction false} CivilMarchInEra(era: int, doe: int)
    requires 0 <= doe < 146097
    ensures CivilInEra(era, doe) == FromMarch(MarchInEra(era, doe))
  {
    var yoe := YearFormula(doe);
    YearOfDay(doe);
    CivilByEra(era, doe, yoe);
    CivilByYear(era, yoe, doe - YearStart(yoe));
  }

  lemma {:induction false} CivilOfMarch(days: int)
    ensures CivilFromDays(days) == FromMarch(MarchOf(days))
  {
    EraOfDays(days, (days + 719468) / 146097, (days + 719468) % 146097);
    CivilMarchInEra((days + 719468) / 146097, (days + 719468) % 146097);
  }

  /** Every day number is a valid date, and counting that date's days gives the number back. */
  lemma {:induction false} DaysOfCivil(days: int)
    ensures Valid(CivilFromDays(days))
    ensures DaysFromCivil(CivilFromDays(days)) == days
  {
    MarchOfDays(days);
    CivilOfMarch(days);
    CivilIsMarch(MarchOf(days));
    DaysAreMarch(CivilFromDays(days));
  }

  /** Different March-based dates have different day numbers. */
  lemma {:induction false} MarchInjective(a: March, b: March)
    requires ValidMarch(a) && ValidMarch(b) && DaysOf(a) == DaysOf(b)
    ensures a == b
  {
    var x, y := YearStart(a.yoe) + MonthStart(a.mp) + a.dom, YearStart(b.yoe) + MonthStart(b.mp) + b.dom;
    InEra(a);
    InEra(b);
    assert a.era == b.era;
    if a.yoe < b.yoe { YearsAscend(a.yoe, b.yoe); }
    if b.yoe < a.yoe { YearsAscend(b.yoe, a.yoe); }
    MonthTable();
  }

  lemma {:induction false} InEra(x: March)
    requires ValidMarch(x)
    ensures 0 <= YearStart(x.yoe) + MonthStart(x.mp) + x.dom < 146097
  {
    YearStep(x.yoe);
    if x.yoe < 399 { YearsAscend(x.yoe, 399); YearStep(399); }
  }

  /** Every valid date is recovered from its day number. */
  lemma {:induction false} CivilOfDays(date: Civil)
    requires Valid(date)
    ensures CivilFromDays(DaysFromCivil(date)) == date
  {
    var days := DaysFromCivil(date);
    DaysAreMarch(date);
    MarchIsCivil(date);
    MarchOfDays(days);
    CivilOfMarch(days);
    MarchInjective(ToMarch(date), MarchOf(days));
  }

  /** The next March-based date. */
  ghost function NextMarch(x: March): March {
    if MonthStart(x.mp) + x.dom + 1 == YearLength(x.yoe) then
      (if x.yoe == 399 then March(x.era + 1, 0, 0, 0) else March(x.era, x.yoe + 1, 0, 0))
    else if x.dom + 1 == MonthStart(x.mp + 1) - MonthStart(x.mp) then March(x.era, x.yoe, x.mp + 1, 0)
    else x.(dom := x.dom + 1)
  }

  lemma {:induction false} NextMarchCounts(x: March)
    requires ValidMarch(x)
    ensures ValidMarch(NextMarch(x)) && DaysOf(NextMarch(x)) == DaysOf(x) + 1
  {
    MonthTable();
    YearStep(x.yoe);
  }

  lemma {:induction false} NextDayIsNextMarch(date: Civil)
    requires Valid(date)
    ensures ToMarch(NextDay(date)) == NextMarch(ToMarch(date))
  {
    MonthTable();
    var y := if date.month <= 2 then date.year - 1 else date.year;
    LeapShift(y);
    NextYear(y);
  }

  /** The day after, on the calendar, is the next day number. */
  lemma {:induction false} NextDayCounts(date: Civil)
    requires Valid(date)
    ensures Valid(NextDay(date)) && DaysFromCivil(NextDay(date)) == DaysFromCivil(date) + 1
  {
    DaysAreMarch(date);
    DaysAreMarch(NextDay(date));
    MarchIsCivil(date);
    MarchIsCivil(NextDay(date));
    NextMarchCounts(ToMarch(date));
    NextDayIsNextMarch(date);
  }

  lemma {:induction false} NextYear(y: int)
    ensures y % 400 < 399 ==> (y + 1) / 400 == y / 400 && (y + 1) % 400 == y % 400 + 1
    ensures y % 400 == 399 ==> (y + 1) / 400 == y / 400 + 1 && (y + 1) % 400 == 0
  {
  }

  lemma {:induction false} Epoch()
    ensures CivilFromDays(0) == Civil(1970, 1, 1)
  {
    assert DaysFromCivil(Civil(1970, 1, 1)) == 0;
    CivilOfDays(Civil(1970, 1, 1));
  }

  /** Consecutive day numbers are consecutive dates, and day 0 is 1970-01-01: the conversion is the calendar. */
  lemma {:induction false} DaysAreConsecutive(days: int)
    ensures CivilFromDays(0) == Civil(1970, 1, 1)
    ensures Valid(CivilFromDays(days)) && CivilFromDays(days + 1) == NextDay(CivilFromDays(days))
  {
    Epoch();
    DaysOfCivil(days);
    DayAfter(days, CivilFromDays(days));
  }

  lemma {:induction false} DayAfter(days: int, date: Civil)
    requires Valid(date) && DaysFromCivil(date) == days
    ensures CivilFromDays(days + 1) == NextDay(date)
  {
    var next := NextDay(date);
    NextDayCounts(date);
    var n := DaysFromCivil(next);
    CivilOfDays(next);
    assert n == days + 1;
  }

  // ------------------------------------------------------------- month arithmetic

  const DAY_MICROS := 86_400_000_000

  function MonthAfter(y: int, m: int): (int, int) {
    if m == 12 then (y + 1, 1) else (y, m + 1)
  }

  /** The length of a month, as a difference of day numbers. */
  function DaysInMonth(y: int, m: int): int {
    var (ny, nm) := MonthAfter(y, m);
    DaysFromCivil(Civil(ny, nm, 1)) - DaysFromCivil(Civil(y, m, 1))
  }

  /** The date reached, its day clamped to the length of the month. */
  function MonthsLater(date: Civil, months: int): Civil {
    var total := date.year * 12 + (date.month - 1) + months;
    Clamped(total / 12, total % 12 + 1, date.day)
  }

  function Clamped(y: int, m: int, d: int): Civil {
    Civil(y, m, if d <= DaysInMonth(y, m) then d else DaysInMonth(y, m))
  }

  function AddMonths(micros: int, months: int): int {
    DaysFromCivil(MonthsLater(CivilFromDays(micros / DAY_MICROS), months)) * DAY_MICROS + micros % DAY_MICROS
  }

  lemma {:induction false} DayOfMonth(y: int, m: int, d: int)
    requires 1 <= m <= 12
    ensures DaysFromCivil(Civil(y, m, d)) == DaysFromCivil(Civil(y, m, 1)) + d - 1
  {
  }

  /** The difference of day numbers is the month's length on the calendar. */
  lemma {:induction false} DaysInMonthIsLength(y: int, m: int)
    requires 1 <= m <= 12
    ensures DaysInMonth(y, m) == MonthLength(y, m)
  {
    var last := Civil(y, m, MonthLength(y, m));
    DayOfMonth(y, m, last.day);
    NextDayCounts(last);
    var (ny, nm) := MonthAfter(y, m);
    assert NextDay(last) == Civil(ny, nm, 1);
  }

  /** Months counted from year 0. */
  ghost function MonthIndex(date: Civil): int {
    date.year * 12 + date.month - 1
  }

  /** The day a moment falls in: days have 24 hours, and the first starts at moment 0. */
  ghost function DateOf(micros: int): Civil {
    CivilFromDays(micros / (24 * 60 * 60 * 1_000_000))
  }

  ghost predicate Lands(date: Civil, target: Civil, months: int) {
    && Valid(date) && Valid(target)
    && MonthIndex(target) == MonthIndex(date) + months
    && target.day == (if date.day <= MonthLength(target.year, target.month) then date.day
                      else MonthLength(target.year, target.month))
  }

  lemma {:induction false} ClampedDay(y: int, m: int, d: int)
    requires 1 <= m <= 12 && 1 <= d
    ensures Clamped(y, m, d) == Civil(y, m, if d <= MonthLength(y, m) then d else MonthLength(y, m))
    ensures Valid(Clamped(y, m, d))
  {
    DaysInMonthIsLength(y, m);
  }

  lemma {:induction false} ClampedLands(date: Civil, y: int, m: int, months: int)
    requires Valid(date) && 1 <= m <= 12 && y * 12 + m - 1 == MonthIndex(date) + months
    ensures Lands(date, Clamped(y, m, date.day), months)
  {
    ClampedDay(y, m, date.day);
  }

  lemma {:induction false} MonthsLaterLands(date: Civil, months: int)
    requires Valid(date)
    ensures Lands(date, MonthsLater(date, months), months)
  {
    var total := date.year * 12 + (date.month - 1) + months;
    var y, m := total / 12, total % 12 + 1;
    ClampedLands(date, y, m, months);
    assert MonthsLater(date, months) == Clamped(y, m, date.day);
  }

  lemma {:induction false} WholeDays(days: int, rest: int)
    requires 0 <= rest < DAY_MICROS
    ensures (days * DAY_MICROS + rest) / DAY_MICROS == days && (days * DAY_MICROS + rest) % DAY_MICROS == rest
  {
  }

  /** Adding months keeps the time of day, lands in exactly the month counted to, and keeps the day
      unless the month is too short, when it is the month's last day. */
  lemma {:induction false} AddMonthsLands(micros: int, months: int)
    ensures AddMonths(micros, months) % (24 * 60 * 60 * 1_000_000) == micros % (24 * 60 * 60 * 1_000_000)
    ensures Lands(DateOf(micros), DateOf(AddMonths(micros, months)), months)
  {
    var date := CivilFromDays(micros / DAY_MICROS);
    DaysOfCivil(micros / DAY_MICROS);
    MonthsLaterLands(date, months);
    Reached(micros, MonthsLater(date, months), AddMonths(micros, months));
  }

  lemma {:induction false} Reached(micros: int, target: Civil, sum: int)
    requires Valid(target) && sum == DaysFromCivil(target) * DAY_MICROS + micros % DAY_MICROS
    ensures sum % DAY_MICROS == micros % DAY_MICROS && DateOf(sum) == target
  {
    CivilOfDays(target);
    WholeDays(DaysFromCivil(target), micros % DAY_MICROS);
  }

  /** The day number of a date in years 0 to 9999 is small. */
  lemma {:induction false} DaysBounded(date: Civil)
    requires Valid(date) && 0 <= date.year <= 9999
    ensures -1_000_000 < DaysFromCivil(date) < 3_000_000
  {
    MarchIsCivil(date);
    DaysAreMarch(date);
    InEra(ToMarch(date));
    assert -1 <= ToMarch(date).era <= 24;
  }
}
