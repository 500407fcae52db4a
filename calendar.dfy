/** The proleptic Gregorian calendar behind JavaScript's `Date`, read in local
    wall-clock time. An instant is a whole number of milliseconds since
    1970-01-01T00:00:00.000 local time; adding H hours always adds exactly
    H * 3600000 ms (no daylight-saving adjustment). `LocalFields` plays the role
    of `getFullYear`/`getMonth`/`getDate`/`getHours`/`getMinutes`/`getSeconds`,
    and `MakeLocal` that of the constructor `new Date(y, m, d, h, min)`. */
module Calendar {

  const MS_PER_SECOND: int := 1000
  const MS_PER_MINUTE: int := 60000
  const MS_PER_HOUR: int := 3600000
  const MS_PER_DAY: int := 86400000

  /** Days from 0000-01-01 to 1970-01-01. */
  const EPOCH_DAYS: int := 719528

  /** Days in one 400-year Gregorian cycle. */
  const ERA_DAYS: int := 146097

  predicate IsLeap(y: int) {
    y % 4 == 0 && (y % 100 != 0 || y % 400 == 0)
  }

  function DaysInYear(y: int): int {
    if IsLeap(y) then 366 else 365
  }

  function DaysInMonth(y: int, m: int): (n: int)
    requires 1 <= m <= 12
    ensures 28 <= n <= 31
  {
    if m == 2 then (if IsLeap(y) then 29 else 28)
    else if m == 4 || m == 6 || m == 9 || m == 11 then 30
    else 31
  }

  /** Days of year `y` before the first of month `m`; month 13 is the whole year. */
  function DaysBeforeMonth(y: int, m: int): int
    requires 1 <= m <= 13
  {
    var common := [0, 31, 59, 90, 120, 151, 181, 212, 243, 273, 304, 334, 365][m - 1];
    if m > 2 && IsLeap(y) then common + 1 else common
  }

  lemma MonthStep(y: int, m: int)
    requires 1 <= m <= 12
    ensures DaysBeforeMonth(y, m + 1) == DaysBeforeMonth(y, m) + DaysInMonth(y, m)
    ensures DaysBeforeMonth(y, 1) == 0 && DaysBeforeMonth(y, 13) == DaysInYear(y)
  {
  }

  /** Days from 0000-01-01 to the first of January of year `y` (negative before year 0). */
  function DaysBeforeYear(y: int): int {
    365 * y + (y + 3) / 4 - (y + 99) / 100 + (y + 399) / 400
  }

  lemma YearStep(y: int)
    ensures DaysBeforeYear(y + 1) == DaysBeforeYear(y) + DaysInYear(y)
  {
    CeilingStep(y, 4);
    CeilingStep(y, 100);
    CeilingStep(y, 400);
    if y % 400 == 0 {
      DivUnique(y, 100, 4 * (y / 400), 0);
    }
    if y % 100 == 0 {
      DivUnique(y, 4, 25 * (y / 100), 0);
    }
  }

  /** Moving `y` up by one moves (y + c - 1) / c up exactly when c divides y. */
  lemma CeilingStep(y: int, c: int)
    requires c > 0
    ensures (y + c) / c - (y + c - 1) / c == if y % c == 0 then 1 else 0
  {
    var q, r := y / c, y % c;
    DivUnique(y + c, c, q + 1, r);
    if r == 0 {
      DivUnique(y + c - 1, c, q, c - 1);
    } else {
      DivUnique(y + c - 1, c, q + 1, r - 1);
    }
  }

  /** Euclidean division is determined by quotient and remainder. */
  lemma DivUnique(a: int, c: int, q: int, r: int)
    requires c > 0 && a == q * c + r && 0 <= r < c
    ensures a / c == q && a % c == r
  {
    var q', r' := a / c, a % c;
    if q' < q {
      assert q' * c + r' == q * c + r;
      assert (q - q') * c == r' - r;
      assert q - q' >= 1;
      MulAtLeast(q - q', c);
    } else if q' > q {
      assert (q' - q) * c == r - r';
      MulAtLeast(q' - q, c);
    }
  }

  lemma MulAtLeast(k: int, c: int)
    requires k >= 1 && c > 0
    ensures k * c >= c
  {
    assert k * c == c + (k - 1) * c;
  }

  /** The calendar repeats every 400 years. */
  lemma EraShift(e: int, k: int)
    ensures DaysBeforeYear(400 * e + k) == ERA_DAYS * e + DaysBeforeYear(k)
  {
    assert (400 * e + k + 3) / 4 == 100 * e + (k + 3) / 4;
    assert (400 * e + k + 99) / 100 == 4 * e + (k + 99) / 100;
    assert (400 * e + k + 399) / 400 == e + (k + 399) / 400;
  }

  lemma {:induction false} YearMonotone(a: int, b: int)
    requires a <= b
    ensures DaysBeforeYear(a) <= DaysBeforeYear(b)
    decreases b - a
  {
    if a < b {
      YearMonotone(a, b - 1);
      YearStep(b - 1);
    }
  }

  /** Days since 1970-01-01 of a calendar date: ECMAScript's MakeDay for a month in range. */
  function DayNumber(y: int, m: int, d: int): int
    requires 1 <= m <= 12
  {
    DaysBeforeYear(y) - EPOCH_DAYS + DaysBeforeMonth(y, m) + d - 1
  }

  /** The year `y` (0..399) of a 400-year cycle holding the cycle's day `r`. */
  function YearInEra(r: int, k: int): (y: int)
    requires 0 <= k <= 399 && DaysBeforeYear(k) <= r < ERA_DAYS
    ensures k <= y <= 399 && DaysBeforeYear(y) <= r < DaysBeforeYear(y + 1)
    decreases 399 - k
  {
    if k == 399 || r < DaysBeforeYear(k + 1) then k else YearInEra(r, k + 1)
  }

  /** The year containing day `n` (days since 1970-01-01). */
  function YearOfDay(n: int): (y: int)
    ensures DaysBeforeYear(y) <= n + EPOCH_DAYS < DaysBeforeYear(y + 1)
  {
    var z := n + EPOCH_DAYS;
    EraYear(z, YearInEra(z % ERA_DAYS, 0))
  }

  /** The year holding day `z` (days since 0000-01-01) when `k` is its year
      within the 400-year cycle. */
  function EraYear(z: int, k: int): (y: int)
    requires DaysBeforeYear(k) <= z % ERA_DAYS < DaysBeforeYear(k + 1)
    ensures DaysBeforeYear(y) <= z < DaysBeforeYear(y + 1)
  {
    var era := z / ERA_DAYS;
    EraShift(era, k);
    EraShift(era, k + 1);
    assert 400 * era + k + 1 == 400 * era + (k + 1);
    400 * era + k
  }

  /** The month holding day `doy` (0-based) of year `y`, searching down from month `m`. */
  function MonthSearch(y: int, doy: int, m: int): (month: int)
    requires 1 <= m <= 12 && 0 <= doy < DaysBeforeMonth(y, m + 1)
    ensures 1 <= month <= m && DaysBeforeMonth(y, month) <= doy < DaysBeforeMonth(y, month + 1)
    decreases m
  {
    if DaysBeforeMonth(y, m) <= doy then m else MonthSearch(y, doy, m - 1)
  }

  datatype Date = Date(year: int, month: int, day: int)

  predicate ValidDate(d: Date) {
    1 <= d.month <= 12 && 1 <= d.day <= DaysInMonth(d.year, d.month)
  }

  function DayOf(d: Date): int
    requires 1 <= d.month <= 12
  {
    DayNumber(d.year, d.month, d.day)
  }

  /** The calendar date of day `n` (days since 1970-01-01); it is the one valid date whose day number is `n`. */
  function CivilFromDays(n: int): (d: Date)
    ensures ValidDate(d) && DayOf(d) == n
  {
    var y := YearOfDay(n);
    var doy := n + EPOCH_DAYS - DaysBeforeYear(y);
    YearStep(y);
    MonthStep(y, 12);
    var m := MonthSearch(y, doy, 12);
    MonthStep(y, m);
    Date(y, m, doy - DaysBeforeMonth(y, m) + 1)
  }

  lemma DateWithinYear(d: Date)
    requires ValidDate(d)
    ensures DaysBeforeYear(d.year) <= DayOf(d) + EPOCH_DAYS < DaysBeforeYear(d.year + 1)
  {
    MonthStep(d.year, d.month);
    MonthStep(d.year, 12);
    YearStep(d.year);
    assert DaysBeforeMonth(d.year, d.month + 1) <= DaysBeforeMonth(d.year, 13);
  }

  /** Distinct valid dates have distinct day numbers. */
  lemma DayNumberInjective(a: Date, b: Date)
    requires ValidDate(a) && ValidDate(b) && DayOf(a) == DayOf(b)
    ensures a == b
  {
    DateWithinYear(a);
    DateWithinYear(b);
    if a.year < b.year {
      YearMonotone(a.year + 1, b.year);
    } else if b.year < a.year {
      YearMonotone(b.year + 1, a.year);
    }
    assert a.year == b.year;
    MonthStep(a.year, a.month);
    MonthStep(b.year, b.month);
    assert a.month == b.month;
  }

  /** Reading a valid date's day number back gives the date. */
  lemma CivilRoundTrip(d: Date)
    requires ValidDate(d)
    ensures CivilFromDays(DayOf(d)) == d
  {
    DayNumberInjective(CivilFromDays(DayOf(d)), d);
  }

  /** The local calendar and clock fields of an instant. */
  datatype DateTime = DateTime(date: Date, hour: int, minute: int, second: int, millisecond: int)

  predicate ValidDateTime(f: DateTime) {
    ValidDate(f.date) && 0 <= f.hour < 24 && 0 <= f.minute < 60
    && 0 <= f.second < 60 && 0 <= f.millisecond < 1000
  }

  /** The instant a set of fields denotes. */
  function InstantOf(f: DateTime): int
    requires 1 <= f.date.month <= 12
  {
    DayOf(f.date) * MS_PER_DAY + f.hour * MS_PER_HOUR + f.minute * MS_PER_MINUTE
    + f.second * MS_PER_SECOND + f.millisecond
  }

  /** `getHours()`: the hour of the day, 0..23. */
  function HourOf(t: int): int {
    t % MS_PER_DAY / MS_PER_HOUR
  }

  /** `getMinutes()`: the minute of the hour, 0..59. */
  function MinuteOf(t: int): int {
    t % MS_PER_HOUR / MS_PER_MINUTE
  }

  /** `getSeconds()`: the second of the minute, 0..59. */
  function SecondOf(t: int): int {
    t % MS_PER_MINUTE / MS_PER_SECOND
  }

  /** `getMilliseconds()`: 0..999. */
  function MillisecondOf(t: int): int {
    t % MS_PER_SECOND
  }

  /** An instant is its day, hour, minute, second and millisecond, each in range. */
  lemma TimeOfDay(t: int)
    ensures 0 <= HourOf(t) < 24 && 0 <= MinuteOf(t) < 60 && 0 <= SecondOf(t) < 60
    ensures 0 <= MillisecondOf(t) < 1000
    ensures t == t / MS_PER_DAY * MS_PER_DAY + HourOf(t) * MS_PER_HOUR + MinuteOf(t) * MS_PER_MINUTE
      + SecondOf(t) * MS_PER_SECOND + MillisecondOf(t)
  {
    var ms := t % MS_PER_DAY;
    var inHour := ms % MS_PER_HOUR;
    var inMinute := inHour % MS_PER_MINUTE;
    assert t == (t / MS_PER_DAY) * MS_PER_DAY + ms;
    assert ms == (ms / MS_PER_HOUR) * MS_PER_HOUR + inHour;
    assert inHour == (inHour / MS_PER_MINUTE) * MS_PER_MINUTE + inMinute;
    assert inMinute == (inMinute / MS_PER_SECOND) * MS_PER_SECOND + inMinute % MS_PER_SECOND;
    DivUnique(t, MS_PER_HOUR, t / MS_PER_DAY * 24 + ms / MS_PER_HOUR, inHour);
    DivUnique(t, MS_PER_MINUTE, (t / MS_PER_DAY * 24 + ms / MS_PER_HOUR) * 60 + inHour / MS_PER_MINUTE, inMinute);
    DivUnique(t, MS_PER_SECOND, ((t / MS_PER_DAY * 24 + ms / MS_PER_HOUR) * 60 + inHour / MS_PER_MINUTE) * 60
      + inMinute / MS_PER_SECOND, inMinute % MS_PER_SECOND);
  }

  /** `getFullYear()`, `getMonth() + 1`, `getDate()`, `getHours()`,
      `getMinutes()`, `getSeconds()`, `getMilliseconds()` of an instant: the
      valid fields that denote it. */
  function LocalFields(t: int): (f: DateTime)
    ensures ValidDateTime(f)
  {
    TimeOfDay(t);
    DateTime(CivilFromDays(t / MS_PER_DAY), HourOf(t), MinuteOf(t), SecondOf(t), MillisecondOf(t))
  }

  /** The fields of an instant denote that instant. */
  lemma LocalFieldsInstant(t: int)
    ensures InstantOf(LocalFields(t)) == t
  {
    TimeOfDay(t);
  }

  /** Valid fields denote distinct instants. */
  lemma InstantOfInjective(f: DateTime, g: DateTime)
    requires ValidDateTime(f) && ValidDateTime(g) && InstantOf(f) == InstantOf(g)
    ensures f == g
  {
    assert DayOf(f.date) == DayOf(g.date);
    DayNumberInjective(f.date, g.date);
  }

  /** The fields of the instant that valid fields denote are those fields. */
  lemma FieldsRoundTrip(f: DateTime)
    requires ValidDateTime(f)
    ensures LocalFields(InstantOf(f)) == f
  {
    LocalFieldsInstant(InstantOf(f));
    InstantOfInjective(LocalFields(InstantOf(f)), f);
  }

  /** Adding whole hours moves the clock hour forward modulo 24 and leaves
      the minutes alone. */
  lemma AddHours(t: int, h: int)
    ensures HourOf(t + h * MS_PER_HOUR) == (HourOf(t) + h) % 24
    ensures MinuteOf(t + h * MS_PER_HOUR) == MinuteOf(t)
  {
    var d, ms := t / MS_PER_DAY, t % MS_PER_DAY;
    var hr, rem := ms / MS_PER_HOUR, ms % MS_PER_HOUR;
    var sum := hr + h;
    var r := (sum % 24) * MS_PER_HOUR + rem;
    assert t == d * MS_PER_DAY + hr * MS_PER_HOUR + rem;
    assert sum == (sum / 24) * 24 + sum % 24;
    assert t + h * MS_PER_HOUR == (d + sum / 24) * MS_PER_DAY + r;
    DivUnique(t + h * MS_PER_HOUR, MS_PER_DAY, d + sum / 24, r);
    DivUnique(r, MS_PER_HOUR, sum % 24, rem);
    DivUnique(t + h * MS_PER_HOUR, MS_PER_HOUR, t / MS_PER_HOUR + h, t % MS_PER_HOUR);
  }

  /** Adding whole days moves the day forward by that many and leaves the
      time of day alone. */
  lemma AddDays(t: int, k: int)
    ensures (t + k * MS_PER_DAY) / MS_PER_DAY == t / MS_PER_DAY + k
    ensures HourOf(t + k * MS_PER_DAY) == HourOf(t) && MinuteOf(t + k * MS_PER_DAY) == MinuteOf(t)
  {
    DivUnique(t + k * MS_PER_DAY, MS_PER_DAY, t / MS_PER_DAY + k, t % MS_PER_DAY);
    DivUnique(t + k * MS_PER_DAY, MS_PER_HOUR, t / MS_PER_HOUR + 24 * k, t % MS_PER_HOUR);
  }

  /** `new Date(year, monthIndex, day, hours, minutes, 0, 0)` in local time:
      ECMAScript's MakeDay, MakeTime and MakeDate, where a year 0..99 means
      1900..1999 and a month index outside 0..11 carries into the year. */
  function MakeLocal(year: int, monthIndex: int, day: int, hours: int, minutes: int): int {
    var fullYear := if 0 <= year <= 99 then 1900 + year else year;
    var y := fullYear + monthIndex / 12;
    var m := monthIndex % 12 + 1;
    (DayNumber(y, m, 1) + day - 1) * MS_PER_DAY + hours * MS_PER_HOUR + minutes * MS_PER_MINUTE
  }

  /** The constructed date shows the hours and minutes it was given, when
      they are in range. */
  lemma MakeLocalClock(year: int, monthIndex: int, day: int, hours: int, minutes: int)
    requires 0 <= hours < 24 && 0 <= minutes < 60
    ensures HourOf(MakeLocal(year, monthIndex, day, hours, minutes)) == hours
    ensures MinuteOf(MakeLocal(year, monthIndex, day, hours, minutes)) == minutes
  {
    var fullYear := if 0 <= year <= 99 then 1900 + year else year;
    var d := DayNumber(fullYear + monthIndex / 12, monthIndex % 12 + 1, 1) + day - 1;
    assert MakeLocal(year, monthIndex, day, hours, minutes) == d * MS_PER_DAY + hours * MS_PER_HOUR + minutes * MS_PER_MINUTE;
    ClockOf(d, hours, minutes);
  }

  lemma ClockOf(d: int, hours: int, minutes: int)
    requires 0 <= hours < 24 && 0 <= minutes < 60
    ensures HourOf(d * MS_PER_DAY + hours * MS_PER_HOUR + minutes * MS_PER_MINUTE) == hours
    ensures MinuteOf(d * MS_PER_DAY + hours * MS_PER_HOUR + minutes * MS_PER_MINUTE) == minutes
  {
    var t := d * MS_PER_DAY + hours * MS_PER_HOUR + minutes * MS_PER_MINUTE;
    DivUnique(t, MS_PER_DAY, d, hours * MS_PER_HOUR + minutes * MS_PER_MINUTE);
    DivUnique(hours * MS_PER_HOUR + minutes * MS_PER_MINUTE, MS_PER_HOUR, hours, minutes * MS_PER_MINUTE);
    DivUnique(t, MS_PER_HOUR, d * 24 + hours, minutes * MS_PER_MINUTE);
    DivUnique(minutes * MS_PER_MINUTE, MS_PER_MINUTE, minutes, 0);
  }

  /** For in-range arguments and a year outside 0..99, the constructed date
      reads back the fields it was built from. */
  lemma MakeLocalFields(y: int, m: int, d: int, h: int, mi: int)
    requires ValidDate(Date(y, m, d)) && !(0 <= y <= 99)
    requires 0 <= h < 24 && 0 <= mi < 60
    ensures LocalFields(MakeLocal(y, m - 1, d, h, mi)) == DateTime(Date(y, m, d), h, mi, 0, 0)
  {
    assert MakeLocal(y, m - 1, d, h, mi) == InstantOf(DateTime(Date(y, m, d), h, mi, 0, 0));
    FieldsRoundTrip(DateTime(Date(y, m, d), h, mi, 0, 0));
  }

  /** A two-digit year means a year of the twentieth century. */
  lemma MakeLocalTwoDigitYear(y: int, m: int, d: int, h: int, mi: int)
    requires 0 <= y <= 99 && ValidDate(Date(1900 + y, m, d))
    requires 0 <= h < 24 && 0 <= mi < 60
    ensures LocalFields(MakeLocal(y, m - 1, d, h, mi)) == DateTime(Date(1900 + y, m, d), h, mi, 0, 0)
  {
    assert MakeLocal(y, m - 1, d, h, mi) == InstantOf(DateTime(Date(1900 + y, m, d), h, mi, 0, 0));
    FieldsRoundTrip(DateTime(Date(1900 + y, m, d), h, mi, 0, 0));
  }
}
