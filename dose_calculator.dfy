/** The dose-schedule generator: a start date and time, an interval in hours
    and a duration (a number of 24-hour periods, or a number of doses) become a
    numbered list of doses. Instants are local wall-clock milliseconds (see
    module Calendar); every interval step adds exactly intervalHours * 3600000. */
module DoseCalculator {
  import opened Wrappers
  import opened Text
  import opened Calendar

  /** One scheduled administration: `id` is "dose-<n>", `number` is n. */
  datatype Dose = Dose(id: string, number: int, dateTime: int, taken: bool)

  datatype DurationType = Days | Quantity

  datatype ScheduleInput = ScheduleInput(
    startDate: string,
    startTime: string,
    intervalHours: int,
    durationType: DurationType,
    durationValue: int)

  function DoseId(n: int): string {
    "dose-" + IntToString(n)
  }

  /** Dose ids name their numbers one-to-one. */
  lemma DoseIdInjective(a: int, b: int)
    ensures DoseId(a) == DoseId(b) <==> a == b
  {
    if DoseId(a) == DoseId(b) {
      var sa, sb := IntToString(a), IntToString(b);
      NatToStringShape(if a >= 0 then a else -a);
      NatToStringShape(if b >= 0 then b else -b);
      assert sa == DoseId(a)[5..] && sb == DoseId(b)[5..];
      if a >= 0 && b >= 0 {
        NatToStringInjective(a, b);
      } else if a < 0 && b < 0 {
        assert sa[1..] == NatToString(-a) && sb[1..] == NatToString(-b);
        NatToStringInjective(-a, -b);
      }
    }
  }

  /** The start instant: `startDate.split('-')` and `startTime.split(':')`
      mapped through `Number`, then `new Date(year, month - 1, day, hours,
      minutes, 0, 0)`. None is the invalid date that a missing or non-numeric
      field produces. */
  function ParseStart(startDate: string, startTime: string): (r: Option<int>)
    ensures r.Some? <==> StartFieldsNumeric(Split(startDate, '-'), Split(startTime, ':'))
  {
    StartFromFields(Split(startDate, '-'), Split(startTime, ':'))
  }

  /** The start instant from the date fields `d` and the time fields `t`. */
  function StartFromFields(d: seq<string>, t: seq<string>): (r: Option<int>)
    ensures r.Some? <==> StartFieldsNumeric(d, t)
  {
    if |d| < 3 || |t| < 2 then None
    else
      var year, month, day := ToNumber(d[0]), ToNumber(d[1]), ToNumber(d[2]);
      var hours, minutes := ToNumber(t[0]), ToNumber(t[1]);
      if year.Some? && month.Some? && day.Some? && hours.Some? && minutes.Some?
      then Some(MakeLocal(year.value, month.value - 1, day.value, hours.value, minutes.value))
      else None
  }

  /** The date has at least three fields and the time at least two, and each
      of those is a number. */
  predicate StartFieldsNumeric(d: seq<string>, t: seq<string>) {
    |d| >= 3 && |t| >= 2 && AllDigits(d[0]) && AllDigits(d[1]) && AllDigits(d[2])
    && AllDigits(t[0]) && AllDigits(t[1])
  }

  /** A date "Y-M-D" and a time "H:M" whose fields read as the numbers y, m,
      d, h and mi denote the instant `new Date(y, m - 1, d, h, mi)`. */
  lemma ParseStartFields(ys: string, ms: string, ds: string, hs: string, mins: string,
                         y: int, m: int, d: int, h: int, mi: int)
    requires ToNumber(ys) == Some(y) && ToNumber(ms) == Some(m) && ToNumber(ds) == Some(d)
    requires ToNumber(hs) == Some(h) && ToNumber(mins) == Some(mi)
    ensures ParseStart(ys + "-" + ms + "-" + ds, hs + ":" + mins) == Some(MakeLocal(y, m - 1, d, h, mi))
  {
    SplitStartFields(ys, ms, ds, hs, mins);
    var df, tf := [ys, ms, ds], [hs, mins];
    assert df[0] == ys && df[1] == ms && df[2] == ds && tf[0] == hs && tf[1] == mins;
  }

  lemma SplitStartFields(ys: string, ms: string, ds: string, hs: string, mins: string)
    requires AllDigits(ys) && AllDigits(ms) && AllDigits(ds) && AllDigits(hs) && AllDigits(mins)
    ensures Split(ys + "-" + ms + "-" + ds, '-') == [ys, ms, ds]
    ensures Split(hs + ":" + mins, ':') == [hs, mins]
  {
    JoinThree(ys, ms, ds, "-");
    JoinTwo(hs, mins, ":");
    SplitJoin([ys, ms, ds], '-');
    SplitJoin([hs, mins], ':');
  }

  /** Dose `k` (1-based) of a schedule starting at `start` with one dose every
      `intervalHours`: it lies k - 1 intervals after the start. */
  function ScheduledDose(start: int, intervalHours: int, k: int): Dose {
    Dose(DoseId(k), k, start + (k - 1) * (intervalHours * MS_PER_HOUR), false)
  }

  /** The first `count` doses of that schedule, in order. */
  function Series(start: int, intervalHours: int, count: nat): (doses: seq<Dose>)
    ensures |doses| == count
  {
    if count == 0 then [] else Series(start, intervalHours, count - 1) + [ScheduledDose(start, intervalHours, count)]
  }

  /** Positions, numbers and ids agree: `doses[i]` is number i + 1 with id "dose-<i+1>". */
  predicate WellNumbered(doses: seq<Dose>) {
    forall i :: 0 <= i < |doses| ==> doses[i].number == i + 1 && doses[i].id == DoseId(i + 1)
  }

  /** Times strictly increase along the list. */
  predicate StrictlyIncreasing(doses: seq<Dose>) {
    forall i, j :: 0 <= i < j < |doses| ==> doses[i].dateTime < doses[j].dateTime
  }

  /** Element `i` of a series is scheduled dose i + 1. */
  lemma {:induction false} SeriesAt(start: int, intervalHours: int, count: nat, i: nat)
    requires i < count
    ensures Series(start, intervalHours, count)[i] == ScheduledDose(start, intervalHours, i + 1)
    decreases count
  {
    if i < count - 1 {
      SeriesAt(start, intervalHours, count - 1, i);
    }
  }

  /** A series is numbered from 1, untaken, evenly spaced from `start`, and
      (for a positive interval) ordered by time. */
  lemma SeriesShape(start: int, intervalHours: int, count: nat)
    ensures WellNumbered(Series(start, intervalHours, count))
    ensures forall i :: 0 <= i < count ==>
      Series(start, intervalHours, count)[i].dateTime == start + i * (intervalHours * MS_PER_HOUR)
      && !Series(start, intervalHours, count)[i].taken
    ensures intervalHours > 0 ==> StrictlyIncreasing(Series(start, intervalHours, count))
  {
    var s := Series(start, intervalHours, count);
    var step := intervalHours * MS_PER_HOUR;
    forall i | 0 <= i < count
      ensures s[i] == ScheduledDose(start, intervalHours, i + 1)
    {
      SeriesAt(start, intervalHours, count, i);
    }
    if intervalHours > 0 {
      forall i, j | 0 <= i < j < count ensures s[i].dateTime < s[j].dateTime {
        MulStrictlyIncreasing(i, j, step);
      }
    }
  }

  lemma MulStrictlyIncreasing(i: int, j: int, step: int)
    requires i < j && step > 0
    ensures i * step < j * step
  {
    assert j * step == i * step + (j - i) * step;
  }

  /** Number of doses in the half-open window [start, start + days * 24 h)
      when one is taken every `intervalHours`: the ceiling of days * 24 / intervalHours. */
  function WindowDoseCount(intervalHours: int, days: int): nat
    requires intervalHours > 0 && days > 0
  {
    (days * 24 + intervalHours - 1) / intervalHours
  }

  /** The count `n` with (n - 1) * step < window <= n * step is the ceiling. */
  lemma CeilingUnique(n: int, window: int, step: int)
    requires step > 0 && (n - 1) * step < window <= n * step
    ensures n == (window + step - 1) / step
  {
    var q := (window + step - 1) / step;
    var r := (window + step - 1) % step;
    assert window + step - 1 == q * step + r && 0 <= r < step;
    if q < n {
      MulMonotone(q, n - 1, step);
    } else if q > n {
      MulMonotone(n + 1, q, step);
    }
  }

  lemma MulMonotone(a: int, b: int, step: int)
    requires a <= b && step > 0
    ensures a * step <= b * step
  {
    assert b * step == a * step + (b - a) * step;
  }

  /** The schedule `generateByDays` produces, as a value: numbered from 1,
      untaken, and strictly increasing in time. */
  function ByDays(startDate: string, startTime: string, intervalHours: int, days: int): (doses: seq<Dose>)
    ensures WellNumbered(doses) && StrictlyIncreasing(doses)
    ensures forall i :: 0 <= i < |doses| ==> !doses[i].taken
  {
    if days <= 0 || intervalHours <= 0 then []
    else
      match ParseStart(startDate, startTime)
      case None => []
      case Some(start) =>
        SeriesShape(start, intervalHours, WindowDoseCount(intervalHours, days));
        Series(start, intervalHours, WindowDoseCount(intervalHours, days))
  }

  /** The schedule `generateByQuantity` produces, as a value: `quantity`
      doses for a valid start, numbered from 1, untaken, and strictly
      increasing in time. */
  function ByQuantity(startDate: string, startTime: string, intervalHours: int, quantity: int): (doses: seq<Dose>)
    ensures |doses| == if quantity <= 0 || intervalHours <= 0 || ParseStart(startDate, startTime).None? then 0 else quantity
    ensures WellNumbered(doses) && StrictlyIncreasing(doses)
    ensures forall i :: 0 <= i < |doses| ==> !doses[i].taken
  {
    if quantity <= 0 || intervalHours <= 0 then []
    else
      match ParseStart(startDate, startTime)
      case None => []
      case Some(start) =>
        SeriesShape(start, intervalHours, quantity);
        Series(start, intervalHours, quantity)
  }

  /** `generateByDays`: doses every `intervalHours` from the start instant
      while strictly before start + days * 24 h. */
  method GenerateByDays(startDate: string, startTime: string, intervalHours: int, days: int)
    returns (doses: seq<Dose>)
    ensures doses == ByDays(startDate, startTime, intervalHours, days)
    ensures days <= 0 || intervalHours <= 0 ==> doses == []
    ensures WellNumbered(doses) && StrictlyIncreasing(doses)
  {
    if days <= 0 || intervalHours <= 0 {
      return [];
    }
    var parsed := ParseStart(startDate, startTime);
    if parsed.None? {
      // An invalid start date makes every comparison false: the loop never runs.
      return [];
    }
    var start := parsed.value;
    var endTime := start + days * 24 * 60 * 60 * 1000;
    doses := DosesBefore(start, intervalHours, endTime);
    WindowCount(|doses|, intervalHours, days);
    ByDaysFromStart(startDate, startTime, intervalHours, days, start);
  }

  /** The loop of `generateByDays`: a dose every `intervalHours` from `start`
      for as long as the dose time is strictly before `endTime`. The result
      is the series whose last dose is the last one before `endTime`. */
  method DosesBefore(start: int, intervalHours: int, endTime: int) returns (doses: seq<Dose>)
    requires intervalHours > 0
    ensures doses == Series(start, intervalHours, |doses|)
    ensures |doses| == 0 <==> endTime <= start
    ensures |doses| > 0 ==> start + (|doses| - 1) * (intervalHours * MS_PER_HOUR) < endTime
    ensures endTime <= start + |doses| * (intervalHours * MS_PER_HOUR)
  {
    var step := intervalHours * MS_PER_HOUR;
    doses := [];
    var current := start;
    var count := 1;
    while current < endTime
      invariant count == |doses| + 1
      invariant current == start + |doses| * step
      invariant |doses| > 0 ==> start + (|doses| - 1) * step < endTime
      invariant doses == Series(start, intervalHours, |doses|)
      decreases endTime - current
    {
      MulStep(count, step);
      doses := doses + [Dose(DoseId(count), count, current, false)];
      count := count + 1;
      current := current + step;
    }
    if |doses| > 0 {
      MulMonotone(0, |doses| - 1, step);
    }
  }

  /** With a valid start, the by-days schedule is the window's series. */
  lemma ByDaysFromStart(startDate: string, startTime: string, intervalHours: int, days: int, start: int)
    requires days > 0 && intervalHours > 0 && ParseStart(startDate, startTime) == Some(start)
    ensures ByDays(startDate, startTime, intervalHours, days) == Series(start, intervalHours, WindowDoseCount(intervalHours, days))
    ensures WellNumbered(ByDays(startDate, startTime, intervalHours, days))
    ensures StrictlyIncreasing(ByDays(startDate, startTime, intervalHours, days))
  {
    SeriesShape(start, intervalHours, WindowDoseCount(intervalHours, days));
  }

  lemma MulStep(n: int, step: int)
    ensures n * step == (n - 1) * step + step
  {
  }

  /** The loop of `generateByDays` stops after the ceiling of days * 24 / intervalHours doses. */
  lemma WindowCount(n: int, intervalHours: int, days: int)
    requires intervalHours > 0 && days > 0 && n >= 1
    requires (n - 1) * (intervalHours * MS_PER_HOUR) < days * 24 * 60 * 60 * 1000
    requires days * 24 * 60 * 60 * 1000 <= n * (intervalHours * MS_PER_HOUR)
    ensures n == WindowDoseCount(intervalHours, days)
  {
    HoursScale(n, intervalHours, days);
    CeilingUnique(n, days * 24, intervalHours);
  }

  lemma HoursScale(n: int, intervalHours: int, days: int)
    requires (n - 1) * (intervalHours * MS_PER_HOUR) < days * 24 * 60 * 60 * 1000
    requires days * 24 * 60 * 60 * 1000 <= n * (intervalHours * MS_PER_HOUR)
    ensures (n - 1) * intervalHours < days * 24 <= n * intervalHours
  {
  }

  /** `generateByQuantity`: exactly `quantity` doses, dose i + 1 at start + i * intervalHours. */
  method GenerateByQuantity(startDate: string, startTime: string, intervalHours: int, quantity: int)
    returns (doses: seq<Dose>)
    ensures doses == ByQuantity(startDate, startTime, intervalHours, quantity)
    ensures quantity <= 0 || intervalHours <= 0 ==> doses == []
    ensures WellNumbered(doses) && StrictlyIncreasing(doses)
  {
    if quantity <= 0 || intervalHours <= 0 {
      return [];
    }
    var parsed := ParseStart(startDate, startTime);
    if parsed.None? {
      return [];
    }
    var start := parsed.value;
    doses := [];
    for i := 0 to quantity
      invariant doses == Series(start, intervalHours, i)
    {
      var doseTime := start + i * intervalHours * 60 * 60 * 1000;
      MulAssoc(i, intervalHours);
      doses := doses + [Dose(DoseId(i + 1), i + 1, doseTime, false)];
    }
    SeriesShape(start, intervalHours, quantity);
  }

  lemma MulAssoc(i: int, intervalHours: int)
    ensures i * intervalHours * 60 * 60 * 1000 == i * (intervalHours * MS_PER_HOUR)
  {
  }

  /** `generateSchedule`, as a value: the by-days schedule when the duration
      is a number of days, the by-quantity one otherwise. */
  function Schedule(input: ScheduleInput): (doses: seq<Dose>)
    ensures WellNumbered(doses) && StrictlyIncreasing(doses)
    ensures forall i :: 0 <= i < |doses| ==> !doses[i].taken
  {
    if input.durationType == Days
    then ByDays(input.startDate, input.startTime, input.intervalHours, input.durationValue)
    else ByQuantity(input.startDate, input.startTime, input.intervalHours, input.durationValue)
  }

  /** `generateSchedule`: dispatches on the duration type. */
  method GenerateSchedule(input: ScheduleInput) returns (doses: seq<Dose>)
    ensures doses == Schedule(input)
    ensures input.durationType == Days
      ==> doses == ByDays(input.startDate, input.startTime, input.intervalHours, input.durationValue)
    ensures input.durationType == Quantity
      ==> doses == ByQuantity(input.startDate, input.startTime, input.intervalHours, input.durationValue)
    ensures WellNumbered(doses) && StrictlyIncreasing(doses)
  {
    if input.durationType == Days {
      doses := GenerateByDays(input.startDate, input.startTime, input.intervalHours, input.durationValue);
    } else {
      doses := GenerateByQuantity(input.startDate, input.startTime, input.intervalHours, input.durationValue);
    }
  }

  /** `getEstimatedEnd`: the time of the last dose the configuration would
      produce, or None (null) when it produces none. */
  function EstimatedEnd(input: ScheduleInput): (end: Option<int>)
    ensures end.None? <==> Schedule(input) == []
    ensures end.Some? ==>
      (exists i :: 0 <= i < |Schedule(input)| && Schedule(input)[i].dateTime == end.value)
      && (forall i :: 0 <= i < |Schedule(input)| ==> Schedule(input)[i].dateTime <= end.value)
  {
    var doses := Schedule(input);
    if |doses| == 0 then None else Some(doses[|doses| - 1].dateTime)
  }

  /** A valid by-days schedule is the series that covers the window
      [start, start + days * 24 h): every dose lies inside it, and the dose
      after the last would not. */
  lemma ByDaysWindow(startDate: string, startTime: string, intervalHours: int, days: int, start: int)
    requires days > 0 && intervalHours > 0 && ParseStart(startDate, startTime) == Some(start)
    ensures var doses := ByDays(startDate, startTime, intervalHours, days);
      |doses| >= 1
      && (forall i :: 0 <= i < |doses| ==> start <= doses[i].dateTime < start + days * MS_PER_DAY)
      && start + |doses| * (intervalHours * MS_PER_HOUR) >= start + days * MS_PER_DAY
  {
    ByDaysFromStart(startDate, startTime, intervalHours, days, start);
    WindowSeries(start, intervalHours, days);
  }

  /** The window's series lies inside [start, start + days * 24 h) and one more
      dose would not. */
  lemma WindowSeries(start: int, intervalHours: int, days: int)
    requires days > 0 && intervalHours > 0
    ensures var doses := Series(start, intervalHours, WindowDoseCount(intervalHours, days));
      |doses| >= 1
      && (forall i :: 0 <= i < |doses| ==> start <= doses[i].dateTime < start + days * MS_PER_DAY)
      && start + |doses| * (intervalHours * MS_PER_HOUR) >= start + days * MS_PER_DAY
  {
    var n := WindowDoseCount(intervalHours, days);
    var step := intervalHours * MS_PER_HOUR;
    CeilingBounds(days * 24, intervalHours);
    ScaleBounds(n, intervalHours, days);
    SeriesShape(start, intervalHours, n);
    forall i | 0 <= i < n
      ensures start <= start + i * step < start + days * MS_PER_DAY
    {
      MulMonotone(0, i, step);
      MulMonotone(i, n - 1, step);
    }
  }

  /** Scaling hours to milliseconds keeps the ceiling's bracket. */
  lemma ScaleBounds(n: int, intervalHours: int, days: int)
    requires (n - 1) * intervalHours < days * 24 <= n * intervalHours
    ensures (n - 1) * (intervalHours * MS_PER_HOUR) < days * MS_PER_DAY <= n * (intervalHours * MS_PER_HOUR)
  {
    assert (n - 1) * (intervalHours * MS_PER_HOUR) == ((n - 1) * intervalHours) * MS_PER_HOUR;
    assert n * (intervalHours * MS_PER_HOUR) == (n * intervalHours) * MS_PER_HOUR;
  }

  /** The ceiling n of window / step satisfies (n - 1) * step < window <= n * step. */
  lemma CeilingBounds(window: int, step: int)
    requires window > 0 && step > 0
    ensures var n := (window + step - 1) / step;
      n >= 1 && (n - 1) * step < window <= n * step
  {
    var n := (window + step - 1) / step;
    var r := (window + step - 1) % step;
    assert window + step - 1 == n * step + r;
    MulStep(n, step);
  }

  /** i intervals after the start, the clock shows the start's hour advanced
      by i * intervalHours (modulo 24) and the start's minutes. */
  lemma IntervalClock(start: int, intervalHours: int, i: int)
    ensures HourOf(start + i * (intervalHours * MS_PER_HOUR)) == (HourOf(start) + i * intervalHours) % 24
    ensures MinuteOf(start + i * (intervalHours * MS_PER_HOUR)) == MinuteOf(start)
  {
    assert i * (intervalHours * MS_PER_HOUR) == (i * intervalHours) * MS_PER_HOUR;
    AddHours(start, i * intervalHours);
  }

  /** Every dose of a valid by-days schedule keeps the start's minutes and
      shows the start's hour advanced by whole intervals. */
  lemma ByDaysClock(startDate: string, startTime: string, intervalHours: int, days: int, start: int, i: int)
    requires days > 0 && intervalHours > 0 && ParseStart(startDate, startTime) == Some(start)
    requires 0 <= i < |ByDays(startDate, startTime, intervalHours, days)|
    ensures HourOf(ByDays(startDate, startTime, intervalHours, days)[i].dateTime) == (HourOf(start) + i * intervalHours) % 24
    ensures MinuteOf(ByDays(startDate, startTime, intervalHours, days)[i].dateTime) == MinuteOf(start)
  {
    ByDaysFromStart(startDate, startTime, intervalHours, days, start);
    SeriesShape(start, intervalHours, WindowDoseCount(intervalHours, days));
    IntervalClock(start, intervalHours, i);
  }

  /** Eight-hourly doses over one day: three doses, at the start's hour and
      eight and sixteen hours later (from 08:00: 08:00, 16:00 and 00:00; from
      20:00: 20:00, 04:00 and 12:00). */
  lemma EightHourlyForOneDay(startDate: string, startTime: string, start: int)
    requires ParseStart(startDate, startTime) == Some(start)
    ensures var doses := ByDays(startDate, startTime, 8, 1);
      |doses| == 3
      && HourOf(doses[0].dateTime) == HourOf(start) % 24
      && HourOf(doses[1].dateTime) == (HourOf(start) + 8) % 24
      && HourOf(doses[2].dateTime) == (HourOf(start) + 16) % 24
  {
    ByDaysFromStart(startDate, startTime, 8, 1, start);
    assert WindowDoseCount(8, 1) == 3;
    ByDaysClock(startDate, startTime, 8, 1, start, 0);
    ByDaysClock(startDate, startTime, 8, 1, start, 1);
    ByDaysClock(startDate, startTime, 8, 1, start, 2);
  }

  /** The window is the 24 hours from the start, not the rest of the start's
      calendar day: from 08:00 on, the third eight-hourly dose of a one-day
      schedule falls on the next calendar day. */
  lemma EightHourlyCrossesMidnight(startDate: string, startTime: string, start: int)
    requires ParseStart(startDate, startTime) == Some(start) && HourOf(start) >= 8
    ensures var doses := ByDays(startDate, startTime, 8, 1);
      |doses| == 3 && doses[2].dateTime / MS_PER_DAY == start / MS_PER_DAY + 1
  {
    ByDaysFromStart(startDate, startTime, 8, 1, start);
    assert WindowDoseCount(8, 1) == 3;
    SeriesShape(start, 8, 3);
    var r := start % MS_PER_DAY;
    assert ByDays(startDate, startTime, 8, 1)[2].dateTime == start + 2 * (8 * MS_PER_HOUR);
    assert r >= 8 * MS_PER_HOUR;
    DivUnique(start + 2 * (8 * MS_PER_HOUR), MS_PER_DAY, start / MS_PER_DAY + 1, r + 16 * MS_PER_HOUR - MS_PER_DAY);
  }

  /** Daily doses over three days fall on three consecutive days at the start's time. */
  lemma DailyForThreeDays(startDate: string, startTime: string, start: int)
    requires ParseStart(startDate, startTime) == Some(start)
    ensures var doses := ByDays(startDate, startTime, 24, 3);
      |doses| == 3
      && forall i :: 0 <= i < 3 ==>
        doses[i].dateTime / MS_PER_DAY == start / MS_PER_DAY + i
        && HourOf(doses[i].dateTime) == HourOf(start) && MinuteOf(doses[i].dateTime) == MinuteOf(start)
  {
    ByDaysFromStart(startDate, startTime, 24, 3, start);
    assert WindowDoseCount(24, 3) == 3;
    SeriesShape(start, 24, 3);
    forall i | 0 <= i < 3
      ensures Series(start, 24, 3)[i].dateTime / MS_PER_DAY == start / MS_PER_DAY + i
      ensures HourOf(Series(start, 24, 3)[i].dateTime) == HourOf(start)
      ensures MinuteOf(Series(start, 24, 3)[i].dateTime) == MinuteOf(start)
    {
      assert Series(start, 24, 3)[i].dateTime == start + i * MS_PER_DAY;
      AddDays(start, i);
    }
  }

  /** A by-days schedule holds a single dose exactly when the interval is at
      least the whole window. */
  lemma SingleDoseWindow(startDate: string, startTime: string, intervalHours: int, days: int, start: int)
    requires intervalHours > 0 && days > 0 && ParseStart(startDate, startTime) == Some(start)
    ensures |ByDays(startDate, startTime, intervalHours, days)| == 1 <==> intervalHours >= days * 24
  {
    ByDaysFromStart(startDate, startTime, intervalHours, days, start);
    assert |ByDays(startDate, startTime, intervalHours, days)| == WindowDoseCount(intervalHours, days);
    SingleWindowCount(intervalHours, days);
  }

  lemma SingleWindowCount(intervalHours: int, days: int)
    requires intervalHours > 0 && days > 0
    ensures WindowDoseCount(intervalHours, days) == 1 <==> intervalHours >= days * 24
  {
    var n := WindowDoseCount(intervalHours, days);
    CeilingBounds(days * 24, intervalHours);
    if n >= 2 {
      MulMonotone(1, n - 1, intervalHours);
    }
  }

  /** A valid by-quantity schedule holds exactly `quantity` doses, the
      last one (quantity - 1) intervals after the start. */
  lemma ByQuantityShape(startDate: string, startTime: string, intervalHours: int, quantity: int, start: int)
    requires quantity > 0 && intervalHours > 0 && ParseStart(startDate, startTime) == Some(start)
    ensures var doses := ByQuantity(startDate, startTime, intervalHours, quantity);
      |doses| == quantity
      && doses[0].dateTime == start
      && doses[quantity - 1].dateTime == start + (quantity - 1) * (intervalHours * MS_PER_HOUR)
  {
    SeriesShape(start, intervalHours, quantity);
  }

  /** By days, the estimated end is the last dose of the window: (n - 1)
      intervals after a valid start, for the ceiling n of days * 24 / intervalHours,
      and before the window closes. */
  lemma EstimatedEndByDays(input: ScheduleInput, start: int)
    requires input.durationType == Days && input.durationValue > 0 && input.intervalHours > 0
    requires ParseStart(input.startDate, input.startTime) == Some(start)
    ensures var n := WindowDoseCount(input.intervalHours, input.durationValue);
      EstimatedEnd(input) == Some(start + (n - 1) * (input.intervalHours * MS_PER_HOUR))
    ensures EstimatedEnd(input).value < start + input.durationValue * MS_PER_DAY
  {
    ByDaysFromStart(input.startDate, input.startTime, input.intervalHours, input.durationValue, start);
    WindowSeries(start, input.intervalHours, input.durationValue);
    SeriesShape(start, input.intervalHours, WindowDoseCount(input.intervalHours, input.durationValue));
  }

  /** By quantity, the estimated end is (quantity - 1) intervals after a valid start. */
  lemma EstimatedEndByQuantity(input: ScheduleInput, start: int)
    requires input.durationType == Quantity && input.durationValue > 0 && input.intervalHours > 0
    requires ParseStart(input.startDate, input.startTime) == Some(start)
    ensures EstimatedEnd(input) == Some(start + (input.durationValue - 1) * (input.intervalHours * MS_PER_HOUR))
  {
    var doses := ByQuantity(input.startDate, input.startTime, input.intervalHours, input.durationValue);
    assert Schedule(input) == doses;
    ByQuantityShape(input.startDate, input.startTime, input.intervalHours, input.durationValue, start);
    assert EstimatedEnd(input) == Some(doses[input.durationValue - 1].dateTime);
  }

  /** There is no estimated end exactly when the duration or the interval is
      not positive, or the start does not parse. */
  lemma EstimatedEndNone(input: ScheduleInput)
    ensures EstimatedEnd(input).None? <==>
      input.durationValue <= 0 || input.intervalHours <= 0 || ParseStart(input.startDate, input.startTime).None?
  {
    var parsed := ParseStart(input.startDate, input.startTime);
    if input.durationValue > 0 && input.intervalHours > 0 && parsed.Some? && input.durationType == Days {
      CeilingBounds(input.durationValue * 24, input.intervalHours);
    }
  }

  /** The dose times `generateByQuantity` computes as written, `None` standing
      for the invalid date: when the start does not parse, `new Date` yields
      the invalid date and every dose of the loop carries it. */
  function QuantityTimesAsWritten(startDate: string, startTime: string, intervalHours: int, quantity: int)
    : (times: seq<Option<int>>)
    ensures |times| == if quantity <= 0 || intervalHours <= 0 then 0 else quantity
  {
    if quantity <= 0 || intervalHours <= 0 then []
    else
      var parsed := ParseStart(startDate, startTime);
      seq(quantity, i => if parsed.None? then None else Some(parsed.value + i * (intervalHours * MS_PER_HOUR)))
  }

  /** With a start that parses, the loop as written and the model's schedule
      agree dose by dose. */
  lemma QuantityTimesAgree(startDate: string, startTime: string, intervalHours: int, quantity: int)
    requires ParseStart(startDate, startTime).Some?
    ensures var times, doses := QuantityTimesAsWritten(startDate, startTime, intervalHours, quantity),
        ByQuantity(startDate, startTime, intervalHours, quantity);
      |times| == |doses| && forall i :: 0 <= i < |doses| ==> times[i] == Some(doses[i].dateTime)
  {
    var start := ParseStart(startDate, startTime).value;
    var times, doses := QuantityTimesAsWritten(startDate, startTime, intervalHours, quantity),
      ByQuantity(startDate, startTime, intervalHours, quantity);
    forall i | 0 <= i < |doses|
      ensures times[i] == Some(doses[i].dateTime)
    {
      SeriesAt(start, intervalHours, quantity, i);
    }
  }

  /** As written, three doses by quantity from an empty start date all fall on
      the invalid date, so the estimated end is that invalid date rather than
      null; the model produces no doses and no end. */
  lemma InvalidStartQuantity()
    ensures var times := QuantityTimesAsWritten("", "08:00", 8, 3);
      |times| == 3 && times[2].None?
    ensures ByQuantity("", "08:00", 8, 3) == []
    ensures EstimatedEnd(ScheduleInput("", "08:00", 8, Quantity, 3)).None?
  {
    SplitNoSeparator("", '-');
  }
}
