/** The application state: the form fields of a schedule, the generated dose
    list, and the three persisted display settings. The browser's
    `localStorage` is the map `storage`, the `dark` class on the document
    element is the flag `darkClass`, and the clock ("now") and the colour-scheme
    preference are parameters. */
module ScheduleStore {
  import opened Wrappers
  import opened Text
  import opened Calendar
  import opened DoseCalculator

  datatype Theme = Light | Dark

  datatype Language = En | Es

  const THEME_KEY: string := "medschedule-theme"
  const USE24H_KEY: string := "medschedule-use24h"
  const LANGUAGE_KEY: string := "medschedule-lang"

  /** The name a theme is stored under. */
  function ThemeName(t: Theme): string {
    if t == Light then "light" else "dark"
  }

  /** The tag a language is stored under. */
  function LanguageTag(l: Language): string {
    if l == En then "en" else "es"
  }

  /** `String(b)` for a boolean. */
  function BoolString(b: bool): string {
    if b then "true" else "false"
  }

  /** `localStorage.getItem(key)`: None is `null`, a missing key. */
  function GetItem(storage: map<string, string>, key: string): Option<string> {
    if key in storage then Some(storage[key]) else None
  }

  /** `getInitialTheme`: outside a browser the light theme; a stored theme
      name is taken as it is; anything else falls back to the colour-scheme
      preference. */
  function InitialTheme(browser: bool, saved: Option<string>, prefersDark: bool): (t: Theme)
    ensures !browser ==> t == Light
    ensures browser && saved.Some? && (saved.value == ThemeName(Light) || saved.value == ThemeName(Dark))
      ==> ThemeName(t) == saved.value
    ensures browser && !(saved == Some(ThemeName(Light)) || saved == Some(ThemeName(Dark)))
      ==> (t == Dark <==> prefersDark)
  {
    if !browser then Light
    else if saved == Some("dark") then Dark
    else if saved == Some("light") then Light
    else if prefersDark then Dark
    else Light
  }

  /** `getInitialUse24h`: true exactly when running in a browser with the
      text "true" stored; a missing or different value means the 12-hour clock. */
  function InitialUse24h(browser: bool, saved: Option<string>): (b: bool)
    ensures b <==> browser && saved == Some(BoolString(true))
  {
    if !browser then false
    else if saved != None then saved.value == "true"
    else false
  }

  /** `getInitialLanguage`: a stored language tag is taken as it is; anything
      else, and running outside a browser, means English. */
  function InitialLanguage(browser: bool, saved: Option<string>): (l: Language)
    ensures browser && saved.Some? && (saved.value == LanguageTag(En) || saved.value == LanguageTag(Es))
      ==> LanguageTag(l) == saved.value
    ensures !(browser && saved == Some(LanguageTag(Es))) ==> l == En
  {
    if !browser then En
    else if saved == Some("en") || saved == Some("es") then (if saved == Some("en") then En else Es)
    else En
  }

  /** What a setting setter writes, its loader reads back. */
  lemma SettingsRoundTrip(b: bool, t: Theme, l: Language, prefersDark: bool)
    ensures InitialUse24h(true, Some(BoolString(b))) == b
    ensures InitialTheme(true, Some(ThemeName(t)), prefersDark) == t
    ensures InitialLanguage(true, Some(LanguageTag(l))) == l
  {
    assert ThemeName(Light) != ThemeName(Dark);
    assert LanguageTag(En) != LanguageTag(Es);
  }

  /** `getTodayDate`: "<year>-<MM>-<DD>" of the local date of `now`; it
      ends with a dash, two digits, a dash and two digits. */
  function TodayDate(now: int): (text: string)
    ensures DateShape(text)
  {
    DateTextEnds(LocalFields(now).date);
    DateText(LocalFields(now).date)
  }

  /** `getCurrentTime`: "<HH>:<mm>" of the local time of `now`: two digits,
      a colon and two digits. */
  function CurrentTime(now: int): (text: string)
    ensures ClockShape(text)
  {
    ClockTextReadBack(LocalFields(now));
    ClockText(LocalFields(now))
  }

  /** At least one character of year, then `-<MM>-<DD>` in digits. */
  predicate DateShape(text: string) {
    |text| >= 7 && text[|text| - 6] == '-' && text[|text| - 3] == '-'
    && AllDigits(text[|text| - 5..|text| - 3]) && AllDigits(text[|text| - 2..])
  }

  /** Two digits, a colon and two digits. */
  predicate ClockShape(text: string) {
    |text| == 5 && text[2] == ':' && AllDigits(text[..2]) && AllDigits(text[3..])
  }

  /** A date text ends with the month and the day, two digits each. */
  lemma DateTextEnds(d: Date)
    requires ValidDate(d)
    ensures var text := DateText(d);
      DateShape(text) && ToNumber(text[|text| - 5..|text| - 3]) == Some(d.month)
      && ToNumber(text[|text| - 2..]) == Some(d.day)
  {
    Pad2Value(d.month);
    Pad2Value(d.day);
    NatToStringShape(if d.year < 0 then -d.year else d.year);
    DashLayout(IntToString(d.year), Pad2(d.month), Pad2(d.day));
  }

  /** Where the pieces of `<y>-<mm>-<dd>` sit, counted from the end. */
  lemma DashLayout(ys: string, ms: string, ds: string)
    requires |ys| >= 1 && |ms| == 2 && |ds| == 2
    ensures var t := ys + "-" + ms + "-" + ds;
      |t| == |ys| + 6 && t[|t| - 6] == '-' && t[|t| - 3] == '-' && t[|t| - 5..|t| - 3] == ms && t[|t| - 2..] == ds
  {
  }

  /** A clock text is the hour and the minute, two digits each, around a
      colon. */
  lemma ClockTextReadBack(f: DateTime)
    requires ValidDateTime(f)
    ensures var text := ClockText(f);
      ClockShape(text) && ToNumber(text[..2]) == Some(f.hour) && ToNumber(text[3..]) == Some(f.minute)
  {
    Pad2Value(f.hour);
    Pad2Value(f.minute);
    var text := Pad2(f.hour) + ":" + Pad2(f.minute);
    assert text[..2] == Pad2(f.hour) && text[3..] == Pad2(f.minute);
  }

  /** A date as `${year}-${MM}-${DD}`. */
  function DateText(d: Date): string
    requires ValidDate(d)
  {
    IntToString(d.year) + "-" + Pad2(d.month) + "-" + Pad2(d.day)
  }

  /** The hour and minute of a time as `${HH}:${mm}`. */
  function ClockText(f: DateTime): string
    requires ValidDateTime(f)
  {
    Pad2(f.hour) + ":" + Pad2(f.minute)
  }

  /** The default start date and time parse back as the current date and
      clock minute (for years from 100 on; `new Date` reads a year 0..99 as
      19xx). */
  lemma TodayNowRoundTrip(now: int)
    requires LocalFields(now).date.year >= 100
    ensures var r := ParseStart(TodayDate(now), CurrentTime(now));
      r.Some? && LocalFields(r.value) == LocalFields(now).(second := 0, millisecond := 0)
  {
    var f := LocalFields(now);
    var start := MakeLocal(f.date.year, f.date.month - 1, f.date.day, f.hour, f.minute);
    assert ParseStart(TodayDate(now), CurrentTime(now)) == Some(start) by {
      FieldsTextRoundTrip(f);
    }
    assert LocalFields(start) == DateTime(f.date, f.hour, f.minute, 0, 0) by {
      MakeLocalFields(f.date.year, f.date.month, f.date.day, f.hour, f.minute);
    }
  }

  /** Printed date and clock text parse as `new Date` of the year, month,
      day, hour and minute they were printed from. */
  lemma FieldsTextRoundTrip(f: DateTime)
    requires ValidDateTime(f) && f.date.year >= 0
    ensures ParseStart(DateText(f.date), ClockText(f))
      == Some(MakeLocal(f.date.year, f.date.month - 1, f.date.day, f.hour, f.minute))
  {
    var ys, ms, ds := NatToString(f.date.year), Pad2(f.date.month), Pad2(f.date.day);
    var hs, mis := Pad2(f.hour), Pad2(f.minute);
    NatToStringRoundTrip(f.date.year);
    Pad2Value(f.date.month);
    Pad2Value(f.date.day);
    Pad2Value(f.hour);
    Pad2Value(f.minute);
    assert DateText(f.date) == ys + "-" + ms + "-" + ds;
    assert ClockText(f) == hs + ":" + mis;
    ParseStartFields(ys, ms, ds, hs, mis, f.date.year, f.date.month, f.date.day, f.hour, f.minute);
  }

  /** `toggleDoseTaken`'s new list: `taken` flips on the doses whose id is
      `id`; everything else is kept. */
  function ToggleTaken(doses: seq<Dose>, id: string): (r: seq<Dose>)
    ensures |r| == |doses|
    ensures forall i :: 0 <= i < |r| ==>
      r[i].id == doses[i].id && r[i].number == doses[i].number && r[i].dateTime == doses[i].dateTime
      && (r[i].taken <==> (doses[i].taken != (doses[i].id == id)))
  {
    seq(|doses|, i requires 0 <= i < |doses| =>
      if doses[i].id == id then doses[i].(taken := !doses[i].taken) else doses[i])
  }

  /** Toggling the same id twice restores the list. */
  lemma ToggleTwice(doses: seq<Dose>, id: string)
    ensures ToggleTaken(ToggleTaken(doses, id), id) == doses
  {
    var r := ToggleTaken(ToggleTaken(doses, id), id);
    assert forall i :: 0 <= i < |doses| ==> r[i] == doses[i];
  }

  /** An id that no dose carries changes nothing. */
  lemma ToggleUnknown(doses: seq<Dose>, id: string)
    requires forall i :: 0 <= i < |doses| ==> doses[i].id != id
    ensures ToggleTaken(doses, id) == doses
  {
    var r := ToggleTaken(doses, id);
    assert forall i :: 0 <= i < |doses| ==> r[i] == doses[i];
  }

  /** In a well-numbered list, toggling "dose-<k>" flips dose k alone. */
  lemma ToggleNumbered(doses: seq<Dose>, k: int)
    requires WellNumbered(doses) && 1 <= k <= |doses|
    ensures var r := ToggleTaken(doses, DoseId(k));
      r[k - 1].taken == !doses[k - 1].taken
      && forall i :: 0 <= i < |doses| && i != k - 1 ==> r[i] == doses[i]
  {
    var r := ToggleTaken(doses, DoseId(k));
    forall i | 0 <= i < |doses| && i != k - 1
      ensures r[i] == doses[i]
    {
      DoseIdInjective(i + 1, k);
    }
  }

  /** Toggling keeps the list well numbered and its times in order. */
  lemma ToggleKeepsShape(doses: seq<Dose>, id: string)
    ensures WellNumbered(doses) ==> WellNumbered(ToggleTaken(doses, id))
    ensures StrictlyIncreasing(doses) ==> StrictlyIncreasing(ToggleTaken(doses, id))
  {
  }

  /** `addManualDose`'s new list: one more dose, numbered after the others,
      one interval after the last dose, or at `now` when there is none. */
  function WithManualDose(doses: seq<Dose>, intervalHours: int, now: int): (r: seq<Dose>)
    ensures |r| == |doses| + 1 && r[..|doses|] == doses
    ensures r[|doses|].number == |doses| + 1 && r[|doses|].id == DoseId(|doses| + 1) && !r[|doses|].taken
    ensures r[|doses|].dateTime
      == if |doses| == 0 then now else doses[|doses| - 1].dateTime + intervalHours * MS_PER_HOUR
  {
    var newDateTime := if |doses| > 0 then doses[|doses| - 1].dateTime + intervalHours * 60 * 60 * 1000 else now;
    doses + [Dose(DoseId(|doses| + 1), |doses| + 1, newDateTime, false)]
  }

  /** `removeLastDose`'s new list: `slice(0, -1)`, all doses but the last. */
  function WithoutLastDose(doses: seq<Dose>): (r: seq<Dose>)
    ensures |doses| == 0 ==> r == []
    ensures |doses| > 0 ==> |r| == |doses| - 1 && r + [doses[|doses| - 1]] == doses
  {
    if |doses| == 0 then [] else doses[..|doses| - 1]
  }

  /** Removing undoes adding. */
  lemma RemoveUndoesAdd(doses: seq<Dose>, intervalHours: int, now: int)
    ensures WithoutLastDose(WithManualDose(doses, intervalHours, now)) == doses
  {
  }

  /** Adding and removing keep the list well numbered. */
  lemma AddRemoveKeepNumbering(doses: seq<Dose>, intervalHours: int, now: int)
    requires WellNumbered(doses)
    ensures WellNumbered(WithManualDose(doses, intervalHours, now))
    ensures WellNumbered(WithoutLastDose(doses))
  {
    var r := WithManualDose(doses, intervalHours, now);
    forall i | 0 <= i < |r|
      ensures r[i].number == i + 1 && r[i].id == DoseId(i + 1)
    {
      if i < |doses| {
        assert r[i] == r[..|doses|][i];
      }
    }
    if |doses| > 0 {
      var w := WithoutLastDose(doses);
      forall i | 0 <= i < |w|
        ensures w[i] == doses[i]
      {
        assert w[i] == (w + [doses[|doses| - 1]])[i];
      }
    }
  }

  /** With a positive interval, adding keeps the times in order, and removing
      always does. */
  lemma AddRemoveKeepOrder(doses: seq<Dose>, intervalHours: int, now: int)
    requires StrictlyIncreasing(doses)
    ensures intervalHours > 0 ==> StrictlyIncreasing(WithManualDose(doses, intervalHours, now))
    ensures StrictlyIncreasing(WithoutLastDose(doses))
  {
    var r := WithManualDose(doses, intervalHours, now);
    assert forall i :: 0 <= i < |doses| ==> r[i] == doses[i];
  }

  /** A manual dose after a generated schedule is the schedule's next dose,
      and removing the last dose gives the schedule one dose shorter. */
  lemma {:induction false} ManualDoseExtendsSeries(start: int, intervalHours: int, count: nat, now: int)
    requires count > 0
    ensures WithManualDose(Series(start, intervalHours, count), intervalHours, now)
      == Series(start, intervalHours, count + 1)
    ensures WithoutLastDose(Series(start, intervalHours, count)) == Series(start, intervalHours, count - 1)
  {
    var s := Series(start, intervalHours, count);
    SeriesAt(start, intervalHours, count, count - 1);
    MulStep(count - 1, intervalHours * MS_PER_HOUR);
    assert s[count - 1].dateTime + intervalHours * MS_PER_HOUR
      == start + count * (intervalHours * MS_PER_HOUR);
  }

  /** All fields of the store at one moment. */
  datatype StoreState = StoreState(
    medicationName: string,
    patientName: string,
    startDate: string,
    startTime: string,
    intervalHours: int,
    durationType: DurationType,
    durationValue: int,
    doses: seq<Dose>,
    use24h: bool,
    theme: Theme,
    language: Language,
    storage: map<string, string>,
    darkClass: bool)

  class Store {
    var medicationName: string
    var patientName: string
    var startDate: string
    var startTime: string
    var intervalHours: int
    var durationType: DurationType
    var durationValue: int
    var doses: seq<Dose>
    var use24h: bool
    var theme: Theme
    var language: Language
    /** The browser's local storage. */
    var storage: map<string, string>
    /** Whether the document element carries the `dark` class. */
    var darkClass: bool

    function State(): StoreState
      reads this
    {
      StoreState(medicationName, patientName, startDate, startTime, intervalHours, durationType,
                 durationValue, doses, use24h, theme, language, storage, darkClass)
    }

    /** The dose list is numbered by position. */
    predicate Valid()
      reads this
    {
      WellNumbered(doses)
    }

    /** The store as created at time `now`, with the given local storage,
        colour-scheme preference and document class. */
    constructor(now: int, browser: bool, storage: map<string, string>, prefersDark: bool, darkClass: bool)
      ensures State() == StoreState("", "", TodayDate(now), CurrentTime(now), 8, Days, 5, [],
        InitialUse24h(browser, GetItem(storage, USE24H_KEY)),
        InitialTheme(browser, GetItem(storage, THEME_KEY), prefersDark),
        InitialLanguage(browser, GetItem(storage, LANGUAGE_KEY)),
        storage, darkClass)
      ensures Valid()
    {
      medicationName := "";
      patientName := "";
      startDate := TodayDate(now);
      startTime := CurrentTime(now);
      intervalHours := 8;
      durationType := Days;
      durationValue := 5;
      doses := [];
      use24h := InitialUse24h(browser, GetItem(storage, USE24H_KEY));
      theme := InitialTheme(browser, GetItem(storage, THEME_KEY), prefersDark);
      language := InitialLanguage(browser, GetItem(storage, LANGUAGE_KEY));
      this.storage := storage;
      this.darkClass := darkClass;
    }

    method SetMedicationName(name: string)
      modifies this
      ensures State() == old(State()).(medicationName := name)
    {
      medicationName := name;
    }

    method SetPatientName(name: string)
      modifies this
      ensures State() == old(State()).(patientName := name)
    {
      patientName := name;
    }

    method SetStartDate(date: string)
      modifies this
      ensures State() == old(State()).(startDate := date)
    {
      startDate := date;
    }

    method SetStartTime(time: string)
      modifies this
      ensures State() == old(State()).(startTime := time)
    {
      startTime := time;
    }

    method SetIntervalHours(hours: int)
      modifies this
      ensures State() == old(State()).(intervalHours := hours)
    {
      intervalHours := hours;
    }

    method SetDurationType(durationType: DurationType)
      modifies this
      ensures State() == old(State()).(durationType := durationType)
    {
      this.durationType := durationType;
    }

    method SetDurationValue(value: int)
      modifies this
      ensures State() == old(State()).(durationValue := value)
    {
      durationValue := value;
    }

    /** `generateDoses`: the schedule of the current form fields replaces the
        dose list. */
    method GenerateDoses()
      modifies this
      ensures State() == old(State()).(doses := Schedule(ScheduleInput(
        old(startDate), old(startTime), old(intervalHours), old(durationType), old(durationValue))))
      ensures Valid() && StrictlyIncreasing(doses)
    {
      var input := ScheduleInput(startDate, startTime, intervalHours, durationType, durationValue);
      doses := GenerateSchedule(input);
    }

    method ToggleDoseTaken(id: string)
      modifies this
      ensures State() == old(State()).(doses := ToggleTaken(old(doses), id))
      ensures old(Valid()) ==> Valid()
    {
      doses := ToggleTaken(doses, id);
      ToggleKeepsShape(old(doses), id);
    }

    /** `addManualDose`, with `now` the current time. */
    method AddManualDose(now: int)
      modifies this
      ensures State() == old(State()).(doses := WithManualDose(old(doses), old(intervalHours), now))
      ensures old(Valid()) ==> Valid()
    {
      if Valid() {
        AddRemoveKeepNumbering(doses, intervalHours, now);
      }
      doses := WithManualDose(doses, intervalHours, now);
    }

    method RemoveLastDose()
      modifies this
      ensures State() == old(State()).(doses := WithoutLastDose(old(doses)))
      ensures old(Valid()) ==> Valid()
    {
      if Valid() {
        AddRemoveKeepNumbering(doses, intervalHours, 0);
      }
      doses := WithoutLastDose(doses);
    }

    /** `setUse24h`: stores "true" or "false" and sets the field; the loader
        then reads the new value back. */
    method SetUse24h(use24h: bool)
      modifies this
      ensures State() == old(State()).(use24h := use24h, storage := old(storage)[USE24H_KEY := BoolString(use24h)])
      ensures InitialUse24h(true, GetItem(storage, USE24H_KEY)) == use24h
    {
      storage := storage[USE24H_KEY := BoolString(use24h)];
      this.use24h := use24h;
    }

    /** `setTheme`: stores the theme name, adds or removes the `dark` class,
        and sets the field; the loader then reads the new theme back whatever
        the colour-scheme preference. */
    method SetTheme(theme: Theme)
      modifies this
      ensures State() == old(State()).(theme := theme, darkClass := theme == Dark,
        storage := old(storage)[THEME_KEY := ThemeName(theme)])
      ensures forall prefersDark: bool :: InitialTheme(true, GetItem(storage, THEME_KEY), prefersDark) == theme
    {
      storage := storage[THEME_KEY := ThemeName(theme)];
      if theme == Dark {
        darkClass := true;
      } else {
        darkClass := false;
      }
      this.theme := theme;
      forall prefersDark: bool
        ensures InitialTheme(true, GetItem(storage, THEME_KEY), prefersDark) == theme
      {
        SettingsRoundTrip(false, theme, En, prefersDark);
      }
    }

    /** `setLanguage`: stores the language tag and sets the field; the loader
        then reads the new language back. */
    method SetLanguage(language: Language)
      modifies this
      ensures State() == old(State()).(language := language, storage := old(storage)[LANGUAGE_KEY := LanguageTag(language)])
      ensures InitialLanguage(true, GetItem(storage, LANGUAGE_KEY)) == language
    {
      storage := storage[LANGUAGE_KEY := LanguageTag(language)];
      this.language := language;
      SettingsRoundTrip(false, Light, language, false);
    }
  }
}
