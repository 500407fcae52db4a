/** The display formatters: date-fns `format` with the patterns
    `MMM dd, yyyy`, `HH:mm`, `hh:mm a` and `MMM dd, hh:mm a`, in the English
    (United States) or the Spanish locale. A date is a local instant (see
    Calendar); each formatter renders the local fields of the instant, and
    the lemmas are stated over those fields. */
module DateFormat {
  import opened Wrappers
  import opened Text
  import opened Calendar

  /** The two date-fns locales the application ships. */
  datatype Locale = EnUS | Es

  /** `language === 'es' ? es : enUS`: only the exact tag `es` selects
      Spanish, every other tag falls back to English. */
  function LocaleFor(language: string): (locale: Locale)
    ensures locale == Es <==> language == "es"
  {
    if language == "es" then Es else EnUS
  }

  /** The abbreviated month names (`MMM`) of each locale, as the date-fns
      `enUS` and `es` locales write them. */
  const EN_MONTHS: seq<string> := ["Jan", "Feb", "Mar", "Apr", "May", "Jun", "Jul", "Aug", "Sep", "Oct", "Nov", "Dec"]
  const ES_MONTHS: seq<string> := ["ene", "feb", "mar", "abr", "may", "jun", "jul", "ago", "sep", "oct", "nov", "dic"]

  /** `MMM` for a month 1..12. */
  function MonthAbbrev(locale: Locale, month: int): string
    requires 1 <= month <= 12
  {
    if locale == Es then ES_MONTHS[month - 1] else EN_MONTHS[month - 1]
  }

  /** `a`: the abbreviated day period of each locale (the `es` locale of
      date-fns abbreviates it as `AM`/`PM` as well). */
  function DayPeriod(locale: Locale, pm: bool): string {
    match locale
    case EnUS => if pm then "PM" else "AM"
    case Es => if pm then "PM" else "AM"
  }

  /** `yyyy`: the year of the era, so the year 0 is 1 BC and renders as
      `0001`. */
  function YearOfEra(year: int): (y: nat)
    ensures y >= 1
  {
    if year > 0 then year else 1 - year
  }

  /** `hh`: the hour on the twelve-hour clock, 12 for midnight and noon. */
  function Hour12(hour: int): int
    requires 0 <= hour < 24
  {
    if hour % 12 == 0 then 12 else hour % 12
  }

  /** `MMM dd, yyyy` of a set of local fields. */
  function DateText(f: DateTime, locale: Locale): string
    requires ValidDateTime(f)
  {
    DateLine(MonthAbbrev(locale, f.date.month), f)
  }

  /** `MMM dd, yyyy` with the month name `m`. */
  function DateLine(m: string, f: DateTime): string
    requires ValidDateTime(f)
  {
    m + " " + Pad2(f.date.day) + ", " + PadStart(NatToString(YearOfEra(f.date.year)), 4, '0')
  }

  /** `HH:mm`. */
  function Clock24(f: DateTime): string
    requires ValidDateTime(f)
  {
    Pad2(f.hour) + ":" + Pad2(f.minute)
  }

  /** `hh:mm a`. */
  function Clock12(f: DateTime, locale: Locale): string
    requires ValidDateTime(f)
  {
    Pad2(Hour12(f.hour)) + ":" + Pad2(f.minute) + " " + DayPeriod(locale, f.hour >= 12)
  }

  /** `MMM dd, hh:mm a`. */
  function EstimatedEndText(f: DateTime, locale: Locale): string
    requires ValidDateTime(f)
  {
    EndLine(MonthAbbrev(locale, f.date.month), f, locale)
  }

  /** `MMM dd, hh:mm a` with the month name `m`. */
  function EndLine(m: string, f: DateTime, locale: Locale): string
    requires ValidDateTime(f)
  {
    m + " " + Pad2(f.date.day) + ", " + Clock12(f, locale)
  }

  /** `formatDate(date, language)`: the month name of the language, then the
      two-digit day and, for a year of the era below 10000, the four-digit
      year, all reading back as the local fields of the instant. */
  function FormatDate(t: int, language: string): (text: string)
    ensures var f, m := LocalFields(t), MonthAbbrev(LocaleFor(language), LocalFields(t).date.month);
      |text| >= |m| + 9 && text[..|m|] == m && ToNumber(text[|m| + 1..|m| + 3]) == Some(f.date.day)
      && (YearOfEra(f.date.year) <= 9999 ==>
            |text| == |m| + 9 && ToNumber(text[|m| + 5..]) == Some(YearOfEra(f.date.year)))
  {
    var f := LocalFields(t);
    DateLineBounds(MonthAbbrev(LocaleFor(language), f.date.month), f);
    DateText(f, LocaleFor(language))
  }

  /** `formatTime(date, use24h)`: `HH:mm` reads back as the local hour and
      minute; `hh:mm a` as the twelve-hour hour, the minute and the English
      day period, since no locale is passed. */
  function FormatTime(t: int, use24h: bool): (text: string)
    ensures var f := LocalFields(t);
      use24h ==> (|text| == 5 && text[2] == ':'
        && ToNumber(text[..2]) == Some(f.hour) && ToNumber(text[3..]) == Some(f.minute))
    ensures var f := LocalFields(t);
      !use24h ==> (|text| > 6 && text[2] == ':' && text[5] == ' '
        && ToNumber(text[..2]) == Some(Hour12(f.hour)) && ToNumber(text[3..5]) == Some(f.minute)
        && text[6..] == DayPeriod(EnUS, f.hour >= 12))
  {
    var f := LocalFields(t);
    Clock24ReadBack(f);
    Clock12ReadBack(f, EnUS);
    if use24h then Clock24(f) else Clock12(f, EnUS)
  }

  /** `formatDateForPdf`: the same locale choice and pattern as `formatDate`. */
  function FormatDateForPdf(t: int, language: string): (text: string)
    ensures text == FormatDate(t, language)
  {
    DateText(LocalFields(t), LocaleFor(language))
  }

  /** `formatTimeForPdf` delegates to `formatTime`. */
  function FormatTimeForPdf(t: int, use24h: bool): (text: string)
    ensures text == FormatTime(t, use24h)
  {
    FormatTime(t, use24h)
  }

  /** `formatEstimatedEnd(date, language)`: the month and day of
      `formatDate`, then the twelve-hour clock of the language; for any
      language but Spanish that clock is `formatTime` on twelve hours. */
  function FormatEstimatedEnd(t: int, language: string): (text: string)
    ensures var k := |MonthAbbrev(LocaleFor(language), LocalFields(t).date.month)| + 5;
      |FormatDate(t, language)| >= k
      && text == FormatDate(t, language)[..k] + Clock12(LocalFields(t), LocaleFor(language))
      && (language != "es" ==> text == FormatDate(t, language)[..k] + FormatTime(t, false))
  {
    var f := LocalFields(t);
    EndLineParts(MonthAbbrev(LocaleFor(language), f.date.month), f, LocaleFor(language));
    EstimatedEndText(f, LocaleFor(language))
  }

  /** Month names are three or four letters: no digit, no space. */
  lemma MonthNameLetters(locale: Locale, month: int)
    requires 1 <= month <= 12
    ensures 3 <= |MonthAbbrev(locale, month)| <= 4
    ensures forall i :: 0 <= i < |MonthAbbrev(locale, month)| ==>
      !IsDigit(MonthAbbrev(locale, month)[i]) && MonthAbbrev(locale, month)[i] != ' '
  {
  }

  /** The twelve-hour hour is 1..12, and with the day period it gives the
      hour back. */
  lemma Hour12RoundTrip(hour: int)
    requires 0 <= hour < 24
    ensures 1 <= Hour12(hour) <= 12
    ensures Hour12(hour) % 12 + (if hour >= 12 then 12 else 0) == hour
  {
  }

  /** The two day periods of a locale differ. */
  lemma DayPeriodsDiffer(locale: Locale)
    ensures DayPeriod(locale, true) != DayPeriod(locale, false)
  {
    assert DayPeriod(locale, true)[0] != DayPeriod(locale, false)[0];
  }

  /** `HH:mm` is five characters: the hour and the minute, two digits each,
      around a colon. */
  lemma Clock24ReadBack(f: DateTime)
    requires ValidDateTime(f)
    ensures var r := Clock24(f);
      |r| == 5 && r[2] == ':' && ToNumber(r[..2]) == Some(f.hour) && ToNumber(r[3..]) == Some(f.minute)
  {
    var hs, ms := Pad2(f.hour), Pad2(f.minute);
    Pad2Value(f.hour);
    Pad2Value(f.minute);
    var r := hs + ":" + ms;
    assert r[..2] == hs && r[3..] == ms;
  }

  /** `hh:mm a`: the twelve-hour hour and the minute, two digits each, a
      space and the day period. */
  lemma Clock12ReadBack(f: DateTime, locale: Locale)
    requires ValidDateTime(f)
    ensures var r := Clock12(f, locale);
      |r| > 6 && r[2] == ':' && r[5] == ' '
      && ToNumber(r[..2]) == Some(Hour12(f.hour)) && ToNumber(r[3..5]) == Some(f.minute)
      && r[6..] == DayPeriod(locale, f.hour >= 12)
  {
    var hs, ms := Pad2(Hour12(f.hour)), Pad2(f.minute);
    assert |hs| == 2 && ToNumber(hs) == Some(Hour12(f.hour)) by { Pad2Value(Hour12(f.hour)); }
    assert |ms| == 2 && ToNumber(ms) == Some(f.minute) by { Pad2Value(f.minute); }
    ClockLayout(hs, ms, DayPeriod(locale, f.hour >= 12));
  }

  /** Where the pieces of `hh:mm a` sit. */
  lemma ClockLayout(hs: string, ms: string, period: string)
    requires |hs| == 2 && |ms| == 2
    ensures var r := hs + ":" + ms + " " + period;
      |r| == 6 + |period| && r[..2] == hs && r[2] == ':' && r[3..5] == ms && r[5] == ' ' && r[6..] == period
  {
  }

  /** Both clocks show the time to the minute: equal texts mean equal hours
      and minutes. */
  lemma ClocksDetermineTime(f: DateTime, g: DateTime, locale: Locale)
    requires ValidDateTime(f) && ValidDateTime(g)
    ensures Clock24(f) == Clock24(g) ==> f.hour == g.hour && f.minute == g.minute
    ensures Clock12(f, locale) == Clock12(g, locale) ==> f.hour == g.hour && f.minute == g.minute
  {
    if Clock24(f) == Clock24(g) {
      Clock24ReadBack(f);
      Clock24ReadBack(g);
    }
    if Clock12(f, locale) == Clock12(g, locale) {
      Clock12ReadBack(f, locale);
      Clock12ReadBack(g, locale);
      assert Hour12(f.hour) == Hour12(g.hour) && f.minute == g.minute;
      DayPeriodsDiffer(locale);
      assert (f.hour >= 12) == (g.hour >= 12);
      Hour12RoundTrip(f.hour);
      Hour12RoundTrip(g.hour);
    }
  }

  /** `MMM dd, yyyy` for a year of the era below 10000: the month name, a
      space, the two-digit day, a comma and a space, and the four-digit year. */
  lemma DateLineReadBack(m: string, f: DateTime)
    requires ValidDateTime(f) && YearOfEra(f.date.year) <= 9999
    ensures var r := DateLine(m, f);
      |r| == |m| + 9 && r[..|m|] == m && r[|m|] == ' '
      && ToNumber(r[|m| + 1..|m| + 3]) == Some(f.date.day) && r[|m| + 3..|m| + 5] == ", "
      && ToNumber(r[|m| + 5..]) == Some(YearOfEra(f.date.year))
  {
    var y := YearOfEra(f.date.year);
    Pad2Value(f.date.day);
    YearDigits(y);
    DateLayout(m, Pad2(f.date.day), PadStart(NatToString(y), 4, '0'));
  }

  /** `MMM dd, yyyy` for any year: the month name, a space, the two-digit
      day and at least `, ` and four year characters; below 10000 the year
      reads back. */
  lemma DateLineBounds(m: string, f: DateTime)
    requires ValidDateTime(f)
    ensures var r := DateLine(m, f);
      |r| >= |m| + 9 && r[..|m|] == m && ToNumber(r[|m| + 1..|m| + 3]) == Some(f.date.day)
      && (YearOfEra(f.date.year) <= 9999 ==>
            |r| == |m| + 9 && ToNumber(r[|m| + 5..]) == Some(YearOfEra(f.date.year)))
  {
    if YearOfEra(f.date.year) <= 9999 {
      DateLineReadBack(m, f);
    } else {
      var ds, ys := Pad2(f.date.day), PadStart(NatToString(YearOfEra(f.date.year)), 4, '0');
      Pad2Value(f.date.day);
      DateLayout(m, ds, ys);
    }
  }

  /** `yyyy` of a year of the era below 10000 is four digits that read back
      as the year. */
  lemma YearDigits(y: nat)
    requires y <= 9999
    ensures var ys := PadStart(NatToString(y), 4, '0');
      |ys| == 4 && ToNumber(ys) == Some(y)
  {
    NatToStringBelow(y);
    NatToStringRoundTrip(y);
    PadZerosValue(NatToString(y), 4);
  }

  /** Where the pieces of `MMM dd, yyyy` sit. */
  lemma DateLayout(m: string, ds: string, ys: string)
    requires |ds| == 2 && |ys| >= 4
    ensures var r := m + " " + ds + ", " + ys;
      |r| == |m| + 5 + |ys| && r[..|m|] == m && r[|m|] == ' ' && r[|m| + 1..|m| + 3] == ds
      && r[|m| + 3..|m| + 5] == ", " && r[|m| + 5..] == ys
  {
  }

  /** A number below 10000 has at most four digits. */
  lemma NatToStringBelow(n: nat)
    requires n <= 9999
    ensures |NatToString(n)| <= 4
  {
    assert |NatToString(n / 1000)| == 1;
    assert |NatToString(n / 100)| <= 2 by { assert n / 100 / 10 == n / 1000; }
    assert |NatToString(n / 10)| <= 3 by { assert n / 10 / 10 == n / 100; }
  }

  /** The estimated end shares the month and day of `formatDate` and puts the
      twelve-hour clock where the year would be. */
  lemma EndLineParts(m: string, f: DateTime, locale: Locale)
    requires ValidDateTime(f)
    ensures |DateLine(m, f)| >= |m| + 5
      && EndLine(m, f, locale) == DateLine(m, f)[..|m| + 5] + Clock12(f, locale)
  {
    Pad2Value(f.date.day);
    var head := m + " " + Pad2(f.date.day) + ", ";
    assert DateLine(m, f)[..|m| + 5] == head;
  }

  /** 14:30 shows as `14:30` on the 24-hour clock and as `02:30 PM` on the
      English twelve-hour clock; the Spanish one differs only in its day
      period. */
  lemma HalfPastTwoPm(f: DateTime)
    requires ValidDateTime(f) && f.hour == 14 && f.minute == 30
    ensures Clock24(f) == "14:30"
    ensures Clock12(f, EnUS) == "02:30 PM" && Clock12(f, Es) == "02:30 " + DayPeriod(Es, true)
  {
    PadIs(f.hour, "14");
    PadIs(Hour12(f.hour), "02");
    PadIs(f.minute, "30");
    ClockLiterals(Pad2(f.hour), Pad2(Hour12(f.hour)), Pad2(f.minute), DayPeriod(Es, true));
  }

  /** 08:00 shows as `08:00 AM` on the English twelve-hour clock. */
  lemma EightAm(f: DateTime)
    requires ValidDateTime(f) && f.hour == 8 && f.minute == 0
    ensures Clock12(f, EnUS) == "08:00 AM"
  {
    PadIs(Hour12(f.hour), "08");
    PadIs(f.minute, "00");
    MorningLiterals(Pad2(Hour12(f.hour)), Pad2(f.minute));
  }

  lemma PadIs(n: nat, text: string)
    requires (n == 0 && text == "00") || (n == 2 && text == "02") || (n == 8 && text == "08")
      || (n == 14 && text == "14") || (n == 15 && text == "15") || (n == 30 && text == "30")
    ensures Pad2(n) == text
  {
    ExamplePads();
  }

  lemma ExamplePads()
    ensures Pad2(14) == "14" && Pad2(30) == "30" && Pad2(2) == "02" && Pad2(15) == "15"
    ensures Pad2(0) == "00" && Pad2(8) == "08"
  {
    Pad2OneDigit(2);
    Pad2OneDigit(0);
    Pad2OneDigit(8);
    assert NatToString(14) == "14" && NatToString(30) == "30" && NatToString(15) == "15";
  }

  lemma ClockLiterals(h: string, h12: string, m: string, p: string)
    requires h == "14" && h12 == "02" && m == "30"
    ensures h + ":" + m == "14:30"
    ensures h12 + ":" + m + " " + "PM" == "02:30 PM" && h12 + ":" + m + " " + p == "02:30 " + p
  {
  }

  lemma MorningLiterals(h12: string, m: string)
    requires h12 == "08" && m == "00"
    ensures h12 + ":" + m + " " + "AM" == "08:00 AM"
  {
  }

  /** January 15, 2024 at 14:30 shows as `Jan 15, 2024` and `ene 15, 2024`. */
  lemma MidJanuary(f: DateTime)
    requires ValidDateTime(f) && f.date == Date(2024, 1, 15) && f.hour == 14 && f.minute == 30
    ensures DateText(f, EnUS) == "Jan 15, 2024" && DateText(f, Es) == "ene 15, 2024"
  {
    PadIs(f.date.day, "15");
    YearExample();
    HalfPastTwoPm(f);
    JanuaryNames();
    DateLiterals(Pad2(f.date.day), PadStart(NatToString(YearOfEra(f.date.year)), 4, '0'),
      Clock12(f, EnUS), DayPeriod(Es, true), Clock12(f, Es));
  }

  /** The same instant as an estimated end: `Jan 15, 02:30 PM`, or
      `ene 15, 02:30 ` and the Spanish day period. */
  lemma MidJanuaryEnd(f: DateTime)
    requires ValidDateTime(f) && f.date == Date(2024, 1, 15) && f.hour == 14 && f.minute == 30
    ensures EstimatedEndText(f, EnUS) == "Jan 15, 02:30 PM"
      && EstimatedEndText(f, Es) == "ene 15, 02:30 " + DayPeriod(Es, true)
  {
    PadIs(f.date.day, "15");
    YearExample();
    HalfPastTwoPm(f);
    JanuaryNames();
    DateLiterals(Pad2(f.date.day), PadStart(NatToString(YearOfEra(f.date.year)), 4, '0'),
      Clock12(f, EnUS), DayPeriod(Es, true), Clock12(f, Es));
  }

  lemma YearExample()
    ensures PadStart(NatToString(YearOfEra(2024)), 4, '0') == "2024"
  {
    assert NatToString(2024) == "2024";
  }

  lemma DateLiterals(d: string, y: string, c: string, p: string, e: string)
    requires d == "15" && y == "2024" && c == "02:30 PM" && e == "02:30 " + p
    ensures "Jan" + " " + d + ", " + y == "Jan 15, 2024" && "ene" + " " + d + ", " + y == "ene 15, 2024"
    ensures "Jan" + " " + d + ", " + c == "Jan 15, 02:30 PM" && "ene" + " " + d + ", " + e == "ene 15, 02:30 " + p
  {
  }

  /** January is `Jan` in English and `ene` in Spanish. */
  lemma JanuaryNames()
    ensures MonthAbbrev(EnUS, 1) == "Jan" && MonthAbbrev(Es, 1) == "ene"
  {
  }
}
