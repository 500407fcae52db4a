/** Calendar export of a dose schedule: an iCalendar document with one event
    and a five-minute reminder per dose (floating local times), and Google
    Calendar and Outlook links for the first dose (UTC times). Each event
    lasts fifteen minutes. The time-zone offset is a parameter: `offsetMinutes`
    is what `getTimezoneOffset()` returns, so UTC = local + offsetMinutes. The
    `Date.now()` stamp of the event UIDs is the parameter `stamp`. */
module CalendarExport {
  import opened Wrappers
  import opened Text
  import opened Calendar
  import opened DoseCalculator
  import opened UriEncoding

  const CRLF: string := "\r\n"

  /** The pill emoji that opens every event title. */
  const PILL: string := "\U{1F48A}"

  /** How long each event lasts. */
  const EVENT_MS: int := 15 * 60 * 1000

  /** The end of the event for a dose at `t`: fifteen minutes later. */
  function EventEnd(t: int): (e: int)
    ensures e - t == 15 * MS_PER_MINUTE
  {
    t + EVENT_MS
  }

  /** The event description: the medication, then the patient when one is
      named, then the dose number, separated by `nl` (the two characters `\n`
      inside an iCalendar TEXT value, a real line feed in a link). */
  function EventText(medicationName: string, patientName: string, number: int, nl: string): string {
    ("Medication: " + medicationName) + PatientLine(patientName, nl) + (nl + DoseLabel(number))
  }

  /** The line break and `Patient: <name>`, or nothing without a patient. */
  function PatientLine(patientName: string, nl: string): string {
    if patientName != "" then nl + ("Patient: " + patientName) else ""
  }

  /** `Dose #<number>`. */
  function DoseLabel(number: int): string {
    "Dose #" + IntToString(number)
  }

  /** The escaped line break of iCalendar TEXT values. */
  const ICS_NL: string := "\\n"

  /** Without a patient the description is the medication line followed
      directly by the dose line, and nothing after the medication name holds
      a `P` (so there is no `Patient`) whenever the line break holds none. */
  lemma EventTextWithoutPatient(medicationName: string, number: int, nl: string)
    requires 'P' !in nl
    ensures EventText(medicationName, "", number, nl) == ("Medication: " + medicationName) + (nl + DoseLabel(number))
    ensures 'P' !in nl + DoseLabel(number)
  {
    NoLetterInNumber(number);
    assert 'P' !in "Dose #";
  }

  /** The description names the patient when there is one and always holds
      the dose number. */
  lemma EventTextContents(medicationName: string, patientName: string, number: int, nl: string)
    ensures patientName != "" ==> Contains(EventText(medicationName, patientName, number, nl), "Patient: " + patientName)
    ensures Contains(EventText(medicationName, patientName, number, nl), DoseLabel(number))
  {
    var head := ("Medication: " + medicationName) + PatientLine(patientName, nl);
    ContainsSelf(DoseLabel(number));
    ContainsRight(nl, DoseLabel(number), DoseLabel(number));
    ContainsRight(head, nl + DoseLabel(number), DoseLabel(number));
    if patientName != "" {
      var p := "Patient: " + patientName;
      ContainsSelf(p);
      ContainsRight(nl, p, p);
      ContainsRight("Medication: " + medicationName, PatientLine(patientName, nl), p);
      ContainsLeft(head, p, nl + DoseLabel(number));
    }
  }

  /** A rendered integer holds only digits and perhaps a minus sign. */
  lemma NoLetterInNumber(number: int)
    ensures 'P' !in IntToString(number)
  {
    NatToStringShape(if number >= 0 then number else -number);
  }

  /** `formatIcsDate` of an instant: its local fields rendered; for a
      four-digit year, fifteen characters that read back as the local year,
      month, day, hour, minute and second around the `T`. */
  function FormatIcsDate(t: int): (text: string)
    ensures var f := LocalFields(t);
      1000 <= f.date.year <= 9999 ==>
        (|text| == 15 && text[8] == 'T'
        && ToNumber(text[..4]) == Some(f.date.year) && ToNumber(text[4..6]) == Some(f.date.month)
        && ToNumber(text[6..8]) == Some(f.date.day) && ToNumber(text[9..11]) == Some(f.hour)
        && ToNumber(text[11..13]) == Some(f.minute) && ToNumber(text[13..15]) == Some(f.second))
  {
    var f := LocalFields(t);
    if 1000 <= f.date.year <= 9999 then
      IcsDateReadBack(f);
      IcsDateText(f)
    else
      IcsDateText(f)
  }

  /** The year, the two-digit month and day, `T`, and the two-digit hour,
      minute and second. */
  function IcsDateText(f: DateTime): string
    requires ValidDateTime(f)
  {
    DateDigits(f) + "T" + ClockDigits(f)
  }

  function DateDigits(f: DateTime): string
    requires ValidDateTime(f)
  {
    IntToString(f.date.year) + Pad2(f.date.month) + Pad2(f.date.day)
  }

  function ClockDigits(f: DateTime): string
    requires ValidDateTime(f)
  {
    Pad2(f.hour) + Pad2(f.minute) + Pad2(f.second)
  }

  /** For a four-digit year the iCalendar date-time is fifteen characters
      with `T` at index 8, and its fields read back as the date and time it
      renders. */
  lemma IcsDateReadBack(f: DateTime)
    requires ValidDateTime(f) && 1000 <= f.date.year <= 9999
    ensures var r := IcsDateText(f);
      |r| == 15 && r[8] == 'T'
      && ToNumber(r[..4]) == Some(f.date.year) && ToNumber(r[4..6]) == Some(f.date.month)
      && ToNumber(r[6..8]) == Some(f.date.day) && ToNumber(r[9..11]) == Some(f.hour)
      && ToNumber(r[11..13]) == Some(f.minute) && ToNumber(r[13..15]) == Some(f.second)
  {
    NatToStringFourDigits(f.date.year);
    NatToStringRoundTrip(f.date.year);
    Pad2Value(f.date.month);
    Pad2Value(f.date.day);
    Pad2Value(f.hour);
    Pad2Value(f.minute);
    Pad2Value(f.second);
    IcsFieldsAt(NatToString(f.date.year), Pad2(f.date.month), Pad2(f.date.day),
      Pad2(f.hour), Pad2(f.minute), Pad2(f.second));
  }

  /** The fields of a concatenated date-time sit at fixed offsets. */
  lemma IcsFieldsAt(ys: string, ms: string, ds: string, hs: string, mis: string, ss: string)
    requires |ys| == 4 && |ms| == 2 && |ds| == 2 && |hs| == 2 && |mis| == 2 && |ss| == 2
    ensures var r := (ys + ms + ds) + "T" + (hs + mis + ss);
      |r| == 15 && r[8] == 'T' && r[..4] == ys && r[4..6] == ms && r[6..8] == ds
      && r[9..11] == hs && r[11..13] == mis && r[13..15] == ss
  {
  }

  /** Years 1000..9999 render as four digits. */
  lemma NatToStringFourDigits(n: nat)
    requires 1000 <= n <= 9999
    ensures |NatToString(n)| == 4
  {
    assert |NatToString(n / 1000)| == 1;
    assert |NatToString(n / 100)| == 2 by { assert n / 100 / 10 == n / 1000; }
    assert |NatToString(n / 10)| == 3 by { assert n / 10 / 10 == n / 100; }
  }

  /** The 13 lines of the event for one dose, given its rendered start, end
      and description. */
  function EventLines(dose: Dose, startText: string, endText: string, description: string,
                      medicationName: string, stamp: int): (lines: seq<string>)
    ensures |lines| == 13
  {
    [ "BEGIN:VEVENT",
      "DTSTART:" + startText,
      "DTEND:" + endText,
      "SUMMARY:" + PILL + " " + medicationName + " - " + DoseLabel(dose.number),
      "DESCRIPTION:" + description,
      "UID:medschedule-" + dose.id + "-" + IntToString(stamp) + "@medschedule",
      "STATUS:CONFIRMED",
      "BEGIN:VALARM",
      "TRIGGER:-PT5M",
      "ACTION:DISPLAY",
      "DESCRIPTION:Time to take " + medicationName,
      "END:VALARM",
      "END:VEVENT" ]
  }

  /** The event of one dose: it starts at the dose time and ends fifteen
      minutes later, both in local floating form, and its description breaks
      lines with the escape `\n`. */
  function DoseEvent(dose: Dose, medicationName: string, patientName: string, stamp: int): (lines: seq<string>)
    ensures |lines| == 13
  {
    EventLines(dose, FormatIcsDate(dose.dateTime), FormatIcsDate(EventEnd(dose.dateTime)),
      EventText(medicationName, patientName, dose.number, ICS_NL), medicationName, stamp)
  }

  /** The event of each dose, in dose order (`doses.map`). */
  function Events(doses: seq<Dose>, medicationName: string, patientName: string, stamp: int): (events: seq<seq<string>>)
    ensures |events| == |doses|
    ensures forall i :: 0 <= i < |doses| ==> events[i] == DoseEvent(doses[i], medicationName, patientName, stamp)
    ensures forall i :: 0 <= i < |events| ==> |events[i]| == 13
  {
    seq(|doses|, i requires 0 <= i < |doses| => DoseEvent(doses[i], medicationName, patientName, stamp))
  }

  const ICS_HEADER: seq<string> :=
    ["BEGIN:VCALENDAR", "VERSION:2.0", "PRODID:-//MedSchedule Pro//EN", "CALSCALE:GREGORIAN", "METHOD:PUBLISH"]

  const ICS_FOOTER: string := "END:VCALENDAR"

  /** `generateIcsContent`. */
  function IcsContent(doses: seq<Dose>, medicationName: string, patientName: string, stamp: int): (text: string)
    ensures var first := ICS_HEADER[0] + CRLF;
      |text| >= |first| + |CRLF + ICS_FOOTER| && text[..|first|] == first
      && text[|text| - |CRLF + ICS_FOOTER|..] == CRLF + ICS_FOOTER
  {
    var events := Events(doses, medicationName, patientName, stamp);
    var init := ICS_HEADER + JoinEach(events, CRLF);
    var lines := init + [ICS_FOOTER];
    JoinCons(lines[0], lines[1..], CRLF);
    JoinAppend(init, [ICS_FOOTER], CRLF);
    DocumentEnds(lines[0], Join(lines[1..], CRLF), Join(init, CRLF), CRLF, ICS_FOOTER, IcsDocument(events));
    IcsDocument(events)
  }

  /** A text that starts with `first` and a separator and ends with a
      separator and `last`. */
  lemma DocumentEnds(first: string, rest: string, init: string, sep: string, last: string, text: string)
    requires text == first + sep + rest && text == init + sep + last
    ensures |text| >= |first + sep| && text[..|first + sep|] == first + sep
    ensures |text| >= |sep + last| && text[|text| - |sep + last|..] == sep + last
  {
    assert text == (first + sep) + rest;
    assert text == init + (sep + last);
  }

  /** The header lines, each event's lines joined by CRLF, and the footer,
      all joined by CRLF. */
  function IcsDocument(events: seq<seq<string>>): string {
    Join(ICS_HEADER + JoinEach(events, CRLF) + [ICS_FOOTER], CRLF)
  }

  /** The document is the header, the lines of every event in order and the
      footer, joined by CRLF. */
  lemma IcsDocumentJoin(events: seq<seq<string>>)
    requires forall i :: 0 <= i < |events| ==> |events[i]| == 13
    ensures IcsDocument(events) == Join(ICS_HEADER + Flatten(events) + [ICS_FOOTER], CRLF)
  {
    var flat := Flatten(events);
    var lines := ICS_HEADER + flat + [ICS_FOOTER];
    calc {
      IcsDocument(events);
      { assert ICS_HEADER + JoinEach(events, CRLF) + [ICS_FOOTER] == ICS_HEADER + (JoinEach(events, CRLF) + [ICS_FOOTER]); }
      Join(ICS_HEADER + (JoinEach(events, CRLF) + [ICS_FOOTER]), CRLF);
      { JoinAppend(ICS_HEADER, JoinEach(events, CRLF) + [ICS_FOOTER], CRLF); }
      Join(ICS_HEADER, CRLF) + CRLF + Join(JoinEach(events, CRLF) + [ICS_FOOTER], CRLF);
      { JoinFlatten(events, [ICS_FOOTER], CRLF); }
      Join(ICS_HEADER, CRLF) + CRLF + Join(flat + [ICS_FOOTER], CRLF);
      { JoinAppend(ICS_HEADER, flat + [ICS_FOOTER], CRLF); }
      Join(ICS_HEADER + (flat + [ICS_FOOTER]), CRLF);
      { assert ICS_HEADER + (flat + [ICS_FOOTER]) == lines; }
      Join(lines, CRLF);
    }
  }

  /** The document is its lines joined by CRLF: the five header lines, the
      13 lines of each event in order, and `END:VCALENDAR`. */
  lemma IcsDocumentLines(events: seq<seq<string>>)
    requires forall i :: 0 <= i < |events| ==> |events[i]| == 13
    ensures var lines := ICS_HEADER + Flatten(events) + [ICS_FOOTER];
      IcsDocument(events) == Join(lines, CRLF)
      && |lines| == 6 + 13 * |events|
      && lines[..5] == ICS_HEADER && lines[|lines| - 1] == ICS_FOOTER
      && (forall i, j :: 0 <= i < |events| && 0 <= j < 13 ==> lines[5 + 13 * i + j] == events[i][j])
  {
    var flat := Flatten(events);
    var lines := ICS_HEADER + flat + [ICS_FOOTER];
    IcsDocumentJoin(events);
    assert |lines| == 6 + 13 * |events| by { FlattenLength(events, 13); }
    assert lines[..5] == ICS_HEADER;
    forall i, j | 0 <= i < |events| && 0 <= j < 13
      ensures lines[5 + 13 * i + j] == events[i][j]
    {
      FlattenAt(events, 13, i, j);
    }
  }

  /** The calendar file is its lines joined by CRLF: the header, 13 lines
      per dose and the footer. */
  lemma IcsContentLines(doses: seq<Dose>, medicationName: string, patientName: string, stamp: int)
    ensures var lines := ICS_HEADER + Flatten(Events(doses, medicationName, patientName, stamp)) + [ICS_FOOTER];
      IcsContent(doses, medicationName, patientName, stamp) == Join(lines, CRLF)
      && |lines| == 6 + 13 * |doses|
      && lines[..5] == ICS_HEADER && lines[|lines| - 1] == ICS_FOOTER
  {
    IcsDocumentLines(Events(doses, medicationName, patientName, stamp));
  }

  /** The calendar file holds one event per dose, in dose order: the event of
      dose `i` opens at line 5 + 13 * i and starts at the dose time and ends
      fifteen minutes later. */
  lemma IcsContentEvent(doses: seq<Dose>, medicationName: string, patientName: string, stamp: int, i: nat)
    requires i < |doses|
    ensures var lines := ICS_HEADER + Flatten(Events(doses, medicationName, patientName, stamp)) + [ICS_FOOTER];
      |lines| == 6 + 13 * |doses|
      && lines[5 + 13 * i] == "BEGIN:VEVENT"
      && lines[5 + 13 * i + 1] == "DTSTART:" + FormatIcsDate(doses[i].dateTime)
      && lines[5 + 13 * i + 2] == "DTEND:" + FormatIcsDate(EventEnd(doses[i].dateTime))
      && lines[5 + 13 * i + 12] == "END:VEVENT"
  {
    var events := Events(doses, medicationName, patientName, stamp);
    IcsDocumentLines(events);
    DoseEventFrame(doses[i], medicationName, patientName, stamp);
  }

  lemma DoseEventFrame(dose: Dose, medicationName: string, patientName: string, stamp: int)
    ensures var e := DoseEvent(dose, medicationName, patientName, stamp);
      e[0] == "BEGIN:VEVENT" && e[12] == "END:VEVENT"
      && e[1] == "DTSTART:" + FormatIcsDate(dose.dateTime)
      && e[2] == "DTEND:" + FormatIcsDate(EventEnd(dose.dateTime))
  {
    EventFrame(dose, FormatIcsDate(dose.dateTime), FormatIcsDate(EventEnd(dose.dateTime)),
      EventText(medicationName, patientName, dose.number, ICS_NL), medicationName, stamp);
  }

  /** Each event is 13 lines: it opens with `BEGIN:VEVENT`, closes with
      `END:VEVENT` and nests a reminder `BEGIN:VALARM` ... `END:VALARM` that
      fires five minutes before the start. */
  lemma EventFrame(dose: Dose, startText: string, endText: string, description: string,
                   medicationName: string, stamp: int)
    ensures var lines := EventLines(dose, startText, endText, description, medicationName, stamp);
      lines[0] == "BEGIN:VEVENT" && lines[12] == "END:VEVENT"
      && lines[7] == "BEGIN:VALARM" && lines[8] == "TRIGGER:-PT5M" && lines[11] == "END:VALARM"
      && lines[1] == "DTSTART:" + startText && lines[2] == "DTEND:" + endText
  {
  }

  /** The title names the medication and the dose number. */
  lemma EventSummary(dose: Dose, startText: string, endText: string, description: string,
                     medicationName: string, stamp: int)
    ensures var summary := EventLines(dose, startText, endText, description, medicationName, stamp)[3];
      Contains(summary, medicationName) && Contains(summary, DoseLabel(dose.number))
  {
    var doseLabel := DoseLabel(dose.number);
    var head := "SUMMARY:" + PILL + " ";
    assert EventLines(dose, startText, endText, description, medicationName, stamp)[3]
      == head + medicationName + " - " + doseLabel;
    ContainsConcat(head, medicationName, " - ");
    ContainsLeft(head + medicationName + " - ", medicationName, doseLabel);
    ContainsSelf(doseLabel);
    ContainsRight(head + medicationName + " - ", doseLabel, doseLabel);
  }

  /** The description line is the tagged description: it names the patient
      when there is one, and without one it is the medication line followed
      by the dose line, which holds no `P`. */
  lemma EventDescription(dose: Dose, startText: string, endText: string, medicationName: string,
                         patientName: string, stamp: int)
    ensures var line := EventLines(dose, startText, endText,
        EventText(medicationName, patientName, dose.number, ICS_NL), medicationName, stamp)[4];
      var doseLine := ICS_NL + DoseLabel(dose.number);
      line == "DESCRIPTION:" + EventText(medicationName, patientName, dose.number, ICS_NL)
      && (patientName != "" ==> Contains(line, "Patient: " + patientName))
      && (patientName == "" ==>
            line == "DESCRIPTION:" + ("Medication: " + medicationName) + doseLine && 'P' !in doseLine)
  {
    var description := EventText(medicationName, patientName, dose.number, ICS_NL);
    assert EventLines(dose, startText, endText, description, medicationName, stamp)[4] == "DESCRIPTION:" + description;
    if patientName != "" {
      EventTextContents(medicationName, patientName, dose.number, ICS_NL);
      ContainsRight("DESCRIPTION:", description, "Patient: " + patientName);
    } else {
      EventTextWithoutPatient(medicationName, dose.number, ICS_NL);
    }
  }

  /** `YYYY-MM-DDTHH:mm:ss.sssZ`, with a signed six-digit year outside
      0..9999. */
  function IsoText(f: DateTime): string
    requires ValidDateTime(f)
  {
    IsoDate(f) + "T" + IsoClock(f) + "." + PadStart(NatToString(f.millisecond), 3, '0') + "Z"
  }

  function IsoDate(f: DateTime): string
    requires ValidDateTime(f)
  {
    IsoYear(f.date.year) + "-" + Pad2(f.date.month) + "-" + Pad2(f.date.day)
  }

  function IsoClock(f: DateTime): string
    requires ValidDateTime(f)
  {
    Pad2(f.hour) + ":" + Pad2(f.minute) + ":" + Pad2(f.second)
  }

  function IsoYear(y: int): string {
    if 0 <= y <= 9999 then PadStart(NatToString(y), 4, '0')
    else (if y < 0 then "-" else "+") + PadStart(NatToString(if y < 0 then -y else y), 6, '0')
  }

  /** `s.replace(/[-:]/g, '')`. */
  function StripDashColon(s: string): (r: string)
    ensures '-' !in r && ':' !in r
    ensures |r| <= |s|
  {
    if s == [] then []
    else (if s[0] == '-' || s[0] == ':' then [] else [s[0]]) + StripDashColon(s[1..])
  }

  /** `s.replace(/\.\d{3}/, '')`: the first `.` followed by three digits is
      removed with them. */
  function RemoveMillis(s: string): (r: string)
    ensures |r| <= |s|
  {
    if |s| >= 4 && s[0] == '.' && AllDigits(s[1..4]) then s[4..]
    else if s == [] then []
    else [s[0]] + RemoveMillis(s[1..])
  }

  /** `formatGoogleDate` of a local instant, given the zone offset: the ISO
      text of the UTC instant with no dash, colon or `&` left in it. */
  function FormatGoogleDate(t: int, offsetMinutes: int): (text: string)
    ensures '&' !in text && '-' !in text && ':' !in text
  {
    var f := LocalFields(t + offsetMinutes * MS_PER_MINUTE);
    GoogleDateSafe(f);
    RemoveMillisAbsent(StripDashColon(IsoText(f)), '-');
    RemoveMillisAbsent(StripDashColon(IsoText(f)), ':');
    GoogleDate(f)
  }

  /** The ISO string of the UTC fields without separators and milliseconds. */
  function GoogleDate(f: DateTime): string
    requires ValidDateTime(f)
  {
    RemoveMillis(StripDashColon(IsoText(f)))
  }

  lemma {:induction false} StripConcat(a: string, b: string)
    ensures StripDashColon(a + b) == StripDashColon(a) + StripDashColon(b)
    decreases |a|
  {
    if a != [] {
      assert (a + b)[0] == a[0] && (a + b)[1..] == a[1..] + b;
      StripConcat(a[1..], b);
    } else {
      assert a + b == b;
    }
  }

  lemma {:induction false} StripKeeps(s: string)
    requires '-' !in s && ':' !in s
    ensures StripDashColon(s) == s
    decreases |s|
  {
    if s != [] {
      StripKeeps(s[1..]);
      assert s == [s[0]] + s[1..];
    }
  }

  lemma {:induction false} RemoveMillisAfter(a: string, ms: string, b: string)
    requires '.' !in a && |ms| == 3 && AllDigits(ms)
    ensures RemoveMillis(a + "." + ms + b) == a + b
    decreases |a|
  {
    var s := a + "." + ms + b;
    if a == [] {
      assert s == "." + ms + b;
      assert s[1..4] == ms && s[4..] == b;
    } else {
      assert s[0] == a[0] && s[1..] == a[1..] + "." + ms + b;
      RemoveMillisAfter(a[1..], ms, b);
      assert a == [a[0]] + a[1..];
    }
  }

  /** Dropping a separator between two strings: the strip of `a`, then of `b`. */
  lemma StripAround(a: string, c: char, b: string)
    requires c == '-' || c == ':'
    ensures StripDashColon(a + [c] + b) == StripDashColon(a) + StripDashColon(b)
  {
    StripConcat(a + [c], b);
    StripConcat(a, [c]);
    assert StripDashColon([c]) == [];
    assert StripDashColon(a) + [] == StripDashColon(a);
  }

  /** Stripping the separators from `a-b-c` or `a:b:c` with digit fields
      joins the digits. */
  lemma StripFields(a: string, b: string, c: string, sep: char)
    requires sep == '-' || sep == ':'
    requires AllDigits(a) && AllDigits(b) && AllDigits(c)
    ensures StripDashColon(a + [sep] + b + [sep] + c) == a + b + c
  {
    calc {
      StripDashColon(a + [sep] + b + [sep] + c);
      { StripAround(a + [sep] + b, sep, c); }
      StripDashColon(a + [sep] + b) + StripDashColon(c);
      { StripAround(a, sep, b); }
      StripDashColon(a) + StripDashColon(b) + StripDashColon(c);
      { StripKeeps(a); StripKeeps(b); StripKeeps(c); }
      a + b + c;
    }
  }

  /** Keeping any other character between two strings. */
  lemma StripBetween(a: string, c: char, b: string)
    requires c != '-' && c != ':'
    ensures StripDashColon(a + [c] + b) == StripDashColon(a) + [c] + StripDashColon(b)
  {
    StripConcat(a + [c], b);
    StripConcat(a, [c]);
    assert StripDashColon([c]) == [c];
  }

  /** The Google form of an ISO string built from a separator-free date and
      clock: the date, `T`, the clock and `Z`. */
  lemma StripIso(isoDate: string, isoClock: string, dateDigits: string, clockDigits: string, millis: string)
    requires StripDashColon(isoDate) == dateDigits && StripDashColon(isoClock) == clockDigits
    requires '.' !in dateDigits && '.' !in clockDigits
    requires AllDigits(millis) && |millis| == 3
    ensures RemoveMillis(StripDashColon(isoDate + "T" + isoClock + "." + millis + "Z"))
      == dateDigits + "T" + clockDigits + "Z"
  {
    calc {
      StripDashColon(isoDate + "T" + isoClock + "." + millis + "Z");
      { StripConcat(isoDate + "T" + isoClock + "." + millis, "Z"); assert StripDashColon("Z") == "Z"; }
      StripDashColon(isoDate + "T" + isoClock + "." + millis) + "Z";
      { StripBetween(isoDate + "T" + isoClock, '.', millis); StripKeeps(millis); }
      StripDashColon(isoDate + "T" + isoClock) + "." + millis + "Z";
      { StripBetween(isoDate, 'T', isoClock); }
      dateDigits + "T" + clockDigits + "." + millis + "Z";
    }
    assert '.' !in dateDigits + "T" + clockDigits;
    RemoveMillisAfter(dateDigits + "T" + clockDigits, millis, "Z");
  }

  /** For a four-digit UTC year the Google date is the iCalendar form of the
      UTC fields followed by `Z`: `YYYYMMDDTHHMMSSZ`. */
  lemma GoogleDateIsUtcIcs(f: DateTime)
    requires ValidDateTime(f) && 1000 <= f.date.year <= 9999
    ensures GoogleDate(f) == IcsDateText(f) + "Z"
  {
    var millis := PadStart(NatToString(f.millisecond), 3, '0');
    IsoDateDigits(f);
    IsoClockDigits(f);
    PadDigits3(f.millisecond);
    StripIso(IsoDate(f), IsoClock(f), DateDigits(f), ClockDigits(f), millis);
  }

  /** The ISO date of a four-digit year without its dashes is the
      iCalendar date. */
  lemma IsoDateDigits(f: DateTime)
    requires ValidDateTime(f) && 1000 <= f.date.year <= 9999
    ensures StripDashColon(IsoDate(f)) == DateDigits(f) && '.' !in DateDigits(f)
  {
    var y := f.date.year;
    assert IsoYear(y) == IntToString(y) by {
      NatToStringFourDigits(y);
      PadStartNoop(NatToString(y), 4, '0');
    }
    NatToStringShape(y);
    PadDigits(f.date.month);
    PadDigits(f.date.day);
    StripFields(IntToString(y), Pad2(f.date.month), Pad2(f.date.day), '-');
    NoDotInDigits(DateDigits(f));
  }

  /** The ISO clock without its colons is the iCalendar clock. */
  lemma IsoClockDigits(f: DateTime)
    requires ValidDateTime(f)
    ensures StripDashColon(IsoClock(f)) == ClockDigits(f) && '.' !in ClockDigits(f)
  {
    PadDigits(f.hour);
    PadDigits(f.minute);
    PadDigits(f.second);
    StripFields(Pad2(f.hour), Pad2(f.minute), Pad2(f.second), ':');
    NoDotInDigits(ClockDigits(f));
  }

  lemma PadDigits(n: nat)
    ensures AllDigits(Pad2(n))
  {
    NatToStringShape(n);
  }

  lemma PadDigits3(n: nat)
    requires n < 1000
    ensures AllDigits(PadStart(NatToString(n), 3, '0')) && |PadStart(NatToString(n), 3, '0')| == 3
  {
    NatToStringShape(n);
    NatToStringShape(n / 10);
    NatToStringShape(n / 100);
  }

  lemma NoDotInDigits(s: string)
    requires AllDigits(s)
    ensures '.' !in s
  {
  }

  /** Every character of an ISO string is a digit or one of `-:T.Z+`; in
      particular there is no `&`. */
  lemma IsoTextSafe(f: DateTime)
    requires ValidDateTime(f)
    ensures '&' !in IsoText(f)
  {
    var y := f.date.year;
    assert '&' !in IsoYear(y) by {
      var n: nat := if y < 0 then -y else y;
      NatToStringShape(n);
      PadKeepsDigits(NatToString(n), 4);
      PadKeepsDigits(NatToString(n), 6);
      DigitsWithoutAmp(PadStart(NatToString(n), 4, '0'));
      DigitsWithoutAmp(PadStart(NatToString(n), 6, '0'));
    }
    assert '&' !in IsoDate(f) by {
      PadDigits(f.date.month);
      PadDigits(f.date.day);
      DigitsWithoutAmp(Pad2(f.date.month));
      DigitsWithoutAmp(Pad2(f.date.day));
    }
    assert '&' !in IsoClock(f) by {
      PadDigits(f.hour);
      PadDigits(f.minute);
      PadDigits(f.second);
      DigitsWithoutAmp(Pad2(f.hour));
      DigitsWithoutAmp(Pad2(f.minute));
      DigitsWithoutAmp(Pad2(f.second));
    }
    assert '&' !in PadStart(NatToString(f.millisecond), 3, '0') by {
      PadDigits3(f.millisecond);
      DigitsWithoutAmp(PadStart(NatToString(f.millisecond), 3, '0'));
    }
  }

  lemma DigitsWithoutAmp(s: string)
    requires AllDigits(s)
    ensures '&' !in s
  {
  }

  /** Left-padding a digit string with zeros keeps it a digit string. */
  lemma PadKeepsDigits(s: string, width: nat)
    requires AllDigits(s)
    ensures AllDigits(PadStart(s, width, '0'))
  {
    var r := PadStart(s, width, '0');
    forall i | 0 <= i < |r|
      ensures IsDigit(r[i])
    {
      if i >= |r| - |s| {
        assert r[i] == r[|r| - |s|..][i - (|r| - |s|)];
      }
    }
  }

  /** Removing characters never introduces one. */
  lemma {:induction false} StripAbsent(s: string, c: char)
    requires c !in s
    ensures c !in StripDashColon(s)
    decreases |s|
  {
    if s != [] {
      StripAbsent(s[1..], c);
    }
  }

  lemma {:induction false} RemoveMillisAbsent(s: string, c: char)
    requires c !in s
    ensures c !in RemoveMillis(s)
    decreases |s|
  {
    if s != [] && !(|s| >= 4 && s[0] == '.' && AllDigits(s[1..4])) {
      RemoveMillisAbsent(s[1..], c);
    }
  }

  /** A Google date never holds `&`. */
  lemma GoogleDateSafe(f: DateTime)
    requires ValidDateTime(f)
    ensures '&' !in GoogleDate(f)
  {
    IsoTextSafe(f);
    StripAbsent(IsoText(f), '&');
    RemoveMillisAbsent(StripDashColon(IsoText(f)), '&');
  }

  /** `toISOString()` of a local instant, given the offset of the local
      time zone in minutes (UTC minus local). */
  function UtcIsoString(t: int, offsetMinutes: int): (text: string)
    ensures '&' !in text && |text| > 0 && text[|text| - 1] == 'Z'
  {
    var f := LocalFields(t + offsetMinutes * MS_PER_MINUTE);
    IsoTextSafe(f);
    IsoText(f)
  }

  const GOOGLE_RENDER: string := "https://calendar.google.com/calendar/render"

  const OUTLOOK_COMPOSE: string := "https://outlook.office.com/calendar/0/action/compose"

  /** The title of a link: the pill and the medication name, percent-encoded. */
  function LinkTitle(medicationName: string): string {
    Encode(PILL + " " + medicationName)
  }

  /** The details of a link: the description with real line breaks,
      percent-encoded. */
  function LinkDetails(medicationName: string, patientName: string, number: int): string {
    Encode(EventText(medicationName, patientName, number, "\n"))
  }

  /** The query parameters of a Google Calendar template link. */
  function GoogleParams(title: string, startText: string, endText: string, details: string): seq<string> {
    ["action=TEMPLATE", "text=" + title, "dates=" + startText + "/" + endText, "details=" + details]
  }

  /** `buildGoogleCalendarUrl`: the UTC start and the end fifteen minutes later
      in Google form, the encoded title and the encoded details, as the
      `&`-separated query of the template link. The query splits on `&` into
      exactly these four parameters, so a reader of the link gets each back. */
  function GoogleCalendarUrl(dose: Dose, medicationName: string, patientName: string, offsetMinutes: int): (url: string)
    ensures var k, params := |GOOGLE_RENDER| + 1, GoogleParams(LinkTitle(medicationName),
        FormatGoogleDate(dose.dateTime, offsetMinutes), FormatGoogleDate(EventEnd(dose.dateTime), offsetMinutes),
        LinkDetails(medicationName, patientName, dose.number));
      |url| >= k && url[..k] == GOOGLE_RENDER + "?" && Split(url[k..], '&') == params
  {
    var title := LinkTitle(medicationName);
    var details := LinkDetails(medicationName, patientName, dose.number);
    var params := GoogleParams(title, FormatGoogleDate(dose.dateTime, offsetMinutes),
      FormatGoogleDate(EventEnd(dose.dateTime), offsetMinutes), details);
    EncodeSafe(PILL + " " + medicationName);
    EncodeSafe(EventText(medicationName, patientName, dose.number, "\n"));
    GoogleParamsSplit(title, FormatGoogleDate(dose.dateTime, offsetMinutes),
      FormatGoogleDate(EventEnd(dose.dateTime), offsetMinutes), details);
    QueryUrl(GOOGLE_RENDER, Join(params, "&"))
  }

  /** A base address, `?` and a query. */
  function QueryUrl(base: string, query: string): (url: string)
    ensures |url| == |base| + 1 + |query| && url[..|base| + 1] == base + "?" && url[|base| + 1..] == query
  {
    base + "?" + query
  }

  /** The query parameters of an Outlook compose link. */
  function OutlookParams(subject: string, startIso: string, endIso: string, body: string): seq<string> {
    ["subject=" + subject, "startdt=" + startIso, "enddt=" + endIso, "body=" + body]
  }

  /** `buildOutlookUrl`: the UTC ISO start and the end fifteen minutes later,
      the encoded subject and the encoded body, as the `&`-separated query of
      the compose link, which splits back into these four parameters. */
  function OutlookUrl(dose: Dose, medicationName: string, patientName: string, offsetMinutes: int): (url: string)
    ensures var k, params := |OUTLOOK_COMPOSE| + 1, OutlookParams(LinkTitle(medicationName),
        UtcIsoString(dose.dateTime, offsetMinutes), UtcIsoString(EventEnd(dose.dateTime), offsetMinutes),
        LinkDetails(medicationName, patientName, dose.number));
      |url| >= k && url[..k] == OUTLOOK_COMPOSE + "?" && Split(url[k..], '&') == params
  {
    var title := LinkTitle(medicationName);
    var details := LinkDetails(medicationName, patientName, dose.number);
    var params := OutlookParams(title, UtcIsoString(dose.dateTime, offsetMinutes),
      UtcIsoString(EventEnd(dose.dateTime), offsetMinutes), details);
    EncodeSafe(PILL + " " + medicationName);
    EncodeSafe(EventText(medicationName, patientName, dose.number, "\n"));
    OutlookParamsSplit(title, UtcIsoString(dose.dateTime, offsetMinutes),
      UtcIsoString(EventEnd(dose.dateTime), offsetMinutes), details);
    QueryUrl(OUTLOOK_COMPOSE, Join(params, "&"))
  }

  /** An encoded value never holds `&`. */
  lemma EncodeSafe(s: string)
    ensures '&' !in Encode(s)
  {
    EncodeOmits(s, '&');
  }

  /** A query whose values hold no `&` splits on `&` back into its
      parameters. */
  lemma QuerySplit(params: seq<string>)
    requires |params| >= 1
    requires forall k :: 0 <= k < |params| ==> '&' !in params[k]
    ensures Split(Join(params, "&"), '&') == params
  {
    assert "&" == ['&'];
    SplitJoin(params, '&');
  }

  lemma GoogleParamsSplit(title: string, startText: string, endText: string, details: string)
    requires '&' !in title && '&' !in startText && '&' !in endText && '&' !in details
    ensures Split(Join(GoogleParams(title, startText, endText, details), "&"), '&')
      == GoogleParams(title, startText, endText, details)
  {
    var params := GoogleParams(title, startText, endText, details);
    assert '&' !in "action=TEMPLATE" && '&' !in "text=" && '&' !in "dates=" && '&' !in "/" && '&' !in "details=";
    QuerySplit(params);
  }

  lemma OutlookParamsSplit(subject: string, startIso: string, endIso: string, body: string)
    requires '&' !in subject && '&' !in startIso && '&' !in endIso && '&' !in body
    ensures Split(Join(OutlookParams(subject, startIso, endIso, body), "&"), '&')
      == OutlookParams(subject, startIso, endIso, body)
  {
    var params := OutlookParams(subject, startIso, endIso, body);
    assert '&' !in "subject=" && '&' !in "startdt=" && '&' !in "enddt=" && '&' !in "body=";
    QuerySplit(params);
  }

  /** For a four-digit UTC year the Google date of an instant is the
      iCalendar form of the UTC instant followed by `Z`. */
  lemma FormatGoogleDateIsUtcIcs(t: int, offsetMinutes: int)
    requires 1000 <= LocalFields(t + offsetMinutes * MS_PER_MINUTE).date.year <= 9999
    ensures FormatGoogleDate(t, offsetMinutes) == FormatIcsDate(t + offsetMinutes * MS_PER_MINUTE) + "Z"
  {
    GoogleDateIsUtcIcs(LocalFields(t + offsetMinutes * MS_PER_MINUTE));
  }

  /** Encoding keeps an occurrence: the encoding of a part is part of the
      encoding. */
  lemma EncodeContains(s: string, t: string)
    requires Contains(s, t)
    ensures Contains(Encode(s), Encode(t))
  {
    var i :| 0 <= i <= |s| - |t| && OccursAt(s, t, i);
    var a, b := s[..i], s[i + |t|..];
    assert s == a + t + b;
    EncodeConcat(a + t, b);
    EncodeConcat(a, t);
    ContainsConcat(Encode(a), Encode(t), Encode(b));
  }

  /** The link details name the patient when there is one and always carry
      the dose label; without a patient they are the encoded medication line
      followed by the encoded dose line, which holds no `P`. */
  lemma LinkDetailsContents(medicationName: string, patientName: string, number: int)
    ensures patientName != "" ==>
      Contains(LinkDetails(medicationName, patientName, number), Encode("Patient: " + patientName))
    ensures Contains(LinkDetails(medicationName, patientName, number), Encode(DoseLabel(number)))
    ensures patientName == "" ==>
      LinkDetails(medicationName, patientName, number)
        == Encode("Medication: " + medicationName) + Encode("\n" + DoseLabel(number))
      && 'P' !in Encode("\n" + DoseLabel(number))
  {
    var text := EventText(medicationName, patientName, number, "\n");
    EventTextContents(medicationName, patientName, number, "\n");
    if patientName != "" {
      EncodeContains(text, "Patient: " + patientName);
    }
    EncodeContains(text, DoseLabel(number));
    if patientName == "" {
      EventTextWithoutPatient(medicationName, number, "\n");
      EncodeConcat("Medication: " + medicationName, "\n" + DoseLabel(number));
      EncodeKeepsAbsentLetter("\n" + DoseLabel(number), 'P');
    }
  }

  /** `openGoogleCalendar`: nothing is opened for an empty schedule,
      otherwise the template link of the first dose. */
  function OpenGoogleCalendar(doses: seq<Dose>, medicationName: string, patientName: string, offsetMinutes: int): (url: Option<string>)
    ensures url.None? <==> doses == []
  {
    if |doses| == 0 then None
    else Some(GoogleCalendarUrl(doses[0], medicationName, patientName, offsetMinutes))
  }

  /** `openOutlookCalendar`: nothing is opened for an empty schedule,
      otherwise the compose link of the first dose. */
  function OpenOutlookCalendar(doses: seq<Dose>, medicationName: string, patientName: string, offsetMinutes: int): (url: Option<string>)
    ensures url.None? <==> doses == []
  {
    if |doses| == 0 then None
    else Some(OutlookUrl(doses[0], medicationName, patientName, offsetMinutes))
  }

  /** Only the first dose reaches a calendar link: the doses after it
      change nothing. */
  lemma OpenUsesFirstDose(first: Dose, rest: seq<Dose>, medicationName: string, patientName: string, offsetMinutes: int)
    ensures OpenGoogleCalendar([first] + rest, medicationName, patientName, offsetMinutes)
      == Some(GoogleCalendarUrl(first, medicationName, patientName, offsetMinutes))
    ensures OpenOutlookCalendar([first] + rest, medicationName, patientName, offsetMinutes)
      == Some(OutlookUrl(first, medicationName, patientName, offsetMinutes))
  {
    assert ([first] + rest)[0] == first;
  }

  /** The characters `\s` matches in a JavaScript regular expression: the
      ASCII controls tab to carriage return, the space, and the Unicode
      space separators, line and paragraph separators and the byte-order
      mark. */
  predicate IsSpace(c: char) {
    ('\t' <= c <= '\r') || c == ' ' || c == '\U{00A0}' || c == '\U{1680}'
    || ('\U{2000}' <= c <= '\U{200A}') || c == '\U{2028}' || c == '\U{2029}'
    || c == '\U{202F}' || c == '\U{205F}' || c == '\U{3000}' || c == '\U{FEFF}'
  }

  /** `s` with its leading whitespace removed. */
  function SkipSpaces(s: string): (r: string)
    ensures |r| <= |s|
  {
    if s != [] && IsSpace(s[0]) then SkipSpaces(s[1..]) else s
  }

  /** `s.replace(/\s+/g, '_')`: every maximal run of whitespace becomes one
      underscore. */
  function Underscore(s: string): (r: string)
    ensures |r| <= |s|
    decreases |s|
  {
    if s == [] then []
    else if IsSpace(s[0]) then "_" + Underscore(SkipSpaces(s[1..]))
    else [s[0]] + Underscore(s[1..])
  }

  /** The replacement leaves no whitespace. */
  lemma {:induction false} UnderscoreNoSpace(s: string)
    ensures forall i :: 0 <= i < |Underscore(s)| ==> !IsSpace(Underscore(s)[i])
    decreases |s|
  {
    if s != [] {
      var tail := if IsSpace(s[0]) then SkipSpaces(s[1..]) else s[1..];
      UnderscoreNoSpace(tail);
      var head := if IsSpace(s[0]) then "_" else [s[0]];
      assert Underscore(s) == head + Underscore(tail);
      forall i | 0 <= i < |Underscore(s)|
        ensures !IsSpace(Underscore(s)[i])
      {
        if i >= 1 {
          assert Underscore(s)[i] == Underscore(tail)[i - 1];
        }
      }
    }
  }

  /** A name without whitespace is kept as it is. */
  lemma {:induction false} UnderscoreKeeps(s: string)
    requires forall i :: 0 <= i < |s| ==> !IsSpace(s[i])
    ensures Underscore(s) == s
    decreases |s|
  {
    if s != [] {
      UnderscoreKeeps(s[1..]);
      assert s == [s[0]] + s[1..];
    }
  }

  /** Cutting after a character that is not whitespace cuts no run, so the
      replacement distributes over the two pieces. */
  lemma {:induction false} UnderscoreConcat(a: string, b: string)
    requires a == [] || !IsSpace(a[|a| - 1])
    ensures Underscore(a + b) == Underscore(a) + Underscore(b)
    decreases |a|
  {
    if a == [] {
      assert a + b == b;
    } else {
      var c, rest := a[0], a[1..];
      assert a == [c] + rest && a + b == [c] + (rest + b);
      if IsSpace(c) {
        SkipSpacesConcat(rest, b, |rest| - 1);
        calc {
          Underscore(a + b);
          { UnderscoreCons(c, rest + b); }
          "_" + Underscore(SkipSpaces(rest + b));
          "_" + Underscore(SkipSpaces(rest) + b);
          { UnderscoreConcat(SkipSpaces(rest), b); }
          "_" + Underscore(SkipSpaces(rest)) + Underscore(b);
          { UnderscoreCons(c, rest); }
          Underscore(a) + Underscore(b);
        }
      } else {
        calc {
          Underscore(a + b);
          { UnderscoreCons(c, rest + b); }
          [c] + Underscore(rest + b);
          { UnderscoreConcat(rest, b); }
          [c] + Underscore(rest) + Underscore(b);
          { UnderscoreCons(c, rest); }
          Underscore(a) + Underscore(b);
        }
      }
    }
  }

  /** One step of the replacement: a whitespace character starts a run that
      becomes one underscore, any other character is kept. */
  lemma UnderscoreCons(c: char, s: string)
    ensures Underscore([c] + s)
      == if IsSpace(c) then "_" + Underscore(SkipSpaces(s)) else [c] + Underscore(s)
  {
    assert ([c] + s)[0] == c && ([c] + s)[1..] == s;
  }

  /** Whitespace before a non-space character stops the skip inside the
      first piece. */
  lemma {:induction false} SkipSpacesConcat(x: string, y: string, k: nat)
    requires k < |x| && !IsSpace(x[k])
    ensures SkipSpaces(x + y) == SkipSpaces(x) + y
    ensures SkipSpaces(x) != [] && SkipSpaces(x)[|SkipSpaces(x)| - 1] == x[|x| - 1]
    decreases |x|
  {
    assert (x + y)[0] == x[0];
    if IsSpace(x[0]) {
      assert (x + y)[1..] == x[1..] + y;
      SkipSpacesConcat(x[1..], y, k - 1);
    }
  }

  /** A run of whitespace in front of a non-space character, or at the end,
      becomes a single underscore. */
  lemma {:induction false} UnderscoreRun(w: string, b: string)
    requires |w| > 0 && forall i :: 0 <= i < |w| ==> IsSpace(w[i])
    requires b == [] || !IsSpace(b[0])
    ensures Underscore(w + b) == "_" + Underscore(b)
    decreases |w|
  {
    assert (w + b)[0] == w[0] && (w + b)[1..] == w[1..] + b;
    SkipSpacesRun(w[1..], b);
  }

  lemma {:induction false} SkipSpacesRun(w: string, b: string)
    requires forall i :: 0 <= i < |w| ==> IsSpace(w[i])
    requires b == [] || !IsSpace(b[0])
    ensures SkipSpaces(w + b) == b
    decreases |w|
  {
    if w == [] {
      assert w + b == b;
    } else {
      assert (w + b)[1..] == w[1..] + b;
      SkipSpacesRun(w[1..], b);
    }
  }

  /** The name of the downloaded file: the medication name with its runs of
      whitespace turned into underscores, then `_schedule.ics`. */
  function IcsFileName(medicationName: string): (name: string)
    ensures |name| >= 13 && name[|name| - 13..] == "_schedule.ics"
    ensures forall i :: 0 <= i < |name| ==> !IsSpace(name[i])
  {
    UnderscoreNoSpace(medicationName);
    Underscore(medicationName) + "_schedule.ics"
  }
}
