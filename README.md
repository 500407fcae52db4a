# MedSchedule in Dafny

A model of the core of MedSchedule, a web application that turns a
prescription (start date and time, an interval in hours, and a duration
given as a number of days or a number of doses) into a numbered list of
doses. The model also covers what the application does with that list:

- keeps it in a store, where doses are marked taken, added by hand or removed;
- exports it as an iCalendar file and as Google Calendar and Outlook links;
- formats dates and times for display;
- cuts it into pages and columns for printing.

Modules, one file each:

| file | module | models |
|---|---|---|
| `wrappers.dfy` | `Wrappers` | `Option` |
| `text.dfy` | `Text` | `Number()` on digit strings, `toString`, `padStart`, `split`/`join`, substring containment |
| `calendar.dfy` | `Calendar` | the JavaScript `Date` getters and `new Date(y, m, d, h, mi)` over a proleptic Gregorian calendar |
| `dose_calculator.dfy` | `DoseCalculator` | `generateByDays`, `generateByQuantity`, `generateSchedule`, `getEstimatedEnd` |
| `schedule_store.dfy` | `ScheduleStore` | the store: its loaders, defaults, setters and dose-list actions |
| `uri_encoding.dfy` | `UriEncoding` | `encodeURIComponent` |
| `calendar_export.dfy` | `CalendarExport` | `generateIcsContent`, `formatIcsDate`, `buildGoogleCalendarUrl`, `formatGoogleDate`, `buildOutlookUrl`, the guards of `openGoogleCalendar`/`openOutlookCalendar`, the ICS file name |
| `date_format.dfy` | `DateFormat` | `formatDate`, `formatTime`, `formatDateForPdf`, `formatTimeForPdf`, `formatEstimatedEnd` |
| `print_pagination.dfy` | `PrintTemplate` | the page and column split of the print template and its dose-number column |

## How time is modelled

- **Instants.** A `Date` is an `int` count of milliseconds of local
  wall-clock time since 1970-01-01 00:00 local time. Every interval step is
  exactly `intervalHours * 3600000`, as in the source, which only adds
  milliseconds.
- **Fields.** `Calendar.LocalFields(t)` gives the local year, month, day,
  hour, minute, second and millisecond. These are what `getFullYear`,
  `getMonth() + 1`, `getDate`, `getHours` and so on return.
- **UTC.** The time-zone offset is a parameter `offsetMinutes`, the value of
  `getTimezoneOffset()`. `toISOString()` and the Google date render the
  fields of `t + offsetMinutes * 60000`.
- **Parameters for the environment.** The clock (`now`), `Date.now()` in
  event UIDs (`stamp`), `localStorage` (a `map<string, string>` field), the
  `dark` class of the document (a `bool` field), the colour-scheme preference
  and `typeof window` (`browser`) are all parameters or fields.

The dose generators are methods with the source's loops. Each is proved
against a specification function (`ByDays`, `ByQuantity`, `Schedule`). The
store is a class whose methods update its fields. The column split of a
print page is a method that pushes onto a local list. Everything else is
functions and lemmas.

## Model

| member | source | states |
|---|---|---|
| DoseCalculator.DoseIdInjective | src/utils/doseCalculator.ts:44 | the id `dose-<n>` names its number one-to-one |
| DoseCalculator.ParseStart | src/utils/doseCalculator.ts:31-33 | the start parses exactly when the date has at least three numeric `-` fields and the time at least two numeric `:` fields (extra fields are ignored, as destructuring does); otherwise it is the invalid date |
| DoseCalculator.ParseStartFields | src/utils/doseCalculator.ts:31-33 | a date `Y-M-D` and time `H:M` of digit fields denote `new Date(y, m - 1, d, h, mi)` |
| DoseCalculator.SeriesShape | src/utils/doseCalculator.ts:40-50 | dose i is numbered i + 1 with id `dose-<i+1>`, untaken, i intervals after the start, and the times strictly increase |
| DoseCalculator.ByDays | src/utils/doseCalculator.ts:23-54 | the by-days doses are numbered by position, untaken and strictly increasing in time |
| DoseCalculator.GenerateByDays | src/utils/doseCalculator.ts:23-54 | the loop returns the by-days specification: empty for non-positive days or interval, numbered by position and strictly increasing |
| DoseCalculator.DosesBefore | src/utils/doseCalculator.ts:36-51 | the while loop yields the series of all doses before the end time, and one dose more would reach it |
| DoseCalculator.ByDaysFromStart | src/utils/doseCalculator.ts:29-53 | with a valid start, by days is the series of ceil(days * 24 / intervalHours) doses |
| DoseCalculator.ByDaysWindow | src/utils/doseCalculator.ts:36-42 | every by-days dose lies in [start, start + days * 24 h), and the next dose would not |
| DoseCalculator.SingleDoseWindow | src/utils/doseCalculator.ts:36-42 | with a start that parses, a by-days schedule has one dose exactly when the interval is at least days * 24 hours |
| DoseCalculator.ByDaysClock | src/utils/doseCalculator.ts:50 | dose i shows the start's minutes and the start's hour advanced by i * intervalHours modulo 24 |
| DoseCalculator.EightHourlyForOneDay | src/__tests__/doseCalculator.test.ts:11-37 | eight-hourly over one day gives three doses at the start's hour, +8 and +16 modulo 24 |
| DoseCalculator.EightHourlyCrossesMidnight | src/__tests__/doseCalculator.test.ts:11-17 | from 08:00 on, the third eight-hourly dose of a one-day schedule falls on the next calendar day, inside the 24-hour window |
| DoseCalculator.DailyForThreeDays | src/__tests__/doseCalculator.test.ts:59-65 | daily over three days gives three doses on consecutive days at the start's time |
| DoseCalculator.ByQuantity | src/utils/doseCalculator.ts:59-84 | `quantity` doses for a positive quantity and interval and a start that parses, none otherwise; numbered by position, untaken and strictly increasing |
| DoseCalculator.GenerateByQuantity | src/utils/doseCalculator.ts:59-84 | the loop returns the by-quantity specification: empty for non-positive quantity or interval, numbered and strictly increasing |
| DoseCalculator.ByQuantityShape | src/utils/doseCalculator.ts:73-81 | with a valid start, exactly `quantity` doses, the first at the start and the last quantity - 1 intervals later |
| DoseCalculator.Schedule | src/utils/doseCalculator.ts:89-94 | either mode's schedule is numbered by position, untaken and strictly increasing |
| DoseCalculator.GenerateSchedule | src/utils/doseCalculator.ts:89-94 | dispatches on the duration type to by days or by quantity; the result is numbered and increasing |
| DoseCalculator.EstimatedEnd | src/utils/doseCalculator.ts:99-103 | no end exactly for an empty schedule; otherwise the end is the time of one of the doses and no dose is later |
| DoseCalculator.EstimatedEndByDays | src/utils/doseCalculator.ts:99-103 | by days, the end is the last dose, (n - 1) intervals after the start, before the window closes |
| DoseCalculator.EstimatedEndByQuantity | src/utils/doseCalculator.ts:99-103 | by quantity, the end is quantity - 1 intervals after the start |
| DoseCalculator.EstimatedEndNone | src/utils/doseCalculator.ts:99-102 | there is no end exactly when the duration or interval is not positive or the start does not parse (in quantity mode this is the corrected behaviour; see Findings) |
| DoseCalculator.QuantityTimesAsWritten | src/utils/doseCalculator.ts:65-81 | the quantity loop as written: no times for a non-positive quantity or interval, otherwise exactly `quantity` times, each the invalid date when the start does not parse |
| DoseCalculator.QuantityTimesAgree | src/utils/doseCalculator.ts:67-81 | with a start that parses, the loop as written and `ByQuantity` give the same times dose by dose |
| DoseCalculator.InvalidStartQuantity | src/utils/doseCalculator.ts:65-81 | an empty start date with quantity 3 gives three doses at the invalid date as written, and no doses and no end in the model |
| ScheduleStore.InitialTheme | src/store/useScheduleStore.ts:39-44 | light outside a browser; a stored `light`/`dark` wins; otherwise dark exactly when the preference is dark |
| ScheduleStore.InitialUse24h | src/store/useScheduleStore.ts:46-51 | true exactly in a browser with `true` stored |
| ScheduleStore.InitialLanguage | src/store/useScheduleStore.ts:53-58 | a stored `en`/`es` wins; anything else is English |
| ScheduleStore.SettingsRoundTrip | src/store/useScheduleStore.ts:39-58 | each loader reads back what the matching setter stores |
| ScheduleStore.TodayDate | src/store/useScheduleStore.ts:60-66 | `getTodayDate()` is a year, `-`, two digits, `-`, two digits |
| ScheduleStore.DateTextEnds | src/store/useScheduleStore.ts:60-66 | the month and day fields of the date text read back as the date's month and day |
| ScheduleStore.CurrentTime | src/store/useScheduleStore.ts:68-73 | `getCurrentTime()` is two digits, `:`, two digits |
| ScheduleStore.ClockTextReadBack | src/store/useScheduleStore.ts:68-73 | the two fields of the clock text read back as the hour and the minute |
| ScheduleStore.FieldsTextRoundTrip | src/store/useScheduleStore.ts:60-73 | the printed date and clock parse back as `new Date` of the fields they were printed from |
| ScheduleStore.TodayNowRoundTrip | src/store/useScheduleStore.ts:60-80 | the default start date and time parse as the current local minute (years from 100) |
| ScheduleStore.ToggleTaken | src/store/useScheduleStore.ts:115-121 | `taken` flips exactly on the doses with that id; ids, numbers and times are kept |
| ScheduleStore.ToggleTwice | src/store/useScheduleStore.ts:115-121 | toggling an id twice restores the list |
| ScheduleStore.ToggleUnknown | src/store/useScheduleStore.ts:115-121 | an id no dose carries changes nothing |
| ScheduleStore.ToggleNumbered | src/store/useScheduleStore.ts:115-121 | in a numbered list, toggling `dose-<k>` flips dose k alone |
| ScheduleStore.ToggleKeepsShape | src/store/useScheduleStore.ts:115-121 | toggling keeps numbering and time order |
| ScheduleStore.WithManualDose | src/store/useScheduleStore.ts:123-139 | one dose more, numbered next, untaken, one interval after the last or at `now` for an empty list; the rest kept |
| ScheduleStore.WithoutLastDose | src/store/useScheduleStore.ts:141-145 | all doses but the last; an empty list stays empty |
| ScheduleStore.RemoveUndoesAdd | src/store/useScheduleStore.ts:123-145 | removing the last dose undoes adding one |
| ScheduleStore.AddRemoveKeepNumbering | src/store/useScheduleStore.ts:123-145 | adding and removing keep the list numbered by position |
| ScheduleStore.AddRemoveKeepOrder | src/store/useScheduleStore.ts:123-145 | removing keeps time order, and so does adding with a positive interval |
| ScheduleStore.ManualDoseExtendsSeries | src/store/useScheduleStore.ts:123-145 | after a generated series, adding gives the series one longer and removing one shorter |
| ScheduleStore.Store.constructor | src/store/useScheduleStore.ts:75-91 | the defaults: empty names, today, now, 8 h, 5 days, no doses, loaded settings |
| ScheduleStore.Store.SetMedicationName | src/store/useScheduleStore.ts:94 | sets the medication name, nothing else changes |
| ScheduleStore.Store.SetPatientName | src/store/useScheduleStore.ts:95 | sets the patient name, nothing else changes |
| ScheduleStore.Store.SetStartDate | src/store/useScheduleStore.ts:96 | sets the start date, nothing else changes |
| ScheduleStore.Store.SetStartTime | src/store/useScheduleStore.ts:97 | sets the start time, nothing else changes |
| ScheduleStore.Store.SetIntervalHours | src/store/useScheduleStore.ts:98 | sets the interval, nothing else changes |
| ScheduleStore.Store.SetDurationType | src/store/useScheduleStore.ts:99 | sets the duration type, nothing else changes |
| ScheduleStore.Store.SetDurationValue | src/store/useScheduleStore.ts:100 | sets the duration value, nothing else changes |
| ScheduleStore.Store.GenerateDoses | src/store/useScheduleStore.ts:102-113 | the schedule of the current fields replaces the doses; the list is numbered and increasing |
| ScheduleStore.Store.ToggleDoseTaken | src/store/useScheduleStore.ts:115-121 | the doses become the toggled list; numbering is kept |
| ScheduleStore.Store.AddManualDose | src/store/useScheduleStore.ts:123-139 | the doses gain the manual dose; numbering is kept |
| ScheduleStore.Store.RemoveLastDose | src/store/useScheduleStore.ts:141-145 | the doses lose the last dose; numbering is kept |
| ScheduleStore.Store.SetUse24h | src/store/useScheduleStore.ts:147-150 | stores `true`/`false` and sets the field; the loader reads the value back |
| ScheduleStore.Store.SetTheme | src/store/useScheduleStore.ts:152-160 | stores the theme, sets the `dark` class exactly for dark; the loader reads it back whatever the preference |
| ScheduleStore.Store.SetLanguage | src/store/useScheduleStore.ts:162-165 | stores the language tag and sets the field; the loader reads it back |
| UriEncoding.Encode | src/utils/calendarExport.ts:14-17 | the encoding is at least as long as the text and at most 12 characters per character |
| UriEncoding.EncodeIsSafe | src/utils/calendarExport.ts:14-17 | an encoding holds only unreserved characters and `%` |
| UriEncoding.EncodeConcat | src/utils/calendarExport.ts:14-17 | encoding distributes over concatenation |
| UriEncoding.EncodeUnreserved | src/utils/calendarExport.ts:14-17 | unreserved text encodes as itself |
| UriEncoding.EncodeKeepsAbsentLetter | src/utils/calendarExport.ts:14-17 | a letter G-Z absent from the input is absent from its encoding |
| CalendarExport.FormatIcsDate | src/utils/calendarExport.ts:75-86 | for a four-digit year, 15 characters with `T` at 8, reading back the local year, month, day, hour, minute and second |
| CalendarExport.IcsContent | src/utils/calendarExport.ts:32-70 | the file starts with `BEGIN:VCALENDAR` and CRLF and ends with CRLF and `END:VCALENDAR` |
| CalendarExport.EventEnd | src/utils/calendarExport.ts:39 | each event ends fifteen minutes after the dose |
| CalendarExport.IcsDateReadBack | src/utils/calendarExport.ts:75-86 | `formatIcsDate` is 15 characters with `T` at 8, reading back year, month, day, hour, minute, second (four-digit years) |
| CalendarExport.Events | src/utils/calendarExport.ts:37-59 | one 13-line event per dose, in dose order |
| CalendarExport.EventFrame | src/utils/calendarExport.ts:44-58 | an event opens and closes with VEVENT, carries a five-minute VALARM, and starts and ends at its given times |
| CalendarExport.EventSummary | src/utils/calendarExport.ts:48 | the title names the medication and the dose number |
| CalendarExport.EventDescription | src/utils/calendarExport.ts:40-42 | the description line is `DESCRIPTION:` and the description; it names the patient when there is one, and without one it is exactly the medication line and then the dose line, which holds no `P` (no patient line) |
| CalendarExport.IcsDocumentLines | src/utils/calendarExport.ts:61-69 | the file is the five header lines, every event's 13 lines in order, and `END:VCALENDAR`, joined by CRLF |
| CalendarExport.IcsContentLines | src/utils/calendarExport.ts:32-70 | the ICS content has 6 + 13 * n lines joined by CRLF, with the header first and the footer last |
| CalendarExport.IcsContentEvent | src/utils/calendarExport.ts:37-59 | line 5 + 13 * i opens dose i's event, which starts at the dose time and ends fifteen minutes later |
| CalendarExport.GoogleDateIsUtcIcs | src/utils/calendarExport.ts:25-27 | stripping `-`, `:` and the milliseconds from the ISO text gives the ICS form of the UTC fields plus `Z` |
| CalendarExport.FormatGoogleDateIsUtcIcs | src/utils/calendarExport.ts:25-27 | `formatGoogleDate(t)` is `formatIcsDate` of the UTC instant followed by `Z` (four-digit years) |
| CalendarExport.FormatGoogleDate | src/utils/calendarExport.ts:25-27 | the Google date holds no `&`, `-` or `:` |
| CalendarExport.UtcIsoString | src/utils/calendarExport.ts:129-130 | `toISOString()` is non-empty, ends in `Z` and holds no `&` |
| CalendarExport.GoogleCalendarUrl | src/utils/calendarExport.ts:7-20 | the Google link starts with the render URL and `?`, and splitting the rest on `&` gives back the `action`, `text`, `dates`, `details` parameters |
| CalendarExport.OutlookUrl | src/utils/calendarExport.ts:124-137 | the Outlook link starts with the compose URL and `?`, and splitting the rest on `&` gives back the `subject`, `startdt`, `enddt`, `body` parameters |
| CalendarExport.LinkDetailsContents | src/utils/calendarExport.ts:15-17 | the link details contain the encoded patient line when there is a patient and always the encoded dose label; without a patient they are exactly the encoded medication line and then the encoded dose line, which holds no `P` |
| CalendarExport.OpenGoogleCalendar | src/utils/calendarExport.ts:116-118 | no link exactly for an empty dose list |
| CalendarExport.OpenOutlookCalendar | src/utils/calendarExport.ts:147-149 | no link exactly for an empty dose list |
| CalendarExport.OpenUsesFirstDose | src/utils/calendarExport.ts:116-117 | the opened link is the one for the first dose |
| CalendarExport.Underscore | src/utils/calendarExport.ts:101 | replacing whitespace runs never lengthens the name |
| CalendarExport.UnderscoreNoSpace | src/utils/calendarExport.ts:101 | replacing whitespace runs leaves no whitespace |
| CalendarExport.UnderscoreKeeps | src/utils/calendarExport.ts:101 | a name without whitespace is kept |
| CalendarExport.UnderscoreRun | src/utils/calendarExport.ts:101 | a whole whitespace run becomes one `_` |
| CalendarExport.UnderscoreConcat | src/utils/calendarExport.ts:101 | the replacement works piecewise when the first piece does not end in whitespace |
| CalendarExport.IcsFileName | src/utils/calendarExport.ts:101 | the file name ends in `_schedule.ics` and holds no whitespace |
| DateFormat.LocaleFor | src/utils/dateFormat.ts:8 | Spanish exactly for the language `es` |
| DateFormat.MonthNameLetters | src/utils/dateFormat.ts:9 | month abbreviations are 3-4 characters without digits or spaces |
| DateFormat.Hour12RoundTrip | src/utils/dateFormat.ts:19 | the 12-hour hour is 1..12 and with the period gives the hour back |
| DateFormat.DayPeriodsDiffer | src/utils/dateFormat.ts:19 | the AM and PM markers differ |
| DateFormat.FormatDate | src/utils/dateFormat.ts:7-10 | starts with the locale's month abbreviation, then the day reading back at its place; with a year of era up to 9999 it is exactly nine characters more, ending in the year |
| DateFormat.FormatTime | src/utils/dateFormat.ts:15-20 | `HH:mm` reading back hour and minute for 24 h; otherwise the 12-hour hour, the minute and `AM`/`PM` by whether the hour is from 12 |
| DateFormat.FormatEstimatedEnd | src/utils/dateFormat.ts:40-43 | the `MMM dd, ` prefix of the formatted date followed by the locale's 12-hour clock, which outside Spanish is the 12-hour `formatTime` |
| DateFormat.DateLineBounds | src/utils/dateFormat.ts:9 | for any year the date line starts with the month and reads back the day; for years of era up to 9999 its length and year are fixed |
| DateFormat.Clock24ReadBack | src/utils/dateFormat.ts:17 | `HH:mm` is five characters reading back hour and minute |
| DateFormat.Clock12ReadBack | src/utils/dateFormat.ts:19 | `hh:mm a` reads back the 12-hour hour, the minute and the period |
| DateFormat.ClocksDetermineTime | src/utils/dateFormat.ts:15-20 | equal clock texts mean equal hour and minute, in either format |
| DateFormat.DateLineReadBack | src/utils/dateFormat.ts:9 | `MMM dd, yyyy` is the month, a space, the day, `, ` and the year of era, each reading back |
| DateFormat.EndLineParts | src/utils/dateFormat.ts:42 | `MMM dd, hh:mm a` is the `MMM dd, ` prefix of the date followed by the 12-hour clock |
| DateFormat.FormatDateForPdf | src/utils/dateFormat.ts:25-28 | the PDF date is the display date |
| DateFormat.FormatTimeForPdf | src/utils/dateFormat.ts:33-35 | the PDF time is the display time |
| DateFormat.HalfPastTwoPm | src/__tests__/dateFormat.test.ts:23-33 | 14:30 shows as `14:30` on the 24-hour clock and `02:30 PM` in English; in Spanish `02:30 ` and the locale's afternoon marker |
| DateFormat.EightAm | src/__tests__/dateFormat.test.ts:35-40 | 08:00 shows as `08:00 AM` on the English 12-hour clock |
| DateFormat.MidJanuary | src/__tests__/dateFormat.test.ts:5-21 | 2024-01-15 14:30 shows as `Jan 15, 2024` and `ene 15, 2024` |
| DateFormat.MidJanuaryEnd | src/__tests__/dateFormat.test.ts:68-79 | the same instant as an estimated end shows as `Jan 15, 02:30 PM`, and as `ene 15, 02:30 ` with the Spanish afternoon marker |
| PrintTemplate.ItemsPerPage | src/components/PrintTemplate.tsx:15-24 | a page holds two columns of 13 in the two-column layout, one otherwise |
| PrintTemplate.TotalPages | src/components/PrintTemplate.tsx:25 | the page count is the ceiling of count / itemsPerPage, and 1 for no doses |
| PrintTemplate.Pages | src/components/PrintTemplate.tsx:25-30 | there are as many pages as `totalPages` counts |
| PrintTemplate.PagesSingle | src/components/PrintTemplate.tsx:25-30 | a list that fits one page, the empty list included, is a single page |
| PrintTemplate.PagesConcat | src/components/PrintTemplate.tsx:27-30 | the pages in order concatenate to the dose list |
| PrintTemplate.PageSizes | src/components/PrintTemplate.tsx:27-30 | every page holds at most itemsPerPage doses, all but the last exactly that many, and none is empty when there are doses |
| PrintTemplate.PageColumns | src/components/PrintTemplate.tsx:66-74 | one or two columns that concatenate to the page: the first 13 doses, then the rest only when there is any; a single column equal to the page in one-column layout; a full page's columns hold at most 13 each |
| PrintTemplate.DoseNumberText | src/components/PrintTemplate.tsx:55 | at least two characters, reading back as the number when it is not negative |
| PrintTemplate.DoseNumberReadBack | src/components/PrintTemplate.tsx:55 | the dose number is zero-padded to two characters and reads back as the number |
| PrintTemplate.FirstDoseNumber | src/components/PrintTemplate.tsx:55 | dose 1 shows as `01` |

## Left out

- Browser I/O is not modelled: the `Blob` download, `window.open`, the DOM link and `URL.createObjectURL`. The open functions return the link they would open, or `None` when they would return early.
- `exportToPdf` and the React rendering of the print template are not modelled. This covers the markup, the translated labels and the template's own `MMM d` and `hh:mm a` formats.
- Time zones are a fixed offset parameter. Daylight-saving transitions are not modelled: a local instant plus a whole number of hours keeps its clock arithmetic exactly.
- `Date` values beyond the ±8.64e15 ms range (`TimeClip`) are not modelled, nor is the `RangeError` that `toISOString` raises there.
- Numbers are integers. `Number()` is modelled on digit strings and the empty string only. Signs, spaces, decimals, exponents and fractional intervals or durations are not modelled; a field that is not a digit string is the invalid date.
- DoseCalculator.GenerateByQuantity: with an invalid start, the source returns doses whose `dateTime` is the invalid date; the model returns no doses (see Findings). `ByQuantity`, `Schedule`, `EstimatedEnd`, `GenerateSchedule` and `ScheduleStore.Store.GenerateDoses` inherit this.
- DoseCalculator.EstimatedEndNone: states the corrected quantity mode; as written, an unparseable start in quantity mode gives an invalid-date end instead of none.
- The doc comment of `generateByDays` (src/utils/doseCalculator.ts:19-21) says the last dose must start within the last calendar day of the course. The code (lines 36 and 42) and its tests use the 24 hours from the start time instead, and the model follows the code. From 08:00 every 8 hours for one day, the comment's rule would allow two doses. The code gives three, the last at 00:00 on the next day (`EightHourlyCrossesMidnight`).
- CalendarExport.IcsContent: the source reads `Date.now()` once per event; the model uses one `stamp` for the whole file.
- RFC 5545 line folding and text escaping are not applied by the source, and the model does not add them.
- CalendarExport.IcsDateReadBack and CalendarExport.FormatGoogleDateIsUtcIcs: proved for four-digit years only, where `getFullYear().toString()` and the ISO year have the same four digits.
- ScheduleStore.TodayNowRoundTrip: stated for years from 100 on, because `new Date` reads a year 0..99 as 19xx.
- Date formatting follows the date-fns patterns for the `en-US` and `es` locales as written in `date_format.dfy`: the month abbreviations (`ene` … `dic`, with `sep` for September in Spanish), `AM`/`PM` as the day period in both locales, and `yyyy` as the zero-padded year of era. The locale tables of date-fns are not part of this model, so the Spanish strings other than `ene` are taken from that library's `es` locale rather than from the repository; the examples state the Spanish day period only abstractly.
- DateFormat.MonthNameLetters: does not prove that the twelve month names of a locale are distinct, so the month is not read back from a formatted date.
- The template's `isEs` test (`startsWith('es')`) is not modelled.
- Server-side rendering is modelled only through the `browser` flag of the loaders.

## Findings

| source | as written | input that shows it | evidently intended | confidence | as-written member | corrected member |
|---|---|---|---|---|---|---|
| src/utils/doseCalculator.ts:65-81 | by quantity, a start that does not parse still yields `quantity` doses, all at the invalid date, so `getEstimatedEnd` returns an invalid date, which the configuration panel then passes to `formatEstimatedEnd`, instead of null | start date `""`, start time `08:00`, interval 8, quantity 3 | no doses and no end, as the by-days mode gives for the same start | medium, not executed | DoseCalculator.InvalidStartQuantity | DoseCalculator.EstimatedEndNone |
