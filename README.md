# ednevnik-icsmaker in Dafny

A verified model of the two text transforms at the heart of ednevnik-icsmaker.
The first reads a school timetable out of a PDF. The second turns the
resulting day/class/slot list into a calendar that repeats every two weeks.

- **The timetable line scanner** (`parse_schedule_text` in `pdf-parser.py`)
  makes one pass over the lines of the text taken from the PDF.
  - A Croatian day name (Ponedjeljak, Utorak, Srijeda, Četvrtak, Petak)
    selects the day code MO..FR and resets the slot to 0.
  - A line `<digits>.` sets the slot.
  - Any other non-empty line seen while a day is selected becomes a record
    `[day, class, slot]`.

  `PdfParser.ParseScheduleText` is the loop itself. It is proved equal to
  `PdfParser.Scan`, a fold of one step per classified line. The scanner's
  properties are lemmas about that fold.
- **The calendar builder** (`icsmaker.py`) has two loops.
  - `IcsMaker.ReadEvents` keeps a line only when all of these hold: the
    stripped line splits on commas into exactly three fields, and the
    stripped third field parses as an integer that is a key of the
    seven-period table. The kept line's day is stripped and upper-cased,
    and its name is stripped.
  - `IcsMaker.CreateCalendar` builds one event per entry whose day is MO..FR:
    - the date is 2024-09-(9 + offset) and the times come from the period;
    - the UID is made from the start timestamp;
    - the recurrence is weekly, interval 2, on that day.

  Each loop is proved equal to a fold specification (`IcsMaker.ReadAll`,
  `IcsMaker.EventsOf`). The per-line and per-event functions carry their own
  lemmas.

The files:

- `wrappers.dfy` holds `Option`.
- `text.dfy` (module `Text`) holds ASCII models of the Python builtins used:
  `strip`, `split`, `isdigit`, `int`, `upper`.
- `pdf_parser.dfy` (module `PdfParser`) holds the scanner.
- `icsmaker.dfy` (module `IcsMaker`) holds the period table, the reader and
  the calendar builder.

`day_map` has no Saturday entry (`Subota` is commented out at
`pdf-parser.py:24`), so the scanner never yields SA. `create_calendar` skips
SA if a hand-written events file contains it.

## Model

| member | source | states |
|---|---|---|
| Text.Strip | pdf-parser.py:35 | `str.strip()`: the result has no whitespace at either end, it is no longer than the input, and it is empty exactly when the input is all whitespace |
| Text.StripRemovesOnlySpace | pdf-parser.py:35 | the input is the stripped string with only whitespace before and after it |
| Text.StripIdempotent | icsmaker.py:29 | stripping twice is stripping once |
| Text.CountStrip | icsmaker.py:29-32 | stripping never removes a non-whitespace character, e.g. a comma, so the comma count of a line is that of its stripped form |
| Text.Count | icsmaker.py:31 | the count of a character is at most the length, and zero exactly when the character is absent |
| Text.CountAppend | icsmaker.py:31 | the count over a concatenation is the sum of the counts |
| Text.Split | pdf-parser.py:28 | `str.split(sep)` keeps empty pieces: there is one piece more than there are separators |
| Text.SplitPiecesFree | icsmaker.py:31 | no piece of a split contains the separator |
| Text.JoinSplit | pdf-parser.py:28 | joining the pieces of a split with the separator gives back the string |
| Text.SplitJoin | icsmaker.py:31-36 | splitting a join of separator-free pieces gives back the pieces |
| Text.SplitAfter | icsmaker.py:31 | a separator-free prefix followed by the separator is split off as the first piece |
| Text.IsDigits | pdf-parser.py:40 | `str.isdigit()`: a digit string is already stripped and holds no `.` or `,` |
| Text.ParseInt | icsmaker.py:37-44 | `int()` on a stripped string: what it accepts starts with a digit, or with a sign and at least one more character, and holds only digits after its first character, so text such as `x5` or a bare `+` is the `ValueError` case; a negative value needs a leading minus |
| Text.ParseIntSignedDigits | icsmaker.py:38 | a sign in front of any digit string, leading zeros included (`+007`): `+d` reads as `d` and `-d` as its negation |
| Text.DigitsValueLeadingZero | icsmaker.py:38 | a zero in front of a digit string does not change its value |
| Text.ParseIntSigned | icsmaker.py:38 | `int("+n")` is n, `int("-n")` is -n, and `int("0" + d)` equals `int(d)` for any digit string d |
| Text.ParseIntOfNat | icsmaker.py:38 | reading back the decimal form of a natural number gives the number |
| Text.Upper | icsmaker.py:47 | `str.upper()` keeps the length, raises each ASCII lower-case letter and leaves no lower-case letter |
| Text.UpperFixpoint | icsmaker.py:47 | a string with no lower-case letter is its own upper case |
| PdfParser.IsSlotMarker | pdf-parser.py:40 | a marker `<digits>.` is already stripped and is never a day name, so the order of the day and marker tests does not matter |
| PdfParser.MarkerValue | pdf-parser.py:42 | the slot a marker sets is what `int()` reads from the text before the dot |
| PdfParser.Classify | pdf-parser.py:35-43 | a day line gives a code among MO..FR, and class text is the stripped, non-empty line |
| PdfParser.Step | pdf-parser.py:36-45 | one iteration keeps the records already emitted and appends one exactly when the line is class text and a day is selected |
| PdfParser.Scan | pdf-parser.py:30-47 | the loop over all lines, from no day and slot 0, emits at most one record per line |
| PdfParser.Kinds | pdf-parser.py:34-36 | one classification per line, in order |
| PdfParser.Run | pdf-parser.py:30-45 | the loop never removes or reorders records, and it adds at most one record per line |
| PdfParser.ParseScheduleText | pdf-parser.py:16-47 | splitting on newlines and running the loop with no day and slot 0 returns the schedule of the fold specification `Scan`, with at most one record per line |
| PdfParser.StepCases | pdf-parser.py:35-45 | one iteration on a raw line strips it and then takes the day / marker / class / nothing branch of the `if`/`elif` chain; the result is the step on its classification |
| PdfParser.RunAppend | pdf-parser.py:34 | running over two blocks of lines is running over the first, then over the second |
| PdfParser.DayMapValues | pdf-parser.py:18-25 | the values of `day_map` are exactly MO, TU, WE, TH, FR |
| PdfParser.ClassifyGood | pdf-parser.py:35-45 | every line classifies as a day code among MO..FR, a marker, a stripped non-empty class line that is not a day name or marker, or nothing |
| PdfParser.RunGood | pdf-parser.py:30-45 | the loop keeps the invariant that the day is unset or one of MO..FR, the slot is non-negative and every record is well formed |
| PdfParser.ScheduleWellFormed | pdf-parser.py:18-45 | every record has a day among MO..FR, a non-negative slot, and a stripped non-empty class name that is neither a day name nor a slot marker |
| PdfParser.ScheduleOrder | pdf-parser.py:34-45 | there are no more records than lines, and the records of any prefix of the lines come first, in order |
| PdfParser.ClassifyBlank | pdf-parser.py:35-43 | a whitespace-only line takes no branch |
| PdfParser.BlankLineIgnored | pdf-parser.py:35-43 | inserting a blank or whitespace-only line anywhere changes neither the day, nor the slot, nor the schedule |
| PdfParser.RunAgree | pdf-parser.py:31-39 | states that agree on day and schedule, and on the slot once a day is set, stay in agreement |
| PdfParser.RunWithoutDay | pdf-parser.py:31-43 | without a day line the day stays unset and nothing is emitted |
| PdfParser.NothingBeforeFirstDay | pdf-parser.py:31-45 | lines before the first day line emit no record and do not change what the lines after them emit |
| PdfParser.AfterDayName | pdf-parser.py:36-42 | after a day name and lines without one, the day is that code and the slot is the last marker's value since, or 0 |
| PdfParser.LastMarkerKinds | pdf-parser.py:40-42 | the value of the last raw line that, stripped, passes `endswith('.') and line[:-1].isdigit()` is the last marker the loop classifies |
| PdfParser.StateAfterDay | pdf-parser.py:32-42 | after a day line and lines without a day line, the current day is that line's code and the slot is the value of the most recent marker since, or 0 |
| PdfParser.ClassRecord | pdf-parser.py:32-45 | a class line appends exactly one record after the earlier ones: the latest day line's code, the stripped line, and the last marker's value since that day line, or 0 when there is none |
| PdfParser.NonClassEmitsNothing | pdf-parser.py:36-45 | a blank line, a day line or a marker appends no record |
| PdfParser.LoneDotIsClass | pdf-parser.py:40-43 | a lone `.` is not a slot marker (its digit part is empty), so it is a class line and is emitted |
| PdfParser.SlotMarkerOfNat | pdf-parser.py:40-42 | the decimal form of any natural number n followed by a dot, such as `12.`, is a slot marker carrying n |
| IcsMaker.TimeSlotKeys | icsmaker.py:13-21 | the period numbers are exactly 1 to 7 |
| IcsMaker.SlotsLast45 | icsmaker.py:13-21 | each period has valid clock times, starts before it ends and lasts exactly 45 minutes |
| IcsMaker.SlotsOrdered | icsmaker.py:13-21 | a later period starts strictly after an earlier one ends, so periods never overlap |
| IcsMaker.SlotStartsDistinct | icsmaker.py:13-21 | two periods start at the same time only if they are the same period |
| IcsMaker.ParseLine | icsmaker.py:29-50 | a line is blank exactly when it is all whitespace, and an accepted line's slot index is a key of the period table |
| IcsMaker.ParseParts | icsmaker.py:31-50 | a field list is skipped for its count exactly when it does not have three fields, and an accepted one names a period |
| IcsMaker.FieldCountSkips | icsmaker.py:29-34 | a non-blank line is skipped for its field count exactly when it does not contain two commas |
| IcsMaker.CommaInNameSkips | icsmaker.py:31-34 | a comma in the event name makes four fields, so the line is skipped |
| IcsMaker.ParseFields | icsmaker.py:36-50 | for three comma-free fields: a non-integer slot is skipped as not an integer, an integer outside the table is skipped as not in the table, and otherwise the entry is the stripped upper-cased day, the stripped name and the slot |
| IcsMaker.ParseLineCases | icsmaker.py:29-50 | the reader's checks, in the order it makes them, decide the line's fate |
| IcsMaker.ReadAll | icsmaker.py:24-51 | at most one event per line |
| IcsMaker.ReadAllAppend | icsmaker.py:27 | reading two blocks of lines gives the events of the first, then those of the second |
| IcsMaker.ReadAllLine | icsmaker.py:29-50 | a line that is not accepted, such as an empty line, can be removed without changing the events; an accepted line adds exactly its own entry at its place |
| IcsMaker.ReadAllSlots | icsmaker.py:37-44 | every accepted entry's slot index is between 1 and 7 |
| IcsMaker.ReadAllBuildable | icsmaker.py:37-44 | every entry read has a slot the calendar builder can look up |
| IcsMaker.ReadEvents | icsmaker.py:24-51 | the reader loop returns the events of `ReadAll` |
| IcsMaker.Pad2 | icsmaker.py:90 | two-digit zero-padded field: two decimal digits whose value is the number |
| IcsMaker.Pad4 | icsmaker.py:90 | `%Y`: four decimal digits whose value is the year |
| IcsMaker.Stamp | icsmaker.py:90 | `%Y%m%dT%H%M%S` is fifteen characters with `T` at position 8 |
| IcsMaker.Uid | icsmaker.py:90 | the UID is fifteen stamp characters, `T` at position 8, then the suffix starting with `-` |
| IcsMaker.UidFormat | icsmaker.py:90 | the UID reads year, month, day, `T`, hour, minute, `00` and the fixed suffix, each field the digits of the start's value |
| IcsMaker.EventFor | icsmaker.py:68-93 | an entry gives an event exactly when its day is MO..FR; the event's summary is the name and its `byday` is the day |
| IcsMaker.Weekday | icsmaker.py:58 | an independent day-of-week computation for Gregorian dates, in 0..6 |
| IcsMaker.WeekdaySeptember2024 | icsmaker.py:58 | 2024-09-09 is a Monday: day d of September 2024 has weekday (d + 6) mod 7 |
| IcsMaker.EventForSpec | icsmaker.py:74-93 | the event falls on 2024-09-(9 + offset), a day in 9..13, whose weekday is the entry's day; its start and end are the period's times, 45 minutes apart, on that date; it recurs weekly with interval 2 on that day; location, description and UID are as fixed |
| IcsMaker.Pad2Injective | icsmaker.py:90 | two-digit fields are equal exactly when their values are |
| IcsMaker.StampFields | icsmaker.py:90 | year, month, day, hour and minute sit at their `strftime` positions of the stamp, and the seconds are `00` |
| IcsMaker.UidDetermines | icsmaker.py:81-90 | equal UIDs come from starts on the same day of the month at the same time |
| IcsMaker.DayOffsetsWeekdays | icsmaker.py:58-66 | each day code's offset is 0 to 4, and Monday 2024-09-09 plus it falls on the weekday the code names |
| IcsMaker.DayOffsetsInjective | icsmaker.py:60-66 | distinct day codes have distinct offsets |
| IcsMaker.UidDistinct | icsmaker.py:81-90 | two events get the same UID exactly when their entries share day and slot, so classes sharing a period collide |
| IcsMaker.EventsOf | icsmaker.py:68-95 | at most one event per entry |
| IcsMaker.EventsOfAppend | icsmaker.py:68 | building from two lists gives the events of the first, then those of the second |
| IcsMaker.NonWeekdaySkipped | icsmaker.py:69-72 | an entry whose day is not MO..FR (e.g. SA) is dropped and nothing else changes |
| IcsMaker.OneEventPerEntry | icsmaker.py:68-95 | when every day is MO..FR there is exactly one event per entry, and the i-th event is built from the i-th entry |
| IcsMaker.EventsWellFormed | icsmaker.py:74-93 | every event built is well formed in the sense of `EventForSpec` |
| IcsMaker.CreateCalendar | icsmaker.py:54-97 | the loop returns a calendar with the fixed product id, version 2.0 and the events of `EventsOf`, each well formed |

## Left out

- PDF text extraction (`extract_text_from_pdf`) is a foreign library call. The scanner takes the extracted text as its input string.
- Writing the schedule as CSV through pandas, and serialising the calendar with `to_ical`, are library serialisers and are not modelled. The calendar is the `Calendar` value the builder returns.
- Time-zone localisation to Europe/Zagreb with pytz is not modelled. Events carry wall-clock dates and times, and the UID is built from the wall-clock start, which is what `strftime` formats.
- File opening and reading, `argparse`, `main` and the `print` diagnostics are I/O. The reader takes the file's lines as a sequence of strings. The reason a line is skipped is returned by `IcsMaker.ParseLine` instead of being printed.
- Text.Strip: removes only ASCII whitespace (space, tab to carriage return, and U+001C to U+001F). It keeps U+0085, U+00A0 and the other non-ASCII whitespace that Python strips.
- Text.IsDigits: accepts only ASCII `0`-`9`, not the other Unicode digits `str.isdigit` accepts. A marker such as `².` is therefore not modelled; in Python it makes `int()` raise.
- Text.ParseInt: accepts an optional sign and ASCII digits only. It rejects underscore digit groups and Unicode digits, which Python's `int()` accepts.
- Text.Upper: raises ASCII letters only, not other Unicode letters.
- IcsMaker.EventFor: requires a period number for an entry on a weekday. The source looks the slot up unchecked, and an entry that is missing one raises `KeyError`, which is not modelled. Entries produced by the reader always satisfy this (`IcsMaker.ReadAllBuildable`).
- IcsMaker.EventsOf: requires `Buildable`, the same period-number condition for every entry, for the same unmodelled `KeyError`.
- IcsMaker.CreateCalendar: requires `Buildable` for the same reason; the reader's output meets it (`IcsMaker.ReadAllBuildable`).
- IcsMaker.Stamp: `%Y` is modelled only for four-digit years; the builder only ever uses 2024.
