/**
  The calendar builder: it reads lines `Day, Event Name, Time Slot Index`,
  keeps those whose slot index names one of the seven fixed school periods,
  and turns every event on a weekday MO..FR into a calendar event in the week
  of Monday 2024-09-09, repeating every two weeks on that weekday.

  Time zones and the iCalendar text form are not modelled: an event carries
  its local date and time, and its UID is the string built from them.
*/
module IcsMaker {
  import opened Wrappers
  import opened Text

  // ---------------------------------------------------------------------
  // The period table
  // ---------------------------------------------------------------------

  /** A wall-clock time of day. */
  datatype Clock = Clock(hour: int, minute: int)

  datatype SlotTimes = SlotTimes(start: Clock, end: Clock)

  function Minutes(c: Clock): int {
    c.hour * 60 + c.minute
  }

  predicate ValidClock(c: Clock) {
    0 <= c.hour < 24 && 0 <= c.minute < 60
  }

  /** `time_slots`: the seven school periods, keyed by period number. */
  const TimeSlots: map<int, SlotTimes> := map[
    1 := SlotTimes(Clock(8, 0), Clock(8, 45)),
    2 := SlotTimes(Clock(8, 50), Clock(9, 35)),
    3 := SlotTimes(Clock(9, 40), Clock(10, 25)),
    4 := SlotTimes(Clock(10, 40), Clock(11, 25)),
    5 := SlotTimes(Clock(11, 30), Clock(12, 15)),
    6 := SlotTimes(Clock(12, 20), Clock(13, 5)),
    7 := SlotTimes(Clock(13, 10), Clock(13, 55))
  ]

  /** The periods are numbered 1 to 7, with no gap. */
  lemma TimeSlotKeys(k: int)
    ensures k in TimeSlots <==> 1 <= k <= 7
  {
  }

  /** Every period is a valid time span of exactly 45 minutes. */
  lemma SlotsLast45(k: int)
    requires k in TimeSlots
    ensures ValidClock(TimeSlots[k].start) && ValidClock(TimeSlots[k].end)
    ensures Minutes(TimeSlots[k].start) < Minutes(TimeSlots[k].end)
    ensures Minutes(TimeSlots[k].end) - Minutes(TimeSlots[k].start) == 45
  {
  }

  /** A later period starts strictly after an earlier one ends: periods never overlap. */
  lemma SlotsOrdered(i: int, j: int)
    requires i in TimeSlots && j in TimeSlots && i < j
    ensures Minutes(TimeSlots[i].end) < Minutes(TimeSlots[j].start)
    decreases j - i
  {
    SlotsConsecutive(i);
    if i + 1 < j {
      SlotsOrdered(i + 1, j);
      SlotsLast45(i + 1);
    }
  }

  lemma SlotsConsecutive(i: int)
    requires i in TimeSlots && i + 1 in TimeSlots
    ensures Minutes(TimeSlots[i].end) < Minutes(TimeSlots[i + 1].start)
  {
  }

  /** Two periods that start at the same time are the same period. */
  lemma SlotStartsDistinct(i: int, j: int)
    requires i in TimeSlots && j in TimeSlots
    ensures TimeSlots[i].start == TimeSlots[j].start <==> i == j
  {
    if i < j {
      SlotsOrdered(i, j);
      SlotsLast45(i);
    } else if j < i {
      SlotsOrdered(j, i);
      SlotsLast45(j);
    }
  }

  // ---------------------------------------------------------------------
  // Reading the events file
  // ---------------------------------------------------------------------

  /** One accepted line: the `day`, `name` and `slot_index` entries. */
  datatype EventInfo = EventInfo(day: string, name: string, slotIndex: int)

  /** Why a non-empty line was skipped (the three messages the reader prints). */
  datatype SkipReason = WrongFieldCount | SlotNotInteger | SlotNotInTable

  datatype LineResult = Blank | Skipped(reason: SkipReason) | Accepted(info: EventInfo)

  /**
    The fate of one line of the events file: empty once stripped, skipped
    for one of three reasons, or accepted with its fields stripped and the
    day raised to upper case. An accepted slot index is always a period.
  */
  function ParseLine(raw: string): (r: LineResult)
    ensures r.Blank? <==> AllSpace(raw)
    ensures r.Accepted? ==> r.info.slotIndex in TimeSlots
  {
    var line := Strip(raw);
    if line == [] then Blank else ParseParts(Split(line, ','))
  }

  /**
    The fields of a non-empty line: skipped for their count exactly when
    there are not three of them; otherwise the third, stripped, must be an
    integer that names a period.
  */
  function ParseParts(parts: seq<string>): (r: LineResult)
    ensures !r.Blank?
    ensures r == Skipped(WrongFieldCount) <==> |parts| != 3
    ensures r.Accepted? ==> r.info.slotIndex in TimeSlots
  {
    if |parts| != 3 then Skipped(WrongFieldCount)
    else
      match ParseInt(Strip(parts[2]))
      case None => Skipped(SlotNotInteger)
      case Some(n) =>
        if n !in TimeSlots then Skipped(SlotNotInTable)
        else Accepted(EventInfo(Upper(Strip(parts[0])), Strip(parts[1]), n))
  }

  /**
    A non-blank line is skipped for its field count exactly when it does not
    hold two commas; spaces around the line do not matter.
  */
  lemma FieldCountSkips(raw: string)
    requires !AllSpace(raw)
    ensures ParseLine(raw) == Skipped(WrongFieldCount) <==> Count(raw, ',') != 2
  {
    CountStrip(raw, ',');
  }

  /** A comma inside the event name makes four fields, so the line is skipped. */
  lemma CommaInNameSkips(day: string, name: string, slot: string)
    requires ',' in name
    ensures ParseLine(day + "," + name + "," + slot) == Skipped(WrongFieldCount)
  {
    var dn := day + "," + name;
    var raw := dn + "," + slot;
    assert Count(",", ',') == 1;
    CountAppend(dn + ",", slot, ',');
    CountAppend(dn, ",", ',');
    CountAppend(day + ",", name, ',');
    CountAppend(day, ",", ',');
    assert Count(raw, ',') >= 3;
    assert raw[|day|] == ',';
    FieldCountSkips(raw);
  }

  /**
    A line made of three comma-free fields: it is accepted exactly when the
    stripped third field is an integer naming a period, and then the day is
    the stripped, upper-cased first field and the name the stripped second.
  */
  lemma ParseFields(raw: string, day: string, name: string, slot: string)
    requires Strip(raw) == day + "," + name + "," + slot
    requires ',' !in day && ',' !in name && ',' !in slot
    ensures ParseInt(Strip(slot)).None? ==> ParseLine(raw) == Skipped(SlotNotInteger)
    ensures ParseInt(Strip(slot)).Some? && ParseInt(Strip(slot)).value !in TimeSlots ==>
              ParseLine(raw) == Skipped(SlotNotInTable)
    ensures ParseInt(Strip(slot)).Some? && ParseInt(Strip(slot)).value in TimeSlots ==>
              ParseLine(raw) == Accepted(EventInfo(Upper(Strip(day)), Strip(name), ParseInt(Strip(slot)).value))
  {
    var line := Strip(raw);
    assert Join([day, name, slot], ',') == line by {
      assert Join([name, slot], ',') == name + "," + slot by {
        assert [name, slot][1..] == [slot];
      }
      assert [day, name, slot][1..] == [name, slot];
    }
    SplitJoin([day, name, slot], ',');
    assert line[|day|] == ',';
  }

  /** The events taken from the lines, in order: the accepted lines' fields. */
  function ReadAll(lines: seq<string>): (events: seq<EventInfo>)
    ensures |events| <= |lines|
    decreases |lines|
  {
    if lines == [] then []
    else
      var events := ReadAll(lines[..|lines| - 1]);
      match ParseLine(lines[|lines| - 1])
      case Accepted(info) => events + [info]
      case _ => events
  }

  lemma ReadAllLast(lines: seq<string>, raw: string)
    ensures ReadAll(lines + [raw]) ==
              ReadAll(lines) + (if ParseLine(raw).Accepted? then [ParseLine(raw).info] else [])
  {
    assert (lines + [raw])[..|lines|] == lines;
  }

  /** The checks of the reader's loop body, in the order it makes them, decide `ParseLine`. */
  lemma ParseLineCases(raw: string)
    ensures var line := Strip(raw);
      var parts := Split(line, ',');
      (line == [] || |parts| != 3 ==> !ParseLine(raw).Accepted?) &&
      (line != [] && |parts| == 3 ==>
        var n := ParseInt(Strip(parts[2]));
        (n.None? || n.value !in TimeSlots ==> !ParseLine(raw).Accepted?) &&
        (n.Some? && n.value in TimeSlots ==>
          ParseLine(raw) == Accepted(EventInfo(Upper(Strip(parts[0])), Strip(parts[1]), n.value))))
  {
  }

  lemma ReadAllPrefix(lines: seq<string>, i: nat)
    requires i < |lines|
    ensures ReadAll(lines[..i + 1]) ==
              ReadAll(lines[..i]) + (if ParseLine(lines[i]).Accepted? then [ParseLine(lines[i]).info] else [])
  {
    assert lines[..i + 1][..i] == lines[..i];
  }

  /** Reading two files one after the other gives the events of both, in order. */
  lemma {:induction false} ReadAllAppend(a: seq<string>, b: seq<string>)
    ensures ReadAll(a + b) == ReadAll(a) + ReadAll(b)
    decreases |b|
  {
    if b == [] {
      assert a + b == a;
    } else {
      var b', raw := b[..|b| - 1], b[|b| - 1];
      assert a + b == (a + b') + [raw];
      assert b == b' + [raw];
      ReadAllAppend(a, b');
      ReadAllLast(a + b', raw);
      ReadAllLast(b', raw);
    }
  }

  /**
    Removing a line that is not accepted (an empty line or a skipped one)
    changes nothing; an accepted line adds exactly its own event at its place.
  */
  lemma ReadAllLine(a: seq<string>, raw: string, b: seq<string>)
    ensures !ParseLine(raw).Accepted? ==> ReadAll(a + [raw] + b) == ReadAll(a + b)
    ensures ParseLine(raw).Accepted? ==>
              ReadAll(a + [raw] + b) == ReadAll(a) + [ParseLine(raw).info] + ReadAll(b)
  {
    ReadAllAppend(a + [raw], b);
    ReadAllAppend(a, b);
    ReadAllLast(a, raw);
  }

  /**
    `read_events_from_file` over the lines of the file: strip each line,
    ignore it when empty, skip it unless it splits into three fields whose
    third is an integer naming a period, and otherwise append its event.
  */
  method ReadEvents(lines: seq<string>) returns (events: seq<EventInfo>)
    ensures events == ReadAll(lines)
  {
    events := [];
    for i := 0 to |lines|
      invariant events == ReadAll(lines[..i])
    {
      ReadAllPrefix(lines, i);
      ParseLineCases(lines[i]);
      var line := Strip(lines[i]);
      if line != [] {
        var parts := Split(line, ',');
        if |parts| != 3 {
          continue;
        }
        var slotIndex := ParseInt(Strip(parts[2]));
        if slotIndex.None? || slotIndex.value !in TimeSlots {
          continue;
        }
        events := events + [EventInfo(Upper(Strip(parts[0])), Strip(parts[1]), slotIndex.value)];
      }
    }
    assert lines[..|lines|] == lines;
  }

  // ---------------------------------------------------------------------
  // Building the calendar
  // ---------------------------------------------------------------------

  /** `day_offsets`: days after Monday 2024-09-09 of each weekday code. */
  const DayOffsets: map<string, int> := map["MO" := 0, "TU" := 1, "WE" := 2, "TH" := 3, "FR" := 4]

  datatype Date = Date(year: int, month: int, day: int)

  datatype DateTime = DateTime(date: Date, time: Clock)

  /** The `rrule` property: `{'freq': 'weekly', 'interval': 2, 'byday': day}`. */
  datatype Recurrence = Recurrence(freq: string, interval: int, byday: string)

  datatype Event = Event(
    summary: string,
    start: DateTime,
    end: DateTime,
    location: string,
    description: string,
    uid: string,
    rrule: Recurrence)

  datatype Calendar = Calendar(prodid: string, version: string, events: seq<Event>)

  const ProdId := "-//Your Organization//NONSGML v1.0//EN"
  const Location := "Room 101"
  const Description := "Replace this with the actual event details"
  const UidSuffix := "-dummy@yourdomain.com"

  /** Two decimal digits, zero-padded: strftime's `%m`, `%d`, `%H`, `%M`, `%S`. */
  function Pad2(n: int): (s: string)
    requires 0 <= n < 100
    ensures |s| == 2 && IsDigits(s) && DigitsValue(s) == n
  {
    var s := [DigitChar(n / 10), DigitChar(n % 10)];
    assert DigitsValue(s[..1]) == n / 10 by {
      assert s[..1][..0] == [];
    }
    assert DigitsValue(s) == 10 * DigitsValue(s[..1]) + n % 10;
    s
  }

  /** The value of four digits is that of the first two, times 100, plus that of the last two. */
  lemma DigitsValueOfFour(p: string, q: string)
    requires |p| == 2 && |q| == 2 && IsDigits(p) && IsDigits(q)
    ensures IsDigits(p + q) && DigitsValue(p + q) == 100 * DigitsValue(p) + DigitsValue(q)
  {
    var s := p + q;
    var d0, d1 := q[0] as int - '0' as int, q[1] as int - '0' as int;
    assert DigitsValue(q) == 10 * d0 + d1 by {
      assert q[..1][..0] == [];
      assert DigitsValue(q[..1]) == d0;
    }
    assert DigitsValue(s[..3]) == 10 * DigitsValue(p) + d0 by {
      assert s[..3][..2] == p;
    }
    assert DigitsValue(s) == 10 * DigitsValue(s[..3]) + d1;
  }

  /** Four decimal digits: strftime's `%Y` for years 1000 to 9999. */
  function Pad4(n: int): (s: string)
    requires 1000 <= n < 10000
    ensures |s| == 4 && IsDigits(s) && DigitsValue(s) == n
  {
    DigitsValueOfFour(Pad2(n / 100), Pad2(n % 100));
    Pad2(n / 100) + Pad2(n % 100)
  }

  predicate ValidDateTime(t: DateTime) {
    1000 <= t.date.year < 10000 && 1 <= t.date.month <= 12 && 1 <= t.date.day <= 31 &&
    ValidClock(t.time)
  }

  /**
    `strftime('%Y%m%dT%H%M%S')`, seconds always zero here: fifteen characters
    with the `T` between date and time; `StampFields` says where each field sits.
  */
  function Stamp(t: DateTime): (s: string)
    requires ValidDateTime(t)
    ensures |s| == 15 && s[8] == 'T'
  {
    Pad4(t.date.year) + Pad2(t.date.month) + Pad2(t.date.day) + "T" +
    Pad2(t.time.hour) + Pad2(t.time.minute) + Pad2(0)
  }

  /** The UID `YYYYMMDDTHHMMSS-dummy@yourdomain.com` of an event starting at `t`. */
  function Uid(t: DateTime): (u: string)
    requires ValidDateTime(t)
    ensures |u| == 15 + |UidSuffix| && u[8] == 'T' && u[15] == '-'
  {
    Stamp(t) + UidSuffix
  }

  /**
    The UID reads `YYYYMMDDTHHMMSS` followed by the fixed suffix: the year,
    month, day, hour, minute and zero seconds of the start, each as the
    decimal digits of its value.
  */
  lemma UidFormat(t: DateTime)
    requires ValidDateTime(t)
    ensures var u := Uid(t);
      DigitsValue(u[..4]) == t.date.year && DigitsValue(u[4..6]) == t.date.month &&
      DigitsValue(u[6..8]) == t.date.day && u[8] == 'T' &&
      DigitsValue(u[9..11]) == t.time.hour && DigitsValue(u[11..13]) == t.time.minute &&
      u[13..15] == "00" && u[15..] == UidSuffix
  {
    var u := Uid(t);
    StampFields(t);
    assert u[..15] == Stamp(t);
    assert u[..4] == Stamp(t)[..4] && u[4..6] == Stamp(t)[4..6] && u[6..8] == Stamp(t)[6..8];
    assert u[9..11] == Stamp(t)[9..11] && u[11..13] == Stamp(t)[11..13] && u[13..15] == Stamp(t)[13..];
  }

  /**
    The event built for one entry, or `None` when its day is not one of
    MO..FR and the entry is skipped. The source looks the slot up without a
    check, so an entry on a weekday must carry a period number.
  */
  function EventFor(info: EventInfo): (e: Option<Event>)
    requires info.day in DayOffsets ==> info.slotIndex in TimeSlots
    ensures e.Some? <==> info.day in DayOffsets
    ensures e.Some? ==> e.value.summary == info.name && e.value.rrule.byday == info.day
  {
    if info.day !in DayOffsets then None
    else
      var date := Date(2024, 9, 9 + DayOffsets[info.day]);
      var times := TimeSlots[info.slotIndex];
      var start := DateTime(date, times.start);
      SlotsLast45(info.slotIndex);
      Some(Event(info.name, start, DateTime(date, times.end), Location, Description, Uid(start),
                 Recurrence("weekly", 2, info.day)))
  }

  /**
    Day of the week of a Gregorian date, 0 for Sunday to 6 for Saturday
    (Sakamoto's method), an independent reference for the weekday codes.
  */
  function Weekday(d: Date): (w: int)
    requires 1 <= d.month <= 12
    ensures 0 <= w < 7
  {
    var t := [0, 3, 2, 5, 0, 3, 5, 1, 4, 6, 2, 4];
    var y := if d.month < 3 then d.year - 1 else d.year;
    (y + y / 4 - y / 100 + y / 400 + t[d.month - 1] + d.day) % 7
  }

  /** In September 2024 the 1st is a Sunday, so day `d` has weekday `(d + 6) % 7`. */
  lemma WeekdaySeptember2024(d: int)
    ensures Weekday(Date(2024, 9, d)) == (d + 6) % 7
  {
  }

  /** The iCalendar weekday code of each `Weekday` value. */
  const WeekdayCodes: seq<string> := ["SU", "MO", "TU", "WE", "TH", "FR", "SA"]

  /** The fixed facts of every event built, taken as a specification of one event. */
  predicate WellFormedEvent(e: Event) {
    ValidDateTime(e.start) && ValidDateTime(e.end) &&
    e.start.date == e.end.date &&
    e.start.date.year == 2024 && e.start.date.month == 9 && 9 <= e.start.date.day <= 13 &&
    Minutes(e.end.time) - Minutes(e.start.time) == 45 &&
    e.rrule.freq == "weekly" && e.rrule.interval == 2 &&
    WeekdayCodes[Weekday(e.start.date)] == e.rrule.byday &&
    e.location == Location && e.description == Description &&
    e.uid == Uid(e.start)
  }

  /**
    The event for an entry on a weekday falls on that weekday of the week of
    2024-09-09, spans the entry's period, repeats every two weeks on the same
    weekday, and has the UID built from its start.
  */
  lemma EventForSpec(info: EventInfo)
    requires info.day in DayOffsets && info.slotIndex in TimeSlots
    ensures var e := EventFor(info).value;
      WellFormedEvent(e) &&
      e.start.date == Date(2024, 9, 9 + DayOffsets[info.day]) &&
      e.start.time == TimeSlots[info.slotIndex].start &&
      e.end.time == TimeSlots[info.slotIndex].end &&
      WeekdayCodes[Weekday(e.start.date)] == info.day
  {
    SlotsLast45(info.slotIndex);
    DayOffsetsWeekdays(info.day);
  }

  /** Equal two-digit strings have equal values. */
  lemma Pad2Injective(m: int, n: int)
    requires 0 <= m < 100 && 0 <= n < 100
    ensures Pad2(m) == Pad2(n) <==> m == n
  {
    if Pad2(m) == Pad2(n) {
      assert Pad2(m)[0] == Pad2(n)[0] && Pad2(m)[1] == Pad2(n)[1];
    }
  }

  /**
    Two events built from entries on weekdays get the same UID exactly when
    they share day and period: two classes in one period collide.
  */
  lemma UidDistinct(a: EventInfo, b: EventInfo)
    requires a.day in DayOffsets && a.slotIndex in TimeSlots
    requires b.day in DayOffsets && b.slotIndex in TimeSlots
    ensures EventFor(a).value.uid == EventFor(b).value.uid <==>
              a.day == b.day && a.slotIndex == b.slotIndex
  {
    var ea, eb := EventFor(a).value, EventFor(b).value;
    EventForSpec(a);
    EventForSpec(b);
    if ea.uid == eb.uid {
      UidDetermines(ea.start, eb.start);
      DayOffsetsInjective(a.day, b.day);
      SlotStartsDistinct(a.slotIndex, b.slotIndex);
    }
  }

  /** Each day code's offset from Monday 2024-09-09 lands on the weekday the code names. */
  lemma DayOffsetsWeekdays(d: string)
    requires d in DayOffsets
    ensures 0 <= DayOffsets[d] <= 4
    ensures WeekdayCodes[Weekday(Date(2024, 9, 9 + DayOffsets[d]))] == d
  {
    WeekdaySeptember2024(9 + DayOffsets[d]);
  }

  lemma DayOffsetsInjective(d: string, e: string)
    requires d in DayOffsets && e in DayOffsets
    ensures DayOffsets[d] == DayOffsets[e] <==> d == e
  {
  }

  /** Where each field of the date and time sits in a stamp; the seconds are `00`. */
  lemma StampFields(t: DateTime)
    requires ValidDateTime(t)
    ensures Stamp(t)[..4] == Pad4(t.date.year)
    ensures Stamp(t)[4..6] == Pad2(t.date.month)
    ensures Stamp(t)[6..8] == Pad2(t.date.day)
    ensures Stamp(t)[9..11] == Pad2(t.time.hour)
    ensures Stamp(t)[11..13] == Pad2(t.time.minute)
    ensures Stamp(t)[13..] == "00"
  {
  }

  /** Equal UIDs come from starts on the same day of the month at the same time. */
  lemma UidDetermines(s: DateTime, t: DateTime)
    requires ValidDateTime(s) && ValidDateTime(t)
    requires Uid(s) == Uid(t)
    ensures s.date.day == t.date.day && s.time == t.time
  {
    assert Stamp(s) == Uid(s)[..15] && Stamp(t) == Uid(t)[..15];
    StampFields(s);
    StampFields(t);
    Pad2Injective(s.date.day, t.date.day);
    Pad2Injective(s.time.hour, t.time.hour);
    Pad2Injective(s.time.minute, t.time.minute);
  }

  /** An entry `create_calendar` can process: on a weekday, its slot index is a period. */
  predicate BuildableEntry(info: EventInfo) {
    info.day in DayOffsets ==> info.slotIndex in TimeSlots
  }

  /** The entries `create_calendar` can process without a missing-slot lookup. */
  predicate Buildable(infos: seq<EventInfo>) {
    forall info :: info in infos ==> BuildableEntry(info)
  }

  /** The events built from a list of entries, in order, skipping non-weekdays. */
  function EventsOf(infos: seq<EventInfo>): (events: seq<Event>)
    requires Buildable(infos)
    ensures |events| <= |infos|
    decreases |infos|
  {
    if infos == [] then []
    else
      var info := infos[|infos| - 1];
      assert info in infos;
      var events := EventsOf(infos[..|infos| - 1]);
      match EventFor(info)
      case Some(e) => events + [e]
      case None => events
  }

  lemma EventsOfLast(infos: seq<EventInfo>, info: EventInfo)
    requires Buildable(infos + [info])
    requires BuildableEntry(info)
    ensures Buildable(infos)
    ensures EventsOf(infos + [info]) ==
              EventsOf(infos) + (if EventFor(info).Some? then [EventFor(info).value] else [])
  {
    assert (infos + [info])[..|infos|] == infos;
  }

  lemma EventsOfPrefix(infos: seq<EventInfo>, i: nat)
    requires Buildable(infos) && i < |infos|
    ensures Buildable(infos[..i]) && Buildable(infos[..i + 1]) && BuildableEntry(infos[i])
    ensures EventsOf(infos[..i + 1]) ==
              EventsOf(infos[..i]) + (if EventFor(infos[i]).Some? then [EventFor(infos[i]).value] else [])
  {
    assert infos[i] in infos;
    assert infos[..i + 1][..i] == infos[..i];
  }

  /** Building from two lists one after the other gives the events of both, in order. */
  lemma {:induction false} EventsOfAppend(a: seq<EventInfo>, b: seq<EventInfo>)
    requires Buildable(a + b)
    ensures Buildable(a) && Buildable(b)
    ensures EventsOf(a + b) == EventsOf(a) + EventsOf(b)
    decreases |b|
  {
    if b == [] {
      assert a + b == a;
    } else {
      var b', info := b[..|b| - 1], b[|b| - 1];
      assert a + b == (a + b') + [info];
      assert b == b' + [info];
      EventsOfLast(a + b', info);
      EventsOfAppend(a, b');
      EventsOfLast(b', info);
    }
  }

  /** An entry whose day is not one of MO..FR (Saturday, say) is dropped and nothing else changes. */
  lemma NonWeekdaySkipped(a: seq<EventInfo>, info: EventInfo, b: seq<EventInfo>)
    requires Buildable(a + [info] + b)
    requires info.day !in DayOffsets
    ensures Buildable(a + b)
    ensures EventsOf(a + [info] + b) == EventsOf(a + b)
  {
    EventsOfAppend(a + [info], b);
    EventsOfAppend(a, b);
    EventsOfLast(a, info);
  }

  /**
    When every entry is on a weekday, there is exactly one event per entry,
    in the order of the entries.
  */
  lemma {:induction false} OneEventPerEntry(infos: seq<EventInfo>)
    requires forall i :: 0 <= i < |infos| ==> infos[i].day in DayOffsets && infos[i].slotIndex in TimeSlots
    ensures |EventsOf(infos)| == |infos|
    ensures forall i :: 0 <= i < |infos| ==> EventsOf(infos)[i] == EventFor(infos[i]).value
    decreases |infos|
  {
    if infos != [] {
      var init, last := infos[..|infos| - 1], infos[|infos| - 1];
      assert infos == init + [last];
      OneEventPerEntry(init);
      EventsOfLast(init, last);
    }
  }

  /** Every event built is well formed. */
  lemma {:induction false} EventsWellFormed(infos: seq<EventInfo>)
    requires Buildable(infos)
    ensures forall e :: e in EventsOf(infos) ==> WellFormedEvent(e)
    decreases |infos|
  {
    if infos != [] {
      var init, info := infos[..|infos| - 1], infos[|infos| - 1];
      assert infos == init + [info];
      EventsOfLast(init, info);
      EventsWellFormed(init);
      if info.day in DayOffsets {
        EventForSpec(info);
      }
    }
  }

  /**
    `create_calendar`: a calendar with the fixed product id and version 2.0,
    holding one event per entry on a weekday, in the order of the entries.
  */
  method CreateCalendar(infos: seq<EventInfo>) returns (cal: Calendar)
    requires Buildable(infos)
    ensures cal == Calendar(ProdId, "2.0", EventsOf(infos))
    ensures forall e :: e in cal.events ==> WellFormedEvent(e)
  {
    var events: seq<Event> := [];
    for i := 0 to |infos|
      invariant Buildable(infos[..i])
      invariant events == EventsOf(infos[..i])
    {
      EventsOfPrefix(infos, i);
      var info := infos[i];
      if info.day !in DayOffsets {
        assert EventFor(info) == None;
        continue;
      }
      var offset := DayOffsets[info.day];
      var times := TimeSlots[info.slotIndex];
      var date := Date(2024, 9, 9 + offset);
      var start := DateTime(date, times.start);
      SlotsLast45(info.slotIndex);
      DayOffsetsWeekdays(info.day);
      var event := Event(info.name, start, DateTime(date, times.end), Location, Description,
                         Uid(start), Recurrence("weekly", 2, info.day));
      assert EventFor(info) == Some(event);
      events := events + [event];
    }
    assert infos[..|infos|] == infos;
    EventsWellFormed(infos);
    cal := Calendar(ProdId, "2.0", events);
  }

  /** Every event the reader accepts has a slot index that is a period, 1 to 7. */
  lemma {:induction false} ReadAllSlots(lines: seq<string>)
    ensures forall e :: e in ReadAll(lines) ==> 1 <= e.slotIndex <= 7
    decreases |lines|
  {
    if lines != [] {
      ReadAllSlots(lines[..|lines| - 1]);
      var r := ParseLine(lines[|lines| - 1]);
      if r.Accepted? {
        TimeSlotKeys(r.info.slotIndex);
      }
    }
  }

  /** Whatever the reader accepts, the builder can process. */
  lemma ReadAllBuildable(lines: seq<string>)
    ensures Buildable(ReadAll(lines))
  {
    ReadAllSlots(lines);
    forall e | e in ReadAll(lines)
      ensures e.slotIndex in TimeSlots
    {
      TimeSlotKeys(e.slotIndex);
    }
  }
}
