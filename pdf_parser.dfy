/**
  The line scanner of the timetable extractor (`parse_schedule_text`): a single
  pass over the lines of the text taken from the PDF, with a current day
  (unset, or one of MO..FR) and a slot number as its state. A line that is a
  Croatian day name selects that day and resets the slot to 0; a line of the
  form `<digits>.` sets the slot; any other non-empty line seen while a day is
  selected becomes a record `[day, line, slot]`.

  The specification splits one iteration in two: `Classify` decides which of
  the four branches a raw line takes, and `Step` applies that branch to the
  loop's state. `Scan` folds `Step` over the classified lines.
*/
module PdfParser {
  import opened Wrappers
  import opened Text

  /** `day_map`: Croatian day names to two-letter day codes; Saturday is absent. */
  const DayMap: map<string, string> := map[
    "Ponedjeljak" := "MO",
    "Utorak" := "TU",
    "Srijeda" := "WE",
    "\U{010C}etvrtak" := "TH",
    "Petak" := "FR"
  ]

  const DayCodes: set<string> := {"MO", "TU", "WE", "TH", "FR"}

  /** One row of the schedule: `[current_day, line, slot]`. */
  datatype Record = Record(day: string, className: string, slot: int)

  /** The loop's variables: `current_day`, `slot` and the `schedule` built so far. */
  datatype ScanState = ScanState(day: Option<string>, slot: int, schedule: seq<Record>)

  const Start: ScanState := ScanState(None, 0, [])

  /** The branch a stripped line takes: a day name, a slot marker, other text, or nothing. */
  datatype LineKind = DayName(code: string) | SlotMarker(n: nat) | Text(line: string) | Empty

  /**
    `line.endswith('.') and line[:-1].isdigit()`. A marker starts with a digit,
    so it is already stripped and is never a day name: the order of the
    day-name and marker tests does not matter.
  */
  predicate IsSlotMarker(line: string)
    ensures IsSlotMarker(line) ==> IsStripped(line) && line !in DayMap
  {
    |line| > 0 && line[|line| - 1] == '.' && IsDigits(line[..|line| - 1])
  }

  /** `int(line[:-1])` for a slot marker: the value `int()` reads from its digits. */
  function MarkerValue(line: string): (n: nat)
    requires IsSlotMarker(line)
    ensures ParseInt(line[..|line| - 1]) == Some(n)
  {
    DigitsValue(line[..|line| - 1])
  }

  /**
    Strip the raw line, then test it as the `if`/`elif` chain of the loop does.
    A line takes no branch exactly when it is whitespace only; a day name
    gives one of MO..FR; other text is kept stripped and non-empty.
  */
  function Classify(raw: string): (k: LineKind)
    ensures k.DayName? ==> k.code in DayCodes
    ensures k.Text? ==> k.line != [] && IsStripped(k.line)
  {
    var line := Strip(raw);
    if line in DayMap then DayName(DayMap[line])
    else if IsSlotMarker(line) then SlotMarker(MarkerValue(line))
    else if line != [] then Text(line)
    else Empty
  }

  predicate IsDayLine(raw: string) {
    Strip(raw) in DayMap
  }

  predicate IsBlank(raw: string) {
    Strip(raw) == []
  }

  /** A line that, once stripped, is neither empty, nor a day name, nor a slot marker. */
  predicate IsClassLine(raw: string) {
    var line := Strip(raw);
    line != [] && line !in DayMap && !IsSlotMarker(line)
  }

  /** The classification of every line, in order. */
  function Kinds(lines: seq<string>): (ks: seq<LineKind>)
    ensures |ks| == |lines|
  {
    seq(|lines|, i requires 0 <= i < |lines| => Classify(lines[i]))
  }

  /**
    One iteration of the loop, on a classified line. It keeps the records
    already emitted and appends one exactly when the line is text and a day
    is selected.
  */
  function Step(st: ScanState, kind: LineKind): (r: ScanState)
    ensures |r.schedule| == |st.schedule| + (if kind.Text? && st.day.Some? then 1 else 0)
    ensures r.schedule[..|st.schedule|] == st.schedule
  {
    match kind
    case DayName(code) => ScanState(Some(code), 0, st.schedule)
    case SlotMarker(n) => st.(slot := n)
    case Text(line) =>
      if st.day.Some? then st.(schedule := st.schedule + [Record(st.day.value, line, st.slot)]) else st
    case Empty => st
  }

  /**
    The loop run from state `st` over classified lines. The schedule only
    grows, by at most one record per line, so what was emitted earlier stays
    in front.
  */
  function Run(st: ScanState, ks: seq<LineKind>): (r: ScanState)
    ensures |st.schedule| <= |r.schedule| <= |st.schedule| + |ks|
    ensures r.schedule[..|st.schedule|] == st.schedule
    decreases |ks|
  {
    if ks == [] then st
    else Step(Run(st, ks[..|ks| - 1]), ks[|ks| - 1])
  }

  /** The state after the whole loop, started with no day and slot 0: at most one record per line. */
  function Scan(lines: seq<string>): (r: ScanState)
    ensures |r.schedule| <= |lines|
  {
    Run(Start, Kinds(lines))
  }

  /**
    `parse_schedule_text(text)`: split the text on newlines and run the loop;
    the result is the schedule of `Scan`, with at most one record per line.
  */
  method ParseScheduleText(text: string) returns (schedule: seq<Record>)
    ensures schedule == Scan(Split(text, '\n')).schedule
    ensures |schedule| <= |Split(text, '\n')|
  {
    var lines := Split(text, '\n');
    ghost var ks := Kinds(lines);
    var currentDay: Option<string> := None;
    var slot := 0;
    schedule := [];
    for i := 0 to |lines|
      invariant Run(Start, ks[..i]) == ScanState(currentDay, slot, schedule)
    {
      RunPrefix(Start, ks, i);
      StepCases(ScanState(currentDay, slot, schedule), lines[i]);
      var line := Strip(lines[i]);
      if line in DayMap {
        currentDay := Some(DayMap[line]);
        slot := 0;
      } else if IsSlotMarker(line) {
        slot := MarkerValue(line);
      } else if currentDay.Some? && line != [] {
        schedule := schedule + [Record(currentDay.value, line, slot)];
      }
    }
    assert ks[..|lines|] == ks;
  }

  /** One iteration of the loop on a raw line is `Step` on that line's classification. */
  lemma StepCases(st: ScanState, raw: string)
    ensures var line := Strip(raw);
      Step(st, Classify(raw)) ==
        if line in DayMap then ScanState(Some(DayMap[line]), 0, st.schedule)
        else if IsSlotMarker(line) then st.(slot := MarkerValue(line))
        else if st.day.Some? && line != [] then st.(schedule := st.schedule + [Record(st.day.value, line, st.slot)])
        else st
  {
  }

  lemma RunPrefix(st: ScanState, ks: seq<LineKind>, i: nat)
    requires i < |ks|
    ensures Run(st, ks[..i + 1]) == Step(Run(st, ks[..i]), ks[i])
  {
    assert ks[..i + 1][..i] == ks[..i];
  }

  lemma KindsLast(lines: seq<string>, raw: string)
    ensures Kinds(lines + [raw]) == Kinds(lines) + [Classify(raw)]
  {
    KindsAppend(lines, [raw]);
  }

  lemma KindsAppend(a: seq<string>, b: seq<string>)
    ensures Kinds(a + b) == Kinds(a) + Kinds(b)
  {
    var l, k := a + b, Kinds(a) + Kinds(b);
    forall i | 0 <= i < |l|
      ensures Kinds(l)[i] == k[i]
    {
      if i >= |a| {
        assert l[i] == b[i - |a|];
      }
    }
  }

  lemma RunLast(st: ScanState, ks: seq<LineKind>, k: LineKind)
    ensures Run(st, ks + [k]) == Step(Run(st, ks), k)
  {
    assert (ks + [k])[..|ks|] == ks;
  }

  /** Running over `a + b` is running over `a`, then over `b`. */
  lemma {:induction false} RunAppend(st: ScanState, a: seq<LineKind>, b: seq<LineKind>)
    ensures Run(st, a + b) == Run(Run(st, a), b)
    decreases |b|
  {
    if b == [] {
      assert a + b == a;
    } else {
      var b', k := b[..|b| - 1], b[|b| - 1];
      assert a + b == (a + b') + [k];
      assert b == b' + [k];
      RunAppend(st, a, b');
      RunLast(st, a + b', k);
      RunLast(Run(st, a), b', k);
    }
  }

  /** The codes `day_map` yields are the five weekday codes. */
  lemma DayMapValues()
    ensures DayMap.Values == DayCodes
  {
    assert DayMap["Ponedjeljak"] == "MO" && DayMap["Utorak"] == "TU" && DayMap["Srijeda"] == "WE";
    assert DayMap["\U{010C}etvrtak"] == "TH" && DayMap["Petak"] == "FR";
  }

  /**
    What every emitted record satisfies: its day is one of MO..FR, its slot is
    non-negative, and its class name is a stripped non-empty line that is
    neither a day name nor a slot marker.
  */
  predicate GoodRecord(r: Record) {
    r.day in DayCodes && r.slot >= 0 &&
    r.className != [] && IsStripped(r.className) && r.className !in DayMap && !IsSlotMarker(r.className)
  }

  predicate GoodKind(k: LineKind) {
    match k
    case DayName(code) => code in DayCodes
    case Text(line) => line != [] && IsStripped(line) && line !in DayMap && !IsSlotMarker(line)
    case _ => true
  }

  predicate GoodState(st: ScanState) {
    (st.day.Some? ==> st.day.value in DayCodes) &&
    st.slot >= 0 &&
    forall r :: r in st.schedule ==> GoodRecord(r)
  }

  /** Classification yields only the five day codes and stripped class lines. */
  lemma ClassifyGood(raw: string)
    ensures GoodKind(Classify(raw))
  {
    DayMapValues();
  }

  lemma {:induction false} RunGood(st: ScanState, ks: seq<LineKind>)
    requires GoodState(st)
    requires forall i :: 0 <= i < |ks| ==> GoodKind(ks[i])
    ensures GoodState(Run(st, ks))
    decreases |ks|
  {
    if ks != [] {
      RunGood(st, ks[..|ks| - 1]);
    }
  }

  /**
    Every record of the schedule has a day among MO..FR, the values of
    `day_map`; a non-negative slot; and a stripped, non-empty class name
    that is not a day name nor a slot marker.
  */
  lemma ScheduleWellFormed(lines: seq<string>)
    ensures forall r :: r in Scan(lines).schedule ==> GoodRecord(r)
  {
    forall i | 0 <= i < |lines|
      ensures GoodKind(Kinds(lines)[i])
    {
      ClassifyGood(lines[i]);
    }
    RunGood(Start, Kinds(lines));
  }

  /** No more records than lines, and the records of earlier lines come first. */
  lemma ScheduleOrder(lines: seq<string>, k: nat)
    requires k <= |lines|
    ensures |Scan(lines).schedule| <= |lines|
    ensures Scan(lines[..k]).schedule <= Scan(lines).schedule
  {
    assert lines == lines[..k] + lines[k..];
    KindsAppend(lines[..k], lines[k..]);
    RunAppend(Start, Kinds(lines[..k]), Kinds(lines[k..]));
  }

  lemma ClassifyBlank(raw: string)
    requires IsBlank(raw)
    ensures Classify(raw) == Empty
  {
  }

  lemma ClassifyDay(raw: string)
    requires IsDayLine(raw)
    ensures Classify(raw) == DayName(DayMap[Strip(raw)])
  {
  }

  lemma ClassifyClass(raw: string)
    requires IsClassLine(raw)
    ensures Classify(raw) == Text(Strip(raw))
  {
  }

  /** A blank or whitespace-only line changes nothing, wherever it stands. */
  lemma BlankLineIgnored(a: seq<string>, blank: string, b: seq<string>)
    requires IsBlank(blank)
    ensures Scan(a + [blank] + b) == Scan(a + b)
  {
    ClassifyBlank(blank);
    KindsOf3(a, blank, b);
    KindsAppend(a, b);
    RunSkipEmpty(Start, Kinds(a), Kinds(b));
  }

  lemma KindsOf3(a: seq<string>, x: string, b: seq<string>)
    ensures Kinds(a + [x] + b) == Kinds(a) + [Classify(x)] + Kinds(b)
  {
    KindsAppend(a + [x], b);
    KindsAppend(a, [x]);
  }

  lemma RunSkipEmpty(st: ScanState, ka: seq<LineKind>, kb: seq<LineKind>)
    ensures Run(st, ka + [Empty] + kb) == Run(st, ka + kb)
  {
    RunAppend(st, ka + [Empty], kb);
    RunAppend(st, ka, kb);
    RunLast(st, ka, Empty);
  }

  /**
    Two states that agree on the day, the schedule, and the slot once a day is
    set: the slot before any day line is never used, since a day line resets it.
  */
  predicate Agree(x: ScanState, y: ScanState) {
    x.day == y.day && x.schedule == y.schedule && (x.day.Some? ==> x.slot == y.slot)
  }

  lemma {:induction false} RunAgree(x: ScanState, y: ScanState, ks: seq<LineKind>)
    requires Agree(x, y)
    ensures Agree(Run(x, ks), Run(y, ks))
    decreases |ks|
  {
    if ks != [] {
      RunAgree(x, y, ks[..|ks| - 1]);
    }
  }

  /** No line of `lines` is a day name. */
  predicate NoDayLine(lines: seq<string>) {
    forall j :: 0 <= j < |lines| ==> !IsDayLine(lines[j])
  }

  predicate NoDayName(ks: seq<LineKind>) {
    forall j :: 0 <= j < |ks| ==> !ks[j].DayName?
  }

  lemma KindsNoDay(lines: seq<string>)
    requires NoDayLine(lines)
    ensures NoDayName(Kinds(lines))
  {
  }

  lemma {:induction false} RunWithoutDay(ks: seq<LineKind>)
    requires NoDayName(ks)
    ensures Run(Start, ks).day == None && Run(Start, ks).schedule == []
    decreases |ks|
  {
    if ks != [] {
      RunWithoutDay(ks[..|ks| - 1]);
    }
  }

  /**
    Lines before the first day line produce no record and do not affect what
    the lines after them produce.
  */
  lemma NothingBeforeFirstDay(pre: seq<string>, rest: seq<string>)
    requires NoDayLine(pre)
    ensures Scan(pre).schedule == []
    ensures Scan(pre + rest).schedule == Scan(rest).schedule
  {
    KindsNoDay(pre);
    RunWithoutDay(Kinds(pre));
    KindsAppend(pre, rest);
    RunAppend(Start, Kinds(pre), Kinds(rest));
    RunAgree(Scan(pre), Start, Kinds(rest));
  }

  /** The number carried by the last slot marker among `ks`, or 0 when there is none. */
  function LastSlot(ks: seq<LineKind>): int
    decreases |ks|
  {
    if ks == [] then 0
    else if ks[|ks| - 1].SlotMarker? then ks[|ks| - 1].n
    else LastSlot(ks[..|ks| - 1])
  }

  /**
    The value `int(line[:-1])` of the last line of `mid` that, once stripped,
    passes the marker test `line.endswith('.') and line[:-1].isdigit()`, or 0
    when no line does.
  */
  function LastMarker(mid: seq<string>): int
    decreases |mid|
  {
    if mid == [] then 0
    else
      var line := Strip(mid[|mid| - 1]);
      if IsSlotMarker(line) then MarkerValue(line) else LastMarker(mid[..|mid| - 1])
  }

  /** The last marker among raw lines is the last marker among their classifications. */
  lemma {:induction false} LastMarkerKinds(mid: seq<string>)
    ensures LastMarker(mid) == LastSlot(Kinds(mid))
    decreases |mid|
  {
    if mid != [] {
      var init, x := mid[..|mid| - 1], mid[|mid| - 1];
      assert mid == init + [x];
      KindsLast(init, x);
      assert Kinds(mid)[..|mid| - 1] == Kinds(init);
      LastMarkerKinds(init);
    }
  }

  /**
    After a day name and lines that are not day names, the day is that day
    name's code and the slot is the last marker's number since, or 0.
  */
  lemma {:induction false} AfterDayName(st: ScanState, code: string, ks: seq<LineKind>)
    requires NoDayName(ks)
    ensures Run(st, [DayName(code)] + ks).day == Some(code)
    ensures Run(st, [DayName(code)] + ks).slot == LastSlot(ks)
    decreases |ks|
  {
    if ks == [] {
      assert [DayName(code)] + ks == [] + [DayName(code)];
      RunLast(st, [], DayName(code));
    } else {
      var ks', k := ks[..|ks| - 1], ks[|ks| - 1];
      assert [DayName(code)] + ks == ([DayName(code)] + ks') + [k];
      AfterDayName(st, code, ks');
      RunLast(st, [DayName(code)] + ks', k);
    }
  }

  /**
    After a day line and any lines that are not day lines, the current day
    is that day line's code and the slot is the value of the last slot
    marker since it, or 0 when there was none.
  */
  lemma StateAfterDay(pre: seq<string>, dayLine: string, mid: seq<string>)
    requires IsDayLine(dayLine)
    requires NoDayLine(mid)
    ensures Scan(pre + [dayLine] + mid).day == Some(DayMap[Strip(dayLine)])
    ensures Scan(pre + [dayLine] + mid).slot == LastMarker(mid)
  {
    ClassifyDay(dayLine);
    KindsNoDay(mid);
    KindsOf3(pre, dayLine, mid);
    RunAfterDayName(Start, Kinds(pre), DayMap[Strip(dayLine)], Kinds(mid));
    LastMarkerKinds(mid);
  }

  lemma RunAfterDayName(st: ScanState, ka: seq<LineKind>, code: string, kb: seq<LineKind>)
    requires NoDayName(kb)
    ensures Run(st, ka + [DayName(code)] + kb).day == Some(code)
    ensures Run(st, ka + [DayName(code)] + kb).slot == LastSlot(kb)
  {
    assert ka + [DayName(code)] + kb == ka + ([DayName(code)] + kb);
    RunAppend(st, ka, [DayName(code)] + kb);
    AfterDayName(Run(st, ka), code, kb);
  }

  /**
    A class line appends exactly one record, after those of the earlier lines:
    its day is the code of the most recent day line, its class name the
    stripped line, and its slot the value of the last slot marker since that
    day line, or 0 when there was none.
  */
  lemma ClassRecord(pre: seq<string>, dayLine: string, mid: seq<string>, line: string)
    requires IsDayLine(dayLine)
    requires NoDayLine(mid)
    requires IsClassLine(line)
    ensures Scan(pre + [dayLine] + mid + [line]).schedule
         == Scan(pre + [dayLine] + mid).schedule + [Record(DayMap[Strip(dayLine)], Strip(line), LastMarker(mid))]
  {
    var before := pre + [dayLine] + mid;
    StateAfterDay(pre, dayLine, mid);
    ClassifyClass(line);
    KindsLast(before, line);
    RunLast(Start, Kinds(before), Text(Strip(line)));
  }

  /** A line that is blank, a day name or a slot marker appends no record. */
  lemma NonClassEmitsNothing(lines: seq<string>, line: string)
    requires !IsClassLine(line)
    ensures Scan(lines + [line]).schedule == Scan(lines).schedule
  {
    KindsLast(lines, line);
    RunLast(Start, Kinds(lines), Classify(line));
  }

  /**
    A lone `.` is not a slot marker, since the digits before the dot must be
    non-empty; it is therefore a class line, and under a day it is emitted
    as a record like any other class name.
  */
  lemma LoneDotIsClass()
    ensures !IsSlotMarker(".")
    ensures IsClassLine(".") && Strip(".") == "."
  {
    StripFixpoint(".");
  }

  /**
    A natural number written in decimal and followed by a dot, such as `1.`
    or `12.`, is a slot marker carrying that number.
  */
  lemma SlotMarkerOfNat(n: nat)
    ensures IsSlotMarker(NatToString(n) + ".")
    ensures Classify(NatToString(n) + ".") == SlotMarker(n)
  {
    var line := NatToString(n) + ".";
    assert line[..|line| - 1] == NatToString(n);
    StripFixpoint(line);
  }
}
