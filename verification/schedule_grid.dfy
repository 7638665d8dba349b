/** The pure helpers of the shared schedule grid
    (frontend/src/components/shared/ScheduleGrid.jsx): the row start times
    between two hours, the 12-hour label of a row, the cell colours and
    which modes may edit. The copies of `generateTimeSlots` in the
    configuration and builder pages are the same function. */
module ScheduleGrid {
  import opened Util
  import opened Js
  import opened Py
  import opened AlgContext
  import Parsers

  /** The loop state of `generateTimeSlots`: an hour and a minute. */
  datatype Clock = Clock(hour: int, minute: int)

  function TotalMinutes(c: Clock): int {
    c.hour * 60 + c.minute
  }

  /** The `while` condition: before the end hour, or exactly on it. */
  predicate BeforeEnd(hour: int, minute: int, endHour: int) {
    hour < endHour || (hour == endHour && minute == 0)
  }

  /** With the minute kept in [0, 60), the condition says the row starts
      no later than the end hour. */
  lemma BeforeEndIsMinutes(hour: int, minute: int, endHour: int)
    requires 0 <= minute < 60
    ensures BeforeEnd(hour, minute, endHour) <==> hour * 60 + minute <= endHour * 60
  {
  }

  /** One turn of the loop body after the push: add the slot length and
      carry whole hours. */
  function Advance(hour: int, minute: int, slotMinutes: int): (c: Clock)
    requires 0 <= minute < 60 && slotMinutes > 0
    ensures 0 <= c.minute < 60
    ensures TotalMinutes(c) == hour * 60 + minute + slotMinutes
  {
    var m := minute + slotMinutes;
    if m >= 60 then Clock(hour + m / 60, m % 60) else Clock(hour, m)
  }

  /** The rows the loop pushes from the given state. The loop only ends
      for a positive slot length, which every caller supplies. */
  function SlotsFrom(hour: int, minute: int, endHour: int, slotMinutes: int): (r: seq<Clock>)
    requires 0 <= minute < 60 && slotMinutes > 0
    decreases endHour * 60 - (hour * 60 + minute) + 1
  {
    if !BeforeEnd(hour, minute, endHour) then []
    else if hour == 24 then []
    else
      var next := Advance(hour, minute, slotMinutes);
      [Clock(hour, minute)] + SlotsFrom(next.hour, next.minute, endHour, slotMinutes)
  }

  /** The i-th candidate row: i slots after the start. */
  function Nth(start: int, slotMinutes: int, i: nat): int {
    start + i * slotMinutes
  }

  /** A row the loop accepts: no later than the end hour, and not in hour 24. */
  predicate Accepted(t: int, endHour: int) {
    t <= endHour * 60 && t / 60 != 24
  }

  lemma NthStep(start: int, slotMinutes: int, i: nat)
    ensures Nth(start + slotMinutes, slotMinutes, i) == Nth(start, slotMinutes, i + 1)
  {
  }

  /** The rows are exactly the arithmetic progression start, start + slot,
      ... for as long as each row is accepted: every row is accepted, the
      one after the last is not, and each row's hour and minute are the
      row's minutes split by 60. */
  lemma {:induction false} SlotsFromProgression(hour: int, minute: int, endHour: int, slotMinutes: int)
    requires 0 <= minute < 60 && slotMinutes > 0
    ensures var r := SlotsFrom(hour, minute, endHour, slotMinutes);
            var start := hour * 60 + minute;
            && (forall i :: 0 <= i < |r| ==>
                  && TotalMinutes(r[i]) == Nth(start, slotMinutes, i)
                  && 0 <= r[i].minute < 60
                  && r[i].hour == TotalMinutes(r[i]) / 60
                  && Accepted(TotalMinutes(r[i]), endHour))
            && !Accepted(Nth(start, slotMinutes, |r|), endHour)
    decreases endHour * 60 - (hour * 60 + minute) + 1
  {
    var r := SlotsFrom(hour, minute, endHour, slotMinutes);
    var start := hour * 60 + minute;
    BeforeEndIsMinutes(hour, minute, endHour);
    if BeforeEnd(hour, minute, endHour) && hour != 24 {
      var next := Advance(hour, minute, slotMinutes);
      var rest := SlotsFrom(next.hour, next.minute, endHour, slotMinutes);
      SlotsFromProgression(next.hour, next.minute, endHour, slotMinutes);
      assert r == [Clock(hour, minute)] + rest;
      forall i | 0 <= i < |r|
        ensures && TotalMinutes(r[i]) == Nth(start, slotMinutes, i)
                && 0 <= r[i].minute < 60
                && r[i].hour == TotalMinutes(r[i]) / 60
                && Accepted(TotalMinutes(r[i]), endHour)
      {
        if i > 0 {
          assert r[i] == rest[i - 1];
          NthStep(start, slotMinutes, i - 1);
        }
      }
      NthStep(start, slotMinutes, |rest|);
    }
  }

  /** Every row is strictly later than the one before. */
  lemma SlotsIncreasing(hour: int, minute: int, endHour: int, slotMinutes: int)
    requires 0 <= minute < 60 && slotMinutes > 0
    ensures var r := SlotsFrom(hour, minute, endHour, slotMinutes);
            forall i, j :: 0 <= i < j < |r| ==> TotalMinutes(r[i]) < TotalMinutes(r[j])
  {
    var r := SlotsFrom(hour, minute, endHour, slotMinutes);
    SlotsFromProgression(hour, minute, endHour, slotMinutes);
    forall i, j | 0 <= i < j < |r| ensures TotalMinutes(r[i]) < TotalMinutes(r[j]) {
      ProgressionIncreases(hour * 60 + minute, slotMinutes, i, j);
    }
  }

  lemma ProgressionIncreases(start: int, slotMinutes: int, i: nat, j: nat)
    requires slotMinutes > 0 && i < j
    ensures Nth(start, slotMinutes, i) < Nth(start, slotMinutes, j)
  {
    assert j * slotMinutes == i * slotMinutes + (j - i) * slotMinutes;
  }

  /** `String(n).padStart(2, '0')`. */
  function PadNumber(n: int): string {
    PadStart2(IntToString(n))
  }

  /** For 0..99 that is the two-digit form the algorithm's parser reads. */
  lemma PadNumberIsPad2(n: int)
    requires 0 <= n < 100
    ensures PadNumber(n) == Pad2(n)
  {
    if n >= 10 {
      assert NatToString(n) == NatToString(n / 10) + [DigitChar(n % 10)];
    }
  }

  /** The text of one row. */
  function SlotText(c: Clock): string {
    PadNumber(c.hour) + ":" + PadNumber(c.minute)
  }

  /** `generateTimeSlots(startHour, endHour, slotMinutes)`. */
  function GenerateTimeSlots(startHour: int, endHour: int, slotMinutes: int): (r: seq<string>)
    requires slotMinutes > 0
    ensures |r| == |SlotsFrom(startHour, 0, endHour, slotMinutes)|
    ensures forall i :: 0 <= i < |r| ==> r[i] == SlotText(SlotsFrom(startHour, 0, endHour, slotMinutes)[i])
  {
    var cs := SlotsFrom(startHour, 0, endHour, slotMinutes);
    seq(|cs|, i requires 0 <= i < |cs| => SlotText(cs[i]))
  }

  /** Nothing is generated when the start hour is past the end hour. */
  lemma NoSlotsPastEnd(startHour: int, endHour: int, slotMinutes: int)
    requires slotMinutes > 0 && startHour > endHour
    ensures GenerateTimeSlots(startHour, endHour, slotMinutes) == []
  {
  }

  /** A row on the end hour itself is produced when the slots land on it
      and the end hour is before midnight. */
  lemma EndHourRowIncluded(startHour: int, endHour: int, slotMinutes: int, k: nat)
    requires slotMinutes > 0 && startHour <= endHour < 24
    requires startHour * 60 + k * slotMinutes == endHour * 60
    ensures var r := SlotsFrom(startHour, 0, endHour, slotMinutes);
            k < |r| && r[k] == Clock(endHour, 0)
  {
    var r := SlotsFrom(startHour, 0, endHour, slotMinutes);
    SlotsFromProgression(startHour, 0, endHour, slotMinutes);
    if k >= |r| {
      ProgressionMonotone(startHour * 60, slotMinutes, |r|, k);
    }
  }

  lemma ProgressionMonotone(start: int, slotMinutes: int, i: nat, j: nat)
    requires slotMinutes > 0 && i <= j
    ensures start <= Nth(start, slotMinutes, i) <= Nth(start, slotMinutes, j)
  {
    assert j * slotMinutes == i * slotMinutes + (j - i) * slotMinutes;
  }

  /** With hours inside the day, every row is a zero-padded "HH:MM" that
      the algorithm's `parse_time` reads back as the row's own time. */
  lemma SlotsAreClockTimes(startHour: int, endHour: int, slotMinutes: int)
    requires slotMinutes > 0 && 0 <= startHour && endHour <= 24
    ensures var r := GenerateTimeSlots(startHour, endHour, slotMinutes);
            var cs := SlotsFrom(startHour, 0, endHour, slotMinutes);
            forall i :: 0 <= i < |r| ==>
              && Parsers.CanonicalTime(r[i])
              && Parsers.ParseTime(r[i]) == Ok(Time(cs[i].hour, cs[i].minute))
  {
    var r := GenerateTimeSlots(startHour, endHour, slotMinutes);
    var cs := SlotsFrom(startHour, 0, endHour, slotMinutes);
    SlotsFromProgression(startHour, 0, endHour, slotMinutes);
    forall i | 0 <= i < |r|
      ensures Parsers.CanonicalTime(r[i]) && Parsers.ParseTime(r[i]) == Ok(Time(cs[i].hour, cs[i].minute))
    {
      var c := cs[i];
      ProgressionMonotone(startHour * 60, slotMinutes, 0, i);
      assert 0 <= c.hour < 24;
      PadNumberIsPad2(c.hour);
      PadNumberIsPad2(c.minute);
      assert r[i] == Parsers.Strftime(Time(c.hour, c.minute));
      Parsers.StrftimeIsCanonical(Time(c.hour, c.minute));
      Parsers.ParseTimeOfStrftime(Time(c.hour, c.minute));
    }
  }

  /** The default grid of the configuration page, 9:00 to midnight in
      90-minute slots: ten rows, 09:00 to 22:30. */
  lemma DefaultConfigGrid()
    ensures GenerateTimeSlots(9, 24, 90)
            == ["09:00", "10:30", "12:00", "13:30", "15:00", "16:30", "18:00", "19:30", "21:00", "22:30"]
  {
    var cs := SlotsFrom(9, 0, 24, 90);
    assert SlotsFrom(24, 0, 24, 90) == [];
    assert SlotsFrom(22, 30, 24, 90) == [Clock(22, 30)];
    assert SlotsFrom(21, 0, 24, 90) == [Clock(21, 0), Clock(22, 30)];
    assert SlotsFrom(19, 30, 24, 90) == [Clock(19, 30), Clock(21, 0), Clock(22, 30)];
    assert SlotsFrom(18, 0, 24, 90) == [Clock(18, 0), Clock(19, 30), Clock(21, 0), Clock(22, 30)];
    assert SlotsFrom(16, 30, 24, 90) == [Clock(16, 30)] + SlotsFrom(18, 0, 24, 90);
    assert SlotsFrom(15, 0, 24, 90) == [Clock(15, 0)] + SlotsFrom(16, 30, 24, 90);
    assert SlotsFrom(13, 30, 24, 90) == [Clock(13, 30)] + SlotsFrom(15, 0, 24, 90);
    assert SlotsFrom(12, 0, 24, 90) == [Clock(12, 0)] + SlotsFrom(13, 30, 24, 90);
    assert SlotsFrom(10, 30, 24, 90) == [Clock(10, 30)] + SlotsFrom(12, 0, 24, 90);
    assert cs == [Clock(9, 0)] + SlotsFrom(10, 30, 24, 90);
    assert |cs| == 10;
    var expected := [Clock(9, 0), Clock(10, 30), Clock(12, 0), Clock(13, 30), Clock(15, 0),
                     Clock(16, 30), Clock(18, 0), Clock(19, 30), Clock(21, 0), Clock(22, 30)];
    assert cs == expected;
    var r := GenerateTimeSlots(9, 24, 90);
    SlotTextDigits(9, 0); SlotTextDigits(10, 30); SlotTextDigits(12, 0); SlotTextDigits(13, 30);
    SlotTextDigits(15, 0); SlotTextDigits(16, 30); SlotTextDigits(18, 0); SlotTextDigits(19, 30);
    SlotTextDigits(21, 0); SlotTextDigits(22, 30);
  }

  /** The text of a row inside the day, digit by digit. */
  lemma SlotTextDigits(h: int, m: int)
    requires 0 <= h < 24 && 0 <= m < 60
    ensures SlotText(Clock(h, m)) == [DigitChar(h / 10), DigitChar(h % 10), ':', DigitChar(m / 10), DigitChar(m % 10)]
  {
    PadNumberIsPad2(h);
    PadNumberIsPad2(m);
  }

  // ------------------------------------------------------------------
  // formatTime

  /** The hour on a 12-hour clock face. */
  function Hour12(h: int): (r: int)
    ensures 0 <= h < 24 ==> 1 <= r <= 12 && r % 12 == h % 12
  {
    if h == 0 then 12 else if h > 12 then h - 12 else h
  }

  function Meridiem(h: int): string {
    if h >= 12 then "PM" else "AM"
  }

  /** `formatTime` on the hour and minute numbers of a row. */
  function FormatTime(h: int, m: int): (r: string)
    ensures 0 <= h < 24 && 0 <= m < 60 ==>
              r == NatToString(Hour12(h)) + ":" + Pad2(m) + " " + Meridiem(h)
  {
    PadNumberIsPadded(m);
    IntToString(Hour12(h)) + ":" + PadNumber(m) + " " + Meridiem(h)
  }

  lemma PadNumberIsPadded(m: int)
    ensures 0 <= m < 60 ==> PadNumber(m) == Pad2(m)
  {
    if 0 <= m < 60 {
      PadNumberIsPad2(m);
    }
  }

  /** Reading a 12-hour label back to the 24-hour clock. */
  function From12(h12: int, pm: bool): int {
    if pm then (if h12 == 12 then 12 else h12 + 12) else (if h12 == 12 then 0 else h12)
  }

  /** Reads "h:MM AM" or "h:MM PM" with a one- or two-digit hour. */
  function ReadLabel(s: string): (r: Option<Clock>)
  {
    match SplitAtFirst(s, ':')
    case None => None
    case Some((hh, rest)) =>
      if 1 <= |hh| <= 2 && AllDigits(hh) && |rest| == 5 && AllDigits(rest[..2]) && rest[2] == ' '
         && (rest[3..] == "AM" || rest[3..] == "PM")
      then Some(Clock(From12(DecimalValue(hh), rest[3..] == "PM"), DecimalValue(rest[..2])))
      else None
  }

  /** The label determines the time: `formatTime` is undone by reading
      the label back, so no two times of day share a label. */
  lemma FormatTimeRoundTrip(h: int, m: int)
    requires 0 <= h < 24 && 0 <= m < 60
    ensures ReadLabel(FormatTime(h, m)) == Some(Clock(h, m))
  {
    var hh := NatToString(Hour12(h));
    var rest := Pad2(m) + " " + Meridiem(h);
    LabelShape(h, m);
    NatToStringRoundTrip(Hour12(h));
    ReadLabelOf(hh, rest);
    assert From12(Hour12(h), h >= 12) == h;
  }

  lemma LabelShape(h: int, m: int)
    requires 0 <= h < 24 && 0 <= m < 60
    ensures var rest := Pad2(m) + " " + Meridiem(h);
            && FormatTime(h, m) == NatToString(Hour12(h)) + [':'] + rest
            && |rest| == 5 && rest[..2] == Pad2(m) && rest[2] == ' ' && rest[3..] == Meridiem(h)
  {
    var rest := Pad2(m) + " " + Meridiem(h);
    assert rest[..2] == Pad2(m);
    assert rest[3..] == Meridiem(h);
  }

  lemma ReadLabelOf(hh: string, rest: string)
    requires 1 <= |hh| <= 2 && AllDigits(hh)
    requires |rest| == 5 && AllDigits(rest[..2]) && rest[2] == ' ' && (rest[3..] == "AM" || rest[3..] == "PM")
    ensures ReadLabel(hh + [':'] + rest) == Some(Clock(From12(DecimalValue(hh), rest[3..] == "PM"), DecimalValue(rest[..2])))
  {
    assert ':' !in hh by {
      forall i | 0 <= i < |hh| ensures hh[i] != ':' {
        assert IsDigit(hh[i]);
      }
    }
    SplitAtFirstOf(hh, ':', rest);
  }

  lemma FormatTimeInjective(h1: int, m1: int, h2: int, m2: int)
    requires 0 <= h1 < 24 && 0 <= m1 < 60 && 0 <= h2 < 24 && 0 <= m2 < 60
    requires FormatTime(h1, m1) == FormatTime(h2, m2)
    ensures h1 == h2 && m1 == m2
  {
    FormatTimeRoundTrip(h1, m1);
    FormatTimeRoundTrip(h2, m2);
  }

  // ------------------------------------------------------------------
  // Cell colours and editing

  /** A cell's value as read from the slot map: absent, or a string. */
  predicate Filled(cell: Option<string>) {
    cell.Some? && cell.value != ""
  }

  /** `getCellColor(mode, cellValue)`. */
  function CellColor(mode: string, cell: Option<string>): (r: string)
    ensures !Filled(cell) ==> r == ""
    ensures r != "" <==>
              Filled(cell)
              && (mode == "builder" || mode == "tf-config" || mode == "tf-viewer"
                  || (mode == "ta-viewer" && (cell.value == "my-oh" || cell.value == "my-lab" || cell.value == "other")))
  {
    if !Filled(cell) then ""
    else if mode == "builder" then (if cell.value == "preferred" then "bg-preferred/70" else "bg-general/70")
    else if mode == "ta-viewer" then
      (if cell.value == "my-oh" then "bg-oh-shift/70"
       else if cell.value == "my-lab" then "bg-lab-shift/70"
       else if cell.value == "other" then "bg-other-shift/50"
       else "")
    else if mode == "tf-config" then (if cell.value == "oh" then "bg-oh-shift/70" else "bg-lab-shift/70")
    else if mode == "tf-viewer" then (if cell.value == "oh" then "bg-oh-shift/50" else "bg-lab-shift/50")
    else ""
  }

  /** The grid accepts clicks in the builder and configuration modes only. */
  predicate IsEditable(mode: string) {
    mode == "builder" || mode == "tf-config"
  }

  /** `getHoverColorClass(mode, cellValue, isEditable)`. */
  function HoverColor(mode: string, cell: Option<string>, editable: bool): (r: string)
    ensures r == "" <==> !editable
    ensures editable && mode == "tf-config" && Filled(cell) ==>
              r == (if cell.value == "oh" then "hover:bg-oh-shift" else "hover:bg-lab-shift")
    ensures editable && !(mode == "tf-config" && Filled(cell)) ==> r == "hover:bg-gray-100"
  {
    if !editable then ""
    else if !Filled(cell) then "hover:bg-gray-100"
    else if mode == "tf-config" then (if cell.value == "oh" then "hover:bg-oh-shift" else "hover:bg-lab-shift")
    else "hover:bg-gray-100"
  }

  /** A grid that cannot be edited shows no hover colour, whatever the cell. */
  lemma ViewersHaveNoHover(mode: string, cell: Option<string>)
    requires mode == "ta-viewer" || mode == "tf-viewer"
    ensures HoverColor(mode, cell, IsEditable(mode)) == ""
  {
  }
}
