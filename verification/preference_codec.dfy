/** The preference wire format `"<day>:<H:MM>-<H:MM>:<level>"` and its
    decoder `parsePreferenceString` (backend/src/routes/ta.js). */
module PreferenceCodec {
  import opened Util
  import opened Js
  import opened TaSchemas

  datatype ParseError = InvalidFormat | InvalidPreference | InvalidDay | InvalidTime

  const ValidDays: seq<string> := ["m", "tu", "w", "th", "f", "sa", "su"]

  /** A day token whose lower-case form is one of the seven day codes. */
  predicate ValidDay(day: string) {
    ToLowerAscii(day) in ValidDays
  }

  /** `\d{1,2}:\d{2}`. */
  predicate HourMinute(s: string) {
    && (|s| == 4 || |s| == 5)
    && AllDigits(s[..|s| - 3])
    && s[|s| - 3] == ':'
    && AllDigits(s[|s| - 2..])
  }

  /** `^\d{1,2}:\d{2}-\d{1,2}:\d{2}$`. Neither part is range-checked, so
      "99:99-0:00" is accepted. Splitting at the first '-' is exact, since
      the first part has no '-'. */
  predicate TimeRangeFormat(r: string) {
    var k := IndexOf(r, '-');
    k >= 0 && HourMinute(r[..k]) && HourMinute(r[k + 1..])
  }

  predicate IsLevel(p: Option<int>) {
    p == Some(0) || p == Some(1) || p == Some(2)
  }

  /** `parsePreferenceString`: the level is parseInt of the text after the
      last ':', the day is the text before the first ':', and what lies
      between the first and the last ':' is the time range. */
  function Parse(str: string): (r: Result<PreferenceEntry, ParseError>)
    ensures ':' !in str ==> r == Err(InvalidFormat)
    ensures r.Ok? ==> r.value.shift_id == "" && 0 <= r.value.preference <= 2
    ensures r.Ok? ==> |r.value.time_slots| < |str| && str[..|r.value.time_slots|] == r.value.time_slots
    ensures r.Ok? ==> ':' in r.value.time_slots
  {
    match SplitAtLast(str, ':')
    case None => Err(InvalidFormat)
    case Some((timeSlots, levelText)) => ParseLevelled(timeSlots, ParseInt(levelText))
  }

  /** Parse reads the level from the text after the last ':'. */
  lemma ParseAtLastColon(str: string, timeSlots: string, levelText: string)
    requires SplitAtLast(str, ':') == Some((timeSlots, levelText))
    ensures Parse(str) == ParseLevelled(timeSlots, ParseInt(levelText))
  {
  }

  /** The checks that follow reading the level, in their order: the level,
      then the presence of a day, the day, the time range. */
  function ParseLevelled(timeSlots: string, pref: Option<int>): (r: Result<PreferenceEntry, ParseError>)
    ensures !IsLevel(pref) ==> r == Err(InvalidPreference)
    ensures r.Ok? ==> IsLevel(pref) && r.value == PreferenceEntry("", timeSlots, pref.value) && ':' in timeSlots
  {
    if !IsLevel(pref) then Err(InvalidPreference)
    else
      match SplitAtFirst(timeSlots, ':')
      case None => Err(InvalidFormat)
      case Some((day, timeRange)) =>
        if !ValidDay(day) then Err(InvalidDay)
        else if !TimeRangeFormat(timeRange) then Err(InvalidTime)
        else Ok(PreferenceEntry("", timeSlots, pref.value))
  }

  /** The pieces of a well-formed preference string: a day, a time range,
      and a level text with no ':' whose parseInt is 0, 1 or 2. */
  predicate WellFormed(day: string, range: string, levelText: string) {
    ValidDay(day) && TimeRangeFormat(range) && ':' !in levelText && IsLevel(ParseInt(levelText))
  }

  function Encode(day: string, range: string, levelText: string): string {
    day + ":" + range + ":" + levelText
  }

  lemma ValidDayHasNoColon(day: string)
    requires ValidDay(day)
    ensures ':' !in day
  {
    var t := ToLowerAscii(day);
    assert forall j :: 0 <= j < |t| ==> 'a' <= t[j] <= 'z';
    forall i | 0 <= i < |day| ensures day[i] != ':' {
      assert 'a' <= t[i] <= 'z';
    }
  }

  /** Every well-formed string decodes, keeping the day's original case in
      `time_slots` and taking the level from the text after the last ':'. */
  lemma ParseComplete(day: string, range: string, levelText: string)
    requires WellFormed(day, range, levelText)
    ensures Parse(Encode(day, range, levelText))
            == Ok(PreferenceEntry("", day + ":" + range, ParseInt(levelText).value))
  {
    var slots := day + ":" + range;
    assert Encode(day, range, levelText) == slots + [':'] + levelText;
    SplitAtLastOf(slots, ':', levelText);
    ValidDayHasNoColon(day);
    assert slots == day + [':'] + range;
    SplitAtFirstOf(day, ':', range);
  }

  /** Conversely, every string that decodes is the encoding of well-formed
      pieces, and the decoded entry is made of those pieces. */
  lemma ParseSound(s: string)
    requires Parse(s).Ok?
    ensures exists day, range, levelText ::
      && WellFormed(day, range, levelText)
      && s == Encode(day, range, levelText)
      && Parse(s).value == PreferenceEntry("", day + ":" + range, ParseInt(levelText).value)
  {
    var (timeSlots, levelText) := SplitAtLast(s, ':').value;
    var (day, range) := SplitAtFirst(timeSlots, ':').value;
    assert s == Encode(day, range, levelText);
    assert WellFormed(day, range, levelText);
  }

  /** The round trip for canonical encodings: a valid day in any case, a
      well-formed range and a single-digit level 0, 1 or 2. */
  lemma RoundTrip(day: string, range: string, level: nat)
    requires ValidDay(day) && TimeRangeFormat(range) && level <= 2
    ensures Parse(Encode(day, range, [DigitChar(level)]))
            == Ok(PreferenceEntry("", day + ":" + range, level))
  {
    var lt := [DigitChar(level)];
    DigitLevelText(level);
    assert Parse(Encode(day, range, lt)) == Ok(PreferenceEntry("", day + ":" + range, level)) by {
      ParseComplete(day, range, lt);
    }
  }

  /** A single digit 0, 1 or 2 is a level text. */
  lemma DigitLevelText(level: nat)
    requires level <= 2
    ensures ':' !in [DigitChar(level)] && ParseInt([DigitChar(level)]) == Some(level)
    ensures IsLevel(ParseInt([DigitChar(level)]))
  {
    var lt := [DigitChar(level)];
    ParseIntDigitThenRest(level, "");
    assert [DigitChar(level)] + "" == lt;
    assert IsDigit(lt[0]);
    assert IsLevel(Some(level)) by {
      if level == 0 {} else if level == 1 {} else { assert level == 2; }
    }
  }

  /** Two hour:minute texts joined by '-' form a time range. */
  lemma TimeRangeOf(from: string, to: string)
    requires HourMinute(from) && HourMinute(to)
    ensures TimeRangeFormat(from + "-" + to)
  {
    assert ':' in from by { assert from[|from| - 3] == ':'; }
    assert '-' !in from by {
      forall i | 0 <= i < |from| ensures from[i] != '-' {
        if i < |from| - 3 { assert IsDigit(from[..|from| - 3][i]); }
        else if i > |from| - 3 { assert IsDigit(from[|from| - 2..][i - (|from| - 2)]); }
      }
    }
    SplitAtFirstOf(from, '-', to);
  }

  /** Hours and minutes are checked for shape only: a preference whose
      range runs between any two-digit pairs, "99:99-99:99" among them,
      decodes. */
  lemma NoClockRangeCheck(day: string, hh: string, mm: string, level: nat)
    requires ValidDay(day) && level <= 2
    requires |hh| == 2 && |mm| == 2 && AllDigits(hh) && AllDigits(mm)
    ensures var t := hh + ":" + mm;
      Parse(Encode(day, t + "-" + t, [DigitChar(level)])) == Ok(PreferenceEntry("", day + ":" + (t + "-" + t), level))
  {
    var t := hh + ":" + mm;
    assert t[..2] == hh && t[3..] == mm;
    TimeRangeOf(t, t);
    RoundTrip(day, t + "-" + t, level);
  }

  /** parseInt keeps a leading-digit prefix, so trailing junk after the
      level is accepted: a level text "2x" decodes as level 2. */
  lemma TrailingJunkAccepted(day: string, range: string)
    requires ValidDay(day) && TimeRangeFormat(range)
    ensures Parse(Encode(day, range, "2x")) == Ok(PreferenceEntry("", day + ":" + range, 2))
  {
    JunkLevelText();
    ParseComplete(day, range, "2x");
  }

  /** "2x" is a level text whose parseInt is 2. */
  lemma JunkLevelText()
    ensures ':' !in "2x" && ParseInt("2x") == Some(2) && IsLevel(ParseInt("2x"))
  {
    ParseIntDigitThenRest(2, "x");
    assert [DigitChar(2)] + "x" == "2x";
  }

  lemma SingleDigitLevel(d: nat)
    requires d < 10
    ensures ParseInt([DigitChar(d)]) == Some(d as int)
  {
    ParseIntDigitThenRest(d, []);
    assert [DigitChar(d)] + [] == [DigitChar(d)];
  }

  /** Whatever precedes it, a final single digit from 3 to 9 is rejected
      as a bad level, before the day or the time range is looked at. */
  lemma LevelAboveTwoRejected(prefix: string, d: nat)
    requires 3 <= d <= 9
    ensures Parse(prefix + ":" + [DigitChar(d)]) == Err(InvalidPreference)
  {
    var t := [DigitChar(d)];
    DigitAboveTwo(d);
    assert prefix + ":" + t == prefix + [':'] + t;
    SplitAtLastOf(prefix, ':', t);
    ParseAtLastColon(prefix + ":" + t, prefix, t);
  }

  /** A single digit from 3 to 9 is a level text that is not a level. */
  lemma DigitAboveTwo(d: nat)
    requires 3 <= d <= 9
    ensures ':' !in [DigitChar(d)] && !IsLevel(ParseInt([DigitChar(d)]))
  {
    var t := [DigitChar(d)];
    assert IsDigit(t[0]);
    SingleDigitLevel(d);
    assert !IsLevel(Some(d as int));
  }

  /** Every decoded entry passes `preference_schema`, so the schema check
      that follows each decode in the batch handler never fails. */
  lemma ParsedEntrySatisfiesSchema(s: string)
    requires Parse(s).Ok?
    ensures PreferenceSchema(EntryToJson(Parse(s).value))
  {
    EntrySchemaIff(Parse(s).value);
  }
}
