/** The TF's configuration page (frontend/src/pages/tf/ScheduleConfig.jsx):
    the grid bounds read from the configuration, the office-hours/lab click
    cycle on the template, the publish guard, "populate all", clearing, and
    the one-time auto-population of an empty template. The hour and slot
    derivation is shared with the TA's builder page. */
module ScheduleConfig {
  import opened Util
  import opened Js
  import Parsers
  import ScheduleGrid
  import SC = ScheduleContext

  /** `DAYS`, the grid's columns. */
  const Days: seq<string> := ["Mon", "Tue", "Wed", "Thu", "Fri", "Sat", "Sun"]

  /** A configuration entry; None is `undefined`. */
  function Entry(config: map<string, JsValue>, key: string): Option<JsValue> {
    if key in config then Some(config[key]) else None
  }

  predicate EntryTruthy(v: Option<JsValue>) {
    v.Some? && Truthy(v.value)
  }

  /** The values whose `parseInt` the model covers: strings, integral
      numbers below 10^21 in magnitude (larger ones print in exponent form,
      "1e+21", and read back as their leading digit), and the values that
      read as NaN (booleans, null, objects). */
  predicate HourValueModelled(v: Option<JsValue>) {
    v.None? ||
    (!v.value.JArr? &&
     (v.value.JNum? ==> IsInteger(v.value) && -1000000000000000000000.0 < v.value.n < 1000000000000000000000.0))
  }

  /** `parseInt(v)`: the argument is converted to a string first, so an
      integral number reads as itself and null, booleans and objects read
      as NaN (None). */
  function ParseIntValue(v: JsValue): (r: Option<int>)
    requires HourValueModelled(Some(v))
    ensures v.JNum? ==> r == Some(v.n.Floor)
    ensures v.JStr? ==> r == ParseInt(v.s)
    ensures v.JNull? || v.JBool? || v.JObj? ==> r.None?
  {
    match v
    case JStr(s) => ParseInt(s)
    case JNum(n) =>
      ParseIntOfIntToString(n.Floor);
      ParseInt(IntToString(n.Floor))
    case JBool(b) =>
      var w := if b then "true" else "false";
      ParseIntNonNumeric(w);
      ParseInt(w)
    case JNull =>
      ParseIntNonNumeric("null");
      ParseInt("null")
    case JObj(_) =>
      ParseIntNonNumeric("[object Object]");
      ParseInt("[object Object]")
  }

  /** `config.earliestStart ? parseInt(config.earliestStart) : 9`. */
  function StartHour(config: map<string, JsValue>): Option<int>
    requires HourValueModelled(Entry(config, "earliestStart"))
  {
    var v := Entry(config, "earliestStart");
    if EntryTruthy(v) then ParseIntValue(v.value) else Some(9)
  }

  /** `config.latestEnd === '00:00' ? 24 : parseInt(config.latestEnd || '24')`. */
  function EndHour(config: map<string, JsValue>): Option<int>
    requires HourValueModelled(Entry(config, "latestEnd"))
  {
    var v := Entry(config, "latestEnd");
    if v == Some(JStr("00:00")) then Some(24)
    else if EntryTruthy(v) then ParseIntValue(v.value)
    else ParseInt("24")
  }

  /** The slot lengths the page can produce: unset (or falsy) or a positive
      whole number of minutes, as the duration buttons set. */
  predicate SlotValueUsable(v: Option<JsValue>) {
    !EntryTruthy(v) || (IsInteger(v.value) && v.value.n > 0.0)
  }

  /** `config.slotDuration || fallback`. */
  function SlotMinutes(config: map<string, JsValue>, fallback: int): (r: int)
    requires fallback > 0 && SlotValueUsable(Entry(config, "slotDuration"))
    ensures r > 0
    ensures !EntryTruthy(Entry(config, "slotDuration")) ==> r == fallback
    ensures EntryTruthy(Entry(config, "slotDuration")) ==> r as real == config["slotDuration"].n
  {
    var v := Entry(config, "slotDuration");
    if EntryTruthy(v) then v.value.n.Floor else fallback
  }

  predicate ConfigModelled(config: map<string, JsValue>) {
    && HourValueModelled(Entry(config, "earliestStart"))
    && HourValueModelled(Entry(config, "latestEnd"))
    && SlotValueUsable(Entry(config, "slotDuration"))
  }

  /** The rows of the grid. A NaN bound makes every loop test false, so
      no row is generated. */
  function GridTimes(config: map<string, JsValue>, fallbackSlot: int): (r: seq<string>)
    requires fallbackSlot > 0 && ConfigModelled(config)
    ensures StartHour(config).None? || EndHour(config).None? ==> r == []
    ensures StartHour(config).Some? && EndHour(config).Some? ==>
              r == ScheduleGrid.GenerateTimeSlots(StartHour(config).value, EndHour(config).value,
                                                  SlotMinutes(config, fallbackSlot))
  {
    match (StartHour(config), EndHour(config))
    case (Some(a), Some(b)) => ScheduleGrid.GenerateTimeSlots(a, b, SlotMinutes(config, fallbackSlot))
    case _ => []
  }

  /** `parseInt` of an "HH:MM" time reads its hour and stops at the colon. */
  lemma ParseIntOfClockText(s: string)
    requires Parsers.CanonicalTime(s)
    ensures ParseInt(s) == Some(DecimalValue(s[..2]))
  {
    var hh := s[..2];
    assert hh[0] == s[0] && hh[1] == s[1];
    assert !IsSpace(s[0]);
    assert TrimStart(s) == s;
    assert DigitPrefix(s, false) == hh by {
      assert s[1..][..1] == hh[1..];
      assert DigitPrefix(s[1..][1..], false) == "";
    }
    RadixValueDecimal(hh);
  }

  /** A start time chosen in the time input gives its hour; the minutes
      are ignored. */
  lemma StartHourOfTime(config: map<string, JsValue>, s: string)
    requires Parsers.CanonicalTime(s) && Entry(config, "earliestStart") == Some(JStr(s))
    ensures StartHour(config) == Some(DecimalValue(s[..2]))
  {
    ParseIntOfClockText(s);
  }

  /** An end time gives its hour, except midnight, which means the end of
      the day (24). */
  lemma EndHourOfTime(config: map<string, JsValue>, s: string)
    requires Parsers.CanonicalTime(s) && Entry(config, "latestEnd") == Some(JStr(s))
    ensures EndHour(config) == Some(if s == "00:00" then 24 else DecimalValue(s[..2]))
  {
    if s != "00:00" {
      assert |s| > 0 && EntryTruthy(Entry(config, "latestEnd"));
      assert EndHour(config) == ParseIntValue(JStr(s)) == ParseInt(s);
      ParseIntOfClockText(s);
    }
  }

  /** An end time after midnight but within its first hour ("00:30") reads
      as hour 0, so a grid starting at any later hour has no rows. */
  lemma EarlyMorningEndEmptiesGrid(config: map<string, JsValue>, s: string)
    requires ConfigModelled(config) && Parsers.CanonicalTime(s)
    requires Entry(config, "latestEnd") == Some(JStr(s)) && s != "00:00" && s[..2] == "00"
    requires StartHour(config).Some? && StartHour(config).value > 0
    ensures GridTimes(config, 90) == []
  {
    assert EndHour(config) == Some(0) by {
      EndHourOfTime(config, s);
      assert DecimalValue("00") == 0 by {
        assert "00"[..1] == "0" && "0"[..0] == "";
      }
    }
    ScheduleGrid.NoSlotsPastEnd(StartHour(config).value, 0, SlotMinutes(config, 90));
  }

  /** The configuration the page starts with (9:00 to midnight, 90-minute
      slots) shows ten rows, 09:00 to 22:30. */
  lemma InitialGrid()
    ensures ConfigModelled(SC.Initial(90.0).config)
    ensures GridTimes(SC.Initial(90.0).config, 90)
            == ["09:00", "10:30", "12:00", "13:30", "15:00", "16:30", "18:00", "19:30", "21:00", "22:30"]
  {
    var config := SC.Initial(90.0).config;
    assert Entry(config, "earliestStart") == Some(JStr("09:00"));
    assert Parsers.CanonicalTime("09:00") by {
      assert "09:00"[..2] == "09" && "09:00"[3..] == "00";
      assert "09"[..1] == "0" && "0"[..0] == "";
      assert "00"[..1] == "0";
    }
    assert DecimalValue("09") == 9 by {
      assert "09"[..1] == "0" && "0"[..0] == "";
    }
    assert "09:00"[..2] == "09";
    StartHourOfTime(config, "09:00");
    assert EndHour(config) == Some(24);
    assert SlotMinutes(config, 90) == 90;
    ScheduleGrid.DefaultConfigGrid();
  }

  // ------------------------------------------------------------------
  // Editing the template

  /** `handleCellClick`: empty → "oh" → "lab" → empty. */
  function ClickCell(s: SC.State, day: string, time: string): (r: SC.State)
    ensures r == s.(templateSlots := SC.Click(s.templateSlots, SC.SlotKey(day, time), "oh", "lab"))
  {
    var key := SC.SlotKey(day, time);
    SC.Reduce(s, SC.SetTemplateSlot(key, SC.CycleNext(SC.Lookup(s.templateSlots, key), "oh", "lab")))
  }

  /** Three clicks on a cell restore the page's state exactly when the
      cell was empty, office hours or lab. */
  lemma ClickCellThrice(s: SC.State, day: string, time: string)
    ensures var key := SC.SlotKey(day, time);
      ClickCell(ClickCell(ClickCell(s, day, time), day, time), day, time) == s
      <==> key !in s.templateSlots || s.templateSlots[key] in {"oh", "lab"}
  {
    SC.ClickThrice(s.templateSlots, SC.SlotKey(day, time), "oh", "lab");
  }

  /** `handlePopulateAll`: mark every cell of the grid as office hours. */
  function PopulateAll(s: SC.State, times: seq<string>): SC.State {
    SC.Dispatch(s, SC.TemplateWrites(SC.GridKeys(Days, times), "oh"))
  }

  /** "Populate all" changes the template only: every cell of the grid
      becomes office hours, keys outside the grid keep their values, and
      no key outside the grid is added. */
  lemma PopulateAllFillsGrid(s: SC.State, times: seq<string>)
    ensures var r := PopulateAll(s, times);
      && r.availability == s.availability && r.schedule == s.schedule && r.config == s.config
      && (forall i, j :: 0 <= i < |Days| && 0 <= j < |times| ==>
            SC.SlotKey(Days[i], times[j]) in r.templateSlots && r.templateSlots[SC.SlotKey(Days[i], times[j])] == "oh")
      && (forall k :: k in s.templateSlots && k !in SC.GridKeys(Days, times) ==>
            k in r.templateSlots && r.templateSlots[k] == s.templateSlots[k])
      && (forall k :: k in r.templateSlots && k !in s.templateSlots ==>
            exists i, j :: 0 <= i < |Days| && 0 <= j < |times| && k == SC.SlotKey(Days[i], times[j]))
  {
    var keys := SC.GridKeys(Days, times);
    SC.TemplateWritesEffect(s, keys, "oh");
    var r := PopulateAll(s, times);
    forall i, j | 0 <= i < |Days| && 0 <= j < |times|
      ensures SC.SlotKey(Days[i], times[j]) in r.templateSlots && r.templateSlots[SC.SlotKey(Days[i], times[j])] == "oh"
    {
      SC.GridKeysCover(Days, times, i, j);
    }
    forall k | k in r.templateSlots && k !in s.templateSlots
      ensures exists i, j :: 0 <= i < |Days| && 0 <= j < |times| && k == SC.SlotKey(Days[i], times[j])
    {
      SC.GridKeysOnly(Days, times, k);
    }
  }

  /** `handleClearCalendar` followed by "populate all" leaves a template
      holding exactly the grid's cells. */
  lemma ClearThenPopulate(s: SC.State, times: seq<string>)
    ensures PopulateAll(SC.Reduce(s, SC.ClearTemplate), times).templateSlots.Keys
            == set k | k in SC.GridKeys(Days, times)
  {
    SC.TemplateWritesEffect(SC.Reduce(s, SC.ClearTemplate), SC.GridKeys(Days, times), "oh");
  }

  /** The auto-population effect: the first run marks the ref, and fills
      the grid when the template is empty; every later run does nothing. */
  function AutoPopulate(didAutoPopulate: bool, s: SC.State, times: seq<string>): (r: (bool, SC.State))
    ensures r.0
    ensures r.1 != s ==> !didAutoPopulate && |s.templateSlots| == 0
  {
    if didAutoPopulate then (true, s)
    else if |s.templateSlots| == 0 then (true, PopulateAll(s, times))
    else (true, s)
  }

  /** The effect acts at most once per page: after one run, no later run
      changes anything, whatever the state and rows by then. */
  lemma AutoPopulateOnce(did: bool, s: SC.State, times: seq<string>, later: SC.State, laterTimes: seq<string>)
    ensures AutoPopulate(AutoPopulate(did, s, times).0, later, laterTimes) == (true, later)
  {
  }

  /** On a first visit with an empty template, the effect leaves every
      grid cell marked as office hours and nothing else in the template. */
  lemma AutoPopulateFirstVisit(s: SC.State, times: seq<string>)
    requires s.templateSlots == map[]
    ensures var r := AutoPopulate(false, s, times).1;
      && r.templateSlots.Keys == set k | k in SC.GridKeys(Days, times)
      && forall k :: k in r.templateSlots ==> r.templateSlots[k] == "oh"
  {
    SC.TemplateWritesEffect(s, SC.GridKeys(Days, times), "oh");
  }

  // ------------------------------------------------------------------
  // Publishing

  /** What `handlePublish` does: ask for the name, ask for the UTLN, or
      publish with both trimmed. */
  datatype PublishStep = AskForName | AskForUtln | Publish(utln: string, name: string)

  function HandlePublish(fullName: string, utln: string): (r: PublishStep)
    ensures r.AskForName? <==> IsBlank(fullName)
    ensures r.AskForUtln? <==> !IsBlank(fullName) && IsBlank(utln)
    ensures r.Publish? ==> r.name == Trim(fullName) && r.utln == Trim(utln) && r.name != "" && r.utln != ""
  {
    TrimEmptyIffBlank(fullName);
    TrimEmptyIffBlank(utln);
    if Trim(fullName) == "" then AskForName
    else if Trim(utln) == "" then AskForUtln
    else Publish(Trim(utln), Trim(fullName))
  }

  /** What is published carries no white space at either end. */
  lemma PublishedValuesTrimmed(fullName: string, utln: string)
    requires HandlePublish(fullName, utln).Publish?
    ensures var p := HandlePublish(fullName, utln);
      !IsSpace(p.name[0]) && !IsSpace(p.name[|p.name| - 1])
      && !IsSpace(p.utln[0]) && !IsSpace(p.utln[|p.utln| - 1])
  {
    var p := HandlePublish(fullName, utln);
    assert !IsSpace(p.name[0]) && !IsSpace(p.name[|p.name| - 1]) by { TrimHasNoOuterSpace(fullName); }
    assert !IsSpace(p.utln[0]) && !IsSpace(p.utln[|p.utln| - 1]) by { TrimHasNoOuterSpace(utln); }
  }
}
