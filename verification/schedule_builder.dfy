/** The TA's availability builder (frontend/src/pages/ta/ScheduleBuilder.jsx):
    the preferred/available click cycle, the submit guard, which also
    records the trimmed name and UTLN in the session store, and "populate
    all". Grid rows come from the same configuration reading as the
    configuration page, with a 30-minute fallback slot. */
module ScheduleBuilder {
  import opened Util
  import opened Js
  import SC = ScheduleContext
  import Auth = AuthContext
  import Config = ScheduleConfig
  import ScheduleGrid

  /** The fallback slot length of this page. */
  const FallbackSlot := 30

  /** The grid's rows on this page. */
  function GridTimes(config: map<string, JsValue>): seq<string>
    requires Config.ConfigModelled(config)
  {
    Config.GridTimes(config, FallbackSlot)
  }

  /** Once the configuration sets a slot length, the TA's grid has exactly
      the rows of the TF's grid; the two pages differ only in the fallback. */
  lemma SameRowsAsConfigPage(config: map<string, JsValue>)
    requires Config.ConfigModelled(config)
    requires Config.EntryTruthy(Config.Entry(config, "slotDuration"))
    ensures GridTimes(config) == Config.GridTimes(config, 90)
  {
  }

  /** Without a slot length, this page falls back to half-hour rows. */
  lemma HalfHourFallback(config: map<string, JsValue>)
    requires Config.ConfigModelled(config)
    requires !Config.EntryTruthy(Config.Entry(config, "slotDuration"))
    requires Config.StartHour(config).Some? && Config.EndHour(config).Some?
    ensures var start, end := Config.StartHour(config).value, Config.EndHour(config).value;
      GridTimes(config) == ScheduleGrid.GenerateTimeSlots(start, end, 30)
  {
  }

  /** `handleCellClick`: empty → "preferred" → "available" → empty, on the
      availability map. */
  function ClickCell(s: SC.State, day: string, time: string): (r: SC.State)
    ensures r == s.(availability := SC.Click(s.availability, SC.SlotKey(day, time), "preferred", "available"))
  {
    var key := SC.SlotKey(day, time);
    SC.Reduce(s, SC.SetAvailability(key, SC.CycleNext(SC.Lookup(s.availability, key), "preferred", "available")))
  }

  /** Three clicks on a cell restore the state exactly when the cell was
      empty, preferred or available. */
  lemma ClickCellThrice(s: SC.State, day: string, time: string)
    ensures var key := SC.SlotKey(day, time);
      ClickCell(ClickCell(ClickCell(s, day, time), day, time), day, time) == s
      <==> key !in s.availability || s.availability[key] in {"preferred", "available"}
  {
    SC.ClickThrice(s.availability, SC.SlotKey(day, time), "preferred", "available");
  }

  /** `handlePopulateAll`: mark every cell of the grid as preferred. */
  function PopulateAll(s: SC.State, times: seq<string>): SC.State {
    SC.Dispatch(s, SC.AvailabilityWrites(SC.GridKeys(Config.Days, times), "preferred"))
  }

  /** "Populate all" changes the availability only: every grid cell is
      preferred afterwards, other keys keep their values, and nothing
      outside the grid is added. */
  lemma PopulateAllFillsGrid(s: SC.State, times: seq<string>)
    ensures var r := PopulateAll(s, times);
      && r.templateSlots == s.templateSlots && r.schedule == s.schedule && r.config == s.config
      && (forall i, j :: 0 <= i < |Config.Days| && 0 <= j < |times| ==>
            SC.SlotKey(Config.Days[i], times[j]) in r.availability
            && r.availability[SC.SlotKey(Config.Days[i], times[j])] == "preferred")
      && (forall k :: k in s.availability && k !in SC.GridKeys(Config.Days, times) ==>
            k in r.availability && r.availability[k] == s.availability[k])
      && (forall k :: k in r.availability && k !in s.availability ==>
            exists i, j :: 0 <= i < |Config.Days| && 0 <= j < |times| && k == SC.SlotKey(Config.Days[i], times[j]))
  {
    var keys := SC.GridKeys(Config.Days, times);
    SC.AvailabilityWritesEffect(s, keys, "preferred");
    var r := PopulateAll(s, times);
    forall i, j | 0 <= i < |Config.Days| && 0 <= j < |times|
      ensures SC.SlotKey(Config.Days[i], times[j]) in r.availability
              && r.availability[SC.SlotKey(Config.Days[i], times[j])] == "preferred"
    {
      SC.GridKeysCover(Config.Days, times, i, j);
    }
    forall k | k in r.availability && k !in s.availability
      ensures exists i, j :: 0 <= i < |Config.Days| && 0 <= j < |times| && k == SC.SlotKey(Config.Days[i], times[j])
    {
      SC.GridKeysOnly(Config.Days, times, k);
    }
  }

  // ------------------------------------------------------------------
  // Submitting

  /** What `handleSubmit` does: ask for the name, the UTLN or the two lab
      answers, or submit. A submission carries the trimmed name and UTLN,
      the two answers, and the session store after `setName` and
      `setUtln`. */
  datatype SubmitStep =
    | AskForName
    | AskForUtln
    | AskForLabAnswers
    | Submit(utln: string, name: string, labLead: bool, labAssistant: bool, auth: Auth.AuthState)

  function HandleSubmit(fullName: string, utln: string, labLead: Option<bool>, labAssistant: Option<bool>,
                        auth: Auth.AuthState): (r: SubmitStep)
    ensures r.AskForName? <==> IsBlank(fullName)
    ensures r.AskForUtln? <==> !IsBlank(fullName) && IsBlank(utln)
    ensures r.AskForLabAnswers? <==> !IsBlank(fullName) && !IsBlank(utln) && (labLead.None? || labAssistant.None?)
    ensures r.Submit? ==> && r.name == Trim(fullName) && r.utln == Trim(utln)
                          && r.name != "" && r.utln != ""
                          && labLead == Some(r.labLead) && labAssistant == Some(r.labAssistant)
  {
    TrimEmptyIffBlank(fullName);
    TrimEmptyIffBlank(utln);
    if Trim(fullName) == "" then AskForName
    else if Trim(utln) == "" then AskForUtln
    else if labLead.None? || labAssistant.None? then AskForLabAnswers
    else
      var name, id := Trim(fullName), Trim(utln);
      Submit(id, name, labLead.value, labAssistant.value,
             Auth.Dispatch(auth, [Auth.SetName(name), Auth.SetUtln(id)]))
  }

  /** A submission leaves the session store holding the submitted name and
      UTLN, with its role, class codes and sign-in flags untouched. */
  lemma SubmitRecordsProfile(fullName: string, utln: string, labLead: Option<bool>, labAssistant: Option<bool>,
                             auth: Auth.AuthState)
    requires HandleSubmit(fullName, utln, labLead, labAssistant, auth).Submit?
    ensures var r := HandleSubmit(fullName, utln, labLead, labAssistant, auth);
      r.auth == auth.(name := r.name, utln := r.utln)
  {
    var r := HandleSubmit(fullName, utln, labLead, labAssistant, auth);
    var acts := [Auth.SetName(r.name), Auth.SetUtln(r.utln)];
    var a1 := Auth.Reduce(auth, acts[0]);
    var a2 := Auth.Reduce(a1, acts[1]);
    assert acts[1..] == [acts[1]] && acts[1..][1..] == [];
    assert Auth.Dispatch(a1, acts[1..]) == Auth.Dispatch(a2, []) == a2;
  }
}
