/** The older copy of the TA's builder (src/frontend/pages/ta/ScheduleBuilder.jsx):
    an empty cell takes the value of the current paint mode, "preferred"
    turns into "general", and anything else is cleared; submitting checks
    the name and the lab answers, and sends the signed-in UTLN as it is. */
module LegacyBuilder {
  import opened Util
  import opened Js
  import SC = ScheduleContext

  /** The value the paint mode puts into an empty cell. */
  function PaintValue(paintMode: string): string {
    if paintMode == "Preferred" then "preferred" else "general"
  }

  /** The click cycle with the paint mode in force at the time of the click. */
  function LegacyNext(paintMode: string, current: Option<string>): (r: Option<string>)
    ensures (current.None? || current.value == "") ==> r == Some(PaintValue(paintMode))
    ensures current == Some("preferred") ==> r == Some("general")
    ensures r.Some? ==> r.value == "preferred" || r.value == "general"
  {
    if current.None? || current.value == "" then Some(PaintValue(paintMode))
    else if current.value == "preferred" then Some("general")
    else None
  }

  /** `handleCellClick` under a paint mode. */
  function ClickCell(s: SC.State, paintMode: string, day: string, time: string): (r: SC.State)
    ensures var key := SC.SlotKey(day, time);
      && r.templateSlots == s.templateSlots && r.schedule == s.schedule && r.config == s.config
      && (forall k :: k != key ==> (k in r.availability <==> k in s.availability))
      && (forall k :: k != key && k in s.availability ==> r.availability[k] == s.availability[k])
  {
    var key := SC.SlotKey(day, time);
    SC.Reduce(s, SC.SetAvailability(key, LegacyNext(paintMode, SC.Lookup(s.availability, key))))
  }

  /** A filled cell is empty again after at most two clicks, whatever the
      paint modes at those clicks. */
  lemma FilledClearsWithinTwoClicks(s: SC.State, p1: string, p2: string, day: string, time: string)
    requires var key := SC.SlotKey(day, time); key in s.availability && s.availability[key] != ""
    ensures var key := SC.SlotKey(day, time);
      var s1 := ClickCell(s, p1, day, time);
      key !in s1.availability || key !in ClickCell(s1, p2, day, time).availability
  {
  }

  /** Two clicks are needed only for a preferred cell: any other filled
      cell is cleared by the first click. */
  lemma OnlyPreferredTakesTwo(s: SC.State, p: string, day: string, time: string)
    requires var key := SC.SlotKey(day, time); key in s.availability && s.availability[key] != ""
    ensures var key := SC.SlotKey(day, time);
      key in ClickCell(s, p, day, time).availability <==> s.availability[key] == "preferred"
  {
  }

  /** From an empty cell, painting "Preferred" cycles through three states
      and any other paint mode through two. */
  lemma EmptyCellCycle(s: SC.State, paintMode: string, day: string, time: string)
    requires SC.SlotKey(day, time) !in s.availability
    ensures var c1 := ClickCell(s, paintMode, day, time);
      var c2 := ClickCell(c1, paintMode, day, time);
      var c3 := ClickCell(c2, paintMode, day, time);
      if paintMode == "Preferred" then c2 != s && c3 == s else c1 != s && c2 == s
  {
    var key := SC.SlotKey(day, time);
    var c1 := ClickCell(s, paintMode, day, time);
    var c2 := ClickCell(c1, paintMode, day, time);
    var c3 := ClickCell(c2, paintMode, day, time);
    if paintMode == "Preferred" {
      assert key in c2.availability;
      assert c3.availability == s.availability;
    } else {
      assert key in c1.availability;
      assert c2.availability == s.availability;
    }
  }

  /** What `handleSubmit` does. The name is checked but not sent; the
      UTLN sent is the signed-in one, unchecked and untrimmed. */
  datatype SubmitStep =
    | AskForName
    | AskForLabAnswers
    | Submit(utln: string, labLead: bool, labAssistant: bool)

  function HandleSubmit(fullName: string, authUtln: string, labLead: Option<bool>, labAssistant: Option<bool>)
    : (r: SubmitStep)
    ensures r.AskForName? <==> IsBlank(fullName)
    ensures r.AskForLabAnswers? <==> !IsBlank(fullName) && (labLead.None? || labAssistant.None?)
    ensures r.Submit? ==> r.utln == authUtln && labLead == Some(r.labLead) && labAssistant == Some(r.labAssistant)
  {
    TrimEmptyIffBlank(fullName);
    if Trim(fullName) == "" then AskForName
    else if labLead.None? || labAssistant.None? then AskForLabAnswers
    else Submit(authUtln, labLead.value, labAssistant.value)
  }

  /** Unlike the current builder, nothing stops a submission without a
      UTLN: a named TA with both answers submits even when signed in with
      an empty UTLN. */
  lemma SubmitsWithoutUtln(labLead: bool, labAssistant: bool)
    ensures HandleSubmit("Ada", "", Some(labLead), Some(labAssistant)) == Submit("", labLead, labAssistant)
  {
    assert !IsBlank("Ada") by {
      assert !IsSpace("Ada"[0]);
    }
  }
}
