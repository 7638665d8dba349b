# TA scheduler: a Dafny model

This project models the checkable core of the TA scheduler. The scheduler is a web application. Teaching assistants (TAs) submit their availability through a weekly grid. A teaching fellow (TF) designs the week's shift template. A Python engine fills the shifts and then trims the schedule to a budget.

The model follows the pipeline across three layers:

- **Backend (JavaScript).** The preference wire format `"<day>:<H:MM>-<H:MM>:<level>"` and the `/ta` routes that create a TA and append preferences. The Joi schemas for TAs, shifts and schedules, stated as predicates over JSON values. The `/schedule` routes: read by id, latest id, the weekly skeleton built by `initSchedule`, and `/update`. The database side is modelled where the routes depend on it: the `{ta_id}` query filter, including operator objects, and MongoDB's `$set` with dotted paths (module `Mongo`).
- **Assignment engine (Python).** The translation between the stored schedule and the engine's records (`parsers.py`). The lookups of both copies of `data_access.py`: keyed by id in `helpers/`, by list position at the top level. The eligibility rules, the fairness adjustments, the experience penalty, the companion boost and the shift priority of both copies of `constraints.py`. The greedy fill (`greedy.py`). Both scoring modules and the payroll cost. The budget reducer (`reducer.py`).
- **Frontend (React).** The pure logic only: the time-grid generator and 12-hour labels, the cell-click cycles and submit and publish guards of the configuration and builder pages, the `ScheduleContext` and `AuthContext` reducers, the five-emoji code input and the chip input.

Every module is built from immutable datatypes and pure functions. Stateful code is written as state-transition functions. A Python exception or a route's error status is a value of the result type, not a precondition. Python dictionaries whose iteration order matters are modelled as an ordered sequence of keys beside the map.

Hours, rates and weights are Dafny `real`, which is exact. The rates 17.43 and 19.60 and the weights 1.0, 0.8 and 0.6 are the source's decimal constants.

Two status scales meet in the engine. The backend's `lab_perm` runs 0 to 2 (backend/src/schemas/ta.js:15). The engine's `lab_admin_status` runs 1 to 3 (src/algorithm/helpers/constraints.py:34). The two copies of `data_access.py` also disagree on who may lead: `DataAccess.LeadThresholdsDisagree` exhibits a TA who is a lead under one copy and not under the other.

The helpers `countShifts` and `getShiftTimes` that `initSchedule` imports are not defined in backend/src/utils/general.js. The corrected route takes their results as parameters, constrained only by how the route uses them.

Where the written code and its documented intent part, the model keeps both. The code as written is one member. The corrected behaviour is another, and the rest of the model uses it. See "## Findings".

## Model

| member | source | states |
|---|---|---|
| AuthContext.FirstTimeFlag | frontend/src/contexts/AuthContext.jsx:25 | the first-visit flag is false exactly when a LOGIN payload is given whose `isFirstTime` is false; a missing payload or field means a first visit |
| AuthContext.Reduce | frontend/src/contexts/AuthContext.jsx:14-31 | LOGOUT returns the initial store and an unknown action the store itself; every other action changes only its own field, and only LOGIN touches the two flags, always signing in |
| AuthContext.LoginKeepsIdentity | frontend/src/contexts/AuthContext.jsx:24-25 | signing in keeps role, UTLN, name and class codes, sets the signed-in flag, and takes the first-visit flag from the payload with a default of true |
| AuthContext.LogoutForgetsEverything | frontend/src/contexts/AuthContext.jsx:5-12 | after LOGOUT two different stores are equal, and a returning user's LOGIN then differs from the initial store only in the two flags |
| AuthContext.ReduceIdempotent | frontend/src/contexts/AuthContext.jsx:14-31 | dispatching any action twice is the same as dispatching it once |
| AuthContext.LogoutCutsHistory | frontend/src/contexts/AuthContext.jsx:26-27 | whatever came before a LOGOUT and whatever the starting store, the final store depends only on the actions after it |
| ChipInput.EnterPressed | src/frontend/components/shared/ChipInput.jsx:6-13 | Enter on a blank box changes nothing; otherwise it empties the box and appends the trimmed text exactly when that text is not yet a chip |
| ChipInput.BackspacePressed | src/frontend/components/shared/ChipInput.jsx:14-16 | Backspace in an empty box drops the last chip and keeps the rest; with text in the box or no chips nothing changes |
| ChipInput.ChipRemoved | src/frontend/components/shared/ChipInput.jsx:19-23 | the × button removes exactly the chip at its index and keeps the typed text; an index past the end changes nothing |
| ChipInput.EnterAddsIffNew | src/frontend/components/shared/ChipInput.jsx:7-11 | Enter grows the list by one exactly when the trimmed text is non-blank and not yet a chip; otherwise the list is unchanged |
| ChipInput.EnterIdempotent | src/frontend/components/shared/ChipInput.jsx:7-12 | a second Enter changes nothing, because the first one empties the box |
| ChipInput.RemoveChipKeepsOrder | src/frontend/components/shared/ChipInput.jsx:19-23 | removal keeps the chips before the index in place and shifts the later ones down by one |
| ChipInput.StepKeepsWellFormed | src/frontend/components/shared/ChipInput.jsx:6-23 | every key press, edit and removal keeps the chips distinct, non-empty and without outer white space |
| ChipInput.EnterKeepsWellFormed | src/frontend/components/shared/ChipInput.jsx:7-11 | Enter never adds a duplicate, a blank chip or a chip with outer white space |
| ChipInput.TrimmedChipIsTidy | src/frontend/components/shared/ChipInput.jsx:7-10 | trimming text that is not blank gives a non-empty chip without outer white space |
| ChipInput.AppendKeepsWellFormed | src/frontend/components/shared/ChipInput.jsx:9-10 | appending a tidy chip not yet present keeps the chips distinct and tidy |
| ChipInput.RemoveAtKeepsWellFormed | src/frontend/components/shared/ChipInput.jsx:14-23 | removing any chip keeps the rest distinct and tidy |
| LegacyBuilder.LegacyNext | src/frontend/pages/ta/ScheduleBuilder.jsx:23-34 | an empty cell takes the paint mode's value, a preferred cell becomes general and any other filled cell is cleared; the only values written are "preferred" and "general" |
| LegacyBuilder.ClickCell | src/frontend/pages/ta/ScheduleBuilder.jsx:23-36 | a click changes only the clicked cell: every other key keeps its presence and value, and the template, schedule and configuration are untouched |
| LegacyBuilder.FilledClearsWithinTwoClicks | src/frontend/pages/ta/ScheduleBuilder.jsx:26-34 | a filled cell is empty again after at most two clicks, whatever the paint modes at those clicks |
| LegacyBuilder.OnlyPreferredTakesTwo | src/frontend/pages/ta/ScheduleBuilder.jsx:28-34 | a filled cell survives its first click exactly when it was preferred |
| LegacyBuilder.EmptyCellCycle | src/frontend/pages/ta/ScheduleBuilder.jsx:26-35 | from an empty cell the store comes back after three clicks in Preferred mode and after two in any other mode, and not one click earlier |
| LegacyBuilder.HandleSubmit | src/frontend/pages/ta/ScheduleBuilder.jsx:38-50 | asks for the name exactly when it is blank and for the lab answers exactly when a named user left one open; a submission sends the signed-in UTLN as it is, with both answers |
| LegacyBuilder.SubmitsWithoutUtln | src/frontend/pages/ta/ScheduleBuilder.jsx:38-50 | a named user with both answers submits even when signed in with an empty UTLN |
| ScheduleBuilder.SameRowsAsConfigPage | frontend/src/pages/ta/ScheduleBuilder.jsx:42-44 | once the configuration sets a slot length, the TA's grid has exactly the rows of the TF's configuration grid |
| ScheduleBuilder.HalfHourFallback | frontend/src/pages/ta/ScheduleBuilder.jsx:12-44 | without a slot length the rows are the slots from the start hour to the end hour in 30-minute steps |
| ScheduleBuilder.ClickCell | frontend/src/pages/ta/ScheduleBuilder.jsx:46-58 | a click changes only the availability map, and in it only the clicked cell, along the cycle empty, preferred, available, empty |
| ScheduleBuilder.ClickCellThrice | frontend/src/pages/ta/ScheduleBuilder.jsx:46-58 | three clicks restore the store exactly when the cell was empty, preferred or available |
| ScheduleBuilder.PopulateAllFillsGrid | frontend/src/pages/ta/ScheduleBuilder.jsx:96-103 | "populate all" marks every day-and-row cell preferred, keeps every other key's value, adds no key outside the grid and changes nothing but the availability |
| ScheduleBuilder.HandleSubmit | frontend/src/pages/ta/ScheduleBuilder.jsx:60-77 | asks for the name, then the UTLN, then the lab answers, each exactly when the earlier ones are given and it is missing; a submission carries the trimmed, non-empty name and UTLN and both answers |
| ScheduleBuilder.SubmitRecordsProfile | frontend/src/pages/ta/ScheduleBuilder.jsx:73-77 | after a submission the session store holds the submitted name and UTLN, with role, class codes and flags unchanged |
| ScheduleContext.SlotKeyInjective | frontend/src/contexts/ScheduleContext.jsx:58-60 | for day names without '-', the cell key `day-time` determines both the day and the time |
| ScheduleContext.Initial | frontend/src/contexts/ScheduleContext.jsx:5-16 | the store starts with no availability, no template cells, an empty schedule and the five configuration keys |
| ScheduleContext.SetSlot | frontend/src/contexts/ScheduleContext.jsx:20-29 | null deletes the key and any other value sets it; every other key keeps its presence and its value |
| ScheduleContext.Merge | frontend/src/contexts/ScheduleContext.jsx:34-35 | the merged configuration has the keys of both, the payload's value wherever it has the key and the old value elsewhere |
| ScheduleContext.Reduce | frontend/src/contexts/ScheduleContext.jsx:18-51 | each action changes only its own part of the store; the clear actions empty their map, SET_SCHEDULE stores its payload and an unknown action changes nothing |
| ScheduleContext.ReduceIdempotent | frontend/src/contexts/ScheduleContext.jsx:18-51 | dispatching any action twice is the same as dispatching it once |
| ScheduleContext.SetSlotIdempotent | frontend/src/contexts/ScheduleContext.jsx:20-29 | writing the same value to a cell twice is the same as writing it once |
| ScheduleContext.SetThenUnset | frontend/src/contexts/ScheduleContext.jsx:20-29 | setting a cell and then nulling it leaves the map as it was without that key |
| ScheduleContext.SetSlotsCommute | frontend/src/contexts/ScheduleContext.jsx:20-29 | writes to two different cells give the same map in either order |
| ScheduleContext.SetEach | frontend/src/contexts/ScheduleContext.jsx:20-29 | writing one value under a list of keys sets exactly those keys to it and keeps every other key's value |
| ScheduleContext.TemplateWritesEffect | frontend/src/contexts/ScheduleContext.jsx:36-45 | a run of SET_TEMPLATE_SLOT actions with one value changes only the template, writing that value under each key and keeping the other keys |
| ScheduleContext.AvailabilityWritesEffect | frontend/src/contexts/ScheduleContext.jsx:20-29 | a run of SET_AVAILABILITY actions with one value changes only the availability map, writing that value under each key and keeping the other keys |
| ScheduleContext.GridKeysCover | frontend/src/contexts/ScheduleContext.jsx:58-60 | the key of every day-and-row cell is among the grid's keys |
| ScheduleContext.GridKeysOnly | frontend/src/contexts/ScheduleContext.jsx:58-60 | every key among the grid's keys is the key of some day-and-row cell |
| ScheduleContext.CycleNext | frontend/src/pages/ta/ScheduleBuilder.jsx:46-58 | a click clears the cell exactly when it holds a value other than empty and the first value of the cycle; otherwise an empty cell takes the first value and the first value becomes the second |
| ScheduleContext.ClickThrice | frontend/src/pages/ta/ScheduleBuilder.jsx:46-58 | three clicks give the map back exactly when the cell was empty or held one of the cycle's two values, and no other cell ever changes |
| ScheduleGrid.BeforeEndIsMinutes | frontend/src/components/shared/ScheduleGrid.jsx:11 | with the minute inside the hour, the loop condition holds exactly when the row starts no later than the end hour |
| ScheduleGrid.Advance | frontend/src/components/shared/ScheduleGrid.jsx:15-19 | one step adds exactly the slot length to the clock and keeps the minute inside the hour |
| ScheduleGrid.SlotsFromProgression | frontend/src/components/shared/ScheduleGrid.jsx:6-22 | the rows are the progression start, start + slot, ... for as long as a row is no later than the end hour and not in hour 24: every row is accepted, the next one is not, and each row's hour and minute split its minutes by 60 |
| ScheduleGrid.SlotsIncreasing | frontend/src/components/shared/ScheduleGrid.jsx:6-22 | every row starts strictly later than the one before it |
| ScheduleGrid.PadNumberIsPad2 | frontend/src/components/shared/ScheduleGrid.jsx:13 | `String(n).padStart(2, '0')` on 0..99 is the two-digit form with a leading zero |
| ScheduleGrid.GenerateTimeSlots | frontend/src/components/shared/ScheduleGrid.jsx:6-22 | the slot texts are, in order, the padded `HH:MM` text of each row the loop visits |
| ScheduleGrid.NoSlotsPastEnd | frontend/src/components/shared/ScheduleGrid.jsx:11 | a start hour past the end hour gives no rows |
| ScheduleGrid.EndHourRowIncluded | frontend/src/components/shared/ScheduleGrid.jsx:11-12 | when the slots land exactly on an end hour before midnight, that hour is a row |
| ScheduleGrid.SlotsAreClockTimes | frontend/src/components/shared/ScheduleGrid.jsx:13 | with hours inside the day every row text is a zero-padded `HH:MM` that the algorithm's `parse_time` reads back as the row's own time |
| ScheduleGrid.DefaultConfigGrid | frontend/src/pages/tf/ScheduleConfig.jsx:45-47 | the configuration page's default grid, 9:00 to midnight in 90-minute slots, has the ten rows 09:00 to 22:30 |
| ScheduleGrid.Hour12 | frontend/src/components/shared/ScheduleGrid.jsx:27 | the 12-hour clock face shows an hour between 1 and 12 that agrees with the 24-hour hour modulo 12 |
| ScheduleGrid.FormatTime | frontend/src/components/shared/ScheduleGrid.jsx:24-29 | a row label is the 12-hour hour, a colon, the two-digit minute and AM or PM |
| ScheduleGrid.FormatTimeRoundTrip | frontend/src/components/shared/ScheduleGrid.jsx:24-29 | reading a label back to the 24-hour clock gives the row's hour and minute |
| ScheduleGrid.FormatTimeInjective | frontend/src/components/shared/ScheduleGrid.jsx:24-29 | no two times of day share a label |
| ScheduleGrid.CellColor | frontend/src/components/shared/ScheduleGrid.jsx:31-49 | an empty cell has no colour; a filled cell is coloured exactly in the builder and both TF modes, and in the TA viewer only for its three shift values |
| ScheduleGrid.HoverColor | frontend/src/components/shared/ScheduleGrid.jsx:51-60 | a grid that cannot be edited has no hover colour; an editable one shows the shift colour on a filled configuration cell and grey otherwise |
| ScheduleGrid.ViewersHaveNoHover | frontend/src/components/shared/ScheduleGrid.jsx:77 | the two viewer modes never show a hover colour, whatever the cell |
| ScheduleConfig.ParseIntValue | frontend/src/pages/tf/ScheduleConfig.jsx:46-47 | `parseInt` of a configuration value: a whole number reads as itself, a string as its leading integer, and null, booleans and objects as NaN |
| ScheduleConfig.SlotMinutes | frontend/src/pages/tf/ScheduleConfig.jsx:45 | the slot length is the configured number of minutes when set and 90 otherwise, and always positive |
| ScheduleConfig.GridTimes | frontend/src/pages/tf/ScheduleConfig.jsx:45-47 | a bound that reads as NaN gives an empty grid; otherwise the rows are those of the shared slot generator between the two hours |
| ScheduleConfig.ParseIntOfClockText | frontend/src/pages/tf/ScheduleConfig.jsx:46-47 | `parseInt` of an `HH:MM` time is its hour: it stops at the colon |
| ScheduleConfig.StartHourOfTime | frontend/src/pages/tf/ScheduleConfig.jsx:46 | a start time picked in the time input gives its hour and drops the minutes |
| ScheduleConfig.EndHourOfTime | frontend/src/pages/tf/ScheduleConfig.jsx:47 | an end time gives its hour, except `00:00`, which means the end of the day (24) |
| ScheduleConfig.EarlyMorningEndEmptiesGrid | frontend/src/pages/tf/ScheduleConfig.jsx:47 | an end time inside the first hour after midnight (`00:30`) reads as hour 0, so any later start shows no rows |
| ScheduleConfig.InitialGrid | frontend/src/pages/tf/ScheduleConfig.jsx:45-47 | the context's starting configuration (9:00 to midnight, 90-minute slots) shows the ten rows 09:00 to 22:30 |
| ScheduleConfig.ClickCell | frontend/src/pages/tf/ScheduleConfig.jsx:50-64 | a click moves the template cell along empty, office hours, lab, empty, and touches nothing else |
| ScheduleConfig.ClickCellThrice | frontend/src/pages/tf/ScheduleConfig.jsx:50-64 | three clicks restore the page state exactly when the cell was empty, office hours or lab |
| ScheduleConfig.PopulateAllFillsGrid | frontend/src/pages/tf/ScheduleConfig.jsx:88-95 | "populate all" marks every cell of the grid as office hours, keeps every other template entry, adds nothing outside the grid and leaves availability, schedule and configuration alone |
| ScheduleConfig.ClearThenPopulate | frontend/src/pages/tf/ScheduleConfig.jsx:88-99 | clearing and then populating leaves a template whose keys are exactly the grid's cells |
| ScheduleConfig.AutoPopulate | frontend/src/pages/tf/ScheduleConfig.jsx:101-113 | the effect always marks its ref, and changes the state only on its first run over an empty template |
| ScheduleConfig.AutoPopulateOnce | frontend/src/pages/tf/ScheduleConfig.jsx:101-103 | after one run, no later run changes anything, whatever the state and grid by then |
| ScheduleConfig.AutoPopulateFirstVisit | frontend/src/pages/tf/ScheduleConfig.jsx:101-113 | a first visit with an empty template leaves exactly the grid's cells in it, all office hours |
| ScheduleConfig.HandlePublish | frontend/src/pages/tf/ScheduleConfig.jsx:66-78 | a blank name asks for the name; a name with a blank UTLN asks for the UTLN; otherwise both are published trimmed and non-empty |
| ScheduleConfig.PublishedValuesTrimmed | frontend/src/pages/tf/ScheduleConfig.jsx:78 | the published name and UTLN start and end with a non-space character |
| EmojiCodeInput.OptionsDistinctHeads | frontend/src/components/shared/EmojiCodeInput.jsx:3 | every option is non-empty and no two options start with the same code point, so the alternation can match only one option at a given place |
| EmojiCodeInput.FirstPrefix | frontend/src/components/shared/EmojiCodeInput.jsx:4-9 | the alternation's choice at one place: an option the text starts with, or none when no option fits there |
| EmojiCodeInput.Matches | frontend/src/components/shared/EmojiCodeInput.jsx:4-9 | every match of the global regular expression is one of the options |
| EmojiCodeInput.Extract | frontend/src/components/shared/EmojiCodeInput.jsx:11-14 | the emoji read from text are the first five matches in order (all of them when fewer) and each is an option |
| EmojiCodeInput.MatchesOfConcat | frontend/src/components/shared/EmojiCodeInput.jsx:4-9 | reading the text of any code gives that code back |
| EmojiCodeInput.ExtractOfConcat | frontend/src/components/shared/EmojiCodeInput.jsx:11-14 | pasting the text of a code gives the code, cut to its first five emoji |
| EmojiCodeInput.NoOptionNoMatch | frontend/src/components/shared/EmojiCodeInput.jsx:11-14 | text in which no option occurs gives no emoji |
| EmojiCodeInput.EmojiClicked | frontend/src/components/shared/EmojiCodeInput.jsx:27-37 | a click appends the emoji unless the input is disabled or full, and then changes nothing; the code never grows past five |
| EmojiCodeInput.SlotRemoved | frontend/src/components/shared/EmojiCodeInput.jsx:39-47 | removing a filled slot deletes exactly that emoji and keeps the cursor inside the code; otherwise nothing changes |
| EmojiCodeInput.Pasted | frontend/src/components/shared/EmojiCodeInput.jsx:49-62 | a paste with emoji in it replaces the code with them; a paste without, or while disabled, changes nothing |
| EmojiCodeInput.ContainerClicked | frontend/src/components/shared/EmojiCodeInput.jsx:70-74 | a click on the widget moves the cursor to the next slot to fill and keeps the code |
| EmojiCodeInput.BackspacePressed | frontend/src/components/shared/EmojiCodeInput.jsx:81-87 | Backspace drops the last emoji when there is one and leaves the cursor for the effect; on an empty code or while disabled nothing changes |
| EmojiCodeInput.Effect | frontend/src/components/shared/EmojiCodeInput.jsx:95-103 | the effect keeps the code, records its length, and either moves the cursor back or puts it on the next slot to fill |
| EmojiCodeInput.StepKeepsValid | frontend/src/components/shared/EmojiCodeInput.jsx:27-103 | after any event and the effect, the code has at most five emoji, the cursor sits no later than the next slot to fill, and the length ref is current |
| EmojiCodeInput.StepAsWrittenKeepsValid | frontend/src/components/shared/EmojiCodeInput.jsx:110-130 | the same holds with the slot click bubbling to the container as the page is written |
| EmojiCodeInput.StepKeepsOptions | frontend/src/components/shared/EmojiCodeInput.jsx:166-169 | when clicks offer only the listed emoji, the code only ever holds listed emoji |
| EmojiCodeInput.EffectSettles | frontend/src/components/shared/EmojiCodeInput.jsx:95-103 | a second run of the effect, caused by its own update, changes nothing more |
| EmojiCodeInput.SlotClickFocusesSlot | frontend/src/components/shared/EmojiCodeInput.jsx:64-68 | with the slot click handled alone, clicking a slot up to the next one to fill puts the cursor there and keeps the code |
| EmojiCodeInput.SlotClickAsWrittenIgnoresSlot | frontend/src/components/shared/EmojiCodeInput.jsx:110-130 | as written, with three emoji entered a click on the first slot leaves the cursor on the fourth |
| ScheduleRoutes.GetSchedule | backend/src/routes/schedule.js:39-54 | a NaN or zero id is a 400; otherwise the response is 200 with a stored document carrying that id, or 404 exactly when no document carries it |
| ScheduleRoutes.MaxKey | backend/src/routes/schedule.js:74 | of two `schedule_id` values, the one a descending sort puts first, and no smaller than either |
| ScheduleRoutes.ArrayKey | backend/src/routes/schedule.js:74 | an array id sorts by its largest element, and an empty array sorts below every value |
| ScheduleRoutes.TopIndex | backend/src/routes/schedule.js:72-76 | the document the sort puts first: no other document's id sorts above it |
| ScheduleRoutes.GetLatestScheduleId | backend/src/routes/schedule.js:72-84 | an empty collection, or a first-sorted id that is not an integer, is a 404; otherwise 200 with that integer id |
| ScheduleRoutes.KeyLeTrans | backend/src/routes/schedule.js:74 | the sort order on `schedule_id` values is transitive |
| ScheduleRoutes.LatestIsMaximum | backend/src/routes/schedule.js:72-84 | when every stored id is an integer, the latest id is the largest of them |
| ScheduleRoutes.ShiftBodyValidIff | backend/src/routes/schedule.js:145-155 | the shift-creation route accepts the body built for a slot exactly when the slot's times are non-empty strings and the capacity is valid |
| ScheduleRoutes.DayShifts | backend/src/routes/schedule.js:141-158 | a day holds one shift per slot, in slot order, with id prefix plus slot number, schedule id 1, the slot's times, `is_lab` and `is_empty` false, no TAs and the request's capacity |
| ScheduleRoutes.Entry | backend/src/routes/schedule.js:106-169 | the document built for insertion has the seven day arrays, id 1 and the request's start, end and duration, and no other field |
| ScheduleRoutes.HeaderUpdates | backend/src/routes/schedule.js:163-169 | spreading the days and adding the four header fields keeps every day array and sets the header fields |
| ScheduleRoutes.DayFields | backend/src/routes/schedule.js:106-114 | the seven day keys, each with that day's shifts |
| ScheduleRoutes.InitSchedule | backend/src/routes/schedule.js:95-185 | with the two grid helpers supplied as parameters: the collection is emptied; if every slot has usable times and the capacity is valid the one new schedule is stored and returned with 200, otherwise a shift creation fails with 500 and the collection stays empty |
| ScheduleRoutes.InitScheduleAsWritten | backend/src/routes/schedule.js:100 | as written the handler throws before it touches the collection and never answers (see also the import at line 11) |
| ScheduleRoutes.InitScheduleAsWrittenNeverSucceeds | backend/src/routes/schedule.js:100 | the route as written never succeeds, while the route with the helpers supplied succeeds and stores the new schedule (see also the import at line 11) |
| ScheduleRoutes.LettersDigitsSplit | backend/src/routes/schedule.js:146 | a run of letters followed by a run of digits splits only one way |
| ScheduleRoutes.ShiftIdsDistinct | backend/src/routes/schedule.js:116-146 | no two shifts of the week, on different days or in different slots, share a `shift_id` |
| ScheduleRoutes.DayShiftsValid | backend/src/routes/schedule.js:141-158 | with usable slots every created shift passes the shift schema |
| ScheduleRoutes.EntrySatisfiesSchema | backend/src/routes/schedule.js:163-171 | with valid request fields the stored document passes the schedule schema |
| ScheduleRoutes.IndexFields | backend/src/routes/schedule.js:205 | spreading a sequence gives one field per index, named by the index in decimal |
| ScheduleRoutes.DistinctFromLast | backend/src/routes/schedule.js:205 | the decimal names of different indices differ |
| ScheduleRoutes.UpdateFields | backend/src/routes/schedule.js:205 | the fields `$set` receives never include `_id` or `schedule_id`; for an object they are all its other fields |
| ScheduleRoutes.FirstMatch | backend/src/routes/schedule.js:207-210 | the document `updateOne` acts on is the first whose `schedule_id` matches the filter; there is at most one such first document, and none exactly when no document matches |
| ScheduleRoutes.Update | backend/src/routes/schedule.js:193-230 | a 400 exactly when the id is not an integer or the schedule is falsy; otherwise a 500 exactly when the database refuses the field list, or refuses the write to the matched document; every response but 200 leaves the collection unchanged; on 200 the first document with the id becomes the result of `$set` on it, every other document is unchanged, and with no match nothing changes |
| ScheduleRoutes.UpdatePlainFieldsMerge | backend/src/routes/schedule.js:202-210 | when every key is a plain field name the update is a 200 that merges the fields into the matched document: named fields overwritten, the rest kept, its `schedule_id` unchanged |
| ScheduleRoutes.UpdateDottedKeyWritesElement | backend/src/routes/schedule.js:205-210 | a key `a.i`, with a an array field and i an index in it, replaces element i of that array and nothing else |
| ScheduleRoutes.UpdateEmptyKeyIsServerError | backend/src/routes/schedule.js:207-229 | an empty key in `schedule` is a 500 that changes nothing, whether or not a document has the id |
| ScheduleRoutes.UpdateConflictIsServerError | backend/src/routes/schedule.js:207-229 | keys `a` and `a.b` together are a 500 that changes nothing |
| ScheduleRoutes.UpdateOperatorKeyRefused | backend/src/routes/schedule.js:207-229 | a `$`-prefixed key in an otherwise valid list is a 500 when a document matches and a 200 when none does; nothing changes either way |
| ScheduleRoutes.InitEstablishesSingle | backend/src/routes/schedule.js:131-136 | after initialisation the collection holds at most one schedule, and it has id 1 |
| ScheduleRoutes.UpdatePreservesSingle | backend/src/routes/schedule.js:205-210 | an update keeps that property: it can neither add a document nor change an id, because `schedule_id` is never among the written fields and a stored scalar field is only changed by naming it |
| ScheduleRoutes.SingleScheduleQueries | backend/src/routes/schedule.js:39-84 | under that property the latest id is 1 (or 404 on an empty collection), any other non-zero id is a 404, and id 1 returns the stored schedule |
| Mongo.Components | backend/src/routes/schedule.js:209 | a `$set` key read as a path: its dot-separated components, none holding a dot |
| Mongo.ComponentsRoundTrip | backend/src/routes/schedule.js:209 | joining a key's components with dots gives the key back |
| Mongo.JoinRoundTrip | backend/src/routes/schedule.js:209 | splitting a dot-joined path of dot-free components gives the path back |
| Mongo.ComponentsInjective | backend/src/routes/schedule.js:209 | different keys are different paths |
| Mongo.WritePath | backend/src/routes/schedule.js:207-210 | writing one path keeps an object an object and an array an array, and is refused when the document is a scalar |
| Mongo.WritePathReads | backend/src/routes/schedule.js:207-210 | after a write the path reads back the written value |
| Mongo.WritePathKeeps | backend/src/routes/schedule.js:207-210 | a write leaves every existing path that is neither a prefix nor an extension of the written one as it was |
| Mongo.WriteAll | backend/src/routes/schedule.js:207-210 | writing every field of the update keeps an object an object and an array an array |
| Mongo.WriteAllReads | backend/src/routes/schedule.js:207-210 | after writing a valid field list every written path reads back its value |
| Mongo.WriteAllKeeps | backend/src/routes/schedule.js:207-210 | every existing path unrelated to all written paths reads as before |
| Mongo.SetFields | backend/src/routes/schedule.js:207-210 | `$set` on a document keeps an object an object |
| Mongo.SetWrites | backend/src/routes/schedule.js:207-210 | after a successful `$set` of a valid field list every named path holds the given value |
| Mongo.SetKeeps | backend/src/routes/schedule.js:207-210 | after a successful `$set` every existing path unrelated to the named ones is unchanged |
| Mongo.SetNothing | backend/src/routes/schedule.js:207-210 | an empty field list is valid and `$set` of it leaves the document as it was |
| Mongo.EmptyKeyInvalid | backend/src/routes/schedule.js:207-210 | a field list with an empty key is refused when parsed |
| Mongo.ConflictInvalid | backend/src/routes/schedule.js:207-210 | a field list holding both `a` and `a.b` is refused when parsed |
| Mongo.ReservedComponentRefused | backend/src/routes/schedule.js:207-210 | a key with a `$`-prefixed component, or one that starts at `_id`, makes the write fail |
| Mongo.WritePlain | backend/src/routes/schedule.js:202-210 | writing only plain top-level names merges them into the object |
| Mongo.SetPlainIsMerge | backend/src/routes/schedule.js:202-210 | a field list of plain names is valid and `$set` of it is the map merge: named fields overwritten, the rest kept |
| Mongo.SetOne | backend/src/routes/schedule.js:207-210 | `$set` of one key is the write of its path, or refused when the key is reserved |
| Mongo.SetArrayElement | backend/src/routes/schedule.js:205-210 | `$set` of `a.i`, with i an index of the array field a, replaces element i and nothing else |
| Mongo.ScalarTraversalRefused | backend/src/routes/schedule.js:207-210 | `$set` of `a.b` where field a holds a scalar is refused |
| Mongo.WriteAllKeepsScalar | backend/src/routes/schedule.js:202-210 | writing a field list that does not name a scalar top-level field keeps that field |
| Mongo.SetKeepsScalarField | backend/src/routes/schedule.js:202-210 | a successful `$set` that does not name a scalar top-level field keeps it, so the stored `schedule_id` survives every update |
| TaSchemas.EntryFromJson | backend/src/schemas/ta.js:4-8 | an entry the preference schema accepts reads back as a typed entry with a non-empty time slot and a level of 0, 1 or 2, and writing that entry gives the same JSON |
| TaSchemas.EntrySchemaIff | backend/src/schemas/ta.js:4-8 | the preference schema accepts an entry exactly when its time slot is non-empty and its level is 0, 1 or 2; an empty `shift_id` is allowed |
| TaSchemas.TaDefaults | backend/src/schemas/ta.js:16-17 | missing `preferences` and `confirmed_shifts` become empty arrays and every given field is kept |
| TaSchemas.TaDefaultsKeepValid | backend/src/schemas/ta.js:10-18 | filling in the defaults keeps a valid TA valid |
| TaSchemas.TaFieldsOf | backend/src/schemas/ta.js:11-15 | a valid TA has non-empty id and names, a boolean `is_tf` and a `lab_perm` between 0 and 2 |
| TaSchemas.LabPermNeedNotBeInteger | backend/src/schemas/ta.js:15 | `lab_perm` is range-checked but not required to be whole: 1.5 passes, 2.5 and -1 do not |
| TaSchemas.TaRequiredFields | backend/src/schemas/ta.js:10-18 | dropping any required field, or adding a key the schema does not list, makes a valid TA invalid |
| ScheduleSchemas.ShiftDefaults | backend/src/schemas/schedule.js:14-15 | a missing `is_empty` becomes true and a missing `tas_scheduled` an empty array; every given field is kept |
| ScheduleSchemas.ShiftDefaultsKeepValid | backend/src/schemas/schedule.js:8-17 | filling in the defaults keeps a valid shift valid, and both defaulted fields are then present |
| ScheduleSchemas.HeaderOnlyScheduleValid | backend/src/schemas/schedule.js:19-31 | a schedule with only its four header fields, whatever the duration's sign, is valid: no day key is required |
| PreferenceCodec.Parse | backend/src/routes/ta.js:88-120 | a string without ':' is an invalid format; a decoded entry has an empty `shift_id`, a level of 0, 1 or 2, and as `time_slots` the part of the input before its last ':', which itself holds a ':' |
| PreferenceCodec.ValidDayHasNoColon | backend/src/routes/ta.js:105-108 | an accepted day token holds no ':' |
| PreferenceCodec.ParseComplete | backend/src/routes/ta.js:88-120 | every string made of a valid day in any case, a well-formed range and a level text with parseInt 0, 1 or 2 decodes to that day and range, case kept, and that level |
| PreferenceCodec.ParseSound | backend/src/routes/ta.js:88-120 | conversely, every string that decodes is such an encoding, and the entry is made of its pieces |
| PreferenceCodec.RoundTrip | backend/src/routes/ta.js:96-119 | encoding a valid day, a well-formed range and a digit 0, 1 or 2 and decoding gives back the day and range joined by ':' and the level |
| PreferenceCodec.TimeRangeOf | backend/src/routes/ta.js:110-113 | two `H:MM` or `HH:MM` texts joined by '-' pass the time pattern |
| PreferenceCodec.NoClockRangeCheck | backend/src/routes/ta.js:110-113 | hours and minutes are checked for shape only: a range between any two-digit pairs, `99:99` among them, decodes |
| PreferenceCodec.TrailingJunkAccepted | backend/src/routes/ta.js:93-94 | parseInt keeps a leading-digit prefix, so a level text `2x` decodes as level 2 |
| PreferenceCodec.SingleDigitLevel | backend/src/routes/ta.js:93 | parseInt of a single digit is that digit |
| PreferenceCodec.LevelAboveTwoRejected | backend/src/routes/ta.js:93-94 | whatever comes before it, a final digit from 3 to 9 is rejected as a bad level before the day or range is looked at |
| PreferenceCodec.ParsedEntrySatisfiesSchema | backend/src/routes/ta.js:147-149 | every decoded entry passes the preference schema, so the schema check after each decode never fails |
| TaRoutes.CreateTa | backend/src/routes/ta.js:45-75 | a body the TA schema rejects is a 400 with the store unchanged; otherwise one document is appended with the five identity fields and empty preferences and confirmed shifts |
| TaRoutes.CreateIgnoresGivenPreferences | backend/src/routes/ta.js:59-67 | the new document's preferences and confirmed shifts are empty whatever the body gave |
| TaRoutes.CreatePreservesValid | backend/src/routes/ta.js:45-75 | creation keeps every stored TA's identity fields and preferences valid |
| TaRoutes.DecodeItem | backend/src/routes/ta.js:145-153 | an item of the batch decodes exactly when it is a string the decoder accepts, and then to the decoder's entry |
| TaRoutes.FilterOf | backend/src/routes/ta.js:134-156 | how `{ta_id}` reads the body's id: a string is an equality; a missing id, a scalar, an array or an object without operator keys matches no stored id; an object of operator keys is an operator filter, or a refused query when one is unknown or malformed |
| TaRoutes.FindTa | backend/src/routes/ta.js:156 | the lookup is a query error exactly when the server refuses the filter, finds nothing exactly when no document matches, and otherwise finds the first matching document |
| TaRoutes.StringIdFindsFirstEqual | backend/src/routes/ta.js:156 | a string id finds the first document with exactly that `ta_id`, finds something exactly when some document has it, and is never refused |
| TaRoutes.NonStringIdFindsNothing | backend/src/routes/ta.js:134-156 | a missing id, null, a number, a boolean, an array or an object without operator keys finds no document and is not refused |
| TaRoutes.LexIrreflexive | backend/src/routes/ta.js:156 | no stored id sorts below itself in the server's string order |
| TaRoutes.LexTrichotomy | backend/src/routes/ta.js:156 | the server's string order is strict and total |
| TaRoutes.InclusiveComparisons | backend/src/routes/ta.js:156 | `$gte` holds exactly when `$gt` or `$eq` does, and `$lte` exactly when `$lt` or `$eq` does |
| TaRoutes.EmptyIsLeast | backend/src/routes/ta.js:156 | the empty string sorts below every non-empty id |
| TaRoutes.GreaterThanEmptyFindsFirst | backend/src/routes/ta.js:156 | the filter `{"$gt": ""}` finds the first document of any non-empty valid store |
| TaRoutes.OperatorIdUpdatesFirstTa | backend/src/routes/ta.js:134-168 | a body whose `ta_id` is `{"$gt": ""}` with a decodable list is a 200 that appends the list to the first TA, whatever that TA's id |
| TaRoutes.SingleOperatorRejected | backend/src/routes/ta.js:156 | an unknown operator, or `$in` with a non-array operand, is refused by the server |
| TaRoutes.MalformedOperatorIsServerError | backend/src/routes/ta.js:156-181 | such a filter with a decodable list is a 500 that changes nothing |
| TaRoutes.SubmitPreferences | backend/src/routes/ta.js:123-181 | a non-array or any undecodable item is a 400 before the lookup, even for an unknown TA; then a refused filter is a 500 and no match a 404; otherwise the first matching TA gets the decoded entries appended in order; nothing changes except on 200 |
| TaRoutes.SubmitPreservesValid | backend/src/routes/ta.js:144-168 | a submission keeps every stored preference valid under the preference schema |
| TaRoutes.ResubmissionDuplicates | backend/src/routes/ta.js:165-168 | submitting the same list twice stores every entry twice |
| TaRoutes.DuplicateIdsShadow | backend/src/routes/ta.js:45-75 | creation does not check that the id is new: two TAs with one id both stay, and preferences for that id reach only the first (see also the preference lookup at lines 156-168) |
| AlgContext.TimeLtIsMinutesLt | src/algorithm/constraints.py:7-11 | for valid clock times, comparing times is comparing minutes since midnight |
| AlgContext.AllOnShift | src/algorithm/data/parsers.py:99-103 | everyone on a shift is leads, then lab TAs, then office-hours TAs, as many as the three lists hold |
| AlgContext.TaIds | src/algorithm/data_access.py:23 | the TA ids in `ta_metadata` order |
| AlgContext.WellIndexedDistinct | src/algorithm/data_access.py:13-19 | ids 1..n in list order are distinct |
| AlgContext.TaIndex | src/algorithm/helpers/data_access.py:31-38 | the position of a TA record with the given id, and none exactly when no record has it |
| AlgContext.ShiftIndex | src/algorithm/helpers/data_access.py:40-47 | the position of a shift record with the given id, and none exactly when no record has it |
| AlgContext.WellIndexedPositions | src/algorithm/data_access.py:13-19 | with ids 1..n in list order, the record with id i sits at position i - 1 |
| AlgContext.GetPref | src/algorithm/data_access.py:5-7 | the matrix entry for the TA and shift, and 0 when the TA or the shift has no entry |
| AlgContext.AvailableTas | src/algorithm/data_access.py:21-23 | the ids of the TAs with a positive preference for the shift, in `ta_metadata` order |
| AlgContext.AvailableTasMembers | src/algorithm/data_access.py:21-23 | a TA is listed exactly when it has a positive preference for the shift |
| AlgContext.AvailableTasComplete | src/algorithm/data_access.py:21-23 | every TA with a positive preference is listed |
| AlgContext.ShiftsForTa | src/algorithm/helpers/data_access.py:61-63 | the ids of the shifts the TA has a positive preference for, in `shift_metadata` order |
| AlgContext.ShiftsForTaComplete | src/algorithm/helpers/data_access.py:61-63 | every shift with a positive preference is listed |
| AlgContext.DurationHours | src/algorithm/data_access.py:43-47 | a shift's length in hours times 60 is its minute difference, and it is not negative when the end is not before the start |
| AlgContext.AddShift | src/algorithm/data_access.py:53-56 | the TA's shift list gains the shift at its end and its hours grow by the duration; every other TA is unchanged |
| AlgContext.DropShift | src/algorithm/data_access.py:58-61 | the first occurrence of the shift leaves the TA's list, which loses exactly one copy, and its hours drop by the duration; every other TA is unchanged |
| AlgContext.AddThenDrop | src/algorithm/data_access.py:53-61 | adding then dropping a shift restores the hours and the multiset of the TA's shifts |
| AlgContext.DropAfterAddRestores | src/algorithm/data_access.py:53-61 | when the TA did not hold the shift, adding then dropping it restores the state exactly |
| DataAccess.GetTa | src/algorithm/data_access.py:13-15 | `get_ta` reads position id - 1, so it fails with IndexError outside -n < id <= n and for ids 1..n returns the record at id - 1 |
| DataAccess.GetShift | src/algorithm/data_access.py:17-19 | `get_shift` reads position id - 1 in the same way |
| DataAccess.ZeroIdWraps | src/algorithm/data_access.py:13-19 | id 0 does not fail: Python's negative index fetches the last record |
| DataAccess.PositionalAgreesWhenWellIndexed | src/algorithm/data_access.py:13-19 | with ids 1..n in list order the positional lookup returns the record with the requested id, the same one the keyed lookup finds |
| DataAccess.PositionalWrongRecord | src/algorithm/data_access.py:13-15 | when ids are out of order the lookup returns a record with a different id |
| DataAccess.EligibleLeads | src/algorithm/data_access.py:25-27 | the available TAs whose status is exactly 3, in order; it fails when a lookup of an available id fails |
| DataAccess.EligibleLabTas | src/algorithm/data_access.py:29-31 | the available TAs whose status is at least 2, in order; it fails when a lookup fails |
| DataAccess.EligibleWhenWellIndexed | src/algorithm/data_access.py:25-31 | with ids 1..n both filters succeed and keep exactly the available TAs of the required status |
| DataAccess.AvailableIdsInRange | src/algorithm/data_access.py:21-23 | with ids 1..n every available id is a valid position |
| DataAccess.LeadThresholdsDisagree | src/algorithm/data_access.py:27 | the two copies of the lead filter disagree: an available TA of status 2 is a lead for the keyed copy and not for this one, which lists it as a lab TA |
| DataAccess.KeyedLeadOfStatus | src/algorithm/helpers/data_access.py:53-55 | the keyed lead filter keeps every available TA of status at least 2 |
| DataAccess.AssignTa | src/algorithm/data_access.py:53-56 | `assign_ta` succeeds exactly when the TA has entries and the shift lookup succeeds, and then adds the shift and its duration |
| DataAccess.RemoveTa | src/algorithm/data_access.py:58-61 | `remove_ta` fails with ValueError when the TA does not hold the shift; otherwise it drops one copy and subtracts the duration |
| DataAccess.AssignThenRemove | src/algorithm/data_access.py:53-61 | assigning then removing the same pair restores the hours and the multiset of the TA's shifts |
| DataAccessHelpers.GetTa | src/algorithm/helpers/data_access.py:31-38 | the record with the given id, or KeyError exactly when no record has it |
| DataAccessHelpers.GetShift | src/algorithm/helpers/data_access.py:40-47 | the shift with the given id, or KeyError exactly when none has it |
| DataAccessHelpers.LookupsFindOwnRecord | src/algorithm/helpers/data_access.py:31-47 | with distinct ids each record is found by its own id |
| DataAccessHelpers.RoleFilterSound | src/algorithm/helpers/data_access.py:53-59 | a role filter keeps only available TAs whose record meets the status bound |
| DataAccessHelpers.EligibleLeads | src/algorithm/helpers/data_access.py:53-55 | every listed lead is available and has status at least 2 |
| DataAccessHelpers.EligibleLabTas | src/algorithm/helpers/data_access.py:57-59 | every listed lab TA is available and has status at least 1 |
| DataAccessHelpers.EligibleMembers | src/algorithm/helpers/data_access.py:49-59 | a TA is a listed lead, or lab TA, exactly when it is available and its record's status is at least 2, or 1; every lead is also a lab TA |
| DataAccessHelpers.AssignTa | src/algorithm/helpers/data_access.py:81-84 | succeeds exactly when the TA has entries and the shift exists, failing with KeyError otherwise, and then adds the shift and its duration |
| DataAccessHelpers.RemoveTa | src/algorithm/helpers/data_access.py:86-89 | fails with ValueError when the TA does not hold the shift; otherwise drops one copy and subtracts the duration |
| DataAccessHelpers.AssignThenRemove | src/algorithm/helpers/data_access.py:81-89 | assigning then removing the same pair restores the hours and the multiset of the TA's shifts |
| Constraints.EligibleTasForRole | src/algorithm/constraints.py:40-62 | the scan succeeds exactly when no check of any TA raises, and then lists, in `ta_metadata` order, the ids that pass every check |
| Constraints.ChecksResolve | src/algorithm/constraints.py:13-34 | in a state the greedy fill keeps, every lookup a check makes succeeds and the status check compares the TA's status with the role's threshold |
| Constraints.EligibleTestMeaning | src/algorithm/constraints.py:40-62 | in such a state the combined check of a TA succeeds with value true exactly when the TA is available, of sufficient status, within `max_hours` after the shift, free of overlapping shifts and, for the lab roles, in no lab; no overload check is made |
| Constraints.EligibleExactly | src/algorithm/constraints.py:40-62 | in such a state the scan succeeds and lists a TA exactly when it meets those conditions |
| Constraints.EligibleListed | src/algorithm/constraints.py:40-62 | in such a state the scan succeeds and lists distinct ids of TAs in the metadata |
| Constraints.EligibleScanSucceeds | src/algorithm/constraints.py:40-62 | in such a state no check raises |
| Constraints.EligibleIdsDistinct | src/algorithm/constraints.py:45-62 | the listed ids are distinct and each names a TA of the metadata |
| Constraints.PicksMeet | src/algorithm/constraints.py:40-62 | any TAs drawn from the list meet the role's conditions |
| Constraints.ListedMeet | src/algorithm/constraints.py:40-62 | every TA whose id is listed meets the role's conditions |
| Constraints.MembersMeet | src/algorithm/constraints.py:40-62 | TAs drawn from a list of TAs that meet the role meet it too |
| Constraints.Trunc | src/algorithm/constraints.py:98 | Python's `int` on a float truncates toward zero |
| Constraints.FloorRange | src/algorithm/constraints.py:94-101 | one TA's `min_hours` becomes the larger of the old value and the truncated smaller of the fair floor and the available hours: never lowered, and when raised a whole number no larger than either bound; the other fields are unchanged |
| Constraints.ApplyFairnessFloorAsWritten | src/algorithm/constraints.py:68-101 | as written: a ZeroDivisionError with no TAs; otherwise only `min_hours` changes and it never falls, with availability read at list positions |
| Constraints.ApplyFairnessFloor | src/algorithm/constraints.py:68-101 | with availability read by id: a ZeroDivisionError with no TAs; otherwise only `min_hours` changes, it never falls, and when raised it is no more than the TA's available hours |
| Constraints.ApplyFairnessFloorIdempotent | src/algorithm/constraints.py:68-101 | applying the corrected floor twice changes nothing more |
| Constraints.FairnessFloorReadsPositions | src/algorithm/constraints.py:86-92 | with one TA who prefers one ten-hour shift, the code as written finds the TA available for nothing and leaves the floor at 0, while reading by id raises it to 9 |
| ConstraintHelpers.OverlapIsSharedMinute | src/algorithm/helpers/constraints.py:8-12 | for valid non-empty shifts, two shifts overlap exactly when they are on the same day and share a minute of their half-open intervals |
| ConstraintHelpers.OverlapBasics | src/algorithm/helpers/constraints.py:8-12 | overlap is symmetric, never holds across days, and back-to-back shifts do not overlap |
| ConstraintHelpers.HasMinStatusForRole | src/algorithm/helpers/constraints.py:32-35 | fails exactly when the TA lookup fails, and otherwise tells whether the status reaches the role's threshold (office hours 1, lab TA 2, lead 3) |
| ConstraintHelpers.RoleThresholdsChain | src/algorithm/helpers/constraints.py:34 | a TA fit to lead is fit to be a lab TA, and a lab TA is fit for office hours |
| ConstraintHelpers.AnyOf | src/algorithm/helpers/constraints.py:24 | Python's `any` over looked-up records: true only with a witness, false only when every lookup succeeds and no record passes, an error only from a failed lookup |
| ConstraintHelpers.AnyOfResolved | src/algorithm/helpers/constraints.py:24 | when every lookup succeeds, `any` succeeds and is the existential |
| ConstraintHelpers.HasTimeConflict | src/algorithm/helpers/constraints.py:14-20 | the candidate's lookup error, or KeyError for an untracked TA, is raised; with every lookup succeeding the answer is whether a held shift overlaps the candidate |
| ConstraintHelpers.IsInAnyLab | src/algorithm/helpers/constraints.py:22-24 | KeyError for an untracked TA; with every lookup succeeding, whether a held shift is a lab |
| ConstraintHelpers.WouldExceedMaxHours | src/algorithm/helpers/constraints.py:26-30 | succeeds exactly when the TA, the shift and the TA's hours exist, and then tells whether hours plus the shift's duration pass `max_hours` |
| ConstraintHelpers.NoExceedKeepsUnderMax | src/algorithm/helpers/constraints.py:26-30 | after passing the check, assigning the shift leaves the TA within `max_hours` |
| ConstraintHelpers.HoursInOrder | src/algorithm/helpers/constraints.py:114 | the hours map's values, listed in the dictionary's insertion order |
| ConstraintHelpers.AtMostQuotient | src/algorithm/helpers/constraints.py:114 | a value whose n-fold is at most a sum is at most the sum over n |
| ConstraintHelpers.MeanAtLeast | src/algorithm/helpers/constraints.py:114 | a lower bound of every value bounds the mean |
| ConstraintHelpers.LeastAtMostMean | src/algorithm/helpers/constraints.py:114 | the least value is at most the mean |
| ConstraintHelpers.IsOverloaded | src/algorithm/helpers/constraints.py:109-115 | a ZeroDivisionError on an empty hours map, KeyError for an unknown TA, and otherwise whether the TA's hours are more than one above the mean |
| ConstraintHelpers.NotEveryoneOverloaded | src/algorithm/helpers/constraints.py:109-115 | some TA is never overloaded, so the cap never excludes everyone |
| ConstraintHelpers.EligibleTasForRole | src/algorithm/helpers/constraints.py:41-65 | the scan succeeds exactly when no check of any TA raises, and then lists, in `ta_metadata` order, the ids that pass every check |
| ConstraintHelpers.ChecksResolve | src/algorithm/helpers/constraints.py:41-65 | in a tracked state every check of a metadata TA succeeds with the value its meaning gives |
| ConstraintHelpers.HeldResolve | src/algorithm/helpers/constraints.py:14-24 | in a tracked state every shift a TA holds can be looked up |
| ConstraintHelpers.HoursChecksResolve | src/algorithm/helpers/constraints.py:26-115 | the overload, status and max-hours checks succeed and compare the recorded hours and status with their bounds |
| ConstraintHelpers.HeldChecksResolve | src/algorithm/helpers/constraints.py:14-24 | the conflict and lab checks succeed and read the held shifts |
| ConstraintHelpers.EligibleTestMeaning | src/algorithm/helpers/constraints.py:41-65 | the combined check of a metadata TA succeeds with value true exactly when the TA is available, not overloaded, of sufficient status, within `max_hours`, free of overlaps and, for the lab roles, in no lab |
| ConstraintHelpers.EligibleExactly | src/algorithm/helpers/constraints.py:41-65 | in a tracked state the scan succeeds and lists a metadata TA exactly when it meets those conditions |
| ConstraintHelpers.EligibleSound | src/algorithm/helpers/constraints.py:41-65 | every listed id belongs to an available metadata TA, and the list keeps `ta_metadata` order |
| ConstraintHelpers.AvailableHoursNonNeg | src/algorithm/helpers/constraints.py:88-92 | with well-formed shifts a TA's available hours are not negative |
| ConstraintHelpers.FairRange | src/algorithm/helpers/constraints.py:94-107 | `min_hours` is only raised and not past the fair floor or the available hours; `max_hours` is only lowered, stays at least 1.5 above the new minimum when it moves, and ends at the ceiling or that margin; nothing else changes |
| ConstraintHelpers.FairRangeIdempotent | src/algorithm/helpers/constraints.py:94-107 | adjusting an adjusted TA changes nothing |
| ConstraintHelpers.FairRangeCanInvert | src/algorithm/helpers/constraints.py:94-107 | the ceiling never exceeds the old maximum, so a raised minimum can end above the maximum (minimum 9, maximum 2) |
| ConstraintHelpers.ApplyFairness | src/algorithm/helpers/constraints.py:71-107 | a ZeroDivisionError with no TAs; otherwise only the two bounds change, each TA's range narrows, a raised minimum stays within the available hours and a lowered maximum stays 1.5 above the minimum |
| ConstraintHelpers.AvailableHoursFrame | src/algorithm/helpers/constraints.py:88-92 | available hours depend only on the shifts and the preferences |
| ConstraintHelpers.ApplyFairnessIdempotent | src/algorithm/helpers/constraints.py:71-107 | applying the adjustment twice changes nothing more |
| ConstraintHelpers.ExperiencePenalty | src/algorithm/helpers/constraints.py:122-140 | 0 or 1: 0 for an experienced TA without reading the schedule, and for an inexperienced one 1 exactly when someone inexperienced is already on the shift |
| ConstraintHelpers.InexperiencedAmong | src/algorithm/helpers/constraints.py:136-138 | the scan finds an inexperienced TA on the shift exactly when there is one |
| ConstraintHelpers.CountIn | src/algorithm/helpers/constraints.py:164 | the count of entries found is 0 exactly when none is found and the full length exactly when all are |
| ConstraintHelpers.CompanionBoost | src/algorithm/helpers/constraints.py:147-165 | the number of the TA's companions already on the shift: 0 exactly when none is, all of them exactly when all are; a TA without companions never reads the schedule |
| ConstraintHelpers.TimePriority | src/algorithm/helpers/constraints.py:182-193 | 3 from 17:00, 1 before noon, 2 in between |
| ConstraintHelpers.TimePriorityMonotone | src/algorithm/helpers/constraints.py:182-193 | a later start hour never lowers the time priority |
| ConstraintHelpers.RecordPriority | src/algorithm/helpers/constraints.py:172-206 | a shift's priority lies between 2 and 8; a lab scores at least 4 and an office-hours shift at most 6 |
| ConstraintHelpers.LabBonus | src/algorithm/helpers/constraints.py:204 | a lab outranks an office-hours shift of the same day and hour by exactly 2 |
| ConstraintHelpers.ShiftPriority | src/algorithm/helpers/constraints.py:195-206 | fails with KeyError exactly when the shift is unknown, and otherwise is the record's priority, between 2 and 8 |
| HelpersScoring.BalanceBoost | src/algorithm/helpers/scoring.py:21-22 | the balance boost is never negative, at most 2 for recorded hours, and positive exactly when the TA has a positive minimum that the hours fall short of |
| HelpersScoring.BalanceBoostTwiceGreedy | src/algorithm/helpers/scoring.py:22 | the scoring helper's boost is exactly twice the greedy pass's boost for the same minimum and hours |
| HelpersScoring.PenaltyTerm | src/algorithm/helpers/scoring.py:15-23 | no experience penalty costs nothing; one costs 0.1 |
| HelpersScoring.CandidateScore | src/algorithm/helpers/scoring.py:18-25 | succeeds exactly when the TA, the TA's hours, the experience penalty and the companion boost all resolve; the score is preference plus balance boost plus companion count, less 0.1 when an inexperienced TA meets another; an experienced TA is never penalised |
| HelpersScoring.ScoreTerms | src/algorithm/helpers/scoring.py:32-34 | one term per placement: the role weight times the candidate score |
| HelpersScoring.ScoreSchedule | src/algorithm/helpers/scoring.py:27-35 | succeeds exactly when every placement of the schedule, in dictionary order, leads then lab TAs then office-hours TAs, can be scored, and then is the sum of the weighted candidate scores |
| HelpersScoring.ScorableAppend | src/algorithm/helpers/scoring.py:29-34 | two runs of placements are scorable together exactly when each is, and their terms concatenate |
| HelpersScoring.AddScoresSum | src/algorithm/helpers/scoring.py:31-34 | the loop over one role's TAs fails exactly when one placement cannot be scored and otherwise adds the sum of its terms |
| HelpersScoring.AddShiftScoresSum | src/algorithm/helpers/scoring.py:30-34 | the loop over the three roles of one shift adds the sum of that shift's terms |
| HelpersScoring.AddScheduleScoresSum | src/algorithm/helpers/scoring.py:29-34 | the loop over the schedule adds the sum of all its terms |
| HelpersScoring.EmptyScheduleScoresZero | src/algorithm/helpers/scoring.py:27-35 | a schedule without placements scores 0 |
| Scoring.RoleWeight | src/algorithm/scoring.py:8-12 | every role weight lies in (0, 1], and only a lead's is 1 |
| Scoring.ListPlacements | src/algorithm/scoring.py:17-22 | one placement per listed TA, in list order |
| Scoring.NoPlacements | src/algorithm/scoring.py:16-22 | a schedule whose shifts hold nobody has no placements |
| Scoring.ScoreSchedule | src/algorithm/scoring.py:14-23 | the score is the sum, over placements in dictionary order, of the role weight times the TA's preference for the shift |
| Scoring.AddPrefsSum | src/algorithm/scoring.py:17-22 | the loop over one role's TAs adds that role's weighted preferences |
| Scoring.AddShiftPrefsSum | src/algorithm/scoring.py:16-22 | the loops over one shift's leads, lab TAs and office-hours TAs add that shift's weighted preferences |
| Scoring.AddSchedulePrefsSum | src/algorithm/scoring.py:16-22 | the loop over the schedule adds every placement's weighted preference |
| Scoring.EmptyScheduleScoresZero | src/algorithm/scoring.py:14-23 | a schedule without placements scores 0 |
| Scoring.ScoreNonNegative | src/algorithm/scoring.py:14-23 | with no negative preference the score is not negative |
| Scoring.ScoreReadsPrefsOnly | src/algorithm/scoring.py:14-23 | the score depends only on the preferences, not on the TA or shift records |
| Scoring.Rate | src/algorithm/scoring.py:29-41 | every rate is at least the TA rate 17.43, and above it exactly for a teaching fellow |
| Scoring.CostTerms | src/algorithm/scoring.py:38-42 | one term per metadata TA: hours times rate |
| Scoring.CalculateCost | src/algorithm/scoring.py:32-44 | KeyError exactly when some metadata TA has no hours entry, and otherwise the sum of hours times rate |
| Scoring.CostAtZeroHours | src/algorithm/scoring.py:32-44 | no hours cost nothing |
| Scoring.CostMonotone | src/algorithm/scoring.py:32-44 | giving every TA at least as many hours never lowers the cost |
| Scoring.CostNonNegative | src/algorithm/scoring.py:32-44 | non-negative hours give a non-negative cost |
| Sorting.InsertDesc | src/algorithm/greedy.py:48 | inserting into a descending run keeps it descending and adds exactly the one element |
| Sorting.SortDesc | src/algorithm/greedy.py:48 | `sorted(..., reverse=True)`: a permutation of the input in descending key order |
| Sorting.InsertDescStable | src/algorithm/greedy.py:48 | insertion places the new element ahead of the existing elements of its key |
| Sorting.SortDescStable | src/algorithm/greedy.py:48 | the sort is stable in Python's sense: elements of equal key keep their input order |
| Sorting.SliceTo | src/algorithm/greedy.py:49 | Python's `xs[:n]`: a prefix of the list, of length n clipped to the list, counted from the end for negative n, and shorter than n exactly when the list is |
| Sorting.SliceOfRanking | src/algorithm/greedy.py:48-49 | the selection is drawn from the candidates, has n of them when there are that many, and falls short of n exactly when the candidates do |
| Sorting.TopOfRanking | src/algorithm/greedy.py:48-49 | the selection and the rest of the ranking together are the candidates, and no candidate left out scores above one selected |
| Sorting.TopOfRankingMembers | src/algorithm/greedy.py:48-49 | every selected candidate scores at least as high as every candidate not selected |
| Greedy.IdSets | src/algorithm/greedy.py:17-29 | with ids 1..n in list order, the id sets are exactly 1..n |
| Greedy.Init | src/algorithm/greedy.py:17-29 | the schedule is keyed by every shift id, and the current assignments and the hours by every TA id |
| Greedy.BalanceBoost | src/algorithm/greedy.py:35-36 | the greedy balance boost is never negative, at most 1 for recorded hours, and positive exactly when a positive minimum has not been reached |
| Greedy.CandidateScore | src/algorithm/greedy.py:32-38 | fails exactly when the TA or the TA's hours are missing, and otherwise is the preference plus the balance boost |
| Greedy.BelowMinRanksHigher | src/algorithm/greedy.py:32-38 | of two TAs with the same preference, one still below a positive minimum outranks one that has met its minimum |
| Greedy.Selection | src/algorithm/greedy.py:44-49 | succeeds only when the eligibility scan does, draws from the eligible TAs, has n of them when there are that many, and falls short of n exactly when the eligible TAs do |
| Greedy.SelectionTop | src/algorithm/greedy.py:44-49 | no eligible TA left out scores above a selected one |
| Greedy.AssignAll | src/algorithm/greedy.py:52-54 | on success, the shift's entry gains the selected TAs in the role's list and each of them gets the shift and its hours |
| Greedy.FillRole | src/algorithm/greedy.py:41-61 | on success, only the filled shift's entry changes: it gains the selection in the role's list and becomes unschedulable when the selection is short; no TA loses a shift |
| Greedy.MarkShort | src/algorithm/greedy.py:57-58 | a short role sets `unschedulable` and changes nothing else |
| Greedy.FillShift | src/algorithm/greedy.py:66-71 | filling one shift leaves every other shift's entry and every TA's earlier shifts alone |
| Greedy.OfKindParts | src/algorithm/greedy.py:64 | the labs and the office-hours shifts together are all the shifts |
| Greedy.LabFirst | src/algorithm/greedy.py:64 | the stable sort on `not is_lab`: a permutation of the shifts with every lab ahead of every office-hours shift |
| Greedy.FillAll | src/algorithm/greedy.py:66-71 | the loop keeps the schedule's keys |
| Greedy.GreedyAssign | src/algorithm/greedy.py:8-73 | on success the schedule is keyed by exactly the shift ids |
| Greedy.InitInv | src/algorithm/greedy.py:17-29 | the empty start satisfies the invariant: nobody holds anything and every TA has zero hours |
| Greedy.AddKeeps | src/algorithm/greedy.py:54 | assigning an eligible TA keeps that TA free of overlaps, in at most one lab, within `max_hours`, with hours equal to the durations held |
| Greedy.StepKeeps | src/algorithm/greedy.py:52-54 | one assignment of an eligible TA keeps the invariant, gives that TA the shift and leaves every other TA alone |
| Greedy.AppendRoleMembers | src/algorithm/greedy.py:53 | after appending, the shift holds exactly its earlier TAs and the new ones |
| Greedy.AssignAllKeeps | src/algorithm/greedy.py:52-54 | assigning eligible TAs succeeds, keeps the invariant and gives each of them the shift |
| Greedy.FillRoleKeeps | src/algorithm/greedy.py:41-61 | filling a role succeeds, keeps the invariant, and gives every selected (eligible) TA the shift |
| Greedy.LeadsAreNotLabTas | src/algorithm/greedy.py:68-69 | nobody chosen as a lead is then chosen as a lab TA of the same lab |
| Greedy.LabPicksDistinct | src/algorithm/greedy.py:68-69 | the leads and the lab TAs of a lab are each duplicate-free and disjoint |
| Greedy.LabKeepsInv | src/algorithm/greedy.py:67-69 | filling a lab succeeds and keeps the invariant |
| Greedy.LabEndsFilled | src/algorithm/greedy.py:57-69 | a lab filled from an empty entry has no office-hours TAs, nobody twice, no role over its head count, and is unschedulable exactly when leads or lab TAs are short |
| Greedy.FillOhKeeps | src/algorithm/greedy.py:57-71 | filling an office-hours shift succeeds, keeps the invariant, and leaves only office-hours TAs, nobody twice, within the head count, unschedulable exactly when short |
| Greedy.FillShiftKeeps | src/algorithm/greedy.py:66-71 | filling any shift from an empty entry succeeds, keeps the invariant and leaves the entry filled as its kind requires |
| Greedy.FillAllKeeps | src/algorithm/greedy.py:66-71 | the loop over distinct unfilled shifts succeeds, keeps the invariant, fills each of them and touches no other entry |
| Greedy.LabFirstCovers | src/algorithm/greedy.py:64 | the labs-first order lists every shift of the context once |
| Greedy.GreedyAssignSound | src/algorithm/greedy.py:8-73 | with ids 1..n in list order, the greedy pass succeeds; no TA holds overlapping shifts or two labs or passes `max_hours`, every TA listed on a shift holds it, hours equal the durations held, and every shift is filled as its kind requires |
| Reducer.NumTfs | src/algorithm/reducer.py:18 | the count of TFs never exceeds the number of TAs |
| Reducer.BlendedRate | src/algorithm/reducer.py:17-20 | the blended rate lies between the TA rate 17.43 and the TF rate 19.60, and times the number of TAs is the whole staff's pay per hour |
| Reducer.ApplyReducedFairnessFloor | src/algorithm/reducer.py:9-29 | a ZeroDivisionError with no TAs; otherwise only `min_hours` changes, and each TA's minimum is lowered to `int(fairness_floor)` when above it and never raised |
| Reducer.NumTfsFrame | src/algorithm/reducer.py:18 | the TF count depends only on the `is_tf` flags |
| Reducer.ReducedFloorIdempotent | src/algorithm/reducer.py:9-29 | applying the reduced floor to its own result changes nothing |
| Reducer.RatesSum | src/algorithm/reducer.py:20 | the sum of the TAs' rates is the staff's pay per hour |
| Reducer.FloorTimesPay | src/algorithm/reducer.py:20-24 | the untruncated floor times the staff's pay per hour is the budget times the threshold |
| Reducer.FloorAffordable | src/algorithm/reducer.py:15-24 | if every TA worked exactly the untruncated fairness floor, the schedule would cost the budget times the threshold, 90% of the budget by default |
| Reducer.UniformCost | src/algorithm/reducer.py:52-53 | at uniform hours h the cost is h times the sum of the rates |
| Reducer.Emptied | src/algorithm/reducer.py:105-107 | an emptied entry holds nobody and keeps its `unschedulable` flag; an entry already empty is unchanged |
| Reducer.CheckMinimums | src/algorithm/reducer.py:77-81 | yes exactly when every listed TA keeps its minimum after losing the duration; no only after meeting a known TA who would drop below; an IndexError or KeyError only for a TA whose record or hours are missing |
| Reducer.CanRemove | src/algorithm/reducer.py:70-81 | yes exactly when the shift and its entry exist and no TA on it would drop below its `min_hours` |
| Reducer.AdjustHours | src/algorithm/reducer.py:92-104 | KeyError exactly when a listed TA has no hours; otherwise the same keys |
| Reducer.AdjustHoursEffect | src/algorithm/reducer.py:92-104 | each TA's hours move by the delta once per time the TA is listed |
| Reducer.AdjustRestores | src/algorithm/reducer.py:92-96 | subtracting the duration and adding it back restores the hours exactly, as `removal_score` relies on |
| Reducer.Square | src/algorithm/reducer.py:59 | a square is not negative and is zero exactly at zero |
| Reducer.Variance | src/algorithm/reducer.py:55-60 | the spread is never negative |
| Reducer.SpreadZeroIffEven | src/algorithm/reducer.py:55-60 | the spread is zero exactly when every TA has the mean number of hours |
| Reducer.HoursOf | src/algorithm/reducer.py:57 | the hours list succeeds exactly when every metadata TA has hours, and lists them in metadata order |
| Reducer.HoursSpread | src/algorithm/reducer.py:55-60 | succeeds exactly when there is a TA and every TA has hours, and then is the non-negative variance of the hours |
| Reducer.RemoveShift | src/algorithm/reducer.py:100-107 | succeeds exactly when the shift, its entry and every listed TA's hours exist; empties only that entry, keeps every key |
| Reducer.RemoveShiftHours | src/algorithm/reducer.py:100-104 | each TA loses the shift's duration once per listing on it, and nobody else's hours move |
| Reducer.RemovalScore | src/algorithm/reducer.py:83-98 | the score is the spread of the hours after the simulated removal, and the hours are handed back unchanged |
| Reducer.Removable | src/algorithm/reducer.py:121-126 | succeeds exactly when each candidate's test can be evaluated, and lists exactly the staffed, schedulable shifts that `can_remove` allows |
| Reducer.FirstLeast | src/algorithm/reducer.py:134-139 | the chosen position has the least key, lexicographic on (priority, spread), and is the first such: Python's stable sort puts it at `removable[0]` |
| Reducer.FirstLeastUnique | src/algorithm/reducer.py:134-139 | the first position of least key is unique |
| Reducer.SortKey | src/algorithm/reducer.py:134-137 | the key is (priority, removal score); a failed priority is raised before the score is computed |
| Reducer.Choose | src/algorithm/reducer.py:134-139 | succeeds exactly when every candidate's key can be computed, and returns the first candidate of least key |
| Reducer.ChooseFirstError | src/algorithm/reducer.py:134-137 | when the first candidate's key fails, that error is what the sort raises |
| Reducer.RemoveNext | src/algorithm/reducer.py:119-142 | nothing to remove exactly when no shift is removable; otherwise a removable shift of the schedule, removed |
| Reducer.RemoveNextChoice | src/algorithm/reducer.py:132-139 | no removable shift has a key below the chosen one's |
| Reducer.ReduceLoop | src/algorithm/reducer.py:116-147 | the loop keeps every key, removes at most 101 shifts, and each shift it removes was staffed and schedulable, is removed once and is emptied, every other entry left as it was |
| Reducer.ReduceLoopStops | src/algorithm/reducer.py:117-147 | the loop ends within budget, or over budget with nothing removable, or after the 101st removal |
| Reducer.ReduceLoopFirstRemoval | src/algorithm/reducer.py:117-142 | a removal happens only over budget, and the first shift removed is the one chosen from the starting state |
| Reducer.LoopStopsAtOnce | src/algorithm/reducer.py:117-130 | within budget, or over it with nothing to choose, the loop removes nothing |
| Reducer.RemoveShiftKeepsMinimums | src/algorithm/reducer.py:70-104 | a removal that `can_remove` allows leaves every TA either untouched or at or above its `min_hours` |
| Reducer.ReduceLoopKeepsMinimums | src/algorithm/reducer.py:116-147 | with no TA listed twice on a shift, every TA's final hours are unchanged or at or above its lowered minimum |
| Reducer.UnboundPriority | src/algorithm/reducer.py:135 | the unbound name `shift_priority` raises NameError whatever the shift |
| Reducer.ReduceWith | src/algorithm/reducer.py:35-150 | the reducer lowers the floor, then runs the loop from the given schedule and hours; keys are kept |
| Reducer.ReduceScheduleAsWritten | src/algorithm/reducer.py:35-150 | `reduce_schedule` as written, with `shift_priority` unbound: keys are kept |
| Reducer.UnboundLoopRemovesNothing | src/algorithm/reducer.py:117-137 | with the name unbound, the loop removes nothing, and raises NameError when over budget with a removable shift |
| Reducer.AsWrittenNeverReduces | src/algorithm/reducer.py:114-137 | as written, the reducer returns the schedule and hours unchanged or raises NameError, and raises it whenever a reduction is needed and possible |
| Reducer.ReduceSchedule | src/algorithm/reducer.py:35-150 | the reducer with `shift_priority` taken from the helper constraints: keys are kept |
| Reducer.ReduceScheduleRemovesLeastImportant | src/algorithm/reducer.py:114-142 | the first shift removed was over budget, removable, of least priority among the removable shifts, and of least spread among those of that priority (see also the budget at lines 39-41) |
| Reducer.ReduceScheduleRemovesWhenItCan | src/algorithm/reducer.py:114-142 | when the lowered floor leaves the cost over budget and a shift is removable with computable keys, the corrected reducer removes one |
| Parsers.DayOfKey | src/algorithm/data/parsers.py:8-16 | a key maps to a day only when it is that day's name |
| Parsers.DayMapsInverse | src/algorithm/data/parsers.py:8-76 | the two day maps are inverse, and only the seven lower-case day names are keys |
| Parsers.DayIndex | src/algorithm/data/parsers.py:84-92 | each day has one of seven output slots |
| Parsers.ParseTime | src/algorithm/data/parsers.py:18-21 | a parsed time is a valid clock time; text without a colon, or out of range, raises ValueError |
| Parsers.Strftime | src/algorithm/data/parsers.py:107-108 | `strftime("%H:%M")`: five characters with a colon in the middle |
| Parsers.ParseTimeOfStrftime | src/algorithm/data/parsers.py:18-108 | parsing a formatted time gives the time back |
| Parsers.StrftimeOfParseTime | src/algorithm/data/parsers.py:18-108 | formatting a parsed canonical "HH:MM" gives the text back |
| Parsers.UnpaddedHourWidens | src/algorithm/data/parsers.py:18-108 | an unpadded hour such as "9:30" parses, and comes back one character longer as "09:30" |
| Parsers.ParseStaffingPair | src/algorithm/data/parsers.py:29-37 | lab permission 0, 1 or 2 is accepted, anything else raises ValueError; the head count is the count, doubled for a lead lab, and office-hours staff appear only with permission 0 |
| Parsers.DecodeStaffing | src/algorithm/data/parsers.py:23-37 | a decoded capacity is a two-element list whose permission and count give that staffing |
| Parsers.SerializeStaffing | src/algorithm/data/parsers.py:117-128 | permission 2 exactly when there are leads, 1 when lab TAs but no leads, else 0; the count is of the first non-empty role in that order |
| Parsers.StaffingRoundTrip | src/algorithm/data/parsers.py:23-128 | serializing a parsed `[p, n]` with p in 0..2 and n at least 1 gives `[p, n]` back |
| Parsers.StaffingRoundTripBack | src/algorithm/data/parsers.py:23-128 | parsing a serialized staffing of the shape the parser produces gives it back |
| Parsers.ZeroCountCollapses | src/algorithm/data/parsers.py:23-128 | a lab capacity with count 0 comes back as `[0, 0]`: the round trip loses the lab permission |
| Parsers.ParseShift | src/algorithm/data/parsers.py:51-60 | a parsed shift keeps the stored id and `is_lab` truthiness, is named by the capitalised day and the start text, and has valid times |
| Parsers.ParseDayList | src/algorithm/data/parsers.py:51-60 | a day's list parses exactly when each shift does, one shift each, in order |
| Parsers.ParseEntry | src/algorithm/data/parsers.py:45-60 | keys other than day names and falsy values give nothing; a day list gives one shift per element |
| Parsers.ParseShifts | src/algorithm/data/parsers.py:39-62 | the flattened list has one shift per element of the day lists, all with valid times |
| Parsers.NonDayKeysSkipped | src/algorithm/data/parsers.py:46-47 | an entry whose key is not a day name, such as `_id`, changes nothing |
| Parsers.SerializeShift | src/algorithm/data/parsers.py:99-113 | `is_empty` exactly when nobody is on the shift, and `tas_scheduled` lists leads, lab TAs and office-hours TAs in that order |
| Parsers.ShiftRoundTrip | src/algorithm/data/parsers.py:51-113 | a stored shift of canonical shape, parsed and serialized, keeps its id, times, lab flag and capacity |
| Parsers.DecodeStoredStaffing | src/algorithm/data/parsers.py:23-37 | a stored integral capacity with permission 0..2 and count at least 1 decodes |
| Parsers.SchemaCapacityRoundTrip | src/algorithm/data/parsers.py:23-128 | every capacity the schedule schema accepts decodes, and serializes back to the same pair |
| Parsers.ParseShiftOfParts | src/algorithm/data/parsers.py:51-60 | with every field present and decodable, the parsed shift is built from exactly those fields |
| Parsers.SerializeSchedule | src/algorithm/data/parsers.py:78-115 | KeyError exactly when some shift has no schedule entry; the output has the seven day lists |
| Parsers.ShiftsOn | src/algorithm/data/parsers.py:94-97 | the shifts of one day, drawn from the list |
| Parsers.SerializeEach | src/algorithm/data/parsers.py:94-113 | one output shift per input shift, each serialized with its own assignment |
| Parsers.SerializeGroupsByDay | src/algorithm/data/parsers.py:84-115 | each day's output list is that day's shifts, in metadata order, serialized |

## Left out

- I/O plumbing is not modelled, because it is network, database or process work rather than logic:
  - `runAlgorithm` and `importDataToAlg` (backend/src/routes/schedule.js:233-370);
  - `apiCall`;
  - the MongoDB client and database connection;
  - the Express app;
  - the Python entry scripts and the seed script.
  - The database collections are sequences of documents, and `findOne` is the first match.
- src/algorithm/simulated_annealing.py is not modelled, because it is random search with `math.exp` acceptance and promises nothing beyond its score.
- UI rendering, focus and blur, routing, the viewer pages with their stubbed API and the login pages are not modelled. Controlled props are modelled as the parent passing every `onChange` value straight back.
- The lookup cache of src/algorithm/helpers/data_access.py:7-20 is not modelled, because it is never rebuilt after its first use. Lookups are pure map reads over the context.
- AlgContext.GetPref: the preference matrix is a map from TA id to a map from shift id to level, as `get_pref`'s `.get` chain requires. The list-of-lists matrices of src/algorithm/dummy_data_big.py:157 and src/algorithm/dummy_data/dummy_data_small.py:46 are not modelled. On those fixtures, the one src/algorithm/main.py runs among them, `get_pref` raises AttributeError.
- AlgContext.DurationHours, Scoring.CalculateCost, Reducer.BlendedRate, HelpersScoring.CandidateScore, ConstraintHelpers.ApplyFairness and Constraints.ApplyFairnessFloor compute in exact reals. Python float rounding, infinities and NaN are not modelled, so equalities such as `Reducer.FloorAffordable` hold exactly in the model and only up to rounding in Python.
- Reducer.HoursSpread is the variance of the hours, not `hours_std_dev`'s square root of it. The square root is monotone, so the candidates are ranked the same way.
- TaSchemas.TaSchema, TaSchemas.JoiIntegerIn and ScheduleSchemas.StaffCapacity model Joi without its default `convert` option. Joi would coerce a numeric string such as `"2"` to a number before checking it; the model rejects it. The same holds for every member stated in terms of these predicates (TaSchemas.EntrySchemaIff, TaSchemas.TaDefaultsKeepValid, ScheduleSchemas.ShiftDefaultsKeepValid, ScheduleRoutes.ShiftBodyValidIff, Parsers.SchemaCapacityRoundTrip).
- Greedy.GreedyAssignSound: the `error` text "Could only fill k/n role slots" stored beside `unschedulable` (src/algorithm/greedy.py:59-61) is not modelled. Only the flag is.
- ScheduleRoutes.InitSchedule takes the shift count as an integer, as returned by the undefined `countShifts`. A NaN or fractional count is not modelled. For such a count JavaScript's `i < num_of_shifts` loop would run zero times or round up.
- ScheduleRoutes.DayShifts builds each stored shift as the created body with `tas_scheduled = []`. The `_id` that the database adds to the inserted shift, which `/shift/create` returns to the route, is not modelled.
- Parsers.DecodeStaffing answers a capacity whose count is not an integer (such as `[0, 1.5]`) with an error, `NonIntegerCount`, that parsers.py:29-35 does not raise. Python would carry the float count into the staffing tuple. The model keeps staffing counts integral. Stored capacities pass the schedule schema, which requires an integer count (`Parsers.SchemaCapacityRoundTrip`).
- Constraints.EligibleListed states only that the scan succeeds and lists distinct TA ids in range. Which TAs it lists is stated by `Constraints.EligibleExactly`.
- Parsers.ParseTime reads the hour and minute with Python's `int` restricted to ASCII digits. The non-ASCII decimal digits `int` accepts are not modelled.
- ScheduleConfig.ParseIntValue covers hour values that are strings, integral numbers below 10^21 in magnitude, booleans, null or objects. An array, or a number with a fractional part, is not modelled; `parseInt` would read its decimal text. Neither is a number of 10^21 or more in magnitude, whose text is in exponent form (`"1e+21"`) and reads as its leading digit.
- ScheduleConfig.SlotMinutes covers a slot length that is missing, falsy or a positive integer. Other values would make `generateTimeSlots` loop forever or step by fractions.
- ScheduleRoutes.Update assumes a MongoDB server of version 5.0 or later, where an empty `$set` is accepted. It does not model the positional path components `$`, `$[]` and `$[<id>]`: like any other `$`-prefixed component they make the write fail. A component under an array that is not a plain decimal index, such as `01`, makes the write fail. The server's limits on padding an array and on document size are not modelled. A key `_id` is refused even when it sets the value the document already has, which the server allows.
- Mongo.WriteAll applies the fields one at a time in an order the model leaves open, while the server applies them in name order. For a field list that passes `ValidPaths` no path is a prefix of another, so the order should not change the result, but the model does not prove that; its lemmas hold for every order.
- TaRoutes.FindTa evaluates nine query operators (`$eq`, `$ne`, `$gt`, `$gte`, `$lt`, `$lte`, `$in`, `$nin`, `$exists`). Any other operator is treated as a refused query, although the server would evaluate valid ones such as `$regex`, `$not` or `$type`. An object that mixes operator and plain keys is treated as refused; the server reads it as an equality with an embedded document, matching nothing, when its first key is plain. Regular expressions inside `$in` are not modelled.
- ScheduleRoutes.Entry: `insertOne` adds an `_id` to the inserted object, so the stored document and the 200 response of `initSchedule` also carry an `_id`. The model leaves it out. The same holds for ScheduleRoutes.InitSchedule and for the document TaRoutes.CreateTa appends.
- The browser storage write of the TA profile (frontend/src/pages/ta/ScheduleBuilder.jsx:79) is not modelled, because it is I/O whose failure the page ignores. The session store update beside it is modelled.
- Console logging in the routes and the `print` calls of the engine (such as src/algorithm/reducer.py:129, 146 and 149) are not modelled, because they write text and change no result.
- The copy of `scheduleReducer` under src/frontend differs only in its initial slot length and is covered by the same model. The src/frontend copy of the emoji input is not modelled separately.

## Findings

| source | as written | input that shows it | evidently intended | confidence | as-written member | corrected member |
|---|---|---|---|---|---|---|
| backend/src/routes/schedule.js:11 | imports `countShifts` and `getShiftTimes`, which backend/src/utils/general.js does not export, and calls `countShifts` at line 100 outside the `try` | any request to `POST /initSchedule` | the route builds the seven-day skeleton from the two helpers and stores it | not executed | ScheduleRoutes.InitScheduleAsWrittenNeverSucceeds | ScheduleRoutes.InitSchedule |
| src/algorithm/reducer.py:135 | sorts removable shifts by `shift_priority`, a name neither `data_access` nor `scoring` defines, so it raises NameError | any call over budget with one staffed, schedulable shift that `can_remove` allows | candidates ranked by the shift priority of src/algorithm/helpers/constraints.py:195, least important first | not executed | Reducer.AsWrittenNeverReduces | Reducer.ReduceScheduleRemovesLeastImportant |
| src/algorithm/constraints.py:91 | computes available hours with `get_pref(ctx, i, j)`, passing 0-based list positions where TA and shift ids are expected | one TA with id 1 who prefers shift 1, ten hours long: as written the TA's available hours are 0 and the floor stays 0 | availability read by id, raising the floor to 9 | not executed | Constraints.FairnessFloorReadsPositions | Constraints.ApplyFairnessFloor |
| frontend/src/components/shared/EmojiCodeInput.jsx:130 | a slot's click also bubbles to the container's click (line 110), which moves the cursor to the end of the code | three emoji entered, click on the first slot's border: the cursor lands on the fourth slot. A click inside a filled slot hits its remove button, and on an empty slot the clamp gives the same cursor either way, so only the border of a filled slot shows it | the cursor moves to the clicked slot | not executed | EmojiCodeInput.SlotClickAsWrittenIgnoresSlot | EmojiCodeInput.SlotClickFocusesSlot |
