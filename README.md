# Referee administration dashboard — a Dafny model of its list logic

The dashboard keeps four in-memory collections: referees, attendance records,
championships and match assignments. Five screens work on them. This project
models the parts of those screens that compute something:

- **The application store** (`app/page.tsx`, module `Store`). It is a class with
  four sequence fields. For every collection it has add, update-by-id and
  delete-by-id handlers. Attendance is saved by an upsert keyed on
  (referee, day). Deletes cascade: a deleted referee takes its attendance and
  assignments with it, and a deleted championship takes its assignments.
- **The attendance sheet** (`components/attendance-tracker.tsx`, module
  `AttendanceTracker`). It is a class holding the chosen day and a
  present/absent map. It rebuilds the map for a day, ticks one box, and emits
  one record per box on save.
- **The assignment manager** (`components/assignment-manager.tsx`, modules
  `AssignmentChecks` and `AssignmentManager`). This covers:
  - the conflict checker, which reports a referee repeated within one match and a referee booked in another match at the same day and time;
  - the 30-day attendance eligibility filter;
  - the assignment search;
  - the four slot operations;
  - the gating of the add and edit submits.

  Referee slots are heap objects (`Slot`). The source updates them in place,
  and shallow copies share them.
- **The two search screens** (`components/referee-list.tsx` and
  `components/championship-manager.tsx`, modules `RefereeList` and
  `ChampionshipManager`). Each has a case-insensitive substring filter and the
  records its submit handlers build.

Two shared modules hold the list and text operations. `Lists` has the
order-preserving `Filter` and the id-matching `Replace`. `Text` has the
lower-casing and `includes`.

Dates are integer day numbers. A `yyyy-MM-dd` string determines its day and
the reverse, so comparing strings or `isSameDay` becomes equality of days. The
eligibility window compares millisecond instants: a record dated on day `d`
stands at `d * 86400000`. Match times are opaque strings compared for
equality. Fresh ids (uuid) and "today" are parameters.

Each file is modelled against its own declared types, because they disagree:

- `app/page.tsx` gives an assignment a single `refereeId` (app/page.tsx:35-41), but the assignment manager gives it a list of slots (components/assignment-manager.tsx:85-94).
- `app/page.tsx` calls the attendance flag `isPresent` (app/page.tsx:25), but the tracker and the manager read `present`.

So the referee-delete cascade over assignments (app/page.tsx:104) compares a
field that slot-style assignments do not have. In the running application it
removes no assignment.

The attendance sheet's save calls the store's attendance handler once per
referee. Each call reads the same stale `attendance` value, so in the running
application only the last record survives. `Store.StaleSave` models this as
written and the third "## Findings" row records it; the rest of the model uses
the intended sequential upsert (`Store.UpsertAll`, `Store.UpsertAllStoresSheet`).

The add-assignment handler checks the form's date but stores the date picked
in the separate `matchDate` state. The model reproduces this as written
(`AssignmentManager.Manager.AddSubmit`).

`DEFAULT_ASSIGNMENT` is built once, when the module loads. Every mount of the
assignment manager copies it shallowly, so its slot objects and its day are
constructor parameters of `AssignmentManager.Manager`. A later mount shares the
slots of an earlier one.

## Model

| member | source | states |
|---|---|---|
| Lists.Filter | app/page.tsx:100-104 | the result is an order-preserving sub-list of the input; an element is in it exactly when it is in the input and passes the predicate; a passing element occurs as often as in the input |
| Lists.FilterIdempotent | components/referee-list.tsx:95-100 | filtering a filtered list again with the same predicate changes nothing |
| Lists.FilterKeepsAll | components/referee-list.tsx:95-100 | when every element passes, the filter returns the list unchanged |
| Lists.FilterNarrower | components/referee-list.tsx:96-99 | when passing the second predicate implies passing the first, the second filter is a sub-list of the first and equals filtering the first's result |
| Lists.FilterAgrees | components/assignment-manager.tsx:212-226 | predicates that agree on every element filter the list alike |
| Lists.SublistMembers | app/page.tsx:100-104 | every element of an order-preserving sub-list is an element of the list |
| Lists.Replace | app/page.tsx:91 | same length; every matching position holds the update; every other position is unchanged |
| Lists.ReplaceNoMatch | app/page.tsx:91 | replacing with no match leaves the list as it was |
| Text.Lower | components/referee-list.tsx:97 | `toLowerCase` keeps the length and lower-cases each character |
| Text.LowerChar | components/referee-list.tsx:97 | `toLowerCase` on one character: the ASCII and Latin-1 capitals move to their small letters, every other character stays |
| Text.Contains | components/referee-list.tsx:97 | `includes`: the needle occurs as a contiguous piece of the haystack at some position |
| Text.ContainsEmpty | components/referee-list.tsx:95-100 | every string includes the empty string |
| Text.ContainsTransitive | components/referee-list.tsx:96-99 | a piece of a piece of a string is a piece of that string |
| Text.LowerContains | components/referee-list.tsx:96-99 | lower-casing preserves `includes` |
| RefereeList.RefereeMatches | components/referee-list.tsx:96-99 | the filter callback: the lower-cased term occurs in the lower-cased name, email or category |
| RefereeList.FilteredReferees | components/referee-list.tsx:95-100 | order-preserving sub-list; a referee is kept exactly when the lower-cased term occurs in its lower-cased name, email or category |
| RefereeList.EmptySearchKeepsAll | components/referee-list.tsx:95-100 | an empty search term shows every referee, in order |
| RefereeList.FilterRefereesIdempotent | components/referee-list.tsx:95-100 | re-filtering the shown list with the same term returns it unchanged |
| RefereeList.LongerTermNarrows | components/referee-list.tsx:96-99 | if term t occurs in term t', the referees shown for t' are a sub-list of those shown for t |
| RefereeList.BlankForm | components/referee-list.tsx:53-60 | the blank form has empty strings, category "Nacional" and active set |
| RefereeList.AddSubmit | components/referee-list.tsx:64-79 | the forwarded referee is the form with the fresh id, and the form goes back to blank |
| ChampionshipManager.ChampionshipMatches | components/championship-manager.tsx:118-121 | the filter callback: the lower-cased term occurs in the lower-cased name, location or description |
| ChampionshipManager.FilteredChampionships | components/championship-manager.tsx:117-122 | order-preserving sub-list; a championship is kept exactly when the lower-cased term occurs in its lower-cased name, location or description |
| ChampionshipManager.EmptySearchKeepsAll | components/championship-manager.tsx:117-122 | an empty term shows every championship |
| ChampionshipManager.FilterChampionshipsIdempotent | components/championship-manager.tsx:117-122 | re-filtering with the same term changes nothing |
| ChampionshipManager.AddSubmit | components/championship-manager.tsx:76-83 | the new championship has the fresh id and the pickers' dates; its other fields are the form's |
| ChampionshipManager.ReversedRangeAccepted | components/championship-manager.tsx:76-108 | with an end pick before the start pick, the add submit builds a championship that ends before it starts, and an open edit emits one |
| ChampionshipManager.EditSubmit | components/championship-manager.tsx:97-108 | nothing is emitted exactly when no championship is being edited; otherwise the edited championship keeps its id and takes only the pickers' dates |
| Store.SameKey | app/page.tsx:114 | two records are about the same referee on the same day |
| Store.FindIndex | app/page.tsx:114 | the index of the first record with the same referee and day, or -1 when there is none |
| Store.Upsert | app/page.tsx:112-124 | the record is in the result and nothing else is new; the length grows by one exactly when no record has its key; the first record with its key is the one replaced and every other position, including later records with the same key, keeps its record; with no such record it is appended at the end |
| Store.UpsertKeepsKeysUnique | app/page.tsx:114-124 | at most one record per (referee, day) before the upsert implies the same after it |
| Store.UpsertStoresRecord | app/page.tsx:114-124 | after the upsert, looking up the saved key finds the saved record |
| Store.UpsertAll | app/page.tsx:112-124 | the upserts of a sheet applied one after the other: the log never shrinks, grows by at most one per record, and holds only records of the log or of the sheet |
| Store.UpsertAllStoresSheet | components/attendance-tracker.tsx:64-75 | saving a sheet with one record per referee keeps the log unique and stores every record of the sheet |
| Store.StaleSave | app/page.tsx:112-124 | the sheet's saves as run: the log grows by at most one; it holds the sheet's last record and otherwise only records of the old log |
| Store.StaleSaveLosesEarlierRecords | components/attendance-tracker.tsx:64-75 | with the stale read, every record of the sheet before the last whose key the log did not hold is absent after the save |
| Store.TwoRefereeSheetLosesOne | components/attendance-tracker.tsx:64-75 | two referees saved on one day into an empty log: the stale save keeps only the second record, the sequential save keeps the first too |
| Store.SublistKeepsKeysUnique | app/page.tsx:103 | filtering a unique log leaves it unique |
| Store.Store.constructor | app/page.tsx:45-48 | the four collections start empty |
| Store.Store.AddReferee | app/page.tsx:82-83 | the referee is appended; there is no uniqueness check |
| Store.Store.UpdateReferee | app/page.tsx:90-91 | every referee with the id is replaced, keeping length and order |
| Store.Store.DeleteReferee | app/page.tsx:98-104 | removes the referee, its attendance records and the assignments naming it, keeping survivors in order; nothing remaining refers to the id; a unique log stays unique |
| Store.Store.AddAttendance | app/page.tsx:112-124 | the log becomes the upsert of the record, and stays unique |
| Store.Store.AddChampionship | app/page.tsx:132-133 | the championship is appended |
| Store.Store.UpdateChampionship | app/page.tsx:140-141 | every championship with the id is replaced, keeping length and order |
| Store.Store.DeleteChampionship | app/page.tsx:148-153 | removes the championship and its assignments; referees and attendance untouched; nothing remaining refers to the id |
| Store.Store.AddAssignment | app/page.tsx:161-162 | the assignment is appended |
| Store.Store.UpdateAssignment | app/page.tsx:169-170 | every assignment with the id is replaced, keeping length and order |
| Store.Store.DeleteAssignment | app/page.tsx:177-178 | exactly the assignments with the id are removed |
| Store.DeleteRefereeCascade | app/page.tsx:103-104 | a record or assignment survives exactly when it belongs to another referee; the log keeps its length exactly when the referee had no record |
| Store.FilterCountsDrops | app/page.tsx:103 | a filter keeps the full length exactly when it drops nothing |
| Store.UpdateUnknownIdChangesNothing | app/page.tsx:90-91 | updating with an id nobody has leaves the referees as they were |
| AttendanceTracker.StoredStatus | components/attendance-tracker.tsx:48-51 | the `present` flag of the first record for that referee and day, or false when there is none |
| AttendanceTracker.Displayed | components/attendance-tracker.tsx:122 | a box shows ticked exactly when the map holds true for the referee (`status[id] \|\| false`) |
| AttendanceTracker.Toggled | components/attendance-tracker.tsx:57-62 | only the given key changes: its shown value flips, and a missing key becomes true |
| AttendanceTracker.ToggleTwiceRestoresDisplay | components/attendance-tracker.tsx:57-62 | ticking the same box twice shows what it showed before, and no other box changes |
| AttendanceTracker.Tracker.constructor | components/attendance-tracker.tsx:35-36 | the sheet starts on today with an empty map |
| AttendanceTracker.Tracker.HandleDateChange | components/attendance-tracker.tsx:39-55 | no date changes nothing; otherwise the map has one key per referee, holding the stored flag for that day |
| AttendanceTracker.Tracker.ToggleAttendance | components/attendance-tracker.tsx:57-62 | the map becomes the toggled map |
| AttendanceTracker.Tracker.SaveAttendance | components/attendance-tracker.tsx:64-75 | one record per map entry, with that entry's flag, the chosen day and a fresh id; an empty map emits nothing |
| AssignmentChecks.StaticReferees | components/assignment-manager.tsx:107-112 | three built-in referees with distinct non-empty ids and non-empty names |
| AssignmentChecks.FindReferee | components/assignment-manager.tsx:174 | `find`: the first referee with the id, and none exactly when no referee has it |
| AssignmentChecks.FindChampionship | components/assignment-manager.tsx:189 | `find`: the first championship with the id, and none exactly when no championship has it |
| AssignmentChecks.RefereeLabel | components/assignment-manager.tsx:174-175 | `referee?.name \|\| id`: the id for an unknown referee; any other text is the name of a referee with that id; when a referee has the id, the text is the first such referee's name, or the id when that name is empty |
| AssignmentChecks.ChampionshipLabel | components/assignment-manager.tsx:189-192 | `champ?.name \|\| 'Sin nombre'`: "Sin nombre" for an unknown championship; any other text is the name of a championship with that id; when a championship has the id, the text is the first such championship's name, or "Sin nombre" when that name is empty |
| AssignmentChecks.FilledIds | components/assignment-manager.tsx:164 | the filled slot ids are exactly the non-empty ones |
| AssignmentChecks.FilledCount | components/assignment-manager.tsx:164 | dropping empty slots does not change how often a non-empty id occurs |
| AssignmentChecks.Distinct | components/assignment-manager.tsx:167-170 | the keys of the count map: the same ids, without repetition |
| AssignmentChecks.DistinctKeepsFirstOccurrenceOrder | components/assignment-manager.tsx:167-172 | the `Map`'s keys come in first-occurrence order: an earlier key occurs before every occurrence of a later key |
| AssignmentChecks.DuplicateReports | components/assignment-manager.tsx:172-177 | every message is a duplicate report for an id counted more than once; every such id is reported; distinct keys give one report per id |
| AssignmentChecks.DuplicateReportsFollowKeys | components/assignment-manager.tsx:172-177 | the reports come in key order: of two reports, the earlier names a key that stands before the later one's key (with `DistinctKeepsFirstOccurrenceOrder`, the order in which the ids are first picked) |
| AssignmentChecks.SlotClashes | components/assignment-manager.tsx:185-194 | one clash message per filled slot whose referee is among the other match's slots |
| AssignmentChecks.Skipped | components/assignment-manager.tsx:181 | in edit mode the stored assignment with the edited id is passed over |
| AssignmentChecks.SameSlotTime | components/assignment-manager.tsx:184 | the stored assignment is on the same day and at the same time |
| AssignmentChecks.ClashWith | components/assignment-manager.tsx:188-193 | the warning carries the referee id, its label, the match day and time and the other championship's label |
| AssignmentChecks.Clashes | components/assignment-manager.tsx:180-196 | every message is a clash with a match that is not skipped, on the same day and time, naming a referee booked in both; there are none exactly when no such match shares a referee |
| AssignmentChecks.Conflicts | components/assignment-manager.tsx:160-200 | every message names a non-empty referee from the current slots |
| AssignmentChecks.CountReferees | components/assignment-manager.tsx:167-170 | the count map holds each filled id with its number of occurrences, keyed in first-occurrence order |
| AssignmentChecks.ReportDuplicates | components/assignment-manager.tsx:172-177 | the messages pushed by the duplicate loop are the duplicate reports |
| AssignmentChecks.ReportSlotClashes | components/assignment-manager.tsx:185-194 | the messages pushed for one other match are its slot clashes |
| AssignmentChecks.ReportClashes | components/assignment-manager.tsx:180-196 | the messages pushed by the clash loop are the clashes |
| AssignmentChecks.CheckDuplicateReferees | components/assignment-manager.tsx:160-200 | the checker returns exactly the conflicts: duplicates first, then clashes |
| AssignmentChecks.DuplicateReportedIff | components/assignment-manager.tsx:167-177 | an id is reported as a duplicate exactly when it is non-empty and fills more than one slot |
| AssignmentChecks.OneDuplicateReportPerReferee | components/assignment-manager.tsx:172-177 | no referee gets two duplicate reports |
| AssignmentChecks.ConflictsEmptyIff | components/assignment-manager.tsx:199 | the checker returns nothing exactly when no filled referee repeats and there is no clash |
| AssignmentChecks.EditNeverClashesWithItself | components/assignment-manager.tsx:181 | in edit mode, re-saving an unchanged assignment without repeated referees gives no message |
| AssignmentChecks.AddClashesWithStoredCopy | components/assignment-manager.tsx:181 | in add mode nothing is skipped, so an identical stored assignment with a filled slot clashes |
| AssignmentChecks.FilledPair | components/assignment-manager.tsx:164 | two slots holding one non-empty id are both kept as filled |
| AssignmentChecks.PairClashes | components/assignment-manager.tsx:185-194 | two slots holding an id the other match holds give two identical clash messages |
| AssignmentChecks.TwoSlotsOneDuplicate | components/assignment-manager.tsx:167-177 | one referee in two slots gives exactly one duplicate report |
| AssignmentChecks.TwoSlotsClashTwice | components/assignment-manager.tsx:185-194 | one referee in two slots, booked elsewhere at the same time, clashes twice |
| AssignmentChecks.RepeatedRefereeClashesTwice | components/assignment-manager.tsx:180-196 | the checker then returns one duplicate report followed by two identical clash messages |
| AssignmentChecks.InWindow | components/assignment-manager.tsx:213-214 | `recordDate >= thirtyDaysAgo && recordDate <= today` on millisecond instants, both ends included |
| AssignmentChecks.WindowInDays | components/assignment-manager.tsx:213-214 | a record is in the window exactly when its day is one of the 30 days ending today, or is the day 30 days back and the current instant is exactly midnight |
| AssignmentChecks.TallyOf | components/assignment-manager.tsx:212-220 | present count at most total count, at most the number of records |
| AssignmentChecks.IsEligible | components/assignment-manager.tsx:223-226 | `stats.total === 0 \|\| stats.present / stats.total >= 0.7`, as 10·present ≥ 7·total |
| AssignmentChecks.EligibleReferees | components/assignment-manager.tsx:223-226 | order-preserving sub-list of the referees; a referee is kept exactly when it has no record in the window or at least 70% of them present |
| AssignmentChecks.ZeroStats | components/assignment-manager.tsx:207-210 | every referee id gets a zero tally, and only zero tallies are stored |
| AssignmentChecks.CountWindow | components/assignment-manager.tsx:212-221 | each referee's tally counts exactly its records in the window, and their present ones |
| AssignmentChecks.CollectEligibleReferees | components/assignment-manager.tsx:203-227 | the loops compute the eligible referees |
| AssignmentChecks.NoRecordsMeansEligible | components/assignment-manager.tsx:225 | a referee with no record in the window is eligible |
| AssignmentChecks.IrrelevantRecordIgnored | components/assignment-manager.tsx:215-216 | a record for an unknown referee, or outside the window, does not change the result |
| AssignmentChecks.PresentRecordKeepsEligible | components/assignment-manager.tsx:218-225 | adding a present record never makes an eligible referee ineligible |
| AssignmentChecks.ThreeOfFiveIsIneligible | components/assignment-manager.tsx:212-226 | a referee with five records in the window, three of them present (60%), is not offered |
| AssignmentManager.SlotIds | components/assignment-manager.tsx:164 | the ids of the slots, in order |
| AssignmentManager.BookingOf | components/assignment-manager.tsx:160-164 | the snapshot the checker reads: id, championship, day, time and slot ids of the assignment |
| AssignmentManager.RemoveAt | components/assignment-manager.tsx:320-325 | `filter((_, i) => i !== index)`: the element at an in-range index is removed and the others keep their order; an index out of range, negative ones included, changes nothing |
| AssignmentManager.Chosen | components/assignment-manager.tsx:333 | the select's "NONE" becomes the empty id; every other id is kept |
| AssignmentManager.SlotNamed | components/assignment-manager.tsx:283-286 | a slot matches when the first referee with its id has a lower-cased name containing the term; an unknown id matches nothing |
| AssignmentManager.AssignmentMatches | components/assignment-manager.tsx:280-292 | `matchesSearch && matchesChampionship` for one assignment |
| AssignmentManager.FilteredAssignments | components/assignment-manager.tsx:277-294 | order-preserving sub-list; an assignment is kept exactly when the term occurs in its match name, location or a slot's referee name, and the selection is "all" or its championship; a kept assignment occurs as often as in the input |
| AssignmentManager.ShowAllKeepsEverything | components/assignment-manager.tsx:277-294 | an empty term with "all" selected shows every assignment |
| AssignmentManager.NewDefaultSlots | components/assignment-manager.tsx:121-125 | three new, distinct, empty slots with the three default roles |
| AssignmentManager.Manager.Referees | components/assignment-manager.tsx:148 | the built-in referees followed by the store's, in order |
| AssignmentManager.Manager.constructor | components/assignment-manager.tsx:153-157 | a mount: the add form is the copy of `DEFAULT_ASSIGNMENT`, on its module-level slots and day, whatever earlier mounts wrote into them; nothing is being edited; the picked day is today |
| AssignmentManager.Manager.Default | components/assignment-manager.tsx:114-127 | the default assignment: empty texts, the module-load day, "15:00" and the default slots |
| AssignmentManager.Manager.AddRefereeSlot | components/assignment-manager.tsx:301-314 | a new empty "Cuarto Árbitro" slot is appended to the form being edited; the other slots and the other form are unchanged |
| AssignmentManager.Manager.RemoveRefereeSlot | components/assignment-manager.tsx:316-328 | only the slot at the index is removed from the chosen form; the other form is unchanged |
| AssignmentManager.Manager.ChangeRole | components/assignment-manager.tsx:358-368 | only that slot's role changes; its referee stays |
| AssignmentManager.Manager.ChangeReferee | components/assignment-manager.tsx:330-356 | as written: the slot takes the chosen id first and keeps its role, and the messages are those of the form with the change already made |
| AssignmentManager.Manager.PutSlot | components/assignment-manager.tsx:342-354 | the target form gets the slot at the index and is otherwise unchanged; the other form is untouched |
| AssignmentManager.Manager.ChangeRefereeChecked | components/assignment-manager.tsx:330-356 | corrected: the change is checked on a tentative copy; a rejected change leaves both forms unchanged; an accepted one puts a new slot with the old role and the chosen id at the index |
| AssignmentManager.Manager.PickDate | components/assignment-manager.tsx:762-769 | no date changes nothing; otherwise the picked day goes to the date state and to the chosen form (also lines 939-946) |
| AssignmentManager.Manager.StartEdit | components/assignment-manager.tsx:270-274 | the edit form is the assignment and the date state its day; the add form is untouched |
| AssignmentManager.Manager.AddSubmit | components/assignment-manager.tsx:230-248 | as written: emits the form under a fresh id and the picked day exactly when the checker (add mode) is silent, then resets to the default, reusing the default slots |
| AssignmentManager.Manager.AddSubmitFreshForm | components/assignment-manager.tsx:230-248 | corrected: the same gating, and the reset form gets new empty slots |
| AssignmentManager.Manager.EditSubmit | components/assignment-manager.tsx:250-267 | with nothing being edited nothing happens; otherwise the edited assignment is emitted under its own id exactly when the checker (edit mode) is silent, and editing ends |
| AssignmentManager.PickingOneRefereeTwiceIsRejected | components/assignment-manager.tsx:167-177 | a form holding referee "1" in two slots always gets a message |
| AssignmentManager.SinglePickIsClean | components/assignment-manager.tsx:160-200 | a form holding one referee, with nothing stored, gets no message |
| AssignmentManager.RejectedChangeStays | components/assignment-manager.tsx:330-356 | picking "1" for a second slot is rejected, yet the form keeps "1" in both slots |
| AssignmentManager.ResetFormKeepsReferees | components/assignment-manager.tsx:244 | after an add, the reset form shares its slots with the emitted assignment and still shows the picked referee |
| AssignmentManager.SecondMountKeepsPick | components/assignment-manager.tsx:153 | a later mount's add form starts with the referee picked in an earlier mount |
| AssignmentManager.ResetFormIsBlank | components/assignment-manager.tsx:244 | with the corrected submit, the reset form is blank while the emitted assignment keeps its referee |

## Left out

- PDF export (components/assignment-manager.tsx:372-554): layout calls into a foreign PDF library.
- Persistence: the `localStorage` effects (app/page.tsx:51-80) and the Electron file and IPC bridge.
- Toasts, dialogs, JSX, the `Select` label maps and the real-time check effect (components/assignment-manager.tsx:558-565), which only shows toasts.
- Plain field setters of the forms (match name, time, location, notes, championship select), `startEdit` and `handleEditSubmit` of `components/referee-list.tsx` (lines 81-93), and `startEdit` of `components/championship-manager.tsx` (lines 110-115): they copy values into state and compute nothing.
- uuid generation and the clock: fresh ids and "today" are parameters.
- Date parsing, formatting and time zones: days are integers. The window compares a record's UTC midnight instant with a "now" instant, so local-time offsets and daylight saving are not modelled.
- The floating-point ratio at components/assignment-manager.tsx:225 is the exact comparison 10·present ≥ 7·total.
- Text.Lower: maps only the ASCII and Latin-1 capitals. Other scripts' case mappings, and mappings that change the length, are not modelled.
- React's state scheduling itself: `Store.StaleSave` states its outcome for the sheet save (each call upserts into the log read before the first save, and the last call wins), not the update queue.
- AttendanceTracker.Tracker.SaveAttendance: does not fix the order of the emitted records. The source follows `Object.entries`: integer-like referee ids first, in ascending numeric order, then the other ids in insertion order.
- AssignmentManager.Manager.ChangeReferee: requires the index to be in range. The source would throw a TypeError on an out-of-range index, which its UI never passes.
- AssignmentManager.Manager.ChangeRole: requires the index to be in range, for the same reason.
- AssignmentManager.Manager: the stored assignments are value snapshots (`Booking`). The edit form's slots are therefore not shared with the stored assignment. In the source, `startEdit`'s shallow copy (components/assignment-manager.tsx:271) shares them, so a slot edit shows in the list before the edit is saved. For the same reason the add path's sharing is shown only for the emitted `Assignment` (`ResetFormKeepsReferees`): the model does not show a later change in the reset form reaching the copy already in `Manager.assignments`, which is a constant snapshot.
- ChampionshipManager.AddSubmit: the form reset after the add (components/championship-manager.tsx:84-93) is not modelled, because its dates come from the clock.
- Store.Store.DeleteReferee: the assignment cascade filters on `app/page.tsx`'s single `refereeId`, as declared there. Slot-style assignments do not have that field, which the model cannot express.

## Findings

| source | as written | input that shows it | evidently intended | confidence | as-written member | corrected member |
|---|---|---|---|---|---|---|
| components/assignment-manager.tsx:330-356 | the referee change writes the chosen id into the slot object before running the checker, and returns on an error without undoing it | a new add form: pick referee "1" for slot 1, then "1" for slot 2; the change is rejected with a message, yet slot 2 keeps "1" | a rejected change leaves the form as it was | not executed | AssignmentManager.Manager.ChangeReferee, AssignmentManager.RejectedChangeStays | AssignmentManager.Manager.ChangeRefereeChecked |
| components/assignment-manager.tsx:244 | the reset after an add spreads `DEFAULT_ASSIGNMENT`, whose slot objects were already written by the referee changes; the reset form and the emitted assignment share those slots | pick referee "1" for slot 1 and add: the reset form shows "1" in slot 1, and changing it there also changes the stored assignment; a later mount of the component starts with "1" too | the reset form has new empty slots | not executed | AssignmentManager.Manager.AddSubmit, AssignmentManager.ResetFormKeepsReferees, AssignmentManager.SecondMountKeepsPick | AssignmentManager.Manager.AddSubmitFreshForm, AssignmentManager.ResetFormIsBlank |
| app/page.tsx:112-124 | the sheet's save calls the attendance handler once per referee; every call builds its new log from the same `attendance` value and replaces the whole log | an empty log and a sheet marking referees "1" and "2" on one day: after the save the log holds only the record of "2" | every record of the sheet is stored | not executed | Store.StaleSave, Store.StaleSaveLosesEarlierRecords, Store.TwoRefereeSheetLosesOne | Store.UpsertAll, Store.UpsertAllStoresSheet |
