# Study planner: planning client and plan generator

This project models the two parts of the study planner that hold its logic, and proves what they promise.

**The planning client** is the single planner page. It keeps five persisted fields:
- the subject rows;
- three ledgers keyed by subject name: progress, deadlines and difficulty weights;
- the daily study hours.

Its handlers edit these fields, and a save effect writes all five to a storage slot after every change. On mount a load effect restores them.

`getPlan` does three things:
- it builds the syllabus of the plan request, one entry per distinct named row with a chapter count;
- it refuses to send an empty syllabus;
- it raises an "overloaded day" notification for every date of the returned schedule whose hours exceed the daily capacity.

`markChapterDone` either counts one more chapter or, on the last chapter, removes the subject and all its ledger entries. `exportToCalendar` submits one all-day event per scheduled item.

**The plan generator** answers a plan request in four steps:
1. It merges syllabus entries whose names are equal after `strip()`.
2. It builds one task per subject with chapters left.
3. It ranks the tasks by priority with a stable sort.
4. It packs every remaining chapter, weighted by its difficulty, onto the earliest day of a window of at most 30 days that still has room. A chapter that fits nowhere overflows onto the last day.

## Modules

- `Wrappers` (wrappers.dfy): `Option`, `Result` and `dict.get`.
- `Text` (text.dfy): JavaScript `split`/`trim`, Python `strip` (each with its own whitespace set), and the decimal rendering of an integer.
- `PlanFormat` (plan_format.dfy): the records both halves exchange, which are the syllabus entry, the schedule item and the task row.
- `Sequences` (sequences.dfy): order-preserving de-duplication and small sequence facts.
- `PlannerState` (planner_state.dfy): the persisted client state as a value, its edit functions, the chapter-completed transition, and save/restore.
- `PlanClient` (planner_plan.dfy): the syllabus and the empty-input guard, the overload notifications, and the calendar events of an export.
- `PlannerApp` (planner_app.dfy): the page as a class `Planner`. Its fields are the page's state hooks and the storage slot; its methods are the handlers. The class invariant `Valid()` says the slot always holds exactly the saved current state.
- `Scheduler` (daily_schedule.dfy): `generate_daily_schedule`, the first-fit packer.
- `PlanGenerator` (plan_merge.dfy): `calculate_priority` and `generate_plan`, which merges, builds the tasks and ranks them.

## How the model represents the source

Dates on the generator side are whole-day offsets from today:
- a deadline `d` means today + `d` days;
- a missing or empty deadline is 30;
- `days_left` is the offset itself.

Hours and weights are `real`. The client's dates are opaque strings.

`parseFloat` is a parameter `parse: string -> Option<real>`, where `None` stands for NaN. Whether notification permission is granted is a constant of the page. The calendar service's answer for the event at position `k` is a parameter `accepted(k)`. The plan service's answer is a `Reply` value.

Where the code departs from what a reader might assume, the model follows the code:
- **Merging difficulty lists.** When a name occurs `k` times in the syllabus and has a difficulty list in the request, every occurrence receives the same list object, and `+=` extends that list by itself. The merged list is therefore `2^(k-1)` copies of the typed list, not one copy per entry. The progress of the name is also added once per entry, so it counts `k` times (`PlanGenerator.MergeReference`).
- **Difficulty weights.** `parseFloat(v.trim()) || 1` turns zero into 1 as well as non-numbers. Negative weights are kept, so weights are non-zero but not necessarily positive.
- **Ledger keys.** Ledger keys need not name a current subject: only the chapter-completed transition keeps them attached to a row (`PlannerState.MarkKeepsKeysKnown`). `updateProgress`, `updateDeadline` and `updateDifficulties` accept any name, and renaming a row orphans its keys.
- **Progress values.** Progress may be negative: the progress input (App.js:81) stores `Number(value)` unchecked, so the model's progress is any integer.
- **Subject removal.** The terminal branch removes every row with the subject's name, not only the first one.
- **Clearing storage.** `clearAll` removes the storage entry, but the save effect runs again at once and stores the defaults (`PlannerApp.Planner.ClearAll`).
- **Empty generator input.** The generator fails on a request whose merged syllabus is empty, because `max()` of an empty sequence raises. It also fails on a window of no days while some chapter remains, because `sorted(...)[-1]` raises. Both are modelled as errors (`Scheduler.Schedule`).

## Model

| member | source | states |
|---|---|---|
| Text.Split | study-planner-frontend/src/App.js:89 | `value.split(",")`: one piece more than there are commas, no piece holds a comma, and joining the pieces with commas gives the text back |
| Text.SplitJoin | study-planner-frontend/src/App.js:89 | splitting a comma-join of comma-free pieces gives exactly those pieces |
| Text.Trim | study_planner/app.py:97 | the trimmed name neither starts nor ends with whitespace and is no longer than the input |
| Text.TrimCore | study-planner-frontend/src/App.js:89 | trimming removes exactly the whitespace around a core that does not start or end with whitespace |
| Text.JsTrim | study-planner-frontend/src/App.js:89 | definition: `trim()` over the ECMAScript whitespace set; what it removes is stated by `Text.Trim` and `Text.TrimCore` |
| Text.PyStrip | study_planner/app.py:97 | definition: `strip()` over Python's whitespace set; what it removes is stated by `Text.Trim` and `Text.TrimCore` |
| Text.NatToString | study-planner-frontend/src/App.js:183 | the chapter number in an event summary is the canonical decimal numeral (digits only, no leading zero) whose value is the number |
| Text.IntToString | study-planner-frontend/src/App.js:183 | definition: the template-literal rendering of the chapter number, a minus sign before `Text.NatToString` when negative; the numeral's properties are in `Text.NatToString` |
| PlannerState.Edited | study-planner-frontend/src/App.js:70-74 | definition: the row with the one named field replaced; `PlannerApp.Planner.UpdateSubject` states the edit of the row list |
| PlannerState.UpdateProgress | study-planner-frontend/src/App.js:80-82 | the subject's progress becomes the value; every other progress key and every other field is unchanged |
| PlannerState.UpdateDeadline | study-planner-frontend/src/App.js:84-86 | the subject's deadline becomes the date; every other deadline key and every other field is unchanged |
| PlannerState.WeightOf | study-planner-frontend/src/App.js:89 | `parseFloat(...) \|\| 1`: a non-zero parse keeps its value, NaN and 0 both become 1, so the weight is never 0 |
| PlannerState.ParseWeights | study-planner-frontend/src/App.js:89 | one weight per comma-separated token (commas + 1); the weight is the token's trimmed parse when that is a non-zero number, otherwise 1 |
| PlannerState.ParseWeightsExample | study-planner-frontend/src/App.js:88-91 | `"1, x, 2.5,"` parses to `[1, 1, 2.5, 1]` |
| PlannerState.ExampleTokens | study-planner-frontend/src/App.js:89 | `"1, x, 2.5,"` splits into the four tokens `"1"`, `" x"`, `" 2.5"` and `""` |
| PlannerState.UpdateDifficulties | study-planner-frontend/src/App.js:88-91 | the subject's weight list becomes the parsed text, of length commas + 1; every other difficulty key and every other field is unchanged |
| PlannerState.FindIndex | study-planner-frontend/src/App.js:143 | `find` by name: the first row with the name, and there is none exactly when no row carries the name |
| PlannerState.WithoutSubject | study-planner-frontend/src/App.js:146 | `filter`: exactly the rows with another name are kept, and the rows removed are all those named `subject` |
| PlannerState.WithoutConcat | study-planner-frontend/src/App.js:146 | filtering keeps the relative order of the remaining rows |
| PlannerState.WithoutAbsent | study-planner-frontend/src/App.js:146 | filtering out a name no row has leaves the rows as they are |
| PlannerState.CurrentProgress | study-planner-frontend/src/App.js:142 | definition: `progress[subject] \|\| 0`; used by `PlannerState.MarkChapterDone`, whose branches are stated in terms of it |
| PlannerState.ChapterTotal | study-planner-frontend/src/App.js:143 | definition: the chapters of the first row with the name, 0 for a blank field or no row; the lookup is `PlannerState.FindIndex`, and `PlannerState.MarkUnknownSubject` uses the 0 default |
| PlannerState.Completes | study-planner-frontend/src/App.js:145 | definition: the terminal test `current + 1 >= total`; the two branches it selects are stated by `PlannerState.MarkChapterDone` |
| PlannerState.MarkChapterDone | study-planner-frontend/src/App.js:141-155 | when `current + 1 >= total`, every row with the subject's name is removed, the name leaves all three ledgers, and all other keys and the daily hours are kept; otherwise only the subject's progress changes, to `current + 1`, which stays below `total` |
| PlannerState.MarkTimes | study-planner-frontend/src/App.js:141-155 | definition: `k` consecutive chapter-completed transitions; their effect is stated by `PlannerState.MarkTimesCounts`, `PlannerState.MarkTimesRemoves` and `PlannerState.MarkThreeChapters` |
| PlannerState.MarkTimesCounts | study-planner-frontend/src/App.js:153-155 | starting from no progress, the first `k < total` calls count `k` chapters and leave the rows alone |
| PlannerState.MarkCounts | study-planner-frontend/src/App.js:153-155 | one call below the total counts one more chapter and keeps the rows |
| PlannerState.MarkTimesRemoves | study-planner-frontend/src/App.js:145-152 | starting from no progress, call number `total` (or the first when `total <= 1`) removes the subject from rows and ledgers |
| PlannerState.MarkThreeChapters | study-planner-frontend/src/App.js:141-155 | with 3 chapters, repeated calls give progress 1, then 2, then remove the subject |
| PlannerState.MarkUnknownSubject | study-planner-frontend/src/App.js:141-152 | when every ledger key names a row, marking a name no row has leaves the state unchanged, because the total defaults to 0 |
| PlannerState.MarkKeepsKeysKnown | study-planner-frontend/src/App.js:141-155 | the transition keeps every ledger key attached to a current row (cascading delete) |
| PlannerState.RemoveKeepsKeys | study-planner-frontend/src/App.js:146-152 | deleting the rows and the three ledger keys of a name keeps every other key attached to a remaining row |
| PlannerState.Save | study-planner-frontend/src/App.js:65-67 | the stored record has all five state fields |
| PlannerState.Restore | study-planner-frontend/src/App.js:50-62 | an empty slot gives the defaults; from a stored record each field is taken as stored, a missing one gets its default (one blank row, empty progress, deadline and difficulty maps); stored daily hours are kept unless missing or 0, which become 4; so the restored daily hours are never 0 |
| PlannerState.SaveRestore | study-planner-frontend/src/App.js:50-68 | load after save gives the state back, except that daily hours of 0 come back as 4 |
| PlannerState.RestoreStable | study-planner-frontend/src/App.js:50-68 | a restored state survives further save/load cycles unchanged |
| PlannerState.RestoreAllMissing | study-planner-frontend/src/App.js:52-60 | a record with every field missing restores the same defaults as an empty slot |
| PlanClient.Put | study-planner-frontend/src/App.js:103 | definition: `syllabus[name] = { chapters }` on an object with insertion-ordered keys; its properties are in `PlanClient.PutFacts` |
| PlanClient.Syllabus | study-planner-frontend/src/App.js:100-105 | definition: the syllabus the row loop builds; `PlanClient.BuildSyllabus` is proved equal to it, and its properties are in `PlanClient.SyllabusFacts`, `PlanClient.SyllabusKeys` and `PlanClient.SyllabusEmpty` |
| PlanClient.ListedNames | study-planner-frontend/src/App.js:101-102 | definition: the names of the rows passing `sub.name && sub.chapters`, in row order; characterised by `PlanClient.ListedNamesMembers` |
| PlanClient.LastChapters | study-planner-frontend/src/App.js:101-103 | definition: the chapters of the last listed row with a name (a later row overwrites the key); `PlanClient.SyllabusFacts` proves each entry carries it |
| PlanClient.PutFacts | study-planner-frontend/src/App.js:103 | setting a syllabus key keeps keys unique and in first-insertion order: an existing key keeps its position with the new value, and a new key goes last |
| PlanClient.SyllabusFacts | study-planner-frontend/src/App.js:100-105 | the syllabus has one entry per distinct listed name, in the order names first appear, each with the chapters of the last listed row of that name |
| PlanClient.SyllabusKeys | study-planner-frontend/src/App.js:101-105 | a name is a syllabus key exactly when some row with that name has a name and a chapter count |
| PlanClient.ListedNamesMembers | study-planner-frontend/src/App.js:102 | a name is listed exactly when some row carrying it passes the `sub.name && sub.chapters` test |
| PlanClient.SyllabusEmpty | study-planner-frontend/src/App.js:100-109 | the syllabus is empty, which triggers the guard, exactly when no row has both a name and a chapter count |
| PlanClient.BuildSyllabus | study-planner-frontend/src/App.js:100-105 | the row-by-row loop builds exactly the syllabus above |
| PlanClient.OverloadNotices | study-planner-frontend/src/App.js:128-135 | at most one notification per schedule entry, all of the overloaded-day kind, and none without permission |
| PlanClient.OverloadExact | study-planner-frontend/src/App.js:128-135 | a notification names a scheduled date with more hours than the capacity and reports its total; every such date gets one when permission is granted |
| PlanClient.NotifyOverloads | study-planner-frontend/src/App.js:128-135 | the pass over the schedule, summing each date's hours, emits exactly those notifications in schedule order |
| PlanClient.OverloadDates | study-planner-frontend/src/App.js:128-134 | every notification's date is a date of the schedule |
| PlanClient.OverloadOncePerDate | study-planner-frontend/src/App.js:128-135 | with distinct dates, no two notifications name the same date |
| PlanClient.OverloadExamples | study-planner-frontend/src/App.js:129-130 | with capacity 4, a day of 3 h + 2 h is flagged with 5 h, and a day of 2 h + 1 h is not |
| PlanClient.EventFor | study-planner-frontend/src/App.js:182-186 | definition: the event body of one item, `"<subject> - Chapter <chapter>"` starting and ending on the date in the fixed time zone; its position in the export is stated by `PlanClient.EventPosition` |
| PlanClient.DayEvents | study-planner-frontend/src/App.js:181-186 | one event per item of the date |
| PlanClient.DayEventAt | study-planner-frontend/src/App.js:181-186 | the event of item `j` is `"<subject> - Chapter <chapter>"` on the item's date, in the fixed time zone |
| PlanClient.Events | study-planner-frontend/src/App.js:180-186 | one event per scheduled item over all dates |
| PlanClient.EventPosition | study-planner-frontend/src/App.js:180-186 | item `j` of date `i` is event number (items of earlier dates) + `j`: date order, then item order |
| PlanClient.EventSlot | study-planner-frontend/src/App.js:180-186 | event number (items of earlier dates) + `j` is the `j`-th event of date `i` |
| PlanClient.Rejected | study-planner-frontend/src/App.js:188-201 | definition: the positions whose insert was rejected, never more than were submitted; characterised by `PlanClient.RejectedExact` and `PlanClient.RejectedStep` |
| PlanClient.RejectedExact | study-planner-frontend/src/App.js:188-201 | a position is recorded exactly when its insert was rejected, in increasing order, so a rejection does not stop the export |
| PlanClient.RejectedStep | study-planner-frontend/src/App.js:188-201 | one more submission adds its position exactly when it is rejected |
| PlanClient.Submit | study-planner-frontend/src/App.js:188-201 | one insert appends its event to those submitted, and the failures are the rejected positions |
| PlanClient.SubmitAll | study-planner-frontend/src/App.js:181-202 | the inner loop submits every event in order, and the failures are the rejected positions |
| PlanClient.ExportDay | study-planner-frontend/src/App.js:181-202 | one date's items are submitted as that date's events |
| PlanClient.ExportEvents | study-planner-frontend/src/App.js:180-203 | the export submits exactly the events of the schedule, in order, and records the rejected positions |
| PlannerApp.Planner.State | study-planner-frontend/src/App.js:66 | definition: the five persisted fields as one record, the object the save effect writes |
| PlannerApp.Planner.Valid | study-planner-frontend/src/App.js:64-68 | definition: the save effect has run, so storage holds exactly `Save(State())`; every handler keeps it |
| PlannerApp.Planner.constructor | study-planner-frontend/src/App.js:23-68 | mounting restores the state from the slot, writes it back, and starts with no plan, no error, no token and no notifications |
| PlannerApp.Planner.Commit | study-planner-frontend/src/App.js:64-68 | a committed state is the new state, and storage holds exactly its saved form |
| PlannerApp.Planner.UpdateSubject | study-planner-frontend/src/App.js:70-74 | only the edited field of row `index` changes; the length, the other rows and the other fields are kept |
| PlannerApp.Planner.AddSubject | study-planner-frontend/src/App.js:76-78 | one blank row is appended and nothing else changes |
| PlannerApp.Planner.UpdateProgress | study-planner-frontend/src/App.js:80-82 | the state becomes the progress edit of the old state and is saved |
| PlannerApp.Planner.UpdateDeadline | study-planner-frontend/src/App.js:84-86 | the state becomes the deadline edit of the old state and is saved |
| PlannerApp.Planner.UpdateDifficulties | study-planner-frontend/src/App.js:88-91 | the state becomes the difficulties edit of the old state and is saved |
| PlannerApp.Planner.SetDailyHours | study-planner-frontend/src/App.js:274 | only the daily hours change, and the state is saved |
| PlannerApp.Planner.SignIn | study-planner-frontend/src/App.js:35-38 | a successful sign-in stores the token and leaves the persisted state alone |
| PlannerApp.Planner.MarkChapterDone | study-planner-frontend/src/App.js:141-163 | the state becomes the chapter-completed transition of the old state and is saved; one "chapter completed" notification follows when permission is granted |
| PlannerApp.Planner.ClearAll | study-planner-frontend/src/App.js:167-175 | the state and storage hold the defaults and the plan is gone; the error and token are kept |
| PlannerApp.Planner.GetPlan | study-planner-frontend/src/App.js:98-139 | an empty syllabus sets the "add at least one subject" error and sends nothing; otherwise the request carries the syllabus and the state, and then a delivered plan replaces the plan, clears the error and raises the overload notifications, while a failed fetch keeps the plan and sets "Failed to fetch plan: " + reason |
| PlannerApp.Planner.ExportToCalendar | study-planner-frontend/src/App.js:177-206 | with no plan or no token, nothing is submitted and only the sign-in alert is shown; otherwise every scheduled item's event is submitted in order, rejections are recorded, and the completion alert is shown |
| Scheduler.Ones | study_planner/app.py:23 | definition of `[1] * n`: `max(n, 0)` ones; its use in padding is stated by `Scheduler.PadTo` |
| Scheduler.PadTo | study_planner/app.py:26-27 | the list is extended with ones up to `total` items (never shortened), keeping its prefix |
| Scheduler.PadIdempotent | study_planner/app.py:126-128 | padding an already padded list changes nothing, so the generator's second padding is harmless |
| Scheduler.SliceBound | study_planner/app.py:30 | a Python slice bound counts from the end when negative, a bound past the end becomes the length, and one before the start becomes 0 |
| Scheduler.PySlice | study_planner/app.py:35 | `d[lo:hi]` is the infix `d[lo..hi]` when the bounds are in range, and never longer than `d` |
| Scheduler.WeightOfChapter | study_planner/app.py:49-53 | the hours of chapter index `c` are its difficulty entry, or 1 past the end of the list |
| Scheduler.RemainingWeights | study_planner/app.py:17-35 | definition: `difficulty[completed:total_chapters]` after padding; `Scheduler.RemainingWeightsOf` is proved to compute it and `Scheduler.WeightOfChapter` states what each entry is |
| Scheduler.Weight | study_planner/app.py:52-53 | definition: the hours of the `k`-th remaining chapter, its slice entry or 1; stated per chapter index by `Scheduler.WeightOfChapter` |
| Scheduler.ChapterCount | study_planner/app.py:49 | definition: the length of `range(completed, total_chapters)`; `Scheduler.SubjectItems` has that many items |
| Scheduler.SubjectItems | study_planner/app.py:49-62 | definition: one item per chapter index in `range(completed, total)`, numbered `c + 1`, with that chapter's weight; what the schedule does with them is proved in `Scheduler.PendingHas`, `Scheduler.PendingSound` and `Scheduler.ScheduleOnce` |
| Scheduler.Pending | study_planner/app.py:48-53 | definition: every item to place, subject by subject; characterised by `Scheduler.PendingHas`, `Scheduler.PendingSound` and `Scheduler.PendingAscending` |
| Scheduler.PendingHas | study_planner/app.py:48-53 | every remaining chapter of every subject is to be placed |
| Scheduler.PendingSound | study_planner/app.py:48-53 | everything placed is a remaining chapter of some subject |
| Scheduler.MaxDeadline | study_planner/app.py:42 | the latest deadline over all subjects |
| Scheduler.WindowSize | study_planner/app.py:43 | the window has `min(maxDeadline + 1, 30)` days, and none when every deadline is past |
| Scheduler.StartBoard | study_planner/app.py:45-46 | every day of the window starts with the full daily hours and no items |
| Scheduler.FirstFitFrom | study_planner/app.py:56-65 | the scan from day `i`: the first day at or after `i` with at least the item's hours left, or none when no such day has them |
| Scheduler.FirstFit | study_planner/app.py:56-65 | the earliest day with at least the item's hours left, or none when no day has them |
| Scheduler.TargetDay | study_planner/app.py:55-68 | an item goes to the earliest day it fits, otherwise to the last day |
| Scheduler.Place | study_planner/app.py:55-74 | placing an item fails, with the overflow error, exactly when the window has no days |
| Scheduler.PlaceAll | study_planner/app.py:48-74 | placing a list of items fails exactly when there is something to place and no day |
| Scheduler.Schedule | study_planner/app.py:13-74 | the packer fails exactly when there are no subjects or the window is empty while some chapter remains; otherwise it has one day per day of the window |
| Scheduler.ScheduleDays | study_planner/app.py:76-80 | definition: the schedule alone, or the packer's error; `Scheduler.GenerateDailySchedule` is proved equal to it |
| Scheduler.PlaceAllAccounted | study_planner/app.py:55-74 | placing keeps each day's hours left equal to the daily hours minus the hours it holds |
| Scheduler.ScheduleAccounting | study_planner/app.py:45-74 | after packing, `daily_hours_left[d]` is the daily hours minus the hours scheduled on `d`, for every day |
| Scheduler.PlaceAllSlack | study_planner/app.py:55-74 | placing never drives a day before the last below zero hours left |
| Scheduler.ScheduleCapacity | study_planner/app.py:55-74 | every day except the last holds at most the daily hours; only the last takes overflow |
| Scheduler.PlaceAllMultiset | study_planner/app.py:48-74 | placing adds exactly the placed items to the schedule |
| Scheduler.ScheduleComplete | study_planner/app.py:48-74 | the schedule holds exactly the remaining chapters, each as often as it remains |
| Scheduler.ScheduleOnce | study_planner/app.py:48-74 | every chapter index `c` in `[completed, total)` appears exactly once, as chapter `c + 1` with its weight |
| Scheduler.SubjectPos | study_planner/app.py:48 | the position of the first subject with a name |
| Scheduler.PendingSubjects | study_planner/app.py:48-50 | every item to place belongs to a subject of the input |
| Scheduler.PendingAscending | study_planner/app.py:48-50 | the items are placed in subject order, then in ascending chapter order |
| Scheduler.PlaceAllAscending | study_planner/app.py:55-74 | placing items in ascending order keeps every day's items in that order |
| Scheduler.ScheduleOrdered | study_planner/app.py:48-74 | within every day, items appear in subject order, then in ascending chapter order |
| Scheduler.PlaceItem | study_planner/app.py:55-74 | the scan over the days places one item as the first-fit rule says |
| Scheduler.RemainingWeightsOf | study_planner/app.py:17-35 | the first loop computes each subject's padded remaining difficulty slice |
| Scheduler.PlaceSubject | study_planner/app.py:49-74 | the chapter loop places one subject's remaining chapters in order |
| Scheduler.PlaceNext | study_planner/app.py:48-74 | one pass of the subject loop extends the packing by that subject's chapters, and fails only on an empty window with a chapter to place |
| Scheduler.GenerateDailySchedule | study_planner/app.py:13-80 | the packer method returns the schedule, or the error, that the first-fit specification gives |
| PlanGenerator.Priority | study_planner/app.py:8-11 | for days left > 0, priority times days left is the remaining chapters; otherwise ten per remaining chapter; positive when work remains |
| PlanGenerator.PriorityOverdueFirst | study_planner/app.py:8-11 | with equal work left, an overdue subject outranks every subject whose deadline is ahead |
| PlanGenerator.PriorityMonotone | study_planner/app.py:8-11 | before the deadline, more chapters left or fewer days left never lowers the priority |
| PlanGenerator.DeadlineFor | study_planner/app.py:100 | definition: `deadlines.get(name) or` today + 30; `PlanGenerator.MergeReference` states each merged subject carries it |
| PlanGenerator.MergeStep | study_planner/app.py:97-114 | definition: one pass of the merge loop; `PlanGenerator.MergeEntry` is proved equal to it, and `PlanGenerator.StepNames` and `PlanGenerator.StepFacts` state its effect |
| PlanGenerator.Absorb | study_planner/app.py:110-114 | definition: a present subject taking one more entry of its name, its difficulty list extended in place (by itself when the request has one); stated by `PlanGenerator.MergeGrow` |
| PlanGenerator.Merge | study_planner/app.py:96-114 | definition: `subjects_data` after the merge loop; `PlanGenerator.MergeSyllabus` is proved equal to it, and `PlanGenerator.MergeNames`, `PlanGenerator.MergeReference` and `PlanGenerator.MergeAt` state what it holds |
| PlanGenerator.StrippedNames | study_planner/app.py:97 | definition: the syllabus names after `strip()`, in order; the merge's names are related to it by `PlanGenerator.MergeNames` |
| PlanGenerator.MergeNames | study_planner/app.py:96-109 | the merged subjects are the distinct stripped names in order of first appearance, with no name twice |
| PlanGenerator.StepNames | study_planner/app.py:103-114 | one merge pass appends a new stripped name and keeps the names otherwise |
| PlanGenerator.StepSums | study_planner/app.py:96-114 | one more entry adds to the counts of its own name only |
| PlanGenerator.MergeReference | study_planner/app.py:96-114 | each merged subject has the summed chapters, its progress once per entry, its own or the default deadline, and either `2^(k-1)` copies of its difficulty list or as many ones as its entries' chapters |
| PlanGenerator.MergeAt | study_planner/app.py:96-114 | a name has a merged subject exactly when it occurs in the syllabus, and that subject is the one just described |
| PlanGenerator.StepFacts | study_planner/app.py:96-114 | one merge pass keeps that description true for every name |
| PlanGenerator.MergeGrow | study_planner/app.py:110-114 | a further entry of a merged name adds its chapters and progress and extends the difficulty list |
| PlanGenerator.MergeFirst | study_planner/app.py:103-109 | the first entry of a name makes a subject with its chapters, progress, deadline and difficulty list (or `[1] * chapters`) |
| PlanGenerator.MergeSyllabus | study_planner/app.py:96-114 | the merge loop builds exactly the merge specification |
| PlanGenerator.MergeEntry | study_planner/app.py:97-114 | one pass of the merge loop inserts a new name or extends a known one |
| PlanGenerator.TaskOf | study_planner/app.py:130-139 | definition: the task row of a subject; `PlanGenerator.TasksCount` states done + remaining = total for every row |
| PlanGenerator.Tasks | study_planner/app.py:116-139 | definition: the task rows of the subjects with chapters left, in merge order; `PlanGenerator.BuildTasks` is proved equal to it, characterised by `PlanGenerator.TasksExact` and `PlanGenerator.TasksDistinct` |
| PlanGenerator.TasksCount | study_planner/app.py:116-139 | every task has chapters left, and done plus remaining is its total |
| PlanGenerator.TasksExact | study_planner/app.py:116-139 | a task is the row of a merged subject with chapters left, and every such subject has its row |
| PlanGenerator.TasksDistinct | study_planner/app.py:116-139 | with unique names no two tasks share a subject, so each subject has at most one task |
| PlanGenerator.PadSubjectItems | study_planner/app.py:126-128 | padding a subject's difficulty list leaves its remaining chapters' hours as they were |
| PlanGenerator.PadPending | study_planner/app.py:126-128 | the padded subjects have the same chapters to place |
| PlanGenerator.PadMaxDeadline | study_planner/app.py:126-128 | the padded subjects have the same latest deadline |
| PlanGenerator.PaddingInvisible | study_planner/app.py:126-142 | the task loop's in-place padding does not change the schedule the packer produces |
| PlanGenerator.BuildTasks | study_planner/app.py:116-139 | the task loop yields exactly the tasks above and leaves the subjects padded |
| PlanGenerator.TaskStep | study_planner/app.py:117-139 | one pass skips a subject without chapters left, and otherwise pads it and yields its task row |
| PlanGenerator.Insert | study_planner/app.py:141 | inserting a task adds exactly that task |
| PlanGenerator.SortByPriority | study_planner/app.py:141 | definition: the stable descending sort, as insertion sort; `PlanGenerator.SortSorted` and `PlanGenerator.SortStable` state that it is a sorted, stable permutation |
| PlanGenerator.InsertSorted | study_planner/app.py:141 | inserting into a ranking keeps priorities non-increasing |
| PlanGenerator.SortSorted | study_planner/app.py:141 | the ranking is a permutation of the tasks with non-increasing priority |
| PlanGenerator.InsertStable | study_planner/app.py:141 | inserting a task puts it after every task of equal priority |
| PlanGenerator.SortStable | study_planner/app.py:141 | the tasks of each priority keep their merge order (the sort is stable) |
| PlanGenerator.WithPriorityConcat | study_planner/app.py:141 | the tasks of a priority in a concatenation are those of each part |
| PlanGenerator.PlanFor | study_planner/app.py:83-147 | definition: the response for a request, or the packer's error; `PlanGenerator.GeneratePlan` is proved equal to it and `PlanGenerator.PlanFacts` states what it promises |
| PlanGenerator.GeneratePlan | study_planner/app.py:83-147 | the generator returns the ranked tasks and the packed schedule of the merged subjects, or the packer's error |
| PlanGenerator.PlanFacts | study_planner/app.py:95-142 | a generated plan ranks exactly one row per subject with chapters left, by non-increasing priority with ties in merge order, each with done + remaining = total; its schedule holds every remaining chapter once |

## Left out

- Rendering: the JSX, the Chart.js data (`getPieBarData`) and `getColor` are presentation only.
- The React runtime: hook closures and batching are not modelled, and each handler commits its new state at once. The delayed `getPlan` after `markChapterDone` is a later, separate call of `GetPlan` on the committed state; the 100 ms timer and the stale closure it captures are not modelled.
- `fetch`, `axios` and the Google OAuth flow are I/O. The plan service's answer is a `Reply` parameter, each calendar insert's outcome is `accepted(k)`, and a sign-in is the token it yields. The failed sign-in alert and console logging are not modelled.
- The Notification API is a list of emitted notices. The permission request dialog is not modelled; permission is fixed when the page mounts. The notification bodies (the rendered hour totals) are not modelled, only the date and the total.
- `localStorage` and `JSON`: the slot holds the state record directly, and a missing field is `None`. JSON's effects on values (NaN becoming `null`, key order) are not modelled.
- Dates: `datetime.today()`, `strptime`, `strftime` and invalid date strings are replaced by day offsets from today. The wire format of deadlines and schedule dates is not modelled.
- Numbers: Python floats and JavaScript numbers are unbounded `real` and `int`. `round(priority, 2)` is not applied. `Number(...)` on the chapter, progress and daily-hours inputs is done by the caller, and chapter and progress values are whole numbers. `parseFloat` is an abstract parameter.
- JavaScript's ordering of integer-like object keys (they are enumerated first, ascending) is not modelled: syllabus keys are in insertion order.
- Malformed plan responses (a schedule that is not an object) are not modelled: a delivered plan is well formed.
- `days_left` and `weighted_remaining` in `generate_daily_schedule` are computed but never used, so they are left out.
- Flask routing, CORS, `request.json`, `jsonify` and the request defaults (`data.get("syllabus", {})`, `daily_hours` 4) are plumbing; the generator receives a `PlanInput` value.
- `study-planner-frontend/src/index.js` only mounts the page and is not part of this model.
- PlannerApp.Planner.UpdateSubject: requires a row at `index`; the page only calls it with the index of a rendered row, and the source would throw on any other.
- PlannerApp.Planner.UpdateSubject: the source writes the field into the row object that the previous array shares (a shallow copy). The previous array is dropped at once, so the model replaces the row by value.
- PlanClient.DayEvents: its own contract states only the number of events; their contents are stated by `PlanClient.DayEventAt`.
