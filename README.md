# Student courses tracker — verified model of its core

The tracker is a single-page browser application that follows one student
through four certification courses. At start-up it generates the study
sessions. For each course it walks forward one calendar day at a time from
the course's start date and emits a session on every weekday until the
course's hour quota is met. It then hands out time-of-day slots round-robin
over the combined session list. From then on the user can:

- mark a session completed or missed;
- move a missed session to another date and place, unless another session
  of the same course already falls on that date;
- add notes to a work diary;
- remove study partners;
- narrow every view to one course.

The views are:

- the three upcoming reminders;
- the full session list sorted by date;
- the hourly study calendar;
- the diary notes.

This project models that core in Dafny:

| module | file | contents |
|---|---|---|
| `Collections` | `collections.dfy` | `Option`; the order-preserving `Filter` (`Array.prototype.filter`) and its algebra; `Take` (`slice(0, n)`) |
| `Text` | `text.dfy` | decimal rendering of counters; `String.prototype.trim` over the ECMAScript white-space and line-terminator set |
| `Days` | `days.dfy` | calendar dates as day numbers (day 0 is Thursday 1970-01-01); `Weekday` as `getDay`; the run of weekdays from a start date |
| `Domain` | `domain.dfy` | the records (course, session, diary entry, study partner); the fixed constants; session identifiers; course lookup; seed data |
| `Generator` | `generator.dfy` | `generateStudySessions` as a loop proved against the function `Generated`, and the properties of the generated list |
| `Engine` | `engine.dfy` | the mutation rules as functions from old to new collection: status marks, rescheduling with its conflict check, the diary form, partner removal |
| `Projection` | `projection.dfy` | the course filter and the read-only views |
| `AppStore` | `store.dfy` | class `Store`, the application's mutable state; its methods apply the `Engine` rules in place and keep the invariant `Valid` |

A session object is identified by its position in `Store.sessions`. The
reference test `s !== oldSession` becomes `j != target`. Positions never
change, because no operation adds or removes a session.

## Model

| member | source | states |
|---|---|---|
| Generator.GenerateStudySessions | js/app.js:54-78 | the day-by-day walk over every course yields exactly `Generated(courses)`: each course's sessions in turn, the `n`-th on the `n`-th weekday from its start date |
| Generator.AppendCourseSessions | js/app.js:56-76 | one pass of the `forEach` callback appends exactly that course's sessions to the list built so far |
| Generator.CourseSessions | js/app.js:62-75 | one course contributes exactly `hours` sessions. Session `k` has identifier `id-sess-k`, is scheduled, is at "Training Room 4" and has no time yet. Its date is the `k`-th weekday of the walk from the start date, so weekends do not use up the quota |
| Generator.CourseSessionsAscending | js/app.js:62-75 | a course's sessions fall on strictly increasing dates |
| Generator.Generated | js/app.js:54-78 | the total count of generated sessions is the sum of the hour quotas |
| Generator.GeneratedSessionFacts | js/app.js:65-71 | every generated session is scheduled, at the default location, on a weekday, belongs to a course and is no earlier than that course's start, and carries an identifier `courseId-sess-n` |
| Days.WeekdaysFrom | js/app.js:62-75 | the walk takes `count` days, all weekdays, all on or after the start, strictly increasing |
| Days.WeekdaysFromComplete | js/app.js:63-64 | the walk skips no weekday: every weekday between the start and the last session date is used |
| Days.Weekday | js/app.js:63 | the day of the week lies between 0 and 6, with 0 for Sunday and 6 for Saturday, as `getDay` numbers them |
| Generator.GeneratedLayout | js/app.js:56-76 | course `i`'s sessions sit contiguously, right after the sessions of the courses before it |
| Generator.GeneratedPerCourse | js/app.js:56-75 | with distinct course identifiers, the sessions of one course in the whole list are exactly its own `hours` sessions, in order |
| Generator.GeneratedForeignCourse | js/app.js:56-68 | no session is generated for a course identifier that no course has |
| Generator.GeneratedWellFormed | js/app.js:65-68 | with distinct course identifiers, all session identifiers are distinct and no course has two sessions on one day |
| Days.FirstWeekOfApril2024 | js/app.js:62-75 | the first six weekdays from Monday 2024-04-01 are April 1 to 5 and April 8 |
| Generator.SixSigmaYellowScenario | js/app.js:5-12 | the first course (6 hours from Monday 2024-04-01) meets on April 1 to 5 and April 8, skipping the weekend |
| Domain.SessionIdInjective | js/app.js:66 | `courseId + '-sess-' + n` determines both the course identifier and the counter, for any course identifiers |
| Domain.SessionId | js/app.js:66 | an identifier is the course identifier, then `-sess-`, then a non-empty run of decimal digits |
| Domain.FindCourse | js/app.js:162 | `courses.find(c => c.id === id)` is absent exactly when no course has the identifier; otherwise it is the first course with it |
| Domain.CourseTitle | js/app.js:231 | the label is the placeholder when no course matches, and otherwise the title of a course with that identifier |
| Domain.SeedCourseIdsDistinct | js/app.js:4-37 | the four seed courses have distinct identifiers |
| Domain.SeedConnectionIdsDistinct | js/app.js:40-44 | the three seed partners have distinct identifiers |
| Text.NatToStringInjective | js/app.js:66 | distinct counters render as distinct digit strings |
| Text.ParseNatToString | js/app.js:66 | reading back the rendered digits of a counter gives the counter |
| Text.TrimEmptyIff | js/app.js:606 | `trim()` yields the empty string exactly when the input is all white space |
| Text.TrimIsSlice | js/app.js:606 | the trimmed string is a contiguous slice of the input; everything cut off is white space, and the slice neither starts nor ends with white space |
| Text.TrimIdempotent | js/app.js:606 | trimming twice is trimming once |
| Text.Trim | js/app.js:606 | trimming never lengthens a string, and a non-empty result neither starts nor ends with white space |
| AppStore.Store.AssignSessionTimes | js/app.js:133-140 | session `i` of the whole list gets slot label `i mod 9`; no other field and no other session changes |
| AppStore.Store.constructor | js/app.js:80-143 | with distinct course identifiers and distinct partner identifiers, the store's sessions are the generated ones, each given its round-robin slot, with no course selected; the invariant holds |
| AppStore.Launch | js/app.js:39-51 | the application starts from the seed courses, partners and diary notes, with no course selected; its sessions are the ones generated from the seed courses, each with its round-robin time slot, and the store invariant holds |
| AppStore.TimedSessionsWellFormed | js/app.js:80-143 | assigning the time slots keeps the generated list's distinct identifiers and distinct per-course dates |
| Projection.SlotLabelsAreHourLabels | js/app.js:134 | each of the nine slot labels is the label of an hour block between 08:00 and 20:00, and none is 12:00 |
| Projection.HourLabelInjective | js/app.js:155 | distinct hours in 0..99 have distinct `HH:00` labels |
| Projection.HourLabel | js/app.js:155 | an hour block label is five characters: two decimal digits followed by `:00` |
| Projection.HourBlocksPartition | js/app.js:154-160 | once the slots are assigned, a visible session shows in exactly one hour block: the block of its slot |
| Projection.IdleHourBlocks | js/app.js:154-160 | no session ever shows in the 12:00 block or in the blocks after 17:00 |
| Projection.SessionsAtHour | js/app.js:160 | a session is in an hour block exactly when its time is that block's label and it passes the course filter |
| Engine.WithStatusSpec | js/app.js:265-266 | a mark sets the status whatever it was before and touches no other field and no other session; marking twice is marking once |
| Engine.WithStatusKeepsShape | js/app.js:280-281 | a mark keeps every session's identifier and date, and so keeps every course's sessions on distinct days |
| Engine.WithStatus | js/app.js:265-266 | a mark (completed here, missed at js/app.js:281) gives the target the new status, keeps the list's length and leaves every other session as it was |
| AppStore.Store.MarkCompleted | js/app.js:265-266 | the session's status becomes completed, as `Engine.WithStatus` says, and the store invariant is kept |
| AppStore.Store.MarkMissed | js/app.js:280-281 | the session's status becomes missed, as `Engine.WithStatus` says, and the store invariant is kept |
| Engine.FindConflict | js/app.js:524-528 | a found conflict is another session of the same course on the new date, and the first such session; none is found exactly when there is no such session |
| Engine.RescheduleSpec | js/app.js:523-538 | on a conflict nothing changes; otherwise the target's date, location and status become the new date, the new location and scheduled, and no other session changes |
| Engine.RescheduleKeepsDistinctDays | js/app.js:523-538 | because of the conflict check, rescheduling never puts two sessions of one course on the same day |
| Engine.Reschedule | js/app.js:523-538 | rescheduling keeps the list's length and every other session; the target either stays as it was or takes the new date and location and becomes scheduled |
| AppStore.Store.RescheduleMissedSession | js/app.js:523-538 | the outcome is a conflict exactly when another session of the course is on the new date. The sessions become `Engine.Reschedule` of the old ones, and the store invariant is kept |
| Engine.AddDiaryEntrySpec | js/app.js:604-614 | a form with a date, a course and content that is not all white space puts exactly one entry, with trimmed content, at the front and keeps the rest in order; any other form leaves the diary as it was |
| Engine.AddDiaryEntryScenario | js/app.js:608-614 | adding "notes" to the three seed notes gives four notes with the new one first |
| Engine.AddDiaryEntry | js/app.js:608-614 | submitting the form either leaves the diary as it was or puts one entry, with the fresh identifier and non-empty content, in front of the old diary |
| AppStore.Store.AddDiaryEntry | js/app.js:602-614 | the returned flag says whether the form was complete, and the diary becomes `Engine.AddDiaryEntry` of the old one |
| Engine.RemoveConnectionSpec | js/app.js:362 | removal keeps exactly the partners with a different identifier; an absent identifier changes nothing |
| Engine.RemoveConnectionAt | js/app.js:362 | with distinct identifiers, removing the partner at position `k` leaves the others in their original order |
| Engine.RemoveConnectionKeepsDistinct | js/app.js:362 | removal keeps the remaining partners' identifiers distinct |
| Engine.RemoveConnection | js/app.js:362 | removal never adds a partner, and no remaining partner has the removed identifier |
| AppStore.Store.RemoveConnection | js/app.js:360-362 | the partners become `Engine.RemoveConnection` of the old ones; removing the partner at position `k` leaves the others in their original order; the store invariant, including distinct partner identifiers, is kept |
| AppStore.Store.FilterContent | js/app.js:682-685 | the selected course becomes the given identifier |
| Projection.VisibleSessionsSpec | js/app.js:688-690 | with no course selected the filter keeps everything; otherwise it keeps exactly the selected course's sessions, in order |
| Projection.ShouldShowContent | js/app.js:688-690 | with no course selected every record shows; otherwise a record shows exactly when its course is the selected one |
| Projection.VisibleDiary | js/app.js:311-312 | a note is listed exactly when it passes the course filter, and all notes are listed when no course is selected |
| Projection.SortByDate | js/app.js:242-244 | the result is ordered by date and is a permutation of the input |
| Projection.SortByDateStable | js/app.js:244 | sessions of the same date keep their relative order, as the stable `Array.prototype.sort` does |
| Projection.UpcomingReminders | js/app.js:213-221 | at most three reminders; each is a stored session that is scheduled, dated today or later and passes the course filter; they are in date order |
| Projection.UpcomingRemindersEarliest | js/app.js:213-221 | the reminders are the earliest qualifying sessions: all of them when there are at most three, otherwise three, and no session left out is earlier than one shown |
| Projection.UpcomingRemindersStable | js/app.js:213-221 | when sessions of one date are cut at three, the ones kept come first in stored order: the reminders of a date are a prefix of that date's qualifying sessions in stored order |
| Projection.IsUpcoming | js/app.js:214-219 | a reminder candidate is scheduled, dated today or later and passes the course filter, and every such session is a candidate |
| Projection.TakeSortedEarliest | js/app.js:220-221 | the first `n` of a date-sorted list are no later than any of the rest |
| Collections.Take | js/app.js:221 | `slice(0, n)` keeps a prefix of the list, of length `n` or the whole list when it is shorter |
| Projection.AllSessionsSorted | js/app.js:242-244 | the full list is ordered by date and holds each visible session as often as it is stored |
| Projection.AllSessionsSortedSpec | js/app.js:242-244 | a session is listed exactly when it is stored and passes the course filter, and sessions of one date keep their stored order |
| Projection.SessionsOnDate | js/app.js:424-425 | a session is in a day cell exactly when it falls on that date and passes the course filter |
| Projection.CalendarDayEvents | js/app.js:424-436 | a day cell draws exactly the visible sessions of that date whose course is known |
| Collections.Filter | js/app.js:311-312 | the filtered list is no longer than the input and holds exactly the input's elements that pass the predicate |
| Collections.FilterSamePredicate | js/app.js:688-690 | two predicates that agree on every element select the same list |

## Left out

- Rendering: building the page, the navigation, the modals, `alert`, `confirm` and focus handling are left out. Only the data each view shows is modelled.
- Dates: calendar dates are day numbers, not `YYYY-MM-DD` strings. String dates compare equal exactly when their day numbers do.
- Time zones: the source reads a start date as UTC midnight (`new Date(...)`, `toISOString`) but takes its weekday in local time (`getDay`). The model takes weekdays of the calendar date itself. West of UTC the source would shift the sessions by one day, and the model does not capture that.
- `formatDate` and locale-dependent display are left out.
- The current day in the reminder filter (`new Date()`) is the parameter `today`.
- The diary entry's identifier `d${Date.now()}` is the parameter `freshId`.
- The reschedule modal's own guard, a non-empty date and trimmed location before calling `rescheduleMissedSession` (js/app.js:508), is not modelled; `Store.RescheduleMissedSession` models the called function.
- The monthly calendar `renderCalendar` (js/app.js:384-444) has no caller: both versions of `renderAppSection` send the calendar section to `renderStudyDiaryCalendar` (js/app.js:191-192, 643-644). `Projection.SessionsOnDate` and `Projection.CalendarDayEvents` model its per-day filter as written, for a view the application never shows. Its month grid, with April 2024 hard-coded, is not modelled.
- The course-filter drop-down (`populateCourseFilter`) and re-rendering after each change are left out.
- The hour-block sessions use a plain `String` comparison with `HH:00` labels. Hours are limited to two digits (below 100), which covers the 08 to 20 blocks.
- Object identity: two distinct session objects with equal fields are told apart by their position in the list, not by reference.
