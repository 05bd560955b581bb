# Learning-plan console: a Dafny model

This project models the logic of a small learning-plan ("course") management
console: a React front-end over a Spring/Mongo REST service. The model covers
the parts that compute something:

- **Weekly completion summary** (`WeeklySummary`): six Monday-aligned weeks,
  oldest first, with half-open buckets `[start_i, start_{i+1})`. The last
  bucket ends at `now`. Each completed plan with a valid completion date is
  counted in at most one bucket. `Aggregate` follows the source's nested loop
  with `break`. Its result is proved equal to an independent reference count
  `CountIn`, and the lemmas about the counts are stated over `CountIn`.
- **Plan form** (`CourseForm`): validation as an error map, the three edits of
  the `content`/`materials` lists, defaulting when a record is loaded for
  editing, and the submit decision (no request, one PUT, or one POST).
- **Record and service** (`CourseModel`, `CourseService`): the `Course` record
  with nullable fields as `Option`, its getters and setters, and the
  repository as a `map<CourseId, Course>`. The service operations are
  `create`, `update`, `archive`, `markCompleted`, `delete` and the `findAll`
  selection predicate. The relation "`completed` iff `completedDate` is
  present", which the chart relies on, is established by `markCompleted` and
  preserved by `update`, `archive` and `delete`. `create` preserves it only
  when the stored body satisfies it.
- **HTTP boundary** (`CourseApi`): query parameters as the views send them.
  It also covers how the controller binds them (`includeArchived` defaults to
  false, `subject` is never read) and how the list view's PATCH/DELETE
  requests reach the service.
- **List and gallery views** (`CourseList`, `CourseGallery`): the progress
  summary, parameter building, clearing filters, the confirm-guarded actions,
  and the 100-character summary excerpt.

Conventions:
- Instants are integer seconds counted from Monday 1970-01-05 00:00 local time.
  So `startOfWeek(t) = t - t % WEEK` and `subWeeks(t, i) = t - i * WEEK`.
- A `LocalDate` is a day number on the same epoch. `parseISO` of a date reads
  it as local midnight (`day * DAY`).
- The reference instant `now`, the server's `today`, the week-label formatter,
  the title regular-expression match, the ISO date parser and the id
  generator are all parameters.

Observations the model makes explicit:
- The edit form sends its "Mark as Completed" checkbox, but `update` does not
  copy `completed` (`CourseService.Update`: fields outside `Editable` keep
  their stored values). So that checkbox has no effect on the server.
- The list view sends a `subject` filter that the server never reads
  (`CourseList.SubjectFilterHasNoEffect`).
- A plan completed today is counted in the current week only once `now` is
  strictly after today's midnight (`WeeklySummary.CompletedTodayCountsThisWeek`).
- A `create` body that carries an id overwrites the record with that id
  (`CourseService.Create`).

## Model

| member | source | states |
|---|---|---|
| `Common.Trim` | CourseForm.js:93-95 | `trim()` yields the infix after the leading white space that neither starts nor ends with white space; it is empty exactly when the string is blank |
| `CourseModel.Set` | Course.java:54-92 | a setter makes its getter return the value set and leaves every other getter unchanged; in particular `completed` and `completedDate` are independent |
| `CourseModel.Extensionality` | Course.java:12-27 | two records whose fourteen getters agree are the same record |
| `CourseModel.Get` | Course.java:54-92 | each getter returns a value of its field's type (text, date, list or flag); together with `Set` and `Extensionality` the getters determine the record |
| `CourseModel.SetSet` | Course.java:54-92 | setting a field twice equals setting it once to the last value |
| `CourseModel.SetGet` | Course.java:54-92 | setting a field to its current value changes nothing |
| `CourseModel.NewCourse` | Course.java:25-29 | the no-argument constructor leaves every reference field null and both `completed` and `archived` false |
| `CourseModel.NewCourseWith` | Course.java:31-51 | the 10-argument constructor sets exactly the ten editable fields; id and completion date stay null, both flags stay false |
| `CourseService.FindAll` | CourseService.java:35-50 | the selection is a subset of the stored records; unless archived records are requested it contains none that is archived; with no filter and archived records included it is every stored record |
| `CourseService.Criteria` | CourseService.java:35-47 | at most four clauses: `archived is false` iff archived records are not requested, a title pattern iff the title filter is non-blank (with that pattern), a priority iff that filter is non-blank (with that value), a target date iff one is given (with that date) |
| `CourseService.Matches` | CourseService.java:35-50 | a record satisfies every built clause iff it is unarchived or archived records were requested, its title is present and matches an active title pattern, its priority equals an active priority filter, and its target date equals a given one |
| `CourseService.CriteriaConjunction` | CourseService.java:35-47 | the conjunction of the built clauses is equivalent to the filter-by-filter reading |
| `CourseService.FilterSemantics` | CourseService.java:35-47 | with no filter and archived records included, every record is selected; excluding archived records keeps exactly the unarchived ones; a blank or null title/priority filter selects the same records as no filter; an active title filter keeps exactly the records whose present title matches the pattern; an active priority filter keeps exactly those with that priority; a given target date keeps exactly those with that date |
| `CourseService.Create` | CourseService.java:60-62 | the stored record is the body with an id; a body without id gets a fresh key and the repository grows by one; a body with id replaces that key; no other record changes |
| `CourseService.Update` | CourseService.java:64-80 | fails exactly when the id is missing; otherwise exactly the ten editable fields come from the body and id, `completed`, `archived`, `completedDate` keep their stored values |
| `CourseService.Delete` | CourseService.java:83-85 | the id is absent afterwards, every other record is untouched, and deleting a missing id changes nothing |
| `CourseService.Archive` | CourseService.java:88-95 | fails exactly when the id is missing; otherwise sets `archived` and leaves every other field and record unchanged |
| `CourseService.ArchiveIdempotent` | CourseService.java:88-95 | archiving twice leaves the same repository as archiving once |
| `CourseService.MarkCompleted` | CourseService.java:99-108 | fails exactly when the id is missing; otherwise sets `completed` to the request, sets the date to today when completing and clears it otherwise, so the record is completion-consistent; nothing else changes |
| `CourseService.OperationsPreserveInvariants` | CourseService.java:60-108 | every operation keeps records filed under their own id and keeps `completed` iff `completedDate` present (create when its body does) |
| `CourseApi.ParseBool` | CourseController.java:35 | reading a boolean parameter inverts its text form and accepts nothing else |
| `CourseApi.BindQuery` | CourseController.java:29-44 | with no paging parameters, binding succeeds iff a non-empty `includeArchived` and a non-blank `targetDate` convert; `includeArchived` is true iff sent as `true` (absent or empty means false); `title`/`priorityLevel` are bound to the sent values, or null; `targetDate` is bound to the parsed date when non-blank, to null otherwise |
| `CourseApi.EmptyValuesBindToDefaults` | CourseController.java:32-35 | `includeArchived=` and `targetDate=` sent empty bind to `false` and `null`, whatever the date parser does with an empty string |
| `CourseApi.SubjectIsNotRead` | CourseController.java:29-35 | adding or removing a `subject` parameter never changes the bound query |
| `CourseApi.Serve` | CourseController.java:65-86 | no request leaves the repository unchanged; delete always succeeds with the repository `delete` leaves; archive and complete fail exactly on a missing id, and otherwise yield the repository `archive`/`markCompleted` (with the request's flag and today) leave |
| `WeeklySummary.StartOfWeek` | WeeklySummaryChart.js:13 | the week start is Monday-aligned and is the last Monday midnight at or before the instant |
| `WeeklySummary.SubWeeks` | WeeklySummaryChart.js:13 | going back `i` weeks keeps the weekday and time of day, never moves later for `i >= 0`, and moves the week start back exactly `i` weeks |
| `WeeklySummary.WeekStarts` | WeeklySummaryChart.js:12-15 | exactly six starts, Monday-aligned, each one week after the previous, the last being the start of the week containing `now` |
| `WeeklySummary.BucketsDisjoint` | WeeklySummaryChart.js:22-28 | a date lies in at most one bucket |
| `WeeklySummary.BucketsCoverWindow` | WeeklySummaryChart.js:22-25 | a date lies in some bucket iff it is at or after the oldest start and before `now` |
| `WeeklySummary.Aggregate` | WeeklySummaryChart.js:9-34 | six entries, each labelled with its week start, each count equal to the number of completed, dated plans dated in that bucket |
| `WeeklySummary.UndatedPlansIgnored` | WeeklySummaryChart.js:20-21 | plans not completed or without a valid date change no count |
| `WeeklySummary.AllUndatedAllZero` | WeeklySummaryChart.js:17-21 | if no plan is completed with a valid date, every count is zero |
| `WeeklySummary.OutsideWindowIgnored` | WeeklySummaryChart.js:24-25 | a date before the oldest start or at/after `now` scores in no bucket |
| `WeeklySummary.CountedInItsBucket` | WeeklySummaryChart.js:22-28 | a completed plan dated in the window scores in the bucket holding its date and only there |
| `WeeklySummary.TotalCountsWindowedPlans` | WeeklySummaryChart.js:19-31 | the six counts add up to the number of completed plans dated in the window, hence to at most the number of plans |
| `WeeklySummary.CountPermutationInvariant` | WeeklySummaryChart.js:19-31 | reordering the plans leaves every count unchanged |
| `WeeklySummary.PlanOf` | WeeklySummaryChart.js:20-21 | the chart sees a record's completion flag, and a completion date exactly when the record has one: the midnight starting that very day |
| `WeeklySummary.CompletedTodayCountsThisWeek` | WeeklySummaryChart.js:20-25 | a record just marked completed today is counted in the current week's bucket whenever `now` is later today |
| `WeeklySummary.MarchDates` | WeeklySummaryChart.js:21 | the ISO dates 2024-03-20, 2024-03-18 and 2024-01-01 parse to local midnight of days 19798, 19796 and 19719 of the model's clock |
| `WeeklySummary.MarchScenario` | WeeklySummaryChart.js:13-25 | with `now` at noon on Wednesday 2024-03-20 (day 19798), a plan done on 2024-03-18 (day 19796) is counted in the last bucket only and one done on 2024-01-01 (day 19719) in none |
| `CourseForm.SomeBlank` | CourseForm.js:101-104 | `some(c => !c.trim())` holds iff some element is blank |
| `CourseForm.Validate` | CourseForm.js:91-104 | title, summary, subject and duration are in error iff blank; target date, priority, category and level iff the empty string; content/materials have a single error iff some element is blank; messages are the source's |
| `CourseForm.CheckMeaning` | CourseForm.js:93-104 | each test `validate` applies, with `trim()` and `some`, is the data-model condition for that field: blank text, an empty selection, or a blank list element |
| `CourseForm.CompleteFailsNowhere` | CourseForm.js:105-106 | a form is complete exactly when no field is in error |
| `CourseForm.IsValid` | CourseForm.js:105-106 | validation passes iff the form is complete in the data model's sense (the error map is empty) |
| `CourseForm.EmptyForm` | CourseForm.js:21-33 | the create-mode form has every text field empty, one empty entry in each list and is not completed |
| `CourseForm.EmptyFormFailsEverywhere` | CourseForm.js:21-33 | the initial form, including its single empty section and link, fails on all ten fields |
| `CourseForm.ChangeItem` | CourseForm.js:74-80 | the list keeps its length, the index holds the new value, all other positions and fields are unchanged |
| `CourseForm.AddItem` | CourseForm.js:82-83 | one empty entry is appended after the unchanged prefix; nothing else changes |
| `CourseForm.FilterOut` | CourseForm.js:85-89 | filtering out index `idx` yields the list without exactly that position, order kept; an index outside the list removes nothing |
| `CourseForm.RemoveItem` | CourseForm.js:85-89 | removing drops exactly the given position and keeps order; an out-of-range index changes nothing; other fields unchanged |
| `CourseForm.EditsKeepListsNonEmpty` | CourseForm.js:329-337 | with removal offered only on lists longer than one, every edit keeps both lists non-empty |
| `CourseForm.ListOrBlank` | CourseForm.js:57-58 | a missing or empty list becomes one empty entry; a non-empty one is kept |
| `CourseForm.FromRecord` | CourseForm.js:48-60 | loading keeps each present scalar and turns each of the eight missing ones into the empty string; a missing `completed` becomes false; each list is kept when non-empty and becomes a single empty entry otherwise |
| `CourseForm.InitialStatesHaveNonEmptyLists` | CourseForm.js:21-33 | both the create-mode form and any loaded form start with non-empty lists |
| `CourseForm.MissingContentFailsValidation` | CourseForm.js:57-58 | a loaded record without content sections fails validation on `content` |
| `CourseForm.IsEdit` | CourseForm.js:39-40 | the form is in edit mode iff the route supplies a non-empty id (`Boolean` of a string) |
| `CourseForm.Submit` | CourseForm.js:109-125 | no request and a non-empty error map iff the form is incomplete; otherwise exactly one request carrying the form: PUT to the route id when editing, POST otherwise |
| `CourseForm.EmptyTitleBlocksSubmit` | CourseForm.js:91-112 | a form complete except for an empty title is blocked with the single title error |
| `CourseList.CompletedCount` | CourseList.js:45 | the number of completed plans is at most the total, zero iff none is completed and the total iff all are |
| `CourseList.CompletedCountAppend` | CourseList.js:45 | the count over a concatenation is the sum of the two counts |
| `CourseList.CompletedCountIsPositions` | CourseList.js:45 | the count equals the number of positions holding a completed plan |
| `CourseList.Percent` | CourseList.js:46 | 0 for an empty list; otherwise the nearest whole percentage (halves up); between 0 and 100, 0 when none and 100 when all are completed |
| `CourseList.ProgressOf` | CourseList.js:44-46 | the total is the list length; the completed count is the number of positions holding a completed plan; the percentage is `Percent` of the two, hence in 0..100, 0 when empty or none done, 100 when all done |
| `CourseList.FetchParams` | CourseList.js:23-28 | `includeArchived` always present with its value; each filter present iff non-empty, with its value; no other key |
| `CourseList.ClearedFilters` | CourseList.js:51-52 | clearing sets all three filters to the empty string |
| `CourseList.ClearedFiltersSendOnlyArchivedFlag` | CourseList.js:51-53 | the parameters built from the cleared filter state hold only `includeArchived` (the fetch `clearFilters` itself issues still reads the previous filters; see "Left out") |
| `CourseList.SubjectFilterHasNoEffect` | CourseList.js:25 | the subject filter never changes the server query; the archived flag arrives unchanged |
| `CourseList.ToggleComplete` | CourseList.js:55-60 | toggling always requests a completion PATCH for that id, asking for the opposite of the current state |
| `CourseList.ArchivePlan` | CourseList.js:61-65 | an archive PATCH for that id is issued iff the user confirms |
| `CourseList.DeletePlan` | CourseList.js:66-70 | a DELETE for that id is issued iff the user confirms |
| `CourseList.DeclinedActionsChangeNothing` | CourseList.js:61-70 | a declined archive or delete sends no request and leaves the repository unchanged |
| `CourseList.ConfirmedActionsApply` | CourseList.js:61-70 | a confirmed delete removes exactly that record; a confirmed archive hides it from the default listing and keeps every other record |
| `CourseList.ToggleTwice` | CourseList.js:55-60 | toggling requests the negation and leaves a consistent record; toggling again restores the flag, and restores an open consistent record exactly |
| `CourseGallery.FetchParams` | CourseGallery.js:24-27 | `title`/`priorityLevel` present iff non-empty, with their values; `includeArchived` never sent |
| `CourseGallery.ClearedFilters` | CourseGallery.js:44-45 | clearing sets the title and priority filters to the empty string |
| `CourseGallery.ClearedFiltersSendNothing` | CourseGallery.js:44-46 | after clearing, no parameters are sent |
| `CourseGallery.GalleryHidesArchived` | CourseGallery.js:24-27 | the gallery's query always binds with `includeArchived` false, so no archived record is listed |
| `CourseGallery.Excerpt` | CourseGallery.js:98-100 | a missing summary stays missing; at most 100 characters unchanged; longer ones become 100 characters plus an ellipsis (length 101); the shown text always starts with the first `min(100, length)` characters |

## Left out

- HTTP transport, React state and effects, JSX rendering, the chart
  library and routing (`App.js`) are I/O and UI plumbing. Requests are
  modelled only as which call is issued (`CourseForm.Submission`,
  `CourseApi.Request`).
- The clock is a parameter: `now` for the chart and `today` for
  `markCompleted`. Week labels (`format(weekStart, 'MMM d')`) are the
  parameter `format`. Time zones and daylight-saving shifts are not modelled.
- Mongo query mechanics are not modelled: pagination, sorting and `count`.
  The `Criteria` chain is modelled only as a list of clauses read as a
  conjunction.
- `CourseService.Matches`: the case-insensitive regex title match is the
  uninterpreted, total predicate `titleMatches`. In the source an invalid
  pattern (a title filter such as `(`) makes the query fail on the server.
  The model cannot express that failure: every title filter selects some
  set of records.
- `findById`/`getById`: the controller's `GET /{id}` is a plain lookup,
  and the form's edit load reads its answer. That answer is the starting
  point of `CourseForm.FromRecord`. `update`, `archive` and `markCompleted`
  look the record up themselves, modelled as `id in repo`.
- `CourseApi.BindQuery`: `page`, `size` and `sort` are assumed absent (no
  view sends them). Their conversion and range failures are not modelled:
  a non-numeric `page`/`size` (400), a `size` below 1 rejected by
  `PageRequest.of`, a `sort` without a comma that makes `sort[1]` throw,
  and an unknown sort direction.
- `CourseRepository.java` is replaced by the map. The id generator behind
  `create` is the parameter `freshId`, assumed unused.
- `CourseDetail.js` is presentation only.
- Out-of-order fetch responses are a concurrency race and are not modelled.
- The list's `clearFilters` calls `fetchPlans()` in the same handler, before
  React applies the new state, so that fetch still sends the previous
  filters. This scheduling is not modelled; only the cleared state and the
  parameters built from it are (`CourseList.ClearedFiltersSendOnlyArchivedFlag`).
- The form's generic `handleChange` for scalar inputs is not modelled. It
  is a one-field record update.
- The form's network-failure path (error banner, re-enable) is I/O.
- `CourseList.Percent`: uses exact rational round-half-up instead of
  floating-point `Math.round` of `completedCount / total * 100`. The two can
  differ only through floating-point error.
- `CourseGallery.Excerpt`: lengths and the 100-character cut count Unicode
  code points. JavaScript counts UTF-16 code units, so surrogate pairs are
  not modelled.
- `CourseApi.ParseBool`: accepts only `true`/`false`. These are the spellings
  the views send. Spring's other boolean spellings (`on`, `yes`, `1`, any
  letter case, surrounding white space) are not modelled.
- `CourseForm.ChangeItem`: requires an index inside the list. The UI only
  passes rendered positions. A JavaScript write past the end would create a
  sparse array, which is not modelled.
- List elements are strings. A `null` element inside `content`/`materials`
  would make the source's `trim()` throw, and this is not modelled.
