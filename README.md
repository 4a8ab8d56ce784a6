# Student Task Dashboard — state model

A Dafny model of the client-side state of the Student Task Dashboard page
(`src/pages/index.js`): the list of students and the selected student, that
student's task list, the "Add Student" and "Add Task" form inputs, the browser
storage the page writes through (`"people"` and `"tasks_<id>"` entries), the
lateness test, and the figures shown in the stat boxes and charts.

- `options.dfy` — `Option`, for values that may be absent (`null`, a missing
  storage entry, an empty date input).
- `text.dfy` — the JavaScript string behaviour the page relies on: `trim`
  (with ECMAScript's set of white-space and line-terminator characters) and
  the decimal numeral of an id, with a proof that distinct ids give distinct
  numerals.
- `tasks.dfy` — the `Task` record, the `updates` object (`Patch`), the
  lateness predicate and the two list transforms behind `updateTask`
  (`map` with an object spread) and `deleteTask` (`filter`).
- `metrics.dfy` — the `completed`, `late` and `pending` counts and the
  completion percentage.
- `dashboard.dfy` — the page as a class: its fields are the React state
  variables and the storage entries. Its methods are the event handlers
  (the buttons, a click on a student, typing in an input) and the two
  helpers `savePeople` and `saveTasks`. Each method's postcondition gives the
  whole new state (`State()`) in terms of the old one. Every handler, and
  `SaveTasks`, keeps `Valid()`: the student list equals the stored one, the
  selected student is on it, and the shown task list equals what is stored
  for that student. `SavePeople` replaces the student list with any list, so
  on its own it does not keep `Valid()`; `AddPerson` calls it with the old
  list plus one student, which does.

The admin PIN prompt (`checkAdmin`) is the `authorized` argument of each
mutating handler. `AddPerson` and `AddTask` also return `consulted`, which says
whether the prompt would have been shown. Validation comes first and `||`
short-circuits (`!name.trim() || !checkAdmin()`, `!taskName ||
!submissionDate || !checkAdmin()`), so a blank input never reaches the
prompt. Dates and the
clock are integers (instants). Task and student ids are the natural numbers
`Date.now()` would return. They are parameters, and they are not assumed to
be unique.

## Behaviour as written

Some of the code's behaviour is easy to misread. The model follows the code:

- The completion percentage counts only tasks done on time
  (`completed && !late`, line 101). A list whose only task was done late
  shows 0%, not 100% (`Metrics.AllLateIsZero`).
- `addTask` does not check that a student is selected. With none selected,
  the new task is kept in the page but not written to storage (`Persist`
  with `None`). The form is only rendered while a student is selected
  (line 139).
- `updateTask` does not check that a task with the id exists. It saves the
  unchanged list anyway (`Tasks.UpdateByIdAbsent`).
- A task name of only spaces is accepted. Only emptiness is tested for the
  task name, while the student name is trimmed.
- Ids are timestamps and can repeat. "Mark Done" then completes every task
  with the clicked task's id and stamps each with the clicked task's
  lateness (`Tasks.MarkDoneStamps`). A task that was already completed and
  shares that id has its `late` flag overwritten, so a late task can become
  on time (`Tasks.SharedIdOverwritesLate`). With distinct ids, no completed
  task has its `completed` or `late` field changed by "Mark Done" or
  "More"/"Less" ("More"/"Less" still flips its `showMore`), so its `late`
  flag stays as it was set (`Tasks.LateFrozenWithDistinctIds`,
  `Tasks.StatusChangesOnlyMatching`).

## Model

| member | source | states |
|---|---|---|
| `Text.TrimStart` | src/pages/index.js:65 | removes exactly the leading white space: the dropped prefix is blank and the result does not start with white space |
| `Text.TrimEnd` | src/pages/index.js:65 | removes exactly the trailing white space: the dropped suffix is blank and the result does not end with white space |
| `Text.Trim` | src/pages/index.js:65 | `name.trim()` is a slice of the name with only white space before and after it, and it neither starts nor ends with white space |
| `Text.TrimEmptyIffBlank` | src/pages/index.js:65 | `!name.trim()` holds exactly when every character of the name is white space |
| `Text.TrimKeepsInner` | src/pages/index.js:65-66 | a name with no white space at either end is kept by trimming |
| `Text.Decimal` | src/pages/index.js:37 | the numeral of an id is non-empty, made of digits, one digit exactly for ids below 10 |
| `Text.DecimalInjective` | src/pages/index.js:37 | distinct ids have distinct numerals |
| `Tasks.NewTask` | src/pages/index.js:76-84 | a new task carries the form's id, name, description and date, and is not completed, not late and collapsed |
| `Tasks.IsExpired` | src/pages/index.js:61-62 | a completed task is never expired; an open task is expired exactly when its due date is strictly before now |
| `Tasks.ExpiryBoundary` | src/pages/index.js:61-62 | a task is not expired at its due instant; an expired task stays expired as time advances; a completed task is never expired |
| `Tasks.Merge` | src/pages/index.js:93 | `{...t, ...updates}`: each field the updates give takes their value, every other field keeps the task's |
| `Tasks.MarkDonePatch` | src/pages/index.js:340-343 | the "Mark Done" updates give exactly `completed: true` and `late` equal to `isExpired` of the clicked task |
| `Tasks.ToggleMorePatch` | src/pages/index.js:325-327 | the "More"/"Less" updates give exactly `showMore` negated |
| `Tasks.MergeIdempotent` | src/pages/index.js:93 | spreading the same `updates` twice equals spreading them once |
| `Tasks.ToggleMoreTwice` | src/pages/index.js:322-331 | "More" flips `showMore`; "Less" afterwards restores the task |
| `Tasks.UpdateById` | src/pages/index.js:91-94 | same length and order; each task with the id gets the updates overlaid; every other task is unchanged |
| `Tasks.UpdateByIdAbsent` | src/pages/index.js:93 | updating an id no task carries leaves the list unchanged |
| `Tasks.UpdateByIdIdempotent` | src/pages/index.js:93 | sending the same update twice equals sending it once |
| `Tasks.MarkDoneStamps` | src/pages/index.js:337-344 | after "Mark Done" on an open task, each task with its id is completed and late exactly when the clicked task's due date was before now; the clicked task is no longer expired; other tasks are unchanged |
| `Tasks.StatusChangesOnlyMatching` | src/pages/index.js:91-94 | "More"/"Less" changes no task's `completed` or `late`; "Mark Done" changes them on no task whose id differs from the clicked one |
| `Tasks.LateFrozenWithDistinctIds` | src/pages/index.js:337-344 | with distinct ids, "Mark Done" on an open task leaves every completed task unchanged, so `late` is fixed once set |
| `Tasks.SharedIdOverwritesLate` | src/pages/index.js:337-344 | with a shared id, "Mark Done" on an open task re-stamps an already completed late task as on time |
| `Tasks.DoneNeverExpires` | src/pages/index.js:61-62 | a task marked done is not expired at any later time |
| `Tasks.RemoveById` | src/pages/index.js:96-99 | the result holds, with the same multiplicities, exactly the tasks whose id differs; its length drops by the number of matching tasks |
| `Tasks.RemoveByIdKeepsOrder` | src/pages/index.js:98 | the surviving tasks keep their original order (a subsequence) |
| `Tasks.RemoveByIdAbsent` | src/pages/index.js:98 | deleting an id no task carries leaves the list unchanged |
| `Tasks.RemoveByIdIdempotent` | src/pages/index.js:96-99 | deleting the same id twice equals deleting it once |
| `Tasks.RemoveByIdRemovesAll` | src/pages/index.js:98 | after deleting, no task with that id remains |
| `Metrics.Completed` | src/pages/index.js:101 | the on-time count is at most the list length, and 0 exactly when no task is completed and not late |
| `Metrics.Late` | src/pages/index.js:102 | the late count is at most the list length, and 0 exactly when no task is completed and late |
| `Metrics.Pending` | src/pages/index.js:103 | the pending count is at most the list length, and 0 exactly when every task is completed |
| `Metrics.CountsPartition` | src/pages/index.js:101-103 | on-time + late + pending equals the number of tasks |
| `Metrics.CountsAppend` | src/pages/index.js:101-103 | appending a task adds one to exactly the count of its status |
| `Metrics.NewTaskIsPending` | src/pages/index.js:74-85 | a task added by the form raises pending by one and leaves on-time and late as they were |
| `Metrics.ProgressPercent` | src/pages/index.js:111-112 | 0 for an empty list; always in 0..100; otherwise the on-time share times 100, rounded to nearest with halves up |
| `Metrics.RoundHalfUp` | src/pages/index.js:112 | `(2a + n) / (2n)` is `a / n` rounded half up, at most 100 when `a <= 100n` |
| `Metrics.AllOnTimeIsFull` | src/pages/index.js:101-112 | a non-empty list done entirely on time shows 100% |
| `Metrics.AllLateIsZero` | src/pages/index.js:101-112 | a list done entirely late counts all as late and none as on time or pending, and shows 0% |
| `Dashboard.TasksKeyInjective` | src/pages/index.js:54-57 | distinct students never share a `"tasks_<id>"` storage key |
| `Dashboard.TasksKey` | src/pages/index.js:57 | the key is `tasks_` followed by one or more digits, so it never collides with the `"people"` entry |
| `Dashboard.LoadPeople` | src/pages/index.js:30 | the stored student list is read back as written; an absent entry reads as empty |
| `Dashboard.LoadTasks` | src/pages/index.js:37 | the stored entry under the student's key is read back as written; an absent entry reads as empty |
| `Dashboard.WriteThenLoad` | src/pages/index.js:57 | writing one student's entry gives that list back for them and leaves every other student's entry as it was |
| `Dashboard.Persist` | src/pages/index.js:54-59 | after `saveTasks(list)` the selected student's list reads back as `list`; every other student's reads as before; with no student selected nothing is written |
| `Dashboard.DashboardPage.Mount` | src/pages/index.js:29-33 | the page loads the stored students (none if absent), selects the first and shows their stored tasks, with empty inputs |
| `Dashboard.DashboardPage.SelectPerson` | src/pages/index.js:35-39 | selects the student and shows their stored task list (empty if none); nothing else changes |
| `Dashboard.DashboardPage.SetName` | src/pages/index.js:128 | typing in the student-name input sets it; nothing else changes |
| `Dashboard.DashboardPage.SetTaskName` | src/pages/index.js:149 | typing in the task-name input sets it; nothing else changes |
| `Dashboard.DashboardPage.SetTaskDesc` | src/pages/index.js:155 | typing in the description input sets it; nothing else changes |
| `Dashboard.DashboardPage.SetSubmissionDate` | src/pages/index.js:161 | picking or clearing the date sets it; nothing else changes |
| `Dashboard.DashboardPage.SavePeople` | src/pages/index.js:49-52 | replaces the student list and writes it to the `"people"` entry; nothing else changes |
| `Dashboard.DashboardPage.SaveTasks` | src/pages/index.js:54-59 | replaces the task list; writes it under the selected student's key only if one is selected; keeps `Valid()` |
| `Dashboard.DashboardPage.AddPerson` | src/pages/index.js:64-70 | a blank name changes nothing and shows no prompt; a refused PIN changes nothing; otherwise appends the untrimmed name as a student, stores the list, clears the input and selects the new student |
| `Dashboard.DashboardPage.AddTask` | src/pages/index.js:72-89 | an empty name or date changes nothing and shows no prompt; a refused PIN changes nothing; otherwise appends one open, not-late, collapsed task, saves, and clears the three inputs |
| `Dashboard.DashboardPage.UpdateTask` | src/pages/index.js:91-94 | a refused PIN changes nothing; otherwise the list becomes `UpdateById` of it and is saved |
| `Dashboard.DashboardPage.DeleteTask` | src/pages/index.js:96-99 | a refused PIN changes nothing; otherwise the list becomes `RemoveById` of it and is saved |
| `Dashboard.DashboardPage.MarkDone` | src/pages/index.js:337-344 | only for an open task of the list; a refused PIN changes nothing; otherwise every task with its id is completed and late exactly when the clicked task's due date was before now; with distinct ids no completed task changes |
| `Dashboard.DashboardPage.ToggleMore` | src/pages/index.js:322-331 | a refused PIN changes nothing; otherwise the task's `showMore` flag is flipped through `updateTask` and saved |

## Left out

- The PIN dialog of `checkAdmin` (`prompt`, `alert`, the constant `"1234"`)
  is not modelled. Its answer is the `authorized` argument.
- The text encoding of storage (`JSON.stringify`/`JSON.parse`) and the
  `localStorage` API are not modelled. Storage is an `Option` for the
  `"people"` entry and a map for the `"tasks_<id>"` entries, and reading back
  what was written gives it unchanged.
- `Date.now()` is not modelled. New ids are parameters.
- `new Date(...)` parsing of the date input and the real clock are not
  modelled. Due dates and `now` are integers, and an empty date input is
  `None`. A due date stands for the instant `new Date("YYYY-MM-DD")` gives,
  which is midnight UTC at the start of the due day. So "Mark Done" clicked
  at any later time on the due day itself stamps `late: true`.
- Metrics.ProgressPercent: rounds the exact fraction, while `Math.round`
  works on the floating-point value of `completed / tasks.length * 100`. At
  exact halves the two can differ: 23 on-time tasks of 40 give 57 in the
  page and 58 in the model (57.49999999999999 before rounding).
- Deleting or renaming a student is not modelled. The trash icon calls
  `deletePerson` (line 227), which is not defined in this file.
- React's deferred state updates are not modelled, and neither are handlers
  that read state from an earlier render (such as `saveTasks` reading
  `selectedPerson`). Each handler is one atomic step on the current state.
- The empty state before the page's first effect runs is not modelled.
  `Mount` is the state after that effect.
- Rendering is not modelled: the cards, stat boxes, charts, icons, CSS
  classes and the 35-character cut of descriptions. Only the handlers those
  buttons call are modelled.
