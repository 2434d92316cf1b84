# Start page: to-do list, background, clock and onboarding — a Dafny model

This project models the deterministic logic of a browser start page written in React:

- the **to-do panel** (`src/app/TodoList.tsx`): an ordered list of tasks (`id`, `text`,
  `completed`, `date`), the add / toggle / edit / delete handlers, the view of the tasks of
  the selected date, drag-and-drop reordering inside that view, and the weekly calendar strip;
- the **background rotator** (`src/app/Background.tsx`): the hour-to-period partition, the
  picture path drawn for a period, the two-slot storage cache, and the time until the next
  period begins;
- the **clock** (`src/app/Clock.tsx`): the `HH:MM:SS` formatter;
- the **onboarding wizard** (`src/app/Onboarding.tsx`): three steps capturing a nickname and a
  first task.

Everything is written as pure functions over immutable values. Time, the random draw, fresh
ids and the storage slots are passed in as parameters.

Modules:

| file | module | contents |
|---|---|---|
| `wrappers.dfy` | `Wrappers` | `Option` |
| `sequences.dfy` | `Sequences` | order-preserving filter (`Keep`), the two splices (`RemoveAt`, `InsertAt`), `Move`, and how filtering interacts with them |
| `decimal.dfy` | `Decimal` | `Number.prototype.toString` for naturals, `padStart(2, "0")`, reading digits back |
| `todo_list.dfy` | `TodoList` | tasks, `trim`, the list handlers, the date view, `findIndex`, `onDragEnd` |
| `week.dfy` | `Week` | week start, the seven dates of the strip, week navigation, over day numbers |
| `background.dfy` | `Background` | periods, picture paths, the cache rule, next boundary and timer delay |
| `clock.dfy` | `Clock` | `formatTime` and its inverse |
| `onboarding.dfy` | `Onboarding` | the wizard's states, clicks and completion |

The central result is about drag-and-drop. `onDragEnd` gets indices into the date view. It
finds the two tasks in the full list by id, then does a splice-remove and a splice-insert.
The model proves four things about it:

- the result is a permutation of the input;
- deleting the dragged task from the list before and after the drag gives the same list;
- with unique ids, the tasks of every other date keep their order;
- with unique ids, the new date view is exactly the standard list move of the old view from
  `source.index` to `destination.index`.

The proof goes through general facts about filtering across a splice (`Sequences.KeepMove`).

Behaviour of the code the model keeps:

- Adding rejects whitespace-only text, because the guard is `newTodo.trim() !== ""`. The
  stored text is the raw, untrimmed input.
- Saving an edit accepts the empty string.
- Nothing enforces unique ids. Properties that need them take them as a precondition.
- A drag with an out-of-range view index is not rejected. The code would throw (see
  `OnDragEnd` below).
- `TodoList.tsx` derives no top-priority task, so none is modelled.

## Model

| member | source | states |
|---|---|---|
| TodoList.Trim | src/app/TodoList.tsx:50 | `trim()` yields a slice of the input with non-whitespace at both ends, and everything cut off on either side is ECMAScript whitespace or a line terminator |
| TodoList.TrimEmptyIffBlank | src/app/TodoList.tsx:50 | the trimmed input is empty exactly when the input is whitespace only, so this is what the add guard tests |
| TodoList.AddTodo | src/app/TodoList.tsx:49-63 | blank input leaves the list and the input field as they are; otherwise exactly one task is appended (fresh id, raw untrimmed text, not completed, selected date), every earlier task is kept and the input is cleared |
| TodoList.AddShowsInView | src/app/TodoList.tsx:51-59 | after a successful add the new task is the last entry of the selected date's view, and every other date's view is unchanged |
| TodoList.AddKeepsIdsUnique | src/app/TodoList.tsx:54 | if the fresh id is not in use, ids stay unique after an add |
| TodoList.Toggle | src/app/TodoList.tsx:71-76 | the length stays the same, and id, text and date of every task are unchanged; `completed` flips on exactly the tasks whose id matches |
| TodoList.ToggleTwice | src/app/TodoList.tsx:71-76 | toggling the same id twice gives back the original list |
| TodoList.ToggleUnchangedIffAbsent | src/app/TodoList.tsx:71-76 | toggling leaves the list equal exactly when no task has the id |
| TodoList.ToggleCommutesWithView | src/app/TodoList.tsx:71-76 | the date view of the toggled list is the toggled date view |
| TodoList.SetText | src/app/TodoList.tsx:85-87 | `text` is replaced on exactly the tasks with the id; id, `completed` and date of every task are kept |
| TodoList.StartEditing | src/app/TodoList.tsx:78-81 | editing begins on the given id, with the given text in the edit box |
| TodoList.StartThenSave | src/app/TodoList.tsx:78-90 | saving right after starting to edit a task stores the edit text on the tasks with that id and ends the edit |
| TodoList.SaveEdit | src/app/TodoList.tsx:83-90 | with no edit in progress nothing changes; otherwise only `text` of the matching tasks becomes the edit text (no emptiness check) and the edit ends |
| TodoList.CancelEdit | src/app/TodoList.tsx:92-94 | the edit ends and the edit text is kept; the list is not an input |
| TodoList.SaveAfterCancel | src/app/TodoList.tsx:83-94 | saving after a cancel changes neither the list nor the edit state |
| TodoList.SaveEditAcceptsEmpty | src/app/TodoList.tsx:83-90 | saving an empty edit text stores `""` on the edited task |
| TodoList.Delete | src/app/TodoList.tsx:96-99 | the result holds no task with the id, and every other task occurs exactly as often as before |
| TodoList.DeleteIdempotent | src/app/TodoList.tsx:96-99 | deleting the same id twice is the same as deleting it once |
| TodoList.DeleteUnchangedIffAbsent | src/app/TodoList.tsx:96-99 | deleting leaves the list equal exactly when no task has the id |
| TodoList.DeleteIsFinal | src/app/TodoList.tsx:71-99 | after a delete, toggling or editing that id is a no-op, and unique ids stay unique |
| TodoList.FilterDate | src/app/TodoList.tsx:126-128 | the view holds only tasks of the selected date, each as often as in the list, and no others |
| TodoList.KeepUniqueIds | src/app/TodoList.tsx:126-128 | a filtered view of a list with unique ids has unique ids |
| TodoList.FindIndex | src/app/TodoList.tsx:135-140 | `findIndex` gives the first position holding the id, or -1 exactly when no task has it |
| TodoList.FindInView | src/app/TodoList.tsx:135-140 | with unique ids, the view entry at index `a` is found at the list position that has exactly `a` view tasks before it |
| TodoList.OnDragEnd | src/app/TodoList.tsx:130-147 | no destination returns the list unchanged; the result is absent exactly when a view index is out of range; otherwise it is a permutation of the list |
| TodoList.DragIsMove | src/app/TodoList.tsx:135-144 | with in-range view indices both `findIndex` calls find their task, and the drag is the move between the two positions found |
| TodoList.DragKeepsOthers | src/app/TodoList.tsx:142-144 | deleting the dragged task before and after the drag gives the same list, so all other tasks keep their relative order |
| TodoList.DragKeepsOtherDates | src/app/TodoList.tsx:130-147 | with unique ids, the tasks of the other dates are in the same order after the drag |
| TodoList.DragMovesInView | src/app/TodoList.tsx:130-147 | with unique ids, the new date view is the list move of the old view from the source index to the destination index, with the dragged task at the destination |
| Sequences.Keep | src/app/TodoList.tsx:97 | filtering never grows the list, and every kept element satisfies the predicate |
| Sequences.KeepCount | src/app/TodoList.tsx:97 | each qualifying element is kept as often as it occurs; all others are dropped |
| Sequences.KeepConcat | src/app/TodoList.tsx:126-128 | filtering distributes over concatenation, so it keeps relative order |
| Sequences.KeepAll | src/app/TodoList.tsx:97 | filtering returns the list itself exactly when every element qualifies |
| Sequences.KeepIdempotent | src/app/TodoList.tsx:97 | filtering twice with the same predicate is filtering once |
| Sequences.RemoveAt | src/app/TodoList.tsx:143 | `splice(i, 1)` shortens the list by one, keeps everything before `i`, shifts the rest down, and removes exactly one copy of the element at `i` |
| Sequences.InsertAt | src/app/TodoList.tsx:144 | `splice(j, 0, x)` puts `x` at `j`, keeps everything before it and shifts the rest up |
| Sequences.Move | src/app/TodoList.tsx:142-144 | removing then reinserting is a permutation, puts the moved element at `j`, and keeps every other element in order |
| Sequences.KeepRemoveAt | src/app/TodoList.tsx:143 | removing a non-qualifying element leaves the view alone; removing a qualifying one removes it from the view at its rank |
| Sequences.KeepInsertAt | src/app/TodoList.tsx:144 | inserting a non-qualifying element leaves the view alone; inserting a qualifying one inserts it into the view at the rank of the insertion point |
| Sequences.KeepMoveOther | src/app/TodoList.tsx:142-144 | moving a non-qualifying element leaves the view unchanged |
| Sequences.KeepMove | src/app/TodoList.tsx:142-144 | moving a qualifying element moves it inside the view, from the rank of its old position to the rank of the target |
| Week.Weekday | src/app/TodoList.tsx:41 | `getDay` over day numbers gives a weekday from 0 (Sunday) to 6 (Saturday) |
| Week.WeekdayIsGetDay | src/app/TodoList.tsx:41 | day 0, 1970-01-01, is a Thursday (4), and each next day is the next weekday, Saturday wrapping to Sunday |
| Week.WeekStart | src/app/TodoList.tsx:39-44 | the initial week start is a Monday, 0 to 6 days on or before today |
| Week.WeekStartUnique | src/app/TodoList.tsx:39-44 | it is the only Monday in those seven days |
| Week.WeekDates | src/app/TodoList.tsx:109-117 | the strip is seven consecutive days starting at the week start |
| Week.WeekDatesWeekdays | src/app/TodoList.tsx:109-117 | from a Monday the strip runs Monday through Sunday |
| Week.ChangeWeek | src/app/TodoList.tsx:101-107 | navigation shifts the start by exactly seven days per week and keeps its weekday |
| Week.ChangeWeekCompose | src/app/TodoList.tsx:101-107 | two navigations compose into one, and going back the same number of weeks returns to the start |
| Background.TimePeriod | src/app/Background.tsx:39-44 | total on hours: morning exactly for 6-11, afternoon for 12-17, evening for 18-21, night otherwise |
| Background.PeriodsLastFourHours | src/app/Background.tsx:39-44 | a period that begins at some hour lasts at least four hours around the clock |
| Background.FourHourPollSeesEveryPeriod | src/app/Background.tsx:94-95 | any period current between two checks four hours apart is current at one of the two checks |
| Background.PeriodName | src/app/Background.tsx:63 | the stored period key is never empty |
| Background.PeriodNameInjective | src/app/Background.tsx:54 | two periods have equal stored keys only when they are the same period |
| Background.Folder | src/app/Background.tsx:7-12 | every period has a non-empty picture folder |
| Background.ImageCount | src/app/Background.tsx:14-19 | every period has at least one picture |
| Background.RandomImage | src/app/Background.tsx:34-37 | the path is the folder, then `/image`, then digits, then `.jpg` |
| Background.RandomImageIndex | src/app/Background.tsx:34-37 | the digits in the file name read back as draw + 1, a picture number in `[1, count]` |
| Background.GetBackgroundImage | src/app/Background.tsx:46-65 | a cache hit returns the stored picture and writes nothing; a miss returns a fresh picture of the current period; either way storage ends up with the returned non-empty picture under the current period |
| Background.SecondCallIsCached | src/app/Background.tsx:54-56 | a second unforced call in the same period returns the same picture and leaves storage as it is |
| Background.NewPeriodRedraws | src/app/Background.tsx:54-64 | a picture stored under another period is never reused |
| Background.NextBoundary | src/app/Background.tsx:83-87 | the boundary is 6, 12, 18, 22 or 30 and lies after the current hour; every hour before it is in the current period, and at it a different period starts |
| Background.HourOf | src/app/Background.tsx:78 | `getHours` gives an hour from 0 to 23 |
| Background.SetHours | src/app/Background.tsx:83-87 | `setHours(h, 0, 0, 0)` moves the date to hour `h` of its day and returns that same whole-hour timestamp |
| Background.DelayAsWritten | src/app/Background.tsx:83-89 | as written, the computed delay is always 0 |
| Background.DelayAsWrittenAtHalfPastNine | src/app/Background.tsx:83-89 | at 09:30 the boundary is 12:00, yet the as-written delay is 0 while the intended one is 2.5 hours |
| Background.DelayUntilNextChange | src/app/Background.tsx:76-89 | the intended delay is positive and at most eight hours |
| Background.DelayReachesNextPeriod | src/app/Background.tsx:76-96 | after the intended delay the period has changed, and at every earlier moment it is still the starting period |
| Background.HourAfter | src/app/Background.tsx:78 | within two days, the hour `d` ms later is the hour count since midnight taken modulo 24 |
| Clock.FormatTime | src/app/Clock.tsx:19-25 | no time gives `00:00:00`; a valid time gives 8 characters, with `:` at indices 2 and 5 and each field the tens and units digit of its component |
| Clock.ValidLayout | src/app/Clock.tsx:21-24 | for a valid time the joined text is 8 characters, colons at indices 2 and 5, each field the tens and units digit of its component |
| Clock.ParseFormat | src/app/Clock.tsx:19-25 | reading the shown text back recovers hours, minutes and seconds |
| Clock.FormatInjective | src/app/Clock.tsx:19-25 | two valid times show the same text only when they are equal |
| Clock.NoTimeShowsMidnight | src/app/Clock.tsx:20 | before the first tick the clock shows the same text as midnight |
| Decimal.ToDecimal | src/app/Clock.tsx:21-23 | `toString` of a natural is a non-empty digit string, with no leading zero unless the value is 0, and one digit exactly below 10 |
| Decimal.ParseToDecimal | src/app/Clock.tsx:21-23 | reading the decimal text back gives the number |
| Decimal.ToDecimalInjective | src/app/Background.tsx:35-36 | different numbers are spelt differently |
| Decimal.PadStart | src/app/Clock.tsx:21-23 | `padStart(width, "0")` ends with the original text, preceded only by `'0'`s, at length `max(width, length)` |
| Decimal.TwoDigitsOf | src/app/Clock.tsx:21-23 | below 100 the padded text is the tens digit then the units digit, so values below 10 get a leading `'0'` |
| Decimal.ParseTwoDigits | src/app/Clock.tsx:21-23 | below 100 the padded text reads back as the number |
| Onboarding.Start | src/app/Onboarding.tsx:78-80 | the wizard starts on step 0 with nickname and to-do empty |
| Onboarding.HandleWelcomeNext | src/app/Onboarding.tsx:82-85 | records the name, moves to step 1, keeps the to-do |
| Onboarding.HandleTodoNext | src/app/Onboarding.tsx:87-90 | records the task, moves to step 2, keeps the nickname |
| Onboarding.Step | src/app/Onboarding.tsx:19-22 | a click never lowers the step; a non-empty click on the shown step's button runs that step's handler, and nothing else changes the state |
| Onboarding.RunConsistent | src/app/Onboarding.tsx:99-103 | from a consistent state every click sequence keeps the wizard consistent (each step past the first has non-empty captured input) and never moves backwards; what it captured was typed by some click |
| Onboarding.Complete | src/app/Onboarding.tsx:65-69 | completion is available exactly on the final step, and from a consistent state reports two non-empty strings |
| Onboarding.HappyPath | src/app/Onboarding.tsx:82-94 | typing a name, then a task, then finishing reports exactly that pair |
| Onboarding.CompletionReportsTypedPair | src/app/Onboarding.tsx:66-69 | any completion from the start reports a non-empty name typed at the welcome step and a non-empty task typed at the to-do step |
| Onboarding.WhitespaceNameAccepted | src/app/Onboarding.tsx:21 | a name of one space is captured: the button tests emptiness, not blankness |

## Findings

| source | as written | input that shows it | evidently intended | confidence | as-written member | corrected member |
|---|---|---|---|---|---|---|
| src/app/Background.tsx:83-89 | `nextChangeTime = new Date(now.setHours(...))` also moves `now` itself to the boundary, so `nextChangeTime.getTime() - now.getTime()` is always 0. The first timer fires at once, and the four-hourly checks then run from mount time, not from the boundary | mounting at 09:30: the next boundary is 12:00, but the computed delay is 0 ms instead of 9 000 000 ms | the delay from the moment of mounting to the next boundary | high; not executed | Background.DelayAsWritten | Background.DelayUntilNextChange |

The as-written delay is exhibited by `Background.DelayAsWrittenAtHalfPastNine`. The corrected
delay is proved to end exactly where the period first changes (`Background.DelayReachesNextPeriod`).
The pictures still change: `Background.FourHourPollSeesEveryPeriod` shows that four-hourly
checks from any starting hour observe every period. But a change can be noticed up to four
hours late.

## Left out

- JavaScript `Date`: time zones, daylight-saving shifts, `getDay`/`getDate`/`setDate`
  month overflow, and the UTC day of `toISOString` against the local day of the calendar
  strip. Days are whole day numbers, with day 0 a Thursday. Timestamps are milliseconds
  from local midnight of day 0. The `YYYY-MM-DD` date key is an opaque string.
- `isSelectedDate` and the mapping from a day number to its date key: the key is opaque. So
  clicking a strip day, which sets the selected date, is not modelled.
- Fresh ids (`Date.now().toString()`) are a parameter. Nothing makes them unique, so the
  drag properties that need uniqueness take it as a precondition.
- `Math.random` (floating point) is replaced by an integer draw in `[0, count)`.
- Timers: `setTimeout`/`setInterval` in the background and the clock. Only the delay
  computation and the period boundaries are modelled.
- Storage: only the two background slots (`backgroundImage`, `backgroundPeriod`). Saving the
  task list and the user name is not modelled.
- The `force` argument of `getBackgroundImage` is modelled, although no call site passes it:
  `updateBackground` calls `getBackgroundImage()` with no argument (`src/app/Background.tsx:69`).
- TodoList.OnDragEnd: an out-of-range view index makes the code throw a `TypeError` (or, on
  an empty list, splice in `undefined`). The model returns `None` with the list unchanged.
  The drag library never reports such indices.
- Clock.FormatTime: for components outside a valid time of day only the joining is
  modelled, nothing is stated. `Date` never reports such components.
- Onboarding: `handleOpenTodoList` is never called, because the final step receives
  `onComplete` directly. Both report the same `(nickname, todo)` pair. No source file
  consumes `OnboardingFlow`'s `onComplete`, so what happens to the pair is outside this model.
- Rendering, styles, icons and the drag-and-drop, checkbox, input and button components.
- `src/app/TodoPopup.tsx`, `src/app/page.tsx`, `src/app/TopPriority.tsx`,
  `src/app/GoogleSearch.tsx`, `src/app/Settings.tsx` and `src/app/clientLayout.tsx` are not
  part of this model. `TodoPopup.tsx` is a second panel: its week strip and its date
  filter go through the date-fns library, its mutations are callbacks into its parent,
  and its only local rule is a trim guard like the one modelled for `addTodo`. The others
  are a localStorage name gate, presentational or menu components, a search box and a
  hydration wrapper.
- TodoList.Trim: Dafny strings are sequences of Unicode scalar values, JavaScript strings
  sequences of UTF-16 code units. No modelled behaviour observes the difference: every
  character `trim` strips lies in the Basic Multilingual Plane, and the digits are ASCII.
