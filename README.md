# AI To-Do Tracker: the task store, modelled in Dafny

The application keeps one global store, `tasks_data`, with three parts: a list
of `{task, category, completed}` records, an `activity` map from a
`YYYY-MM-DD` date to the number of tasks added that day, and a `reminders` map
from task text to an `HH:MM` string. Three button handlers change it in place:

- `add_task` guards the text, appends a record, bumps today's counter and
  may record a reminder.
- `remove_task` deletes the first record whose text matches ignoring case,
  and pops the reminder under the caller's exact text.
- `toggle_task` cuts the task text out of the selected listbox row and flips
  `completed` on the first record with exactly that text.

After each change, `update_task_list` rebuilds the listbox. Three parts only
read the store: `update_task_list` itself, the chart series of `show_graph`,
and one pass of the reminder loop. The AI suggestion does not touch the store
at all: its prompt is built from the category dialog's answer alone.

The model has these modules:

- `Text` (text.dfy): the two Python string operations the code uses,
  `str.lower` on ASCII and `str.split(sep)`. The code calls no find and no
  join: `FindFrom`, `Find` and `Join` serve only to specify what `split` does.
- `TaskStore` (task_store.dfy): the records and the store as datatypes. Each
  handler is a function from the old store to the new one (`Added`,
  `Removed`, `Toggled`). The lemmas relate these functions to each other.
- `Display` (display.dfy): the listbox row format, and what splitting a
  row on `" | "` gives back.
- `Chart` (chart.dfy): Python's string order, `sorted` on the date keys, and
  the aligned series.
- `Reminders` (reminders.dfy): the set of tasks one reminder pass notifies.
- `Suggest` (suggest.dfy): the prompt sent for a category answer.
- `App` (app.dfy): the class `TodoApp`, which holds the same state as mutable
  fields, plus the listbox rows. Its methods run the handlers' loops in place.
  Each method is proved to produce the store that the matching `TaskStore`
  function specifies, and to keep the listbox in step with the task list.

The handlers get their input from dialogs, the microphone and the clock.
In the model these inputs are parameters: the task text after the
speech fallback, the category answer (`None` if cancelled), the reminder
answer, `today`, `now`, and the text of the active listbox row.

Four behaviours of the code are easy to misread, and the model follows the code:

- `load_tasks` falls back to the empty store only when the file does not
  exist (`FileNotFoundError`). An unreadable or corrupt file raises.
- `remove_task` pops only the reminder keyed by the caller's exact text, so
  a reminder stored under another casing of the removed task's text survives
  (`TaskStore.RemoveKeepsDifferentlyCasedReminder`).
- `toggle_task` matches case-sensitively, on text recovered from the display
  row. The recovered text equals the task's text exactly when the text
  followed by `" |"` contains no `" | "`. So a text that contains `" | "`, or that
  ends in `" |"`, is cut short (`Display.DisplayLineFields`).
- `toggle_task` with no matching record returns without any warning, unlike
  `remove_task`; the model reports this as the `NotFound` outcome.

## Model

| member | source | states |
|---|---|---|
| TaskStore.DefaultStore | app.py:20-25 | the store used when the file is missing has no tasks, no activity and no reminders |
| TaskStore.Accepts | app.py:75 | the guard of `add_task`: the text is non-empty and its lowercase form is not "could not understand" |
| TaskStore.AcceptsIgnoresCase | app.py:75 | the guard rejects exactly the empty text and the texts equal to "could not understand" ignoring case, so two texts equal ignoring case are accepted alike |
| TaskStore.CategoryOr | app.py:76 | a cancelled or empty category answer becomes "General"; any other answer is kept as typed |
| TaskStore.Count | app.py:81 | `activity.get(today, 0)`: the date's stored count, 0 when the date is absent |
| TaskStore.Added | app.py:70-87 | a rejected text (empty, or "could not understand" in any casing) leaves the store unchanged; an accepted one appends exactly one record `(text, category or "General", false)` after the unchanged earlier records, sets today's count to its old value (0 if absent) plus 1 and leaves every other date's count alone, and records `text -> time` only for a non-empty reminder time |
| TaskStore.FoldEq | app.py:96 | the match test of `remove_task`: the two texts are equal after `Lower` on both sides, so they have the same length |
| TaskStore.FindFolded | app.py:95-96 | the index found is the first record whose lowercased text equals the lowercased input; none means no record matches |
| TaskStore.Removed | app.py:95-103 | with a match, exactly the first matching record is deleted, the other records keep their order, and the reminder under the exact input is dropped; with no match the store is unchanged; activity never changes |
| TaskStore.FindExact | app.py:108-109 | the index found is the first record whose text is exactly the input; none means no record has that text |
| TaskStore.Flip | app.py:110 | `completed` negated, the record's text and category kept |
| TaskStore.Toggled | app.py:108-113 | only the first exact match has `completed` negated; texts, categories, every other record, activity and reminders are unchanged; no match changes nothing |
| TaskStore.ToggleTwice | app.py:106-113 | toggling the same text twice gives back the original store |
| TaskStore.AddThenRemove | app.py:79-98 | removing, by the same text, a task just added to a store where nothing matched it restores the task list and leaves no reminder under that text, while today's count keeps the increment |
| TaskStore.RemoveKeepsDifferentlyCasedReminder | app.py:96-98 | removing "buy milk" deletes the task "Buy milk", but the reminder stored under "Buy milk" survives |
| TaskStore.AddThenRemoveScenario | app.py:75-98 | from the empty store, adding "Buy milk" in "Personal" with no reminder gives one record and `activity[today] == 1`; removing "buy milk" then leaves no task and no reminder for it |
| Text.LowerChar | app.py:75 | `str.lower` on one character: A to Z become a to z, every other character is unchanged (ASCII only, see Left out), and the result is never an uppercase ASCII letter |
| Text.Lower | app.py:96 | `str.lower` on a string: same length, each character lowered by `LowerChar` at the same position |
| Text.LowerIdempotent | app.py:96 | lowering an already lowered text changes nothing |
| Text.FindFrom | app.py:107 | the index found is the leftmost occurrence of the separator at or after the start; none means there is no such occurrence |
| Text.Find | app.py:107 | an occurrence is found exactly when the string contains the separator, and it is the leftmost one |
| Text.Split | app.py:107 | `str.split(sep)` gives at least one field, no field contains the separator, every cut is at the leftmost occurrence (no separator starts inside a field and runs into the next cut), and joining the fields with the separator gives back the string |
| Text.SplitOverlappingSeparators | app.py:107 | with self-overlapping separators the cuts are leftmost first: splitting space-bar-space-bar-space on the separator gives an empty field and then bar-space |
| Display.StatusMark | app.py:119 | the status is U+2714 (heavy check mark) exactly for a completed task and U+274C (cross mark) exactly for an open one, never a space |
| Display.DisplayLine | app.py:120 | the row of the f-string: status mark, separator, text, separator, category, so it starts with the status mark and is seven characters longer than text and category together |
| Display.Lines | app.py:117-120 | the listbox rows for a task list: one row per task, in list order, each the task's `DisplayLine` |
| Display.SelectedText | app.py:107 | field 1 of the split exists exactly when the row contains the separator (space, bar, space), otherwise Python raises `IndexError`; the field itself contains no separator |
| Display.DisplayLineFields | app.py:117-120 | a displayed row always splits into at least two fields and the first is the status mark; field 1 equals the task's text exactly when the text followed by a space and a bar contains no separator (so the text neither contains the separator nor ends in space-bar), and then the later fields join back to the category |
| Display.SplitAfterMark | app.py:119-120 | the first separator of a row is the one right after the one-character status mark |
| Display.FirstSeparatorOfRest | app.py:120 | in text, separator, category the first separator starts right after the text exactly when the text followed by space-bar holds none, and earlier otherwise |
| Display.ToggleDisplayedLine | app.py:106-120 | toggling the row drawn for task `k` flips exactly task `k` when its text survives the split and no earlier task has the same text |
| Chart.SortedKeys | app.py:124 | `sorted` of the dates lists every date exactly once, in strictly ascending Python string order |
| Chart.SortedUnique | app.py:124 | two strictly ascending lists with the same elements are equal, so the chart's dates are the one sorted order of the activity dates |
| Chart.ProductivitySeries | app.py:124-125 | the x-values are the activity dates in ascending order, and each y-value is its date's count, so both lists have the length of the activity map |
| Chart.SeriesAfterAdd | app.py:80-81 | after an accepted add the chart has a point for today whose count is one more than before, and gains a point only if today had none |
| Chart.LexLess | app.py:124 | Python's `<` on strings, which `sorted` uses: a proper prefix comes first |
| Chart.LexFirstDifference | app.py:124 | where two strings first differ, the one with the smaller code point there is the smaller string |
| Chart.LexTotal | app.py:124 | any two different strings are ordered one way or the other by Python's `<` |
| Reminders.Due | app.py:139-141 | a pass notifies exactly the tasks whose stored time string equals `now` |
| Reminders.NothingDueInDefaultStore | app.py:25 | with the default store no reminder fires |
| Reminders.DueAfterAdd | app.py:83-84 | after an accepted add the added text is due exactly when its non-empty reminder time equals `now` (or, with no reminder given, when it was already due); every other task is due as before |
| Reminders.DueAfterRemove | app.py:98 | after a matched remove the exact input text is no longer due and everything else is due as before; after an unmatched remove the due set is unchanged |
| Suggest.SuggestionPrompt | app.py:36-40 | the prompt is the fixed prefix, the category ("General" for a cancelled or empty answer) and the fixed suffix |
| App.TodoApp.constructor | app.py:20-27 | start-up holds the loaded store, or the empty store when the file is missing, and the listbox shows it |
| App.TodoApp.UpdateTaskList | app.py:116-120 | the listbox holds one row per task, in list order: the status mark (check mark when completed, cross mark otherwise), the text and the category, joined by the separator |
| App.TodoApp.AddTask | app.py:70-87 | the new store is `Added` of the old one, the result says whether the guard passed, and the listbox shows the new list (unchanged when rejected) |
| App.TodoApp.RemoveTask | app.py:90-103 | the new store is `Removed` of the old one, the result says whether a record matched, and the listbox shows the new list (unchanged when not found) |
| App.TodoApp.ToggleTask | app.py:106-113 | a row without the separator raises `IndexError` and changes nothing; otherwise the new store is `Toggled` for field 1, the outcome names the flipped index or says none matched, and the listbox shows the new list |

## Left out

- The tkinter window, its widgets and the `simpledialog`/`messagebox` prompts and warnings. These are UI. The answers a user gives are parameters, and the "not found" warning is the `false` result of `RemoveTask`.
- Speech-to-text, text-to-speech and audio playback. These are remote services and hardware. The text that `speech_to_text` returns, including its sentinels, is part of the task-text parameter.
- The Gemini call and the display and speaking of its answer. This is a foreign network API. Only the prompt string is modelled.
- The matplotlib drawing and the plyer notification call. These are foreign libraries. Only the series and the set of notified tasks are modelled.
- Reading and writing `tasks.json`. This is file I/O. The constructor takes the file's content as a parameter (`None` for a missing file), and `save_tasks` is not modelled. A corrupt file, which makes `json.load` raise, is not modelled.
- The reminder thread, its `while True` loop and `time.sleep(60)`. These are concurrency and wall-clock time. The thread starts at module load, before the window exists, and its loop dies after one pass. In `send_reminders` the `for` target `time` makes `time` a local name. When `reminders` is non-empty, `time.sleep` is called on a string and raises `AttributeError`. When it is empty, as in the default store on a first launch, the loop never binds `time`, so `time.sleep` raises `UnboundLocalError`. Only one pass, `Reminders.Due`, is modelled.
- Reminders.DueAfterAdd: describes the pass that would run after an add. The program never runs it, because its only pass happens at start-up, before any handler can run.
- Reminders.DueAfterRemove: describes the pass that would run after a remove. The program never runs it, for the same reason.
- Reminders.Due: returns the set of notified tasks, not the order of the notifications. That order is the dict's insertion order, which the `map` does not keep.
- Text.LowerChar, Text.Lower: lowercase ASCII letters only. Python's `str.lower` also lowercases other Unicode letters (the model keeps `É`, which Python turns into `é`), so the case-insensitive match of `remove_task` is modelled only for ASCII text.
- Reading `datetime.date.today()` and `datetime.now()`. These come in as the strings `today` and `now`.
- `toggle_task`'s `task_listbox.get(tk.ACTIVE)`. The listbox's choice of the active row comes in as the text of that row (`""` for an empty listbox).
