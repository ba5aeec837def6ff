/**
 * The application's module-level state and its button handlers, stripped of
 * the dialogs: `tasks_data` (three fields) and the rows of `task_listbox`,
 * changed in place by `add_task`, `remove_task` and `toggle_task`, each of
 * which redraws the listbox with `update_task_list` after a change. The
 * answers the handlers read from dialogs, the microphone and the clock are
 * parameters.
 */
module App {
  import opened Wrappers
  import opened Text
  import opened TaskStore
  import opened Display

  /**
   * How `toggle_task` ends: a flipped record, no record with that text (it
   * then returns quietly, with no warning), or `IndexError` from the split.
   */
  datatype ToggleOutcome = Flipped(index: nat) | NotFound | SelectionError

  class TodoApp {
    var tasks: seq<Task>
    var activity: map<string, int>
    var reminders: map<string, string>
    /** The rows of the task listbox, top to bottom. */
    var listbox: seq<string>

    /** `tasks_data` as a value. */
    function Model(): Store
      reads this
    {
      Store(tasks, activity, reminders)
    }

    /** The listbox shows the task list, one row per task. */
    ghost predicate Valid()
      reads this
    {
      listbox == Lines(tasks)
    }

    /**
     * Start-up: `tasks_data = load_tasks()` and the first `update_task_list()`.
     * `file` is what the store file holds, `None` when it does not exist.
     */
    constructor (file: Option<Store>)
      ensures Valid()
      ensures file.Some? ==> Model() == file.value
      ensures file.None? ==> Model() == DefaultStore()
    {
      var loaded := if file.Some? then file.value else DefaultStore();
      tasks := loaded.tasks;
      activity := loaded.activity;
      reminders := loaded.reminders;
      listbox := [];
      new;
      UpdateTaskList();
    }

    /** `update_task_list`: clear the listbox and insert one line per task, in order. */
    method UpdateTaskList()
      modifies this`listbox
      ensures Valid()
      ensures |listbox| == |tasks|
      ensures forall k :: 0 <= k < |tasks| ==> listbox[k] == DisplayLine(tasks[k])
    {
      listbox := [];
      for k := 0 to |tasks|
        invariant |listbox| == k
        invariant forall j :: 0 <= j < k ==> listbox[j] == DisplayLine(tasks[j])
      {
        listbox := listbox + [DisplayLine(tasks[k])];
      }
    }

    /**
     * `add_task` with the text already obtained (typed, or recognised speech
     * when the dialog was cancelled), the category and reminder answers and
     * today's date. Returns whether the guard let the text through.
     */
    method AddTask(text: string, category: Option<string>, reminderTime: Option<string>, today: string)
      returns (accepted: bool)
      requires Valid()
      modifies this
      ensures Valid()
      ensures accepted == Accepts(text)
      ensures Model() == Added(old(Model()), text, category, reminderTime, today)
      ensures !accepted ==> listbox == old(listbox)
    {
      accepted := text != "" && Lower(text) != Unintelligible;
      if !accepted {
        return;
      }
      var chosen := if category.Some? && category.value != "" then category.value else DefaultCategory;
      tasks := tasks + [Task(text, chosen, false)];
      var count := if today in activity then activity[today] else 0;
      activity := activity[today := count + 1];
      if reminderTime.Some? && reminderTime.value != "" {
        reminders := reminders[text := reminderTime.value];
      }
      UpdateTaskList();
    }

    /**
     * `remove_task` for the user's answer `text`: scan for the first task
     * equal to it ignoring case, delete it, pop the reminder keyed by `text`
     * and redraw. Returns false where `remove_task` shows "Task not found".
     * (`list.remove(t)` deletes the first record equal to `t`; every earlier
     * record failed the match, so that is the one at the scan position.)
     */
    method RemoveTask(text: string) returns (found: bool)
      requires Valid()
      modifies this
      ensures Valid()
      ensures found == FindFolded(old(tasks), text).Some?
      ensures Model() == Removed(old(Model()), text)
      ensures !found ==> listbox == old(listbox)
    {
      var folded := Lower(text);
      for i := 0 to |tasks|
        invariant Model() == old(Model()) && listbox == old(listbox)
        invariant forall j :: 0 <= j < i ==> !FoldEq(tasks[j].task, text)
      {
        if Lower(tasks[i].task) == folded {
          tasks := tasks[..i] + tasks[i + 1..];
          reminders := reminders - {text};
          UpdateTaskList();
          return true;
        }
      }
      return false;
    }

    /**
     * `toggle_task` for `selected`, the listbox's active row ("" when the
     * listbox is empty): take field 1 of the row split on " | ", then flip
     * the first task whose text is exactly that field and redraw.
     */
    method ToggleTask(selected: string) returns (outcome: ToggleOutcome)
      requires Valid()
      modifies this
      ensures Valid()
      ensures SelectedText(selected).None? ==> outcome == SelectionError && Model() == old(Model())
      ensures SelectedText(selected).Some? ==>
        && Model() == Toggled(old(Model()), SelectedText(selected).value)
        && (outcome == NotFound <==> FindExact(old(tasks), SelectedText(selected).value).None?)
        && (outcome.Flipped? ==> FindExact(old(tasks), SelectedText(selected).value) == Some(outcome.index))
      ensures SelectedText(selected).Some? && FindExact(old(tasks), SelectedText(selected).value).Some? ==>
        outcome == Flipped(FindExact(old(tasks), SelectedText(selected).value).value)
      ensures outcome.SelectionError? || outcome.NotFound? ==> listbox == old(listbox)
    {
      var fields := Split(selected, Separator);
      if |fields| < 2 {
        return SelectionError;
      }
      var text := fields[1];
      for i := 0 to |tasks|
        invariant Model() == old(Model()) && listbox == old(listbox)
        invariant forall j :: 0 <= j < i ==> tasks[j].task != text
      {
        if tasks[i].task == text {
          tasks := tasks[i := tasks[i].(completed := !tasks[i].completed)];
          UpdateTaskList();
          return Flipped(i);
        }
      }
      return NotFound;
    }
  }
}
