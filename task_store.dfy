/**
 * The in-memory task store `tasks_data` of the to-do application, as a value:
 * a list of task records, a per-date activity counter and a reminder map.
 * Each operation of the application is given here as a function from the old
 * store to the new one; the class in module App runs the same operations in
 * place and is proved against these functions.
 */
module TaskStore {
  import opened Wrappers
  import opened Text

  /** One `{"task", "category", "completed"}` record. */
  datatype Task = Task(task: string, category: string, completed: bool)

  /**
   * `tasks_data`: the task list, `activity` from a `YYYY-MM-DD` date to the
   * number of tasks added that day, `reminders` from task text to `HH:MM`.
   */
  datatype Store = Store(tasks: seq<Task>, activity: map<string, int>, reminders: map<string, string>)

  /** The store `load_tasks` returns when the file does not exist. */
  function DefaultStore(): (s: Store)
    ensures |s.tasks| == 0 && |s.activity| == 0 && |s.reminders| == 0
  {
    Store([], map[], map[])
  }

  /** The sentinel `speech_to_text` returns for an utterance it could not recognise, lower-cased. */
  const Unintelligible := "could not understand"

  /** The category used when the dialog is cancelled or left empty. */
  const DefaultCategory := "General"

  /** The guard of `add_task`: the text is non-empty and is not the "could not understand" sentinel in any casing. */
  predicate Accepts(text: string)
  {
    text != "" && Lower(text) != Unintelligible
  }

  /**
   * The guard rejects exactly the empty text and the texts equal to the
   * sentinel ignoring case, so two texts equal ignoring case are accepted alike.
   */
  lemma AcceptsIgnoresCase(a: string, b: string)
    ensures Accepts(a) <==> |a| > 0 && !FoldEq(a, Unintelligible)
    ensures FoldEq(a, b) ==> Accepts(a) == Accepts(b)
  {
    SentinelIsLowerCase();
    if FoldEq(a, b) {
      assert |Lower(a)| == |a| && |Lower(b)| == |b|;
    }
  }

  /** The sentinel is already in lower case. */
  lemma SentinelIsLowerCase()
    ensures Lower(Unintelligible) == Unintelligible
  {
    forall i | 0 <= i < |Unintelligible|
      ensures !('A' <= Unintelligible[i] <= 'Z')
    {
    }
    LowerOfLowerCase(Unintelligible);
  }

  /** `askstring(...) or "General"`: an empty or cancelled answer becomes "General". */
  function CategoryOr(answer: Option<string>): (r: string)
    ensures r != ""
    ensures answer.Some? && answer.value != "" ==> r == answer.value
    ensures answer.None? || answer.value == "" ==> r == DefaultCategory
  {
    if answer.Some? && answer.value != "" then answer.value else DefaultCategory
  }

  /** `activity.get(day, 0)`. */
  function Count(activity: map<string, int>, day: string): (r: int)
    ensures day in activity ==> r == activity[day]
    ensures day !in activity ==> r == 0
  {
    if day in activity then activity[day] else 0
  }

  /**
   * `add_task` once the dialogs are answered: `text` is the task text,
   * `category` and `reminderTime` the (possibly cancelled) answers, `today`
   * the current date. A rejected text leaves the store as it was; an accepted
   * one appends one record, bumps today's count and records a non-empty reminder.
   */
  function Added(s: Store, text: string, category: Option<string>, reminderTime: Option<string>, today: string): (r: Store)
    ensures !Accepts(text) ==> r == s
    ensures Accepts(text) ==>
      && |r.tasks| == |s.tasks| + 1
      && r.tasks[..|s.tasks|] == s.tasks
      && r.tasks[|s.tasks|] == Task(text, CategoryOr(category), false)
    ensures Accepts(text) ==>
      && r.activity.Keys == s.activity.Keys + {today}
      && r.activity[today] == Count(s.activity, today) + 1
      && forall d :: d in s.activity && d != today ==> r.activity[d] == s.activity[d]
    ensures Accepts(text) && reminderTime.Some? && reminderTime.value != "" ==>
      r.reminders == s.reminders[text := reminderTime.value]
    ensures Accepts(text) && (reminderTime.None? || reminderTime.value == "") ==>
      r.reminders == s.reminders
  {
    if !Accepts(text) then s
    else
      var reminders :=
        if reminderTime.Some? && reminderTime.value != "" then s.reminders[text := reminderTime.value]
        else s.reminders;
      Store(s.tasks + [Task(text, CategoryOr(category), false)],
            s.activity[today := Count(s.activity, today) + 1],
            reminders)
  }

  /** The matching test of `remove_task`: equal after lower-casing. */
  predicate FoldEq(a: string, b: string)
    ensures FoldEq(a, b) ==> |a| == |b|
  {
    Lower(a) == Lower(b)
  }

  /** The index of the first task whose text equals `text` ignoring case. */
  function FindFolded(tasks: seq<Task>, text: string): (r: Option<nat>)
    ensures r.Some? ==> r.value < |tasks| && FoldEq(tasks[r.value].task, text)
    ensures r.Some? ==> forall j :: 0 <= j < r.value ==> !FoldEq(tasks[j].task, text)
    ensures r.None? ==> forall j :: 0 <= j < |tasks| ==> !FoldEq(tasks[j].task, text)
  {
    if tasks == [] then None
    else if FoldEq(tasks[0].task, text) then Some(0)
    else match FindFolded(tasks[1..], text)
      case None => None
      case Some(i) => Some(i + 1)
  }

  /**
   * `remove_task` with `text` as the user's answer: the first task matching
   * ignoring case is deleted and the reminder keyed by `text` itself (exact
   * casing) is dropped. Without a match nothing changes. Activity is never touched.
   */
  function Removed(s: Store, text: string): (r: Store)
    ensures r.activity == s.activity
    ensures (forall j :: 0 <= j < |s.tasks| ==> !FoldEq(s.tasks[j].task, text)) ==> r == s
    ensures forall i :: 0 <= i < |s.tasks| && FoldEq(s.tasks[i].task, text)
                        && (forall j :: 0 <= j < i ==> !FoldEq(s.tasks[j].task, text)) ==>
      && r.tasks == s.tasks[..i] + s.tasks[i + 1..]
      && r.reminders == s.reminders - {text}
  {
    match FindFolded(s.tasks, text)
    case None => s
    case Some(i) => Store(s.tasks[..i] + s.tasks[i + 1..], s.activity, s.reminders - {text})
  }

  /** The index of the first task whose text is exactly `text`. */
  function FindExact(tasks: seq<Task>, text: string): (r: Option<nat>)
    ensures r.Some? ==> r.value < |tasks| && tasks[r.value].task == text
    ensures r.Some? ==> forall j :: 0 <= j < r.value ==> tasks[j].task != text
    ensures r.None? ==> forall j :: 0 <= j < |tasks| ==> tasks[j].task != text
  {
    if tasks == [] then None
    else if tasks[0].task == text then Some(0)
    else match FindExact(tasks[1..], text)
      case None => None
      case Some(i) => Some(i + 1)
  }

  /** `completed` negated, everything else of the record kept. */
  function Flip(t: Task): (r: Task)
    ensures r.task == t.task && r.category == t.category
    ensures r.completed == !t.completed
  {
    t.(completed := !t.completed)
  }

  /**
   * The search-and-flip of `toggle_task` for the recovered text `text`: the
   * first task with exactly that text has its `completed` flag negated;
   * every other record and field is kept, and without a match nothing changes.
   */
  function Toggled(s: Store, text: string): (r: Store)
    ensures r.activity == s.activity && r.reminders == s.reminders
    ensures |r.tasks| == |s.tasks|
    ensures forall k :: 0 <= k < |s.tasks| ==>
      && r.tasks[k].task == s.tasks[k].task
      && r.tasks[k].category == s.tasks[k].category
    ensures forall k :: 0 <= k < |s.tasks| ==>
      r.tasks[k].completed == (s.tasks[k].completed != (FindExact(s.tasks, text) == Some(k)))
  {
    match FindExact(s.tasks, text)
    case None => s
    case Some(i) => s.(tasks := s.tasks[i := Flip(s.tasks[i])])
  }

  /** Toggling the same text twice gives back the original store. */
  lemma ToggleTwice(s: Store, text: string)
    ensures Toggled(Toggled(s, text), text) == s
  {
  }

  /**
   * Removing, by the same text, a task just added to a store with no task
   * matching it gives back the original task list; no reminder is left under
   * that text, and today's count keeps the increment.
   */
  lemma AddThenRemove(s: Store, text: string, category: Option<string>, reminderTime: Option<string>, today: string)
    requires Accepts(text)
    requires forall j :: 0 <= j < |s.tasks| ==> !FoldEq(s.tasks[j].task, text)
    ensures var r := Removed(Added(s, text, category, reminderTime, today), text);
      && r.tasks == s.tasks
      && r.reminders == s.reminders - {text}
      && r.activity == Added(s, text, category, reminderTime, today).activity
  {
  }

  /**
   * The reminder is popped under the caller's exact text, not under the
   * matched task's text: removing "buy milk" deletes the task "Buy milk" but
   * its reminder, stored under "Buy milk", survives.
   */
  lemma RemoveKeepsDifferentlyCasedReminder()
    ensures var s := Store([Task("Buy milk", "Personal", false)], map[], map["Buy milk" := "18:00"]);
      var r := Removed(s, "buy milk");
      r.tasks == [] && "Buy milk" in r.reminders && r.reminders["Buy milk"] == "18:00"
  {
    BuyMilkFolds();
  }

  /**
   * The end-to-end scenario: from the default store, add "Buy milk" in
   * "Personal" with no reminder; the store then holds that one task and
   * today's count is 1. Removing "buy milk" leaves no task and no reminder for it.
   */
  lemma AddThenRemoveScenario(today: string)
    ensures var added := Added(DefaultStore(), "Buy milk", Some("Personal"), None, today);
      && added.tasks == [Task("Buy milk", "Personal", false)]
      && added.activity == map[today := 1]
      && added.reminders == map[]
      && var removed := Removed(added, "buy milk");
         removed.tasks == [] && "Buy milk" !in removed.reminders && removed.activity == map[today := 1]
  {
    BuyMilkFolds();
    var added := Added(DefaultStore(), "Buy milk", Some("Personal"), None, today);
    assert added.tasks == [Task("Buy milk", "Personal", false)];
    assert FindFolded(added.tasks, "buy milk") == Some(0);
  }

  /** "Buy milk" and "buy milk" are equal ignoring case, and neither is the unintelligible sentinel. */
  lemma BuyMilkFolds()
    ensures Lower("buy milk") == "buy milk" && Lower("Buy milk") == "buy milk"
    ensures Accepts("Buy milk")
  {
    LowerOfLowerCase("buy milk");
    LowerOfLowerCase("uy milk");
    assert "Buy milk"[1..] == "uy milk";
  }
}
