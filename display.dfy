/**
 * The task list as the listbox shows it (`update_task_list`), and the way
 * `toggle_task` cuts the task text back out of a displayed line.
 */
module Display {
  import opened Wrappers
  import opened Text
  import opened TaskStore

  /** The field separator of a displayed line. */
  const Separator := " | "

  /** U+2714 HEAVY CHECK MARK for a completed task, U+274C CROSS MARK otherwise. */
  function StatusMark(completed: bool): (r: char)
    ensures r == '\U{2714}' <==> completed
    ensures r == '\U{274C}' <==> !completed
    ensures r != ' '
  {
    if completed then '\U{2714}' else '\U{274C}'
  }

  /** `f"{status} | {task} | {category}"`. */
  function DisplayLine(t: Task): (r: string)
    ensures |r| == |t.task| + |t.category| + 7
    ensures r[0] == StatusMark(t.completed)
  {
    [StatusMark(t.completed)] + Separator + t.task + Separator + t.category
  }

  /** The listbox contents for a task list: one line per task, in list order. */
  function Lines(tasks: seq<Task>): (r: seq<string>)
    ensures |r| == |tasks|
    ensures forall k :: 0 <= k < |tasks| ==> r[k] == DisplayLine(tasks[k])
  {
    seq(|tasks|, k requires 0 <= k < |tasks| => DisplayLine(tasks[k]))
  }

  /**
   * `line.split(" | ")[1]`: the text `toggle_task` looks for; `None` where
   * Python raises `IndexError` because the line has no separator (the line of
   * an empty listbox is "").
   */
  function SelectedText(line: string): (r: Option<string>)
    ensures r.None? <==> !Contains(line, Separator)
    ensures r.Some? ==> !Contains(r.value, Separator)
  {
    var fields := Split(line, Separator);
    if |fields| < 2 then
      assert !Contains(line, Separator) by {
        assert Join(fields, Separator) == fields[0];
      }
      None
    else
      assert Contains(line, Separator) by {
        assert fields[0] + Separator <= line;
        OccursInPrefix(fields[0] + Separator, line, Separator, |fields[0]|);
      }
      Some(fields[1])
  }

  /**
   * The fields of a displayed line: the first is the status mark, there is
   * always a second one, and that second field is the task's text exactly
   * when `text + " |"` contains no separator, that is, when the text neither
   * contains " | " nor ends in " |". When it is, the remaining fields join
   * back to the category.
   */
  lemma DisplayLineFields(t: Task)
    ensures var fields := Split(DisplayLine(t), Separator);
      && |fields| >= 2
      && fields[0] == [StatusMark(t.completed)]
      && (fields[1] == t.task <==> !Contains(t.task + " |", Separator))
      && (fields[1] == t.task ==> |fields| >= 3 && Join(fields[2..], Separator) == t.category)
  {
    var rest := t.task + Separator + t.category;
    SplitAfterMark(t);
    var i := FirstSeparatorOfRest(t.task, t.category);
    assert Split(rest, Separator) == [rest[..i]] + Split(rest[i + 3..], Separator);
    if !Contains(t.task + " |", Separator) {
      assert rest[..i] == t.task;
      assert rest[i + 3..] == t.category;
    } else {
      assert |rest[..i]| < |t.task|;
    }
  }

  /** The first separator of a displayed line is the one right after the status mark. */
  lemma SplitAfterMark(t: Task)
    ensures Split(DisplayLine(t), Separator)
         == [[StatusMark(t.completed)]] + Split(t.task + Separator + t.category, Separator)
  {
    var line := DisplayLine(t);
    var rest := t.task + Separator + t.category;
    assert line == [StatusMark(t.completed)] + Separator + rest;
    assert !OccursAt(line, Separator, 0) by {
      assert line[0] == StatusMark(t.completed) != ' ';
      assert line[0..3][0] == line[0];
    }
    assert line[1..4] == Separator;
    assert OccursAt(line, Separator, 1);
    assert FindFrom(line, Separator, 1) == Some(1);
    assert Find(line, Separator) == Some(1);
    assert line[..1] == [StatusMark(t.completed)] && line[4..] == rest;
  }

  /**
   * In `text + " | " + category` the first separator starts right after
   * `text` exactly when `text + " |"` holds no separator, and earlier otherwise.
   */
  lemma FirstSeparatorOfRest(text: string, category: string) returns (i: nat)
    ensures Find(text + Separator + category, Separator) == Some(i)
    ensures !Contains(text + " |", Separator) ==> i == |text|
    ensures Contains(text + " |", Separator) ==> i < |text|
  {
    var rest := text + Separator + category;
    var probe := text + " |";
    var n := |text|;
    assert probe <= rest;
    assert rest[n..n + 3] == Separator;
    assert OccursAt(rest, Separator, n);
    i := Find(rest, Separator).value;
    forall j | 0 <= j < n
      ensures OccursAt(probe, Separator, j) <==> OccursAt(rest, Separator, j)
    {
      OccursInPrefix(probe, rest, Separator, j);
    }
    if Contains(probe, Separator) {
      var j :| 0 <= j <= |probe| && OccursAt(probe, Separator, j);
      assert j < n;
    }
  }

  /**
   * Toggling through a displayed line: when the `k`th task's text survives
   * the split and no earlier task has the same text, toggling the line
   * `update_task_list` drew for it flips exactly that task.
   */
  lemma ToggleDisplayedLine(s: Store, k: nat)
    requires k < |s.tasks|
    requires !Contains(s.tasks[k].task + " |", Separator)
    requires forall j :: 0 <= j < k ==> s.tasks[j].task != s.tasks[k].task
    ensures SelectedText(DisplayLine(s.tasks[k])) == Some(s.tasks[k].task)
    ensures Toggled(s, s.tasks[k].task).tasks == s.tasks[k := Flip(s.tasks[k])]
  {
    DisplayLineFields(s.tasks[k]);
  }
}
