/**
 * One pass of the reminder loop (`send_reminders`): given the current time
 * of day as `HH:MM`, the tasks whose stored reminder time is exactly that
 * string are the ones notified.
 */
module Reminders {
  import opened Wrappers
  import opened TaskStore

  /** The tasks one pass notifies: those whose reminder time equals `now`, compared as strings. */
  function Due(reminders: map<string, string>, now: string): (r: set<string>)
    ensures forall t :: t in r <==> t in reminders && reminders[t] == now
  {
    set t | t in reminders && reminders[t] == now
  }

  /** Nothing is due in the store the application starts with when there is no file. */
  lemma NothingDueInDefaultStore(now: string)
    ensures Due(DefaultStore().reminders, now) == {}
  {
  }

  /**
   * After an accepted add, the added text is due at `now` exactly when a
   * non-empty reminder time equal to `now` was given, or, with no reminder
   * given, when it already was; every other task is due as before.
   */
  lemma DueAfterAdd(s: Store, text: string, category: Option<string>, reminderTime: Option<string>, today: string, now: string)
    requires Accepts(text)
    ensures var after := Due(Added(s, text, category, reminderTime, today).reminders, now);
      && (forall t :: t != text ==> (t in after <==> t in Due(s.reminders, now)))
      && (reminderTime.Some? && reminderTime.value != "" ==> (text in after <==> reminderTime.value == now))
      && (reminderTime.None? || reminderTime.value == "" ==> (text in after <==> text in Due(s.reminders, now)))
  {
  }

  /**
   * After a remove that matched, the caller's exact text is no longer due and
   * every other task is due as before (a reminder stored under another casing
   * of the text stays due). After a remove that matched nothing, the due set is unchanged.
   */
  lemma DueAfterRemove(s: Store, text: string, now: string)
    ensures FindFolded(s.tasks, text).Some? ==>
      Due(Removed(s, text).reminders, now) == Due(s.reminders, now) - {text}
    ensures FindFolded(s.tasks, text).None? ==>
      Due(Removed(s, text).reminders, now) == Due(s.reminders, now)
  {
  }
}
