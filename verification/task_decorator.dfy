/** The due-date reminder badge drawn over every task card, and the
    overdue test the three cards share. */
module TaskDecorator {
  import opened Wrappers
  import opened Tasks

  /** A card's overdue test: a due date earlier than now on a task that is
      not completed. The basic, timed and checklist cards all use it. */
  predicate IsOverdue(t: Task, now: Timestamp) {
    t.dueDate.At? && t.dueDate.time < now && !t.completed
  }

  /** The badge's colour: destructive when overdue, primary otherwise. */
  datatype Tone = Destructive | Primary

  /** A visible badge: its colour, its caption and the date it shows. */
  datatype Reminder = Reminder(tone: Tone, caption: string, due: Timestamp)

  /** The badge for `t` at time `now`; `None` when nothing is drawn. */
  function ReminderFor(t: Task, now: Timestamp): (r: Option<Reminder>)
    ensures r.None? <==> !t.dueDate.At? || t.completed
    ensures r.Some? ==>
      && r.value.due == t.dueDate.time
      && (r.value.caption == "Overdue" || r.value.caption == "Due")
      && (r.value.caption == "Overdue" <==> t.dueDate.time < now)
      && (r.value.tone == Destructive <==> r.value.caption == "Overdue")
  {
    if !t.dueDate.At? || t.completed then None
    else
      var overdue := t.dueDate.time < now;
      Some(Reminder(if overdue then Destructive else Primary, if overdue then "Overdue" else "Due", t.dueDate.time))
  }

  /** A card shows its overdue notice exactly when the badge reads
      "Overdue", so the card and the badge never disagree. */
  lemma CardAndBadgeAgree(t: Task, now: Timestamp)
    ensures IsOverdue(t, now) <==> (ReminderFor(t, now).Some? && ReminderFor(t, now).value.caption == "Overdue")
    ensures IsOverdue(t, now) ==> ReminderFor(t, now).value.tone == Destructive
  {
  }
}
