/** The add-task form of the to-do page: its acceptance rule, the task it
    builds, the reset after a submission and the reset on a kind change. */
module Midterm {
  import opened Wrappers
  import opened Tasks
  import Text
  import opened Seqs
  import Wire
  import G = TaskAdapter
  import TaskManager

  /** The form's fields; `dueDate` is `None` while the date input is empty,
      and `subtasks` are the checklist rows being typed. */
  datatype Form = Form(title: string, kind: Kind, dueDate: Option<Timestamp>, subtasks: seq<ChecklistItem>)

  /** The single empty subtask row the form starts with and resets to. */
  const BlankSubtasks: seq<ChecklistItem> := [ChecklistItem(1, "", false)]

  const InitialForm: Form := Form("", Basic, None, BlankSubtasks)

  /** The alert shown when a task of that kind is missing its detail. */
  datatype Alert = NeedDueDate | NeedSubtask

  /** The page after `handleAddTask`: the form, what the cache did, and the
      alert raised, if any. */
  datatype AddOutcome = AddOutcome(form: Form, step: TaskManager.Outcome, alert: Option<Alert>)

  /** The subtask row has text after trimming. */
  function HasText(item: ChecklistItem): bool {
    Text.Trim(item.text) != ""
  }

  /** `subtasks.some(item => item.text.trim())`. */
  predicate AnySubtaskText(subtasks: seq<ChecklistItem>) {
    exists i | 0 <= i < |subtasks| :: HasText(subtasks[i])
  }

  /** The acceptance rule: a basic task always, a timed task with a date,
      a checklist task with at least one subtask that is not blank. */
  predicate Accepts(f: Form) {
    || f.kind == Basic
    || (f.kind == Timed && f.dueDate.Some?)
    || (f.kind == Checklist && AnySubtaskText(f.subtasks))
  }

  /** Each item marked incomplete. */
  function Incomplete(items: seq<ChecklistItem>): (r: seq<ChecklistItem>)
    ensures |r| == |items|
    ensures forall i :: 0 <= i < |items| ==> r[i] == items[i].(completed := false)
  {
    seq(|items|, i requires 0 <= i < |items| => items[i].(completed := false))
  }

  /** The checklist items of the new task: the rows with text, in order,
      each marked incomplete. */
  function NewItems(subtasks: seq<ChecklistItem>): (r: seq<ChecklistItem>)
    ensures IsFilterOf(HasText, Incomplete(subtasks), r)
    ensures |r| == |Filter(HasText, subtasks)|
    ensures forall i :: 0 <= i < |r| ==> !Text.IsBlank(r[i].text) && !r[i].completed
    ensures forall i :: 0 <= i < |subtasks| && !Text.IsBlank(subtasks[i].text) ==>
      subtasks[i].(completed := false) in r
  {
    NewItemsFacts(subtasks);
    FilterIncomplete(subtasks);
    FilterSelects(HasText, Incomplete(subtasks));
    Incomplete(Filter(HasText, subtasks))
  }

  /** Marking the rows incomplete does not change which have text, so it
      commutes with keeping the rows with text: the positions kept are the
      same. */
  lemma FilterIncomplete(subtasks: seq<ChecklistItem>)
    ensures Filter(HasText, Incomplete(subtasks)) == Incomplete(Filter(HasText, subtasks))
  {
    var kept := Filter(HasText, subtasks);
    var inc := Incomplete(subtasks);
    FilterSelects(HasText, subtasks);
    var idx :| SelectedAt(HasText, subtasks, kept, idx);
    assert Picks(inc, Incomplete(kept), idx);
    assert Covers(HasText, inc, idx) by {
      forall i | 0 <= i < |inc|
        ensures HasText(inc[i]) == HasText(subtasks[i])
      {
      }
    }
    assert Increasing(idx);
    assert SelectedAt(HasText, inc, Incomplete(kept), idx);
    FilterUnique(HasText, inc, Incomplete(kept));
  }

  lemma NewItemsFacts(subtasks: seq<ChecklistItem>)
    ensures var r := Incomplete(Filter(HasText, subtasks));
      && (forall i :: 0 <= i < |r| ==> !Text.IsBlank(r[i].text))
      && (forall i :: 0 <= i < |subtasks| && !Text.IsBlank(subtasks[i].text) ==> subtasks[i].(completed := false) in r)
  {
    var kept := Filter(HasText, subtasks);
    var r := Incomplete(kept);
    forall i | 0 <= i < |r|
      ensures !Text.IsBlank(r[i].text)
    {
      Text.TrimEmptyIffBlank(kept[i].text);
    }
    forall i | 0 <= i < |subtasks| && !Text.IsBlank(subtasks[i].text)
      ensures subtasks[i].(completed := false) in r
    {
      Text.TrimEmptyIffBlank(subtasks[i].text);
      assert subtasks[i] in kept;
      var k :| 0 <= k < |kept| && kept[k] == subtasks[i];
      assert r[k] == subtasks[i].(completed := false);
    }
  }

  /** The task `handleAddTask` submits, with the id and creation time the
      page generates passed in. */
  function NewTask(f: Form, id: Id, now: Timestamp): (t: Task)
    ensures t.id == id && t.title == f.title && t.kind == f.kind && t.createdAt == now
    ensures !t.completed
    ensures t.dueDate.At? <==> f.kind == Timed && f.dueDate.Some?
    ensures t.dueDate.At? ==> t.dueDate.time == f.dueDate.value
    ensures !t.dueDate.At? ==> t.dueDate == Unset
    ensures t.items.Some? <==> f.kind == Checklist
    ensures t.items.Some? ==> t.items.value == NewItems(f.subtasks)
  {
    Task(
      id, f.title, f.kind, false, now,
      if f.kind == Timed && f.dueDate.Some? then At(f.dueDate.value) else Unset,
      if f.kind == Checklist then Some(NewItems(f.subtasks)) else None
    )
  }

  /** An accepted checklist task carries at least one item. */
  lemma AcceptedChecklistHasItems(f: Form, id: Id, now: Timestamp)
    requires f.kind == Checklist && Accepts(f)
    ensures |NewTask(f, id, now).items.value| > 0
  {
    var k :| 0 <= k < |f.subtasks| && HasText(f.subtasks[k]);
    assert f.subtasks[k] in Filter(HasText, f.subtasks);
  }

  /** `handleAddTask`. A title blank after trimming does nothing. An
      accepted form submits the new task to the cache and resets title,
      date and subtasks (the kind stays). A rejected form raises the alert
      for its kind and keeps its fields. */
  function HandleAddTask(f: Form, c: TaskManager.Cache, id: Id, now: Timestamp, resp: G.Response<Wire.WireTask>): (r: AddOutcome)
    ensures Text.IsBlank(f.title) ==> r == AddOutcome(f, TaskManager.Outcome(c, [], []), None)
    ensures !Text.IsBlank(f.title) && Accepts(f) ==>
      && r.step == TaskManager.AddTask(c, NewTask(f, id, now), resp)
      && r.form == Form("", f.kind, None, BlankSubtasks)
      && r.alert.None?
    ensures !Text.IsBlank(f.title) && !Accepts(f) ==>
      && r.form == f && r.step == TaskManager.Outcome(c, [], [])
      && r.alert == Some(if f.kind == Timed then NeedDueDate else NeedSubtask)
  {
    Text.TrimEmptyIffBlank(f.title);
    if Text.Trim(f.title) == "" then AddOutcome(f, TaskManager.Outcome(c, [], []), None)
    else if Accepts(f) then
      var step := TaskManager.AddTask(c, NewTask(f, id, now), resp);
      AddOutcome(f.(title := "", dueDate := None, subtasks := BlankSubtasks), step, None)
    else if f.kind == Timed && f.dueDate.None? then AddOutcome(f, TaskManager.Outcome(c, [], []), Some(NeedDueDate))
    else if f.kind == Checklist && !AnySubtaskText(f.subtasks) then AddOutcome(f, TaskManager.Outcome(c, [], []), Some(NeedSubtask))
    else AddOutcome(f, TaskManager.Outcome(c, [], []), None)
  }

  /** The form resets after a submission whether or not the server
      accepted the task. */
  lemma ResetIgnoresServerAnswer(f: Form, c: TaskManager.Cache, id: Id, now: Timestamp, r1: G.Response<Wire.WireTask>, r2: G.Response<Wire.WireTask>)
    requires !Text.IsBlank(f.title) && Accepts(f)
    ensures HandleAddTask(f, c, id, now, r1).form == HandleAddTask(f, c, id, now, r2).form == Form("", f.kind, None, BlankSubtasks)
    ensures HandleAddTask(f, c, id, now, r1).step.sent == HandleAddTask(f, c, id, now, r2).step.sent
  {
  }

  /** The kind selector: any kind other than checklist discards the typed
      subtasks; title and date are kept. */
  function ChangeKind(f: Form, k: Kind): (r: Form)
    ensures r.kind == k && r.title == f.title && r.dueDate == f.dueDate
    ensures k != Checklist ==> r.subtasks == BlankSubtasks
    ensures k == Checklist ==> r.subtasks == f.subtasks
  {
    if k != Checklist then f.(kind := k, subtasks := BlankSubtasks) else f.(kind := k)
  }

  /** Switching the kind and back keeps the typed subtasks only when both
      kinds are checklist; otherwise they are reset to one empty row. */
  lemma ChangeKindRoundTrip(f: Form, k: Kind)
    ensures ChangeKind(ChangeKind(f, k), f.kind)
         == if k == Checklist && f.kind == Checklist then f else f.(subtasks := BlankSubtasks)
  {
  }
}
