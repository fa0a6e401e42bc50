/** What passes between the gateway and the server's task handlers.

    How the server reads the JSON body the gateway sends: `JSON.stringify`
    leaves out a property whose value is undefined and writes `null` as
    `null`; the server's destructuring then sees a left-out key as
    undefined. An undefined and a `null` due date therefore reach the
    server differently. */
module Exchange {
  import opened Wrappers
  import opened Tasks
  import G = TaskAdapter
  import TC = TaskController
  import TimedTaskCard
  import Text
  import Wire

  /** The client's checklist items as the server reads them: the id and
      the flag are both present. */
  function ItemInputs(items: seq<ChecklistItem>): (r: seq<TC.ItemInput>)
    ensures |r| == |items|
    ensures forall i :: 0 <= i < |items| ==>
      r[i] == TC.ItemInput(Some(items[i].id), items[i].text, Some(items[i].completed))
  {
    seq(|items|, i requires 0 <= i < |items| => TC.ItemInput(Some(items[i].id), items[i].text, Some(items[i].completed)))
  }

  /** The `due_date` the server destructures: undefined for a left-out key,
      `null`, or a date. */
  function SentDueDate(d: DueDate): (r: Option<Option<Timestamp>>)
    ensures r.None? <==> d.Unset?
    ensures d.Null? ==> r == Some(None)
    ensures d.At? ==> r == Some(Some(d.time))
  {
    match d
    case Unset => None
    case Null => Some(None)
    case At(time) => Some(Some(time))
  }

  /** An update body as `updateTask` reads it. Title, type and completed
      are always sent; the items only when the task has a list. */
  function AsUpdateBody(b: G.TaskBody): (u: TC.UpdateBody)
    ensures u.title == Some(b.title) && u.kind == Some(b.kind) && u.completed == Some(b.completed)
    ensures u.dueDate == SentDueDate(b.dueDate)
    ensures u.items.Some? <==> b.items.Some?
    ensures b.items.Some? ==> u.items.value == ItemInputs(b.items.value)
  {
    TC.UpdateBody(Some(b.title), Some(b.kind), Some(b.completed), SentDueDate(b.dueDate),
      match b.items case None => None case Some(items) => Some(ItemInputs(items)))
  }

  /** A create body as `createTask` reads it; `due_date || null` stores no
      date for an undefined and a `null` one alike. */
  function AsCreateBody(b: G.TaskBody): (u: TC.CreateBody)
    ensures u.title == Some(b.title) && u.kind == Some(KindName(b.kind)) && u.completed == Some(b.completed)
    ensures u.dueDate.Some? <==> b.dueDate.At?
    ensures b.dueDate.At? ==> u.dueDate.value == b.dueDate.time
    ensures u.items.Some? <==> b.items.Some?
    ensures b.items.Some? ==> u.items.value == ItemInputs(b.items.value)
  {
    TC.CreateBody(Some(b.title), Some(KindName(b.kind)), Some(b.completed),
      match b.dueDate case At(time) => Some(time) case _ => None,
      match b.items case None => None case Some(items) => Some(ItemInputs(items)))
  }

  /** Clearing the date field of a timed card and saving does not clear
      the stored date: the card forwards an undefined due date, the body
      leaves `due_date` out, and `updateTask` keeps the stored value for an
      undefined field. */
  lemma ClearedDateKeepsStoredDate(c: TimedTaskCard.TimedCard, s: TC.Store, resp: G.Response<Wire.WireTask>)
    requires !Text.IsBlank(c.editedTitle) && c.editedDueDate.None?
    requires c.task.id in s.tasks
    ensures var saved := TimedTaskCard.HandleSave(c).update.value;
            var body := G.UpdateTask(saved, resp).request.body.value;
            var r := TC.UpdateTask(s, saved.id, AsUpdateBody(body));
            r.store.tasks[saved.id].dueDate == s.tasks[saved.id].dueDate
  {
    TimedTaskCard.ClearedDateSavesNoDueDate(c);
  }

  /** A task whose due date is `null` -- one read from the server without
      a date -- does clear the stored date when it is sent back. */
  lemma NullDateClearsStoredDate(t: Task, s: TC.Store, resp: G.Response<Wire.WireTask>)
    requires t.dueDate == Null && t.id in s.tasks
    ensures var body := G.UpdateTask(t, resp).request.body.value;
            TC.UpdateTask(s, t.id, AsUpdateBody(body)).store.tasks[t.id].dueDate.None?
  {
  }

  /** A date that is sent is stored, by update and by create alike. */
  lemma SentDateIsStored(t: Task, s: TC.Store, now: Timestamp)
    requires t.dueDate.At?
    ensures t.id in s.tasks ==>
      TC.UpdateTask(s, t.id, AsUpdateBody(G.ToBody(t))).store.tasks[t.id].dueDate == Some(t.dueDate.time)
    ensures var r := TC.CreateTask(s, AsCreateBody(G.ToBody(t)), now);
            r.status == 201 ==> r.store.tasks[s.nextTaskId].dueDate == Some(t.dueDate.time)
  {
  }

  /** Fetching the server's listing yields one client task per stored
      task, in listing order, with unique ids; none has an undefined due
      date, and exactly the checklists carry item lists. */
  lemma FetchedListing(s: TC.Store, order: seq<Id>)
    requires Enumerates(order, s.tasks.Keys)
    ensures var fetched := G.FetchTasks(G.Ok(TC.GetAllTasks(s, order).payload.tasks)).result;
            && Ids(fetched) == order
            && UniqueIds(fetched)
            && (forall i :: 0 <= i < |fetched| ==> fetched[i].dueDate != Unset)
            && (forall i :: 0 <= i < |fetched| ==> (fetched[i].items.Some? <==> s.tasks[order[i]].kind == Checklist))
  {
    var fetched := G.FetchTasks(G.Ok(TC.GetAllTasks(s, order).payload.tasks)).result;
    assert Ids(fetched) == order;
  }

  /** On create, an undefined and a `null` due date give the same result. */
  lemma CreateTreatsUnsetAsNull(t: Task, s: TC.Store, now: Timestamp)
    requires !t.dueDate.At?
    ensures TC.CreateTask(s, AsCreateBody(G.ToBody(t.(dueDate := Unset))), now)
         == TC.CreateTask(s, AsCreateBody(G.ToBody(t.(dueDate := Null))), now)
  {
  }
}
