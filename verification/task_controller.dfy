/** The server's task handlers as functions from a store and a request to
    a status, a JSON payload and the new store. The store is the `tasks`
    table keyed by id plus the `checklist_items` table in insertion order;
    the database assigns ids from counters and the creation time is the
    `now` parameter. Database failures other than "no such row" are not
    part of this model. */
module TaskController {
  import opened Wrappers
  import opened Tasks
  import opened Wire
  import opened Seqs
  import Text

  datatype TaskRow = TaskRow(title: string, kind: Kind, completed: bool, createdAt: Timestamp, dueDate: Option<Timestamp>)

  datatype ItemRow = ItemRow(id: Id, taskId: Id, text: string, completed: bool)

  datatype Store = Store(tasks: map<Id, TaskRow>, items: seq<ItemRow>, nextTaskId: Id, nextItemId: Id)

  /** The id discipline the database keeps: task ids and item task ids
      below the task counter, item ids below the item counter and strictly
      increasing in insertion order (hence unique). */
  ghost predicate Valid(s: Store) {
    && (forall id :: id in s.tasks ==> id < s.nextTaskId)
    && (forall i :: 0 <= i < |s.items| ==> s.items[i].id < s.nextItemId && s.items[i].taskId < s.nextTaskId)
    && (forall i, j :: 0 <= i < j < |s.items| ==> s.items[i].id < s.items[j].id)
  }

  /** A checklist item in a request; its `id`, if any, is ignored. */
  datatype ItemInput = ItemInput(id: Option<Id>, text: string, completed: Option<bool>)

  /** A create request body; `None` is a missing (or null) field, and the
      type is the raw string the client sent. */
  datatype CreateBody = CreateBody(
    title: Option<string>,
    kind: Option<string>,
    completed: Option<bool>,
    dueDate: Option<Timestamp>,
    items: Option<seq<ItemInput>>
  )

  /** An update request body; `None` is an undefined field. `dueDate` may
      also be an explicit null, `Some(None)`. */
  datatype UpdateBody = UpdateBody(
    title: Option<string>,
    kind: Option<Kind>,
    completed: Option<bool>,
    dueDate: Option<Option<Timestamp>>,
    items: Option<seq<ItemInput>>
  )

  datatype Payload =
    | TaskJson(task: WireTask)
    | TaskListJson(tasks: seq<WireTask>)
    | ErrorJson(error: string)
    | MessageJson(message: string)

  datatype Reply = Reply(status: int, payload: Payload, store: Store)

  const TaskNotFound: string := "Task not found"
  const SubtaskNotFound: string := "Subtask not found"
  const TitleAndTypeRequired: string := "Title and type are required"
  const InvalidTaskType: string := "Invalid task type"
  const TaskDeleted: string := "Task deleted successfully"

  function NotFound(s: Store, message: string): Reply {
    Reply(404, ErrorJson(message), s)
  }

  function ToWireItem(r: ItemRow): WireItem {
    WireItem(r.id, Some(r.taskId), r.text, r.completed)
  }

  function ToWireItems(rs: seq<ItemRow>): (ws: seq<WireItem>)
    ensures |ws| == |rs|
    ensures forall i :: 0 <= i < |rs| ==> ws[i] == ToWireItem(rs[i])
  {
    seq(|rs|, i requires 0 <= i < |rs| => ToWireItem(rs[i]))
  }

  /** A task row as JSON, with `items` attached when given. */
  function ToWire(id: Id, row: TaskRow, items: Option<seq<ItemRow>>): WireTask {
    WireTask(id, row.title, row.kind, row.completed, row.createdAt, row.dueDate,
      match items case None => None case Some(rs) => Some(ToWireItems(rs)))
  }

  function OfTask(id: Id): ItemRow -> bool {
    (r: ItemRow) => r.taskId == id
  }

  function NotOfTask(id: Id): ItemRow -> bool {
    (r: ItemRow) => r.taskId != id
  }

  /** `select * from checklist_items where task_id = id`, in table order. */
  function ItemsOf(s: Store, id: Id): (rs: seq<ItemRow>)
    ensures IsFilterOf(OfTask(id), s.items, rs)
    ensures forall i :: 0 <= i < |rs| ==> rs[i].taskId == id && rs[i] in s.items
    ensures forall i :: 0 <= i < |s.items| && s.items[i].taskId == id ==> s.items[i] in rs
  {
    FilterSelects(OfTask(id), s.items);
    Filter(OfTask(id), s.items)
  }

  /** JavaScript's `flag || false`. */
  function OrFalse(flag: Option<bool>): bool {
    flag == Some(true)
  }

  /** The rows inserted for `inputs` under task `taskId`, numbered from
      `firstId`: the client's item ids are dropped and a missing
      `completed` becomes false. */
  function NewRows(inputs: seq<ItemInput>, taskId: Id, firstId: Id): (rs: seq<ItemRow>)
    ensures |rs| == |inputs|
    ensures forall i :: 0 <= i < |inputs| ==>
      rs[i] == ItemRow(firstId + i, taskId, inputs[i].text, OrFalse(inputs[i].completed))
  {
    seq(|inputs|, i requires 0 <= i < |inputs| => ItemRow(firstId + i, taskId, inputs[i].text, OrFalse(inputs[i].completed)))
  }

  /** The store after inserting `rows` at the end of the items table. */
  function InsertItems(s: Store, rows: seq<ItemRow>): Store {
    s.(items := s.items + rows, nextItemId := s.nextItemId + |rows|)
  }

  // ---------------------------------------------------------------------
  // Handlers.

  /** `getAllTasks`: every task once, in the order the database lists them
      (`order`), checklist tasks with their items attached. */
  function GetAllTasks(s: Store, order: seq<Id>): (r: Reply)
    requires Enumerates(order, s.tasks.Keys)
    ensures r.status == 200 && r.store == s && r.payload.TaskListJson?
    ensures |r.payload.tasks| == |order|
    ensures forall i, j :: 0 <= i < j < |order| ==> r.payload.tasks[i].id != r.payload.tasks[j].id
    ensures forall i :: 0 <= i < |order| ==>
      var w := r.payload.tasks[i];
      && w.id == order[i]
      && w.(items := None) == ToWire(order[i], s.tasks[order[i]], None)
      && (w.items.Some? <==> s.tasks[order[i]].kind == Checklist)
      && (w.items.Some? ==> w.items.value == ToWireItems(ItemsOf(s, order[i])))
  {
    var tasks := seq(|order|, i requires 0 <= i < |order| =>
      var row := s.tasks[order[i]];
      ToWire(order[i], row, if row.kind == Checklist then Some(ItemsOf(s, order[i])) else None));
    Reply(200, TaskListJson(tasks), s)
  }

  /** `getTaskById`: the task with its items when it is a checklist, or
      404. */
  function GetTaskById(s: Store, id: Id): (r: Reply)
    ensures r.store == s
    ensures id !in s.tasks ==> r == NotFound(s, TaskNotFound)
    ensures id in s.tasks ==>
      && r.status == 200 && r.payload.TaskJson?
      && r.payload.task.(items := None) == ToWire(id, s.tasks[id], None)
      && (r.payload.task.items.Some? <==> s.tasks[id].kind == Checklist)
      && (r.payload.task.items.Some? ==> r.payload.task.items.value == ToWireItems(ItemsOf(s, id)))
  {
    if id !in s.tasks then NotFound(s, TaskNotFound)
    else
      var row := s.tasks[id];
      Reply(200, TaskJson(ToWire(id, row, if row.kind == Checklist then Some(ItemsOf(s, id)) else None)), s)
  }

  /** `createTask`. Rejects a falsy title or type, then a type that is not
      one of the three kinds, both with 400 and no change. Otherwise inserts
      the row with `completed` defaulting to false and the due date to
      null, then -- for a checklist with a non-empty item list only -- one
      item row per input under the new id; answers 201 with the new row. */
  function CreateTask(s: Store, body: CreateBody, now: Timestamp): (r: Reply)
    ensures Text.IsFalsy(body.title) || Text.IsFalsy(body.kind) ==> r == Reply(400, ErrorJson(TitleAndTypeRequired), s)
    ensures !Text.IsFalsy(body.title) && !Text.IsFalsy(body.kind) && ParseKind(body.kind.value).None? ==>
      r == Reply(400, ErrorJson(InvalidTaskType), s)
    ensures r.status == 201 <==> !Text.IsFalsy(body.title) && !Text.IsFalsy(body.kind) && ParseKind(body.kind.value).Some?
    ensures r.status == 201 ==>
      var id := s.nextTaskId;
      && r.store.tasks == s.tasks[id := TaskRow(body.title.value, ParseKind(body.kind.value).value, OrFalse(body.completed), now, body.dueDate)]
      && r.store.nextTaskId == id + 1
      && r.payload.TaskJson? && r.payload.task.id == id
  {
    if Text.IsFalsy(body.title) || Text.IsFalsy(body.kind) then Reply(400, ErrorJson(TitleAndTypeRequired), s)
    else match ParseKind(body.kind.value)
      case None => Reply(400, ErrorJson(InvalidTaskType), s)
      case Some(kind) =>
        var id := s.nextTaskId;
        var row := TaskRow(body.title.value, kind, OrFalse(body.completed), now, body.dueDate);
        var s1 := s.(tasks := s.tasks[id := row], nextTaskId := id + 1);
        if kind == Checklist && body.items.Some? && |body.items.value| > 0 then
          var rows := NewRows(body.items.value, id, s1.nextItemId);
          Reply(201, TaskJson(ToWire(id, row, Some(rows))), InsertItems(s1, rows))
        else
          Reply(201, TaskJson(ToWire(id, row, None)), s1)
  }

  /** The body value when defined, else the stored one. */
  function Merge<T>(given: Option<T>, existing: T): T {
    match given case Some(v) => v case None => existing
  }

  /** The row `updateTask` writes: every field defined in the body
      replaces the stored one. */
  function MergeRow(row: TaskRow, body: UpdateBody): (r: TaskRow)
    ensures r.title == (if body.title.Some? then body.title.value else row.title)
    ensures r.kind == (if body.kind.Some? then body.kind.value else row.kind)
    ensures r.completed == (if body.completed.Some? then body.completed.value else row.completed)
    ensures r.dueDate == (if body.dueDate.Some? then body.dueDate.value else row.dueDate)
    ensures r.createdAt == row.createdAt
  {
    TaskRow(Merge(body.title, row.title), Merge(body.kind, row.kind), Merge(body.completed, row.completed),
      row.createdAt, Merge(body.dueDate, row.dueDate))
  }

  /** Whether `updateTask` rewrites the task's items: the old or the new
      kind is checklist and the body carries an item list (even an empty
      one). */
  predicate ReplacesItems(existing: TaskRow, body: UpdateBody) {
    (body.kind == Some(Checklist) || existing.kind == Checklist) && body.items.Some?
  }

  /** `updateTask`. 404 for a missing task. Otherwise merges the row and,
      when `ReplacesItems`, deletes every item of the task and inserts the
      given ones; answers 200 with the merged row (with `items` only when
      some were inserted). */
  function UpdateTask(s: Store, id: Id, body: UpdateBody): (r: Reply)
    ensures id !in s.tasks ==> r == NotFound(s, TaskNotFound)
    ensures id in s.tasks ==>
      && r.status == 200
      && r.store.tasks == s.tasks[id := MergeRow(s.tasks[id], body)]
      && r.store.nextTaskId == s.nextTaskId
      && (!ReplacesItems(s.tasks[id], body) ==> r.store.items == s.items)
      && (ReplacesItems(s.tasks[id], body) ==>
            r.store.items == Filter(NotOfTask(id), s.items) + NewRows(body.items.value, id, s.nextItemId))
  {
    if id !in s.tasks then NotFound(s, TaskNotFound)
    else
      var existing := s.tasks[id];
      var row := MergeRow(existing, body);
      var s1 := s.(tasks := s.tasks[id := row]);
      if ReplacesItems(existing, body) then
        var s2 := s1.(items := Filter(NotOfTask(id), s1.items));
        var rows := NewRows(body.items.value, id, s2.nextItemId);
        Reply(200, TaskJson(ToWire(id, row, if |rows| > 0 then Some(rows) else None)), InsertItems(s2, rows))
      else
        Reply(200, TaskJson(ToWire(id, row, None)), s1)
  }

  /** `deleteTask`. 404 for a missing task; otherwise the task is removed,
      and so are its items when it is a checklist. */
  function DeleteTask(s: Store, id: Id): (r: Reply)
    ensures id !in s.tasks ==> r == NotFound(s, TaskNotFound)
    ensures id in s.tasks ==>
      && r == Reply(200, MessageJson(TaskDeleted), r.store)
      && r.store.tasks == s.tasks - {id}
      && (s.tasks[id].kind == Checklist ==> r.store.items == Filter(NotOfTask(id), s.items))
      && (s.tasks[id].kind != Checklist ==> r.store.items == s.items)
  {
    if id !in s.tasks then NotFound(s, TaskNotFound)
    else
      var items := if s.tasks[id].kind == Checklist then Filter(NotOfTask(id), s.items) else s.items;
      Reply(200, MessageJson(TaskDeleted), s.(tasks := s.tasks - {id}, items := items))
  }

  /** `toggleTaskCompletion`. 404 for a missing task; otherwise the stored
      flag is negated and nothing else changes. */
  function ToggleTaskCompletion(s: Store, id: Id): (r: Reply)
    ensures id !in s.tasks ==> r == NotFound(s, TaskNotFound)
    ensures id in s.tasks ==>
      && r.status == 200
      && r.store == s.(tasks := s.tasks[id := s.tasks[id].(completed := !s.tasks[id].completed)])
      && r.payload.TaskJson? && r.payload.task.completed == !s.tasks[id].completed
  {
    if id !in s.tasks then NotFound(s, TaskNotFound)
    else
      var row := s.tasks[id].(completed := !s.tasks[id].completed);
      var s1 := s.(tasks := s.tasks[id := row]);
      Reply(200, TaskJson(ToWire(id, row, if row.kind == Checklist then Some(ItemsOf(s1, id)) else None)), s1)
  }

  /** The first index at or after `from` of an item with id `itemId`
      under task `taskId`. */
  function FindItem(items: seq<ItemRow>, itemId: Id, taskId: Id, from: nat): (k: Option<nat>)
    requires from <= |items|
    ensures k.Some? ==> from <= k.value < |items| && items[k.value].id == itemId && items[k.value].taskId == taskId
    ensures k.None? ==> forall i :: from <= i < |items| ==> !(items[i].id == itemId && items[i].taskId == taskId)
    decreases |items| - from
  {
    if from == |items| then None
    else if items[from].id == itemId && items[from].taskId == taskId then Some(from)
    else FindItem(items, itemId, taskId, from + 1)
  }

  /** `update checklist_items set completed = v where id = itemId`. */
  function SetCompleted(items: seq<ItemRow>, itemId: Id, v: bool): (r: seq<ItemRow>)
    ensures |r| == |items|
    ensures forall i :: 0 <= i < |items| ==> r[i] == (if items[i].id == itemId then items[i].(completed := v) else items[i])
  {
    seq(|items|, i requires 0 <= i < |items| => if items[i].id == itemId then items[i].(completed := v) else items[i])
  }

  /** `toggleSubtaskCompletion`. 404 when the task is missing or has no
      item with that id; otherwise the item's flag is negated and the
      answer is the task with all its items. */
  function ToggleSubtaskCompletion(s: Store, taskId: Id, subtaskId: Id): (r: Reply)
    ensures taskId !in s.tasks ==> r == NotFound(s, TaskNotFound)
    ensures taskId in s.tasks && FindItem(s.items, subtaskId, taskId, 0).None? ==> r == NotFound(s, SubtaskNotFound)
    ensures taskId in s.tasks && FindItem(s.items, subtaskId, taskId, 0).Some? ==>
      var k := FindItem(s.items, subtaskId, taskId, 0).value;
      && r.status == 200
      && r.store == s.(items := SetCompleted(s.items, subtaskId, !s.items[k].completed))
      && r.payload == TaskJson(ToWire(taskId, s.tasks[taskId], Some(ItemsOf(r.store, taskId))))
  {
    if taskId !in s.tasks then NotFound(s, TaskNotFound)
    else match FindItem(s.items, subtaskId, taskId, 0)
      case None => NotFound(s, SubtaskNotFound)
      case Some(k) =>
        var s1 := s.(items := SetCompleted(s.items, subtaskId, !s.items[k].completed));
        Reply(200, TaskJson(ToWire(taskId, s.tasks[taskId], Some(ItemsOf(s1, taskId)))), s1)
  }

  // ---------------------------------------------------------------------
  // Properties of the handlers.

  /** The listing shows every stored task. */
  lemma ListingShowsEveryTask(s: Store, order: seq<Id>, id: Id)
    requires Enumerates(order, s.tasks.Keys) && id in s.tasks
    ensures exists i :: 0 <= i < |order| && GetAllTasks(s, order).payload.tasks[i].id == id
  {
    var i :| 0 <= i < |order| && order[i] == id;
    assert GetAllTasks(s, order).payload.tasks[i].id == id;
  }

  /** The listing and the lookup agree: each listed task is what
      `getTaskById` answers for its id. */
  lemma ListAgreesWithLookup(s: Store, order: seq<Id>, i: int)
    requires Enumerates(order, s.tasks.Keys) && 0 <= i < |order|
    ensures GetTaskById(s, order[i]).status == 200
    ensures GetAllTasks(s, order).payload.tasks[i] == GetTaskById(s, order[i]).payload.task
  {
    assert order[i] in s.tasks;
  }

  /** Appending rows numbered from the item counter under an existing task
      keeps the store valid. */
  lemma InsertKeepsValid(s: Store, rows: seq<ItemRow>)
    requires Valid(s)
    requires forall i :: 0 <= i < |rows| ==> rows[i].id == s.nextItemId + i && rows[i].taskId < s.nextTaskId
    ensures Valid(InsertItems(s, rows))
  {
  }

  /** Removing item rows keeps the store valid. */
  lemma FilterItemsKeepsValid(s: Store, p: ItemRow -> bool)
    requires Valid(s)
    ensures Valid(s.(items := Filter(p, s.items)))
  {
    FilterKeepsIncreasing(p, (r: ItemRow) => r.id as int, s.items);
  }

  lemma CreateKeepsValid(s: Store, body: CreateBody, now: Timestamp)
    requires Valid(s)
    ensures Valid(CreateTask(s, body, now).store)
  {
  }

  /** A new task's items are exactly the rows inserted for it: one per
      input, in order, under the new id, with fresh ids -- and none at all
      unless the task is a checklist with a non-empty item list. */
  lemma CreatedTaskItems(s: Store, body: CreateBody, now: Timestamp)
    requires Valid(s)
    requires CreateTask(s, body, now).status == 201
    ensures var r := CreateTask(s, body, now);
            var id := s.nextTaskId;
            ItemsOf(r.store, id) ==
              if r.store.tasks[id].kind == Checklist && body.items.Some? && |body.items.value| > 0
              then NewRows(body.items.value, id, s.nextItemId)
              else []
    ensures forall t :: t != s.nextTaskId ==> ItemsOf(CreateTask(s, body, now).store, t) == ItemsOf(s, t)
  {
    var r := CreateTask(s, body, now);
    var id := s.nextTaskId;
    FilterDropsAll(OfTask(id), s.items);
    if r.store.items != s.items {
      var rows := NewRows(body.items.value, id, s.nextItemId);
      assert r.store.items == s.items + rows;
      FilterAppend(OfTask(id), s.items, rows);
      FilterKeepsAll(OfTask(id), rows);
      forall t | t != id
        ensures ItemsOf(r.store, t) == ItemsOf(s, t)
      {
        FilterAppend(OfTask(t), s.items, rows);
        FilterDropsAll(OfTask(t), rows);
      }
    }
  }

  /** The ids a client puts on checklist items make no difference. */
  lemma CreateIgnoresClientItemIds(s: Store, body: CreateBody, now: Timestamp, xs: seq<ItemInput>, ys: seq<ItemInput>)
    requires |xs| == |ys|
    requires forall i :: 0 <= i < |xs| ==> xs[i].text == ys[i].text && xs[i].completed == ys[i].completed
    ensures CreateTask(s, body.(items := Some(xs)), now) == CreateTask(s, body.(items := Some(ys)), now)
  {
    assert NewRows(xs, s.nextTaskId, s.nextItemId) == NewRows(ys, s.nextTaskId, s.nextItemId);
  }

  lemma UpdateKeepsValid(s: Store, id: Id, body: UpdateBody)
    requires Valid(s)
    ensures Valid(UpdateTask(s, id, body).store)
  {
    if id in s.tasks && ReplacesItems(s.tasks[id], body) {
      var s1 := s.(tasks := s.tasks[id := MergeRow(s.tasks[id], body)]);
      FilterItemsKeepsValid(s1, NotOfTask(id));
      InsertKeepsValid(s1.(items := Filter(NotOfTask(id), s.items)), NewRows(body.items.value, id, s.nextItemId));
    }
  }

  /** When an update rewrites the items, the task ends up with exactly the
      given items (wholesale replacement) and every other task keeps its
      items; otherwise no task's items change. */
  lemma UpdateReplacesItemsWholesale(s: Store, id: Id, body: UpdateBody)
    requires id in s.tasks
    ensures var r := UpdateTask(s, id, body);
            ReplacesItems(s.tasks[id], body) ==> ItemsOf(r.store, id) == NewRows(body.items.value, id, s.nextItemId)
    ensures forall t :: t != id ==> ItemsOf(UpdateTask(s, id, body).store, t) == ItemsOf(s, t)
  {
    var r := UpdateTask(s, id, body);
    if ReplacesItems(s.tasks[id], body) {
      var kept := Filter(NotOfTask(id), s.items);
      var rows := NewRows(body.items.value, id, s.nextItemId);
      FilterAppend(OfTask(id), kept, rows);
      FilterDropsAll(OfTask(id), kept);
      FilterKeepsAll(OfTask(id), rows);
      forall t | t != id
        ensures ItemsOf(r.store, t) == ItemsOf(s, t)
      {
        FilterAppend(OfTask(t), kept, rows);
        FilterDropsAll(OfTask(t), rows);
        FilterSubsumed(OfTask(t), NotOfTask(id), s.items);
      }
    }
  }

  lemma DeleteKeepsValid(s: Store, id: Id)
    requires Valid(s)
    ensures Valid(DeleteTask(s, id).store)
  {
    if id in s.tasks && s.tasks[id].kind == Checklist {
      FilterItemsKeepsValid(s, NotOfTask(id));
    }
  }

  /** Deleting a checklist task leaves no item under its id; deleting any
      task leaves every other task's items as they were. */
  lemma DeleteDropsOnlyItsItems(s: Store, id: Id)
    requires id in s.tasks
    ensures s.tasks[id].kind == Checklist ==> ItemsOf(DeleteTask(s, id).store, id) == []
    ensures forall t :: t != id ==> ItemsOf(DeleteTask(s, id).store, t) == ItemsOf(s, t)
  {
    if s.tasks[id].kind == Checklist {
      var kept := Filter(NotOfTask(id), s.items);
      FilterDropsAll(OfTask(id), kept);
      forall t | t != id
        ensures ItemsOf(DeleteTask(s, id).store, t) == ItemsOf(s, t)
      {
        FilterSubsumed(OfTask(t), NotOfTask(id), s.items);
      }
    }
  }

  /** Toggling a task twice restores the store. */
  lemma ToggleTwiceRestores(s: Store, id: Id)
    ensures ToggleTaskCompletion(ToggleTaskCompletion(s, id).store, id).store == s
  {
    if id in s.tasks {
      var once := ToggleTaskCompletion(s, id).store;
      assert once.tasks[id := s.tasks[id]] == s.tasks;
    }
  }

  lemma ToggleKeepsValid(s: Store, id: Id)
    requires Valid(s)
    ensures Valid(ToggleTaskCompletion(s, id).store)
  {
  }

  /** In a valid store an item id names at most one row. */
  lemma ItemIdsUnique(s: Store, i: int, j: int)
    requires Valid(s) && 0 <= i < |s.items| && 0 <= j < |s.items|
    requires s.items[i].id == s.items[j].id
    ensures i == j
  {
  }

  /** A successful subtask toggle negates the one item with that id under
      that task, and every other row is left as it was. */
  lemma SubtaskToggleFlipsOne(s: Store, taskId: Id, subtaskId: Id)
    requires Valid(s)
    requires ToggleSubtaskCompletion(s, taskId, subtaskId).status == 200
    ensures var k := FindItem(s.items, subtaskId, taskId, 0).value;
            var r := ToggleSubtaskCompletion(s, taskId, subtaskId);
            && s.items[k].id == subtaskId && s.items[k].taskId == taskId
            && r.store.tasks == s.tasks
            && |r.store.items| == |s.items|
            && r.store.items[k] == s.items[k].(completed := !s.items[k].completed)
            && (forall i :: 0 <= i < |s.items| && i != k ==> r.store.items[i] == s.items[i])
  {
    var k := FindItem(s.items, subtaskId, taskId, 0).value;
    var r := ToggleSubtaskCompletion(s, taskId, subtaskId);
    forall i | 0 <= i < |s.items| && i != k
      ensures r.store.items[i] == s.items[i]
    {
      if s.items[i].id == subtaskId {
        ItemIdsUnique(s, i, k);
      }
    }
  }

  lemma SubtaskToggleKeepsValid(s: Store, taskId: Id, subtaskId: Id)
    requires Valid(s)
    ensures Valid(ToggleSubtaskCompletion(s, taskId, subtaskId).store)
  {
    if taskId in s.tasks && FindItem(s.items, subtaskId, taskId, 0).Some? {
      var k := FindItem(s.items, subtaskId, taskId, 0).value;
      var items := SetCompleted(s.items, subtaskId, !s.items[k].completed);
      assert ToggleSubtaskCompletion(s, taskId, subtaskId).store == s.(items := items);
      assert forall i :: 0 <= i < |items| ==> items[i].id == s.items[i].id && items[i].taskId == s.items[i].taskId;
    }
  }
}
