/** The gateway between the client task record and the server's wire
    shape. Each call issues exactly one request; the server's answer is a
    parameter (`Response`), and every failure -- a non-ok status, a network
    error, an unreadable body -- is the single value `Fail`, which the
    gateway turns into `[]`, `None` or `false` and never into an error. */
module TaskAdapter {
  import opened Wrappers
  import opened Tasks
  import opened Wire

  datatype Method = Get | Post | Put | Delete | Patch

  /** The paths under the API root the gateway addresses. */
  datatype Endpoint =
    | TaskCollection                              // /api/tasks
    | TaskAt(id: Id)                              // /api/tasks/{id}
    | ToggleAt(id: Id)                            // /api/tasks/{id}/toggle
    | SubtaskToggleAt(taskId: Id, subtaskId: Id)  // /api/tasks/{taskId}/subtasks/{subtaskId}/toggle

  /** The JSON body sent on create and update: no `id`, no `createdAt`.
      A `dueDate` of `Unset` is a `due_date` key that `JSON.stringify`
      leaves out; `Null` is an explicit `null`. */
  datatype TaskBody = TaskBody(
    title: string,
    kind: Kind,
    completed: bool,
    dueDate: DueDate,
    items: Option<seq<ChecklistItem>>
  )

  datatype Request = Request(verb: Method, endpoint: Endpoint, body: Option<TaskBody>)

  /** What came back from one request: an ok response with its parsed
      payload, or a failure of any kind. */
  datatype Response<+T> = Ok(payload: T) | Fail

  /** One gateway call: the request it sent and the value it returned. */
  datatype Call<+R> = Call(request: Request, result: R)

  /** The outbound body built from a client task. */
  function ToBody(t: Task): (b: TaskBody)
    ensures b.title == t.title && b.kind == t.kind && b.completed == t.completed
    ensures b.dueDate == t.dueDate && b.items == t.items
  {
    TaskBody(t.title, t.kind, t.completed, t.dueDate, t.items)
  }

  /** The outbound body never depends on the client's id or creation time. */
  lemma BodyIgnoresIdAndCreatedAt(t: Task, id: Id, createdAt: Timestamp)
    ensures ToBody(t.(id := id, createdAt := createdAt)) == ToBody(t)
  {
  }

  /** Projects a wire item onto the client's item fields, dropping `task_id`. */
  function ToInternalItem(w: WireItem): (c: ChecklistItem)
    ensures c.id == w.id && c.text == w.text && c.completed == w.completed
  {
    ChecklistItem(w.id, w.text, w.completed)
  }

  /** The client value of a `due_date` the server sent: its `null` stays
      `null`, so a task read from the server never has an undefined date. */
  function ReadDueDate(d: Option<Timestamp>): (r: DueDate)
    ensures r != Unset
    ensures r.At? <==> d.Some?
    ensures r.At? ==> r.time == d.value
  {
    match d
    case None => Null
    case Some(time) => At(time)
  }

  /** `convertToInternalTask`: renames `created_at` and `due_date`, keeps an
      absent `items` absent and maps a present one element by element. */
  function ToInternalTask(w: WireTask): (t: Task)
    ensures t.id == w.id && t.title == w.title && t.kind == w.kind && t.completed == w.completed
    ensures t.createdAt == w.createdAt && t.dueDate == ReadDueDate(w.dueDate)
    ensures t.items.Some? <==> w.items.Some?
    ensures w.items.Some? ==>
      && |t.items.value| == |w.items.value|
      && forall i :: 0 <= i < |w.items.value| ==> t.items.value[i] == ToInternalItem(w.items.value[i])
  {
    var items :=
      match w.items
      case None => None
      case Some(ws) => Some(seq(|ws|, i requires 0 <= i < |ws| => ToInternalItem(ws[i])));
    Task(w.id, w.title, w.kind, w.completed, w.createdAt, ReadDueDate(w.dueDate), items)
  }

  /** The same record in wire field names, given an `id` and a
      `created_at`: items are tagged with the task id, and a due date that
      is not a date is written `null`. This is the shape `ToInternalTask`
      reads, not what the server stores for the body; the server's own
      treatment of a body is `TaskController`'s. */
  function InWireNames(body: TaskBody, id: Id, createdAt: Timestamp): (w: WireTask)
    ensures w.id == id && w.createdAt == createdAt
    ensures w.title == body.title && w.kind == body.kind && w.completed == body.completed
    ensures w.dueDate.Some? <==> body.dueDate.At?
    ensures w.items.Some? <==> body.items.Some?
  {
    var items :=
      match body.items
      case None => None
      case Some(cs) =>
        Some(seq(|cs|, i requires 0 <= i < |cs| => WireItem(cs[i].id, Some(id), cs[i].text, cs[i].completed)));
    var due := match body.dueDate case At(time) => Some(time) case _ => None;
    WireTask(id, body.title, body.kind, body.completed, createdAt, due, items)
  }

  /** Writing a task's body in wire field names and reading it back gives
      the task back on every field, except that an undefined due date
      comes back as `null`: the wire has no "undefined". */
  lemma RoundTrip(t: Task)
    ensures ToInternalTask(InWireNames(ToBody(t), t.id, t.createdAt))
         == t.(dueDate := if t.dueDate.Unset? then Null else t.dueDate)
    ensures t.dueDate != Unset ==> ToInternalTask(InWireNames(ToBody(t), t.id, t.createdAt)) == t
  {
    var r := ToInternalTask(InWireNames(ToBody(t), t.id, t.createdAt));
    if t.items.Some? {
      assert r.items.value == t.items.value;
    }
  }

  /** `fetchTasks`: the converted records in response order, or `[]` on any
      failure. */
  function FetchTasks(resp: Response<seq<WireTask>>): (c: Call<seq<Task>>)
    ensures c.request == Request(Get, TaskCollection, None)
    ensures resp.Fail? ==> c.result == []
    ensures resp.Ok? ==>
      && |c.result| == |resp.payload|
      && forall i :: 0 <= i < |resp.payload| ==> c.result[i] == ToInternalTask(resp.payload[i])
  {
    var result :=
      match resp
      case Fail => []
      case Ok(ws) => seq(|ws|, i requires 0 <= i < |ws| => ToInternalTask(ws[i]));
    Call(Request(Get, TaskCollection, None), result)
  }

  /** Fetching a concatenated answer gives the concatenated results: the
      conversion keeps response order and drops or adds nothing. */
  lemma FetchAppend(ws1: seq<WireTask>, ws2: seq<WireTask>)
    ensures FetchTasks(Ok(ws1 + ws2)).result == FetchTasks(Ok(ws1)).result + FetchTasks(Ok(ws2)).result
  {
  }

  /** The value a call that answers with one task returns. */
  function TaskResult(resp: Response<WireTask>): (r: Option<Task>)
    ensures r.Some? <==> resp.Ok?
    ensures resp.Ok? ==> r.value == ToInternalTask(resp.payload)
  {
    match resp
    case Fail => None
    case Ok(w) => Some(ToInternalTask(w))
  }

  /** `createTask`: POSTs the body to the collection. */
  function CreateTask(t: Task, resp: Response<WireTask>): (c: Call<Option<Task>>)
    ensures c.request == Request(Post, TaskCollection, Some(ToBody(t)))
    ensures c.result == TaskResult(resp)
  {
    Call(Request(Post, TaskCollection, Some(ToBody(t))), TaskResult(resp))
  }

  /** `updateTask`: PUTs the body to the task's own path. */
  function UpdateTask(t: Task, resp: Response<WireTask>): (c: Call<Option<Task>>)
    ensures c.request == Request(Put, TaskAt(t.id), Some(ToBody(t)))
    ensures c.result == TaskResult(resp)
  {
    Call(Request(Put, TaskAt(t.id), Some(ToBody(t))), TaskResult(resp))
  }

  /** `deleteTask`: true exactly when the response is ok. */
  function DeleteTask(id: Id, resp: Response<()>): (c: Call<bool>)
    ensures c.request == Request(Delete, TaskAt(id), None)
    ensures c.result <==> resp.Ok?
  {
    Call(Request(Delete, TaskAt(id), None), resp.Ok?)
  }

  /** `toggleTaskCompletion`: the server flips the flag; the client only
      converts what comes back. */
  function ToggleTaskCompletion(id: Id, resp: Response<WireTask>): (c: Call<Option<Task>>)
    ensures c.request == Request(Patch, ToggleAt(id), None)
    ensures c.result == TaskResult(resp)
  {
    Call(Request(Patch, ToggleAt(id), None), TaskResult(resp))
  }

  /** `toggleSubtaskCompletion`: answers with the whole parent task. */
  function ToggleSubtaskCompletion(taskId: Id, subtaskId: Id, resp: Response<WireTask>): (c: Call<Option<Task>>)
    ensures c.request == Request(Patch, SubtaskToggleAt(taskId, subtaskId), None)
    ensures c.result == TaskResult(resp)
  {
    Call(Request(Patch, SubtaskToggleAt(taskId, subtaskId), None), TaskResult(resp))
  }
}
