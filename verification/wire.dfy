/** The store's and the wire's snake_case task shape: what the server
    sends back and what the gateway parses. */
module Wire {
  import opened Wrappers
  import opened Tasks

  /** A `checklist_items` row as the server returns it; `taskId` is the
      `task_id` column, present on rows read from the store. */
  datatype WireItem = WireItem(id: Id, taskId: Option<Id>, text: string, completed: bool)

  /** A `tasks` row as the server returns it, with `items` attached for
      checklist tasks. */
  datatype WireTask = WireTask(
    id: Id,
    title: string,
    kind: Kind,
    completed: bool,
    createdAt: Timestamp,
    dueDate: Option<Timestamp>,
    items: Option<seq<WireItem>>
  )
}
