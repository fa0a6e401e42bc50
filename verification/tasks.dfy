/** The client-side task record (camelCase), its checklist items, and the
    three task kinds with their wire names. */
module Tasks {
  import opened Wrappers

  /** An opaque record identifier; the code only ever compares ids for
      equality. */
  type Id = nat

  /** An abstract point in time; only the order of two timestamps matters. */
  type Timestamp = int

  /** The closed set of task kinds, `"basic" | "timed" | "checklist"`. */
  datatype Kind = Basic | Timed | Checklist

  /** The string the wire and the store use for a kind. */
  function KindName(k: Kind): string {
    match k
    case Basic => "basic"
    case Timed => "timed"
    case Checklist => "checklist"
  }

  /** Reads a kind from its wire name; every other string is not a kind. */
  function ParseKind(s: string): (r: Option<Kind>)
    ensures r.Some? <==> (s == "basic" || s == "timed" || s == "checklist")
    ensures r.Some? ==> KindName(r.value) == s
  {
    if s == "basic" then Some(Basic)
    else if s == "timed" then Some(Timed)
    else if s == "checklist" then Some(Checklist)
    else None
  }

  /** Every kind is read back from its own name. */
  lemma ParseKindName(k: Kind)
    ensures ParseKind(KindName(k)) == Some(k)
  {
  }

  datatype ChecklistItem = ChecklistItem(id: Id, text: string, completed: bool)

  /** A client task's `dueDate`: `Unset` when the property is undefined
      (and so left out of a JSON body), `Null` when it holds the `null` the
      server sends for a task without a date, `At(time)` for a date. The
      empty string is never stored: the cards and the form turn it into
      `undefined` first. Only `At` is truthy. */
  datatype DueDate = Unset | Null | At(time: Timestamp)

  /** A task as the client holds it. */
  datatype Task = Task(
    id: Id,
    title: string,
    kind: Kind,
    completed: bool,
    createdAt: Timestamp,
    dueDate: DueDate,
    items: Option<seq<ChecklistItem>>
  )

  /** The ids of the tasks in `ts`, in order. */
  function Ids(ts: seq<Task>): (r: seq<Id>)
    ensures |r| == |ts|
    ensures forall i :: 0 <= i < |ts| ==> r[i] == ts[i].id
  {
    seq(|ts|, i requires 0 <= i < |ts| => ts[i].id)
  }

  /** `order` lists every id of `keys` exactly once: how a database
      listing enumerates the rows of a table in some unspecified order. */
  ghost predicate Enumerates(order: seq<Id>, keys: set<Id>) {
    && (forall i, j :: 0 <= i < j < |order| ==> order[i] != order[j])
    && (forall k :: k in keys <==> k in order)
  }

  /** No two tasks of `ts` share an id. */
  ghost predicate UniqueIds(ts: seq<Task>) {
    forall i, j :: 0 <= i < j < |ts| ==> ts[i].id != ts[j].id
  }
}
