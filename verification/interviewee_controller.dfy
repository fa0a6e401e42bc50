/** The server's interviewee handlers over an `interviewees` table keyed by
    id. Every write is validated first: five text fields must be present
    and non-empty and the expected salary must be present, where 0 counts
    as present. */
module IntervieweeController {
  import opened Wrappers
  import opened Tasks
  import Text

  datatype Interviewee = Interviewee(
    firstname: string,
    lastname: string,
    groupname: string,
    role: string,
    expectedSalary: int,
    dateOfDefense: string
  )

  /** A request body; `None` is a missing or null field. */
  datatype IntervieweeBody = IntervieweeBody(
    firstname: Option<string>,
    lastname: Option<string>,
    groupname: Option<string>,
    role: Option<string>,
    expectedSalary: Option<int>,
    dateOfDefense: Option<string>
  )

  /** The table and the id the database assigns next. */
  datatype Roster = Roster(rows: map<Id, Interviewee>, nextId: Id)

  ghost predicate Valid(r: Roster) {
    forall id :: id in r.rows ==> id < r.nextId
  }

  datatype Row = Row(id: Id, interviewee: Interviewee)

  datatype Payload = RowsJson(rows: seq<Row>) | ErrorJson(error: string) | MessageJson(message: string)

  datatype Reply = Reply(status: int, payload: Payload, roster: Roster)

  const AllFieldsRequired: string := "All fields are required"
  const IntervieweeNotFound: string := "Interviewee not found"
  const IntervieweeDeleted: string := "Interviewee deleted successfully"

  /** The record a body describes when it passes validation: every text
      field present and non-empty, the salary present (0 included). */
  function Validate(b: IntervieweeBody): (v: Option<Interviewee>)
    ensures v.Some? <==>
      && !Text.IsFalsy(b.firstname) && !Text.IsFalsy(b.lastname) && !Text.IsFalsy(b.groupname)
      && !Text.IsFalsy(b.role) && b.expectedSalary.Some? && !Text.IsFalsy(b.dateOfDefense)
    ensures v.Some? ==>
      && v.value.firstname == b.firstname.value && v.value.lastname == b.lastname.value
      && v.value.groupname == b.groupname.value && v.value.role == b.role.value
      && v.value.expectedSalary == b.expectedSalary.value && v.value.dateOfDefense == b.dateOfDefense.value
  {
    if Text.IsFalsy(b.firstname) || Text.IsFalsy(b.lastname) || Text.IsFalsy(b.groupname)
       || Text.IsFalsy(b.role) || b.expectedSalary.None? || Text.IsFalsy(b.dateOfDefense)
    then None
    else Some(Interviewee(b.firstname.value, b.lastname.value, b.groupname.value, b.role.value,
                          b.expectedSalary.value, b.dateOfDefense.value))
  }

  /** An expected salary of 0 is accepted like any other present value. */
  lemma ZeroSalaryIsPresent(b: IntervieweeBody)
    requires Validate(b).Some?
    ensures Validate(b.(expectedSalary := Some(0))).Some?
    ensures Validate(b.(expectedSalary := None)).None?
  {
  }

  /** `getInterviewee`: every row once, in the order the database lists
      them. */
  function GetInterviewees(r: Roster, order: seq<Id>): (reply: Reply)
    requires Enumerates(order, r.rows.Keys)
    ensures reply.status == 200 && reply.roster == r && reply.payload.RowsJson?
    ensures |reply.payload.rows| == |order|
    ensures forall i :: 0 <= i < |order| ==> reply.payload.rows[i] == Row(order[i], r.rows[order[i]])
    ensures forall id :: id in r.rows ==> exists i :: 0 <= i < |order| && reply.payload.rows[i] == Row(id, r.rows[id])
  {
    Reply(200, RowsJson(seq(|order|, i requires 0 <= i < |order| => Row(order[i], r.rows[order[i]]))), r)
  }

  /** `addInterviewee`: 400 and no insert for an invalid body; otherwise
      one row under a fresh id, answered with 201. */
  function AddInterviewee(r: Roster, b: IntervieweeBody): (reply: Reply)
    ensures Validate(b).None? ==> reply == Reply(400, ErrorJson(AllFieldsRequired), r)
    ensures Validate(b).Some? ==>
      && reply.status == 201
      && reply.roster == Roster(r.rows[r.nextId := Validate(b).value], r.nextId + 1)
      && reply.payload == RowsJson([Row(r.nextId, Validate(b).value)])
  {
    match Validate(b)
    case None => Reply(400, ErrorJson(AllFieldsRequired), r)
    case Some(v) => Reply(201, RowsJson([Row(r.nextId, v)]), Roster(r.rows[r.nextId := v], r.nextId + 1))
  }

  /** `updateInterviewee`: the same validation first (400, nothing
      touched); then 404 when no row has the id; otherwise all six fields
      of that row are overwritten and every other row is kept. */
  function UpdateInterviewee(r: Roster, id: Id, b: IntervieweeBody): (reply: Reply)
    ensures Validate(b).None? ==> reply == Reply(400, ErrorJson(AllFieldsRequired), r)
    ensures Validate(b).Some? && id !in r.rows ==> reply == Reply(404, ErrorJson(IntervieweeNotFound), r)
    ensures Validate(b).Some? && id in r.rows ==>
      && reply.status == 200
      && reply.roster.nextId == r.nextId
      && reply.roster.rows.Keys == r.rows.Keys
      && reply.roster.rows[id] == Validate(b).value
      && (forall k :: k in r.rows && k != id ==> reply.roster.rows[k] == r.rows[k])
  {
    match Validate(b)
    case None => Reply(400, ErrorJson(AllFieldsRequired), r)
    case Some(v) =>
      if id !in r.rows then Reply(404, ErrorJson(IntervieweeNotFound), r)
      else Reply(200, RowsJson([Row(id, v)]), r.(rows := r.rows[id := v]))
  }

  /** `deleteInterviewee`: removes the row with that id, if any, and
      answers 200 either way. */
  function DeleteInterviewee(r: Roster, id: Id): (reply: Reply)
    ensures reply == Reply(200, MessageJson(IntervieweeDeleted), reply.roster)
    ensures id !in reply.roster.rows
    ensures reply.roster.rows.Keys == r.rows.Keys - {id} && reply.roster.nextId == r.nextId
    ensures forall k :: k in reply.roster.rows ==> reply.roster.rows[k] == r.rows[k]
  {
    Reply(200, MessageJson(IntervieweeDeleted), r.(rows := r.rows - {id}))
  }

  /** A listing after an insert is the listing before it with the new row
      at the position the database lists it; here, at the end. */
  lemma ListingAfterAdd(r: Roster, b: IntervieweeBody, order: seq<Id>)
    requires Valid(r) && Validate(b).Some? && Enumerates(order, r.rows.Keys)
    ensures Enumerates(order + [r.nextId], AddInterviewee(r, b).roster.rows.Keys)
    ensures GetInterviewees(AddInterviewee(r, b).roster, order + [r.nextId]).payload.rows
         == GetInterviewees(r, order).payload.rows + [Row(r.nextId, Validate(b).value)]
  {
    var r' := AddInterviewee(r, b).roster;
    var order' := order + [r.nextId];
    assert r.nextId !in order;
    assert forall k :: k in r'.rows.Keys <==> k in order';
    var before := GetInterviewees(r, order).payload.rows;
    var after := GetInterviewees(r', order').payload.rows;
    forall i | 0 <= i < |order|
      ensures after[i] == before[i]
    {
      assert order'[i] == order[i] && order[i] in r.rows && order[i] != r.nextId;
    }
  }

  /** Deleting twice is deleting once. */
  lemma DeleteIsIdempotent(r: Roster, id: Id)
    ensures DeleteInterviewee(DeleteInterviewee(r, id).roster, id) == DeleteInterviewee(r, id)
  {
  }

  /** Adding an interviewee and deleting the new id restores the table. */
  lemma AddThenDeleteRestores(r: Roster, b: IntervieweeBody)
    requires Valid(r) && Validate(b).Some?
    ensures DeleteInterviewee(AddInterviewee(r, b).roster, r.nextId).roster.rows == r.rows
  {
    assert r.nextId !in r.rows;
    assert r.rows[r.nextId := Validate(b).value] - {r.nextId} == r.rows;
  }

  lemma WritesKeepValid(r: Roster, id: Id, b: IntervieweeBody)
    requires Valid(r)
    ensures Valid(AddInterviewee(r, b).roster)
    ensures Valid(UpdateInterviewee(r, id, b).roster)
    ensures Valid(DeleteInterviewee(r, id).roster)
  {
  }
}
