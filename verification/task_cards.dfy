/** What a task card hands back after a user action: its new local state,
    and the task it forwards to `onUpdate`, if any. */
module TaskCard {
  import opened Wrappers
  import opened Tasks

  datatype CardStep<+C> = CardStep(card: C, update: Option<Task>)
}

/** The basic task card: an editable title. */
module BasicTaskCard {
  import opened Wrappers
  import opened Tasks
  import Text
  import opened TaskCard

  datatype BasicCard = BasicCard(task: Task, editing: bool, editedTitle: string)

  /** The state a card starts in. */
  function Mount(t: Task): BasicCard {
    BasicCard(t, false, t.title)
  }

  /** The Edit button. */
  function StartEditing(c: BasicCard): BasicCard {
    c.(editing := true)
  }

  /** `handleSave`: a title that is blank after trimming forwards nothing
      and keeps the card editing; otherwise the task goes out with only its
      title replaced and the card leaves edit mode. */
  function HandleSave(c: BasicCard): (r: CardStep<BasicCard>)
    ensures Text.IsBlank(c.editedTitle) ==> r == CardStep(c, None)
    ensures !Text.IsBlank(c.editedTitle) ==>
      && r.update == Some(c.task.(title := c.editedTitle))
      && r.card == c.(editing := false)
  {
    Text.TrimEmptyIffBlank(c.editedTitle);
    if Text.Trim(c.editedTitle) != "" then CardStep(c.(editing := false), Some(c.task.(title := c.editedTitle)))
    else CardStep(c, None)
  }

  /** The card leaves edit mode only through a save that forwarded a task,
      and a forwarded task differs from the card's task in its title alone. */
  lemma SaveLeavesEditOnlyOnSuccess(c: BasicCard)
    requires c.editing
    ensures !HandleSave(c).card.editing <==> HandleSave(c).update.Some?
    ensures HandleSave(c).update.Some? ==> HandleSave(c).update.value.(title := c.task.title) == c.task
  {
  }
}

/** The timed task card: an editable title and due date. */
module TimedTaskCard {
  import opened Wrappers
  import opened Tasks
  import Text
  import opened TaskCard

  /** `editedDueDate` is `None` for the empty date field. */
  datatype TimedCard = TimedCard(task: Task, editing: bool, editedTitle: string, editedDueDate: Option<Timestamp>)

  /** `task.dueDate || ""`: the date field starts with the task's date, and
      empty for an undefined or `null` one. */
  function FieldOf(d: DueDate): (f: Option<Timestamp>)
    ensures f.Some? <==> d.At?
    ensures d.At? ==> f.value == d.time
  {
    match d
    case At(time) => Some(time)
    case _ => None
  }

  /** `editedDueDate || undefined`: an empty field is forwarded as an
      undefined due date, never as `null`. */
  function ForwardedDueDate(field: Option<Timestamp>): (d: DueDate)
    ensures d != Null
    ensures d.At? <==> field.Some?
    ensures d.At? ==> d.time == field.value
  {
    match field
    case Some(time) => At(time)
    case None => Unset
  }

  /** The state a card starts in. */
  function Mount(t: Task): TimedCard {
    TimedCard(t, false, t.title, FieldOf(t.dueDate))
  }

  function StartEditing(c: TimedCard): TimedCard {
    c.(editing := true)
  }

  /** `handleSave`: a blank title forwards nothing and keeps editing;
      otherwise title and due date are replaced (an empty date field
      becomes an undefined due date) and every other field is copied. */
  function HandleSave(c: TimedCard): (r: CardStep<TimedCard>)
    ensures Text.IsBlank(c.editedTitle) ==> r == CardStep(c, None)
    ensures !Text.IsBlank(c.editedTitle) ==>
      && r.update == Some(c.task.(title := c.editedTitle, dueDate := ForwardedDueDate(c.editedDueDate)))
      && r.card == c.(editing := false)
  {
    Text.TrimEmptyIffBlank(c.editedTitle);
    if Text.Trim(c.editedTitle) != "" then
      CardStep(c.(editing := false), Some(c.task.(title := c.editedTitle, dueDate := ForwardedDueDate(c.editedDueDate))))
    else CardStep(c, None)
  }

  /** Saving a new title without touching the date field forwards the due
      date the task had when it was a date; a `null` or undefined one goes
      out undefined. Every other field is kept. */
  lemma SaveWithoutDateEditKeepsDueDate(t: Task, title: string)
    requires !Text.IsBlank(title)
    ensures var saved := HandleSave(StartEditing(Mount(t)).(editedTitle := title)).update;
            && saved.Some?
            && saved.value == t.(title := title, dueDate := saved.value.dueDate)
            && (t.dueDate.At? ==> saved.value.dueDate == t.dueDate)
            && (!t.dueDate.At? ==> saved.value.dueDate == Unset)
  {
  }

  /** A cleared date field forwards the task with an undefined due date,
      which the request body then leaves out. */
  lemma ClearedDateSavesNoDueDate(c: TimedCard)
    requires !Text.IsBlank(c.editedTitle) && c.editedDueDate.None?
    ensures HandleSave(c).update.Some? && HandleSave(c).update.value.dueDate == Unset
  {
  }
}

/** The checklist task card: an editable title and a locally edited list of
    items, plus item toggling that is forwarded at once when not editing. */
module ChecklistTaskCard {
  import opened Wrappers
  import opened Tasks
  import Text
  import opened Seqs
  import opened TaskCard

  datatype ChecklistCard = ChecklistCard(
    task: Task,
    editing: bool,
    editedTitle: string,
    editedItems: seq<ChecklistItem>,
    newItemText: string
  )

  /** The items of `t`, an absent list read as empty. */
  function ItemsOf(t: Task): seq<ChecklistItem> {
    t.items.GetOr([])
  }

  /** The state a card starts in: an absent item list is edited as `[]`. */
  function Mount(t: Task): ChecklistCard {
    ChecklistCard(t, false, t.title, ItemsOf(t), "")
  }

  function StartEditing(c: ChecklistCard): ChecklistCard {
    c.(editing := true)
  }

  /** `handleSave`: a blank title does nothing; otherwise the task goes out
      with title and items replaced by the edited ones. */
  function HandleSave(c: ChecklistCard): (r: CardStep<ChecklistCard>)
    ensures Text.IsBlank(c.editedTitle) ==> r == CardStep(c, None)
    ensures !Text.IsBlank(c.editedTitle) ==>
      && r.update == Some(c.task.(title := c.editedTitle, items := Some(c.editedItems)))
      && r.card == c.(editing := false)
  {
    Text.TrimEmptyIffBlank(c.editedTitle);
    if Text.Trim(c.editedTitle) != "" then
      CardStep(c.(editing := false), Some(c.task.(title := c.editedTitle, items := Some(c.editedItems))))
    else CardStep(c, None)
  }

  /** Saving a card whose task had no item list, without editing any
      item, sends an explicit empty list. */
  lemma SaveWithoutEditsSendsEmptyItems(t: Task)
    requires t.items.None? && !Text.IsBlank(t.title)
    ensures var saved := HandleSave(StartEditing(Mount(t))).update;
            saved.Some? && saved.value.items == Some([]) && saved.value.(items := None) == t
  {
  }

  /** `addItem`: text that is not blank after trimming appends one new,
      incomplete item (with the caller-supplied fresh id) and clears the
      field; blank text changes nothing. */
  function AddItem(c: ChecklistCard, freshId: Id): (r: ChecklistCard)
    ensures Text.IsBlank(c.newItemText) ==> r == c
    ensures !Text.IsBlank(c.newItemText) ==>
      && r.editedItems == c.editedItems + [ChecklistItem(freshId, c.newItemText, false)]
      && r == c.(editedItems := r.editedItems, newItemText := "")
  {
    Text.TrimEmptyIffBlank(c.newItemText);
    if Text.Trim(c.newItemText) != "" then
      c.(editedItems := c.editedItems + [ChecklistItem(freshId, c.newItemText, false)], newItemText := "")
    else c
  }

  /** Keeps the items whose id is not `id`. */
  function OtherItem(id: Id): ChecklistItem -> bool {
    (item: ChecklistItem) => item.id != id
  }

  /** `removeItem`: drops every edited item with that id. */
  function RemoveItem(c: ChecklistCard, itemId: Id): (r: ChecklistCard)
    ensures IsFilterOf(OtherItem(itemId), c.editedItems, r.editedItems)
    ensures forall i :: 0 <= i < |r.editedItems| ==> r.editedItems[i].id != itemId && r.editedItems[i] in c.editedItems
    ensures forall i :: 0 <= i < |c.editedItems| && c.editedItems[i].id != itemId ==> c.editedItems[i] in r.editedItems
    ensures r == c.(editedItems := r.editedItems)
  {
    FilterSelects(OtherItem(itemId), c.editedItems);
    c.(editedItems := Filter(OtherItem(itemId), c.editedItems))
  }

  /** Adding an item under a fresh id and removing that id again restores
      the item list. */
  lemma AddThenRemoveRestores(c: ChecklistCard, freshId: Id)
    requires forall i :: 0 <= i < |c.editedItems| ==> c.editedItems[i].id != freshId
    ensures RemoveItem(AddItem(c, freshId), freshId).editedItems == c.editedItems
  {
    var added := AddItem(c, freshId).editedItems;
    FilterKeepsAll(OtherItem(freshId), c.editedItems);
    if added != c.editedItems {
      var item := ChecklistItem(freshId, c.newItemText, false);
      FilterAppend(OtherItem(freshId), c.editedItems, [item]);
      FilterDropsAll(OtherItem(freshId), [item]);
    }
  }

  /** Removing an id no item carries keeps the list as it is. */
  lemma RemoveAbsentItemKeepsList(c: ChecklistCard, itemId: Id)
    requires forall i :: 0 <= i < |c.editedItems| ==> c.editedItems[i].id != itemId
    ensures RemoveItem(c, itemId) == c
  {
    FilterKeepsAll(OtherItem(itemId), c.editedItems);
  }

  /** The items with id `id` flipped, the rest kept. */
  function FlipItems(items: seq<ChecklistItem>, id: Id): (r: seq<ChecklistItem>)
    ensures |r| == |items|
    ensures forall i :: 0 <= i < |items| ==>
      && r[i].id == items[i].id && r[i].text == items[i].text
      && r[i].completed == (if items[i].id == id then !items[i].completed else items[i].completed)
  {
    seq(|items|, i requires 0 <= i < |items| =>
      if items[i].id == id then items[i].(completed := !items[i].completed) else items[i])
  }

  /** Toggling the same item twice restores the list. */
  lemma FlipTwiceRestores(items: seq<ChecklistItem>, id: Id)
    ensures FlipItems(FlipItems(items, id), id) == items
  {
    var twice := FlipItems(FlipItems(items, id), id);
    forall i | 0 <= i < |items|
      ensures twice[i] == items[i]
    {
    }
  }

  /** `toggleItemCompletion`: flips the edited items with that id; when the
      card is not editing, the task goes out with only its items replaced. */
  function ToggleItemCompletion(c: ChecklistCard, itemId: Id): (r: CardStep<ChecklistCard>)
    ensures r.card == c.(editedItems := FlipItems(c.editedItems, itemId))
    ensures c.editing ==> r.update.None?
    ensures !c.editing ==> r.update == Some(c.task.(items := Some(r.card.editedItems)))
  {
    var updated := FlipItems(c.editedItems, itemId);
    CardStep(c.(editedItems := updated), if c.editing then None else Some(c.task.(items := Some(updated))))
  }

  /** Is the item completed. */
  function IsDone(item: ChecklistItem): bool {
    item.completed
  }

  /** The footer's "n of m items completed" counts. */
  function CompletedCount(t: Task): nat {
    |Filter(IsDone, ItemsOf(t))|
  }

  function TotalCount(t: Task): nat {
    |ItemsOf(t)|
  }

  /** The completed count never exceeds the total, and an absent item list
      reads as 0 of 0. */
  lemma CountsAreConsistent(t: Task)
    ensures CompletedCount(t) <= TotalCount(t)
    ensures t.items.None? ==> CompletedCount(t) == 0 && TotalCount(t) == 0
    ensures CompletedCount(t) == TotalCount(t) <==> forall i :: 0 <= i < TotalCount(t) ==> ItemsOf(t)[i].completed
  {
    var items := ItemsOf(t);
    if forall i :: 0 <= i < |items| ==> items[i].completed {
      FilterKeepsAll(IsDone, items);
    } else {
      var k :| 0 <= k < |items| && !items[k].completed;
      FilterPartition(IsDone, (item: ChecklistItem) => !item.completed, items);
      assert items[k] in Filter((item: ChecklistItem) => !item.completed, items);
    }
  }
}
