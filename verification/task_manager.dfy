/** The client-side task cache: one record of state (`isInitialized`, the
    ordered task snapshot, the ordered listener registrations) threaded
    through its operations. Every mutation goes through the gateway first
    and changes the snapshot only when the gateway reports success; each
    change is followed by one delivery of the new snapshot to every
    registered listener, in registration order. */
module TaskManager {
  import opened Wrappers
  import opened Tasks
  import opened Wire
  import opened Seqs
  import Text
  import G = TaskAdapter

  /** The identity of a registered listener callback. */
  type Listener = nat

  /** One call of a listener with a copy of the snapshot. */
  datatype Delivery = Delivery(listener: Listener, snapshot: seq<Task>)

  datatype Cache = Cache(initialized: bool, tasks: seq<Task>, listeners: seq<Listener>)

  /** The result of one cache operation: the new state, the requests sent
      through the gateway, and the listener calls made. */
  datatype Outcome = Outcome(cache: Cache, sent: seq<G.Request>, delivered: seq<Delivery>)

  /** The state of the single instance when it is first created. */
  const Fresh: Cache := Cache(false, [], [])

  /** One call per registration in `ls`, in order, each with `snapshot`. */
  function Deliver(ls: seq<Listener>, snapshot: seq<Task>): (r: seq<Delivery>)
    ensures |r| == |ls|
    ensures forall i :: 0 <= i < |r| ==> r[i] == Delivery(ls[i], snapshot)
    decreases |ls|
  {
    if |ls| == 0 then [] else [Delivery(ls[0], snapshot)] + Deliver(ls[1..], snapshot)
  }

  /** `notifyListeners`: each listener is called once per registration, in
      registration order, with the current snapshot. */
  function Notify(c: Cache): seq<Delivery> {
    Deliver(c.listeners, c.tasks)
  }

  /** The outcome of a call that changed the snapshot to `tasks`. */
  function Commit(c: Cache, tasks: seq<Task>, sent: G.Request): Outcome {
    var c' := c.(tasks := tasks);
    Outcome(c', [sent], Notify(c'))
  }

  /** The outcome of a call whose gateway result was a failure. */
  function Unchanged(c: Cache, sent: G.Request): Outcome {
    Outcome(c, [sent], [])
  }

  /** `initialize`: the first call fetches and installs the fetched list
      (empty when the fetch failed, since the gateway swallows the error),
      marks the cache initialized and notifies; later calls do nothing and
      fetch nothing. */
  function Initialize(c: Cache, resp: G.Response<seq<WireTask>>): (o: Outcome)
    ensures c.initialized ==> o == Outcome(c, [], [])
    ensures !c.initialized ==>
      && o.cache == Cache(true, G.FetchTasks(resp).result, c.listeners)
      && o.sent == [G.FetchTasks(resp).request]
      && o.delivered == Notify(o.cache)
  {
    if c.initialized then Outcome(c, [], [])
    else
      var call := G.FetchTasks(resp);
      var c' := Cache(true, call.result, c.listeners);
      Outcome(c', [call.request], Notify(c'))
  }

  /** `addTask`: appends the created record on success. */
  function AddTask(c: Cache, task: Task, resp: G.Response<WireTask>): (o: Outcome)
    ensures o.sent == [G.CreateTask(task, resp).request]
    ensures o.cache.initialized == c.initialized && o.cache.listeners == c.listeners
    ensures resp.Ok? ==>
      && o.cache.tasks == c.tasks + [G.ToInternalTask(resp.payload)]
      && o.delivered == Notify(o.cache)
    ensures resp.Fail? ==> o.cache == c && o.delivered == []
  {
    var call := G.CreateTask(task, resp);
    match call.result
    case Some(created) => Commit(c, c.tasks + [created], call.request)
    case None => Unchanged(c, call.request)
  }

  /** Keeps the tasks whose id is not `id`. */
  function OtherThan(id: Id): Task -> bool {
    (t: Task) => t.id != id
  }

  /** `removeTask`: drops every entry with that id on success. */
  function RemoveTask(c: Cache, id: Id, resp: G.Response<()>): (o: Outcome)
    ensures o.sent == [G.DeleteTask(id, resp).request]
    ensures o.cache.initialized == c.initialized && o.cache.listeners == c.listeners
    ensures resp.Ok? ==>
      && IsFilterOf(OtherThan(id), c.tasks, o.cache.tasks)
      && (forall i :: 0 <= i < |o.cache.tasks| ==> o.cache.tasks[i].id != id && o.cache.tasks[i] in c.tasks)
      && (forall i :: 0 <= i < |c.tasks| && c.tasks[i].id != id ==> c.tasks[i] in o.cache.tasks)
      && o.delivered == Notify(o.cache)
    ensures resp.Fail? ==> o.cache == c && o.delivered == []
  {
    FilterSelects(OtherThan(id), c.tasks);
    var call := G.DeleteTask(id, resp);
    if call.result then Commit(c, Filter(OtherThan(id), c.tasks), call.request)
    else Unchanged(c, call.request)
  }

  /** Every entry of `ts` with id `id` replaced by `r`, the others kept. */
  function ReplaceById(ts: seq<Task>, id: Id, r: Task): (out: seq<Task>)
    ensures |out| == |ts|
    ensures forall i :: 0 <= i < |ts| ==> out[i] == (if ts[i].id == id then r else ts[i])
  {
    seq(|ts|, i requires 0 <= i < |ts| => if ts[i].id == id then r else ts[i])
  }

  /** The outcome of a call that answers with one canonical task record
      replacing the entries with id `id`. */
  function ReplaceOnSuccess(c: Cache, id: Id, call: G.Call<Option<Task>>): Outcome {
    match call.result
    case Some(r) => Commit(c, ReplaceById(c.tasks, id, r), call.request)
    case None => Unchanged(c, call.request)
  }

  /** `updateTask`: on success the entries with the submitted task's id are
      replaced by the record the server returned. */
  function UpdateTask(c: Cache, task: Task, resp: G.Response<WireTask>): (o: Outcome)
    ensures o.sent == [G.UpdateTask(task, resp).request]
    ensures resp.Ok? ==> o.cache == c.(tasks := ReplaceById(c.tasks, task.id, G.ToInternalTask(resp.payload)))
    ensures resp.Ok? ==> o.delivered == Notify(o.cache)
    ensures resp.Fail? ==> o.cache == c && o.delivered == []
  {
    ReplaceOnSuccess(c, task.id, G.UpdateTask(task, resp))
  }

  /** `toggleTaskCompletion`: the server's record replaces the entries
      with that id; the flag is never flipped locally. */
  function ToggleTaskCompletion(c: Cache, id: Id, resp: G.Response<WireTask>): (o: Outcome)
    ensures o.sent == [G.ToggleTaskCompletion(id, resp).request]
    ensures resp.Ok? ==> o.cache == c.(tasks := ReplaceById(c.tasks, id, G.ToInternalTask(resp.payload)))
    ensures resp.Ok? ==> o.delivered == Notify(o.cache)
    ensures resp.Fail? ==> o.cache == c && o.delivered == []
  {
    ReplaceOnSuccess(c, id, G.ToggleTaskCompletion(id, resp))
  }

  /** `toggleSubtaskCompletion`: the returned parent record replaces the
      entries with the parent's id. */
  function ToggleSubtaskCompletion(c: Cache, taskId: Id, subtaskId: Id, resp: G.Response<WireTask>): (o: Outcome)
    ensures o.sent == [G.ToggleSubtaskCompletion(taskId, subtaskId, resp).request]
    ensures resp.Ok? ==> o.cache == c.(tasks := ReplaceById(c.tasks, taskId, G.ToInternalTask(resp.payload)))
    ensures resp.Ok? ==> o.delivered == Notify(o.cache)
    ensures resp.Fail? ==> o.cache == c && o.delivered == []
  {
    ReplaceOnSuccess(c, taskId, G.ToggleSubtaskCompletion(taskId, subtaskId, resp))
  }

  /** The search predicate: the lowered title contains the lowered query. */
  function Matches(q: string): Task -> bool {
    (t: Task) => Text.Contains(Text.Lower(t.title), Text.Lower(q))
  }

  /** `searchTasks`: the tasks whose title contains the query, ignoring
      case, in snapshot order. */
  function SearchTasks(c: Cache, q: string): (r: seq<Task>)
    ensures IsFilterOf(Matches(q), c.tasks, r)
    ensures forall i :: 0 <= i < |r| ==> r[i] in c.tasks && Text.Contains(Text.Lower(r[i].title), Text.Lower(q))
    ensures forall i :: 0 <= i < |c.tasks| && Text.Contains(Text.Lower(c.tasks[i].title), Text.Lower(q)) ==> c.tasks[i] in r
  {
    FilterSelects(Matches(q), c.tasks);
    Filter(Matches(q), c.tasks)
  }

  /** `getTasks`: a copy of the snapshot. Values are immutable here, so
      the copy the program makes cannot be told apart from the snapshot. */
  function GetTasks(c: Cache): (r: seq<Task>)
    ensures |r| == |c.tasks|
    ensures forall i :: 0 <= i < |r| ==> r[i] == c.tasks[i]
  {
    c.tasks
  }

  /** `subscribe`: registers one more listener at the end. */
  function Subscribe(c: Cache, l: Listener): (c': Cache)
    ensures c'.listeners == c.listeners + [l]
    ensures c'.tasks == c.tasks && c'.initialized == c.initialized
  {
    c.(listeners := c.listeners + [l])
  }

  /** Keeps the registrations that are not `l`. */
  function NotListener(l: Listener): Listener -> bool {
    (x: Listener) => x != l
  }

  /** The function `subscribe` returns: removes every registration of `l`
      by identity. */
  function Unsubscribe(c: Cache, l: Listener): (c': Cache)
    ensures IsFilterOf(NotListener(l), c.listeners, c'.listeners)
    ensures l !in c'.listeners
    ensures forall i :: 0 <= i < |c.listeners| && c.listeners[i] != l ==> c.listeners[i] in c'.listeners
    ensures c'.tasks == c.tasks && c'.initialized == c.initialized
  {
    FilterSelects(NotListener(l), c.listeners);
    c.(listeners := Filter(NotListener(l), c.listeners))
  }

  // ---------------------------------------------------------------------
  // Properties of the cache.

  /** A second `initialize` after the first sends no request and changes
      nothing: over both calls exactly one fetch is made, and the snapshot
      is exactly the fetched list. */
  lemma InitializeFetchesOnce(c: Cache, first: G.Response<seq<WireTask>>, second: G.Response<seq<WireTask>>)
    requires !c.initialized
    ensures var o1 := Initialize(c, first);
            var o2 := Initialize(o1.cache, second);
            && o1.cache.initialized
            && o1.cache.tasks == G.FetchTasks(first).result
            && |o1.delivered| == |c.listeners|
            && o2 == Outcome(o1.cache, [], [])
            && |o1.sent + o2.sent| == 1
  {
  }

  /** A failed fetch still initializes the cache, with an empty snapshot,
      and still notifies; a later `initialize` will not retry. */
  lemma FailedFetchInitializesEmpty(c: Cache, later: G.Response<seq<WireTask>>)
    requires !c.initialized
    ensures Initialize(c, G.Fail).cache == Cache(true, [], c.listeners)
    ensures Initialize(c, G.Fail).delivered == Notify(Cache(true, [], c.listeners))
    ensures Initialize(Initialize(c, G.Fail).cache, later).sent == []
  {
  }

  /** Appending a record with a fresh id keeps the snapshot's ids unique. */
  lemma AddKeepsIdsUnique(c: Cache, task: Task, resp: G.Response<WireTask>)
    requires UniqueIds(c.tasks)
    requires resp.Ok? ==> resp.payload.id !in Ids(c.tasks)
    ensures UniqueIds(AddTask(c, task, resp).cache.tasks)
  {
    if resp.Ok? {
      var ts := AddTask(c, task, resp).cache.tasks;
      forall i, j | 0 <= i < j < |ts|
        ensures ts[i].id != ts[j].id
      {
        if j == |c.tasks| {
          assert Ids(c.tasks)[i] == ts[i].id;
        }
      }
    }
  }

  /** After a successful removal no entry carries the id, and removal
      keeps the remaining ids unique. */
  lemma RemoveKeepsIdsUnique(c: Cache, id: Id, resp: G.Response<()>)
    requires UniqueIds(c.tasks)
    ensures UniqueIds(RemoveTask(c, id, resp).cache.tasks)
  {
    if resp.Ok? {
      var key := (t: Task) => t.id as int;
      FilterKeepsDistinct(OtherThan(id), key, c.tasks);
    }
  }

  /** Removing an id that no entry carries leaves the snapshot as it was,
      even when the server acknowledged the deletion. */
  lemma RemoveAbsentIdKeepsSnapshot(c: Cache, id: Id, resp: G.Response<()>)
    requires id !in Ids(c.tasks)
    ensures RemoveTask(c, id, resp).cache == c
  {
    forall i | 0 <= i < |c.tasks|
      ensures OtherThan(id)(c.tasks[i])
    {
      assert Ids(c.tasks)[i] == c.tasks[i].id;
    }
    FilterKeepsAll(OtherThan(id), c.tasks);
  }

  /** Replacing by id with a record that carries that same id keeps the
      list of ids, hence their uniqueness. */
  lemma ReplaceKeepsIds(ts: seq<Task>, id: Id, r: Task)
    requires r.id == id
    ensures Ids(ReplaceById(ts, id, r)) == Ids(ts)
    ensures UniqueIds(ts) ==> UniqueIds(ReplaceById(ts, id, r))
  {
  }

  /** Replacing the entries of one id leaves the entries of every other id
      exactly where they were. */
  lemma ReplaceKeepsOthers(ts: seq<Task>, id: Id, r: Task, i: int)
    requires 0 <= i < |ts| && ts[i].id != id
    ensures ReplaceById(ts, id, r)[i] == ts[i]
  {
  }

  /** The empty query matches every task: the search returns the whole
      snapshot. */
  lemma SearchEmptyQuery(c: Cache)
    ensures SearchTasks(c, "") == c.tasks
  {
    forall i | 0 <= i < |c.tasks|
      ensures Matches("")(c.tasks[i])
    {
      assert Text.Lower("") == "";
      Text.ContainsEmpty(Text.Lower(c.tasks[i].title));
    }
    FilterKeepsAll(Matches(""), c.tasks);
  }

  /** The search ignores the case of the query. */
  lemma SearchIgnoresQueryCase(c: Cache, q: string)
    ensures SearchTasks(c, Text.Lower(q)) == SearchTasks(c, q)
  {
    Text.LowerIdempotent(q);
    FilterExtensional(Matches(Text.Lower(q)), Matches(q), c.tasks);
  }

  /** Subscribing a new listener and calling the returned unsubscribe
      function restores the registrations. */
  lemma SubscribeThenUnsubscribe(c: Cache, l: Listener)
    requires l !in c.listeners
    ensures Unsubscribe(Subscribe(c, l), l) == c
  {
    FilterAppend(NotListener(l), c.listeners, [l]);
    FilterKeepsAll(NotListener(l), c.listeners);
  }

  /** Removing the registrations of `l` removes exactly the calls to `l`
      and keeps the others in order. */
  lemma {:induction false} DeliverWithout(ls: seq<Listener>, snapshot: seq<Task>, l: Listener)
    ensures Deliver(Filter(NotListener(l), ls), snapshot)
         == Filter((d: Delivery) => d.listener != l, Deliver(ls, snapshot))
    decreases |ls|
  {
    if |ls| > 0 {
      DeliverWithout(ls[1..], snapshot, l);
      if ls[0] != l {
        var kept := Filter(NotListener(l), ls);
        assert kept[1..] == Filter(NotListener(l), ls[1..]);
      }
    }
  }

  /** After unsubscribing `l`, a notification is the notification that
      would have been made before, less every call to `l`: the other
      listeners are still called once per registration, in order. */
  lemma UnsubscribeSilencesOnlyThatListener(c: Cache, l: Listener)
    ensures Notify(Unsubscribe(c, l)) == Filter((d: Delivery) => d.listener != l, Notify(c))
    ensures forall i :: 0 <= i < |Notify(Unsubscribe(c, l))| ==> Notify(Unsubscribe(c, l))[i].listener != l
  {
    DeliverWithout(c.listeners, c.tasks, l);
  }

  /** The records a sequence of `addTask` calls appends: the converted
      payload of every ok response, in call order. */
  function Created(resps: seq<G.Response<WireTask>>): (r: seq<Task>)
    ensures |r| <= |resps|
    decreases |resps|
  {
    if |resps| == 0 then []
    else
      var last := resps[|resps| - 1];
      Created(resps[..|resps| - 1]) + (if last.Ok? then [G.ToInternalTask(last.payload)] else [])
  }

  /** The ids the server assigned across `resps` are fresh for `ts` and
      pairwise distinct. */
  ghost predicate FreshIds(ts: seq<Task>, resps: seq<G.Response<WireTask>>) {
    && (forall i, j :: 0 <= i < j < |resps| && resps[i].Ok? && resps[j].Ok? ==> resps[i].payload.id != resps[j].payload.id)
    && (forall i :: 0 <= i < |resps| && resps[i].Ok? ==> resps[i].payload.id !in Ids(ts))
  }

  /** Every record `Created` yields came from one ok response. */
  lemma {:induction false} CreatedFrom(resps: seq<G.Response<WireTask>>, k: int)
    requires 0 <= k < |Created(resps)|
    ensures exists i :: 0 <= i < |resps| && resps[i].Ok? && Created(resps)[k].id == resps[i].payload.id
    decreases |resps|
  {
    var init := resps[..|resps| - 1];
    if k < |Created(init)| {
      CreatedFrom(init, k);
      var i :| 0 <= i < |init| && init[i].Ok? && Created(init)[k].id == init[i].payload.id;
      assert resps[i] == init[i];
    } else {
      assert resps[|resps| - 1].Ok?;
    }
  }

  /** Replays `addTask` once per element of `tasks`, the i-th call getting
      the i-th response. The snapshot ends up extended by exactly one entry
      per ok response, in call order; when the server's ids are fresh, the
      snapshot's ids stay unique. */
  method AddAll(c: Cache, tasks: seq<Task>, resps: seq<G.Response<WireTask>>) returns (c': Cache)
    requires |tasks| == |resps|
    requires UniqueIds(c.tasks) && FreshIds(c.tasks, resps)
    ensures c'.tasks == c.tasks + Created(resps)
    ensures c'.listeners == c.listeners && c'.initialized == c.initialized
    ensures UniqueIds(c'.tasks)
  {
    c' := c;
    var i := 0;
    while i < |tasks|
      invariant 0 <= i <= |tasks|
      invariant c'.tasks == c.tasks + Created(resps[..i])
      invariant c'.listeners == c.listeners && c'.initialized == c.initialized
      invariant UniqueIds(c'.tasks)
    {
      assert resps[..i + 1][..i] == resps[..i];
      if resps[i].Ok? {
        forall k | 0 <= k < |c'.tasks|
          ensures c'.tasks[k].id != resps[i].payload.id
        {
          if k < |c.tasks| {
            assert Ids(c.tasks)[k] == c'.tasks[k].id;
          } else {
            CreatedFrom(resps[..i], k - |c.tasks|);
          }
        }
        assert resps[i].payload.id !in Ids(c'.tasks);
      }
      AddKeepsIdsUnique(c', tasks[i], resps[i]);
      c' := AddTask(c', tasks[i], resps[i]).cache;
      i := i + 1;
    }
    assert resps[..i] == resps;
  }
}
