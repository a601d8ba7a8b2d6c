/** `TaskManager`: the registry of live task records and the durable task
    store, both keyed by task id. Database writes are assumed to succeed
    except where the table's primary key rejects an insert. */
module TaskManager {
  import opened Common
  import opened Tasks

  datatype Manager = Manager(tasks: map<TaskId, TaskStatus>, store: map<TaskId, Row>)

  const CreatedMessage: string := "任务已创建"

  /** Rows loaded into memory at start-up (`LIMIT 100`). */
  const WarmStartLimit: nat := 100

  /** Every record sits under its own id. */
  predicate WellKeyed(tasks: map<TaskId, TaskStatus>) {
    forall k :: k in tasks ==> tasks[k].taskId == k
  }

  /** Record and row of `id` agree on every column `update_task` rewrites and
      on the creation time. */
  predicate Synced(m: Manager, id: TaskId) {
    id in m.tasks && id in m.store
    && RowAgrees(m.tasks[id], m.store[id]) && m.store[id].createdAt == m.tasks[id].createdAt
  }

  /** The record of a freshly created task. */
  predicate IsFreshRecord(t: TaskStatus, id: TaskId, now: Timestamp) {
    && t.taskId == id && t.status == Pending && t.progress == 0.0 && t.message == CreatedMessage
    && t.createdAt == now && t.completedAt == None && t.resultUrl == None && t.resultUrls == None
    && t.error == None && t.requestData == None
  }

  /** The outcome of `create_task`: the manager afterwards, and the id it
      returns, or `None` when the INSERT raised on an id the store already
      holds (the in-memory entry has been written by then). */
  datatype Created = Created(manager: Manager, id: Option<TaskId>)

  /** `create_task(request_data, batch_name)` with `id` the value `uuid4()`
      drew and `now` the creation time. */
  function CreateTask(m: Manager, request: GenerationRequest, batchName: Option<string>,
                      id: TaskId, now: Timestamp): (r: Created)
    ensures r.manager.tasks.Keys == m.tasks.Keys + {id}
    ensures IsFreshRecord(r.manager.tasks[id], id, now)
    ensures forall k :: k in m.tasks && k != id ==> r.manager.tasks[k] == m.tasks[k]
    ensures r.id.Some? <==> id !in m.store
    ensures r.id.Some? ==> r.id.value == id
    ensures r.id.None? ==> r.manager.store == m.store
    ensures r.id.Some? ==> r.manager.store.Keys == m.store.Keys + {id}
    ensures r.id.Some? ==>
      && Synced(r.manager, id)
      && r.manager.store[id].requestData == Some(request)
      && r.manager.store[id].batchName == batchName
    ensures forall k :: k in m.store && k != id ==> r.manager.store[k] == m.store[k]
  {
    var record := TaskStatus(id, Pending, 0.0, CreatedMessage, now, None, None, None, None, None);
    var row := Row(Pending, 0.0, CreatedMessage, now, None, None, None, None, Some(request), batchName);
    var tasks := m.tasks[id := record];
    if id in m.store then Created(Manager(tasks, m.store), None)
    else Created(Manager(tasks, m.store[id := row]), Some(id))
  }

  /** `update_task(task_id, ...)`: patch the record in memory, then rewrite
      the row's mutable columns from the record (a no-op UPDATE when the row
      is missing). An unknown id changes nothing. */
  function UpdateTask(m: Manager, id: TaskId, p: Patch, now: Timestamp): (r: Manager)
    ensures id !in m.tasks ==> r == m
    ensures r.tasks.Keys == m.tasks.Keys && r.store.Keys == m.store.Keys
    ensures id in m.tasks ==> r.tasks[id] == ApplyPatch(m.tasks[id], p, now)
    ensures forall k :: k in m.tasks && k != id ==> r.tasks[k] == m.tasks[k]
    ensures forall k :: k in m.store && k != id ==> r.store[k] == m.store[k]
    ensures id in m.tasks && id !in m.store ==> r.store == m.store
    ensures id in m.tasks && id in m.store ==>
      && RowAgrees(r.tasks[id], r.store[id])
      && r.store[id].createdAt == m.store[id].createdAt
      && r.store[id].requestData == m.store[id].requestData
      && r.store[id].batchName == m.store[id].batchName
  {
    if id !in m.tasks then m
    else
      var t := ApplyPatch(m.tasks[id], p, now);
      var store := if id in m.store then m.store[id := WriteBack(m.store[id], t)] else m.store;
      Manager(m.tasks[id := t], store)
  }

  /** `get_task(task_id)`: the registered record, or nothing for an id the
      registry does not hold (the store is not consulted). */
  function GetTask(m: Manager, id: TaskId): (r: Option<TaskStatus>)
    ensures r.Some? <==> id in m.tasks
    ensures r.Some? ==> r.value == m.tasks[id]
  {
    if id in m.tasks then Some(m.tasks[id]) else None
  }

  /** A fresh id yields a record and a row that are in sync; the record is
      visible through `get_task` and no other task changes. */
  lemma CreateFreshTask(m: Manager, request: GenerationRequest, batchName: Option<string>,
                        id: TaskId, now: Timestamp)
    requires id !in m.tasks && id !in m.store
    requires WellKeyed(m.tasks)
    ensures var r := CreateTask(m, request, batchName, id, now);
      && r.id == Some(id)
      && WellKeyed(r.manager.tasks)
      && Synced(r.manager, id)
      && GetTask(r.manager, id).Some? && IsFreshRecord(GetTask(r.manager, id).value, id, now)
      && (forall k :: k != id ==> GetTask(r.manager, k) == GetTask(m, k))
  {
  }

  /** `update_task` keeps record and row in sync, keeps ids well keyed, and a
      subsequent `get_task` returns the patched record. */
  lemma UpdateKeepsSync(m: Manager, id: TaskId, p: Patch, now: Timestamp)
    requires WellKeyed(m.tasks) && Synced(m, id)
    ensures var r := UpdateTask(m, id, p, now);
      && WellKeyed(r.tasks)
      && Synced(r, id)
      && GetTask(r, id) == Some(ApplyPatch(m.tasks[id], p, now))
  {
  }

  /** A patch with no arguments writes the record back to its row unchanged:
      it repairs a row that had drifted from memory. */
  lemma EmptyPatchResyncs(m: Manager, id: TaskId, now: Timestamp)
    requires id in m.tasks && id in m.store && m.store[id].createdAt == m.tasks[id].createdAt
    ensures var r := UpdateTask(m, id, Patch(None, None, None, None, None, None), now);
      && r.tasks == m.tasks
      && Synced(r, id)
  {
  }

  /** `get_all_tasks()`: every record of the registry, once each. */
  method AllTasks(m: Manager) returns (all: seq<TaskStatus>)
    ensures |all| == |m.tasks|
    ensures forall k :: k in m.tasks ==> m.tasks[k] in all
    ensures forall t :: t in all ==> t in m.tasks.Values
  {
    var rest := m.tasks.Keys;
    all := [];
    while rest != {}
      invariant rest <= m.tasks.Keys
      invariant |all| + |rest| == |m.tasks|
      invariant forall k :: k in m.tasks && k !in rest ==> m.tasks[k] in all
      invariant forall t :: t in all ==> t in m.tasks.Values
      decreases |rest|
    {
      var k :| k in rest;
      all := all + [m.tasks[k]];
      rest := rest - {k};
    }
  }

  /** A row among `candidates` with the greatest creation time. */
  method NewestRow(store: map<TaskId, Row>, candidates: set<TaskId>) returns (k: TaskId)
    requires candidates != {} && candidates <= store.Keys
    ensures k in candidates
    ensures forall u :: u in candidates ==> TextLe(store[u].createdAt, store[k].createdAt)
  {
    k :| k in candidates;
    TextLeReflexive(store[k].createdAt);
    var rest := candidates - {k};
    while rest != {}
      invariant rest <= candidates && k in candidates && k !in rest
      invariant forall u :: u in candidates && u !in rest ==> TextLe(store[u].createdAt, store[k].createdAt)
      decreases |rest|
    {
      var u :| u in rest;
      TextLeTotal(store[u].createdAt, store[k].createdAt);
      TextLeReflexive(store[u].createdAt);
      if !TextLe(store[u].createdAt, store[k].createdAt) {
        var old_k := k;
        forall v | v in candidates && v !in rest
          ensures TextLe(store[v].createdAt, store[u].createdAt)
        {
          TextLeTransitive(store[v].createdAt, store[old_k].createdAt, store[u].createdAt);
        }
        k := u;
      }
      rest := rest - {u};
    }
  }

  /** The ids of the `WarmStartLimit` rows with the newest creation time
      (`ORDER BY created_at DESC LIMIT 100`; ties broken arbitrarily, as
      SQLite leaves them). */
  method SelectRecent(store: map<TaskId, Row>) returns (loaded: set<TaskId>)
    ensures loaded <= store.Keys
    ensures |loaded| == if |store| < WarmStartLimit then |store| else WarmStartLimit
    ensures NewestFirst(store, loaded, store.Keys - loaded)
  {
    loaded := {};
    var rest := store.Keys;
    while |loaded| < WarmStartLimit && rest != {}
      invariant loaded <= store.Keys
      invariant rest == store.Keys - loaded
      invariant |loaded| <= WarmStartLimit
      invariant NewestFirst(store, loaded, rest)
      decreases |rest|
    {
      var k := NewestRow(store, rest);
      NewestFirstStep(store, loaded, rest, k);
      loaded := loaded + {k};
      rest := rest - {k};
    }
    LoadedCount(store.Keys, loaded, rest);
  }

  /** `load_tasks_from_database()` at start-up: the registry begins empty and
      receives the newest rows, each read back as a record. */
  method LoadRecent(store: map<TaskId, Row>) returns (tasks: map<TaskId, TaskStatus>)
    ensures tasks.Keys <= store.Keys
    ensures |tasks| == if |store| < WarmStartLimit then |store| else WarmStartLimit
    ensures forall k :: k in tasks ==> tasks[k] == RowToTask(k, store[k])
    ensures NewestFirst(store, tasks.Keys, store.Keys - tasks.Keys)
    ensures WellKeyed(tasks)
  {
    var loaded := SelectRecent(store);
    tasks := map k | k in loaded :: RowToTask(k, store[k]);
    assert tasks.Keys == loaded;
  }

  lemma NewestFirstStep(store: map<TaskId, Row>, loaded: set<TaskId>, rest: set<TaskId>, k: TaskId)
    requires loaded <= store.Keys && rest <= store.Keys && k in rest
    requires NewestFirst(store, loaded, rest)
    requires forall u :: u in rest ==> TextLe(store[u].createdAt, store[k].createdAt)
    ensures NewestFirst(store, loaded + {k}, rest - {k})
  {
  }

  lemma LoadedCount(all: set<TaskId>, loaded: set<TaskId>, rest: set<TaskId>)
    requires loaded <= all && rest == all - loaded
    requires |loaded| <= WarmStartLimit
    requires |loaded| == WarmStartLimit || rest == {}
    ensures |loaded| == if |all| < WarmStartLimit then |all| else WarmStartLimit
  {
    assert all == loaded + rest;
  }

  /** Every row in `loaded` is at least as new as every row in `rest`. */
  predicate NewestFirst(store: map<TaskId, Row>, loaded: set<TaskId>, rest: set<TaskId>)
    requires loaded <= store.Keys && rest <= store.Keys
  {
    forall s, u :: s in loaded && u in rest ==> TextLe(store[u].createdAt, store[s].createdAt)
  }
}
