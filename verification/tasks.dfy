/** The task record held in memory (`TaskStatus`), the row the task store
    keeps for it, the keyword-argument patch `update_task` applies, and the
    conversions between a record and a row. */
module Tasks {
  import opened Common

  type TaskId = string

  /** `datetime.now().isoformat()`: opaque text, ordered only as text. */
  type Timestamp = string

  const Pending: string := "pending"
  const Running: string := "running"
  const Completed: string := "completed"
  const Failed: string := "failed"

  /** A terminal status: completed or failed. */
  predicate IsTerminal(status: string) {
    status == Completed || status == Failed
  }

  /** The request body of one generation (`GenerationRequest`); only
      `inputImage` influences the orchestration, the rest travels along
      into the workflow template and the stored request snapshot. */
  datatype GenerationRequest = GenerationRequest(
    prompt: string,
    negativePrompt: Option<string>,
    width: int,
    height: int,
    steps: int,
    cfg: real,
    seed: Option<int>,
    batchSize: int,
    batchName: Option<string>,
    inputImage: Option<string>)

  /** One in-memory task record (`TaskStatus`). */
  datatype TaskStatus = TaskStatus(
    taskId: TaskId,
    status: string,
    progress: real,
    message: string,
    createdAt: Timestamp,
    completedAt: Option<Timestamp>,
    resultUrl: Option<string>,
    resultUrls: Option<seq<string>>,
    error: Option<string>,
    requestData: Option<GenerationRequest>)

  /** One row of the `tasks` table, keyed by task id outside the row.
      JSON columns are kept structured; `None` is SQL NULL. */
  datatype Row = Row(
    status: string,
    progress: real,
    message: string,
    createdAt: Timestamp,
    completedAt: Option<Timestamp>,
    resultUrl: Option<string>,
    resultUrls: Option<seq<string>>,
    error: Option<string>,
    requestData: Option<GenerationRequest>,
    batchName: Option<string>)

  /** The optional keyword arguments of one `update_task` call; `None` is an
      omitted argument (Python's default `None`). */
  datatype Patch = Patch(
    status: Option<string>,
    progress: Option<real>,
    message: Option<string>,
    resultUrl: Option<string>,
    resultUrls: Option<seq<string>>,
    error: Option<string>)

  /** The status argument is "completed" or "failed". */
  predicate StampsCompletion(p: Patch) {
    p.status.Some? && IsTerminal(p.status.value)
  }

  /** The in-place mutation `update_task` performs on a known record:
      truthy arguments overwrite, `progress` overwrites whenever given, and a
      terminal status argument re-stamps `completedAt` with `now`. */
  function ApplyPatch(t: TaskStatus, p: Patch, now: Timestamp): (r: TaskStatus)
    ensures r.taskId == t.taskId && r.createdAt == t.createdAt && r.requestData == t.requestData
    ensures StampsCompletion(p) ==> r.completedAt == Some(now)
    ensures !StampsCompletion(p) ==> r.completedAt == t.completedAt
  {
    t.(status := if Truthy(p.status) then p.status.value else t.status,
       progress := if p.progress.Some? then p.progress.value else t.progress,
       message := if Truthy(p.message) then p.message.value else t.message,
       resultUrl := if Truthy(p.resultUrl) then p.resultUrl else t.resultUrl,
       resultUrls := if TruthyList(p.resultUrls) then p.resultUrls else t.resultUrls,
       error := if Truthy(p.error) then p.error else t.error,
       completedAt := if StampsCompletion(p) then Some(now) else t.completedAt)
  }

  /** How the `result_urls` column is written: `json.dumps(l) if l else None`. */
  function StoredUrls(l: Option<seq<string>>): (r: Option<seq<string>>)
    ensures r.Some? <==> TruthyList(l)
    ensures r.Some? ==> r == l
  {
    if TruthyList(l) then l else None
  }

  /** The row's columns that `update_task` rewrites agree with the record. */
  predicate RowAgrees(t: TaskStatus, row: Row) {
    && row.status == t.status
    && row.progress == t.progress
    && row.message == t.message
    && row.completedAt == t.completedAt
    && row.resultUrl == t.resultUrl
    && row.error == t.error
    && row.resultUrls == StoredUrls(t.resultUrls)
  }

  /** The write-back of `update_task`: rewrites the seven mutable columns of
      the task's row from the record and leaves the others alone. */
  function WriteBack(row: Row, t: TaskStatus): (r: Row)
    ensures RowAgrees(t, r)
    ensures r.createdAt == row.createdAt && r.requestData == row.requestData && r.batchName == row.batchName
  {
    row.(status := t.status, progress := t.progress, message := t.message,
         completedAt := t.completedAt, resultUrl := t.resultUrl, error := t.error,
         resultUrls := StoredUrls(t.resultUrls))
  }

  /** A row read back by the warm start, as a record. */
  function RowToTask(id: TaskId, row: Row): (r: TaskStatus)
    ensures r.taskId == id && r.createdAt == row.createdAt && r.requestData == row.requestData
    ensures row.resultUrls != Some([]) ==> RowAgrees(r, row) && WriteBack(row, r) == row
  {
    TaskStatus(id, row.status, row.progress, row.message, row.createdAt, row.completedAt,
               row.resultUrl, row.resultUrls, row.error, row.requestData)
  }

  /** Field rules of the patch: each overwritable field changes only when its
      argument is truthy (progress: whenever given), and then takes that
      argument's value. */
  lemma PatchFieldRules(t: TaskStatus, p: Patch, now: Timestamp)
    ensures var r := ApplyPatch(t, p, now);
      && (r.status != t.status ==> Truthy(p.status)) && (Truthy(p.status) ==> r.status == p.status.value)
      && (r.progress != t.progress ==> p.progress.Some?) && (p.progress.Some? ==> r.progress == p.progress.value)
      && (r.message != t.message ==> Truthy(p.message)) && (Truthy(p.message) ==> r.message == p.message.value)
      && (r.resultUrl != t.resultUrl ==> Truthy(p.resultUrl)) && (Truthy(p.resultUrl) ==> r.resultUrl == p.resultUrl)
      && (r.resultUrls != t.resultUrls ==> TruthyList(p.resultUrls)) && (TruthyList(p.resultUrls) ==> r.resultUrls == p.resultUrls)
      && (r.error != t.error ==> Truthy(p.error)) && (Truthy(p.error) ==> r.error == p.error)
  {
  }

  /** The patch with every empty-string or empty-list argument omitted;
      `progress` is kept as given, since it is tested only for `None`. */
  function DropFalsy(p: Patch): (q: Patch)
    ensures q.progress == p.progress
    ensures (q.status.None? || Truthy(q.status)) && (q.message.None? || Truthy(q.message))
    ensures (q.resultUrl.None? || Truthy(q.resultUrl)) && (q.error.None? || Truthy(q.error))
    ensures q.resultUrls.None? || TruthyList(q.resultUrls)
    ensures Truthy(p.status) ==> q.status == p.status
    ensures Truthy(p.message) ==> q.message == p.message
    ensures Truthy(p.resultUrl) ==> q.resultUrl == p.resultUrl
    ensures TruthyList(p.resultUrls) ==> q.resultUrls == p.resultUrls
    ensures Truthy(p.error) ==> q.error == p.error
  {
    Patch(if Truthy(p.status) then p.status else None,
          p.progress,
          if Truthy(p.message) then p.message else None,
          if Truthy(p.resultUrl) then p.resultUrl else None,
          if TruthyList(p.resultUrls) then p.resultUrls else None,
          if Truthy(p.error) then p.error else None)
  }

  /** Each empty-string or empty-list argument behaves exactly like an
      omitted one, whatever the other arguments are: in particular
      `status="failed", error=""` marks the task failed and leaves the error
      as it was. */
  lemma FalsyArgumentsIgnored(t: TaskStatus, p: Patch, now: Timestamp)
    ensures ApplyPatch(t, p, now) == ApplyPatch(t, DropFalsy(p), now)
  {
  }

  /** Applying the same patch twice at the same instant is the same as once. */
  lemma PatchIdempotent(t: TaskStatus, p: Patch, now: Timestamp)
    ensures ApplyPatch(ApplyPatch(t, p, now), p, now) == ApplyPatch(t, p, now)
  {
  }

  /** Reloading a row that agrees with a record gives back that record, up to
      the request snapshot (held only by the row) and an empty result list
      (stored as NULL). */
  lemma ReloadReflectsLastWrite(t: TaskStatus, row: Row)
    requires RowAgrees(t, row) && row.createdAt == t.createdAt
    ensures RowToTask(t.taskId, row) == t.(resultUrls := StoredUrls(t.resultUrls), requestData := row.requestData)
  {
  }
}
