# ComfyUI generation API server: task bookkeeping and dispatcher, in Dafny

This project models the core of `comfyui_api_server.py`, a FastAPI server that queues image
generation jobs for a ComfyUI backend. The model covers three parts:

- **The task manager.** It keeps an in-memory registry of `TaskStatus` records and a SQLite
  `tasks` table. It creates tasks, patches them with `update_task` (truthy arguments overwrite,
  and a terminal status stamps `completed_at`), and writes every patched record back to its row.
  It serves `get_task` and `get_all_tasks`. At start-up it reloads the 100 newest rows. It also
  broadcasts each update to the connected websockets and drops the connections whose send fails.
- **The per-task driver `process_single_task`.** It marks the task running, then stages and
  uploads the input image if there is one. It chooses the workflow template (`create_workflow`)
  and submits the prompt. It polls the history up to 150 times, with progress going linearly from
  35% towards 90%. It then probes the candidate output nodes "60", "8" and "115:116" in that
  order, downloads and saves every image under a derived name, and completes the task with one
  URL per image. Every failure on the way becomes a terminal "failed" status.
- **The pure helpers the driver inlines:** the output-node probe, the artifact file naming and
  the poll-progress formula.

How the model is built:

- **The backend is a script.** A `Dispatcher.Script` holds what the environment answers at each
  step: whether the staged image exists, what the upload and the submit return or raise, the
  answer to the `a`-th history request, and the outcome of the `i`-th download. Given one,
  `Dispatcher.Dispatch` returns the ordered `update_task` patches and the ordered backend calls.
- **Replay connects the driver to the manager.** `Lifecycle.Replay` applies those patches to the
  task manager. The lemmas then state what a client of `get_task` sees, and that the record and
  its row stay in sync.
- **Modules.**
  - `Common`: option type, Python truthiness, decimal text, text order.
  - `Tasks`: record, row, patch.
  - `TaskManager`.
  - `Broadcast`.
  - `Backend`: the shapes of the backend's answers.
  - `Artifacts`: file naming.
  - `OutputProbe`.
  - `Dispatcher`.
  - `Lifecycle`.

Three behaviours of the code are worth stating outright:

- **A failure whose exception text is empty leaves `error` unset.** `update_task` ignores an
  empty `error` argument, so such a task is "failed" with no error (`Lifecycle.LifecycleOutcome`,
  `Tasks.FalsyArgumentsIgnored`).
- **The timeout error text is "任务超时".**
- **The progress values are exact.** They are 5, then 10 (only with an input image), 15, 25
  and 35; then 35 + attempt·55/150 for attempts 0 to 149; then 90 and 100.

The upload's returned name replaces the request's `input_image` before the workflow is chosen.
An empty returned name therefore selects the text-to-image template (`Dispatcher.PreludeCalls`).

## Model

| member | source | states |
|---|---|---|
| Tasks.ApplyPatch | comfyui_api_server.py:292-308 | patching never changes the id, creation time or request snapshot; `completed_at` becomes the call's instant exactly when the status argument is "completed" or "failed", and is otherwise kept |
| Tasks.PatchFieldRules | comfyui_api_server.py:294-305 | status, message, result_url, result_urls and error change only when their argument is truthy, and then take it; progress changes whenever it is given, 0 included |
| Tasks.FalsyArgumentsIgnored | comfyui_api_server.py:294-305 | for every patch, each empty-string or empty-list argument acts exactly like an omitted one, whatever the other arguments, so `status="failed", error=""` leaves the error as it was |
| Tasks.PatchIdempotent | comfyui_api_server.py:292-308 | applying the same patch twice at the same instant equals applying it once |
| Tasks.StoredUrls | comfyui_api_server.py:315 | the result-URL column is NULL exactly when the list is absent or empty, and is the list otherwise |
| Tasks.WriteBack | comfyui_api_server.py:317-321 | after the UPDATE the row's seven rewritten columns agree with the record, and its creation time, request snapshot and batch name are untouched |
| Tasks.RowToTask | comfyui_api_server.py:217-250 | a row read back keeps its id, creation time and request snapshot; unless its result list is stored empty, the record agrees with the row and writing it back leaves the row exactly as it was (see `Tasks.ReloadReflectsLastWrite` for the other direction) |
| Tasks.ReloadReflectsLastWrite | comfyui_api_server.py:217-245 | a row read back at start-up reproduces the record last written to it, up to the request snapshot and an empty result list read back as absent |
| TaskManager.CreateTask | comfyui_api_server.py:255-282 | the registry gains exactly the new id with a pending, 0%, "任务已创建" record carrying no completion time, results, error or request; other records are untouched; with a fresh id the row is inserted in sync and carries the request and batch name; an id the table already holds makes the insert fail and leaves the table unchanged |
| TaskManager.CreateFreshTask | comfyui_api_server.py:255-282 | a fresh id yields record and row in sync, a record visible through `get_task`, and no other task changes |
| TaskManager.UpdateTask | comfyui_api_server.py:284-324 | an unknown id changes nothing; no id is added or removed; other tasks are untouched; a known id's record becomes the patched record; its row is rewritten to agree with it, keeping creation time, request snapshot and batch name; a missing row stays missing |
| TaskManager.UpdateKeepsSync | comfyui_api_server.py:284-324 | `update_task` keeps every record under its own id and record and row in sync, and `get_task` then returns the patched record |
| TaskManager.EmptyPatchResyncs | comfyui_api_server.py:289-324 | a call with no arguments leaves every record as it was and brings the row back in line with the record |
| TaskManager.GetTask | comfyui_api_server.py:350-352 | `get_task` returns a record exactly for a registered id, and then that id's record; the table is not consulted |
| TaskManager.AllTasks | comfyui_api_server.py:354-356 | `get_all_tasks` returns one entry per registered task, containing every record and nothing else |
| TaskManager.NewestRow | comfyui_api_server.py:213 | picks a row with the greatest creation time among the candidates |
| TaskManager.SelectRecent | comfyui_api_server.py:209-215 | selects min(rows, 100) rows, every selected row at least as new as every unselected one |
| TaskManager.LoadRecent | comfyui_api_server.py:204-253 | the warm start loads min(rows, 100) of the newest rows, each under its own id and equal to its row read back as a record |
| Broadcast.Kept | comfyui_api_server.py:339-348 | the reference filter: a connection remains exactly when it was connected and its send went through, in the original order |
| Broadcast.Dropped | comfyui_api_server.py:339-344 | the `disconnected` list; `Broadcast.DroppedWithin` shows it holds only connections whose send failed, each at most as often as it is connected, and `Broadcast.SendAll` that the send loop builds exactly it |
| Broadcast.RemoveFirst | comfyui_api_server.py:348 | `list.remove` deletes the first occurrence of the element and keeps every other entry, in order |
| Broadcast.RemoveFirstMultiset | comfyui_api_server.py:348 | `list.remove` takes exactly one copy of the element out of the list |
| Broadcast.RemoveEach | comfyui_api_server.py:347-348 | removing each disconnected entry in turn; `Broadcast.RemoveDroppedIsKept` shows that applied to the failed sends it leaves exactly the reference filter, and `Broadcast.RemoveAll` that the removal loop computes it |
| Broadcast.DroppedWithin | comfyui_api_server.py:339-344 | the disconnected list holds only connections whose send failed, each at most as often as it is connected |
| Broadcast.RemoveDroppedIsKept | comfyui_api_server.py:339-348 | removing the failed connections one first-occurrence at a time leaves exactly the reference filter |
| Broadcast.SendAll | comfyui_api_server.py:339-344 | the send loop's disconnected list is exactly the connections whose send failed, in order, repeats included |
| Broadcast.RemoveAll | comfyui_api_server.py:347-348 | the removal loop removes the first remaining occurrence of each disconnected entry in turn |
| Broadcast.BroadcastUpdate | comfyui_api_server.py:329-348 | after the send and removal loops the connection list is the connections whose send went through, in order |
| Backend.Lookup | comfyui_api_server.py:790 | a node id is absent exactly when no output carries it, and a found node is one the outputs list under that id |
| Artifacts.LastIndexOf | comfyui_api_server.py:819-820 | finds the last occurrence of the separator: no later one exists, and none at all when it returns nothing |
| Artifacts.SplitName | comfyui_api_server.py:819-820 | with a dot, base + "." + extension is the backend name and the extension has no dot; without one, the base is the whole name and the extension "png" |
| Artifacts.ArtifactUrls | comfyui_api_server.py:807-827 | one URL per image, in enumeration order, each the URL of that image's saved name |
| Artifacts.ArtifactName | comfyui_api_server.py:819-821 | the saved name of the `i`-th image; `Artifacts.ArtifactNameExtension` shows it keeps the image's extension with stem `task_base_NN`, and `Artifacts.SerialRoundTrip` reads `i + 1` back from it |
| Artifacts.ArtifactUrl | comfyui_api_server.py:827 | the published URL `/images/` plus the saved name; `Artifacts.ArtifactNamesDistinct` shows two images of a task never share one |
| Artifacts.CompletionMessage | comfyui_api_server.py:837 | the completion message; `Artifacts.CompletionMessageCount` shows it carries the image count in decimal, which reads back |
| Artifacts.ArtifactNameExtension | comfyui_api_server.py:819-821 | the saved name keeps the image's extension (or "png") and its stem is `task_base_NN` |
| Artifacts.SerialRoundTrip | comfyui_api_server.py:821 | the serial number read back from the saved name of the `i`-th image is `i + 1` |
| Artifacts.ArtifactNamesDistinct | comfyui_api_server.py:810-827 | two images of one task never share a saved name or URL, whatever their backend names |
| Artifacts.CompletionMessageCount | comfyui_api_server.py:837 | the completion message carries the image count in decimal, which reads back |
| Common.ZeroPad2 | comfyui_api_server.py:821 | `{n:02d}` prints digits only: exactly two below 100, more from 100 on, and never a leading zero beyond the padding |
| Common.ParseDecimalOfZeroPad2 | comfyui_api_server.py:821 | `{n:02d}` reads back as `n` |
| Common.ZeroPad2Injective | comfyui_api_server.py:821 | distinct serial numbers print as distinct texts |
| Common.Decimal | comfyui_api_server.py:837 | `str(n)` is a non-empty run of digits, one digit exactly below 10, at most two exactly below 100, with no leading zero for a positive number; `Common.ParseDecimalOfDecimal` reads it back as `n` |
| OutputProbe.ProbeFrom | comfyui_api_server.py:787-803 | the first candidate that is present with a non-empty image list is chosen, every earlier candidate being absent or empty; a present candidate without an images key raises; nothing is found exactly when every candidate is absent or empty |
| OutputProbe.Probe | comfyui_api_server.py:787-801 | over the candidates "60", "8" and "115:116" in that order, the images of the first one present with a non-empty list, every earlier one absent or empty; a present candidate without images raises first; nothing is found exactly when all three are absent or empty |
| OutputProbe.NoImagesError | comfyui_api_server.py:845-849 | the failure text is the fixed prefix followed by a bracketed list; `OutputProbe.NoImagesErrorListsEveryKey` shows the list names every output node |
| OutputProbe.NoImagesErrorListsEveryKey | comfyui_api_server.py:845-849 | the no-images error names every output node the backend reported |
| OutputProbe.JoinQuotedListsEach | comfyui_api_server.py:847-849 | the printed list of node ids contains each id, quoted |
| OutputProbe.ProbeIgnoresOtherNodes | comfyui_api_server.py:790-801 | adding an output node outside the candidate list does not change the probe's choice |
| Dispatcher.WorkflowFor | comfyui_api_server.py:358-366 | text-to-image is chosen exactly when `input_image` is absent or empty |
| Dispatcher.FirstAnswer | comfyui_api_server.py:769-777 | the loop ends at the first poll whose answer is not "not ready", every earlier one being "not ready"; it times out exactly when all 150 answers are "not ready" |
| Dispatcher.FirstFailedDownload | comfyui_api_server.py:810-825 | the image loop stops at the first download that raises, all earlier ones having succeeded; none raises exactly when all succeed |
| Dispatcher.PollProgress | comfyui_api_server.py:772 | the progress of the `attempt`-th poll is 35 exactly at attempt 0, never below 35, and below 90 for every attempt of the loop; `Dispatcher.PollProgressMonotone` shows it never decreases |
| Dispatcher.Start | comfyui_api_server.py:712 | the first update of every run; `Dispatcher.DispatchLifecycle` shows each run begins with it: status running, 5%, "准备输入数据..." |
| Dispatcher.FailWith | comfyui_api_server.py:851-856 | the failure update used for the timeout, the general exception handler and the staging and upload failures at 737 and 741; `Dispatcher.EmptyFailureKeepsError` shows what an empty text leaves behind |
| Dispatcher.Complete | comfyui_api_server.py:833-840 | the completing update; `Dispatcher.CompleteIsFinal` shows it is terminal with a non-empty URL list whose first entry is the primary result |
| Dispatcher.EmptyFailureKeepsError | comfyui_api_server.py:851-856 | a failure whose exception text is empty marks the task failed and stamps its completion time, but keeps its previous error, progress and result list |
| Dispatcher.Dispatch | comfyui_api_server.py:709-856 | `process_single_task` as the list of updates and backend calls of one run; `Dispatcher.DispatchLifecycle` states the update shape, `Dispatcher.DispatchCalls` the call order, `Dispatcher.CompletedTrace`, `Dispatcher.DispatchCompletes` and `Dispatcher.DispatchTimesOut` the end-to-end outcomes |
| Dispatcher.Prelude | comfyui_api_server.py:712-744 | the running update, staging and upload of the input image; `Dispatcher.PreludeWithoutImage`, `Dispatcher.PreludeLocalImageMissing`, `Dispatcher.PreludeUploadFailed` and `Dispatcher.PreludeUploaded` state its four branches, `Dispatcher.PreludeCalls` its calls |
| Dispatcher.Submit | comfyui_api_server.py:744-765 | building and submitting the workflow; `Dispatcher.SubmitRejected` and `Dispatcher.SubmitAccepted` state its two outcomes, `Dispatcher.SubmitCalls` the single submit of the chosen workflow |
| Dispatcher.PollPhase | comfyui_api_server.py:765-852 | the history loop and what ends it; `Dispatcher.PollPhaseUpdates` and `Dispatcher.PollPhaseCalls` state its updates and calls, `Dispatcher.TimeoutScenario`, `Dispatcher.PollErrorScenario` and `Dispatcher.ReadyScenario` its three endings |
| Dispatcher.PollEnd | comfyui_api_server.py:774-852 | what follows the last poll: the timeout failure, the poll's exception text, or the 90% step and the collection (`Dispatcher.PollEndUpdates`, `Dispatcher.PollEndReady`) |
| Dispatcher.Collect | comfyui_api_server.py:786-849 | probing, downloading and completing; `Dispatcher.CollectOutcome` states its single terminal update, `Dispatcher.NoImagesScenario`, `Dispatcher.CompletedScenario` and `Dispatcher.DownloadFailedScenario` its outcomes |
| Dispatcher.PollProgressMonotone | comfyui_api_server.py:772 | poll progress starts at 35, never decreases from one attempt to the next, and stays in [35, 90) over the 150 attempts |
| Dispatcher.TicksUpdates | comfyui_api_server.py:769-773 | the loop's updates are quiet progress steps, ordered, within [35, 90] |
| Dispatcher.CollectOutcome | comfyui_api_server.py:786-849 | after the prompt finishes exactly one terminal update follows, and the only backend calls are downloads |
| Dispatcher.CompleteIsFinal | comfyui_api_server.py:833-840 | the completing update is terminal: completed at 100% with a non-empty URL list whose first, non-empty URL is the primary result, and no error |
| Dispatcher.PollPhaseUpdates | comfyui_api_server.py:765-856 | from the waiting step on, updates are quiet and ordered within [35, 100] and end with exactly one terminal update |
| Dispatcher.SubmitUpdates | comfyui_api_server.py:744-856 | from the build step on, updates are ordered within [15, 100] and end with exactly one terminal update |
| Dispatcher.PreludeWithoutImage | comfyui_api_server.py:712-744 | without an input image the driver marks the task running and goes straight to building the workflow, calling nothing first |
| Dispatcher.PreludeLocalImageMissing | comfyui_api_server.py:719-742 | a missing staged image fails the task with "本地图片文件不存在" after the 10% step, before any backend call |
| Dispatcher.PreludeUploadFailed | comfyui_api_server.py:728-738 | a raising upload fails the task with "图片上传失败: " and the exception text, and nothing is submitted |
| Dispatcher.PreludeUploaded | comfyui_api_server.py:728-744 | after a successful upload the workflow is built around the name the backend returned |
| Dispatcher.SubmitRejected | comfyui_api_server.py:759-763 | a raising submit fails the task with its text after the 15% and 25% steps, and no history is requested |
| Dispatcher.SubmitAccepted | comfyui_api_server.py:759-765 | an accepted submit is followed by the 35% step and then the polling |
| Dispatcher.PreludeLifecycle | comfyui_api_server.py:711-744 | before and around the submit, the run keeps the lifecycle shape whatever the polling does, provided the polling does |
| Dispatcher.TimeoutScenario | comfyui_api_server.py:768-777 | with 150 "not ready" answers the loop makes 150 progress steps and history requests, then fails with "任务超时" |
| Dispatcher.PollErrorScenario | comfyui_api_server.py:769-777 | a history request that raises at attempt `k` fails the task with its text after `k + 1` polls |
| Dispatcher.ReadyScenario | comfyui_api_server.py:769-784 | a prompt finished at attempt `k` is followed, after `k + 1` ticks, by the 90% step and the collection of its outputs |
| Dispatcher.FirstAnswerAt | comfyui_api_server.py:769-777 | the loop stops exactly at the first answer that is not "not ready" |
| Dispatcher.NoImagesScenario | comfyui_api_server.py:803-849 | when no candidate holds images the task fails naming the available nodes, and nothing is downloaded |
| Dispatcher.CompletedScenario | comfyui_api_server.py:807-840 | when all downloads succeed every image is fetched once, in order, and the task completes with one URL per image |
| Dispatcher.CompletedPolling | comfyui_api_server.py:769-840 | a prompt finished at attempt `k` whose images all download yields `k + 1` poll steps, the 90% step and the completion, nothing else |
| Dispatcher.DownloadFailedScenario | comfyui_api_server.py:810-856 | a download that raises at image `i` stops the loop after fetching images 0 .. i and fails the task with its text |
| Dispatcher.PollPhaseCalls | comfyui_api_server.py:768-816 | the polling phase requests history for attempts 0, 1, ... in order, at most 150 times, and downloads only after a poll found the prompt finished |
| Dispatcher.PreludeCalls | comfyui_api_server.py:719-763 | the calls before polling (`CallsBeforePolling`): the upload comes first, and only when an image was given and found; image-to-image is submitted exactly when the upload returned a non-empty name; text-to-image exactly when there was no image or the returned name was empty; polling follows only an accepted submit |
| Dispatcher.SubmitCalls | comfyui_api_server.py:747-763 | the submitted workflow is the one chosen for the request, and the polling calls follow only when the submit returns |
| Dispatcher.DispatchCalls | comfyui_api_server.py:711-856 | in a whole run, history is requested only for a prompt that was submitted and accepted, and only for attempts below 150 |
| Dispatcher.HistoryOnlyWhenAccepted | comfyui_api_server.py:759-777 | history requests are only ever made after a submit that returned, whatever happens before it |
| Dispatcher.PreludeAccepted | comfyui_api_server.py:712-765 | once the submit is accepted, the updates before polling are 5, then 10 with an image, then 15, 25 and 35 |
| Dispatcher.CompletedTrace | comfyui_api_server.py:711-840 | on the success path the updates are exactly 5, (10), 15, 25, 35, one poll step per attempt up to the finishing one, 90, and the completion with every image's URL |
| Dispatcher.DispatchCompletes | comfyui_api_server.py:711-840 | a finished prompt whose images all download ends the run with the completion carrying one URL per image |
| Dispatcher.DispatchTimesOut | comfyui_api_server.py:768-852 | a prompt never ready ends the run with the timeout failure after exactly 150 history requests |
| Dispatcher.DispatchLifecycle | comfyui_api_server.py:709-856 | every run first marks the task running, then issues only progress and message updates, and ends with exactly one terminal update; progress never decreases and stays in [5, 100] |
| Lifecycle.Replay | comfyui_api_server.py:284-324 | applying patches adds and removes no task or row and leaves every other task alone |
| Lifecycle.ReplayKeepsSync | comfyui_api_server.py:284-324 | a sequence of updates keeps every record under its own id and the task's record and row in sync |
| Lifecycle.QuietReplay | comfyui_api_server.py:294-308 | progress-and-message updates never change status, completion time, results or error |
| Lifecycle.ReplayConcat | comfyui_api_server.py:284-324 | applying two batches of updates in turn equals applying them together |
| Lifecycle.RunningBeforeLast | comfyui_api_server.py:712-852 | until the driver's last update the task reads as running, with no completion time, results or error |
| Lifecycle.StartThenQuiet | comfyui_api_server.py:712-773 | after the "running" update and any number of progress updates the task reads as running, with no completion time, results or error |
| Lifecycle.LifecycleOutcome | comfyui_api_server.py:833-856 | after the last update the task is terminal and stamped by it; completed at 100% with every result URL, the first as primary, and no error; or failed with no results and the error text when non-empty |
| Lifecycle.RecordProgress | comfyui_api_server.py:296-297 | the progress a client reads is the last progress given, or the initial one |
| Lifecycle.ProgressNeverDrops | comfyui_api_server.py:712-836 | once the driver has started, the progress a client reads never goes down |
| Lifecycle.DispatchDrivesTask | comfyui_api_server.py:709-856 | driving a freshly created task keeps the manager consistent and other tasks untouched; the task reads "running" until the last update, then terminal with its completion time; its progress never goes down |
| Lifecycle.DispatchCompletesTask | comfyui_api_server.py:786-840 | a successful run leaves the task completed at 100% with one URL per image, the first as primary, and no error |

## Left out

- The FastAPI routes (`/generate`, `/batch`, `/tasks`, `/upload_image`, the dashboard and the health check) and the websocket endpoint that adds and removes connections. They are request plumbing around the task manager.
- The SQLite schema, its creation and the additive `ALTER TABLE` migration. The table is a map from task id to row. Every write succeeds except an INSERT on an existing id.
- The JSON encoding of the request snapshot and the result list, and the warm start's handling of JSON that does not parse. Both columns are kept structured.
- asyncio scheduling, the two-second sleeps and the fire-and-forget broadcast task. The driver and the broadcast are sequential functions.
- `uuid4()` and `datetime.now()`. The id and the instants are parameters.
- The workflow templates and the time-based seed fallback inside `create_workflow`. Only its branch choice is modelled.
- Floating-point progress. Progress is an exact `real`.
- Logging, and the debug lookup of the batch-size node.
- The bytes of the staged image, its read, and the bytes of downloaded images. A failing read of the staged image is not modelled. A failing save of a downloaded image is folded into that download's outcome.
- A history entry without an `outputs` key, an image entry without a `filename`, and an `images` value of JSON null. In each case the backend's answer has a shape the model's `Backend.Node` does not represent.
- Python's `repr` escaping of node ids in the no-images error. Node ids are printed quoted, without escapes.
- `str()` of the exceptions raised by the backend client, for example an `HTTPException`. Each raise carries its text as an opaque string.
- TaskManager.AllTasks: returns the records in an unspecified order. Python returns them in insertion order, which a map does not keep.
- TaskManager.SelectRecent: breaks ties between equal creation times arbitrarily, as SQLite does.
- `subfolder` and `type` of an image. They are only forwarded to the download call.
- Backend.Outputs: the outputs are a list of (node id, node) pairs, which may repeat an id, unlike the decoded JSON object. `Backend.Lookup` takes the first entry for a repeated id, whereas `json.loads` keeps the last, and `OutputProbe.NoImagesError` would list a repeated id twice. Every statement here holds for any list; for outputs with distinct ids, which is all the backend can send, the difference does not arise.
- Dispatcher.Run: keeps the updates and the backend calls of a run as two separate ordered lists. How they interleave is not recorded, for example that the 25% update precedes the submit and that each poll's progress update precedes its history request.
