/** `process_single_task`: drives one task from "running" to a terminal
    status against the backend. The backend (and the local staging folder)
    is a script of outcomes; the result is the ordered list of
    `update_task` patches the driver issues and the ordered list of backend
    calls it makes. Sleeps and logging are dropped.

    The two loops of the driver (history polling and image download) are
    modelled by the answer that ends them: `FirstAnswer` finds the first
    poll whose answer is not "not ready", `FirstFailedDownload` the first
    download that raises; the updates and calls of the iterations before it
    are then laid out in order. */
module Dispatcher {
  import opened Common
  import opened Tasks
  import opened Backend
  import opened Artifacts
  import opened OutputProbe

  /** History polls before giving up (two-second interval: five minutes). */
  const MaxAttempts: nat := 150

  const MsgPreparing: string := "准备输入数据..."
  const MsgUploading: string := "上传图片到ComfyUI..."
  const MsgBuilding: string := "创建工作流..."
  const MsgSubmitting: string := "提交任务到ComfyUI..."
  const MsgWaiting: string := "等待ComfyUI处理..."
  const MsgGenerating: string := "ComfyUI生成中..."
  const MsgDownloading: string := "下载生成结果..."

  const LocalImageMissingText: string := "本地图片文件不存在"
  const UploadFailedPrefix: string := "图片上传失败: "
  const TimeoutText: string := "任务超时"

  /** The two workflow templates `create_workflow` chooses between. */
  datatype WorkflowKind = TextToImage | ImageToImage

  /** `create_workflow`: a falsy `input_image` selects text-to-image. */
  function WorkflowFor(request: GenerationRequest): (k: WorkflowKind)
    ensures k == TextToImage <==> request.inputImage.None? || request.inputImage == Some("")
  {
    if Truthy(request.inputImage) then ImageToImage else TextToImage
  }

  /** What the environment answers, call by call: whether the staged input
      image exists locally, the upload's outcome (the name ComfyUI stored
      it under), the submit's outcome (the prompt id), the answer to the
      `attempt`-th history poll, and the outcome of downloading and saving
      the `index`-th image. */
  datatype Script = Script(
    localImageExists: bool,
    upload: Call<string>,
    submit: Call<string>,
    history: nat -> Poll,
    download: nat -> Call<()>)

  datatype BackendCall =
    | UploadImage(filename: string)
    | SubmitPrompt(kind: WorkflowKind)
    | GetHistory(attempt: nat)
    | DownloadImage(index: nat, filename: string)

  /** The `update_task` patches and the backend calls of a run, in order. */
  datatype Run = Run(updates: seq<Patch>, calls: seq<BackendCall>) {
    function Then(next: Run): Run {
      Run(updates + next.updates, calls + next.calls)
    }
  }

  /** A progress step: new progress and message, nothing else. */
  function Step(progress: real, message: string): Patch {
    Patch(None, Some(progress), Some(message), None, None, None)
  }

  /** The failure update: status failed with the given error text. */
  function FailWith(text: string): Patch {
    Patch(Some(Failed), None, None, None, None, Some(text))
  }

  /** The first update of every run: status running at 5% while the input
      is prepared. */
  const Start: Patch := Patch(Some(Running), Some(5.0), Some(MsgPreparing), None, None, None)

  /** The completing `update_task` call with all result URLs. */
  function Complete(urls: seq<string>): Patch {
    Patch(Some(Completed), Some(100.0), Some(CompletionMessage(|urls|)),
          if urls != [] then Some(urls[0]) else None, Some(urls), None)
  }

  /** Progress shown during the `attempt`-th history poll: 35% plus the
      fraction of attempts used of 55 points, in exact arithmetic. */
  function PollProgress(attempt: nat): (r: real)
    ensures 35.0 <= r
    ensures attempt == 0 <==> r == 35.0
    ensures attempt < MaxAttempts ==> r < 90.0
  {
    35.0 + (attempt as real / MaxAttempts as real) * 55.0
  }

  // ---------------------------------------------------------------------------
  // The two loops
  // ---------------------------------------------------------------------------

  /** How the history loop ends. */
  datatype PollOutcome =
    | TimedOut                                    // every answer was "not ready"
    | PollFailed(attempt: nat, text: string)      // this poll raised
    | ReadyAt(attempt: nat, outputs: Outputs)     // this poll found the prompt finished

  /** The first poll from `from` on whose answer is not "not ready". */
  function FirstAnswer(backend: Script, from: nat): (o: PollOutcome)
    ensures o.PollFailed? ==>
      from <= o.attempt < MaxAttempts && backend.history(o.attempt) == PollRaised(o.text)
    ensures o.ReadyAt? ==>
      from <= o.attempt < MaxAttempts && backend.history(o.attempt) == Ready(o.outputs)
    ensures !o.TimedOut? ==> forall a: nat :: from <= a < o.attempt ==> backend.history(a) == NotReady
    ensures o.TimedOut? <==> forall a: nat :: from <= a < MaxAttempts ==> backend.history(a) == NotReady
    decreases MaxAttempts - from
  {
    if from >= MaxAttempts then TimedOut
    else
      match backend.history(from)
      case PollRaised(text) => PollFailed(from, text)
      case Ready(outputs) => ReadyAt(from, outputs)
      case NotReady => FirstAnswer(backend, from + 1)
  }

  /** The number of polls made. */
  function Attempts(o: PollOutcome): nat {
    match o
    case TimedOut => MaxAttempts
    case PollFailed(a, _) => a + 1
    case ReadyAt(a, _) => a + 1
  }

  /** The first download from `from` on (of `count`) that raises, with its
      error text. */
  function FirstFailedDownload(backend: Script, count: nat, from: nat): (r: Option<(nat, string)>)
    ensures r.Some? ==>
      && from <= r.value.0 < count && backend.download(r.value.0) == Raised(r.value.1)
      && forall i: nat :: from <= i < r.value.0 ==> backend.download(i).Returned?
    ensures r.None? <==> forall i: nat :: from <= i < count ==> backend.download(i).Returned?
    decreases count - from
  {
    if from >= count then None
    else
      match backend.download(from)
      case Raised(text) => Some((from, text))
      case Returned(_) => FirstFailedDownload(backend, count, from + 1)
  }

  /** The loop iterations of attempts 0 .. n-1: a progress update and a
      history request each. */
  function Ticks(n: nat): Run {
    Run(seq(n, i requires 0 <= i < n => Step(PollProgress(i), MsgGenerating)),
        seq(n, i requires 0 <= i < n => GetHistory(i)))
  }

  /** Downloads of images 0 .. n-1. */
  function Downloads(images: seq<Image>, n: nat): seq<BackendCall>
    requires n <= |images|
  {
    seq(n, i requires 0 <= i < n => DownloadImage(i, images[i].filename))
  }

  // ---------------------------------------------------------------------------
  // The driver
  // ---------------------------------------------------------------------------

  /** The whole driver: the steps before the history loop, then the loop. */
  function Dispatch(taskId: TaskId, request: GenerationRequest, backend: Script): Run {
    Prelude(request, backend, PollPhase(taskId, backend))
  }

  /** Marking the task running, staging and uploading the input image,
      building and submitting the workflow; `polling` follows once the
      prompt is accepted. */
  function Prelude(request: GenerationRequest, backend: Script, polling: Run): Run {
    var started := Run([Start], []);
    if !Truthy(request.inputImage) then started.Then(Submit(request, backend, polling))
    else
      var uploading := started.Then(Run([Step(10.0, MsgUploading)], []));
      if !backend.localImageExists then uploading.Then(Run([FailWith(LocalImageMissingText)], []))
      else
        var upload := Run([], [UploadImage(request.inputImage.value)]);
        match backend.upload
        case Raised(text) => uploading.Then(upload).Then(Run([FailWith(UploadFailedPrefix + text)], []))
        case Returned(name) =>
          uploading.Then(upload).Then(Submit(request.(inputImage := Some(name)), backend, polling))
  }

  /** Building the workflow, submitting it, and (once accepted) polling. */
  function Submit(request: GenerationRequest, backend: Script, polling: Run): Run {
    var submitting := Run([Step(15.0, MsgBuilding), Step(25.0, MsgSubmitting)],
                          [SubmitPrompt(WorkflowFor(request))]);
    match backend.submit
    case Raised(text) => submitting.Then(Run([FailWith(text)], []))
    case Returned(_) => submitting.Then(Run([Step(35.0, MsgWaiting)], [])).Then(polling)
  }

  /** The history loop: up to 150 polls, each after a progress step, then
      whatever ended it (the timeout failure when nothing answered). */
  function PollPhase(taskId: TaskId, backend: Script): Run {
    var o := FirstAnswer(backend, 0);
    Ticks(Attempts(o)).Then(PollEnd(taskId, backend, o))
  }

  /** What follows the last tick of the history loop. */
  function PollEnd(taskId: TaskId, backend: Script, o: PollOutcome): Run {
    match o
    case TimedOut => Run([FailWith(TimeoutText)], [])
    case PollFailed(_, text) => Run([FailWith(text)], [])
    case ReadyAt(_, outputs) => Run([Step(90.0, MsgDownloading)], []).Then(Collect(taskId, backend, outputs))
  }

  /** The finished prompt's outputs: probe for images, download them all,
      complete. */
  function Collect(taskId: TaskId, backend: Script, outputs: Outputs): Run {
    match Probe(outputs)
    case NothingFound => Run([FailWith(NoImagesError(outputs))], [])
    case ImagesKeyMissing(_) => Run([FailWith(MissingImagesKeyText)], [])
    case Found(_, images) =>
      match FirstFailedDownload(backend, |images|, 0)
      case Some((i, text)) => Run([FailWith(text)], Downloads(images, i + 1))
      case None => Run([Complete(ArtifactUrls(taskId, images))], Downloads(images, |images|))
  }

  // ---------------------------------------------------------------------------
  // Shape of a trace
  // ---------------------------------------------------------------------------

  /** A patch that changes neither status, results nor error. */
  predicate Quiet(p: Patch) {
    p.status.None? && p.resultUrl.None? && p.resultUrls.None? && p.error.None?
  }

  /** A terminal patch: completion at 100% with a non-empty result list whose
      head, a non-empty URL, is the primary result, or failure with an error argument. */
  predicate Final(p: Patch) {
    || (&& p.status == Some(Completed) && p.progress == Some(100.0) && p.error.None?
        && TruthyList(p.resultUrls) && p.resultUrl == Some(p.resultUrls.value[0]) && Truthy(p.resultUrl))
    || (&& p.status == Some(Failed) && p.progress.None? && p.error.Some?
        && p.resultUrl.None? && p.resultUrls.None?)
  }

  /** Quiet patches followed by exactly one terminal patch. */
  predicate EndsOnce(ups: seq<Patch>) {
    |ups| >= 1 && Final(ups[|ups| - 1]) && forall k :: 0 <= k < |ups| - 1 ==> Quiet(ups[k])
  }

  /** The whole trace: "running" first, then quiet patches, then exactly one
      terminal patch, last. */
  predicate RunShape(ups: seq<Patch>) {
    |ups| >= 2 && ups[0] == Start && EndsOnce(ups[1..])
  }

  predicate AllQuiet(ups: seq<Patch>) {
    forall k :: 0 <= k < |ups| ==> Quiet(ups[k])
  }

  /** Every progress value given lies in [lo, 100]. */
  predicate ProgressWithin(ups: seq<Patch>, lo: real) {
    forall k :: 0 <= k < |ups| && ups[k].progress.Some? ==> lo <= ups[k].progress.value <= 100.0
  }

  predicate ProgressAtMost(ups: seq<Patch>, hi: real) {
    forall k :: 0 <= k < |ups| && ups[k].progress.Some? ==> ups[k].progress.value <= hi
  }

  /** The progress values given never decrease along the trace. */
  predicate ProgressOrdered(ups: seq<Patch>) {
    forall j, k :: 0 <= j < k < |ups| && ups[j].progress.Some? && ups[k].progress.Some? ==>
      ups[j].progress.value <= ups[k].progress.value
  }

  /** What the updates of a run from some point on satisfy: they end exactly
      once, and their progress stays ordered within [lo, 100]. */
  predicate TailUpdates(ups: seq<Patch>, lo: real) {
    EndsOnce(ups) && ProgressOrdered(ups) && ProgressWithin(ups, lo)
  }

  /** Prefixing quiet, ordered updates whose progress stays at or below the
      rest's lower bound keeps the tail facts. */
  lemma UpdatesThen(a: seq<Patch>, b: seq<Patch>, lo: real, mid: real)
    requires AllQuiet(a) && ProgressOrdered(a) && ProgressWithin(a, lo) && ProgressAtMost(a, mid)
    requires lo <= mid
    requires TailUpdates(b, mid)
    ensures TailUpdates(a + b, lo)
  {
    var ab := a + b;
    forall k | 0 <= k < |ab| - 1 ensures Quiet(ab[k]) {
      if k >= |a| { assert ab[k] == b[k - |a|]; }
    }
    assert ab[|ab| - 1] == b[|b| - 1];
    forall j, k | 0 <= j < k < |ab| && ab[j].progress.Some? && ab[k].progress.Some?
      ensures ab[j].progress.value <= ab[k].progress.value
    {
      if k < |a| {
      } else if j < |a| {
        assert ab[k] == b[k - |a|];
      } else {
        assert ab[j] == b[j - |a|] && ab[k] == b[k - |a|];
      }
    }
    forall k | 0 <= k < |ab| && ab[k].progress.Some? ensures lo <= ab[k].progress.value <= 100.0 {
      if k >= |a| { assert ab[k] == b[k - |a|]; }
    }
  }

  /** The poll loop's progress climbs from 35% towards 90%. */
  lemma PollProgressMonotone(i: nat, j: nat)
    requires i <= j
    ensures PollProgress(i) <= PollProgress(j)
    ensures PollProgress(0) == 35.0
    ensures j < MaxAttempts ==> 35.0 <= PollProgress(j) < 90.0
  {
  }

  lemma TicksUpdates(n: nat)
    requires n <= MaxAttempts
    ensures var ups := Ticks(n).updates;
      && AllQuiet(ups) && ProgressOrdered(ups) && ProgressWithin(ups, 35.0) && ProgressAtMost(ups, 90.0)
  {
    var ups := Ticks(n).updates;
    forall j, k | 0 <= j < k < |ups| ensures ups[j].progress.value <= ups[k].progress.value {
      PollProgressMonotone(j, k);
    }
  }

  /** Probing and downloading end with one terminal update and make only
      downloads. */
  lemma CollectOutcome(taskId: TaskId, backend: Script, outputs: Outputs)
    ensures var r := Collect(taskId, backend, outputs);
      && |r.updates| == 1 && Final(r.updates[0])
      && forall i :: 0 <= i < |r.calls| ==> r.calls[i].DownloadImage?
  {
    match Probe(outputs)
    case NothingFound =>
    case ImagesKeyMissing(_) =>
    case Found(_, images) =>
      CompleteIsFinal(taskId, images);
  }

  /** The completing patch is terminal: its URL list is non-empty (the
      probe only picks non-empty image lists) and every URL is non-empty. */
  /** A failure whose exception text is empty marks the task failed and
      stamps it, but leaves its error as it was. */
  lemma EmptyFailureKeepsError(t: TaskStatus, now: Timestamp)
    ensures var r := ApplyPatch(t, FailWith(""), now);
      && r.status == Failed && r.completedAt == Some(now) && r.error == t.error
      && r.progress == t.progress && r.resultUrls == t.resultUrls
  {
  }

  lemma CompleteIsFinal(taskId: TaskId, images: seq<Image>)
    requires images != []
    ensures Final(Complete(ArtifactUrls(taskId, images)))
  {
    assert ArtifactUrls(taskId, images)[0][0] == UrlPrefix[0];
  }

  lemma PollEndUpdates(taskId: TaskId, backend: Script, o: PollOutcome)
    ensures TailUpdates(PollEnd(taskId, backend, o).updates, 90.0)
  {
    match o
    case TimedOut =>
    case PollFailed(_, _) =>
    case ReadyAt(_, outputs) =>
      CollectOutcome(taskId, backend, outputs);
      UpdatesThen([Step(90.0, MsgDownloading)], Collect(taskId, backend, outputs).updates, 90.0, 90.0);
  }

  lemma PollPhaseUpdates(taskId: TaskId, backend: Script)
    ensures TailUpdates(PollPhase(taskId, backend).updates, 35.0)
  {
    var o := FirstAnswer(backend, 0);
    TicksUpdates(Attempts(o));
    PollEndUpdates(taskId, backend, o);
    UpdatesThen(Ticks(Attempts(o)).updates, PollEnd(taskId, backend, o).updates, 35.0, 90.0);
  }

  lemma SubmitUpdates(request: GenerationRequest, backend: Script, polling: Run)
    requires TailUpdates(polling.updates, 35.0)
    ensures TailUpdates(Submit(request, backend, polling).updates, 15.0)
  {
    var pre := [Step(15.0, MsgBuilding), Step(25.0, MsgSubmitting)];
    match backend.submit
    case Raised(text) =>
      assert Submit(request, backend, polling).updates == pre + [FailWith(text)];
      UpdatesThen(pre, [FailWith(text)], 15.0, 25.0);
    case Returned(_) =>
      assert Submit(request, backend, polling).updates == (pre + [Step(35.0, MsgWaiting)]) + polling.updates;
      UpdatesThen(pre + [Step(35.0, MsgWaiting)], polling.updates, 15.0, 35.0);
  }

  /** "running" first, exactly one terminal update, last. */
  lemma StartThen(rest: seq<Patch>, lo: real)
    requires TailUpdates(rest, lo) && 5.0 <= lo
    ensures var ups := [Start] + rest;
      RunShape(ups) && ProgressOrdered(ups) && ProgressWithin(ups, 5.0)
  {
    var ups := [Start] + rest;
    assert ups[1..] == rest;
    forall j, k | 0 <= j < k < |ups| && ups[j].progress.Some? && ups[k].progress.Some?
      ensures ups[j].progress.value <= ups[k].progress.value
    {
      assert ups[k] == rest[k - 1];
      if j > 0 { assert ups[j] == rest[j - 1]; }
    }
    forall k | 0 <= k < |ups| && ups[k].progress.Some? ensures 5.0 <= ups[k].progress.value <= 100.0 {
      if k > 0 { assert ups[k] == rest[k - 1]; }
    }
  }

  /** Without an input image the driver goes straight to building the
      workflow. */
  lemma PreludeWithoutImage(request: GenerationRequest, backend: Script, polling: Run)
    requires !Truthy(request.inputImage)
    ensures Prelude(request, backend, polling).updates == [Start] + Submit(request, backend, polling).updates
    ensures Prelude(request, backend, polling).calls == Submit(request, backend, polling).calls
  {
  }

  /** A missing staged image fails the task before any backend call. */
  lemma PreludeLocalImageMissing(request: GenerationRequest, backend: Script, polling: Run)
    requires Truthy(request.inputImage) && !backend.localImageExists
    ensures Prelude(request, backend, polling).updates
         == [Start, Step(10.0, MsgUploading), FailWith(LocalImageMissingText)]
    ensures Prelude(request, backend, polling).calls == []
  {
  }

  /** A rejected upload fails the task with the backend's text after the
      upload prefix; nothing is submitted. */
  lemma PreludeUploadFailed(request: GenerationRequest, backend: Script, polling: Run)
    requires Truthy(request.inputImage) && backend.localImageExists && backend.upload.Raised?
    ensures Prelude(request, backend, polling).updates
         == [Start, Step(10.0, MsgUploading), FailWith(UploadFailedPrefix + backend.upload.text)]
    ensures Prelude(request, backend, polling).calls == [UploadImage(request.inputImage.value)]
  {
  }

  /** After a successful upload the workflow is built around the name the
      backend stored the image under. */
  lemma PreludeUploaded(request: GenerationRequest, backend: Script, polling: Run)
    requires Truthy(request.inputImage) && backend.localImageExists && backend.upload.Returned?
    ensures var next := Submit(request.(inputImage := Some(backend.upload.value)), backend, polling);
      && Prelude(request, backend, polling).updates == [Start, Step(10.0, MsgUploading)] + next.updates
      && Prelude(request, backend, polling).calls == [UploadImage(request.inputImage.value)] + next.calls
  {
    var next := Submit(request.(inputImage := Some(backend.upload.value)), backend, polling);
    assert Prelude(request, backend, polling).updates == [Start] + [Step(10.0, MsgUploading)] + [] + next.updates;
  }

  lemma PreludeLifecycle(request: GenerationRequest, backend: Script, polling: Run)
    requires TailUpdates(polling.updates, 35.0)
    ensures var ups := Prelude(request, backend, polling).updates;
      RunShape(ups) && ProgressOrdered(ups) && ProgressWithin(ups, 5.0)
  {
    var s10 := [Step(10.0, MsgUploading)];
    if !Truthy(request.inputImage) {
      PreludeWithoutImage(request, backend, polling);
      SubmitUpdates(request, backend, polling);
      StartThen(Submit(request, backend, polling).updates, 15.0);
    } else if !backend.localImageExists {
      PreludeLocalImageMissing(request, backend, polling);
      FailureAfterUpload(LocalImageMissingText);
    } else if backend.upload.Raised? {
      PreludeUploadFailed(request, backend, polling);
      FailureAfterUpload(UploadFailedPrefix + backend.upload.text);
    } else {
      var rest := Submit(request.(inputImage := Some(backend.upload.value)), backend, polling).updates;
      PreludeUploaded(request, backend, polling);
      SubmitUpdates(request.(inputImage := Some(backend.upload.value)), backend, polling);
      UpdatesThen(s10, rest, 10.0, 15.0);
      StartThen(s10 + rest, 10.0);
      assert [Start, Step(10.0, MsgUploading)] + rest == [Start] + (s10 + rest);
    }
  }

  lemma FailureAfterUpload(text: string)
    ensures var ups := [Start, Step(10.0, MsgUploading), FailWith(text)];
      RunShape(ups) && ProgressOrdered(ups) && ProgressWithin(ups, 5.0)
  {
    UpdatesThen([Step(10.0, MsgUploading)], [FailWith(text)], 10.0, 10.0);
    StartThen([Step(10.0, MsgUploading)] + [FailWith(text)], 10.0);
    assert [Start, Step(10.0, MsgUploading), FailWith(text)] == [Start] + ([Step(10.0, MsgUploading)] + [FailWith(text)]);
  }

  /** A rejected submit fails the task with the backend's text; nothing is
      polled. */
  lemma SubmitRejected(request: GenerationRequest, backend: Script, polling: Run)
    requires backend.submit.Raised?
    ensures Submit(request, backend, polling).updates
         == [Step(15.0, MsgBuilding), Step(25.0, MsgSubmitting), FailWith(backend.submit.text)]
    ensures Submit(request, backend, polling).calls == [SubmitPrompt(WorkflowFor(request))]
  {
  }

  /** An accepted submit is followed by the waiting step and the polling. */
  lemma SubmitAccepted(request: GenerationRequest, backend: Script, polling: Run)
    requires backend.submit.Returned?
    ensures Submit(request, backend, polling).updates
         == [Step(15.0, MsgBuilding), Step(25.0, MsgSubmitting), Step(35.0, MsgWaiting)] + polling.updates
    ensures Submit(request, backend, polling).calls == [SubmitPrompt(WorkflowFor(request))] + polling.calls
  {
    assert Submit(request, backend, polling).calls == [SubmitPrompt(WorkflowFor(request))] + [] + polling.calls;
  }

  /** The polling phase when every one of the 150 answers is "not ready":
      150 progress steps and history requests, then the timeout failure. */
  lemma TimeoutScenario(taskId: TaskId, backend: Script)
    requires forall a: nat :: a < MaxAttempts ==> backend.history(a) == NotReady
    ensures PollPhase(taskId, backend) == Ticks(MaxAttempts).Then(Run([FailWith(TimeoutText)], []))
  {
    assert FirstAnswer(backend, 0) == TimedOut;
  }

  /** A history request that raises after `k` "not ready" answers fails the
      task with its text after `k + 1` polls. */
  lemma PollErrorScenario(taskId: TaskId, backend: Script, k: nat, text: string)
    requires k < MaxAttempts && backend.history(k) == PollRaised(text)
    requires forall a: nat :: a < k ==> backend.history(a) == NotReady
    ensures PollPhase(taskId, backend) == Ticks(k + 1).Then(Run([FailWith(text)], []))
  {
    FirstAnswerAt(backend, k);
  }

  /** The prompt is finished at poll `k`: the downloading step follows the
      `k + 1` ticks, then the outputs are collected. */
  lemma ReadyScenario(taskId: TaskId, backend: Script, k: nat, outputs: Outputs)
    requires k < MaxAttempts && backend.history(k) == Ready(outputs)
    requires forall a: nat :: a < k ==> backend.history(a) == NotReady
    ensures PollPhase(taskId, backend).updates
         == Ticks(k + 1).updates + [Step(90.0, MsgDownloading)] + Collect(taskId, backend, outputs).updates
    ensures PollPhase(taskId, backend).calls == Ticks(k + 1).calls + Collect(taskId, backend, outputs).calls
  {
    FirstAnswerAt(backend, k);
    ReadyPhase(taskId, backend, k, outputs);
  }

  lemma ReadyPhase(taskId: TaskId, backend: Script, k: nat, outputs: Outputs)
    requires FirstAnswer(backend, 0) == ReadyAt(k, outputs)
    ensures PollPhase(taskId, backend).updates
         == Ticks(k + 1).updates + [Step(90.0, MsgDownloading)] + Collect(taskId, backend, outputs).updates
    ensures PollPhase(taskId, backend).calls == Ticks(k + 1).calls + Collect(taskId, backend, outputs).calls
  {
    PollEndReady(taskId, backend, k, outputs);
  }

  lemma PollEndReady(taskId: TaskId, backend: Script, k: nat, outputs: Outputs)
    ensures PollEnd(taskId, backend, ReadyAt(k, outputs)).updates
         == [Step(90.0, MsgDownloading)] + Collect(taskId, backend, outputs).updates
    ensures PollEnd(taskId, backend, ReadyAt(k, outputs)).calls == Collect(taskId, backend, outputs).calls
  {
    assert PollEnd(taskId, backend, ReadyAt(k, outputs)).calls == [] + Collect(taskId, backend, outputs).calls;
  }

  /** The first answer that is not "not ready" is the one at `k`. */
  lemma FirstAnswerAt(backend: Script, k: nat)
    requires k < MaxAttempts && !backend.history(k).NotReady?
    requires forall a: nat :: a < k ==> backend.history(a) == NotReady
    ensures var o := FirstAnswer(backend, 0); !o.TimedOut? && o.attempt == k
    ensures backend.history(k).Ready? ==> FirstAnswer(backend, 0) == ReadyAt(k, backend.history(k).outputs)
    ensures backend.history(k).PollRaised? ==> FirstAnswer(backend, 0) == PollFailed(k, backend.history(k).text)
  {
    assert !FirstAnswer(backend, 0).TimedOut?;
  }

  /** None of the candidate nodes holds images: the task fails naming the
      nodes the backend reported; nothing is downloaded. */
  lemma NoImagesScenario(taskId: TaskId, backend: Script, outputs: Outputs)
    requires forall j :: 0 <= j < |OutputNodes| ==> Passed(outputs, OutputNodes[j])
    ensures Collect(taskId, backend, outputs) == Run([FailWith(NoImagesError(outputs))], [])
  {
  }

  /** Every image downloads and saves: each is fetched once, in order, and
      the task completes with one URL per image. */
  lemma CompletedScenario(taskId: TaskId, backend: Script, outputs: Outputs, at: nat, images: seq<Image>)
    requires Probe(outputs) == Found(at, images)
    requires forall i: nat :: i < |images| ==> backend.download(i).Returned?
    ensures var r := Collect(taskId, backend, outputs);
      && r.updates == [Complete(ArtifactUrls(taskId, images))]
      && |r.calls| == |images|
      && forall i :: 0 <= i < |images| ==> r.calls[i] == DownloadImage(i, images[i].filename)
  {
    assert FirstFailedDownload(backend, |images|, 0).None?;
  }

  /** The `i`-th download raises: images 0 .. i are fetched and the task
      fails with the error's text; no later image is fetched. */
  lemma DownloadFailedScenario(taskId: TaskId, backend: Script, outputs: Outputs, at: nat,
                               images: seq<Image>, i: nat, text: string)
    requires Probe(outputs) == Found(at, images)
    requires i < |images| && backend.download(i) == Raised(text)
    requires forall j: nat :: j < i ==> backend.download(j).Returned?
    ensures var r := Collect(taskId, backend, outputs);
      && r.updates == [FailWith(text)]
      && |r.calls| == i + 1
      && forall j :: 0 <= j <= i ==> r.calls[j] == DownloadImage(j, images[j].filename)
  {
    assert FirstFailedDownload(backend, |images|, 0) == Some((i, text));
  }

  /** The driver gets as far as submitting a workflow: there is no input
      image, or it exists locally and the upload went through. */
  predicate ReachesSubmit(request: GenerationRequest, backend: Script) {
    !Truthy(request.inputImage) || (backend.localImageExists && backend.upload.Returned?)
  }

  /** Calls made once a prompt is queued: history requests and downloads. */
  predicate PollingCalls(calls: seq<BackendCall>) {
    forall i :: 0 <= i < |calls| ==> calls[i].GetHistory? || calls[i].DownloadImage?
  }

  /** The polling phase's calls: history requests for attempts 0, 1, ... in
      order, at most 150 of them, then (only when the prompt finished)
      downloads. */
  lemma PollPhaseCalls(taskId: TaskId, backend: Script)
    ensures var c := PollPhase(taskId, backend).calls;
      var n := Attempts(FirstAnswer(backend, 0));
      && 1 <= n <= MaxAttempts && n <= |c|
      && (forall i :: 0 <= i < n ==> c[i] == GetHistory(i))
      && (forall i :: n <= i < |c| ==> c[i].DownloadImage?)
      && (n < |c| ==> FirstAnswer(backend, 0).ReadyAt?)
      && PollingCalls(c)
      && (forall i :: 0 <= i < |c| && c[i].GetHistory? ==> c[i].attempt < MaxAttempts)
  {
    var o := FirstAnswer(backend, 0);
    PollEndCalls(taskId, backend, o);
    TicksThenDownloads(Attempts(o), PollEnd(taskId, backend, o).calls);
  }

  /** After the last poll only downloads are made, and only for a finished
      prompt. */
  lemma PollEndCalls(taskId: TaskId, backend: Script, o: PollOutcome)
    ensures var c := PollEnd(taskId, backend, o).calls;
      && (forall i :: 0 <= i < |c| ==> c[i].DownloadImage?)
      && (|c| > 0 ==> o.ReadyAt?)
  {
    if o.ReadyAt? {
      CollectOutcome(taskId, backend, o.outputs);
      assert PollEnd(taskId, backend, o).calls == [] + Collect(taskId, backend, o.outputs).calls;
    }
  }

  lemma TicksThenDownloads(n: nat, tail: seq<BackendCall>)
    requires n <= MaxAttempts
    requires forall i :: 0 <= i < |tail| ==> tail[i].DownloadImage?
    ensures var c := Ticks(n).calls + tail;
      && n <= |c|
      && (forall i :: 0 <= i < n ==> c[i] == GetHistory(i))
      && (forall i :: n <= i < |c| ==> c[i].DownloadImage?)
      && PollingCalls(c)
      && (forall i :: 0 <= i < |c| && c[i].GetHistory? ==> c[i].attempt < MaxAttempts)
  {
    var c := Ticks(n).calls + tail;
    forall i | n <= i < |c| ensures c[i].DownloadImage? {
      assert c[i] == tail[i - n];
    }
  }

  /** Which backend calls precede polling: the upload, first, exactly when
      an input image was given and found locally; a submit of the
      image-to-image workflow exactly when the upload returned a non-empty
      name, of the text-to-image workflow exactly when there was no image
      or the upload returned an empty name; and the polling calls only
      after an accepted submit, closing the run. */
  predicate CallsBeforePolling(request: GenerationRequest, backend: Script, polling: Run, c: seq<BackendCall>) {
    var accepted := ReachesSubmit(request, backend) && backend.submit.Returned?;
    && ((|c| > 0 && c[0].UploadImage?) <==> Truthy(request.inputImage) && backend.localImageExists)
    && (forall i :: 0 <= i < |c| && c[i].UploadImage? ==> i == 0 && c[i] == UploadImage(request.inputImage.value))
    && (SubmitPrompt(ImageToImage) in c <==>
          Truthy(request.inputImage) && ReachesSubmit(request, backend) && backend.upload.value != "")
    && (SubmitPrompt(TextToImage) in c <==>
          ReachesSubmit(request, backend) && (!Truthy(request.inputImage) || backend.upload.value == ""))
    && (accepted ==> |polling.calls| <= |c| && c[|c| - |polling.calls|..] == polling.calls)
    && (accepted ==> forall i :: 0 <= i < |c| - |polling.calls| ==> c[i].UploadImage? || c[i].SubmitPrompt?)
    && (!accepted ==> forall i :: 0 <= i < |c| ==> c[i].UploadImage? || c[i].SubmitPrompt?)
  }

  lemma PreludeCalls(request: GenerationRequest, backend: Script, polling: Run)
    requires PollingCalls(polling.calls)
    ensures CallsBeforePolling(request, backend, polling, Prelude(request, backend, polling).calls)
  {
    if !Truthy(request.inputImage) {
      PreludeCallsWithoutImage(request, backend, polling);
    } else if !backend.localImageExists {
      PreludeLocalImageMissing(request, backend, polling);
    } else if backend.upload.Raised? {
      PreludeUploadFailed(request, backend, polling);
    } else {
      PreludeCallsUploaded(request, backend, polling);
    }
  }

  lemma PreludeCallsWithoutImage(request: GenerationRequest, backend: Script, polling: Run)
    requires PollingCalls(polling.calls) && !Truthy(request.inputImage)
    ensures CallsBeforePolling(request, backend, polling, Prelude(request, backend, polling).calls)
  {
    PreludeWithoutImage(request, backend, polling);
    SubmitCalls(request, backend, polling);
  }

  lemma PreludeCallsUploaded(request: GenerationRequest, backend: Script, polling: Run)
    requires PollingCalls(polling.calls)
    requires Truthy(request.inputImage) && backend.localImageExists && backend.upload.Returned?
    ensures CallsBeforePolling(request, backend, polling, Prelude(request, backend, polling).calls)
  {
    var uploaded := request.(inputImage := Some(backend.upload.value));
    PreludeUploaded(request, backend, polling);
    SubmitCalls(uploaded, backend, polling);
    UploadThenSubmit(UploadImage(request.inputImage.value), Submit(uploaded, backend, polling).calls,
                     WorkflowFor(uploaded), polling.calls, backend.submit.Returned?);
  }

  /** The shape of an upload followed by a submit's calls. */
  lemma UploadThenSubmit(u: BackendCall, sc: seq<BackendCall>, kind: WorkflowKind, p: seq<BackendCall>,
                         accepted: bool)
    requires u.UploadImage? && PollingCalls(p)
    requires accepted ==> sc == [SubmitPrompt(kind)] + p
    requires !accepted ==> sc == [SubmitPrompt(kind)]
    ensures var c := [u] + sc;
      && (forall i :: 0 < i < |c| ==> !c[i].UploadImage?)
      && SubmitPrompt(kind) in c && (forall k :: SubmitPrompt(k) in c ==> k == kind)
      && (accepted ==> |p| <= |c| && c[|c| - |p|..] == p
                       && forall i :: 0 <= i < |c| - |p| ==> c[i].UploadImage? || c[i].SubmitPrompt?)
      && (!accepted ==> forall i :: 0 <= i < |c| ==> c[i].UploadImage? || c[i].SubmitPrompt?)
  {
    var c := [u] + sc;
    assert c[1] == SubmitPrompt(kind);
    if accepted {
      assert c == [u, SubmitPrompt(kind)] + p;
      forall i | 2 <= i < |c| ensures c[i] == p[i - 2] { }
    }
  }

  /** The submit's calls: the workflow chosen for the request, then the
      polling calls when it was accepted. */
  lemma SubmitCalls(request: GenerationRequest, backend: Script, polling: Run)
    requires PollingCalls(polling.calls)
    ensures var c := Submit(request, backend, polling).calls;
      && |c| >= 1 && c[0] == SubmitPrompt(WorkflowFor(request))
      && (forall kind :: SubmitPrompt(kind) in c ==> kind == WorkflowFor(request))
      && (forall i :: 0 <= i < |c| ==> !c[i].UploadImage?)
      && (backend.submit.Returned? ==> c == [c[0]] + polling.calls)
      && (backend.submit.Raised? ==> c == [c[0]])
  {
    var c := Submit(request, backend, polling).calls;
    if backend.submit.Returned? {
      SubmitAccepted(request, backend, polling);
      forall i | 0 < i < |c| ensures !c[i].UploadImage? && !c[i].SubmitPrompt? {
        assert c[i] == polling.calls[i - 1];
      }
    } else {
      SubmitRejected(request, backend, polling);
    }
  }

  /** History is only ever requested for a submitted, accepted prompt, and
      for attempts below 150; the polling calls close the run. */
  lemma DispatchCalls(taskId: TaskId, request: GenerationRequest, backend: Script)
    ensures var c := Dispatch(taskId, request, backend).calls;
      forall i :: 0 <= i < |c| && c[i].GetHistory? ==>
        ReachesSubmit(request, backend) && backend.submit.Returned? && c[i].attempt < MaxAttempts
  {
    PollPhaseCalls(taskId, backend);
    HistoryOnlyWhenAccepted(request, backend, PollPhase(taskId, backend));
  }

  /** Whatever the polling phase, its history requests are the only ones,
      and they are made only after an accepted submit. */
  lemma HistoryOnlyWhenAccepted(request: GenerationRequest, backend: Script, polling: Run)
    requires PollingCalls(polling.calls)
    requires forall i :: 0 <= i < |polling.calls| && polling.calls[i].GetHistory? ==>
      polling.calls[i].attempt < MaxAttempts
    ensures var c := Prelude(request, backend, polling).calls;
      forall i :: 0 <= i < |c| && c[i].GetHistory? ==>
        ReachesSubmit(request, backend) && backend.submit.Returned? && c[i].attempt < MaxAttempts
  {
    PreludeCalls(request, backend, polling);
    HistoryInSuffix(Prelude(request, backend, polling).calls, polling.calls,
                    ReachesSubmit(request, backend) && backend.submit.Returned?);
  }

  lemma HistoryInSuffix(c: seq<BackendCall>, p: seq<BackendCall>, accepted: bool)
    requires forall i :: 0 <= i < |p| && p[i].GetHistory? ==> p[i].attempt < MaxAttempts
    requires accepted ==> |p| <= |c| && c[|c| - |p|..] == p
    requires accepted ==> forall i :: 0 <= i < |c| - |p| ==> c[i].UploadImage? || c[i].SubmitPrompt?
    requires !accepted ==> forall i :: 0 <= i < |c| ==> c[i].UploadImage? || c[i].SubmitPrompt?
    ensures forall i :: 0 <= i < |c| && c[i].GetHistory? ==> accepted && c[i].attempt < MaxAttempts
  {
    forall i | 0 <= i < |c| && c[i].GetHistory? ensures accepted && c[i].attempt < MaxAttempts {
      if accepted && i >= |c| - |p| {
        assert c[i] == p[i - (|c| - |p|)];
      }
    }
  }

  /** The updates of a run that reaches polling end with the polling
      phase's updates. */
  lemma PreludeEndsWithPolling(request: GenerationRequest, backend: Script, polling: Run)
    requires ReachesSubmit(request, backend) && backend.submit.Returned?
    ensures var ups := Prelude(request, backend, polling).updates;
      |polling.updates| <= |ups| && ups[|ups| - |polling.updates|..] == polling.updates
  {
    var ups := Prelude(request, backend, polling).updates;
    var pre := [Step(15.0, MsgBuilding), Step(25.0, MsgSubmitting), Step(35.0, MsgWaiting)];
    if !Truthy(request.inputImage) {
      PreludeWithoutImage(request, backend, polling);
      SubmitAccepted(request, backend, polling);
      assert ups == ([Start] + pre) + polling.updates;
    } else {
      var uploaded := request.(inputImage := Some(backend.upload.value));
      PreludeUploaded(request, backend, polling);
      SubmitAccepted(uploaded, backend, polling);
      assert ups == ([Start, Step(10.0, MsgUploading)] + pre) + polling.updates;
    }
  }

  /** End to end: a submitted prompt that finishes within the 150 polls with
      images on a candidate node, all of which download, completes the task
      with one URL per image as the run's last update. */
  lemma DispatchCompletes(taskId: TaskId, request: GenerationRequest, backend: Script,
                          k: nat, outputs: Outputs, at: nat, images: seq<Image>)
    requires ReachesSubmit(request, backend) && backend.submit.Returned?
    requires k < MaxAttempts && backend.history(k) == Ready(outputs)
    requires forall a: nat :: a < k ==> backend.history(a) == NotReady
    requires Probe(outputs) == Found(at, images)
    requires forall i: nat :: i < |images| ==> backend.download(i).Returned?
    ensures var ups := Dispatch(taskId, request, backend).updates;
      |ups| > 0 && ups[|ups| - 1] == Complete(ArtifactUrls(taskId, images))
  {
    var polling := PollPhase(taskId, backend);
    PreludeEndsWithPolling(request, backend, polling);
    ReadyScenario(taskId, backend, k, outputs);
    CompletedScenario(taskId, backend, outputs, at, images);
    assert polling.updates[|polling.updates| - 1] == Complete(ArtifactUrls(taskId, images));
  }

  /** End to end: a submitted prompt that is never ready fails the task with
      the timeout error after exactly 150 history requests. */
  lemma DispatchTimesOut(taskId: TaskId, request: GenerationRequest, backend: Script)
    requires ReachesSubmit(request, backend) && backend.submit.Returned?
    requires forall a: nat :: a < MaxAttempts ==> backend.history(a) == NotReady
    ensures var ups := Dispatch(taskId, request, backend).updates;
      |ups| > 0 && ups[|ups| - 1] == FailWith(TimeoutText)
    ensures var c := Dispatch(taskId, request, backend).calls;
      MaxAttempts <= |c| && c[|c| - MaxAttempts..] == Ticks(MaxAttempts).calls
  {
    var polling := PollPhase(taskId, backend);
    PreludeEndsWithPolling(request, backend, polling);
    PollPhaseCalls(taskId, backend);
    PreludeCalls(request, backend, polling);
    TimeoutScenario(taskId, backend);
    assert polling.calls == Ticks(MaxAttempts).calls + [];
  }

  /** The progress steps before the history loop: 5, then 10 when there is
      an input image, then 15, 25 and 35. */
  function PreludeSteps(request: GenerationRequest): seq<Patch> {
    [Start] + (if Truthy(request.inputImage) then [Step(10.0, MsgUploading)] else [])
    + [Step(15.0, MsgBuilding), Step(25.0, MsgSubmitting), Step(35.0, MsgWaiting)]
  }

  /** The success path in full: the steps before polling, one progress step
      per poll up to the one that found the prompt finished, 90, and the
      completion with every image's URL. */
  lemma CompletedTrace(taskId: TaskId, request: GenerationRequest, backend: Script,
                       k: nat, outputs: Outputs, at: nat, images: seq<Image>)
    requires ReachesSubmit(request, backend) && backend.submit.Returned?
    requires k < MaxAttempts && backend.history(k) == Ready(outputs)
    requires forall a: nat :: a < k ==> backend.history(a) == NotReady
    requires Probe(outputs) == Found(at, images)
    requires forall i: nat :: i < |images| ==> backend.download(i).Returned?
    ensures Dispatch(taskId, request, backend).updates
         == PreludeSteps(request) + Ticks(k + 1).updates
            + [Step(90.0, MsgDownloading), Complete(ArtifactUrls(taskId, images))]
  {
    CompletedPolling(taskId, backend, k, outputs, at, images);
    PreludeAccepted(request, backend, PollPhase(taskId, backend));
  }

  lemma CompletedPolling(taskId: TaskId, backend: Script, k: nat, outputs: Outputs, at: nat, images: seq<Image>)
    requires k < MaxAttempts && backend.history(k) == Ready(outputs)
    requires forall a: nat :: a < k ==> backend.history(a) == NotReady
    requires Probe(outputs) == Found(at, images)
    requires forall i: nat :: i < |images| ==> backend.download(i).Returned?
    ensures PollPhase(taskId, backend).updates
         == Ticks(k + 1).updates + [Step(90.0, MsgDownloading), Complete(ArtifactUrls(taskId, images))]
  {
    var ticks := Ticks(k + 1).updates;
    var collected := Collect(taskId, backend, outputs).updates;
    assert PollPhase(taskId, backend).updates == ticks + [Step(90.0, MsgDownloading)] + collected by {
      ReadyScenario(taskId, backend, k, outputs);
    }
    assert collected == [Complete(ArtifactUrls(taskId, images))] by {
      CompletedScenario(taskId, backend, outputs, at, images);
    }
    assert ticks + [Step(90.0, MsgDownloading)] + collected
        == ticks + [Step(90.0, MsgDownloading), Complete(ArtifactUrls(taskId, images))];
  }

  /** Once the submit is accepted, the updates are the steps before polling
      followed by the polling phase's. */
  lemma PreludeAccepted(request: GenerationRequest, backend: Script, polling: Run)
    requires ReachesSubmit(request, backend) && backend.submit.Returned?
    ensures Prelude(request, backend, polling).updates == PreludeSteps(request) + polling.updates
  {
    var pre := [Step(15.0, MsgBuilding), Step(25.0, MsgSubmitting), Step(35.0, MsgWaiting)];
    if !Truthy(request.inputImage) {
      PreludeWithoutImage(request, backend, polling);
      SubmitAccepted(request, backend, polling);
      assert PreludeSteps(request) == [Start] + pre;
    } else {
      var uploaded := request.(inputImage := Some(backend.upload.value));
      PreludeUploaded(request, backend, polling);
      SubmitAccepted(uploaded, backend, polling);
      assert PreludeSteps(request) == [Start, Step(10.0, MsgUploading)] + pre;
    }
  }

  /** Every run marks the task running, then issues only progress and
      message updates, and ends with exactly one terminal update: completed
      at 100% with a non-empty result list, or failed with an error. The
      progress reported never goes backwards and stays within [5, 100]. */
  lemma DispatchLifecycle(taskId: TaskId, request: GenerationRequest, backend: Script)
    ensures var ups := Dispatch(taskId, request, backend).updates;
      RunShape(ups) && ProgressOrdered(ups) && ProgressWithin(ups, 5.0)
  {
    PollPhaseUpdates(taskId, backend);
    PreludeLifecycle(request, backend, PollPhase(taskId, backend));
  }
}
