/** What a client of the task manager sees while the dispatcher runs: the
    dispatcher's patches applied one by one through `update_task` to the
    task created for the request, each at its own instant. */
module Lifecycle {
  import opened Common
  import opened Tasks
  import opened TaskManager
  import opened Dispatcher

  /** The manager after `update_task(id, ...)` with `ups[0]`, `ups[1]`, ...
      at the instants `times[0]`, `times[1]`, ... */
  function Replay(m: Manager, id: TaskId, ups: seq<Patch>, times: seq<Timestamp>): (r: Manager)
    requires |times| == |ups|
    ensures r.tasks.Keys == m.tasks.Keys && r.store.Keys == m.store.Keys
    ensures forall k :: k in m.tasks && k != id ==> r.tasks[k] == m.tasks[k]
    ensures forall k :: k in m.store && k != id ==> r.store[k] == m.store[k]
    decreases |ups|
  {
    if ups == [] then m
    else UpdateTask(Replay(m, id, ups[..|ups| - 1], times[..|ups| - 1]), id, ups[|ups| - 1], times[|ups| - 1])
  }

  /** The record of `id` after the patches. */
  function Record(m: Manager, id: TaskId, ups: seq<Patch>, times: seq<Timestamp>): TaskStatus
    requires |times| == |ups| && id in m.tasks
  {
    Replay(m, id, ups, times).tasks[id]
  }

  /** The fields a client reads to tell how a task ended. */
  predicate SameOutcome(a: TaskStatus, b: TaskStatus) {
    && a.status == b.status && a.completedAt == b.completedAt && a.resultUrl == b.resultUrl
    && a.resultUrls == b.resultUrls && a.error == b.error
  }

  /** Replaying keeps every record under its own id and keeps the task's
      record and row in sync. */
  lemma {:induction false} ReplayKeepsSync(m: Manager, id: TaskId, ups: seq<Patch>, times: seq<Timestamp>)
    requires |times| == |ups|
    requires WellKeyed(m.tasks) && Synced(m, id)
    ensures WellKeyed(Replay(m, id, ups, times).tasks) && Synced(Replay(m, id, ups, times), id)
    decreases |ups|
  {
    if ups != [] {
      var n := |ups| - 1;
      ReplayKeepsSync(m, id, ups[..n], times[..n]);
      UpdateKeepsSync(Replay(m, id, ups[..n], times[..n]), id, ups[n], times[n]);
    }
  }

  /** Progress-and-message patches change nothing a client reads to tell
      how the task ended. */
  lemma {:induction false} QuietReplay(m: Manager, id: TaskId, ups: seq<Patch>, times: seq<Timestamp>)
    requires |times| == |ups| && id in m.tasks
    requires AllQuiet(ups)
    ensures SameOutcome(Record(m, id, ups, times), m.tasks[id])
    decreases |ups|
  {
    if ups != [] {
      var n := |ups| - 1;
      assert Quiet(ups[n]);
      assert AllQuiet(ups[..n]) by {
        forall k | 0 <= k < n ensures Quiet(ups[..n][k]) {
          assert ups[..n][k] == ups[k];
        }
      }
      QuietReplay(m, id, ups[..n], times[..n]);
    }
  }

  lemma ReplayOne(m: Manager, id: TaskId, p: Patch, now: Timestamp)
    ensures Replay(m, id, [p], [now]) == UpdateTask(m, id, p, now)
  {
    assert [p][..0] == [] && [now][..0] == [];
  }

  /** Replaying `a + b` is replaying `a`, then `b`. */
  lemma {:induction false} ReplayConcat(m: Manager, id: TaskId, a: seq<Patch>, b: seq<Patch>,
                                        ta: seq<Timestamp>, tb: seq<Timestamp>)
    requires |ta| == |a| && |tb| == |b|
    ensures Replay(m, id, a + b, ta + tb) == Replay(Replay(m, id, a, ta), id, b, tb)
    decreases |b|
  {
    if b == [] {
      assert a + b == a && ta + tb == ta;
    } else {
      var n := |b| - 1;
      assert (a + b)[..|a + b| - 1] == a + b[..n];
      assert (ta + tb)[..|a + b| - 1] == ta + tb[..n];
      ReplayConcat(m, id, a, b[..n], ta, tb[..n]);
    }
  }

  /** The task as a client finds it when the last patch of a lifecycle has
      been applied to a freshly created task: in a terminal status with its
      completion time stamped by that last update; completed with every
      result URL, the first as the primary one, and no error; or failed
      with no results and the error text when it is non-empty (an exception
      with an empty text leaves the error unset). */
  lemma LifecycleOutcome(m: Manager, id: TaskId, ups: seq<Patch>, times: seq<Timestamp>)
    requires |times| == |ups| && RunShape(ups)
    requires id in m.tasks && IsFreshRecord(m.tasks[id], id, m.tasks[id].createdAt)
    ensures var r := Record(m, id, ups, times);
      var last := ups[|ups| - 1];
      && IsTerminal(r.status)
      && r.completedAt == Some(times[|times| - 1])
      && (last.status == Some(Completed) ==>
            && r.status == Completed && r.progress == 100.0 && r.error.None?
            && r.resultUrls == last.resultUrls && TruthyList(r.resultUrls)
            && r.resultUrl == Some(r.resultUrls.value[0]))
      && (last.status == Some(Failed) ==>
            && r.status == Failed && r.resultUrl.None? && r.resultUrls.None?
            && (r.error.Some? <==> last.error.value != "")
            && (r.error.Some? ==> r.error == last.error))
  {
    var n := |ups| - 1;
    var front := Replay(m, id, ups[..n], times[..n]);
    RunningBeforeLast(m, id, ups, times, n);
    assert Final(ups[n]);
  }

  /** Before the last patch the task is running, has no completion time,
      no results and no error. */
  lemma RunningBeforeLast(m: Manager, id: TaskId, ups: seq<Patch>, times: seq<Timestamp>, j: nat)
    requires |times| == |ups| && RunShape(ups)
    requires id in m.tasks && IsFreshRecord(m.tasks[id], id, m.tasks[id].createdAt)
    requires 1 <= j < |ups|
    ensures var r := Record(m, id, ups[..j], times[..j]);
      && r.status == Running && r.completedAt.None? && r.resultUrl.None? && r.resultUrls.None?
      && r.error.None?
  {
    var mid := ups[1..j];
    assert AllQuiet(mid) by {
      forall k | 0 <= k < |mid| ensures Quiet(mid[k]) {
        assert mid[k] == ups[1..][k];
      }
    }
    assert ups[..j] == [Start] + mid && times[..j] == [times[0]] + times[1..j];
    StartThenQuiet(m, id, mid, times[0], times[1..j]);
  }

  lemma StartThenQuiet(m: Manager, id: TaskId, mid: seq<Patch>, t0: Timestamp, ts: seq<Timestamp>)
    requires id in m.tasks && IsFreshRecord(m.tasks[id], id, m.tasks[id].createdAt)
    requires AllQuiet(mid) && |ts| == |mid|
    ensures var r := Record(m, id, [Start] + mid, [t0] + ts);
      && r.status == Running && r.completedAt.None? && r.resultUrl.None? && r.resultUrls.None?
      && r.error.None?
  {
    ReplayOne(m, id, Start, t0);
    var first := UpdateTask(m, id, Start, t0);
    QuietReplay(first, id, mid, ts);
    ReplayConcat(m, id, [Start], mid, [t0], ts);
    var r0 := first.tasks[id];
    assert r0 == ApplyPatch(m.tasks[id], Start, t0);
    assert r0.status == Running && r0.completedAt.None? && r0.resultUrl.None? && r0.resultUrls.None? && r0.error.None?;
    assert SameOutcome(Record(m, id, [Start] + mid, [t0] + ts), r0);
  }

  /** The position of the last patch that gives a progress value. */
  function LastProgressAt(ups: seq<Patch>): (r: Option<nat>)
    ensures r.Some? ==>
      && r.value < |ups| && ups[r.value].progress.Some?
      && (forall i :: r.value < i < |ups| ==> ups[i].progress.None?)
    ensures r.None? ==> forall i :: 0 <= i < |ups| ==> ups[i].progress.None?
  {
    if ups == [] then None
    else if ups[|ups| - 1].progress.Some? then Some(|ups| - 1)
    else LastProgressAt(ups[..|ups| - 1])
  }

  /** The progress a client reads is the one the last progress-giving patch
      set, or the initial one. */
  lemma {:induction false} RecordProgress(m: Manager, id: TaskId, ups: seq<Patch>, times: seq<Timestamp>)
    requires |times| == |ups| && id in m.tasks
    ensures Record(m, id, ups, times).progress ==
      match LastProgressAt(ups)
      case None => m.tasks[id].progress
      case Some(i) => ups[i].progress.value
    decreases |ups|
  {
    if ups != [] {
      var n := |ups| - 1;
      RecordProgress(m, id, ups[..n], times[..n]);
    }
  }

  /** Once a patch has given a progress value, the progress a client reads
      never goes down, provided the patches' progress values are ordered. */
  lemma ProgressNeverDrops(m: Manager, id: TaskId, ups: seq<Patch>, times: seq<Timestamp>)
    requires |times| == |ups| && id in m.tasks
    requires |ups| > 0 && ups[0].progress.Some? && ProgressOrdered(ups)
    ensures forall j, k :: 1 <= j <= k <= |ups| ==>
      Record(m, id, ups[..j], times[..j]).progress <= Record(m, id, ups[..k], times[..k]).progress
  {
    forall j, k | 1 <= j <= k <= |ups|
      ensures Record(m, id, ups[..j], times[..j]).progress <= Record(m, id, ups[..k], times[..k]).progress
    {
      RecordProgress(m, id, ups[..j], times[..j]);
      RecordProgress(m, id, ups[..k], times[..k]);
      assert ups[..j][0] == ups[0];
      var a := LastProgressAt(ups[..j]).value;
      var b := LastProgressAt(ups[..k]).value;
      assert ups[..j][a] == ups[a] && ups[..k][b] == ups[b] && ups[..k][a] == ups[a];
    }
  }

  /** The dispatcher run applied to a freshly created task: the manager
      stays consistent, nothing else changes, the task runs and then ends
      exactly once in a terminal status with its completion time set, and
      the progress a client reads never goes down. */
  lemma DispatchDrivesTask(m: Manager, id: TaskId, request: GenerationRequest, backend: Script,
                           times: seq<Timestamp>)
    requires WellKeyed(m.tasks) && Synced(m, id)
    requires IsFreshRecord(m.tasks[id], id, m.tasks[id].createdAt)
    requires |times| == |Dispatch(id, request, backend).updates|
    ensures var ups := Dispatch(id, request, backend).updates;
      var after := Replay(m, id, ups, times);
      && WellKeyed(after.tasks) && Synced(after, id)
      && (forall k :: k in m.tasks && k != id ==> after.tasks[k] == m.tasks[k])
      && (forall j :: 1 <= j < |ups| ==> Record(m, id, ups[..j], times[..j]).status == Running)
      && IsTerminal(after.tasks[id].status)
      && after.tasks[id].completedAt == Some(times[|times| - 1])
      && (forall j, k :: 1 <= j <= k <= |ups| ==>
            Record(m, id, ups[..j], times[..j]).progress <= Record(m, id, ups[..k], times[..k]).progress)
  {
    var ups := Dispatch(id, request, backend).updates;
    DispatchLifecycle(id, request, backend);
    ReplayKeepsSync(m, id, ups, times);
    LifecycleOutcome(m, id, ups, times);
    forall j | 1 <= j < |ups| ensures Record(m, id, ups[..j], times[..j]).status == Running {
      RunningBeforeLast(m, id, ups, times, j);
    }
    ProgressNeverDrops(m, id, ups, times);
  }

  /** A run that completes leaves the task completed with one URL per
      generated image, the first as its primary result. */
  lemma DispatchCompletesTask(m: Manager, id: TaskId, request: GenerationRequest, backend: Script,
                              times: seq<Timestamp>, k: nat, outputs: Backend.Outputs, at: nat,
                              images: seq<Backend.Image>)
    requires id in m.tasks && IsFreshRecord(m.tasks[id], id, m.tasks[id].createdAt)
    requires |times| == |Dispatch(id, request, backend).updates|
    requires ReachesSubmit(request, backend) && backend.submit.Returned?
    requires k < MaxAttempts && backend.history(k) == Backend.Ready(outputs)
    requires forall a: nat :: a < k ==> backend.history(a) == Backend.NotReady
    requires OutputProbe.Probe(outputs) == OutputProbe.Found(at, images)
    requires forall i: nat :: i < |images| ==> backend.download(i).Returned?
    ensures var r := Record(m, id, Dispatch(id, request, backend).updates, times);
      && r.status == Completed && r.progress == 100.0 && r.error.None?
      && r.resultUrls == Some(Artifacts.ArtifactUrls(id, images))
      && r.resultUrl == Some(Artifacts.ArtifactUrl(id, images[0].filename, 0))
  {
    var ups := Dispatch(id, request, backend).updates;
    DispatchLifecycle(id, request, backend);
    DispatchCompletes(id, request, backend, k, outputs, at, images);
    LifecycleOutcome(m, id, ups, times);
  }
}
