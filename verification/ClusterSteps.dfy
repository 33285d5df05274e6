/** Every step of the scheduling protocol keeps the invariant. */
module ClusterSteps {
  import opened Results
  import opened Subsequences
  import opened Cluster
  import opened ClusterLemmas
  import Plans
  import Partitioner

  // ----- handing out a task -----

  /** Under the invariant, assigning replaces the head task in the map and in its stage. */
  lemma AssignNormal(w: World, worker: string)
    requires Inv(w) && w.pending != []
    ensures var id := w.pending[0];
            && IsPending(w.tasks, id)
            && var t := AssignedTask(w.tasks[id], worker);
               && t.id == id && t.stageId in w.stages
               && Slot(w.stages[t.stageId].tasks, t.id) < |w.stages[t.stageId].tasks|
               && w.stages[t.stageId].tasks[Slot(w.stages[t.stageId].tasks, t.id)] == w.tasks[id]
               && AssignStep(w, worker) == w.(
                 pending := w.pending[1..],
                 tasks := w.tasks[id := t],
                 stages := Replaced(w.stages, t, w.stages[t.stageId].status),
                 handed := w.handed + [(id, worker)])
  {
    hide Reported, StageStatuses, JobStatuses, HandedOut, Fresh, FirstSuccesses, Linked;
    var id := w.pending[0];
    StillPendingMeans(w.submitted, w.tasks);
    assert id in w.pending;
    SlotAgrees(w.jobs, w.stages, w.tasks, id);
  }

  /** Swapping one unfinished task for another changes no aggregate. */
  lemma UnfinishedSwap(ts: seq<Task>, k: nat, t: Task)
    requires k < |ts| && !ts[k].status.Terminal() && !t.status.Terminal()
    ensures StatusOfTasks(ts[k := t]) == StatusOfTasks(ts)
    ensures !AllSucceeded(ts) && !AllSucceeded(ts[k := t])
  {
    var after := ts[k := t];
    if i :| 0 <= i < |ts| && ts[i].status.Terminal() {
      assert after[i] == ts[i];
    }
    if i :| 0 <= i < |ts| && after[i].status.Terminal() {
      assert after[i] == ts[i];
    }
    if i :| 0 <= i < |ts| && ts[i].status.Failed? {
      assert after[i] == ts[i];
    }
    if i :| 0 <= i < |ts| && after[i].status.Failed? {
      assert after[i] == ts[i];
    }
    assert !after[k].status.Succeeded?;
  }

  lemma SameIdsSameFailures(a: seq<Task>, b: seq<Task>, reports: seq<Report>)
    requires |a| == |b| && forall k :: 0 <= k < |a| ==> a[k].id == b[k].id
    ensures FailureReported(a, reports) <==> FailureReported(b, reports)
  {
    if FailureReported(a, reports) {
      var k, r :| 0 <= k < |a| && 0 <= r < |reports| && reports[r] == Report(a[k].id, false);
      assert b[k].id == a[k].id;
    }
    if FailureReported(b, reports) {
      var k, r :| 0 <= k < |b| && 0 <= r < |reports| && reports[r] == Report(b[k].id, false);
      assert a[k].id == b[k].id;
    }
  }

  lemma AssignKeepsStatuses(jobs: map<Id, Job>, stages: map<Id, Stage>, reports: seq<Report>, t: Task)
    requires t.stageId in stages && Slot(stages[t.stageId].tasks, t.id) < |stages[t.stageId].tasks|
    requires !t.status.Terminal() && !stages[t.stageId].tasks[Slot(stages[t.stageId].tasks, t.id)].status.Terminal()
    requires StageStatuses(stages) && JobStatuses(jobs, stages, reports)
    ensures var after := Replaced(stages, t, stages[t.stageId].status);
            StageStatuses(after) && JobStatuses(jobs, after, reports)
  {
    var ts := stages[t.stageId].tasks;
    var k := Slot(ts, t.id);
    UnfinishedSwap(ts, k, t);
    SameIdsSameFailures(ts, ts[k := t], reports);
  }

  lemma AssignKeepsQueue(tasks: map<Id, Task>, pending: seq<Id>, submitted: seq<Id>, t: Task)
    requires Queued(tasks, pending, submitted) && pending != [] && t.id == pending[0] && t.id in tasks
    requires !t.status.Pending?
    ensures Queued(tasks[t.id := t], pending[1..], submitted)
  {
    StillPendingMeans(submitted, tasks);
    StillPendingUpdate(submitted, tasks, t.id, t);
    WithoutHead(pending);
  }

  lemma AssignKeepsHandedOut(tasks: map<Id, Task>, handed: seq<(Id, string)>, t: Task, worker: string)
    requires HandedOut(tasks, handed) && IsPending(tasks, t.id)
    requires !t.status.Pending? && t.worker == Some(worker)
    ensures HandedOut(tasks[t.id := t], handed + [(t.id, worker)])
  {
    var after := handed + [(t.id, worker)];
    forall k | 0 <= k < |handed|
      ensures handed[k].0 in tasks && handed[k].0 != t.id
    {
      var (id, _) := handed[k];
    }
    assert AssignedIds(after) == AssignedIds(handed) + [t.id];
    assert t.id !in AssignedIds(handed);
    DistinctSnoc(AssignedIds(handed), t.id);
  }

  lemma AssignKeepsInv(w: World, worker: string)
    requires Inv(w)
    ensures Inv(AssignStep(w, worker))
  {
    hide Linked, StageStatuses, JobStatuses, Queued, HandedOut, FirstSuccesses, AssignStep;
    if w.pending == [] {
      AssignNothing(w, worker);
    } else {
      AssignNormal(w, worker);
      var t := AssignedTask(w.tasks[w.pending[0]], worker);
      ReplacedLinked(w.jobs, w.stages, w.tasks, t, w.stages[t.stageId].status);
      AssignKeepsStatuses(w.jobs, w.stages, w.reports, t);
      AssignKeepsQueue(w.tasks, w.pending, w.submitted, t);
      AssignKeepsHandedOut(w.tasks, w.handed, t, worker);
    }
  }

  lemma AssignNothing(w: World, worker: string)
    requires w.pending == []
    ensures AssignStep(w, worker) == w
  {
  }

  // ----- completing a task -----

  /** Under the invariant, completing replaces the task in the map and in its stage, takes it off
      the queue, and folds stage and job. */
  lemma CompleteNormal(w: World, id: Id, rows: nat, ok: bool, error: Option<string>, pick: Id)
    requires Inv(w) && id in w.tasks
    ensures var t := CompletedTask(w.tasks[id], rows, ok, error);
            && t.id == id && t.stageId in w.stages && t.jobId in w.jobs
            && Slot(w.stages[t.stageId].tasks, id) < |w.stages[t.stageId].tasks|
            && w.stages[t.stageId].tasks[Slot(w.stages[t.stageId].tasks, id)] == w.tasks[id]
            && w.jobs[t.jobId].id == t.jobId
            && var ts := w.stages[t.stageId].tasks[Slot(w.stages[t.stageId].tasks, id) := t];
               CompleteStep(w, id, rows, ok, error, pick) == w.(
                 pending := Without(w.pending, id),
                 totalRuns := FirstSuccesses(w.reports + [Report(id, ok)]),
                 tasks := w.tasks[id := t],
                 stages := Replaced(w.stages, t, FoldedStatus(ts)),
                 jobs := w.jobs[t.jobId := CompleteInJob(w.tasks[id := t], w.jobs[t.jobId], pick)],
                 reports := w.reports + [Report(id, ok)])
  {
    hide StageStatuses, JobStatuses, HandedOut, Fresh, FirstSuccesses, Linked, FoldedStatus, CompleteInJob, Queued,
         Reported, UpdateTask, CompleteInStage, Without;
    SlotAgrees(w.jobs, w.stages, w.tasks, id);
    JobHasItsId(w, w.tasks[id].jobId);
    var t := CompletedTask(w.tasks[id], rows, ok, error);
    UpdateNormal(w, t, ok);
    StageNormal(w.stages[t.stageId], t);
    JobKeepsItsId(w.tasks[id := t], w.jobs[t.jobId], pick);
  }

  lemma UpdateNormal(w: World, t: Task, ok: bool)
    requires Queued(w.tasks, w.pending, w.submitted) && Reported(w.tasks, w.reports) &&
        w.totalRuns == FirstSuccesses(w.reports)
    requires t.id in w.tasks && t.status.Succeeded? == ok && t.status.Failed? == !ok
    ensures UpdateTask(w, t) == w.(
              pending := Without(w.pending, t.id),
              totalRuns := FirstSuccesses(w.reports + [Report(t.id, ok)]),
              tasks := w.tasks[t.id := t])
  {
    hide Queued, FirstSuccesses;
    ReportSnoc(w.reports, Report(t.id, ok), t.id);
    FirstLast(w.reports, t.id);
    ReportCases(LastReport(w.reports, t.id));
    if w.tasks[t.id].status.Terminal() {
      NotQueued(w, t.id);
    }
  }

  lemma StageNormal(stage: Stage, t: Task)
    requires Slot(stage.tasks, t.id) < |stage.tasks|
    requires var own := stage.tasks[Slot(stage.tasks, t.id)];
             own.(status := t.status, resultRows := t.resultRows, error := t.error) == t
    ensures var ts := stage.tasks[Slot(stage.tasks, t.id) := t];
            CompleteInStage(stage, t) == stage.(tasks := ts, status := FoldedStatus(ts))
  {
  }

  lemma JobHasItsId(w: World, jid: Id)
    requires Linked(w.jobs, w.stages, w.tasks) && jid in w.jobs
    ensures w.jobs[jid].id == jid
  {
    assert JobLinked(w.jobs, w.stages, jid);
  }

  lemma JobKeepsItsId(tasks: map<Id, Task>, job: Job, pick: Id)
    ensures var after := CompleteInJob(tasks, job, pick);
      after == job.(status := after.status, resultRows := after.resultRows)
  {
  }

  lemma NotQueued(w: World, id: Id)
    requires Queued(w.tasks, w.pending, w.submitted) && !IsPending(w.tasks, id)
    ensures Without(w.pending, id) == w.pending
  {
    StillPendingMeans(w.submitted, w.tasks);
    WithoutAbsent(w.pending, id);
  }

  lemma CompleteKeepsStageStatuses(stages: map<Id, Stage>, t: Task)
    requires t.stageId in stages && Slot(stages[t.stageId].tasks, t.id) < |stages[t.stageId].tasks|
    requires t.status.Terminal() && StageStatuses(stages)
    ensures var ts := stages[t.stageId].tasks[Slot(stages[t.stageId].tasks, t.id) := t];
            StageStatuses(Replaced(stages, t, FoldedStatus(ts)))
  {
    hide FoldedStatus;
    var k := Slot(stages[t.stageId].tasks, t.id);
    var ts := stages[t.stageId].tasks[k := t];
    assert ts[k].status.Terminal();
    assert AnyTerminal(ts);
  }

  lemma CompleteKeepsReported(tasks: map<Id, Task>, reports: seq<Report>, t: Task, ok: bool)
    requires Reported(tasks, reports) && t.id in tasks
    requires t.status.Succeeded? == ok && t.status.Failed? == !ok
    ensures Reported(tasks[t.id := t], reports + [Report(t.id, ok)])
  {
    forall id: Id
      ensures LastReport(reports + [Report(t.id, ok)], id) == if t.id == id then Some(ok) else LastReport(reports, id)
    {
      ReportSnoc(reports, Report(t.id, ok), id);
    }
  }

  lemma CompleteKeepsQueue(tasks: map<Id, Task>, pending: seq<Id>, submitted: seq<Id>, t: Task)
    requires Queued(tasks, pending, submitted) && t.id in tasks && !t.status.Pending?
    ensures Queued(tasks[t.id := t], Without(pending, t.id), submitted)
  {
    StillPendingUpdate(submitted, tasks, t.id, t);
  }

  lemma FailuresSnoc(ts: seq<Task>, reports: seq<Report>, r: Report)
    ensures FailureReported(ts, reports + [r]) <==>
            FailureReported(ts, reports) || (!r.ok && exists k :: 0 <= k < |ts| && ts[k].id == r.id)
  {
    var after := reports + [r];
    if FailureReported(ts, reports) {
      var k, i :| 0 <= k < |ts| && 0 <= i < |reports| && reports[i] == Report(ts[k].id, false);
      assert after[i] == Report(ts[k].id, false);
    }
    if FailureReported(ts, after) {
      var k, i :| 0 <= k < |ts| && 0 <= i < |after| && after[i] == Report(ts[k].id, false);
      if i < |reports| {
        assert reports[i] == Report(ts[k].id, false);
      }
    }
    if !r.ok && exists k :: 0 <= k < |ts| && ts[k].id == r.id {
      var k :| 0 <= k < |ts| && ts[k].id == r.id;
      assert after[|reports|] == Report(ts[k].id, false);
    }
  }

  /** The status written into the job is the one its tasks and reports call for. */
  lemma CompletedJobStatus(job: Job, before: seq<Task>, k: nat, t: Task, reports: seq<Report>, ok: bool, after: Job)
    requires k < |before| && t.id == before[k].id && t.status.Succeeded? == ok && t.status.Failed? == !ok
    requires JobStatusIs(job, before, reports)
    requires var ts := before[k := t];
             if AllSucceeded(ts) then after.status == JobSucceeded && after.resultRows == Some(TotalRows(ts))
             else if AnyFailed(ts) then after.status.JobFailed?
             else after == job
    requires forall i :: 0 <= i < |before| && before[i].status.Failed? ==> FailureReported([before[i]], reports)
    ensures JobStatusIs(after, before[k := t], reports + [Report(t.id, ok)])
  {
    hide TotalRows;
    var ts := before[k := t];
    assert ts[k] == t;
    FailuresSnoc(before, reports, Report(t.id, ok));
    SameIdsSameFailures(before, ts, reports + [Report(t.id, ok)]);
    if AllSucceeded(ts) {
    } else if AnyFailed(ts) {
      var i :| 0 <= i < |ts| && ts[i].status.Failed?;
      if i != k {
        assert FailureReported([before[i]], reports);
        FailureOfOne(before, i, reports);
      }
    } else {
      assert ok;
      assert AllSucceeded(before) ==> AllSucceeded(ts);
    }
  }

  lemma FailureOfOne(ts: seq<Task>, i: nat, reports: seq<Report>)
    requires i < |ts| && FailureReported([ts[i]], reports)
    ensures FailureReported(ts, reports)
  {
    var k, r :| 0 <= k < 1 && 0 <= r < |reports| && reports[r] == Report([ts[i]][k].id, false);
    assert reports[r] == Report(ts[i].id, false);
  }

  lemma FailedMeansReported(tasks: map<Id, Task>, reports: seq<Report>, t: Task)
    requires Reported(tasks, reports) && t.id in tasks && tasks[t.id] == t && t.status.Failed?
    ensures FailureReported([t], reports)
  {
    LastReportIsLogged(reports, t.id);
    var r :| 0 <= r < |reports| && reports[r] == Report(t.id, false);
    assert reports[r] == Report([t][0].id, false);
  }

  /** The job that the completed task belongs to. */
  lemma CompleteKeepsOwnJob(w: World, t: Task, ok: bool, pick: Id)
    requires Inv(w) && t.id in w.tasks && t.stageId == w.tasks[t.id].stageId && t.jobId == w.tasks[t.id].jobId
    requires t.status.Succeeded? == ok && t.status.Failed? == !ok
    requires t.stageId in w.stages && t.jobId in w.jobs && w.jobs[t.jobId].id == t.jobId
    requires Slot(w.stages[t.stageId].tasks, t.id) < |w.stages[t.stageId].tasks|
    ensures var ts := w.stages[t.stageId].tasks[Slot(w.stages[t.stageId].tasks, t.id) := t];
            JobStatusIs(CompleteInJob(w.tasks[t.id := t], w.jobs[t.jobId], pick), ts, w.reports + [Report(t.id, ok)])
  {
    hide Linked, StageStatuses, Queued, HandedOut, Fresh, FirstSuccesses, TotalRows, SumRows, FoldedStatus, JobIds,
         AllIdsSucceeded, AnyIdFailed, AllSucceeded, AnyFailed, JobStatusIs, Reported;
    SlotAgrees(w.jobs, w.stages, w.tasks, t.id);
    var stage, job := w.stages[t.stageId], w.jobs[t.jobId];
    var k := Slot(stage.tasks, t.id);
    var ts, tasks' := stage.tasks[k := t], w.tasks[t.id := t];
    var stages' := Replaced(w.stages, t, FoldedStatus(ts));
    ReplacedLinked(w.jobs, w.stages, w.tasks, t, FoldedStatus(ts));
    AggregatesAgree(w.jobs, stages', tasks', t.stageId);
    forall i | 0 <= i < |stage.tasks| && stage.tasks[i].status.Failed?
      ensures FailureReported([stage.tasks[i]], w.reports)
    {
      CopyIs(w, t.stageId, i);
      FailedMeansReported(w.tasks, w.reports, stage.tasks[i]);
    }
    CompletedJobStatus(job, stage.tasks, k, t, w.reports, ok, CompleteInJob(tasks', job, pick));
  }

  lemma CopyIs(w: World, sid: Id, k: nat)
    requires Linked(w.jobs, w.stages, w.tasks) && sid in w.stages && k < |w.stages[sid].tasks|
    ensures CopyAgrees(w.tasks, w.stages[sid], k)
  {
    assert StageLinked(w.jobs, w.stages, w.tasks, sid);
  }

  /** The other jobs keep their status: the report is about none of their tasks. */
  lemma CompleteKeepsOtherJob(w: World, t: Task, ok: bool, jid: Id)
    requires Inv(w) && t.id in w.tasks && jid in w.jobs && jid != w.tasks[t.id].jobId && w.jobs[jid].stages != []
    ensures var sid := w.jobs[jid].stages[0];
            && sid in w.stages && sid != w.tasks[t.id].stageId
            && JobStatusIs(w.jobs[jid], w.stages[sid].tasks, w.reports + [Report(t.id, ok)])
  {
    hide StageStatuses, Queued, HandedOut, Fresh, FirstSuccesses, TotalRows, AllSucceeded, Reported;
    SlotAgrees(w.jobs, w.stages, w.tasks, t.id);
    assert JobLinked(w.jobs, w.stages, jid);
    var sid := w.jobs[jid].stages[0];
    var ts := w.stages[sid].tasks;
    FailuresSnoc(ts, w.reports, Report(t.id, ok));
    forall k | 0 <= k < |ts|
      ensures ts[k].id != t.id
    {
      CopyIs(w, sid, k);
    }
  }

  lemma CompleteKeepsJobStatuses(w: World, t: Task, ok: bool, status: StageStatus, pick: Id)
    requires Inv(w) && t.id in w.tasks && t.stageId == w.tasks[t.id].stageId && t.jobId == w.tasks[t.id].jobId
    requires t.status.Succeeded? == ok && t.status.Failed? == !ok
    requires t.stageId in w.stages && t.jobId in w.jobs && w.jobs[t.jobId].id == t.jobId
    requires Slot(w.stages[t.stageId].tasks, t.id) < |w.stages[t.stageId].tasks|
    ensures JobStatuses(w.jobs[t.jobId := CompleteInJob(w.tasks[t.id := t], w.jobs[t.jobId], pick)],
                        Replaced(w.stages, t, status), w.reports + [Report(t.id, ok)])
  {
    hide Linked, StageStatuses, Queued, HandedOut, Fresh, FirstSuccesses, JobStatusIs, CompleteInJob, Reported;
    SlotAgrees(w.jobs, w.stages, w.tasks, t.id);
    CompleteKeepsOwnJob(w, t, ok, pick);
    JobKeepsItsId(w.tasks[t.id := t], w.jobs[t.jobId], pick);
    forall jid | jid in w.jobs && jid != t.jobId && w.jobs[jid].stages != []
      ensures var sid := w.jobs[jid].stages[0];
              && sid in w.stages && sid != t.stageId
              && JobStatusIs(w.jobs[jid], w.stages[sid].tasks, w.reports + [Report(t.id, ok)])
    {
      CompleteKeepsOtherJob(w, t, ok, jid);
    }
  }

  lemma CompleteKeepsInv(w: World, id: Id, rows: nat, ok: bool, error: Option<string>, pick: Id)
    requires Inv(w)
    ensures Inv(CompleteStep(w, id, rows, ok, error, pick))
  {
    hide Linked, StageStatuses, JobStatuses, Queued, FirstSuccesses, CompleteStep, Reported, CompleteInJob,
         FoldedStatus;
    if id in w.tasks {
      CompleteNormal(w, id, rows, ok, error, pick);
      var t := CompletedTask(w.tasks[id], rows, ok, error);
      var stage := w.stages[t.stageId];
      var status := FoldedStatus(stage.tasks[Slot(stage.tasks, id) := t]);
      ReplacedLinked(w.jobs, w.stages, w.tasks, t, status);
      var job := CompleteInJob(w.tasks[id := t], w.jobs[t.jobId], pick);
      JobKeepsItsId(w.tasks[id := t], w.jobs[t.jobId], pick);
      JobRewriteLinked(w.jobs, Replaced(w.stages, t, status), w.tasks[id := t], job);
      CompleteKeepsStageStatuses(w.stages, t);
      CompleteKeepsJobStatuses(w, t, ok, status, pick);
      CompleteKeepsQueue(w.tasks, w.pending, w.submitted, t);
      CompleteKeepsReported(w.tasks, w.reports, t, ok);
    } else {
      CompleteUnknown(w, id, rows, ok, error, pick);
    }
  }

  lemma CompleteUnknown(w: World, id: Id, rows: nat, ok: bool, error: Option<string>, pick: Id)
    requires id !in w.tasks
    ensures CompleteStep(w, id, rows, ok, error, pick) == w
  {
  }

  // ----- submitting -----

  /** `tasks` holds the old entries and the new tasks under consecutive fresh ids. */
  ghost predicate Extended(before: map<Id, Task>, tasks: map<Id, Task>, ts: seq<Task>, first: Id) {
    && (forall id :: id in before ==> id < first)
    && (forall k :: 0 <= k < |ts| ==> ts[k].id == first + k)
    && (forall id :: id in tasks <==> id in before || first <= id < first + |ts|)
    && (forall id :: first <= id < first + |ts| ==> id in tasks && tasks[id] == ts[id - first])
    && (forall id :: id in before ==> id in tasks && tasks[id] == before[id])
  }

  lemma NewTaskMap(w: World, labels: seq<string>, sql: string)
    requires Fresh(w)
    ensures var ts := NewTasks(w.next + 2, w.next, w.next + 1, labels, sql); var after := InsertAll(w.tasks, ts);
            && Extended(w.tasks, after, ts, w.next + 2)
            && (forall id :: id in after ==> id < w.next + 2 + |ts|)
            && (forall k :: 0 <= k < |ts| ==> ts[k].status.Pending? && ts[k].id !in w.tasks)
  {
    var ts := NewTasks(w.next + 2, w.next, w.next + 1, labels, sql);
    var after := InsertAll(w.tasks, ts);
    forall id: Id
      ensures id in after <==> id in w.tasks || w.next + 2 <= id < w.next + 2 + |ts|
      ensures w.next + 2 <= id < w.next + 2 + |ts| ==> after[id] == ts[id - (w.next + 2)]
      ensures id in w.tasks ==> after[id] == w.tasks[id]
    {
      InsertAllMeans(w.tasks, ts, w.next + 2, id);
    }
  }

  /** A fresh job with one fresh stage holding fresh tasks. */
  ghost predicate FreshJob(w: World, tasks: map<Id, Task>, job: Job, stage: Stage) {
    && Extended(w.tasks, tasks, stage.tasks, w.next + 2) && stage.tasks != []
    && job.id == w.next && job.stages == [stage.id] && stage.id == w.next + 1 && stage.jobId == job.id
    && forall k :: 0 <= k < |stage.tasks| ==> stage.tasks[k].stageId == stage.id && stage.tasks[k].jobId == job.id
  }

  lemma SubmitTaskLinked(w: World, tasks: map<Id, Task>, job: Job, stage: Stage, id: Id)
    requires Linked(w.jobs, w.stages, w.tasks) && Fresh(w) && FreshJob(w, tasks, job, stage) && id in tasks
    ensures TaskLinked(w.stages[stage.id := stage], tasks, id)
  {
    if id in w.tasks {
      assert TaskLinked(w.stages, w.tasks, id);
    } else {
      SlotIs(stage.tasks, id - w.next - 2);
    }
  }

  lemma SubmitNewStageLinked(w: World, tasks: map<Id, Task>, job: Job, stage: Stage)
    requires FreshJob(w, tasks, job, stage)
    ensures StageLinked(w.jobs[job.id := job], w.stages[stage.id := stage], tasks, stage.id)
  {
    forall k | 0 <= k < |stage.tasks|
      ensures CopyAgrees(tasks, stage, k)
    {
      var id := stage.tasks[k].id;
      assert tasks[id] == stage.tasks[id - (w.next + 2)];
    }
  }

  lemma SubmitOldStageLinked(w: World, tasks: map<Id, Task>, job: Job, stage: Stage, sid: Id)
    requires Linked(w.jobs, w.stages, w.tasks) && Fresh(w) && FreshJob(w, tasks, job, stage) && sid in w.stages
    ensures sid != stage.id && StageLinked(w.jobs[job.id := job], w.stages[stage.id := stage], tasks, sid)
  {
    assert StageLinked(w.jobs, w.stages, w.tasks, sid);
    forall k | 0 <= k < |w.stages[sid].tasks|
      ensures CopyAgrees(tasks, w.stages[sid], k)
    {
      assert CopyAgrees(w.tasks, w.stages[sid], k);
    }
  }

  lemma SubmitLinked(w: World, tasks: map<Id, Task>, job: Job, stage: Stage)
    requires Linked(w.jobs, w.stages, w.tasks) && Fresh(w) && FreshJob(w, tasks, job, stage)
    ensures Linked(w.jobs[job.id := job], w.stages[stage.id := stage], tasks)
  {
    hide TaskLinked, StageLinked, Extended;
    var jobs', stages' := w.jobs[job.id := job], w.stages[stage.id := stage];
    forall id | id in tasks
      ensures TaskLinked(stages', tasks, id)
    {
      SubmitTaskLinked(w, tasks, job, stage, id);
    }
    SubmitNewStageLinked(w, tasks, job, stage);
    forall sid | sid in w.stages
      ensures StageLinked(jobs', stages', tasks, sid)
    {
      SubmitOldStageLinked(w, tasks, job, stage, sid);
    }
    forall jid | jid in w.jobs
      ensures jid != job.id && JobLinked(jobs', stages', jid)
    {
      assert JobLinked(w.jobs, w.stages, jid);
    }
  }

  lemma ExtendedIds(tasks: map<Id, Task>, submitted: seq<Id>, after: map<Id, Task>, ts: seq<Task>, first: Id)
    requires Extended(tasks, after, ts, first) && NoDuplicates(submitted)
    requires forall id :: id in submitted <==> id in tasks
    ensures NoDuplicates(submitted + IdsOf(ts))
    ensures forall id :: id in submitted + IdsOf(ts) <==> id in after
  {
    var ids := IdsOf(ts);
    forall k | 0 <= k < |submitted|
      ensures submitted[k] < first
    {
      assert submitted[k] in submitted;
    }
    forall id: Id
      ensures id in submitted + ids <==> id in after
    {
      if first <= id < first + |ts| {
        assert ids[id - first] == id;
      }
    }
  }

  lemma ExtendedPending(tasks: map<Id, Task>, after: map<Id, Task>, ts: seq<Task>, first: Id, id: Id)
    requires Extended(tasks, after, ts, first) && forall k :: 0 <= k < |ts| ==> ts[k].status.Pending?
    ensures id in tasks ==> IsPending(tasks, id) == IsPending(after, id)
    ensures first <= id < first + |ts| ==> IsPending(after, id)
  {
    if first <= id < first + |ts| {
      assert after[id] == ts[id - first];
    }
  }

  lemma SubmitKeepsQueue(tasks: map<Id, Task>, pending: seq<Id>, submitted: seq<Id>, after: map<Id, Task>,
                         ts: seq<Task>, first: Id)
    requires Queued(tasks, pending, submitted) && Extended(tasks, after, ts, first)
    requires forall k :: 0 <= k < |ts| ==> ts[k].status.Pending?
    ensures Queued(after, pending + IdsOf(ts), submitted + IdsOf(ts))
  {
    hide NoDuplicates, IsPending, StillPending;
    ExtendedIds(tasks, submitted, after, ts, first);
    var ids := IdsOf(ts);
    assert forall k :: 0 <= k < |ids| ==> ids[k] == first + k;
    hide Extended;
    forall k | 0 <= k < |ids|
      ensures IsPending(after, ids[k])
    {
      ExtendedPending(tasks, after, ts, first, ids[k]);
    }
    StillPendingAppend(submitted, ids, after);
    forall k | 0 <= k < |submitted|
      ensures IsPending(tasks, submitted[k]) == IsPending(after, submitted[k])
    {
      assert submitted[k] in submitted;
      ExtendedPending(tasks, after, ts, first, submitted[k]);
    }
    StillPendingSame(submitted, tasks, after);
  }

  lemma SubmitKeepsReported(tasks: map<Id, Task>, reports: seq<Report>, handed: seq<(Id, string)>,
                            after: map<Id, Task>, ts: seq<Task>, first: Id)
    requires Reported(tasks, reports) && HandedOut(tasks, handed) && Extended(tasks, after, ts, first)
    requires forall k :: 0 <= k < |ts| ==> ts[k].status.Pending?
    ensures Reported(after, reports) && HandedOut(after, handed)
  {
    hide LastReport;
    forall id | id in after && id !in tasks
      ensures LastReport(reports, id) == None
    {
      FirstLast(reports, id);
    }
    forall k | 0 <= k < |handed|
      ensures handed[k].0 in tasks
    {
      var (id, _) := handed[k];
    }
  }

  lemma SubmitKeepsStatuses(w: World, job: Job, stage: Stage)
    requires Linked(w.jobs, w.stages, w.tasks) && Fresh(w) && Reported(w.tasks, w.reports)
    requires StageStatuses(w.stages) && JobStatuses(w.jobs, w.stages, w.reports)
    requires job.id == w.next && job.stages == [stage.id] && job.status == JobRunning
    requires stage.id == w.next + 1 && stage.status == StagePending && stage.tasks != []
    requires forall k :: 0 <= k < |stage.tasks| ==> stage.tasks[k].status.Pending? && stage.tasks[k].id !in w.tasks
    ensures StageStatuses(w.stages[stage.id := stage])
    ensures JobStatuses(w.jobs[job.id := job], w.stages[stage.id := stage], w.reports)
  {
    hide Linked;
    assert stage.tasks[0].status.Pending?;
    assert !FailureReported(stage.tasks, w.reports);
    forall jid | jid in w.jobs && w.jobs[jid].stages != []
      ensures w.jobs[jid].stages[0] in w.stages
    {
      JobStageExists(w, jid);
    }
  }

  lemma JobStageExists(w: World, jid: Id)
    requires Linked(w.jobs, w.stages, w.tasks) && jid in w.jobs && w.jobs[jid].stages != []
    ensures w.jobs[jid].stages[0] in w.stages && w.stages[w.jobs[jid].stages[0]].jobId == jid
    ensures w.jobs[jid].stages == [w.jobs[jid].stages[0]]
  {
    assert JobLinked(w.jobs, w.stages, jid);
  }

  lemma SubmitShape(w: World, name: string, sql: string, parallelism: nat, plan: Plans.Plan)
    requires Fresh(w)
    ensures var w' := SubmitStep(w, name, sql, parallelism, plan);
            && w.next in w'.jobs && w.next + 1 in w'.stages
            && var stage := w'.stages[w.next + 1];
               && FreshJob(w, w'.tasks, w'.jobs[w.next], stage)
               && Extended(w.tasks, w'.tasks, stage.tasks, w.next + 2)
               && Fresh(w')
               && w'.pending == w.pending + IdsOf(stage.tasks) && w'.submitted == w.submitted + IdsOf(stage.tasks)
               && forall k :: 0 <= k < |stage.tasks| ==> stage.tasks[k].status.Pending? && stage.tasks[k].id !in w.tasks
  {
    hide InsertAll, Partitioner.PlannedLabels, IdsOf, Extended;
    NewTaskMap(w, Partitioner.PlannedLabels(plan, parallelism), sql);
  }

  lemma SubmitKeepsInv(w: World, name: string, sql: string, parallelism: nat, plan: Plans.Plan)
    requires Inv(w)
    ensures Inv(SubmitStep(w, name, sql, parallelism, plan))
  {
    hide Linked, StageStatuses, JobStatuses, Queued, HandedOut, FirstSuccesses, Reported, InsertAll,
         Partitioner.PlannedLabels, Extended, FreshJob, Fresh, NewTasks, IdsOf;
    SubmitShape(w, name, sql, parallelism, plan);
    var w' := SubmitStep(w, name, sql, parallelism, plan);
    var job, stage := w'.jobs[w.next], w'.stages[w.next + 1];
    FreshJobIds(w, w'.tasks, job, stage);
    SubmitLinked(w, w'.tasks, job, stage);
    SubmitKeepsStatuses(w, job, stage);
    SubmitKeepsQueue(w.tasks, w.pending, w.submitted, w'.tasks, stage.tasks, w.next + 2);
    SubmitKeepsReported(w.tasks, w.reports, w.handed, w'.tasks, stage.tasks, w.next + 2);
  }

  lemma FreshJobIds(w: World, tasks: map<Id, Task>, job: Job, stage: Stage)
    requires FreshJob(w, tasks, job, stage)
    ensures job.id == w.next && stage.id == w.next + 1 && job.stages == [stage.id] && stage.tasks != []
  {
  }

  lemma SkipKeepsInv(w: World, name: string, sql: string, parallelism: nat)
    requires Inv(w)
    ensures Inv(SkipStep(w, name, sql, parallelism))
  {
    hide Queued, HandedOut, FirstSuccesses, Reported, JobStatusIs, TaskLinked, StageLinked, JobLinked, StageStatuses;
    var w' := SkipStep(w, name, sql, parallelism);
    forall sid | sid in w.stages
      ensures StageLinked(w'.jobs, w'.stages, w'.tasks, sid)
    {
      NewJobKeepsStage(w, w'.jobs[w.next], sid);
    }
    forall jid | jid in w'.jobs
      ensures JobLinked(w'.jobs, w'.stages, jid)
    {
      NewJobKeepsJob(w, w'.jobs[w.next], jid);
    }
  }

  lemma NewJobKeepsStage(w: World, job: Job, sid: Id)
    requires Linked(w.jobs, w.stages, w.tasks) && job.id !in w.jobs && sid in w.stages
    ensures StageLinked(w.jobs[job.id := job], w.stages, w.tasks, sid)
  {
    assert StageLinked(w.jobs, w.stages, w.tasks, sid);
  }

  lemma NewJobKeepsJob(w: World, job: Job, jid: Id)
    requires Linked(w.jobs, w.stages, w.tasks) && job.id !in w.jobs && job.stages == [] &&
        (jid in w.jobs || jid == job.id)
    ensures JobLinked(w.jobs[job.id := job], w.stages, jid)
  {
    if jid in w.jobs {
      assert JobLinked(w.jobs, w.stages, jid);
    }
  }
}
