/** Whole runs of the scheduling protocol: any sequence of submissions, polls and reports. */
module ClusterRuns {
  import opened Results
  import opened Subsequences
  import opened Cluster
  import opened ClusterLemmas
  import opened ClusterSteps
  import Plans
  import Partitioner

  /** One call of a `Master` method. A submission carries the outcome of planning its statement. */
  datatype Event =
    | Submit(name: string, sql: string, parallelism: nat, plan: Result<Plans.Plan>)
    | Skip(name: string, sql: string, parallelism: nat)
    | Assign(worker: string)
    | Complete(id: Id, rows: nat, ok: bool, error: Option<string>, pick: Id)

  ghost function Apply(w: World, e: Event): World {
    match e
    case Submit(name, sql, parallelism, Ok(plan)) => SubmitStep(w, name, sql, parallelism, plan)
    case Submit(_, _, _, Err(_)) => w
    case Skip(name, sql, parallelism) => SkipStep(w, name, sql, parallelism)
    case Assign(worker) => AssignStep(w, worker)
    case Complete(id, rows, ok, error, pick) => CompleteStep(w, id, rows, ok, error, pick)
  }

  ghost function Run(events: seq<Event>): World {
    if events == [] then Initial else Apply(Run(events[..|events| - 1]), events[|events| - 1])
  }

  /** Every reachable state satisfies the invariant. */
  lemma {:induction false} ReachableInv(events: seq<Event>)
    ensures Inv(Run(events))
  {
    if events == [] {
      assert Inv(Initial);
    } else {
      ReachableInv(events[..|events| - 1]);
      ApplyKeepsInv(Run(events[..|events| - 1]), events[|events| - 1]);
    }
  }

  lemma ApplyKeepsInv(w: World, e: Event)
    requires Inv(w)
    ensures Inv(Apply(w, e))
  {
    hide Inv, SubmitStep, SkipStep, AssignStep, CompleteStep;
    match e
    case Submit(name, sql, parallelism, Ok(plan)) => SubmitKeepsInv(w, name, sql, parallelism, plan);
    case Submit(_, _, _, Err(_)) =>
    case Skip(name, sql, parallelism) => SkipKeepsInv(w, name, sql, parallelism);
    case Assign(worker) => AssignKeepsInv(w, worker);
    case Complete(id, rows, ok, error, pick) => CompleteKeepsInv(w, id, rows, ok, error, pick);
  }

  // ----- agreement of the copies -----

  /** The stored copies of a task agree, and its stage and job exist. */
  lemma TaskCopiesAgree(events: seq<Event>, id: Id)
    requires id in Run(events).tasks
    ensures var w := Run(events); var t := w.tasks[id];
            && t.id == id && t.stageId in w.stages && t.jobId in w.jobs
            && w.stages[t.stageId].jobId == t.jobId && w.jobs[t.jobId].stages == [t.stageId]
            && t in w.stages[t.stageId].tasks
            && forall sid, k :: sid in w.stages && 0 <= k < |w.stages[sid].tasks| && w.stages[sid].tasks[k].id == id ==>
                 sid == t.stageId && w.stages[sid].tasks[k] == t
  {
    hide Linked, StageStatuses, JobStatuses, Queued, HandedOut, FirstSuccesses, Reported, Run, Fresh;
    ReachableInv(events);
    var w := Run(events);
    SlotAgrees(w.jobs, w.stages, w.tasks, id);
    forall sid, k | sid in w.stages && 0 <= k < |w.stages[sid].tasks| && w.stages[sid].tasks[k].id == id
      ensures sid == w.tasks[id].stageId && w.stages[sid].tasks[k] == w.tasks[id]
    {
      CopyIs(w, sid, k);
      StageHasItsId(w, sid);
    }
  }

  lemma StageHasItsId(w: World, sid: Id)
    requires Linked(w.jobs, w.stages, w.tasks) && sid in w.stages
    ensures w.stages[sid].id == sid && w.stages[sid].tasks != [] && IdsDistinct(w.stages[sid].tasks)
    ensures w.stages[sid].jobId in w.jobs && w.jobs[w.stages[sid].jobId].stages == [sid]
  {
    assert StageLinked(w.jobs, w.stages, w.tasks, sid);
  }

  /** A job has succeeded exactly when its stage has, which is exactly when every task filed under
      it has; its row count is then the sum over those tasks. Its stage has failed exactly when
      some task is failed. */
  lemma SuccessAgrees(events: seq<Event>, sid: Id)
    requires sid in Run(events).stages
    ensures var w := Run(events); var stage := w.stages[sid];
            && stage.jobId in w.jobs
            && var job := w.jobs[stage.jobId]; var ids := JobIds(w.tasks, stage.jobId);
               && ids != {}
               && (job.status == JobSucceeded <==> AllIdsSucceeded(w.tasks, ids))
               && (stage.status == StageSucceeded <==> AllIdsSucceeded(w.tasks, ids))
               && (stage.status.StageFailed? <==> AnyIdFailed(w.tasks, ids))
               && (job.status == JobSucceeded ==> job.resultRows == Some(SumRows(w.tasks, ids)))
  {
    hide Linked, Queued, HandedOut, FirstSuccesses, Reported, Run, JobIds, AllIdsSucceeded, AnyIdFailed, SumRows,
        TotalRows, Fresh;
    ReachableInv(events);
    var w := Run(events);
    StageHasItsId(w, sid);
    AggregatesAgree(w.jobs, w.stages, w.tasks, sid);
    StatusByTasks(w.stages[sid].tasks);
  }

  lemma StatusByTasks(ts: seq<Task>)
    requires ts != []
    ensures StatusOfTasks(ts) == StageSucceeded <==> AllSucceeded(ts)
    ensures StatusOfTasks(ts).StageFailed? <==> AnyFailed(ts)
    ensures StatusOfTasks(ts) == StagePending <==> !AnyTerminal(ts)
  {
    if AllSucceeded(ts) {
      assert ts[0].status.Terminal();
    }
    if AnyFailed(ts) {
      var k :| 0 <= k < |ts| && ts[k].status.Failed?;
      assert ts[k].status.Terminal() && !ts[k].status.Succeeded?;
    }
  }

  /** Jobs recorded without planning never get a task and stay running. */
  lemma UnplannedJobStaysRunning(events: seq<Event>, jid: Id)
    requires jid in Run(events).jobs && Run(events).jobs[jid].stages == []
    ensures Run(events).jobs[jid].status == JobRunning && JobIds(Run(events).tasks, jid) == {}
  {
    hide Linked, Queued, HandedOut, FirstSuccesses, Reported, Run, Fresh;
    ReachableInv(events);
    var w := Run(events);
    forall id | id in JobIds(w.tasks, jid)
      ensures false
    {
      SlotAgrees(w.jobs, w.stages, w.tasks, id);
    }
  }

  // ----- what a failed job means -----

  /** Over arbitrary runs: a job is failed exactly when not all of its tasks are succeeded and
      some task of it was reported as failed at some time. */
  lemma FailedExactly(events: seq<Event>, sid: Id)
    requires sid in Run(events).stages
    ensures var w := Run(events); var stage := w.stages[sid];
            && stage.jobId in w.jobs
            && (w.jobs[stage.jobId].status.JobFailed? <==>
                !AllSucceeded(stage.tasks) && FailureReported(stage.tasks, w.reports))
  {
    hide Linked, Queued, HandedOut, FirstSuccesses, Reported, Run, TotalRows, Fresh, StageStatuses;
    ReachableInv(events);
    StageHasItsId(Run(events), sid);
  }

  ghost predicate AtMostOnce(reports: seq<Report>) {
    forall i, j :: 0 <= i < j < |reports| ==> reports[i].id != reports[j].id
  }

  lemma {:induction false} OnlyReportIsLast(reports: seq<Report>, r: nat)
    requires AtMostOnce(reports) && r < |reports|
    ensures LastReport(reports, reports[r].id) == Some(reports[r].ok)
  {
    var n := |reports| - 1;
    if r < n {
      assert AtMostOnce(reports[..n]);
      OnlyReportIsLast(reports[..n], r);
    }
  }

  ghost predicate Logged(reports: seq<Report>, id: Id, ok: bool) {
    exists r :: 0 <= r < |reports| && reports[r] == Report(id, ok)
  }

  /** With at most one report per task, a task's outcome is what was reported of it. */
  lemma OutcomeIsTheReport(w: World, sid: Id, k: nat)
    requires Inv(w) && AtMostOnce(w.reports) && sid in w.stages && k < |w.stages[sid].tasks|
    ensures var t := w.stages[sid].tasks[k];
            && (t.status.Succeeded? <==> Logged(w.reports, t.id, true))
            && (t.status.Failed? <==> Logged(w.reports, t.id, false))
  {
    hide Linked, Queued, HandedOut, FirstSuccesses, StageStatuses, JobStatuses, Fresh;
    CopyIs(w, sid, k);
    var id := w.stages[sid].tasks[k].id;
    if LastReport(w.reports, id) != None {
      LastReportIsLogged(w.reports, id);
    }
    forall r | 0 <= r < |w.reports| && w.reports[r].id == id
      ensures LastReport(w.reports, id) == Some(w.reports[r].ok)
    {
      OnlyReportIsLast(w.reports, r);
    }
  }

  /** Both statuses by what was reported about the stage's tasks. */
  lemma StatusesByReports(w: World, sid: Id)
    requires Inv(w) && AtMostOnce(w.reports) && sid in w.stages
    ensures var stage := w.stages[sid]; var ts := stage.tasks;
            && stage.jobId in w.jobs && ts != []
            && var job := w.jobs[stage.jobId];
               && (job.status == JobSucceeded <==> forall k :: 0 <= k < |ts| ==> Logged(w.reports, ts[k].id, true))
               && (stage.status == StageSucceeded <==> forall k :: 0 <= k < |ts| ==> Logged(w.reports, ts[k].id, true))
               && (job.status.JobFailed? <==> exists k :: 0 <= k < |ts| && Logged(w.reports, ts[k].id, false))
               && (stage.status.StageFailed? <==> exists k :: 0 <= k < |ts| && Logged(w.reports, ts[k].id, false))
               && (job.status.JobFailed? <==> AnyFailed(ts))
  {
    hide Linked, Queued, HandedOut, FirstSuccesses, Fresh, TotalRows, Reported;
    StageHasItsId(w, sid);
    var ts := w.stages[sid].tasks;
    StatusByTasks(ts);
    forall k | 0 <= k < |ts|
      ensures ts[k].status.Succeeded? <==> Logged(w.reports, ts[k].id, true)
      ensures ts[k].status.Failed? <==> Logged(w.reports, ts[k].id, false)
    {
      OutcomeIsTheReport(w, sid, k);
    }
    if FailureReported(ts, w.reports) {
      var k, r :| 0 <= k < |ts| && 0 <= r < |w.reports| && w.reports[r] == Report(ts[k].id, false);
      assert Logged(w.reports, ts[k].id, false);
    }
    if AnyFailed(ts) {
      var k :| 0 <= k < |ts| && ts[k].status.Failed?;
      var r :| 0 <= r < |w.reports| && w.reports[r] == Report(ts[k].id, false);
      assert FailureReported(ts, w.reports);
    }
  }

  /** If no task is reported twice, a job is failed exactly when some task of it is failed. */
  lemma FailedIffSomeTaskFailed(events: seq<Event>, sid: Id)
    requires sid in Run(events).stages && AtMostOnce(Run(events).reports)
    ensures var w := Run(events); var jid := w.stages[sid].jobId;
            jid in w.jobs && (w.jobs[jid].status.JobFailed? <==> AnyIdFailed(w.tasks, JobIds(w.tasks, jid)))
  {
    hide Linked, Run, JobIds, AnyIdFailed, AnyFailed, StageStatuses, JobStatuses, Queued, HandedOut, FirstSuccesses,
        Fresh, Reported;
    ReachableInv(events);
    var w := Run(events);
    StatusesByReports(w, sid);
    AggregatesAgree(w.jobs, w.stages, w.tasks, sid);
  }

  /** Over arbitrary runs, "failed exactly when some task is failed" holds of a job except when a
      failure was reported, every failed task has since been reported as succeeded, and some task
      is unfinished. */
  lemma FailedAgreesExactly(events: seq<Event>, sid: Id)
    requires sid in Run(events).stages
    ensures var w := Run(events); var ts := w.stages[sid].tasks; var jid := w.stages[sid].jobId;
            && jid in w.jobs
            && ((w.jobs[jid].status.JobFailed? <==> AnyIdFailed(w.tasks, JobIds(w.tasks, jid))) <==>
                !(FailureReported(ts, w.reports) && !AnyFailed(ts) && !AllSucceeded(ts)))
  {
    hide Linked, Run, JobIds, AnyIdFailed, StageStatuses, JobStatuses, Queued, HandedOut, FirstSuccesses, Fresh,
        Reported, FailureReported;
    ReachableInv(events);
    var w := Run(events);
    FailedExactly(events, sid);
    AggregatesAgree(w.jobs, w.stages, w.tasks, sid);
    var ts := w.stages[sid].tasks;
    if AnyFailed(ts) {
      var k :| 0 <= k < |ts| && ts[k].status.Failed?;
      CopyIs(w, sid, k);
      FailedMeansReported(w.tasks, w.reports, ts[k]);
      FailureOfOne(ts, k, w.reports);
    }
  }

  // ----- growth: what no step takes back -----

  /** What no step changes of a task, a list of tasks, a job, a stage. */
  ghost predicate SameTask(a: Task, b: Task) {
    a.id == b.id && a.stageId == b.stageId && a.jobId == b.jobId && a.labelText == b.labelText && a.sql == b.sql
  }

  ghost predicate SameTasks(a: seq<Task>, b: seq<Task>) {
    |a| == |b| && forall k :: 0 <= k < |a| ==> SameTask(a[k], b[k])
  }

  ghost predicate SameJob(a: Job, b: Job) {
    a.id == b.id && a.name == b.name && a.sql == b.sql && a.stages == b.stages && a.parallelism == b.parallelism
  }

  ghost predicate SameStage(a: Stage, b: Stage) {
    && a.id == b.id && a.jobId == b.jobId && a.index == b.index && a.labelText == b.labelText
    && SameTasks(a.tasks, b.tasks)
  }

  ghost predicate Grows(w: World, w': World) {
    && w.totalRuns <= w'.totalRuns
    && w.reports <= w'.reports && w.submitted <= w'.submitted && w.handed <= w'.handed
    && (forall jid :: jid in w.jobs ==> jid in w'.jobs && SameJob(w.jobs[jid], w'.jobs[jid]))
    && (forall sid :: sid in w.stages ==> sid in w'.stages && SameStage(w.stages[sid], w'.stages[sid]))
    && (forall id :: id in w.tasks ==> id in w'.tasks && SameTask(w.tasks[id], w'.tasks[id]))
  }

  lemma CompleteGrows(w: World, id: Id, rows: nat, ok: bool, error: Option<string>, pick: Id)
    requires Inv(w)
    ensures Grows(w, CompleteStep(w, id, rows, ok, error, pick))
  {
    hide Linked, StageStatuses, JobStatuses, Queued, HandedOut, FirstSuccesses, Fresh, Reported, CompleteStep,
        FoldedStatus, CompleteInJob;
    if id in w.tasks {
      CompleteNormal(w, id, rows, ok, error, pick);
      ReportSnoc(w.reports, Report(id, ok), id);
      JobKeepsItsId(w.tasks[id := CompletedTask(w.tasks[id], rows, ok, error)], w.jobs[w.tasks[id].jobId], pick);
    } else {
      CompleteUnknown(w, id, rows, ok, error, pick);
    }
  }

  lemma AssignGrows(w: World, worker: string)
    requires Inv(w)
    ensures Grows(w, AssignStep(w, worker))
  {
    hide Linked, StageStatuses, JobStatuses, Queued, HandedOut, FirstSuccesses, Fresh, Reported, AssignStep;
    if w.pending == [] {
      AssignNothing(w, worker);
    } else {
      AssignNormal(w, worker);
    }
  }

  lemma SubmitGrows(w: World, name: string, sql: string, parallelism: nat, plan: Plans.Plan)
    requires Fresh(w)
    ensures Grows(w, SubmitStep(w, name, sql, parallelism, plan))
    ensures Grows(w, SkipStep(w, name, sql, parallelism))
  {
    hide InsertAll, Partitioner.PlannedLabels, IdsOf;
    NewTaskMap(w, Partitioner.PlannedLabels(plan, parallelism), sql);
  }

  lemma ApplyGrows(w: World, e: Event)
    requires Inv(w)
    ensures Grows(w, Apply(w, e))
  {
    hide Linked, StageStatuses, JobStatuses, Queued, HandedOut, FirstSuccesses, Reported, Fresh, SubmitStep, SkipStep,
        AssignStep, CompleteStep;
    match e
    case Submit(name, sql, parallelism, Ok(plan)) => SubmitGrows(w, name, sql, parallelism, plan);
    case Submit(_, _, _, Err(_)) =>
    case Skip(name, sql, parallelism) => SubmitGrows(w, name, sql, parallelism, Plans.Empty);
    case Assign(worker) => AssignGrows(w, worker);
    case Complete(id, rows, ok, error, pick) => CompleteGrows(w, id, rows, ok, error, pick);
  }

  lemma GrowsTransitive(a: World, b: World, c: World)
    requires Grows(a, b) && Grows(b, c)
    ensures Grows(a, c)
  {
  }

  /** Along every run the logs and the run counter only grow, and jobs and stages keep their tasks. */
  lemma {:induction false} RunGrows(events: seq<Event>, n: nat)
    requires n <= |events|
    ensures Grows(Run(events[..n]), Run(events))
  {
    hide Grows, Apply, Inv;
    if n == |events| {
      assert events[..n] == events;
      GrowsReflexive(Run(events));
    } else {
      var last := |events| - 1;
      RunGrows(events[..last], n);
      assert events[..last][..n] == events[..n];
      ReachableInv(events[..last]);
      ApplyGrows(Run(events[..last]), events[last]);
      GrowsTransitive(Run(events[..n]), Run(events[..last]), Run(events));
    }
  }

  lemma GrowsReflexive(w: World)
    ensures Grows(w, w)
  {
  }

  lemma LoggedGrows(w: World, w': World, id: Id, ok: bool)
    requires Grows(w, w') && Logged(w.reports, id, ok)
    ensures Logged(w'.reports, id, ok)
  {
    var r :| 0 <= r < |w.reports| && w.reports[r] == Report(id, ok);
    assert w'.reports[r] == Report(id, ok);
  }

  /** If no task is reported twice, success and failure of a stage and its job are final. */
  lemma TerminalIsFinal(events: seq<Event>, n: nat, sid: Id)
    requires n <= |events| && sid in Run(events[..n]).stages && AtMostOnce(Run(events).reports)
    ensures var w, w' := Run(events[..n]), Run(events);
            && sid in w'.stages && w.stages[sid].jobId in w.jobs && w.stages[sid].jobId in w'.jobs
            && var job, job' := w.jobs[w.stages[sid].jobId], w'.jobs[w.stages[sid].jobId];
               && (w.stages[sid].status == StageSucceeded ==> w'.stages[sid].status == StageSucceeded)
               && (w.stages[sid].status.StageFailed? ==> w'.stages[sid].status.StageFailed?)
               && (job.status == JobSucceeded ==> job'.status == JobSucceeded)
               && (job.status.JobFailed? ==> job'.status.JobFailed?)
  {
    hide Inv, Run;
    ReachableInv(events[..n]);
    ReachableInv(events);
    RunGrows(events, n);
    var w, w' := Run(events[..n]), Run(events);
    assert AtMostOnce(w.reports);
    StatusesByReports(w, sid);
    StatusesByReports(w', sid);
    var ts, ts' := w.stages[sid].tasks, w'.stages[sid].tasks;
    forall k, ok | 0 <= k < |ts| && Logged(w.reports, ts[k].id, ok)
      ensures Logged(w'.reports, ts'[k].id, ok)
    {
      LoggedGrows(w, w', ts[k].id, ok);
    }
  }

  // ----- the run counter -----

  /** Over arbitrary runs the counter is the number of tasks whose first report was a success. */
  lemma RunCounterExact(events: seq<Event>, ids: set<Id>)
    requires forall id :: id in ids <==> FirstReport(Run(events).reports, id) == Some(true)
    ensures Run(events).totalRuns == |ids|
  {
    hide Linked, StageStatuses, JobStatuses, Queued, HandedOut, FirstSuccesses, Reported, Fresh, Run;
    ReachableInv(events);
    FirstSuccessesCountsTasks(Run(events).reports, ids);
  }

  // ----- dispatch -----

  /** In every run the queue is duplicate-free, holds exactly the pending tasks in submission
      order, and no task is handed out twice. */
  lemma QueueExact(events: seq<Event>)
    ensures var w := Run(events);
            && NoDuplicates(w.pending) && (forall id :: id in w.pending <==> IsPending(w.tasks, id))
            && w.pending == StillPending(w.submitted, w.tasks)
            && NoDuplicates(AssignedIds(w.handed))
            && forall k :: 0 <= k < |w.handed| ==>
                 w.handed[k].0 in w.tasks && w.tasks[w.handed[k].0].worker == Some(w.handed[k].1)
  {
    hide Linked, StageStatuses, JobStatuses, FirstSuccesses, Reported, Fresh, Run, StillPending;
    ReachableInv(events);
    var w := Run(events);
    StillPendingMeans(w.submitted, w.tasks);
    forall k | 0 <= k < |w.handed|
      ensures w.handed[k].0 in w.tasks && w.tasks[w.handed[k].0].worker == Some(w.handed[k].1)
    {
      var (id, worker) := w.handed[k];
    }
  }

  lemma {:induction false} WithoutIsSubsequence(ids: seq<Id>, id: Id)
    ensures IsSubsequence(Without(ids, id), ids)
  {
    if ids == [] {
      SubsequenceOfItself(ids);
    } else {
      var n := |ids| - 1;
      WithoutIsSubsequence(ids[..n], id);
      SubsequenceAppend(Without(ids[..n], id), ids[..n], [ids[n]]);
      assert ids == ids[..n] + [ids[n]];
      assert ids[n] == id ==> Without(ids, id) == Without(ids[..n], id);
    }
  }

  /** What was handed out, followed by the queue, is in submission order; completed tasks that were never
      handed out may be missing. */
  ghost predicate InSubmissionOrder(w: World) {
    IsSubsequence(AssignedIds(w.handed) + w.pending, w.submitted)
  }

  lemma ApplyKeepsOrder(w: World, e: Event)
    requires Inv(w) && InSubmissionOrder(w)
    ensures InSubmissionOrder(Apply(w, e))
  {
    hide Linked, StageStatuses, JobStatuses, Queued, HandedOut, FirstSuccesses, Reported, Fresh, AssignStep,
         CompleteStep, IdsOf, InsertAll, FoldedStatus, CompleteInJob, IsSubsequence;
    var handed := AssignedIds(w.handed);
    match e
    case Submit(name, sql, parallelism, Ok(plan)) =>
      var w' := Apply(w, e);
      var ids := w'.submitted[|w.submitted|..];
      assert w'.submitted == w.submitted + ids && w'.pending == w.pending + ids;
      SubsequenceAppend(handed + w.pending, w.submitted, ids);
      assert handed + (w.pending + ids) == (handed + w.pending) + ids;
    case Submit(_, _, _, Err(_)) =>
    case Skip(name, sql, parallelism) =>
    case Assign(worker) =>
      if w.pending == [] {
        AssignNothing(w, worker);
      } else {
        AssignNormal(w, worker);
        var id := w.pending[0];
        assert AssignedIds(w.handed + [(id, worker)]) == handed + [id];
        assert (handed + [id]) + w.pending[1..] == handed + w.pending;
      }
    case Complete(id, rows, ok, error, pick) =>
      if id in w.tasks {
        CompleteNormal(w, id, rows, ok, error, pick);
        WithoutIsSubsequence(w.pending, id);
        SubsequencePrepend(handed, Without(w.pending, id), w.pending);
        SubsequenceTransitive(handed + Without(w.pending, id), handed + w.pending, w.submitted);
      } else {
        CompleteUnknown(w, id, rows, ok, error, pick);
      }
  }

  /** In every run, disciplined or not, tasks are handed out in submission order, and everything still queued
      was submitted after everything handed out. */
  lemma {:induction false} DispatchInOrder(events: seq<Event>)
    ensures IsSubsequence(AssignedIds(Run(events).handed) + Run(events).pending, Run(events).submitted)
  {
    hide Apply, Inv, IsSubsequence;
    if events == [] {
      SubsequenceOfItself<Id>([]);
      assert AssignedIds(Initial.handed) + Initial.pending == [];
    } else {
      var n := |events| - 1;
      DispatchInOrder(events[..n]);
      ReachableInv(events[..n]);
      ApplyKeepsOrder(Run(events[..n]), events[n]);
      assert InSubmissionOrder(Run(events));
    }
  }

  /** Reports name only tasks that were handed out before. */
  ghost predicate Disciplined(events: seq<Event>) {
    forall i :: 0 <= i < |events| && events[i].Complete? ==>
      events[i].id in AssignedIds(Run(events[..i]).handed)
  }

  lemma HandedIsNotQueued(w: World, id: Id)
    requires Inv(w) && id in AssignedIds(w.handed)
    ensures id in w.tasks && Without(w.pending, id) == w.pending
  {
    hide Linked, StageStatuses, JobStatuses, FirstSuccesses, Reported, Fresh, Queued;
    var k :| 0 <= k < |w.handed| && AssignedIds(w.handed)[k] == id;
    var (id', worker) := w.handed[k];
    NotQueued(w, id);
  }

  ghost predicate Fifo(w: World) {
    AssignedIds(w.handed) + w.pending == w.submitted
  }

  lemma ApplyKeepsFifo(w: World, e: Event)
    requires Inv(w) && Fifo(w) && (e.Complete? ==> e.id in AssignedIds(w.handed))
    ensures Fifo(Apply(w, e))
  {
    hide Linked, StageStatuses, JobStatuses, Queued, HandedOut, FirstSuccesses, Reported, Fresh, AssignStep,
        CompleteStep, IdsOf, InsertAll, FoldedStatus, CompleteInJob;
    match e
    case Submit(name, sql, parallelism, Ok(plan)) =>
      var handed := AssignedIds(w.handed);
      assert forall ids: seq<Id> :: handed + (w.pending + ids) == (handed + w.pending) + ids;
    case Submit(_, _, _, Err(_)) =>
    case Skip(name, sql, parallelism) =>
    case Assign(worker) =>
      if w.pending == [] {
        AssignNothing(w, worker);
      } else {
        AssignNormal(w, worker);
        var id := w.pending[0];
        assert AssignedIds(w.handed + [(id, worker)]) == AssignedIds(w.handed) + [id];
        assert w.pending == [id] + w.pending[1..];
      }
    case Complete(id, rows, ok, error, pick) =>
      HandedIsNotQueued(w, id);
      CompleteNormal(w, id, rows, ok, error, pick);
  }

  /** If workers report only what they were handed, the tasks handed out, followed by the queue,
      are the submitted tasks in order. */
  lemma {:induction false} FifoDispatch(events: seq<Event>)
    requires Disciplined(events)
    ensures AssignedIds(Run(events).handed) + Run(events).pending == Run(events).submitted
  {
    hide Apply, Inv;
    if events != [] {
      var n := |events| - 1;
      forall i | 0 <= i < n && events[..n][i].Complete?
        ensures events[..n][i].id in AssignedIds(Run(events[..n][..i]).handed)
      {
        assert events[..n][..i] == events[..i] && events[..n][i] == events[i];
      }
      FifoDispatch(events[..n]);
      ReachableInv(events[..n]);
      ApplyKeepsFifo(Run(events[..n]), events[n]);
      assert Fifo(Run(events));
    }
  }

  // ----- the row count of a job -----

  lemma {:induction false} EqualRowsTotal(ts: seq<Task>, n: nat)
    requires forall k :: 0 <= k < |ts| ==> ts[k].resultRows == Some(n)
    ensures TotalRows(ts) == |ts| * n
  {
    if ts != [] {
      EqualRowsTotal(ts[..|ts| - 1], n);
      Partitioner.OneMore(|ts| - 1, n);
    }
  }

  lemma TimesIsSame(k: nat, n: nat)
    requires k > 0
    ensures k * n == n <==> n == 0 || k == 1
  {
    if k > 1 && n > 0 {
      assert k * n == n + (k - 1) * n;
      assert (k - 1) * n > 0;
    }
  }

  /** The stage of a submission keeps its number of tasks for the rest of the run. */
  lemma StageKeepsItsTasks(pre: seq<Event>, e: Event, post: seq<Event>)
    requires e.Submit? && e.plan.Ok?
    ensures var w := Run(pre + [e] + post); var sid := Run(pre).next + 1;
            sid in w.stages && |w.stages[sid].tasks| == |Partitioner.PlannedLabels(e.plan.value, e.parallelism)|
  {
    hide Apply, Partitioner.PlannedLabels;
    var events := pre + [e] + post;
    RunGrows(events, |pre| + 1);
    assert events[..|pre| + 1] == pre + [e];
    assert (pre + [e])[..|pre|] == pre;
    assert Run(pre + [e]) == Apply(Run(pre), e);
    SubmittedStage(Run(pre), e);
  }

  lemma SubmittedStage(w: World, e: Event)
    requires e.Submit? && e.plan.Ok?
    ensures var w' := Apply(w, e);
            w.next + 1 in w'.stages
            && |w'.stages[w.next + 1].tasks| == |Partitioner.PlannedLabels(e.plan.value, e.parallelism)|
  {
    hide InsertAll, IdsOf, Partitioner.PlannedLabels;
  }

  /** Every task of a job executes the job's whole statement (crates/rspark-cluster/src/worker.rs:45-54). So
      if each one reports the statement's `n` rows, a succeeded job shows `n` once per task, which is the
      statement's row count exactly when that is zero or the job has one task. */
  lemma RowsCountOncePerTask(pre: seq<Event>, e: Event, post: seq<Event>, n: nat)
    requires e.Submit? && e.plan.Ok?
    requires var w := Run(pre + [e] + post); var sid := Run(pre).next + 1;
             sid in w.stages && w.stages[sid].status == StageSucceeded
             && forall k :: 0 <= k < |w.stages[sid].tasks| ==> w.stages[sid].tasks[k].resultRows == Some(n)
    ensures var w := Run(pre + [e] + post); var stage := w.stages[Run(pre).next + 1];
            var scans := |Partitioner.ScanPaths(e.plan.value)| * e.parallelism;
            && stage.jobId in w.jobs && |stage.tasks| == (if scans == 0 then 1 else scans)
            && w.jobs[stage.jobId].status == JobSucceeded
            && w.jobs[stage.jobId].resultRows == Some(|stage.tasks| * n)
            && (w.jobs[stage.jobId].resultRows == Some(n) <==> n == 0 || |stage.tasks| == 1)
  {
    hide Inv, Run, SumRows, JobIds, AllIdsSucceeded, Partitioner.LabelsOf, Partitioner.ScanPaths;
    var events := pre + [e] + post;
    var w, sid := Run(events), Run(pre).next + 1;
    var ts := w.stages[sid].tasks;
    StageKeepsItsTasks(pre, e, post);
    Partitioner.LabelsLength(Partitioner.ScanPaths(e.plan.value), e.parallelism);
    SuccessAgrees(events, sid);
    ReachableInv(events);
    LinkedIn(w);
    AggregatesAgree(w.jobs, w.stages, w.tasks, sid);
    EqualRowsTotal(ts, n);
    TimesIsSame(|ts|, n);
  }

  lemma LinkedIn(w: World)
    requires Inv(w)
    ensures Linked(w.jobs, w.stages, w.tasks)
  {
  }

  // ----- repeated reports -----

  lemma TwoTasks(plan: Plans.Plan)
    requires |Partitioner.ScanPaths(plan)| == 1
    ensures var w := SubmitStep(Initial, "j", "q", 2, plan);
            && 1 in w.stages && |w.stages[1].tasks| == 2 && w.stages[1].tasks[0].id == 2 && w.stages[1].tasks[1].id == 3
            && 2 in w.tasks && w.reports == []
  {
    hide Partitioner.LabelsOf, Partitioner.ScanPaths;
    Partitioner.LabelsLength(Partitioner.ScanPaths(plan), 2);
    var labels := Partitioner.PlannedLabels(plan, 2);
    assert |labels| == 2;
    InsertAllMeans(map[], NewTasks(2, 0, 1, labels, "q"), 2, 2);
  }

  lemma CompleteLogs(w: World, e: Event)
    requires Inv(w) && e.Complete? && e.id in w.tasks
    ensures Apply(w, e).reports == w.reports + [Report(e.id, e.ok)] && e.id in Apply(w, e).tasks
    ensures Apply(w, e).handed == w.handed
  {
    hide Inv, CompleteStep;
    CompleteNormal(w, e.id, e.rows, e.ok, e.error, e.pick);
  }

  /** Two tasks, of which the first was reported as failed and then as succeeded. */
  lemma TwoTaskVerdict(w: World)
    requires Inv(w) && 1 in w.stages && w.reports == [Report(2, false), Report(2, true)]
    requires var ts := w.stages[1].tasks; |ts| == 2 && ts[0].id == 2 && ts[1].id == 3
    ensures var ts := w.stages[1].tasks; FailureReported(ts, w.reports) && !AnyFailed(ts) && !AllSucceeded(ts)
  {
    hide Linked, Queued, HandedOut, FirstSuccesses, Fresh, StageStatuses, JobStatuses;
    var first: seq<Report> := [Report(2, false)];
    assert w.reports == first + [Report(2, true)] && first == [] + [Report(2, false)];
    ReportSnoc(first, Report(2, true), 2);
    ReportSnoc(first, Report(2, true), 3);
    ReportSnoc([], Report(2, false), 3);
    CopyIs(w, 1, 0);
    CopyIs(w, 1, 1);
    assert w.reports[0] == Report(w.stages[1].tasks[0].id, false);
    assert !w.stages[1].tasks[1].status.Succeeded?;
  }

  /** The exception is reachable: of two tasks one fails and is then reported as succeeded, while the
      other is still waiting; the job stays failed although no task is. */
  lemma RepeatedReportLeavesJobFailed(plan: Plans.Plan) returns (events: seq<Event>)
    requires |Partitioner.ScanPaths(plan)| == 1
    ensures var w := Run(events);
            && 1 in w.stages && w.stages[1].jobId in w.jobs
            && w.jobs[w.stages[1].jobId].status.JobFailed?
            && !AnyIdFailed(w.tasks, JobIds(w.tasks, w.stages[1].jobId))
  {
    hide SubmitStep, CompleteStep, Inv, AnyIdFailed, JobIds;
    var submit := Submit("j", "q", 2, Ok(plan));
    var fail, succeed := Complete(2, 0, false, None, 0), Complete(2, 1, true, None, 0);
    events := [submit, fail, succeed];
    assert [submit][..0] == [] && [submit, fail][..1] == [submit] && events[..2] == [submit, fail] &&
        events[..1] == [submit];
    var w1, w2, w3 := Run([submit]), Run([submit, fail]), Run(events);
    TwoTasks(plan);
    ReachableInv([submit]);
    ReachableInv([submit, fail]);
    ReachableInv(events);
    assert w1 == Apply(Run([]), submit) == SubmitStep(Initial, "j", "q", 2, plan);
    assert w2 == Apply(w1, fail) && w3 == Apply(w2, succeed);
    CompleteLogs(w1, fail);
    CompleteLogs(w2, succeed);
    assert [] + [Report(2, false)] + [Report(2, true)] == [Report(2, false), Report(2, true)];
    RunGrows(events, 1);
    TwoTaskVerdict(w3);
    FailedExactly(events, 1);
    FailedAgreesExactly(events, 1);
  }
}
