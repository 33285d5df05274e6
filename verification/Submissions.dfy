/** What a submission leaves in every later state, and what a report leaves in its task
    (crates/rspark-cluster/src/master.rs:33-198). */
module Submissions {
  import opened Results
  import opened Subsequences
  import opened Cluster
  import opened ClusterLemmas
  import opened ClusterSteps
  import opened ClusterRuns
  import Plans
  import Partitioner

  // ----- the submitted statement -----

  /** The job and its only stage, as submitted: one task per label, each with the job's statement. */
  ghost predicate IsSubmission(w: World, jid: Id, name: string, sql: string, parallelism: nat, labels: seq<string>) {
    && jid in w.jobs && |w.jobs[jid].stages| == 1 && w.jobs[jid].stages[0] in w.stages
    && var job := w.jobs[jid]; var stage := w.stages[job.stages[0]];
       && job.name == name && job.sql == sql && job.parallelism == (if parallelism == 0 then 1 else parallelism)
       && stage.jobId == jid && stage.index == 0 && stage.labelText == "main" && |stage.tasks| == |labels|
       && forall k :: 0 <= k < |labels| ==>
            stage.tasks[k].sql == sql && stage.tasks[k].labelText == labels[k] && stage.tasks[k].jobId == jid
  }

  lemma SubmissionIs(w: World, name: string, sql: string, parallelism: nat, plan: Plans.Plan)
    ensures IsSubmission(SubmitStep(w, name, sql, parallelism, plan), w.next, name, sql, parallelism,
                         Partitioner.PlannedLabels(plan, parallelism))
  {
    hide InsertAll, Partitioner.PlannedLabels, IdsOf;
  }

  lemma SubmissionStays(w: World, w': World, jid: Id, name: string, sql: string, parallelism: nat, labels: seq<string>)
    requires IsSubmission(w, jid, name, sql, parallelism, labels) && Grows(w, w')
    ensures IsSubmission(w', jid, name, sql, parallelism, labels)
  {
    var sid := w.jobs[jid].stages[0];
    assert SameJob(w.jobs[jid], w'.jobs[jid]) && SameStage(w.stages[sid], w'.stages[sid]);
    var ts, ts' := w.stages[sid].tasks, w'.stages[sid].tasks;
    assert forall k :: 0 <= k < |labels| ==> SameTask(ts[k], ts'[k]);
  }

  /** Once a planned statement is submitted, every later state has a new job for it with one task per partition label:
      each task carries the statement, the k-th one the k-th label. */
  lemma SubmittedTasks(events: seq<Event>, n: nat, name: string, sql: string, parallelism: nat, plan: Plans.Plan)
    returns (jid: Id)
    requires n < |events| && events[n] == Submit(name, sql, parallelism, Ok(plan))
    ensures jid !in Run(events[..n]).jobs
    ensures IsSubmission(Run(events), jid, name, sql, parallelism, Partitioner.PlannedLabels(plan, parallelism))
  {
    hide Grows, IsSubmission, Inv, SubmitStep, Partitioner.PlannedLabels;
    var before := Run(events[..n]);
    jid := before.next;
    ReachableInv(events[..n]);
    assert jid !in before.jobs by {
      FreshIsNew(before);
    }
    SubmissionIs(before, name, sql, parallelism, plan);
    assert events[..n + 1][..n] == events[..n];
    assert Run(events[..n + 1]) == SubmitStep(before, name, sql, parallelism, plan);
    RunGrows(events, n + 1);
    SubmissionStays(Run(events[..n + 1]), Run(events), jid, name, sql, parallelism,
                    Partitioner.PlannedLabels(plan, parallelism));
  }

  lemma FreshIsNew(w: World)
    requires Inv(w)
    ensures w.next !in w.jobs && w.next !in w.tasks
  {
    hide Linked, StageStatuses, JobStatuses, Queued, HandedOut, FirstSuccesses, Reported;
  }

  // ----- every task carries its job's statement -----

  ghost predicate StatementsAgree(w: World) {
    forall id :: id in w.tasks ==> w.tasks[id].jobId in w.jobs && w.tasks[id].sql == w.jobs[w.tasks[id].jobId].sql
  }

  /** No step but a submission makes a task or a job. */
  lemma NothingNew(w: World, e: Event)
    requires Inv(w) && (e.Assign? || e.Complete?)
    ensures Apply(w, e).tasks.Keys == w.tasks.Keys && Apply(w, e).jobs.Keys == w.jobs.Keys
  {
    hide Linked, StageStatuses, JobStatuses, Queued, HandedOut, FirstSuccesses, Fresh, Reported, CompleteStep,
        FoldedStatus, CompleteInJob, AssignStep;
    match e
    case Assign(worker) =>
      if w.pending == [] {
        AssignNothing(w, worker);
      } else {
        AssignNormal(w, worker);
      }
    case Complete(id, rows, ok, error, pick) =>
      if id in w.tasks {
        CompleteNormal(w, id, rows, ok, error, pick);
      } else {
        CompleteUnknown(w, id, rows, ok, error, pick);
      }
  }

  lemma SubmitAgrees(w: World, name: string, sql: string, parallelism: nat, plan: Plans.Plan)
    requires Fresh(w) && StatementsAgree(w)
    ensures StatementsAgree(SubmitStep(w, name, sql, parallelism, plan))
    ensures StatementsAgree(SkipStep(w, name, sql, parallelism))
  {
    hide InsertAll, Partitioner.PlannedLabels, IdsOf;
    NewTaskMap(w, Partitioner.PlannedLabels(plan, parallelism), sql);
    var w' := SubmitStep(w, name, sql, parallelism, plan);
    var ts := w'.stages[w.next + 1].tasks;
    forall id | id in w'.tasks
      ensures w'.tasks[id].jobId in w'.jobs && w'.tasks[id].sql == w'.jobs[w'.tasks[id].jobId].sql
    {
      assert id !in w.tasks ==> w'.tasks[id] == ts[id - (w.next + 2)];
    }
  }

  lemma ApplyAgrees(w: World, e: Event)
    requires Inv(w) && StatementsAgree(w)
    ensures StatementsAgree(Apply(w, e))
  {
    hide Linked, StageStatuses, JobStatuses, Queued, HandedOut, FirstSuccesses, Reported, SubmitStep, SkipStep,
        AssignStep, CompleteStep;
    match e
    case Submit(name, sql, parallelism, Ok(plan)) => SubmitAgrees(w, name, sql, parallelism, plan);
    case Submit(_, _, _, Err(_)) =>
    case Skip(name, sql, parallelism) => SubmitAgrees(w, name, sql, parallelism, Plans.Empty);
    case _ =>
      NothingNew(w, e);
      ApplyGrows(w, e);
      AgreementStays(w, Apply(w, e));
  }

  lemma AgreementStays(w: World, w': World)
    requires StatementsAgree(w) && Grows(w, w') && w'.tasks.Keys == w.tasks.Keys
    ensures StatementsAgree(w')
  {
    forall id | id in w'.tasks
      ensures w'.tasks[id].jobId in w'.jobs && w'.tasks[id].sql == w'.jobs[w'.tasks[id].jobId].sql
    {
      assert id in w.tasks && SameTask(w.tasks[id], w'.tasks[id]);
      assert SameJob(w.jobs[w.tasks[id].jobId], w'.jobs[w.tasks[id].jobId]);
    }
  }

  /** In every reachable state a task's statement is its job's. */
  lemma {:induction false} TaskRunsItsJob(events: seq<Event>)
    ensures StatementsAgree(Run(events))
  {
    hide StatementsAgree, Inv;
    if events == [] {
      NoTasksAgree();
    } else {
      TaskRunsItsJob(events[..|events| - 1]);
      ReachableInv(events[..|events| - 1]);
      ApplyAgrees(Run(events[..|events| - 1]), events[|events| - 1]);
    }
  }

  lemma NoTasksAgree()
    ensures StatementsAgree(Initial)
  {
  }

  /** The task handed to a polling worker carries its job's statement. */
  lemma HandedStatement(events: seq<Event>, worker: string)
    requires Run(events).pending != []
    ensures var id := Run(events).pending[0]; var w := Run(events + [Assign(worker)]);
      && id in w.tasks && w.tasks[id].worker == Some(worker) && w.handed == Run(events).handed + [(id, worker)]
      && w.tasks[id].jobId in w.jobs && w.tasks[id].sql == w.jobs[w.tasks[id].jobId].sql
  {
    hide Linked, StageStatuses, JobStatuses, Queued, HandedOut, FirstSuccesses, Fresh, Reported, AssignStep;
    var more := events + [Assign(worker)];
    assert more[..|events|] == events;
    ReachableInv(events);
    AssignNormal(Run(events), worker);
    TaskRunsItsJob(more);
  }

  /** A job recorded without planning keeps its name and statement, and gets no stage. */
  lemma SkippedJob(events: seq<Event>, n: nat, name: string, sql: string, parallelism: nat) returns (jid: Id)
    requires n < |events| && events[n] == Skip(name, sql, parallelism)
    ensures jid !in Run(events[..n]).jobs && jid in Run(events).jobs
    ensures var job := Run(events).jobs[jid];
      && job.name == name && job.sql == sql && job.stages == []
      && job.parallelism == (if parallelism == 0 then 1 else parallelism)
  {
    hide Inv;
    var before := Run(events[..n]);
    jid := before.next;
    ReachableInv(events[..n]);
    FreshIsNew(before);
    assert events[..n + 1][..n] == events[..n];
    assert Run(events[..n + 1]) == SkipStep(before, name, sql, parallelism);
    RunGrows(events, n + 1);
    assert SameJob(Run(events[..n + 1]).jobs[jid], Run(events).jobs[jid]);
  }

  // ----- what a task records -----

  /** What a task holds in each status: no worker before it is handed out, no outcome before it is reported. */
  ghost predicate Records(t: Task) {
    match t.status
    case Pending => t.worker == None && t.resultRows == None && t.error == None
    case Assigned => t.worker.Some? && t.resultRows == None && t.error == None
    case Running => false
    case Succeeded => t.resultRows.Some?
    case Failed(message) => t.resultRows.Some? && message == (if t.error.Some? then t.error.value else "")
  }

  ghost predicate AllRecord(w: World) {
    forall id :: id in w.tasks ==> Records(w.tasks[id])
  }

  /** A report writes its rows, status and error into the task it names, and nothing into any other task, stage or
      job. */
  lemma ReportTouchesItsTask(events: seq<Event>, id: Id, rows: nat, ok: bool, error: Option<string>, pick: Id)
    requires id in Run(events).tasks
    ensures var w := Run(events); var w' := Run(events + [Complete(id, rows, ok, error, pick)]); var t := w.tasks[id];
      && w'.tasks.Keys == w.tasks.Keys && w'.stages.Keys == w.stages.Keys && w'.jobs.Keys == w.jobs.Keys
      && w'.tasks[id].resultRows == Some(rows)
      && (ok ==> w'.tasks[id].status == Succeeded && w'.tasks[id].error == t.error)
      && (!ok ==> w'.tasks[id].status.Failed? && w'.tasks[id].error == error)
      && (!ok && error.Some? ==> w'.tasks[id].status.message == error.value)
      && w'.tasks[id].worker == t.worker
      && (forall other :: other in w.tasks && other != id ==> w'.tasks[other] == w.tasks[other])
      && (forall sid :: sid in w.stages && sid != t.stageId ==> w'.stages[sid] == w.stages[sid])
      && (forall jid :: jid in w.jobs && jid != t.jobId ==> w'.jobs[jid] == w.jobs[jid])
  {
    hide Linked, StageStatuses, JobStatuses, Queued, HandedOut, FirstSuccesses, Fresh, Reported, CompleteStep,
        FoldedStatus, CompleteInJob, Without;
    var e := Complete(id, rows, ok, error, pick);
    assert (events + [e])[..|events|] == events;
    ReachableInv(events);
    CompleteNormal(Run(events), id, rows, ok, error, pick);
  }

  /** The job is failed with the message of one of its failed tasks. */
  ghost predicate FailedAs(tasks: map<Id, Task>, job: Job) {
    exists f :: f in tasks && tasks[f].jobId == job.id && tasks[f].status.Failed?
                && job.status == JobFailed(tasks[f].status.message)
  }

  /** After a report, a job with a failed task is failed, with the message of one of its failed tasks. */
  lemma FailureNamesATask(events: seq<Event>, id: Id, rows: nat, ok: bool, error: Option<string>, pick: Id)
    requires id in Run(events).tasks
    ensures var w, jid := Run(events + [Complete(id, rows, ok, error, pick)]), Run(events).tasks[id].jobId;
      jid in w.jobs && (AnyIdFailed(w.tasks, JobIds(w.tasks, jid)) ==> FailedAs(w.tasks, w.jobs[jid]))
  {
    hide Linked, StageStatuses, JobStatuses, Queued, HandedOut, FirstSuccesses, Fresh, Reported, CompleteStep,
        FoldedStatus, CompleteInJob, Without;
    var w, e := Run(events), Complete(id, rows, ok, error, pick);
    assert (events + [e])[..|events|] == events;
    ReachableInv(events);
    CompleteNormal(w, id, rows, ok, error, pick);
    var tasks := w.tasks[id := CompletedTask(w.tasks[id], rows, ok, error)];
    JobKeepsItsId(tasks, w.jobs[w.tasks[id].jobId], pick);
    FailedJobIs(tasks, w.jobs[w.tasks[id].jobId], pick);
  }

  lemma FailedJobIs(tasks: map<Id, Task>, job: Job, pick: Id)
    ensures AnyIdFailed(tasks, JobIds(tasks, job.id)) ==> FailedAs(tasks, CompleteInJob(tasks, job, pick))
  {
    hide SumRows;
    var ids := JobIds(tasks, job.id);
    if AnyIdFailed(tasks, ids) {
      var f :| FailedIn(tasks, ids, f) && ChosenMessage(tasks, ids, pick) == tasks[f].status.message;
      assert !AllIdsSucceeded(tasks, ids);
    }
  }

  /** In every reachable state a stage's reason for failing is the fixed one. */
  lemma StageFailureReason(events: seq<Event>, sid: Id)
    requires sid in Run(events).stages && Run(events).stages[sid].status.StageFailed?
    ensures Run(events).stages[sid].status.reason == "one or more tasks failed"
  {
    hide Linked, JobStatuses, Queued, HandedOut, FirstSuccesses, Fresh, Reported, Run;
    ReachableInv(events);
  }

  /** Handing out a task changes no other task and no job. */
  lemma AssignTouchesItsTask(events: seq<Event>, worker: string)
    requires Run(events).pending != []
    ensures var w := Run(events); var w' := Run(events + [Assign(worker)]); var id := w.pending[0];
      && id in w.tasks && w'.tasks.Keys == w.tasks.Keys && w'.jobs == w.jobs && w'.pending == w.pending[1..]
      && w'.tasks[id].status == Assigned && w'.tasks[id].worker == Some(worker)
      && (forall other :: other in w.tasks && other != id ==> w'.tasks[other] == w.tasks[other])
  {
    hide Linked, StageStatuses, JobStatuses, Queued, HandedOut, FirstSuccesses, Fresh, Reported, AssignStep;
    assert (events + [Assign(worker)])[..|events|] == events;
    ReachableInv(events);
    AssignNormal(Run(events), worker);
  }

  lemma ApplyRecords(w: World, e: Event)
    requires Inv(w) && AllRecord(w)
    ensures AllRecord(Apply(w, e))
  {
    hide Linked, StageStatuses, JobStatuses, Queued, HandedOut, FirstSuccesses, Reported, AssignStep, CompleteStep,
        FoldedStatus, CompleteInJob, InsertAll, Partitioner.PlannedLabels, IdsOf, Without;
    match e
    case Submit(_, _, _, Err(_)) =>
    case Submit(name, sql, parallelism, Ok(plan)) =>
      NewTaskMap(w, Partitioner.PlannedLabels(plan, parallelism), sql);
      NewTasksRecord(w, name, sql, parallelism, plan);
    case Skip(_, _, _) =>
    case Assign(worker) =>
      if w.pending == [] {
        AssignNothing(w, worker);
      } else {
        AssignNormal(w, worker);
      }
    case Complete(id, rows, ok, error, pick) =>
      if id in w.tasks {
        CompleteNormal(w, id, rows, ok, error, pick);
      } else {
        CompleteUnknown(w, id, rows, ok, error, pick);
      }
  }

  lemma NewTasksRecord(w: World, name: string, sql: string, parallelism: nat, plan: Plans.Plan)
    requires Fresh(w) && AllRecord(w)
    ensures AllRecord(SubmitStep(w, name, sql, parallelism, plan))
  {
    hide InsertAll, Partitioner.PlannedLabels, IdsOf;
    NewTaskMap(w, Partitioner.PlannedLabels(plan, parallelism), sql);
    var w' := SubmitStep(w, name, sql, parallelism, plan);
    var ts := w'.stages[w.next + 1].tasks;
    forall id | id in w'.tasks
      ensures Records(w'.tasks[id])
    {
      assert id !in w.tasks ==> w'.tasks[id] == ts[id - (w.next + 2)];
    }
  }

  /** In every reachable state each task holds what its status says. */
  lemma {:induction false} TasksRecord(events: seq<Event>)
    ensures AllRecord(Run(events))
  {
    hide AllRecord, Inv;
    if events == [] {
      NothingRecorded();
    } else {
      TasksRecord(events[..|events| - 1]);
      ReachableInv(events[..|events| - 1]);
      ApplyRecords(Run(events[..|events| - 1]), events[|events| - 1]);
    }
  }

  lemma NothingRecorded()
    ensures AllRecord(Initial)
  {
  }
}
