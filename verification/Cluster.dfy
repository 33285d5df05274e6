/** The scheduling protocol as steps on one value: the records of crates/rspark-cluster/src/task.rs,
    stage.rs, job.rs and state.rs, and the four steps of crates/rspark-cluster/src/master.rs.
    Ids are numbers drawn from a counter; timestamps are not modelled. */
module Cluster {
  import opened Subsequences
  import opened Results
  import Plans
  import Partitioner

  type Id = nat

  datatype TaskStatus = Pending | Assigned | Running | Succeeded | Failed(message: string)
  {
    predicate Terminal() { Succeeded? || Failed? }
  }

  datatype Task = Task(
    id: Id, stageId: Id, jobId: Id, labelText: string, sql: string,
    status: TaskStatus, worker: Option<string>, resultRows: Option<nat>, error: Option<string>)

  datatype StageStatus = StagePending | StageRunning | StageSucceeded | StageFailed(reason: string)

  datatype Stage = Stage(id: Id, jobId: Id, index: nat, labelText: string, status: StageStatus, tasks: seq<Task>)

  datatype JobStatus = JobPending | JobRunning | JobSucceeded | JobFailed(reason: string) | JobCancelled

  datatype Job = Job(
    id: Id, name: string, sql: string, status: JobStatus, stages: seq<Id>, resultRows: Option<nat>, parallelism: nat)

  /** An accepted completion report. */
  datatype Report = Report(id: Id, ok: bool)

  /** The shared state, the next fresh id, and logs of what was submitted, handed out and reported. */
  datatype World = World(
    jobs: map<Id, Job>, stages: map<Id, Stage>, tasks: map<Id, Task>,
    pending: seq<Id>, totalRuns: nat, next: Id,
    submitted: seq<Id>, handed: seq<(Id, string)>, reports: seq<Report>)

  const Initial := World(map[], map[], map[], [], 0, 0, [], [], [])

  // ----- small functions on task lists and queues -----

  function IdsOf(ts: seq<Task>): (ids: seq<Id>)
    ensures |ids| == |ts|
  {
    seq(|ts|, k requires 0 <= k < |ts| => ts[k].id)
  }

  /** The position of the first task with this id, or the length of the list. */
  function Slot(ts: seq<Task>, id: Id): (k: nat)
    ensures k <= |ts|
    ensures k < |ts| ==> ts[k].id == id
    ensures forall m :: 0 <= m < k ==> ts[m].id != id
  {
    if ts == [] || ts[0].id == id then 0 else 1 + Slot(ts[1..], id)
  }

  function Without(ids: seq<Id>, id: Id): seq<Id> {
    if ids == [] then []
    else
      var n := |ids| - 1;
      Without(ids[..n], id) + if ids[n] == id then [] else [ids[n]]
  }

  predicate AllSucceeded(ts: seq<Task>) {
    forall k :: 0 <= k < |ts| ==> ts[k].status.Succeeded?
  }

  predicate AnyFailed(ts: seq<Task>) {
    exists k :: 0 <= k < |ts| && ts[k].status.Failed?
  }

  predicate AnyTerminal(ts: seq<Task>) {
    exists k :: 0 <= k < |ts| && ts[k].status.Terminal()
  }

  const StageFailure := StageFailed("one or more tasks failed")

  /** What `complete_task` writes into the stage. */
  function FoldedStatus(ts: seq<Task>): StageStatus {
    if ts != [] && AllSucceeded(ts) then StageSucceeded
    else if AnyFailed(ts) then StageFailure
    else StageRunning
  }

  function TotalRows(ts: seq<Task>): nat {
    if ts == [] then 0
    else
      var n := |ts| - 1;
      TotalRows(ts[..n]) + match ts[n].resultRows case Some(rows) => rows case None => 0
  }

  // ----- tasks of a job, read from the task map -----

  ghost function JobIds(tasks: map<Id, Task>, jobId: Id): set<Id> {
    set id | id in tasks && tasks[id].jobId == jobId
  }

  ghost predicate AllIdsSucceeded(tasks: map<Id, Task>, ids: set<Id>) {
    forall id :: id in ids ==> id in tasks && tasks[id].status.Succeeded?
  }

  predicate FailedIn(tasks: map<Id, Task>, ids: set<Id>, id: Id) {
    id in ids && id in tasks && tasks[id].status.Failed?
  }

  ghost predicate AnyIdFailed(tasks: map<Id, Task>, ids: set<Id>) {
    exists id :: FailedIn(tasks, ids, id)
  }

  function RowsOf(tasks: map<Id, Task>, id: Id): nat {
    if id in tasks && tasks[id].resultRows.Some? then tasks[id].resultRows.value else 0
  }

  ghost function SumRows(tasks: map<Id, Task>, ids: set<Id>): nat {
    if ids == {} then 0
    else
      var id :| id in ids;
      RowsOf(tasks, id) + SumRows(tasks, ids - {id})
  }

  /** The map's iteration order decides whose message is reported; `pick` stands for that choice. */
  ghost function ChosenMessage(tasks: map<Id, Task>, ids: set<Id>, pick: Id): string
    requires AnyIdFailed(tasks, ids)
  {
    var id :| FailedIn(tasks, ids, id) && (FailedIn(tasks, ids, pick) ==> id == pick);
    tasks[id].status.message
  }

  // ----- the steps -----

  function NewTasks(first: Id, jobId: Id, stageId: Id, labels: seq<string>, sql: string): (ts: seq<Task>)
    ensures |ts| == |labels|
  {
    seq(|labels|, k requires 0 <= k < |labels| =>
      Task(first + k, stageId, jobId, labels[k], sql, Pending, None, None, None))
  }

  function InsertAll(tasks: map<Id, Task>, ts: seq<Task>): map<Id, Task> {
    if ts == [] then tasks
    else
      var n := |ts| - 1;
      InsertAll(tasks, ts[..n])[ts[n].id := ts[n]]
  }

  function AtLeastOne(n: nat): nat {
    if n == 0 then 1 else n
  }

  /** `submit_job` once the statement is planned. */
  function SubmitStep(w: World, name: string, sql: string, parallelism: nat, plan: Plans.Plan): World {
    var jid, sid, first := w.next, w.next + 1, w.next + 2;
    var ts := NewTasks(first, jid, sid, Partitioner.PlannedLabels(plan, parallelism), sql);
    w.(jobs := w.jobs[jid := Job(jid, name, sql, JobRunning, [sid], None, AtLeastOne(parallelism))],
       stages := w.stages[sid := Stage(sid, jid, 0, "main", StagePending, ts)],
       tasks := InsertAll(w.tasks, ts),
       pending := w.pending + IdsOf(ts),
       submitted := w.submitted + IdsOf(ts),
       next := first + |ts|)
  }

  /** `submit_job_skip_plan`: a job without stages or tasks. */
  function SkipStep(w: World, name: string, sql: string, parallelism: nat): World {
    w.(jobs := w.jobs[w.next := Job(w.next, name, sql, JobRunning, [], None, AtLeastOne(parallelism))],
        next := w.next + 1)
  }

  /** `ClusterState::update_task` */
  function UpdateTask(w: World, t: Task): World {
    var wasTerminal := t.id in w.tasks && w.tasks[t.id].status.Terminal();
    var w1 := w.(tasks := w.tasks[t.id := t]);
    if !wasTerminal && t.status.Terminal() then
      w1.(pending := Without(w.pending, t.id), totalRuns := w.totalRuns + if t.status.Succeeded? then 1 else 0)
    else w1
  }

  function AssignedTask(t: Task, worker: string): Task {
    t.(worker := Some(worker), status := Assigned)
  }

  /** Copies worker and status into the stage's own record of the task. */
  function AssignInStage(stage: Stage, t: Task): Stage {
    var k := Slot(stage.tasks, t.id);
    if k < |stage.tasks|
    then stage.(tasks := stage.tasks[k := stage.tasks[k].(worker := t.worker, status := t.status)])
    else stage
  }

  /** `try_assign_task` */
  function AssignStep(w: World, worker: string): World {
    if w.pending == [] then w
    else
      var id, popped := w.pending[0], w.(pending := w.pending[1..]);
      if id !in w.tasks then popped
      else
        var t := AssignedTask(w.tasks[id], worker);
        var w1 := UpdateTask(popped, t).(handed := w.handed + [(id, worker)]);
        if t.stageId !in w1.stages then w1
        else
          var stage := AssignInStage(w1.stages[t.stageId], t);
          w1.(stages := w1.stages[stage.id := stage])
  }

  function CompletedTask(t: Task, rows: nat, ok: bool, error: Option<string>): Task {
    var message := if error.Some? then error.value else "";
    t.(resultRows := Some(rows),
       status := if ok then Succeeded else Failed(message),
       error := if ok then t.error else error)
  }

  /** Copies the outcome into the stage's own record of the task and folds the stage status. */
  function CompleteInStage(stage: Stage, t: Task): Stage {
    var k := Slot(stage.tasks, t.id);
    var ts := if k < |stage.tasks|
      then stage.tasks[k := stage.tasks[k].(status := t.status, resultRows := t.resultRows, error := t.error)]
      else stage.tasks;
    stage.(tasks := ts, status := FoldedStatus(ts))
  }

  /** Folds the job status from the task map. */
  ghost function CompleteInJob(tasks: map<Id, Task>, job: Job, pick: Id): Job {
    var ids := JobIds(tasks, job.id);
    if ids != {} && AllIdsSucceeded(tasks, ids)
        then job.(status := JobSucceeded, resultRows := Some(SumRows(tasks, ids)))
    else if AnyIdFailed(tasks, ids) then job.(status := JobFailed(ChosenMessage(tasks, ids, pick)))
    else job
  }

  /** `complete_task`: an unknown id is an error that changes nothing. */
  ghost function CompleteStep(w: World, id: Id, rows: nat, ok: bool, error: Option<string>, pick: Id): World {
    if id !in w.tasks then w
    else
      var t := CompletedTask(w.tasks[id], rows, ok, error);
      var w1 := UpdateTask(w, t).(reports := w.reports + [Report(id, ok)]);
      var w2 := if t.stageId !in w1.stages then w1
        else
          var stage := CompleteInStage(w1.stages[t.stageId], t);
          w1.(stages := w1.stages[stage.id := stage]);
      if t.jobId !in w2.jobs then w2
      else
        var job := CompleteInJob(w2.tasks, w2.jobs[t.jobId], pick);
        w2.(jobs := w2.jobs[job.id := job])
  }

  // ----- the invariant: every copy of a fact agrees -----

  ghost predicate TaskLinked(stages: map<Id, Stage>, tasks: map<Id, Task>, id: Id)
    requires id in tasks
  {
    var t := tasks[id];
    t.id == id && t.stageId in stages && Slot(stages[t.stageId].tasks, id) < |stages[t.stageId].tasks|
  }

  ghost predicate IdsDistinct(ts: seq<Task>) {
    forall j, k :: 0 <= j < k < |ts| ==> ts[j].id != ts[k].id
  }

  /** The stage's copy at position `k` is the task map's entry. */
  ghost predicate CopyAgrees(tasks: map<Id, Task>, stage: Stage, k: nat)
    requires k < |stage.tasks|
  {
    var t := stage.tasks[k];
    t.id in tasks && tasks[t.id] == t && t.stageId == stage.id && t.jobId == stage.jobId
  }

  ghost predicate StageLinked(jobs: map<Id, Job>, stages: map<Id, Stage>, tasks: map<Id, Task>, sid: Id)
    requires sid in stages
  {
    var stage := stages[sid];
    && stage.id == sid && stage.tasks != [] && IdsDistinct(stage.tasks)
    && stage.jobId in jobs && jobs[stage.jobId].stages == [sid]
    && forall k :: 0 <= k < |stage.tasks| ==> CopyAgrees(tasks, stage, k)
  }

  ghost predicate JobLinked(jobs: map<Id, Job>, stages: map<Id, Stage>, jid: Id)
    requires jid in jobs
  {
    var job := jobs[jid];
    job.id == jid &&
    (job.stages == [] || (|job.stages| == 1 && job.stages[0] in stages && stages[job.stages[0]].jobId == jid))
  }

  /** The three maps refer to each other consistently. */
  ghost predicate Linked(jobs: map<Id, Job>, stages: map<Id, Stage>, tasks: map<Id, Task>) {
    && (forall id :: id in tasks ==> TaskLinked(stages, tasks, id))
    && (forall sid :: sid in stages ==> StageLinked(jobs, stages, tasks, sid))
    && (forall jid :: jid in jobs ==> JobLinked(jobs, stages, jid))
  }

  /** The status a stage has, as a function of its tasks alone. */
  function StatusOfTasks(ts: seq<Task>): StageStatus {
    if AnyTerminal(ts) then FoldedStatus(ts) else StagePending
  }

  ghost predicate StageStatuses(stages: map<Id, Stage>) {
    forall sid :: sid in stages ==> stages[sid].status == StatusOfTasks(stages[sid].tasks)
  }

  /** Some task of the list was reported as failed at some time. */
  ghost predicate FailureReported(ts: seq<Task>, reports: seq<Report>) {
    exists k, r :: 0 <= k < |ts| && 0 <= r < |reports| && reports[r] == Report(ts[k].id, false)
  }

  ghost predicate JobStatusIs(job: Job, ts: seq<Task>, reports: seq<Report>) {
    if AllSucceeded(ts) then job.status == JobSucceeded && job.resultRows == Some(TotalRows(ts))
    else if FailureReported(ts, reports) then job.status.JobFailed?
    else job.status == JobRunning
  }

  ghost predicate JobStatuses(jobs: map<Id, Job>, stages: map<Id, Stage>, reports: seq<Report>) {
    forall jid :: jid in jobs ==>
      if jobs[jid].stages == [] then jobs[jid].status == JobRunning
      else jobs[jid].stages[0] in stages ==> JobStatusIs(jobs[jid], stages[jobs[jid].stages[0]].tasks, reports)
  }

  predicate IsPending(tasks: map<Id, Task>, id: Id) {
    id in tasks && tasks[id].status.Pending?
  }

  /** The ids that are still pending, in order. */
  function StillPending(ids: seq<Id>, tasks: map<Id, Task>): seq<Id> {
    if ids == [] then []
    else
      var n := |ids| - 1;
      StillPending(ids[..n], tasks) + if IsPending(tasks, ids[n]) then [ids[n]] else []
  }

  /** The queue holds the pending tasks in submission order. */
  ghost predicate Queued(tasks: map<Id, Task>, pending: seq<Id>, submitted: seq<Id>) {
    && NoDuplicates(submitted)
    && (forall id :: id in submitted <==> id in tasks)
    && pending == StillPending(submitted, tasks)
  }

  function LastReport(reports: seq<Report>, id: Id): Option<bool> {
    if reports == [] then None
    else
      var n := |reports| - 1;
      if reports[n].id == id then Some(reports[n].ok) else LastReport(reports[..n], id)
  }

  function FirstReport(reports: seq<Report>, id: Id): Option<bool> {
    if reports == [] then None
    else
      var n := |reports| - 1;
      var earlier := FirstReport(reports[..n], id);
      if earlier == None && reports[n].id == id then Some(reports[n].ok) else earlier
  }

  /** A task's outcome is its last report. */
  ghost predicate Reported(tasks: map<Id, Task>, reports: seq<Report>) {
    && (forall id :: id in tasks ==>
          && (tasks[id].status.Succeeded? <==> LastReport(reports, id) == Some(true))
          && (tasks[id].status.Failed? <==> LastReport(reports, id) == Some(false)))
    && (forall r :: 0 <= r < |reports| ==> reports[r].id in tasks)
  }

  /** How many reports were the first one of their task, and a success. */
  function FirstSuccesses(reports: seq<Report>): nat {
    if reports == [] then 0
    else
      var n := |reports| - 1;
      FirstSuccesses(reports[..n]) + if reports[n].ok && FirstReport(reports[..n], reports[n].id) == None then 1 else 0
  }

  function AssignedIds(handed: seq<(Id, string)>): (ids: seq<Id>)
    ensures |ids| == |handed|
  {
    seq(|handed|, k requires 0 <= k < |handed| => handed[k].0)
  }

  /** Handed-out tasks are on record with their worker and are no longer pending. */
  ghost predicate HandedOut(tasks: map<Id, Task>, handed: seq<(Id, string)>) {
    && NoDuplicates(AssignedIds(handed))
    && forall k :: 0 <= k < |handed| ==>
      var (id, worker) := handed[k];
      id in tasks && !tasks[id].status.Pending? && tasks[id].worker == Some(worker)
  }

  ghost predicate Fresh(w: World) {
    && (forall id :: id in w.tasks ==> id < w.next)
    && (forall id :: id in w.stages ==> id < w.next)
    && (forall id :: id in w.jobs ==> id < w.next)
  }

  ghost predicate Inv(w: World) {
    && Linked(w.jobs, w.stages, w.tasks)
    && StageStatuses(w.stages)
    && JobStatuses(w.jobs, w.stages, w.reports)
    && Queued(w.tasks, w.pending, w.submitted)
    && Reported(w.tasks, w.reports)
    && w.totalRuns == FirstSuccesses(w.reports)
    && HandedOut(w.tasks, w.handed)
    && Fresh(w)
  }
}
