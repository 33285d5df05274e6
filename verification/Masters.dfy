/** The shared cluster state and the master that updates it in place
    (crates/rspark-cluster/src/state.rs, crates/rspark-cluster/src/master.rs). */
module Masters {
  import opened Results
  import opened Cluster
  import opened ClusterLemmas
  import opened ClusterSteps
  import Plans
  import Partitioner

  class ClusterState {
    var jobs: map<Id, Job>
    var stages: map<Id, Stage>
    var tasks: map<Id, Task>
    var pending: seq<Id>
    var totalRuns: nat
    var next: Id
    ghost var submitted: seq<Id>
    ghost var handed: seq<(Id, string)>
    ghost var reports: seq<Report>

    ghost function View(): World
      reads this
    {
      World(jobs, stages, tasks, pending, totalRuns, next, submitted, handed, reports)
    }

    constructor ()
      ensures View() == Initial && Inv(View())
    {
      jobs, stages, tasks, pending, totalRuns, next := map[], map[], map[], [], 0, 0;
      submitted, handed, reports := [], [], [];
    }

    method FreshId() returns (id: Id)
      modifies this`next
      ensures id == old(next) && next == id + 1
    {
      id := next;
      next := next + 1;
    }

    method InsertTask(t: Task)
      modifies this`tasks, this`pending, this`submitted
      ensures tasks == old(tasks)[t.id := t]
      ensures pending == old(pending) + [t.id] && submitted == old(submitted) + [t.id]
    {
      tasks := tasks[t.id := t];
      pending := pending + [t.id];
      submitted := submitted + [t.id];
    }

    method PutStage(stage: Stage)
      modifies this`stages
      ensures stages == old(stages)[stage.id := stage]
    {
      stages := stages[stage.id := stage];
    }

    method PutJob(job: Job)
      modifies this`jobs
      ensures jobs == old(jobs)[job.id := job]
    {
      jobs := jobs[job.id := job];
    }

    /** Drops an id from the queue. */
    method RetainOthers(id: Id)
      modifies this`pending
      ensures pending == Without(old(pending), id)
    {
      var queue, kept := pending, [];
      for k := 0 to |queue|
        invariant kept == Without(queue[..k], id)
      {
        assert queue[..k + 1] == queue[..k] + [queue[k]];
        WithoutSnoc(queue[..k], queue[k], id);
        if queue[k] != id {
          kept := kept + [queue[k]];
        }
      }
      assert queue[..|queue|] == queue;
      pending := kept;
    }

    method UpdateTask(t: Task)
      modifies this`tasks, this`pending, this`totalRuns
      ensures View() == Cluster.UpdateTask(old(View()), t)
    {
      var wasTerminal := t.id in tasks && tasks[t.id].status.Terminal();
      tasks := tasks[t.id := t];
      if !wasTerminal && t.status.Terminal() {
        RetainOthers(t.id);
        if t.status.Succeeded? {
          totalRuns := totalRuns + 1;
        }
      }
    }

    method PopPending() returns (popped: Option<Task>)
      modifies this`pending
      ensures old(pending) == [] ==> popped == None && pending == []
      ensures old(pending) != [] ==>
        && pending == old(pending)[1..]
        && popped == if old(pending)[0] in tasks then Some(tasks[old(pending)[0]]) else None
    {
      if pending == [] {
        return None;
      }
      var id := pending[0];
      pending := pending[1..];
      popped := if id in tasks then Some(tasks[id]) else None;
    }

    /** The tasks filed under a job, in an arbitrary order (the map has none). */
    method TasksForJob(jobId: Id) returns (ts: seq<Task>)
      requires forall id :: id in tasks ==> tasks[id].id == id
      ensures IdsDistinct(ts) && IdSet(ts) == JobIds(tasks, jobId)
      ensures Listed(tasks, ts)
    {
      hide IdsDistinct, Listed, IdSet;
      NothingListed(tasks);
      ts := [];
      var todo := tasks.Keys;
      while todo != {}
        invariant todo <= tasks.Keys
        invariant IdsDistinct(ts) && Listed(tasks, ts)
        invariant IdSet(ts) == JobIds(tasks, jobId) - todo
        decreases |todo|
      {
        var id :| id in todo;
        todo := todo - {id};
        if tasks[id].jobId == jobId {
          ListOneMore(tasks, ts, id);
          ts := ts + [tasks[id]];
        }
      }
    }
  }

  /** Every listed task is the map's entry under its id. */
  ghost predicate Listed(tasks: map<Id, Task>, ts: seq<Task>) {
    forall k :: 0 <= k < |ts| ==> ts[k].id in tasks && tasks[ts[k].id] == ts[k]
  }

  lemma NothingListed(tasks: map<Id, Task>)
    ensures IdsDistinct([]) && Listed(tasks, []) && IdSet([]) == {}
  {
  }

  lemma ListOneMore(tasks: map<Id, Task>, ts: seq<Task>, id: Id)
    requires IdsDistinct(ts) && Listed(tasks, ts) && id in tasks && tasks[id].id == id && id !in IdSet(ts)
    ensures IdsDistinct(ts + [tasks[id]]) && Listed(tasks, ts + [tasks[id]])
    ensures IdSet(ts + [tasks[id]]) == IdSet(ts) + {id}
  {
    forall k | 0 <= k < |ts|
      ensures ts[k].id != id
    {
      assert ts[k].id in IdSet(ts);
    }
    IdSetSnoc(ts, tasks[id]);
  }

  lemma IdSetSnoc(ts: seq<Task>, t: Task)
    ensures IdSet(ts + [t]) == IdSet(ts) + {t.id}
  {
    var after := ts + [t];
    assert after[|ts|] == t && forall k :: 0 <= k < |ts| ==> after[k] == ts[k];
    forall id | id in IdSet(ts)
      ensures id in IdSet(after)
    {
      var k :| 0 <= k < |ts| && ts[k].id == id;
      assert after[k].id == id;
    }
  }

  // ----- loops over task lists -----

  method FindSlot(ts: seq<Task>, id: Id) returns (k: nat)
    ensures k == Slot(ts, id)
  {
    k := 0;
    while k < |ts| && ts[k].id != id
      invariant k <= |ts| && forall m :: 0 <= m < k ==> ts[m].id != id
    {
      k := k + 1;
    }
    var s := Slot(ts, id);
    assert !(s < k) && !(k < s);
  }

  ghost function TerminalPositions(ts: seq<Task>): set<nat> {
    set k: nat | k < |ts| && ts[k].status.Terminal()
  }

  lemma TerminalPositionsStep(ts: seq<Task>, i: nat)
    requires i < |ts|
    ensures i !in TerminalPositions(ts[..i])
    ensures TerminalPositions(ts[..i + 1])
         == TerminalPositions(ts[..i]) + if ts[i].status.Terminal() then {i} else {}
  {
  }

  /** `Stage::progress`: the number of tasks that are finished, out of how many. */
  method Progress(stage: Stage) returns (done: nat, total: nat)
    ensures total == |stage.tasks|
    ensures done == |TerminalPositions(stage.tasks)|
  {
    done, total := 0, |stage.tasks|;
    for i := 0 to total
      invariant done == |TerminalPositions(stage.tasks[..i])|
    {
      TerminalPositionsStep(stage.tasks, i);
      if stage.tasks[i].status.Terminal() {
        done := done + 1;
      }
    }
    assert stage.tasks[..total] == stage.tasks;
  }

  method SumResultRows(ts: seq<Task>) returns (total: nat)
    ensures total == TotalRows(ts)
  {
    total := 0;
    for k := 0 to |ts|
      invariant total == TotalRows(ts[..k])
    {
      assert ts[..k + 1][..k] == ts[..k];
      match ts[k].resultRows {
        case Some(rows) => total := total + rows;
        case None =>
      }
    }
    assert ts[..|ts|] == ts;
  }

  /** The first failed task of the list, or its length. */
  method FirstFailed(ts: seq<Task>) returns (k: nat)
    ensures k <= |ts| && (k < |ts| <==> AnyFailed(ts))
    ensures k < |ts| ==> ts[k].status.Failed?
  {
    k := 0;
    while k < |ts| && !ts[k].status.Failed?
      invariant k <= |ts| && forall m :: 0 <= m < k ==> !ts[m].status.Failed?
    {
      k := k + 1;
    }
  }

  /** Folding the job status over the listed tasks is folding it over the task map. */
  lemma FoldOverList(tasks: map<Id, Task>, jobId: Id, ts: seq<Task>)
    requires IdsDistinct(ts) && IdSet(ts) == JobIds(tasks, jobId)
    requires Listed(tasks, ts)
    ensures var ids := JobIds(tasks, jobId);
            && (ids != {} <==> ts != [])
            && (AllIdsSucceeded(tasks, ids) <==> AllSucceeded(ts))
            && (AnyIdFailed(tasks, ids) <==> AnyFailed(ts))
            && SumRows(tasks, ids) == TotalRows(ts)
            && forall k :: 0 <= k < |ts| && ts[k].status.Failed? ==>
                 FailedIn(tasks, ids, ts[k].id) && ChosenMessage(tasks, ids, ts[k].id) == ts[k].status.message
  {
    SumIsTotal(tasks, ts);
    var ids := JobIds(tasks, jobId);
    assert forall k :: 0 <= k < |ts| ==> ts[k].id in IdSet(ts);
    forall k | 0 <= k < |ts| && ts[k].status.Failed?
      ensures FailedIn(tasks, ids, ts[k].id) && ChosenMessage(tasks, ids, ts[k].id) == ts[k].status.message
    {
      assert FailedIn(tasks, ids, ts[k].id);
    }
  }

  /** Folds a job's status from its listed tasks; `pick` is the failed task found first. */
  method FoldJob(job: Job, ts: seq<Task>, ghost tasks: map<Id, Task>) returns (after: Job, ghost pick: Id)
    requires IdsDistinct(ts) && IdSet(ts) == JobIds(tasks, job.id)
    requires Listed(tasks, ts)
    ensures after == CompleteInJob(tasks, job, pick)
  {
    hide SumRows, ChosenMessage, AllIdsSucceeded, AnyIdFailed, JobIds, IdSet, AnyFailed;
    FoldOverList(tasks, job.id, ts);
    after, pick := job, 0;
    var allSucceeded := ts != [] && forall k :: 0 <= k < |ts| ==> ts[k].status.Succeeded?;
    var failed := FirstFailed(ts);
    if allSucceeded {
      var rows := SumResultRows(ts);
      after := job.(status := JobSucceeded, resultRows := Some(rows));
    } else if failed < |ts| {
      pick := ts[failed].id;
      after := job.(status := JobFailed(ts[failed].status.message));
    }
  }

  class Master {
    const state: ClusterState

    constructor (state: ClusterState)
      ensures this.state == state
    {
      this.state := state;
    }

    /** Plans a statement into one stage of partition tasks and queues them; a statement that does
        not plan leaves the state alone. */
    method SubmitJob(name: string, sql: string, parallelism: nat, plan: Result<Plans.Plan>) returns (r: Result<Job>)
      requires Inv(state.View())
      modifies state
      ensures Inv(state.View())
      ensures plan.Err? ==> r == Err(plan.error) && state.View() == old(state.View())
      ensures plan.Ok? ==>
        && state.View() == SubmitStep(old(state.View()), name, sql, parallelism, plan.value)
        && r.Ok? && r.value.id !in old(state.jobs) && r.value.id in state.jobs && r.value == state.jobs[r.value.id]
    {
      if plan.Err? {
        return Err(plan.error);
      }
      hide Inv, SubmitStep, Partitioner.PlannedLabels;
      SubmitKeepsInv(state.View(), name, sql, parallelism, plan.value);
      NotYetKnown(state.View());
      var partitions := Partitioner.PlanPartitions(plan.value, parallelism);
      var job := RecordStage(name, sql, parallelism, partitions, plan.value);
      r := Ok(job);
    }

    /** Creates the job, its stage and its tasks, and files and queues them. */
    method RecordStage(name: string, sql: string, parallelism: nat, partitions: seq<Partitioner.PartitionSpec>,
                       ghost plan: Plans.Plan)
      returns (recorded: Job)
      requires Partitioner.Holds(partitions, Partitioner.PlannedLabels(plan, parallelism))
      modifies state
      ensures state.View() == SubmitStep(old(state.View()), name, sql, parallelism, plan)
      ensures recorded.id == old(state.next) && recorded.id in state.jobs && recorded == state.jobs[recorded.id]
    {
      hide InsertAll, NewTasks, Partitioner.PlannedLabels, Partitioner.Holds, IdsOf;
      ghost var was := state.View();
      var jid := state.FreshId();
      var sid := state.FreshId();
      var ts := BuildTasks(partitions, jid, sid, sql, Partitioner.PlannedLabels(plan, parallelism));
      state.PutStage(Stage(sid, jid, 0, "main", StagePending, ts));
      QueueTasks(ts);
      var job := Job(jid, name, sql, JobPending, [sid], None, AtLeastOne(parallelism));
      state.PutJob(job);
      state.PutJob(job.(status := JobRunning));
      recorded := state.jobs[jid];
      assert state.jobs == was.jobs[jid := job.(status := JobRunning)];
    }

    /** One task per partition, each under a fresh id. */
    method BuildTasks(partitions: seq<Partitioner.PartitionSpec>, jid: Id, sid: Id, sql: string,
                      ghost labels: seq<string>)
      returns (ts: seq<Task>)
      requires Partitioner.Holds(partitions, labels)
      modifies state`next
      ensures ts == NewTasks(old(state.next), jid, sid, labels, sql)
      ensures state.next == old(state.next) + |ts|
    {
      ts := [];
      ghost var all := NewTasks(state.next, jid, sid, labels, sql);
      for k := 0 to |partitions|
        invariant state.next == old(state.next) + k
        invariant ts == all[..k]
      {
        var id := state.FreshId();
        ts := ts + [Task(id, sid, jid, partitions[k].labelText, sql, Pending, None, None, None)];
      }
    }

    /** Files and queues the tasks of a new stage. */
    method QueueTasks(ts: seq<Task>)
      modifies state`tasks, state`pending, state`submitted
      ensures state.tasks == InsertAll(old(state.tasks), ts)
      ensures state.pending == old(state.pending) + IdsOf(ts)
      ensures state.submitted == old(state.submitted) + IdsOf(ts)
    {
      for k := 0 to |ts|
        invariant state.tasks == InsertAll(old(state.tasks), ts[..k])
        invariant state.pending == old(state.pending) + IdsOf(ts[..k])
        invariant state.submitted == old(state.submitted) + IdsOf(ts[..k])
      {
        state.InsertTask(ts[k]);
        assert ts[..k + 1][..k] == ts[..k];
        assert IdsOf(ts[..k + 1]) == IdsOf(ts[..k]) + [ts[k].id];
      }
      assert ts[..|ts|] == ts;
    }

    /** Records a job without stages. */
    method SubmitJobSkipPlan(name: string, sql: string, parallelism: nat) returns (job: Job)
      requires Inv(state.View())
      modifies state
      ensures Inv(state.View())
      ensures state.View() == SkipStep(old(state.View()), name, sql, parallelism)
      ensures job.id !in old(state.jobs) && job.id in state.jobs && job == state.jobs[job.id]
    {
      SkipKeepsInv(state.View(), name, sql, parallelism);
      NotYetKnown(state.View());
      hide Inv;
      var id := state.FreshId();
      job := Job(id, name, sql, JobRunning, [], None, AtLeastOne(parallelism));
      state.PutJob(job);
    }

    /** Hands the oldest queued task to the worker; `None` exactly when nothing is queued. */
    method TryAssignTask(worker: string) returns (r: Option<Task>)
      requires Inv(state.View())
      modifies state
      ensures Inv(state.View())
      ensures state.View() == AssignStep(old(state.View()), worker)
      ensures r == None <==> old(state.pending) == []
      ensures r.Some? ==>
        && r.value.id == old(state.pending)[0] && r.value.id in state.tasks && r.value == state.tasks[r.value.id]
        && r.value.status == Assigned && r.value.worker == Some(worker)
        && state.handed == old(state.handed) + [(r.value.id, worker)]
    {
      hide Inv, Cluster.AssignInStage;
      ghost var was := state.View();
      AssignKeepsInv(was, worker);
      if state.pending != [] {
        HeadIsKnown(was);
      }
      var popped := state.PopPending();
      if popped == None {
        return None;
      }
      var t := popped.value.(worker := Some(worker), status := Assigned);
      state.UpdateTask(t);
      state.handed := state.handed + [(t.id, worker)];
      if t.stageId in state.stages {
        MarkInStage(t);
      }
      r := Some(t);
    }

    /** Copies worker and status into the stage's own record of the task. */
    method MarkInStage(t: Task)
      requires t.stageId in state.stages
      modifies state`stages
      ensures var stage := AssignInStage(old(state.stages)[t.stageId], t);
              state.stages == old(state.stages)[stage.id := stage]
    {
      var stage := state.stages[t.stageId];
      var k := FindSlot(stage.tasks, t.id);
      if k < |stage.tasks| {
        stage := stage.(tasks := stage.tasks[k := stage.tasks[k].(worker := t.worker, status := t.status)]);
      }
      state.PutStage(stage);
    }

    /** Copies an outcome into the task's stage and folds the stage status. */
    method FoldStage(t: Task)
      requires t.stageId in state.stages
      modifies state`stages
      ensures var stage := CompleteInStage(old(state.stages)[t.stageId], t);
              state.stages == old(state.stages)[stage.id := stage]
    {
      var stage := state.stages[t.stageId];
      var k := FindSlot(stage.tasks, t.id);
      if k < |stage.tasks| {
        var slot := stage.tasks[k].(status := t.status, resultRows := t.resultRows, error := t.error);
        stage := stage.(tasks := stage.tasks[k := slot]);
      }
      var failed := FirstFailed(stage.tasks);
      var complete := stage.tasks != [] && forall i :: 0 <= i < |stage.tasks| ==> stage.tasks[i].status.Succeeded?;
      stage := stage.(status :=
        if complete then StageSucceeded
        else if failed < |stage.tasks| then StageFailed("one or more tasks failed")
        else StageRunning);
      state.PutStage(stage);
    }

    /** Records a report for a task, then folds its stage and its job; a report about an unknown task
        is refused and changes nothing. `pick` is the failed task whose message the job gets. */
    method CompleteTask(id: Id, rows: nat, success: bool, error: Option<string>) returns (r: Result<()>, ghost pick: Id)
      requires Inv(state.View())
      modifies state
      ensures Inv(state.View())
      ensures state.View() == CompleteStep(old(state.View()), id, rows, success, error, pick)
      ensures r.Ok? <==> id in old(state.tasks)
      ensures r.Ok? ==> state.reports == old(state.reports) + [Report(id, success)]
      ensures r.Err? ==> r.error.NotFound? && state.View() == old(state.View())
    {
      hide Inv, CompleteInStage, CompleteInJob, Cluster.UpdateTask, JobIds;
      pick := 0;
      ghost var was := state.View();
      if id !in state.tasks {
        return Err(NotFound("task")), 0;
      }
      var t := state.tasks[id];
      t := t.(resultRows := Some(rows),
              status := if success then Succeeded else Failed(if error.Some? then error.value else ""),
              error := if success then t.error else error);
      CompleteLinks(was, id, t);
      UpdateFrame(was, t);
      state.UpdateTask(t);
      state.reports := state.reports + [Report(id, success)];
      if t.stageId in state.stages {
        FoldStage(t);
      }
      var listed := state.TasksForJob(t.jobId);
      var job := state.jobs[t.jobId];
      job, pick := FoldJob(job, listed, state.tasks);
      state.PutJob(job);
      CompleteKeepsInv(was, id, rows, success, error, pick);
      r := Ok(());
    }
  }

  lemma NotYetKnown(w: World)
    requires Inv(w)
    ensures w.next !in w.jobs
  {
    hide Linked, StageStatuses, JobStatuses, Queued, HandedOut, FirstSuccesses, Reported;
  }

  lemma HeadIsKnown(w: World)
    requires Inv(w) && w.pending != []
    ensures w.pending[0] in w.tasks && w.tasks[w.pending[0]].id == w.pending[0]
  {
    hide StageStatuses, JobStatuses, HandedOut, FirstSuccesses, Reported, Fresh, Linked;
    StillPendingMeans(w.submitted, w.tasks);
    assert w.pending[0] in w.pending;
    SlotAgrees(w.jobs, w.stages, w.tasks, w.pending[0]);
  }

  lemma UpdateFrame(w: World, t: Task)
    ensures var w' := Cluster.UpdateTask(w, t);
            && w'.tasks == w.tasks[t.id := t] && w'.jobs == w.jobs && w'.stages == w.stages
            && w'.reports == w.reports && w'.handed == w.handed && w'.submitted == w.submitted
  {
  }

  /** What `complete_task` relies on: the job exists, and entries are filed under their own id. */
  lemma CompleteLinks(w: World, id: Id, t: Task)
    requires Inv(w) && id in w.tasks && t.id == w.tasks[id].id && t.jobId == w.tasks[id].jobId
    ensures t.id == id && t.jobId in w.jobs && w.jobs[t.jobId].id == t.jobId
    ensures forall x :: x in w.tasks ==> w.tasks[x].id == x
  {
    hide StageStatuses, JobStatuses, Queued, HandedOut, FirstSuccesses, Reported;
    SlotAgrees(w.jobs, w.stages, w.tasks, id);
    JobHasItsId(w, w.tasks[id].jobId);
    forall x | x in w.tasks
      ensures w.tasks[x].id == x
    {
      assert TaskLinked(w.stages, w.tasks, x);
    }
  }
}
