/** Facts about the queue, the linked maps and the job aggregates of the scheduling protocol. */
module ClusterLemmas {
  import opened Results
  import opened Subsequences
  import opened Cluster

  // ----- queue -----

  lemma WithoutSnoc(ids: seq<Id>, x: Id, id: Id)
    ensures Without(ids + [x], id) == Without(ids, id) + if x == id then [] else [x]
  {
    assert (ids + [x])[..|ids|] == ids;
  }

  lemma {:induction false} WithoutAbsent(ids: seq<Id>, id: Id)
    requires forall k :: 0 <= k < |ids| ==> ids[k] != id
    ensures Without(ids, id) == ids
  {
    if ids != [] {
      var n := |ids| - 1;
      WithoutAbsent(ids[..n], id);
      assert ids == ids[..n] + [ids[n]];
    }
  }

  lemma {:induction false} WithoutHead(ids: seq<Id>)
    requires ids != [] && NoDuplicates(ids)
    ensures Without(ids, ids[0]) == ids[1..]
  {
    var n := |ids| - 1;
    if n > 0 {
      WithoutHead(ids[..n]);
      assert ids[n] != ids[0];
      assert ids[1..] == ids[..n][1..] + [ids[n]];
    }
  }

  lemma {:induction false} StillPendingMeans(ids: seq<Id>, tasks: map<Id, Task>)
    ensures forall x :: x in StillPending(ids, tasks) <==> x in ids && IsPending(tasks, x)
    ensures NoDuplicates(ids) ==> NoDuplicates(StillPending(ids, tasks))
  {
    if ids != [] {
      var n := |ids| - 1;
      StillPendingMeans(ids[..n], tasks);
      assert ids == ids[..n] + [ids[n]];
      if NoDuplicates(ids) {
        assert NoDuplicates(ids[..n]);
        assert ids[n] !in ids[..n];
        DistinctSnoc(StillPending(ids[..n], tasks), ids[n]);
      }
    }
  }

  lemma DistinctSnoc(ids: seq<Id>, x: Id)
    requires NoDuplicates(ids) && x !in ids
    ensures NoDuplicates(ids + [x])
  {
  }

  lemma {:induction false} StillPendingUpdate(ids: seq<Id>, tasks: map<Id, Task>, id: Id, t: Task)
    requires !t.status.Pending?
    ensures StillPending(ids, tasks[id := t]) == Without(StillPending(ids, tasks), id)
  {
    if ids != [] {
      var n := |ids| - 1;
      StillPendingUpdate(ids[..n], tasks, id, t);
      if IsPending(tasks, ids[n]) {
        WithoutSnoc(StillPending(ids[..n], tasks), ids[n], id);
      } else {
        assert StillPending(ids, tasks) == StillPending(ids[..n], tasks);
      }
    }
  }

  lemma {:induction false} StillPendingSame(ids: seq<Id>, a: map<Id, Task>, b: map<Id, Task>)
    requires forall k :: 0 <= k < |ids| ==> IsPending(a, ids[k]) == IsPending(b, ids[k])
    ensures StillPending(ids, a) == StillPending(ids, b)
  {
    if ids != [] {
      StillPendingSame(ids[..|ids| - 1], a, b);
    }
  }

  lemma {:induction false} StillPendingAppend(a: seq<Id>, b: seq<Id>, tasks: map<Id, Task>)
    requires forall k :: 0 <= k < |b| ==> IsPending(tasks, b[k])
    ensures StillPending(a + b, tasks) == StillPending(a, tasks) + b
  {
    if b == [] {
      assert a + b == a;
    } else {
      var n := |b| - 1;
      StillPendingAppend(a, b[..n], tasks);
      assert (a + b)[..|a + b| - 1] == a + b[..n];
      assert b == b[..n] + [b[n]];
    }
  }

  lemma {:induction false} InsertAllMeans(tasks: map<Id, Task>, ts: seq<Task>, first: Id, id: Id)
    requires forall k :: 0 <= k < |ts| ==> ts[k].id == first + k
    ensures id in InsertAll(tasks, ts) <==> id in tasks || first <= id < first + |ts|
    ensures first <= id < first + |ts| ==> InsertAll(tasks, ts)[id] == ts[id - first]
    ensures id in tasks && !(first <= id < first + |ts|) ==> InsertAll(tasks, ts)[id] == tasks[id]
  {
    if ts != [] {
      InsertAllMeans(tasks, ts[..|ts| - 1], first, id);
    }
  }

  // ----- linked maps -----

  lemma SlotIs(ts: seq<Task>, k: nat)
    requires IdsDistinct(ts) && k < |ts|
    ensures Slot(ts, ts[k].id) == k
  {
    var j := Slot(ts, ts[k].id);
    assert j <= k;
  }

  /** A list with one task replaced under its own id. */
  lemma SlotAfterReplace(ts: seq<Task>, k: nat, t: Task, id: Id)
    requires k < |ts| && t.id == ts[k].id
    ensures Slot(ts[k := t], id) == Slot(ts, id)
  {
    var a, b := Slot(ts[k := t], id), Slot(ts, id);
    assert forall m :: 0 <= m < |ts| ==> ts[k := t][m].id == ts[m].id;
    assert !(a < b) && !(b < a);
  }

  /** The stage's record of a known task sits in its slot and equals the map's entry. */
  lemma SlotAgrees(jobs: map<Id, Job>, stages: map<Id, Stage>, tasks: map<Id, Task>, id: Id)
    requires Linked(jobs, stages, tasks) && id in tasks
    ensures var t := tasks[id];
            && t.id == id && t.stageId in stages && t.jobId in jobs && jobs[t.jobId].stages == [t.stageId]
            && var stage := stages[t.stageId]; var k := Slot(stage.tasks, id);
               stage.id == t.stageId && stage.jobId == t.jobId && k < |stage.tasks| && stage.tasks[k] == t &&
                   IdsDistinct(stage.tasks)
  {
    assert TaskLinked(stages, tasks, id);
    var stage := stages[tasks[id].stageId];
    assert StageLinked(jobs, stages, tasks, tasks[id].stageId);
    assert CopyAgrees(tasks, stage, Slot(stage.tasks, id));
  }

  /** The maps after replacing a task under its own ids, in the task map and in its stage. */
  ghost function Replaced(stages: map<Id, Stage>, t: Task, status: StageStatus): map<Id, Stage>
    requires t.stageId in stages && Slot(stages[t.stageId].tasks, t.id) < |stages[t.stageId].tasks|
  {
    var stage := stages[t.stageId];
    stages[t.stageId := stage.(tasks := stage.tasks[Slot(stage.tasks, t.id) := t], status := status)]
  }

  lemma ReplacedStage(jobs: map<Id, Job>, stages: map<Id, Stage>, tasks: map<Id, Task>, t: Task, status: StageStatus,
                      sid: Id)
    requires Linked(jobs, stages, tasks) && t.id in tasks && sid in stages
    requires t.stageId == tasks[t.id].stageId && t.jobId == tasks[t.id].jobId
    requires t.stageId in stages && Slot(stages[t.stageId].tasks, t.id) < |stages[t.stageId].tasks|
    ensures StageLinked(jobs, Replaced(stages, t, status), tasks[t.id := t], sid)
  {
    SlotAgrees(jobs, stages, tasks, t.id);
    assert StageLinked(jobs, stages, tasks, sid);
    var old_, new_, tasks' := stages[sid], Replaced(stages, t, status)[sid], tasks[t.id := t];
    forall k | 0 <= k < |new_.tasks|
      ensures CopyAgrees(tasks', new_, k)
    {
      assert CopyAgrees(tasks, old_, k);
    }
  }

  /** Replacing a task in both places keeps the maps linked. */
  lemma ReplacedLinked(jobs: map<Id, Job>, stages: map<Id, Stage>, tasks: map<Id, Task>, t: Task, status: StageStatus)
    requires Linked(jobs, stages, tasks) && t.id in tasks
    requires t.stageId == tasks[t.id].stageId && t.jobId == tasks[t.id].jobId
    requires t.stageId in stages && Slot(stages[t.stageId].tasks, t.id) < |stages[t.stageId].tasks|
    ensures Linked(jobs, Replaced(stages, t, status), tasks[t.id := t])
  {
    var stages', tasks' := Replaced(stages, t, status), tasks[t.id := t];
    forall id | id in tasks'
      ensures TaskLinked(stages', tasks', id)
    {
      assert TaskLinked(stages, tasks, id);
      var stage := stages[t.stageId];
      SlotAfterReplace(stage.tasks, Slot(stage.tasks, t.id), t, id);
    }
    forall sid | sid in stages'
      ensures StageLinked(jobs, stages', tasks', sid)
    {
      ReplacedStage(jobs, stages, tasks, t, status, sid);
    }
    forall jid | jid in jobs
      ensures JobLinked(jobs, stages', jid)
    {
      assert JobLinked(jobs, stages, jid);
    }
  }

  /** Rewriting a job under its own id and stages keeps the maps linked. */
  lemma JobRewriteLinked(jobs: map<Id, Job>, stages: map<Id, Stage>, tasks: map<Id, Task>, job: Job)
    requires Linked(jobs, stages, tasks) && job.id in jobs && job.stages == jobs[job.id].stages
    ensures Linked(jobs[job.id := job], stages, tasks)
  {
    var jobs' := jobs[job.id := job];
    forall sid | sid in stages
      ensures StageLinked(jobs', stages, tasks, sid)
    {
      assert StageLinked(jobs, stages, tasks, sid);
    }
    forall jid | jid in jobs'
      ensures JobLinked(jobs', stages, jid)
    {
      assert JobLinked(jobs, stages, jid);
    }
  }

  // ----- job aggregates -----

  /** The tasks that the map files under a job are those of the job's stage. */
  lemma JobIdsAreStageIds(jobs: map<Id, Job>, stages: map<Id, Stage>, tasks: map<Id, Task>, sid: Id, id: Id)
    requires Linked(jobs, stages, tasks) && sid in stages
    ensures id in JobIds(tasks, stages[sid].jobId) <==> Slot(stages[sid].tasks, id) < |stages[sid].tasks|
  {
    var stage := stages[sid];
    assert StageLinked(jobs, stages, tasks, sid);
    if id in JobIds(tasks, stage.jobId) {
      SlotAgrees(jobs, stages, tasks, id);
      assert jobs[stage.jobId].stages[0] == sid;
    }
    var k := Slot(stage.tasks, id);
    if k < |stage.tasks| {
      assert CopyAgrees(tasks, stage, k);
    }
  }

  ghost function IdSet(ts: seq<Task>): set<Id> {
    set k | 0 <= k < |ts| :: ts[k].id
  }

  lemma JobIdsAreIdSet(jobs: map<Id, Job>, stages: map<Id, Stage>, tasks: map<Id, Task>, sid: Id)
    requires Linked(jobs, stages, tasks) && sid in stages
    ensures JobIds(tasks, stages[sid].jobId) == IdSet(stages[sid].tasks)
  {
    hide Linked, JobIds;
    var ts := stages[sid].tasks;
    forall id: Id
      ensures id in JobIds(tasks, stages[sid].jobId) <==> id in IdSet(ts)
    {
      JobIdsAreStageIds(jobs, stages, tasks, sid, id);
      if id in IdSet(ts) {
        var k :| 0 <= k < |ts| && ts[k].id == id;
        assert Slot(ts, id) <= k;
      }
    }
  }

  lemma {:induction false} SumRowsRemove(tasks: map<Id, Task>, ids: set<Id>, id: Id)
    requires id in ids
    ensures SumRows(tasks, ids) == RowsOf(tasks, id) + SumRows(tasks, ids - {id})
    decreases |ids|
  {
    var x :| x in ids && SumRows(tasks, ids) == RowsOf(tasks, x) + SumRows(tasks, ids - {x});
    if x != id {
      SumRowsRemove(tasks, ids - {x}, id);
      SumRowsRemove(tasks, ids - {id}, x);
      assert ids - {x} - {id} == ids - {id} - {x};
    }
  }

  lemma {:induction false} SumIsTotal(tasks: map<Id, Task>, ts: seq<Task>)
    requires IdsDistinct(ts) && forall k :: 0 <= k < |ts| ==> ts[k].id in tasks && tasks[ts[k].id] == ts[k]
    ensures SumRows(tasks, IdSet(ts)) == TotalRows(ts)
  {
    if ts == [] {
      assert IdSet(ts) == {};
    } else {
      var n := |ts| - 1;
      SumIsTotal(tasks, ts[..n]);
      var id := ts[n].id;
      assert id in IdSet(ts);
      assert IdSet(ts) - {id} == IdSet(ts[..n]) by {
        assert forall k :: 0 <= k < n ==> ts[..n][k] == ts[k];
      }
      SumRowsRemove(tasks, IdSet(ts), id);
    }
  }

  /** What the job aggregates read from the task map is what the stage's copies say. */
  lemma AggregatesAgree(jobs: map<Id, Job>, stages: map<Id, Stage>, tasks: map<Id, Task>, sid: Id)
    requires Linked(jobs, stages, tasks) && sid in stages
    ensures var ids := JobIds(tasks, stages[sid].jobId); var ts := stages[sid].tasks;
            && ids != {} && ts != []
            && (AllIdsSucceeded(tasks, ids) <==> AllSucceeded(ts))
            && (AnyIdFailed(tasks, ids) <==> AnyFailed(ts))
            && SumRows(tasks, ids) == TotalRows(ts)
  {
    JobIdsAreIdSet(jobs, stages, tasks, sid);
    var stage := stages[sid];
    var ts, ids := stage.tasks, JobIds(tasks, stage.jobId);
    assert StageLinked(jobs, stages, tasks, sid);
    forall k | 0 <= k < |ts|
      ensures ts[k].id in tasks && tasks[ts[k].id] == ts[k] && ts[k].id in ids
    {
      assert CopyAgrees(tasks, stage, k);
    }
    SumIsTotal(tasks, ts);
    assert ts[0].id in ids;
    if AnyFailed(ts) {
      var k :| 0 <= k < |ts| && ts[k].status.Failed?;
      assert FailedIn(tasks, ids, ts[k].id);
    }
  }

  // ----- reports -----

  lemma ReportCases(o: Option<bool>)
    ensures o == None || o == Some(true) || o == Some(false)
  {
    match o
    case None =>
    case Some(b) => if b { assert o == Some(true); } else { assert o == Some(false); }
  }

  lemma ReportSnoc(reports: seq<Report>, r: Report, id: Id)
    ensures LastReport(reports + [r], id) == if r.id == id then Some(r.ok) else LastReport(reports, id)
    ensures FirstReport(reports + [r], id)
         == if FirstReport(reports, id) == None && r.id == id then Some(r.ok) else FirstReport(reports, id)
    ensures FirstSuccesses(reports + [r])
         == FirstSuccesses(reports) + if r.ok && FirstReport(reports, r.id) == None then 1 else 0
  {
    assert (reports + [r])[..|reports|] == reports;
  }

  lemma {:induction false} FirstLast(reports: seq<Report>, id: Id)
    ensures FirstReport(reports, id) == None <==> LastReport(reports, id) == None
    ensures LastReport(reports, id) == None <==> forall r :: 0 <= r < |reports| ==> reports[r].id != id
  {
    if reports != [] {
      FirstLast(reports[..|reports| - 1], id);
    }
  }

  lemma {:induction false} LastReportIsLogged(reports: seq<Report>, id: Id)
    requires LastReport(reports, id) != None
    ensures exists r :: 0 <= r < |reports| && reports[r] == Report(id, LastReport(reports, id).value)
  {
    var n := |reports| - 1;
    if reports[n].id == id {
      assert reports[n] == Report(id, reports[n].ok);
    } else {
      LastReportIsLogged(reports[..n], id);
      var r :| 0 <= r < n && reports[..n][r] == Report(id, LastReport(reports, id).value);
      assert reports[r] == reports[..n][r];
    }
  }

  /** The run counter counts the tasks whose first report was a success. */
  lemma {:induction false} FirstSuccessesCountsTasks(reports: seq<Report>, ids: set<Id>)
    requires forall id :: id in ids <==> FirstReport(reports, id) == Some(true)
    ensures FirstSuccesses(reports) == |ids|
  {
    if reports == [] {
      assert ids == {};
    } else {
      var n := |reports| - 1;
      var r := reports[n];
      var before := if r.ok && FirstReport(reports[..n], r.id) == None then ids - {r.id} else ids;
      FirstSuccessesCountsTasks(reports[..n], before);
    }
  }
}
