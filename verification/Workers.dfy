/** The worker side of the protocol: each worker polls, executes what it got, reports it once and
    polls again; responses and reports can be lost (crates/rspark-cli/src/commands.rs:183-244). */
module Workers {
  import opened Results
  import opened Cluster
  import opened ClusterLemmas
  import opened ClusterSteps
  import opened ClusterRuns
  import Submissions

  /** The calls the master has served so far, and the task each busy worker process is executing. */
  datatype System = System(events: seq<Event>, busy: map<nat, Id>)

  datatype Action =
    | Client(e: Event)
    | Poll(process: nat, worker: string, received: bool)
    | Finish(process: nat, rows: nat, failure: Option<string>, delivered: bool, pick: Id)

  /** Clients only submit; a worker polls when it executes nothing and reports what it executed. */
  ghost predicate Enabled(s: System, a: Action) {
    match a
    case Client(e) => e.Submit? || e.Skip?
    case Poll(p, _, _) => p !in s.busy
    case Finish(p, _, _, _, _) => p in s.busy
  }

  /** A successful task is reported with its rows, a failed one with zero rows and its error. */
  function ReportEvent(id: Id, rows: nat, failure: Option<string>, pick: Id): Event {
    if failure == None then Complete(id, rows, true, None, pick) else Complete(id, 0, false, failure, pick)
  }

  /** An action that is not possible does not happen. */
  ghost function Step(s: System, a: Action): System {
    if !Enabled(s, a) then s else match a
    case Client(e) => s.(events := s.events + [e])
    case Poll(p, worker, received) =>
      var queue := Run(s.events).pending;
      System(s.events + [Assign(worker)], if queue != [] && received then s.busy[p := queue[0]] else s.busy)
    case Finish(p, rows, failure, delivered, pick) =>
      System(if delivered then s.events + [ReportEvent(s.busy[p], rows, failure, pick)] else s.events, s.busy - {p})
  }

  ghost function Reach(actions: seq<Action>): System {
    if actions == [] then System([], map[])
    else Step(Reach(actions[..|actions| - 1]), actions[|actions| - 1])
  }

  ghost predicate Unreported(reports: seq<Report>, id: Id) {
    forall r :: 0 <= r < |reports| ==> reports[r].id != id
  }

  /** What workers are executing was handed out, is not reported yet, and is executed once. */
  ghost predicate BusyOk(w: World, busy: map<nat, Id>) {
    && (forall p :: p in busy ==> busy[p] in AssignedIds(w.handed) && Unreported(w.reports, busy[p]))
    && (forall p, q :: p in busy && q in busy && p != q ==> busy[p] != busy[q])
  }

  ghost predicate Orderly(s: System) {
    Disciplined(s.events) && AtMostOnce(Run(s.events).reports) && BusyOk(Run(s.events), s.busy)
  }

  lemma DisciplinedSnoc(events: seq<Event>, e: Event)
    requires Disciplined(events) && (e.Complete? ==> e.id in AssignedIds(Run(events).handed))
    ensures Disciplined(events + [e])
  {
    var after := events + [e];
    forall i | 0 <= i < |after| && after[i].Complete?
      ensures after[i].id in AssignedIds(Run(after[..i]).handed)
    {
      if i < |events| {
        assert after[..i] == events[..i] && after[i] == events[i];
      } else {
        assert after[..i] == events;
      }
    }
  }

  lemma RunSnoc(events: seq<Event>, e: Event)
    ensures Run(events + [e]) == Apply(Run(events), e)
  {
    assert (events + [e])[..|events|] == events;
  }

  lemma ClientKeepsOrder(s: System, e: Event)
    requires Orderly(s) && (e.Submit? || e.Skip?)
    ensures Orderly(s.(events := s.events + [e]))
  {
    hide Disciplined, Run;
    RunSnoc(s.events, e);
    DisciplinedSnoc(s.events, e);
    assert Run(s.events + [e]).handed == Run(s.events).handed && Run(s.events + [e]).reports == Run(s.events).reports;
  }

  lemma PollKeepsOrder(s: System, p: nat, worker: string, received: bool)
    requires Orderly(s) && p !in s.busy
    ensures Orderly(Step(s, Poll(p, worker, received)))
  {
    hide Disciplined, Run, AssignStep, Inv;
    var w, e := Run(s.events), Assign(worker);
    ReachableInv(s.events);
    RunSnoc(s.events, e);
    DisciplinedSnoc(s.events, e);
    if w.pending == [] {
      AssignNothing(w, worker);
    } else {
      AssignNormal(w, worker);
      var id := w.pending[0];
      PendingIsFresh(w, id);
      assert AssignedIds(w.handed + [(id, worker)]) == AssignedIds(w.handed) + [id];
    }
  }

  /** A queued task was never handed out or reported. */
  lemma PendingIsFresh(w: World, id: Id)
    requires Inv(w) && IsPending(w.tasks, id)
    ensures id !in AssignedIds(w.handed) && Unreported(w.reports, id)
  {
    hide Linked, StageStatuses, JobStatuses, Queued, FirstSuccesses, Fresh;
    FirstLast(w.reports, id);
    ReportCases(LastReport(w.reports, id));
    forall k | 0 <= k < |w.handed|
      ensures AssignedIds(w.handed)[k] != id
    {
      var (id', _) := w.handed[k];
    }
  }

  lemma FinishKeepsOrder(s: System, p: nat, rows: nat, failure: Option<string>, delivered: bool, pick: Id)
    requires Orderly(s) && p in s.busy
    ensures Orderly(Step(s, Finish(p, rows, failure, delivered, pick)))
  {
    hide Disciplined, Run, Apply, Inv;
    if delivered {
      var w, id := Run(s.events), s.busy[p];
      var e := ReportEvent(id, rows, failure, pick);
      ReachableInv(s.events);
      RunSnoc(s.events, e);
      DisciplinedSnoc(s.events, e);
      HandedIsNotQueued(w, id);
      CompleteLogs(w, e);
    }
  }

  lemma StepKeepsOrder(s: System, a: Action)
    requires Orderly(s)
    ensures Orderly(Step(s, a))
  {
    hide Orderly;
    if Enabled(s, a) {
      match a
      case Client(e) => ClientKeepsOrder(s, e);
      case Poll(p, worker, received) => PollKeepsOrder(s, p, worker, received);
      case Finish(p, rows, failure, delivered, pick) => FinishKeepsOrder(s, p, rows, failure, delivered, pick);
    }
  }

  /** Every run of the worker loops reports only tasks that were handed out, each at most once, so
      dispatch is in submission order and the terminal states are final. */
  lemma {:induction false} WorkersAreOrderly(actions: seq<Action>)
    ensures Disciplined(Reach(actions).events)
    ensures AtMostOnce(Run(Reach(actions).events).reports)
    ensures BusyOk(Run(Reach(actions).events), Reach(actions).busy)
    ensures AssignedIds(Run(Reach(actions).events).handed) + Run(Reach(actions).events).pending
        == Run(Reach(actions).events).submitted
  {
    hide Disciplined, Run, BusyOk, AtMostOnce;
    if actions == [] {
      NothingIsOrderly();
    } else {
      var n := |actions| - 1;
      WorkersAreOrderly(actions[..n]);
      StepKeepsOrder(Reach(actions[..n]), actions[n]);
    }
    FifoDispatch(Reach(actions).events);
  }

  lemma NothingIsOrderly()
    ensures Orderly(System([], map[]))
  {
  }

  // ----- what a worker gets and reports -----

  lemma BusyIsKnown(actions: seq<Action>, p: nat)
    requires p in Reach(actions).busy
    ensures Reach(actions).busy[p] in Run(Reach(actions).events).tasks
  {
    hide Linked, StageStatuses, JobStatuses, Queued, FirstSuccesses, Fresh, Reported, Run, Reach;
    WorkersAreOrderly(actions);
    ReachableInv(Reach(actions).events);
    var w, id := Run(Reach(actions).events), Reach(actions).busy[p];
    var k :| 0 <= k < |w.handed| && AssignedIds(w.handed)[k] == id;
    var (id', _) := w.handed[k];
  }

  /** A poll that is answered gives the process the oldest queued task, on record as assigned to its worker; a lost
      answer leaves the task assigned to a worker that does not execute it. */
  lemma PollGetsTheOldest(actions: seq<Action>, p: nat, worker: string, received: bool)
    requires p !in Reach(actions).busy && Run(Reach(actions).events).pending != []
    ensures var w, s := Run(Reach(actions).events), Reach(actions + [Poll(p, worker, received)]);
      var id := w.pending[0];
      && s.busy == (if received then Reach(actions).busy[p := id] else Reach(actions).busy)
      && id in Run(s.events).tasks && Run(s.events).tasks[id].status == Assigned
      && Run(s.events).tasks[id].worker == Some(worker)
  {
    assert (actions + [Poll(p, worker, received)])[..|actions|] == actions;
    Submissions.AssignTouchesItsTask(Reach(actions).events, worker);
  }

  /** A delivered report records a success if and only if the execution had no failure: with its rows if so, and
      otherwise with no rows and its error. Other tasks keep what they hold. */
  lemma DeliveredReport(actions: seq<Action>, p: nat, rows: nat, failure: Option<string>, pick: Id)
    requires p in Reach(actions).busy
    ensures var s, s' := Reach(actions), Reach(actions + [Finish(p, rows, failure, true, pick)]);
      var w, w', id := Run(s.events), Run(s'.events), s.busy[p];
      && id in w.tasks && id in w'.tasks && s'.busy == s.busy - {p}
      && (w'.tasks[id].status == Succeeded <==> failure == None)
      && (failure == None ==> w'.tasks[id].resultRows == Some(rows))
      && (failure.Some? ==> w'.tasks[id].status == Failed(failure.value) && w'.tasks[id].resultRows == Some(0)
                            && w'.tasks[id].error == failure)
      && (forall other :: other in w.tasks && other != id ==> other in w'.tasks && w'.tasks[other] == w.tasks[other])
  {
    hide Run;
    var s := Reach(actions);
    assert (actions + [Finish(p, rows, failure, true, pick)])[..|actions|] == actions;
    BusyIsKnown(actions, p);
    if failure == None {
      Submissions.ReportTouchesItsTask(s.events, s.busy[p], rows, true, None, pick);
    } else {
      Submissions.ReportTouchesItsTask(s.events, s.busy[p], 0, false, failure, pick);
    }
  }

  /** A lost report changes nothing at the master. */
  lemma LostReport(actions: seq<Action>, p: nat, rows: nat, failure: Option<string>, pick: Id)
    requires p in Reach(actions).busy
    ensures var s, s' := Reach(actions), Reach(actions + [Finish(p, rows, failure, false, pick)]);
      s'.events == s.events && s'.busy == s.busy - {p}
  {
    assert (actions + [Finish(p, rows, failure, false, pick)])[..|actions|] == actions;
  }
}
