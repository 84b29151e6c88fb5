/** Any number of Terraform CLI workspaces sharing one provider scheduler (`pkg/terraform/workspace.go`
    with `pkg/terraform/provider_scheduler.go`). Per workspace a serialized reconciler thread connects,
    schedules a provider, and runs Terraform synchronously or starts one asynchronous run. */
module WorkspaceProtocol {
  import opened Operations
  import opened Scheduler
  import opened Wrappers

  const APPLY := "apply"
  const DESTROY := "destroy"

  /** Where the reconciler thread of a workspace is. */
  datatype PC =
    | Idle
    | Connected
    | Scheduled
    | InRun(flush: bool, scheduled: bool)
    | Reporting
    | Marked

  /** The goroutine of an asynchronous run: before and after it evaluates the deferred release, and
      after the release but before MarkEnd. */
  datatype Worker = NoWorker | Pending | InTerraform(captured: Option<Handle>) | Released

  /** `handle` is the stored provider handle, `client` the one the current client connected with,
      `inUse` what UseProvider set last (`None` is the no-op), and `held` the handle this workspace has
      incremented and not yet decremented. */
  datatype Workspace = Workspace(
    handle: Handle, client: Handle, inUse: Option<Handle>, op: OpState, pc: PC, worker: Worker, held: Option<Handle>)

  datatype State = State(runners: Runners, workspaces: map<nat, Workspace>)

  datatype Action =
    | NewWorkspace
    | Connect(h: Handle)
    | Schedule(stopOk: bool, startOk: bool)
    | BeginRun(flushes: bool)
    | EndRun
    | ImportWithoutID
    | SeeRunning
    | Report
    | StartAsync(ty: string, now: nat)
    | IncrementAndSpawn
    | EndReconcile
    | EvaluateDefer
    | Release
    | MarkEnd(now: nat)

  function NewWorkspaceState(): Workspace {
    Workspace("", "", None, FRESH, Idle, NoWorker, None)
  }

  function Increment(runners: Runners, h: Option<Handle>): Runners
    requires h.Some? ==> h.value in runners
  {
    if h.None? then runners else Incremented(runners, h.value)
  }

  function Decrement(runners: Runners, h: Option<Handle>): Runners
    requires h.Some? ==> h.value in runners
  {
    if h.None? then runners else Decremented(runners, h.value)
  }

  predicate Known(s: State, h: Option<Handle>) {
    h.Some? ==> h.value in s.runners
  }

  /** The local effect of a step of workspace `w` and its effect on the runners. */
  predicate Step(ttl: int, s: State, a: Action, w: Workspace, w': Workspace, runners': Runners) {
    var r := s.runners;
    match a
    case NewWorkspace => false
    // the store keeps everything as it is while an operation is running
    case Connect(h) =>
      w.pc == Idle && runners' == r &&
      w' == if Running(w.op) then w.(pc := Connected, client := w.handle)
            else w.(pc := Connected, handle := h, client := h)
    case Schedule(stopOk, startOk) =>
      var outcome := StartOutcome(r, ttl, w.client, stopOk);
      w.pc in {Connected, Scheduled} && runners' == AfterStart(r, ttl, w.client, stopOk) &&
      w' == if (outcome.Reused? || outcome.Fresh?) && startOk
            then w.(pc := Scheduled, inUse := Some(w.client))
            else w.(pc := Connected)
    case BeginRun(flushes) =>
      w.pc in {Connected, Scheduled} && !Running(w.op) && Known(s, w.inUse) &&
      runners' == Increment(r, w.inUse) &&
      w' == w.(pc := InRun(flushes && w.op.endTime.Some?, w.pc.Scheduled?), held := w.inUse)
    case EndRun =>
      w.pc.InRun? && Known(s, w.inUse) && runners' == Decrement(r, w.inUse) &&
      w' == w.(pc := if w.pc.scheduled then Scheduled else Connected, held := None,
               op := if w.pc.flush then Cleared(w.op, false) else w.op)
    case ImportWithoutID =>
      w.pc == Scheduled && !Running(w.op) && runners' == r &&
      w' == if w.op.endTime.Some? then w.(op := Cleared(w.op, false)) else w
    case SeeRunning =>
      w.pc == Scheduled && Running(w.op) && runners' == r && w' == w.(pc := Reporting)
    case Report =>
      w.pc == Reporting && runners' == r && w' == w.(pc := Scheduled)
    case StartAsync(ty, now) =>
      w.pc == Scheduled && ty in {APPLY, DESTROY} && runners' == r &&
      w' == if (ty == DESTROY && w.op.ty == DESTROY) || Running(w.op) then w
            else w.(pc := Marked, op := MarkedStart(w.op, ty, now))
    case IncrementAndSpawn =>
      w.pc == Marked && Known(s, w.inUse) && runners' == Increment(r, w.inUse) &&
      w' == w.(pc := Scheduled, worker := Pending, held := w.inUse)
    case EndReconcile =>
      w.pc in {Connected, Scheduled} && runners' == r && w' == w.(pc := Idle)
    // the goroutine
    case EvaluateDefer =>
      w.worker == Pending && runners' == r && w' == w.(worker := InTerraform(w.inUse))
    case Release =>
      w.worker.InTerraform? && Known(s, w.worker.captured) && runners' == Decrement(r, w.worker.captured) &&
      w' == w.(worker := Released, held := None)
    case MarkEnd(now) =>
      w.worker == Released && runners' == r && w' == w.(worker := NoWorker, op := MarkedEnd(w.op, now))
  }

  predicate Next(ttl: int, s: State, i: nat, a: Action, t: State) {
    if a.NewWorkspace? then
      i !in s.workspaces && t == s.(workspaces := s.workspaces[i := NewWorkspaceState()])
    else
      && i in s.workspaces && i in t.workspaces
      && t.workspaces == s.workspaces[i := t.workspaces[i]]
      && Step(ttl, s, a, s.workspaces[i], t.workspaces[i], t.runners)
  }

  ghost predicate IsRun(ttl: int, run: seq<State>, labels: seq<(nat, Action)>) {
    && |run| == |labels| + 1
    && run[0] == State(map[], map[])
    && forall k | 0 <= k < |labels| :: Next(ttl, run[k], labels[k].0, labels[k].1, run[k + 1])
  }

  // -------------------------------------------------------------- the invariant

  predicate Consistent(s: State, w: Workspace) {
    && Known(s, w.inUse) && Known(s, w.held)
    && (Running(w.op) <==> w.pc == Marked || w.worker != NoWorker)
    && (w.pc == Marked ==> w.worker == NoWorker)
    && (Running(w.op) ==> w.op.ty in {APPLY, DESTROY})
    && (w.pc == Reporting ==> w.op.ty in {APPLY, DESTROY})
    && (w.pc != Idle ==> w.client == w.handle)
    && (w.pc in {Scheduled, Reporting, Marked} || (w.pc.InRun? && w.pc.scheduled) ==> w.inUse == Some(w.client))
    && (w.pc.InRun? ==> !Running(w.op) && w.held == w.inUse)
    && (w.worker == Pending ==> w.held == w.inUse == Some(w.handle))
    && (w.worker.InTerraform? ==> w.held == w.worker.captured)
    && (w.worker in {NoWorker, Released} && !w.pc.InRun? ==> w.held == None)
  }

  function Users(s: State, h: Handle): set<nat> {
    set i | i in s.workspaces && s.workspaces[i].held == Some(h)
  }

  ghost predicate Inv(s: State) {
    && (forall i <- s.workspaces :: Consistent(s, s.workspaces[i]))
    && (forall h <- s.runners :: s.runners[h].inUse == |Users(s, h)|)
  }

  /** Runners are never forgotten. */
  lemma RunnersStay(ttl: int, s: State, i: nat, a: Action, t: State)
    requires Next(ttl, s, i, a, t)
    ensures s.runners.Keys <= t.runners.Keys
  {
    hide Running;
  }

  /** The workspace that moves stays consistent. */
  lemma MoverConsistent(ttl: int, s: State, a: Action, w: Workspace, t: State, w': Workspace)
    requires Consistent(s, w) && Step(ttl, s, a, w, w', t.runners) && s.runners.Keys <= t.runners.Keys
    ensures Consistent(t, w')
  {
    hide StartOutcome;
    match a
    case Schedule(stopOk, _) =>
      ScheduledIsKnown(s.runners, ttl, w.client, stopOk);
    case _ =>
  }

  lemma ScheduledIsKnown(r: Runners, ttl: int, h: Handle, stopOk: bool)
    ensures StartOutcome(r, ttl, h, stopOk) in {Reused, Fresh} ==> h in AfterStart(r, ttl, h, stopOk)
    ensures r.Keys <= AfterStart(r, ttl, h, stopOk).Keys
  {}

  lemma ConsistentStep(ttl: int, s: State, i: nat, a: Action, t: State, j: nat)
    requires Inv(s) && Next(ttl, s, i, a, t) && j in t.workspaces
    ensures Consistent(t, t.workspaces[j])
  {
    hide Step, Consistent;
    if a.NewWorkspace? {
      NewIsConsistent(t);
      if j in s.workspaces {
        assert Consistent(s, s.workspaces[j]);
        ConsistentWithMore(s, t, s.workspaces[j]);
      }
    } else {
      RunnersStay(ttl, s, i, a, t);
      if j == i {
        MoverConsistent(ttl, s, a, s.workspaces[i], t, t.workspaces[i]);
      } else {
        assert Consistent(s, s.workspaces[j]);
        ConsistentWithMore(s, t, s.workspaces[j]);
      }
    }
  }

  lemma NewIsConsistent(t: State)
    ensures Consistent(t, NewWorkspaceState())
  {}

  lemma ConsistentWithMore(s: State, t: State, w: Workspace)
    requires Consistent(s, w) && s.runners.Keys <= t.runners.Keys
    ensures Consistent(t, w)
  {
    hide Running;
  }

  lemma UsersStep(s: State, i: nat, t: State, h: Handle)
    requires i in s.workspaces && i in t.workspaces
    requires t.workspaces == s.workspaces[i := t.workspaces[i]]
    ensures var before, after := s.workspaces[i].held == Some(h), t.workspaces[i].held == Some(h);
            |Users(t, h)| == |Users(s, h)| + (if after then 1 else 0) - (if before then 1 else 0)
  {
    var others := Users(s, h) - {i};
    assert Users(t, h) - {i} == others;
    if s.workspaces[i].held == Some(h) {
      assert Users(s, h) == others + {i};
    } else {
      assert Users(s, h) == others;
    }
    if t.workspaces[i].held == Some(h) {
      assert Users(t, h) == others + {i};
    } else {
      assert Users(t, h) == others;
    }
  }

  lemma UnknownHasNoUsers(s: State, h: Handle)
    requires Inv(s) && h !in s.runners
    ensures Users(s, h) == {}
  {
    forall i <- s.workspaces
      ensures s.workspaces[i].held != Some(h)
    {
      assert Consistent(s, s.workspaces[i]);
    }
  }

  /** What a step does to the count of a runner, it does to what its workspace holds. */
  lemma RunnerStep(ttl: int, s: State, a: Action, w: Workspace, w': Workspace, runners': Runners, h: Handle)
    requires Consistent(s, w) && Step(ttl, s, a, w, w', runners') && h in runners'
    requires w.held == Some(h) ==> h in s.runners && s.runners[h].inUse > 0
    ensures runners'[h].inUse ==
      (if h in s.runners then s.runners[h].inUse else 0) +
      (if w'.held == Some(h) then 1 else 0) - (if w.held == Some(h) then 1 else 0)
  {
    hide Running;
  }

  lemma AccountingStep(ttl: int, s: State, i: nat, a: Action, t: State, h: Handle)
    requires Inv(s) && Next(ttl, s, i, a, t) && h in t.runners
    ensures t.runners[h].inUse == |Users(t, h)|
  {
    hide Step, Consistent;
    if a.NewWorkspace? {
      assert Users(t, h) == Users(s, h);
    } else {
      UsersStep(s, i, t, h);
      if h !in s.runners {
        UnknownHasNoUsers(s, h);
      }
      assert s.workspaces[i].held == Some(h) ==> i in Users(s, h);
      RunnerStep(ttl, s, a, s.workspaces[i], t.workspaces[i], t.runners, h);
    }
  }

  lemma InvStep(ttl: int, s: State, i: nat, a: Action, t: State)
    requires Inv(s) && Next(ttl, s, i, a, t)
    ensures Inv(t)
  {
    forall j <- t.workspaces
      ensures Consistent(t, t.workspaces[j])
    {
      ConsistentStep(ttl, s, i, a, t, j);
    }
    forall h <- t.runners
      ensures t.runners[h].inUse == |Users(t, h)|
    {
      AccountingStep(ttl, s, i, a, t, h);
    }
  }

  lemma {:induction false} InvariantHolds(ttl: int, run: seq<State>, labels: seq<(nat, Action)>, n: nat)
    requires IsRun(ttl, run, labels) && n < |run|
    ensures Inv(run[n])
    decreases n
  {
    if n > 0 {
      InvariantHolds(ttl, run, labels, n - 1);
      InvStep(ttl, run[n - 1], labels[n - 1].0, labels[n - 1].1, run[n]);
    }
  }

  // ------------------------------------------------------------------- the laws

  /** In every reachable state the in-use count of a runner is the number of workspaces between an
      increment and the matching decrement, and every such workspace's runner exists. */
  lemma InUseCountsUsers(ttl: int, run: seq<State>, labels: seq<(nat, Action)>, n: nat, h: Handle)
    requires IsRun(ttl, run, labels) && n < |run|
    ensures if h in run[n].runners then run[n].runners[h].inUse == |Users(run[n], h)| else Users(run[n], h) == {}
  {
    InvariantHolds(ttl, run, labels, n);
    if h !in run[n].runners {
      UnknownHasNoUsers(run[n], h);
    }
  }

  /** The release of a bracket goes to the entry that was incremented, even though the receiver is
      read anew and the workspace may have been connected and scheduled again in between; its
      count is not zero, so the release is never dropped. */
  lemma BracketsMatch(ttl: int, run: seq<State>, labels: seq<(nat, Action)>, n: nat, i: nat)
    requires IsRun(ttl, run, labels) && n < |run| && i in run[n].workspaces
    requires run[n].workspaces[i].pc.InRun? || run[n].workspaces[i].worker.InTerraform?
    ensures var w := run[n].workspaces[i];
            var released := if w.pc.InRun? then w.inUse else w.worker.captured;
            && released == w.held
            && (released.Some? ==>
                  released.value in run[n].runners && run[n].runners[released.value].inUse > 0)
  {
    InvariantHolds(ttl, run, labels, n);
    var s := run[n];
    var w := s.workspaces[i];
    assert Consistent(s, w);
    if w.held.Some? {
      assert i in Users(s, w.held.value);
    }
  }

  /** A runner is stopped or replaced only while no workspace is using it. */
  lemma OnlyIdleRunnersAreStopped(ttl: int, run: seq<State>, labels: seq<(nat, Action)>, n: nat, h: Handle,
                                  stopOk: bool)
    requires IsRun(ttl, run, labels) && n < |run|
    requires StartOutcome(run[n].runners, ttl, h, stopOk) in {Fresh, StopFailed}
    ensures Users(run[n], h) == {}
  {
    InUseCountsUsers(ttl, run, labels, n, h);
  }

  /** A caller is told to retry only while some workspace is using the runner. */
  lemma RetryMeansInUse(ttl: int, run: seq<State>, labels: seq<(nat, Action)>, n: nat, h: Handle, stopOk: bool)
    requires IsRun(ttl, run, labels) && n < |run|
    requires StartOutcome(run[n].runners, ttl, h, stopOk).RetryLater?
    ensures exists i :: i in Users(run[n], h)
  {
    InUseCountsUsers(ttl, run, labels, n, h);
    assert Users(run[n], h) != {};
  }

  /** What Refresh and Import report as in progress once they have seen a running operation. */
  predicate InProgress(w: Workspace) {
    w.op.ty == APPLY || w.op.ty == DESTROY
  }

  /** A running operation is an apply or a destroy, and a Refresh or Import that saw one running
      reports it in progress, even when it ends before its type is read. */
  lemma RunningIsReported(ttl: int, run: seq<State>, labels: seq<(nat, Action)>, n: nat, i: nat)
    requires IsRun(ttl, run, labels) && n < |run| && i in run[n].workspaces
    ensures var w := run[n].workspaces[i];
            Running(w.op) || w.pc == Reporting ==> InProgress(w)
  {
    InvariantHolds(ttl, run, labels, n);
    assert Consistent(run[n], run[n].workspaces[i]);
  }

  /** Terraform never runs twice in one workspace: no synchronous run overlaps an asynchronous one. */
  lemma TerraformRunsExclude(ttl: int, run: seq<State>, labels: seq<(nat, Action)>, n: nat, i: nat)
    requires IsRun(ttl, run, labels) && n < |run| && i in run[n].workspaces
    ensures run[n].workspaces[i].pc.InRun? ==> run[n].workspaces[i].worker == NoWorker
  {
    InvariantHolds(ttl, run, labels, n);
    assert Consistent(run[n], run[n].workspaces[i]);
  }
}
