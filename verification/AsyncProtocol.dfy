/** The asynchronous Create, Update and Delete of one resource: the reconciler thread (Observe,
    then at most one of the three; serialized per resource) interleaved with the goroutines it
    starts (`external_async_tfpluginsdk.go`, `external_async_tfpluginfw.go`). Every locked access
    to the shared operation is a step of its own. */
module AsyncProtocol {
  import opened Operations
  import opened Wrappers

  /** How far a worker goroutine has come. */
  datatype Phase = Working | Returned | ReadError | RecordedError | Finished | Notified

  /** `result` is the provider's error or the recovered panic; `seen` the error cached before it
      was recorded; `requested` the argument of the callback. */
  datatype Worker = Worker(kind: string, phase: Phase, result: Option<int>, seen: Option<int>, requested: bool)

  /** Where the reconciler thread is. */
  datatype PC =
    | Idle
    | Checked
    | Observing
    | MayAct
    | MayDelete
    | Starting(id: nat, kind: string)
    | Returning(id: nat)

  /** `calls` holds what the call that started a worker returned. */
  datatype State = State(op: OpState, pc: PC, workers: map<nat, Worker>, calls: map<nat, Option<int>>)

  datatype Action =
    | CheckRunning
    | RecoverName
    | ClearKeepingError
    | FinishObserve(good: bool)
    | CheckDelete
    | MarkStart(kind: string, id: nat, now: nat)
    | Spawn
    | ReturnFromCall
    | EndReconcile
    | ProviderReturns(id: nat, result: Option<int>)
    | ReadCachedError(id: nat)
    | RecordError(id: nat)
    | MarkEnd(id: nat, now: nat)
    | Notify(id: nat)

  const CREATE := "create"
  const UPDATE := "update"
  const DELETE := "delete"

  function Init(): State {
    State(FRESH, Idle, map[], map[])
  }

  predicate InPhase(s: State, id: nat, phase: Phase) {
    id in s.workers && s.workers[id].phase == phase
  }

  function WithWorker(s: State, id: nat, w: Worker): State {
    s.(workers := s.workers[id := w])
  }

  /** One step; `framework` selects the plugin-framework client, which can recover an external name. */
  predicate Next(framework: bool, s: State, a: Action, t: State) {
    match a
    // Observe
    case CheckRunning =>
      s.pc == Idle && t == s.(pc := if Running(s.op) then MayAct else Checked)
    case RecoverName =>
      framework && s.pc == Checked && s.op.err.Some? && s.op.endTime.Some? && s.op.ty == CREATE &&
      t == s.(pc := MayAct, op := Cleared(s.op, true))
    case ClearKeepingError =>
      s.pc == Checked && t == s.(pc := Observing, op := Cleared(s.op, true))
    case FinishObserve(good) =>
      s.pc == Observing && t == s.(pc := MayAct, op := if good then Cleared(s.op, false) else s.op)
    // Create, Update, Delete
    case CheckDelete =>
      s.pc == MayAct && t == s.(pc := if s.op.ty == DELETE then Idle else MayDelete)
    case MarkStart(kind, id, now) =>
      (kind == DELETE || kind == CREATE || kind == UPDATE) && s.pc == (if kind == DELETE then MayDelete else MayAct) &&
      id !in s.workers &&
      t == if Running(s.op) then s.(pc := Idle)
           else s.(pc := Starting(id, kind), op := MarkedStart(s.op, kind, now))
    case Spawn =>
      s.pc.Starting? &&
      t == WithWorker(s, s.pc.id, Worker(s.pc.kind, Working, None, None, false)).(pc := Returning(s.pc.id))
    case ReturnFromCall =>
      s.pc.Returning? && t == s.(pc := Idle, calls := s.calls[s.pc.id := s.op.err])
    case EndReconcile =>
      s.pc == MayAct && t == s.(pc := Idle)
    // the goroutine: the call, then the deferred finishing operations
    case ProviderReturns(id, result) =>
      InPhase(s, id, Working) && t == WithWorker(s, id, s.workers[id].(phase := Returned, result := result))
    case ReadCachedError(id) =>
      InPhase(s, id, Returned) && t == WithWorker(s, id, s.workers[id].(phase := ReadError, seen := s.op.err))
    case RecordError(id) =>
      InPhase(s, id, ReadError) &&
      t == WithWorker(s, id, s.workers[id].(phase := RecordedError)).(op := Failed(s.op, s.workers[id].result))
    case MarkEnd(id, now) =>
      InPhase(s, id, RecordedError) &&
      t == WithWorker(s, id, s.workers[id].(phase := Finished)).(op := MarkedEnd(s.op, now))
    case Notify(id) =>
      InPhase(s, id, Finished) &&
      var w := s.workers[id];
      t == WithWorker(s, id, w.(phase := Notified, requested := w.result.None? || w.seen.None?))
  }

  ghost predicate IsRun(framework: bool, run: seq<State>, actions: seq<Action>) {
    && |run| == |actions| + 1
    && run[0] == Init()
    && forall i | 0 <= i < |actions| :: Next(framework, run[i], actions[i], run[i + 1])
  }

  // -------------------------------------------------------------- the invariant

  /** Between MarkStart and MarkEnd: the start is marked and the goroutine not yet there, or the
      goroutine has not yet marked the end. */
  predicate Between(s: State, id: nat) {
    (s.pc.Starting? && s.pc.id == id) ||
    (id in s.workers && s.workers[id].phase != Finished && s.workers[id].phase != Notified)
  }

  function KindOf(s: State, id: nat): string
    requires Between(s, id)
  {
    if s.pc.Starting? && s.pc.id == id then s.pc.kind else s.workers[id].kind
  }

  ghost predicate OneWorker(s: State) {
    && (forall i, j | Between(s, i) && Between(s, j) :: i == j)
    && (Running(s.op) <==> exists i :: Between(s, i))
    && (forall i | Between(s, i) :: s.op.ty == KindOf(s, i))
  }

  /** What the wakeup argument needs to know about each worker. */
  ghost predicate Accounted(s: State, id: nat)
    requires id in s.workers
  {
    var w := s.workers[id];
    && (id in s.calls <==> s.pc != Returning(id))
    && (w.phase in {Working, Returned} && id in s.calls ==> s.calls[id] == s.op.err)
    && (w.phase == ReadError ==> w.seen == s.op.err)
    && (w.phase !in {Working, Returned} && w.seen.Some? && w.result.Some? ==>
          if id in s.calls then s.calls[id].Some? else s.op.err.Some?)
    && (w.phase == Notified ==> w.requested == (w.result.None? || w.seen.None?))
  }

  ghost predicate Inv(s: State) {
    && OneWorker(s)
    && (s.pc in {Checked, Observing} ==> !Running(s.op))
    && (s.pc.Starting? ==> s.pc.id !in s.workers && s.pc.id !in s.calls)
    && (s.pc.Returning? ==> s.pc.id in s.workers && forall i | Between(s, i) :: i == s.pc.id)
    && (forall id <- s.calls :: id in s.workers)
    && (forall id <- s.workers :: Accounted(s, id))
  }

  /** Only MarkStart opens an interval and only MarkEnd closes one. */
  lemma BetweenStep(framework: bool, s: State, a: Action, t: State, i: nat)
    requires Inv(s) && Next(framework, s, a, t)
    ensures match a
            case MarkStart(_, id, _) =>
              Between(t, i) <==> if Running(s.op) then Between(s, i) else i == id
            case MarkEnd(id, _) => !Between(t, i)
            case _ => Between(t, i) <==> Between(s, i)
  {
    hide Accounted, Running;
    match a
    case MarkStart(_, _, _) =>
      assert !Running(s.op) ==> !Between(s, i);
    case MarkEnd(id, _) =>
      assert Between(s, id);
      assert s.pc.Starting? ==> Between(s, s.pc.id);
      assert Between(s, i) ==> i == id;
    case _ =>
  }

  lemma OneWorkerStep(framework: bool, s: State, a: Action, t: State)
    requires Inv(s) && Next(framework, s, a, t)
    ensures OneWorker(t)
  {
    hide Accounted;
    forall i ensures match a
                     case MarkStart(_, id, _) =>
                       Between(t, i) <==> if Running(s.op) then Between(s, i) else i == id
                     case MarkEnd(id, _) => !Between(t, i)
                     case _ => Between(t, i) <==> Between(s, i)
    {
      BetweenStep(framework, s, a, t, i);
    }
    if a.MarkStart? {
      assert !Running(s.op) ==> Between(t, a.id);
    }
  }

  /** While a worker has yet to record its result, or the call that started it to return, nobody else touches the
      recorded error. */
  lemma ErrorKept(framework: bool, s: State, a: Action, t: State, id: nat)
    requires Inv(s) && Next(framework, s, a, t) && a != RecordError(id) && id in s.workers
    requires s.workers[id].phase in {Working, Returned, ReadError} || s.pc == Returning(id)
    ensures t.op.err == s.op.err
  {
    hide Accounted, Running;
    assert s.workers[id].phase in {Working, Returned, ReadError} ==> Between(s, id);
    assert a.RecordError? ==> Between(s, a.id);
  }

  /** The steps of a worker itself. */
  predicate Own(a: Action, id: nat) {
    match a
    case ProviderReturns(i, _) => i == id
    case ReadCachedError(i) => i == id
    case RecordError(i) => i == id
    case MarkEnd(i, _) => i == id
    case Notify(i) => i == id
    case _ => false
  }

  lemma AccountedOwn(framework: bool, s: State, a: Action, t: State, id: nat)
    requires Inv(s) && Next(framework, s, a, t) && Own(a, id) && id in s.workers
    ensures Accounted(t, id)
  {
    hide Running, OneWorker;
    assert Accounted(s, id);
    if a != RecordError(id) && (s.workers[id].phase in {Working, Returned, ReadError} || s.pc == Returning(id)) {
      ErrorKept(framework, s, a, t, id);
    }
  }

  lemma AccountedElse(framework: bool, s: State, a: Action, t: State, id: nat)
    requires Inv(s) && Next(framework, s, a, t) && !Own(a, id) && id in t.workers
    ensures Accounted(t, id)
  {
    hide Running, OneWorker, MarkedStart, MarkedEnd, Cleared;
    if id in s.workers {
      assert Accounted(s, id);
      if s.workers[id].phase in {Working, Returned, ReadError} || s.pc == Returning(id) {
        ErrorKept(framework, s, a, t, id);
      }
    }
  }

  lemma AccountedStep(framework: bool, s: State, a: Action, t: State, id: nat)
    requires Inv(s) && Next(framework, s, a, t) && id in t.workers
    ensures Accounted(t, id)
  {
    if Own(a, id) {
      AccountedOwn(framework, s, a, t, id);
    } else {
      AccountedElse(framework, s, a, t, id);
    }
  }

  lemma InvStep(framework: bool, s: State, a: Action, t: State)
    requires Inv(s) && Next(framework, s, a, t)
    ensures Inv(t)
  {
    OneWorkerStep(framework, s, a, t);
    forall i | t.pc.Returning? && Between(t, i)
      ensures i == t.pc.id
    {
      BetweenStep(framework, s, a, t, i);
      assert a == Spawn ==> Between(s, s.pc.id);
    }
    forall id <- t.workers
      ensures Accounted(t, id)
    {
      AccountedStep(framework, s, a, t, id);
    }
  }

  lemma {:induction false} InvariantHolds(framework: bool, run: seq<State>, actions: seq<Action>, n: nat)
    requires IsRun(framework, run, actions) && n < |run|
    ensures Inv(run[n])
    decreases n
  {
    if n > 0 {
      InvariantHolds(framework, run, actions, n - 1);
      InvStep(framework, run[n - 1], actions[n - 1], run[n]);
    }
  }

  // ------------------------------------------------------------------- the laws

  /** In every reachable state IsRunning holds exactly when one worker is between its MarkStart and
      its MarkEnd, there are never two, the recorded type is its kind, and a call that is refused
      or computes a deadline finds a start time to read. */
  lemma RunningMeansOneWorker(framework: bool, run: seq<State>, actions: seq<Action>, n: nat)
    requires IsRun(framework, run, actions) && n < |run|
    ensures var s := run[n];
            && (Running(s.op) <==> exists i :: Between(s, i))
            && (forall i, j | Between(s, i) && Between(s, j) :: i == j)
            && (forall i | Between(s, i) :: s.op.ty == KindOf(s, i) && s.op.startTime.Some?)
  {
    InvariantHolds(framework, run, actions, n);
  }

  /** No two provider calls of one resource overlap: workers exclude each other, and the
      reconciler's own external observation runs only while no worker is active. */
  lemma ProviderCallsExclude(framework: bool, run: seq<State>, actions: seq<Action>, n: nat, i: nat, j: nat)
    requires IsRun(framework, run, actions) && n < |run|
    requires InPhase(run[n], i, Working)
    ensures InPhase(run[n], j, Working) ==> i == j
    ensures run[n].pc != Observing
  {
    InvariantHolds(framework, run, actions, n);
    assert Between(run[n], i);
    assert InPhase(run[n], j, Working) ==> Between(run[n], j);
  }

  /** No lost wakeup: a worker that has notified was started by a call that returned or is about
      to; unless its callback requested a reconcile, the error that call returns is not nil. */
  lemma NoLostWakeup(framework: bool, run: seq<State>, actions: seq<Action>, n: nat, id: nat)
    requires IsRun(framework, run, actions) && n < |run| && InPhase(run[n], id, Notified)
    ensures var s := run[n];
            && (id in s.calls || s.pc == Returning(id))
            && (s.workers[id].requested ||
                (if id in s.calls then s.calls[id].Some? else s.op.err.Some?))
  {
    InvariantHolds(framework, run, actions, n);
    assert Accounted(run[n], id);
  }

  /** The steps that may replace or drop a recorded error. */
  predicate TouchesError(a: Action) {
    a.RecordError? || a == FinishObserve(true)
  }

  /** A recorded failure survives until a later worker records its own result or an Observe
      finds the resource existing, up to date and not deleted. */
  lemma {:induction false} FailureSurvives(framework: bool, run: seq<State>, actions: seq<Action>, i: nat, j: nat)
    requires IsRun(framework, run, actions) && i <= j < |run|
    requires run[i].op.err.Some?
    ensures run[j].op.err == run[i].op.err || exists k | i <= k < j :: TouchesError(actions[k])
    decreases j - i
  {
    if i < j {
      FailureSurvives(framework, run, actions, i, j - 1);
      assert Next(framework, run[j - 1], actions[j - 1], run[j]);
      if run[j].op.err != run[j - 1].op.err {
        assert TouchesError(actions[j - 1]);
      }
    }
  }

  /** Past recording its result, a worker stays past it and keeps it. */
  lemma RecordedStays(framework: bool, s: State, a: Action, t: State, id: nat)
    requires Inv(s) && Next(framework, s, a, t)
    requires id in s.workers && s.workers[id].phase in {RecordedError, Finished, Notified}
    ensures id in t.workers && t.workers[id].phase in {RecordedError, Finished, Notified}
    ensures t.workers[id].result == s.workers[id].result
  {}

  /** Until another result is recorded or a good observation clears it, the error a reader of the operation finds is
      what the provider call of the last worker to record ended with: none if it succeeded. */
  lemma {:induction false} RecordedResult(framework: bool, run: seq<State>, actions: seq<Action>, i: nat, j: nat,
                                          id: nat)
    requires IsRun(framework, run, actions) && i < j < |run| && actions[i] == RecordError(id)
    requires forall k | i < k < j :: !TouchesError(actions[k])
    ensures id in run[j].workers && run[j].workers[id].phase in {RecordedError, Finished, Notified}
    ensures run[j].op.err == run[j].workers[id].result
    decreases j
  {
    var s, a, t := run[j - 1], actions[j - 1], run[j];
    InvariantHolds(framework, run, actions, j - 1);
    assert Next(framework, s, a, t);
    if i < j - 1 {
      RecordedResult(framework, run, actions, i, j - 1, id);
      RecordedStays(framework, s, a, t, id);
    }
  }

  /** A Delete that starts no worker finds one: a delete worker is active or has marked its end. */
  predicate DeleteEnded(s: State) {
    exists id <- s.workers :: s.workers[id].kind == DELETE && s.workers[id].phase in {Finished, Notified}
  }

  lemma DeleteEndedStays(framework: bool, s: State, a: Action, t: State)
    requires Inv(s) && Next(framework, s, a, t) && DeleteEnded(s)
    ensures DeleteEnded(t)
  {
    var d :| d in s.workers && s.workers[d].kind == DELETE && s.workers[d].phase in {Finished, Notified};
    assert d in t.workers && t.workers[d].kind == DELETE && t.workers[d].phase in {Finished, Notified};
  }

  lemma {:induction false} SkippedDeleteIsCovered(framework: bool, run: seq<State>, actions: seq<Action>, n: nat)
    requires IsRun(framework, run, actions) && n < |run| && run[n].op.ty == DELETE
    ensures Running(run[n].op) || DeleteEnded(run[n])
    decreases n
  {
    if n > 0 {
      InvariantHolds(framework, run, actions, n - 1);
      var s, a, t := run[n - 1], actions[n - 1], run[n];
      assert Next(framework, s, a, t);
      if a.MarkEnd? {
        assert Between(s, a.id);
        assert t.workers[a.id].kind == DELETE && t.workers[a.id].phase == Finished;
      } else if !Running(t.op) {
        SkippedDeleteIsCovered(framework, run, actions, n - 1);
        DeleteEndedStays(framework, s, a, t);
      }
    }
  }
}
