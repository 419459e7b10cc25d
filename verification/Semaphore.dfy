/**
 The semaphore that tasks run under: a pool of workers, a slot channel that bounds how many run at once, and a main loop
 that publishes results. Every goroutine is a program counter; a step is one shared-memory action.
 */
module Semaphore {
  import opened Counting
  import opened Wrappers

  datatype Error = TaskError(task: nat) | PublishError(task: nat) | Cancelled

  /** Where a worker goroutine stands; each constructor names the action it performs next. */
  datatype Pc =
    | AwaitInit   // receive from initCtxCh
    | Acquire     // select between errNotifyCh and sending to limitCh (bounded pools only)
    | Recheck     // non-blocking look at errNotifyCh
    | Running     // inside the function that was scheduled
    | Offering    // select between sending to publishCh and errNotifyCh
    | Releasing   // deferred receive from limitCh
    | Finishing   // deferred doneWg.Done()
    | Ended

  /** What the scheduled function has returned so far. */
  datatype Body = NotRun | Failed | NilPublish | HasPublish

  datatype Worker = Worker(pc: Pc, holdsSlot: bool, body: Body)

  datatype Main =
    | Idle                          // before Run
    | Selecting                     // in the select of Run
    | Publishing(task: nat)         // running a publish function
    | Published(task: nat, ok: bool)// the publish returned, its deferred Done has run
    | Closing(error: Error)         // about to close errNotifyCh
    | Returned(result: Option<Error>)

  /** The goroutine that waits for doneWg and closes doneCh. */
  datatype Waiter = NotStarted | Waiting | Woken | Gone

  datatype LogEntry = LogEntry(task: nat, ok: bool)

  datatype State = State(
    limit: Option<nat>,             // capacity of limitCh; None when limitCh is nil
    workers: seq<Worker>,           // one per Schedule call, never removed
    slots: nat,                     // items in limitCh
    doneWg: int,
    errCh: Option<Error>,
    initClosed: bool,
    errNotifyClosed: bool,
    doneClosed: bool,
    ctxDone: bool,
    main: Main,
    waiter: Waiter,
    log: seq<LogEntry>)             // publishes run on the main goroutine, in order

  /** New: a negative limit means an unbounded pool. */
  function New(limit: int): State {
    State(if limit >= 0 then Some(limit) else None, [], 0, 0, None, false, false, false, false, Idle, NotStarted, [])
  }

  /** One shared-memory action of a worker goroutine. */
  datatype Action =
    | PassInit
    | AcquireSlot
    | AcquireAbort
    | RecheckPass
    | RecheckAbort
    | TaskFails
    | TaskReturnsNil
    | TaskReturnsPublish
    | SendPublish
    | OfferAbort
    | Release
    | Finish

  datatype Step =
    | ScheduleBeforeRun
    | ScheduleFromTask(i: nat)
    | ScheduleFromPublish
    | StartRun
    | Cancel
    | Act(i: nat, action: Action)
    | PublishReturns(ok: bool)
    | AfterPublish
    | TakeDone
    | TakeError
    | TakeCancel
    | CloseNotify
    | WaiterWakes
    | WaiterCloses

  /** The program counter at which an action is taken. */
  function From(a: Action): Pc {
    match a
    case PassInit => AwaitInit
    case AcquireSlot => Acquire
    case AcquireAbort => Acquire
    case RecheckPass => Recheck
    case RecheckAbort => Recheck
    case TaskFails => Running
    case TaskReturnsNil => Running
    case TaskReturnsPublish => Running
    case SendPublish => Offering
    case OfferAbort => Offering
    case Release => Releasing
    case Finish => Finishing
  }

  predicate CanAct(s: State, a: Action) {
    match a
    case PassInit => s.initClosed
    case AcquireSlot => s.limit.Some? && s.slots < s.limit.value
    case AcquireAbort => s.errNotifyClosed
    case RecheckPass => !s.errNotifyClosed
    case RecheckAbort => s.errNotifyClosed
    case SendPublish => s.main == Selecting
    case OfferAbort => s.errNotifyClosed
    case Release => s.limit.Some? ==> s.slots > 0
    case _ => true
  }

  predicate Enabled(s: State, step: Step) {
    match step
    case ScheduleBeforeRun => s.main == Idle
    case ScheduleFromTask(i) => i < |s.workers| && s.workers[i].pc == Running
    case ScheduleFromPublish => s.main.Publishing?
    case StartRun => s.main == Idle
    case Cancel => s.main != Idle && !s.ctxDone
    case Act(i, a) => i < |s.workers| && s.workers[i].pc == From(a) && CanAct(s, a)
    case PublishReturns(_) => s.main.Publishing?
    case AfterPublish => s.main.Published?
    case TakeDone => s.main == Selecting && s.doneClosed
    case TakeError => s.main == Selecting && s.errCh.Some?
    case TakeCancel => s.main == Selecting && s.ctxDone
    case CloseNotify => s.main.Closing?
    case WaiterWakes => s.waiter == Waiting && s.doneWg == 0
    case WaiterCloses => s.waiter == Woken
  }

  const NEW_WORKER := Worker(AwaitInit, false, NotRun)

  function Spawn(s: State): State {
    s.(workers := s.workers + [NEW_WORKER], doneWg := s.doneWg + 1)
  }

  /** The worker after its action. */
  function Moved(w: Worker, a: Action, bounded: bool): Worker {
    match a
    case PassInit => w.(pc := if bounded then Acquire else Recheck)
    case AcquireSlot => w.(pc := Recheck, holdsSlot := true)
    case AcquireAbort => w.(pc := Finishing)
    case RecheckPass => w.(pc := Running)
    case RecheckAbort => w.(pc := Releasing)
    case TaskFails => w.(pc := Releasing, body := Failed)
    case TaskReturnsNil => w.(pc := Releasing, body := NilPublish)
    case TaskReturnsPublish => w.(pc := Offering, body := HasPublish)
    case SendPublish => w.(pc := Releasing)
    case OfferAbort => w.(pc := Releasing)
    case Release => w.(pc := Finishing, holdsSlot := false)
    case Finish => w.(pc := Ended)
  }

  function WgAfter(doneWg: int, a: Action): int {
    match a
    case TaskReturnsPublish => doneWg + 1
    case OfferAbort => doneWg - 1
    case Finish => doneWg - 1
    case _ => doneWg
  }

  function SlotsAfter(s: State, a: Action): nat
    requires CanAct(s, a)
  {
    if a == AcquireSlot then s.slots + 1
    else if a == Release && s.limit.Some? then s.slots - 1
    else s.slots
  }

  function ActOn(s: State, i: nat, a: Action): State
    requires i < |s.workers| && CanAct(s, a)
  {
    s.(workers := s.workers[i := Moved(s.workers[i], a, s.limit.Some?)],
       doneWg := WgAfter(s.doneWg, a),
       slots := SlotsAfter(s, a),
       errCh := if a == TaskFails && s.errCh.None? then Some(TaskError(i)) else s.errCh,
       main := if a == SendPublish then Publishing(i) else s.main)
  }

  function Apply(s: State, step: Step): State
    requires Enabled(s, step)
  {
    match step
    case ScheduleBeforeRun => Spawn(s)
    case ScheduleFromTask(_) => Spawn(s)
    case ScheduleFromPublish => Spawn(s)
    case StartRun => s.(initClosed := true, main := Selecting, waiter := Waiting)
    case Cancel => s.(ctxDone := true)
    case Act(i, a) => ActOn(s, i, a)
    case PublishReturns(ok) =>
      s.(main := Published(s.main.task, ok), doneWg := s.doneWg - 1, log := s.log + [LogEntry(s.main.task, ok)])
    case AfterPublish =>
      s.(main := if s.main.ok then Selecting else Closing(PublishError(s.main.task)))
    case TakeDone => s.(main := Returned(None))
    case TakeError => s.(main := Closing(s.errCh.value), errCh := None)
    case TakeCancel => s.(main := Closing(Cancelled))
    case CloseNotify => s.(errNotifyClosed := true, main := Returned(Some(s.main.error)))
    case WaiterWakes => s.(waiter := Woken)
    case WaiterCloses => s.(waiter := Gone, doneClosed := true)
  }

  /** Steps that add a worker. */
  predicate Schedules(step: Step) {
    step.ScheduleBeforeRun? || step.ScheduleFromTask? || step.ScheduleFromPublish?
  }

  /** Steps the pool takes on its own: not the caller's, not inside a task or publish body. */
  predicate Library(step: Step) {
    && !Schedules(step)
    && !(step.StartRun? || step.Cancel?)
    && !step.PublishReturns?
    && !(step.Act? && From(step.action) == Running)
  }

  // ---------- Runs ----------

  ghost predicate IsRun(limit: int, states: seq<State>, steps: seq<Step>) {
    && |states| == |steps| + 1
    && states[0] == New(limit)
    && forall k :: 0 <= k < |steps| ==> Enabled(states[k], steps[k]) && states[k + 1] == Apply(states[k], steps[k])
  }

  // ---------- The invariant ----------

  function Live(w: Worker): nat { if w.pc == Ended then 0 else 1 }
  function Offers(w: Worker): nat { if w.pc == Offering then 1 else 0 }
  function Holds(w: Worker): nat { if w.holdsSlot then 1 else 0 }

  predicate PastOffer(w: Worker) { w.pc == Releasing || w.pc == Finishing || w.pc == Ended }

  predicate WorkerOk(s: State, w: Worker) {
    && (w.holdsSlot <==> s.limit.Some? && w.pc in {Recheck, Running, Offering, Releasing})
    && (w.pc == Acquire ==> s.limit.Some?)
    && (w.pc in {AwaitInit, Acquire, Recheck, Running} ==> w.body == NotRun)
    && (w.pc == Offering ==> w.body == HasPublish)
    && (w.pc != AwaitInit ==> s.initClosed)
    && (PastOffer(w) && w.body == NotRun ==> s.errNotifyClosed)
  }

  ghost function Tasks(log: seq<LogEntry>): set<nat> {
    set k | 0 <= k < |log| :: log[k].task
  }

  /** Whether task i's publish is in the log. */
  ghost predicate Logged(s: State, i: nat) {
    i in Tasks(s.log)
  }

  /** Whether the main goroutine is inside task i's publish. */
  predicate InPublish(s: State, i: nat) {
    s.main == Publishing(i)
  }

  predicate Stopping(s: State) {
    s.main.Closing? || s.errNotifyClosed
  }

  /** doneWg counts the live workers plus the publishes offered or running. */
  predicate Counts(s: State) {
    && s.doneWg == Sum(Live, s.workers) + Sum(Offers, s.workers) + (if s.main.Publishing? then 1 else 0)
    && s.slots == Sum(Holds, s.workers)
    && (s.limit.Some? ==> s.slots <= s.limit.value)
  }

  predicate MainOk(s: State) {
    && (s.initClosed <==> s.main != Idle)
    && (s.waiter == NotStarted <==> s.main == Idle)
    && (s.errNotifyClosed <==> s.main.Returned? && s.main.result.Some?)
    && (s.doneClosed <==> s.waiter == Gone)
    && (s.waiter == Woken || s.waiter == Gone ==> s.doneWg == 0)
    && (s.main == Returned(None) ==> s.doneClosed)
    && (s.main.Publishing? || s.main.Published? ==> s.main.task < |s.workers|)
  }

  /** Tasks publish once, and a failed publish is the last thing before stopping. */
  ghost predicate EntriesOk(s: State) {
    && (forall j, k :: 0 <= j < k < |s.log| ==> s.log[j].task != s.log[k].task)
    && (forall k :: 0 <= k < |s.log| ==> s.log[k].task < |s.workers|)
    && (forall k :: 0 <= k < |s.log| && !s.log[k].ok ==>
          s.main == Published(s.log[k].task, false) || Stopping(s))
    && (s.main.Published? ==> |s.log| > 0 && s.log[|s.log| - 1] == LogEntry(s.main.task, s.main.ok))
  }

  /** Task i has published, or is publishing, only what it had to publish; and has done so once past offering it, unless aborted. */
  ghost predicate PublishOk(s: State, i: nat)
    requires i < |s.workers|
  {
    && (Logged(s, i) ==> s.workers[i].body == HasPublish && PastOffer(s.workers[i]) && !InPublish(s, i))
    && (InPublish(s, i) ==> s.workers[i].body == HasPublish && PastOffer(s.workers[i]))
    && (!s.errNotifyClosed && s.workers[i].body == HasPublish && PastOffer(s.workers[i]) ==> Logged(s, i) || InPublish(s, i))
  }

  ghost predicate LogOk(s: State) {
    EntriesOk(s) && forall i :: 0 <= i < |s.workers| ==> PublishOk(s, i)
  }

  /** An error sits in errCh unless it was taken, which stops the pool. */
  ghost predicate ErrorsOk(s: State) {
    && (s.errCh.Some? ==> exists i :: 0 <= i < |s.workers| && s.workers[i].body == Failed)
    && (!Stopping(s) && s.errCh.None? ==> forall i :: 0 <= i < |s.workers| ==> s.workers[i].body != Failed)
  }

  ghost predicate Inv(s: State) {
    && (forall i :: 0 <= i < |s.workers| ==> WorkerOk(s, s.workers[i]))
    && Counts(s)
    && MainOk(s)
    && LogOk(s)
    && ErrorsOk(s)
  }

  lemma {:induction false} ActKeepsWorkers(s: State, i: nat, a: Action)
    requires Inv(s) && Enabled(s, Act(i, a))
    ensures forall j :: 0 <= j < |s.workers| ==> WorkerOk(ActOn(s, i, a), ActOn(s, i, a).workers[j])
  {
    assert WorkerOk(s, s.workers[i]);
  }

  /** How an action changes what a worker counts for. */
  lemma {:induction false} MovedCounts(s: State, w: Worker, a: Action)
    requires w.pc == From(a) && CanAct(s, a) && WorkerOk(s, w)
    ensures var w' := Moved(w, a, s.limit.Some?);
            && Live(w') - Live(w) == (if a == Finish then -1 else 0)
            && Offers(w') - Offers(w) == (if a == TaskReturnsPublish then 1 else if a == SendPublish || a == OfferAbort then -1 else 0)
            && Holds(w') - Holds(w) == SlotsAfter(s, a) - s.slots
  {
  }

  lemma {:induction false} ActCounts(s: State, i: nat, a: Action)
    requires Counts(s) && Enabled(s, Act(i, a)) && WorkerOk(s, s.workers[i])
    ensures Counts(ActOn(s, i, a))
  {
    hide Sum, Moved, WorkerOk, Live, Offers, Holds;
    var w := Moved(s.workers[i], a, s.limit.Some?);
    MovedCounts(s, s.workers[i], a);
    SumUpdate(Live, s.workers, i, w);
    SumUpdate(Offers, s.workers, i, w);
    SumUpdate(Holds, s.workers, i, w);
  }

  lemma {:induction false} SpawnKeepsLog(s: State)
    requires MainOk(s) && LogOk(s)
    ensures LogOk(Spawn(s))
  {
    var t := Spawn(s);
    assert forall i :: 0 <= i < |s.workers| ==> t.workers[i] == s.workers[i];
    forall i | 0 <= i < |t.workers| ensures PublishOk(t, i) {
      assert i < |s.workers| ==> PublishOk(s, i);
    }
  }

  lemma {:induction false} SpawnKeepsErrors(s: State)
    requires ErrorsOk(s)
    ensures ErrorsOk(Spawn(s))
  {
    var t := Spawn(s);
    assert forall i :: 0 <= i < |s.workers| ==> t.workers[i] == s.workers[i];
    if s.errCh.Some? {
      var i :| 0 <= i < |s.workers| && s.workers[i].body == Failed;
      assert t.workers[i].body == Failed;
    }
  }

  lemma {:induction false} SpawnCounts(s: State)
    requires Counts(s)
    ensures Counts(Spawn(s))
  {
    SumAppend(Live, s.workers, NEW_WORKER);
    SumAppend(Offers, s.workers, NEW_WORKER);
    SumAppend(Holds, s.workers, NEW_WORKER);
  }

  lemma {:induction false} SpawnKeepsWorkers(s: State)
    requires forall i :: 0 <= i < |s.workers| ==> WorkerOk(s, s.workers[i])
    ensures forall i :: 0 <= i < |Spawn(s).workers| ==> WorkerOk(Spawn(s), Spawn(s).workers[i])
  {
    assert forall i :: 0 <= i < |s.workers| ==> WorkerOk(s, s.workers[i]);
  }

  lemma {:induction false} SpawnKeepsInv(s: State)
    requires Inv(s)
    requires s.waiter != Woken && s.waiter != Gone
    ensures Inv(Spawn(s))
  {
    hide WorkerOk, Counts, LogOk, ErrorsOk;
    SpawnKeepsWorkers(s);
    SpawnKeepsLog(s);
    SpawnKeepsErrors(s);
    SpawnCounts(s);
  }

  /** A worker that has not ended keeps doneWg above zero, so the waiter has not woken. */
  lemma {:induction false} LiveBlocksWaiter(s: State, i: nat)
    requires Inv(s) && i < |s.workers| && s.workers[i].pc != Ended
    ensures s.doneWg > 0 && s.waiter != Woken && s.waiter != Gone
  {
    SumAtLeast(Live, s.workers, i);
  }

  lemma {:induction false} ActKeepsMain(s: State, i: nat, a: Action)
    requires Inv(s) && Enabled(s, Act(i, a))
    ensures MainOk(ActOn(s, i, a))
  {
    LiveBlocksWaiter(s, i);
  }

  lemma {:induction false} SendKeepsLog(s: State, i: nat)
    requires LogOk(s) && MainOk(s) && Enabled(s, Act(i, SendPublish)) && WorkerOk(s, s.workers[i])
    ensures LogOk(ActOn(s, i, SendPublish))
  {
    var t := ActOn(s, i, SendPublish);
    assert PublishOk(s, i);
    forall j | 0 <= j < |t.workers| ensures PublishOk(t, j) {
      assert PublishOk(s, j);
    }
  }

  lemma {:induction false} ActKeepsLog(s: State, i: nat, a: Action)
    requires LogOk(s) && MainOk(s) && Enabled(s, Act(i, a)) && WorkerOk(s, s.workers[i])
    requires a != SendPublish
    ensures LogOk(ActOn(s, i, a))
  {
    var t := ActOn(s, i, a);
    ActKeepsEntries(s, i, a);
    ActKeepsPublish(s, i, a);
    assert t.main == s.main && t.log == s.log && t.errNotifyClosed == s.errNotifyClosed && forall j :: 0 <= j < |s.workers| && j != i ==> t.workers[j] == s.workers[j];
    hide EntriesOk, ActOn, Enabled, WorkerOk;
    forall j | 0 <= j < |t.workers| ensures PublishOk(t, j) {
      assert PublishOk(s, j);
    }
  }

  lemma {:induction false} ActKeepsEntries(s: State, i: nat, a: Action)
    requires EntriesOk(s) && Enabled(s, Act(i, a)) && a != SendPublish
    ensures EntriesOk(ActOn(s, i, a))
  {
  }

  /** A worker's own step does not change what it has published. */
  lemma {:induction false} ActKeepsPublish(s: State, i: nat, a: Action)
    requires Enabled(s, Act(i, a)) && PublishOk(s, i) && WorkerOk(s, s.workers[i]) && (s.errNotifyClosed ==> s.main.Returned?)
    requires a != SendPublish
    ensures PublishOk(ActOn(s, i, a), i)
  {
  }

  lemma {:induction false} ActKeepsErrors(s: State, i: nat, a: Action)
    requires Inv(s) && Enabled(s, Act(i, a))
    ensures ErrorsOk(ActOn(s, i, a))
  {
    var t := ActOn(s, i, a);
    assert WorkerOk(s, s.workers[i]);
    if a == TaskFails {
      assert t.workers[i].body == Failed;
    } else if s.errCh.Some? {
      var j :| 0 <= j < |s.workers| && s.workers[j].body == Failed;
      assert t.workers[j].body == Failed;
    }
  }

  lemma {:induction false} ActKeepsInv(s: State, i: nat, a: Action)
    requires Inv(s) && Enabled(s, Act(i, a))
    ensures Inv(ActOn(s, i, a))
  {
    assert WorkerOk(s, s.workers[i]);
    ActKeepsWorkers(s, i, a);
    ActCounts(s, i, a);
    ActKeepsMain(s, i, a);
    if a == SendPublish {
      SendKeepsLog(s, i);
    } else {
      ActKeepsLog(s, i, a);
    }
    ActKeepsErrors(s, i, a);
  }

  lemma {:induction false} TasksAppend(log: seq<LogEntry>, entry: LogEntry)
    ensures Tasks(log + [entry]) == Tasks(log) + {entry.task}
  {
    var all := log + [entry];
    assert all[|log|] == entry;
    forall k | 0 <= k < |log| ensures log[k].task in Tasks(all) {
      assert all[k] == log[k];
    }
  }

  lemma {:induction false} PublishKeepsLog(s: State, ok: bool)
    requires LogOk(s) && MainOk(s) && Enabled(s, PublishReturns(ok))
    ensures LogOk(Apply(s, PublishReturns(ok)))
  {
    var t := Apply(s, PublishReturns(ok));
    TasksAppend(s.log, LogEntry(s.main.task, ok));
    assert PublishOk(s, s.main.task);
    forall i | 0 <= i < |t.workers| ensures PublishOk(t, i) {
      assert PublishOk(s, i);
    }
    EntryNew(s);
  }

  lemma {:induction false} EntryNew(s: State)
    requires EntriesOk(s) && s.main.Publishing? && !Logged(s, s.main.task)
    ensures forall j :: 0 <= j < |s.log| ==> s.log[j].task != s.main.task
  {
    forall j | 0 <= j < |s.log| ensures s.log[j].task != s.main.task {
      assert Logged(s, s.log[j].task);
    }
  }

  lemma {:induction false} PublishKeepsErrors(s: State, ok: bool)
    requires ErrorsOk(s) && Enabled(s, PublishReturns(ok))
    ensures ErrorsOk(Apply(s, PublishReturns(ok)))
  {
    var t := Apply(s, PublishReturns(ok));
    if s.errCh.Some? {
      var j :| 0 <= j < |s.workers| && s.workers[j].body == Failed;
      assert t.workers[j].body == Failed;
    }
  }

  lemma {:induction false} PublishKeepsInv(s: State, ok: bool)
    requires Inv(s) && Enabled(s, PublishReturns(ok))
    ensures Inv(Apply(s, PublishReturns(ok)))
  {
    hide LogOk, ErrorsOk;
    var t := Apply(s, PublishReturns(ok));
    PublishKeepsLog(s, ok);
    PublishKeepsErrors(s, ok);
    assert forall i :: 0 <= i < |s.workers| ==> WorkerOk(s, s.workers[i]) && WorkerOk(t, s.workers[i]);
  }

  /** The steps of the main goroutine, the waiter and the caller that add no worker and run no publish. */
  predicate OnMain(step: Step) {
    !step.Act? && !Schedules(step) && !step.PublishReturns?
  }

  lemma {:induction false} MainStepKeepsLog(s: State, step: Step)
    requires MainOk(s) && LogOk(s) && Enabled(s, step) && OnMain(step)
    ensures LogOk(Apply(s, step))
  {
    var t := Apply(s, step);
    assert t.workers == s.workers && t.log == s.log && (t.main.Publishing? || s.main.Publishing? ==> t.main == s.main);
    forall i | 0 <= i < |t.workers| ensures PublishOk(t, i) {
      assert PublishOk(s, i);
    }
  }

  lemma {:induction false} MainStepKeepsErrors(s: State, step: Step)
    requires MainOk(s) && ErrorsOk(s) && Enabled(s, step) && OnMain(step)
    ensures ErrorsOk(Apply(s, step))
  {
    var t := Apply(s, step);
    if t.errCh.Some? {
      var j :| 0 <= j < |s.workers| && s.workers[j].body == Failed;
      assert t.workers[j].body == Failed;
    }
  }

  lemma {:induction false} MainStepKeepsMain(s: State, step: Step)
    requires MainOk(s) && Enabled(s, step) && OnMain(step) && (s.doneClosed || s.waiter == Woken ==> s.doneWg == 0)
    ensures MainOk(Apply(s, step))
  {
  }

  lemma {:induction false} MainStepKeepsWorkers(s: State, step: Step)
    requires MainOk(s) && Enabled(s, step) && OnMain(step)
    requires forall i :: 0 <= i < |s.workers| ==> WorkerOk(s, s.workers[i])
    ensures forall i :: 0 <= i < |Apply(s, step).workers| ==> WorkerOk(Apply(s, step), Apply(s, step).workers[i])
  {
    var t := Apply(s, step);
    assert t.workers == s.workers && t.limit == s.limit && (s.initClosed ==> t.initClosed) && (s.errNotifyClosed ==> t.errNotifyClosed);
    hide Apply, Enabled, MainOk;
    forall i | 0 <= i < |t.workers| ensures WorkerOk(t, t.workers[i]) {
      assert WorkerOk(s, s.workers[i]);
      assert t.workers[i] == s.workers[i];
    }
  }

  lemma {:induction false} MainStepCounts(s: State, step: Step)
    requires Counts(s) && Enabled(s, step) && OnMain(step)
    ensures Counts(Apply(s, step))
  {
    hide Sum;
    assert Apply(s, step).workers == s.workers;
  }

  lemma {:induction false} MainStepKeepsInv(s: State, step: Step)
    requires Inv(s) && Enabled(s, step) && OnMain(step)
    ensures Inv(Apply(s, step))
  {
    hide LogOk, ErrorsOk, Counts, WorkerOk, Apply, Enabled;
    MainStepKeepsLog(s, step);
    MainStepKeepsErrors(s, step);
    MainStepKeepsMain(s, step);
    MainStepKeepsWorkers(s, step);
    MainStepCounts(s, step);
  }

  /** Every step keeps the invariant. */
  lemma {:induction false} StepKeepsInv(s: State, step: Step)
    requires Inv(s) && Enabled(s, step)
    ensures Inv(Apply(s, step))
  {
    match step
    case ScheduleBeforeRun => SpawnKeepsInv(s);
    case ScheduleFromTask(i) =>
      LiveBlocksWaiter(s, i);
      SpawnKeepsInv(s);
    case ScheduleFromPublish => SpawnKeepsInv(s);
    case Act(i, a) => ActKeepsInv(s, i, a);
    case PublishReturns(ok) => PublishKeepsInv(s, ok);
    case _ => MainStepKeepsInv(s, step);
  }

  lemma {:induction false} NewInv(limit: int)
    ensures Inv(New(limit))
  {
  }

  lemma {:induction false} StepKeepsLimit(s: State, step: Step)
    requires Enabled(s, step)
    ensures Apply(s, step).limit == s.limit
  {
  }

  /** The invariant holds in every state of every run. */
  lemma {:induction false} RunsKeepInv(limit: int, states: seq<State>, steps: seq<Step>, k: nat)
    requires IsRun(limit, states, steps) && k < |states|
    ensures Inv(states[k])
    ensures states[k].limit == New(limit).limit
  {
    hide Inv, Enabled, Apply;
    if k == 0 {
      NewInv(limit);
    } else {
      RunsKeepInv(limit, states, steps, k - 1);
      StepKeepsInv(states[k - 1], steps[k - 1]);
      StepKeepsLimit(states[k - 1], steps[k - 1]);
    }
  }

  // ---------- What Run promises ----------

  /**
   When Run returns nil, every task ever scheduled has run to its end, and the publishes run on the main
   goroutine are exactly those of those scheduled functions that returned one, each exactly once and each returning nil.
   */
  lemma {:induction false} NilMeansAllDone(limit: int, states: seq<State>, steps: seq<Step>, k: nat)
    requires IsRun(limit, states, steps) && k < |states|
    requires states[k].main == Returned(None)
    ensures var s := states[k];
      && (forall i :: 0 <= i < |s.workers| ==> s.workers[i].pc == Ended && s.workers[i].body != NotRun)
      && (forall i: nat :: Logged(s, i) <==> i < |s.workers| && s.workers[i].body == HasPublish)
      && (forall a, b :: 0 <= a < b < |s.log| ==> s.log[a].task != s.log[b].task)
      && (forall a :: 0 <= a < |s.log| ==> s.log[a].ok)
  {
    RunsKeepInv(limit, states, steps, k);
    var s := states[k];
    forall i | 0 <= i < |s.workers| ensures s.workers[i].pc == Ended && s.workers[i].body != NotRun {
      assert WorkerOk(s, s.workers[i]);
      if s.workers[i].pc != Ended {
        LiveBlocksWaiter(s, i);
      }
    }
    forall i: nat ensures Logged(s, i) <==> i < |s.workers| && s.workers[i].body == HasPublish {
      assert i < |s.workers| ==> PublishOk(s, i);
    }
  }

  /** After Run has returned nil nothing can be scheduled and no worker can move. */
  lemma {:induction false} NilIsFinal(limit: int, states: seq<State>, steps: seq<Step>, k: nat, step: Step)
    requires IsRun(limit, states, steps) && k < |states|
    requires states[k].main == Returned(None) && Enabled(states[k], step)
    ensures step == Cancel
  {
    RunsKeepInv(limit, states, steps, k);
    if step.Act? || step.ScheduleFromTask? {
      LiveBlocksWaiter(states[k], step.i);
    }
  }

  // ---------- What an error means ----------

  /** What has happened when Run returns an error. */
  ghost predicate Cause(s: State, e: Error) {
    match e
    case TaskError(i) => i < |s.workers| && s.workers[i].body == Failed
    case PublishError(i) => LogEntry(i, false) in s.log
    case Cancelled => s.ctxDone
  }

  /** The errors that wait in errCh, are about to be returned, or have been returned. */
  ghost predicate ErrorsCaused(s: State) {
    && (s.errCh.Some? ==> s.errCh.value.TaskError? && Cause(s, s.errCh.value))
    && (s.main.Closing? ==> Cause(s, s.main.error))
    && (s.main.Returned? && s.main.result.Some? ==> Cause(s, s.main.result.value))
  }

  /** Workers that have failed stay failed, publishes stay in the log, and a cancelled context stays cancelled. */
  lemma {:induction false} CauseStays(s: State, step: Step, e: Error)
    requires Inv(s) && Enabled(s, step) && Cause(s, e)
    ensures Cause(Apply(s, step), e)
  {
    hide Counts, MainOk, LogOk, ErrorsOk;
    if e.TaskError? {
      assert WorkerOk(s, s.workers[e.task]);
    } else if e.PublishError? {
      LogGrows(s, step, LogEntry(e.task, false));
    }
  }

  lemma {:induction false} LogGrows(s: State, step: Step, entry: LogEntry)
    requires Enabled(s, step) && entry in s.log
    ensures entry in Apply(s, step).log
  {
    var t := Apply(s, step);
    assert t.log == s.log || t.log == s.log + [t.log[|t.log| - 1]];
  }

  lemma {:induction false} StepErrorsCaused(s: State, step: Step)
    requires Inv(s) && Enabled(s, step) && ErrorsCaused(s)
    ensures ErrorsCaused(Apply(s, step))
  {
    var t := Apply(s, step);
    NewErrors(s, step);
    hide Apply, Enabled, Inv, Cause;
    if t.errCh.Some? && t.errCh == s.errCh {
      CauseStays(s, step, s.errCh.value);
    }
    if t.main.Closing? {
      if s.main == t.main {
        CauseStays(s, step, s.main.error);
      } else if s.errCh == Some(t.main.error) {
        CauseStays(s, step, s.errCh.value);
      }
    }
    if t.main.Returned? && t.main.result.Some? {
      CauseStays(s, step, t.main.result.value);
    }
  }

  /** Where the errors of the next state come from. */
  lemma {:induction false} NewErrors(s: State, step: Step)
    requires Inv(s) && Enabled(s, step)
    ensures var t := Apply(s, step);
            && (t.errCh.Some? ==> t.errCh == s.errCh || (t.errCh.value.TaskError? && Cause(t, t.errCh.value)))
            && (t.main.Closing? ==> t.main == s.main || s.errCh == Some(t.main.error) || Cause(t, t.main.error))
            && (t.main.Returned? && t.main.result.Some? ==> t.main == s.main || s.main == Closing(t.main.result.value))
  {
    hide Counts, ErrorsOk, WorkerOk;
    if step.AfterPublish? && !s.main.ok {
      assert s.log[|s.log| - 1] == LogEntry(s.main.task, false);
    }
  }

  /**
   In every state of every run: a task error that has been returned is that of a task that failed, a publish error that of a
   publish that returned one, and the cancellation error means that the context was done.
   */
  lemma {:induction false} ErrorMeans(limit: int, states: seq<State>, steps: seq<Step>, k: nat)
    requires IsRun(limit, states, steps) && k < |states|
    ensures ErrorsCaused(states[k])
    ensures var s := states[k];
      && (forall i: nat :: s.main == Returned(Some(TaskError(i))) ==> i < |s.workers| && s.workers[i].body == Failed)
      && (forall i: nat :: s.main == Returned(Some(PublishError(i))) ==> LogEntry(i, false) in s.log)
      && (s.main == Returned(Some(Cancelled)) ==> s.ctxDone)
  {
    if k > 0 {
      hide Inv, Enabled, Apply;
      ErrorMeans(limit, states, steps, k - 1);
      RunsKeepInv(limit, states, steps, k - 1);
      StepErrorsCaused(states[k - 1], steps[k - 1]);
    }
  }

  predicate Fails(step: Step, i: nat) {
    step == Act(i, TaskFails)
  }

  /** Task i is the first whose function returned an error. */
  ghost predicate FirstFailed(steps: seq<Step>, i: nat) {
    exists k :: 0 <= k < |steps| && Fails(steps[k], i) && forall j, h: nat :: 0 <= j < k ==> !Fails(steps[j], h)
  }

  ghost predicate SomeFailed(steps: seq<Step>) {
    exists k, i: nat :: 0 <= k < |steps| && Fails(steps[k], i)
  }

  /** While Run has not left its select for good, errCh holds the error of the first task that failed; after that Run has it, or another reason. */
  ghost predicate HoldsFirst(s: State, steps: seq<Step>) {
    && (!Leaving(s) && s.errCh.None? ==> !SomeFailed(steps))
    && (!Leaving(s) && s.errCh.Some? ==> s.errCh.value.TaskError? && FirstFailed(steps, s.errCh.value.task))
    && (s.main.Closing? && s.main.error.TaskError? ==> FirstFailed(steps, s.main.error.task))
    && (s.main.Returned? && s.main.result.Some? && s.main.result.value.TaskError? ==> FirstFailed(steps, s.main.result.value.task))
  }

  predicate Leaving(s: State) {
    s.main.Closing? || s.main.Returned?
  }

  lemma {:induction false} FirstStays(steps: seq<Step>, step: Step, i: nat)
    requires FirstFailed(steps, i)
    ensures FirstFailed(steps + [step], i)
  {
    var more := steps + [step];
    var k :| 0 <= k < |steps| && Fails(steps[k], i) && forall j, h: nat :: 0 <= j < k ==> !Fails(steps[j], h);
    assert Fails(more[k], i) && forall j, h: nat :: 0 <= j < k ==> !Fails(more[j], h);
  }

  lemma {:induction false} FailsNow(steps: seq<Step>, step: Step)
    requires !SomeFailed(steps)
    ensures forall i: nat :: Fails(step, i) ==> FirstFailed(steps + [step], i)
    ensures (forall i: nat :: !Fails(step, i)) ==> !SomeFailed(steps + [step])
  {
    var more := steps + [step];
    forall j, h: nat | 0 <= j < |steps| ensures !Fails(more[j], h) {
      assert !Fails(steps[j], h);
    }
    forall i: nat | Fails(step, i) ensures FirstFailed(more, i) {
      assert Fails(more[|steps|], i);
    }
    forall k, h: nat | 0 <= k < |more| && !Fails(step, h) ensures !Fails(more[k], h) {
      assert k < |steps| ==> !Fails(steps[k], h);
    }
  }

  lemma {:induction false} StepHoldsFirst(s: State, steps: seq<Step>, step: Step)
    requires Enabled(s, step) && HoldsFirst(s, steps)
    ensures HoldsFirst(Apply(s, step), steps + [step])
  {
    hide FirstFailed, SomeFailed;
    if !SomeFailed(steps) {
      FailsNow(steps, step);
    }
    forall i: nat | FirstFailed(steps, i) ensures FirstFailed(steps + [step], i) {
      FirstStays(steps, step, i);
    }
    assert step.Act? && step.action == TaskFails ==> Fails(step, step.i);
  }

  lemma {:induction false} RunHoldsFirst(limit: int, states: seq<State>, steps: seq<Step>, k: nat)
    requires IsRun(limit, states, steps) && k < |states|
    ensures HoldsFirst(states[k], steps[..k])
  {
    if k > 0 {
      RunHoldsFirst(limit, states, steps, k - 1);
      assert steps[..k] == steps[..k - 1] + [steps[k - 1]];
      hide HoldsFirst;
      StepHoldsFirst(states[k - 1], steps[..k - 1], steps[k - 1]);
    }
  }

  /** The task error that Run returns is that of the first task that failed. */
  lemma {:induction false} FirstFailureReturned(limit: int, states: seq<State>, steps: seq<Step>, k: nat, i: nat)
    requires IsRun(limit, states, steps) && k < |states| && states[k].main == Returned(Some(TaskError(i)))
    ensures FirstFailed(steps[..k], i)
  {
    RunHoldsFirst(limit, states, steps, k);
  }

  /** Once the select has stopped on an error or a cancellation and its notification is out, no scheduled function is started any more. */
  lemma {:induction false} NothingStartsAfterError(limit: int, states: seq<State>, steps: seq<Step>, k: nat, i: nat)
    requires IsRun(limit, states, steps) && k < |steps| && states[k].main.Returned? && i < |states[k].workers| && states[k].workers[i].pc != Running
    ensures i < |states[k + 1].workers| && states[k + 1].workers[i].pc != Running
  {
    RunsKeepInv(limit, states, steps, k);
    var s := states[k];
    NotifiedOrNil(s);
    hide Inv, Enabled, Apply;
    if s.main.result.None? {
      NilIsFinal(limit, states, steps, k, steps[k]);
      CancelKeepsWorkers(s);
    } else {
      StartsNone(s, steps[k], i);
    }
  }

  lemma {:induction false} NotifiedOrNil(s: State)
    requires Inv(s) && s.main.Returned?
    ensures s.main.result.None? || s.errNotifyClosed
  {
  }

  lemma {:induction false} CancelKeepsWorkers(s: State)
    requires Enabled(s, Cancel)
    ensures Apply(s, Cancel).workers == s.workers
  {
  }

  lemma {:induction false} StartsNone(s: State, step: Step, i: nat)
    requires Enabled(s, step) && s.errNotifyClosed && i < |s.workers| && s.workers[i].pc != Running
    ensures i < |Apply(s, step).workers| && Apply(s, step).workers[i].pc != Running
  {
  }

  /** Without a limit nobody ever waits for a slot. */
  lemma {:induction false} UnboundedNeverWaits(limit: int, states: seq<State>, steps: seq<Step>, k: nat, i: nat)
    requires IsRun(limit, states, steps) && k < |states| && limit < 0 && i < |states[k].workers|
    ensures states[k].workers[i].pc != Acquire && !states[k].workers[i].holdsSlot && states[k].limit == None
  {
    RunsKeepInv(limit, states, steps, k);
    assert WorkerOk(states[k], states[k].workers[i]);
  }

  /** A nil result hides a failed task exactly when an error is still sitting in errCh at that moment. */
  lemma {:induction false} NilHidesFailureIff(limit: int, states: seq<State>, steps: seq<Step>, k: nat)
    requires IsRun(limit, states, steps) && k < |states|
    requires states[k].main == Returned(None)
    ensures (exists i :: 0 <= i < |states[k].workers| && states[k].workers[i].body == Failed) <==> states[k].errCh.Some?
  {
    RunsKeepInv(limit, states, steps, k);
  }

  /** Never more than `limit` workers hold a slot, and the slot channel counts exactly them. */
  lemma {:induction false} SlotsBounded(limit: int, states: seq<State>, steps: seq<Step>, k: nat)
    requires IsRun(limit, states, steps) && k < |states| && limit >= 0
    ensures Sum(Holds, states[k].workers) == states[k].slots <= limit
    ensures forall i :: 0 <= i < |states[k].workers| && states[k].workers[i].pc == Running ==> states[k].workers[i].holdsSlot
  {
    RunsKeepInv(limit, states, steps, k);
    assert forall i :: 0 <= i < |states[k].workers| ==> WorkerOk(states[k], states[k].workers[i]);
  }

  // ---------- Progress ----------

  /** Nobody's code is running: no task body and no publish function. */
  predicate Quiet(s: State) {
    && !s.main.Publishing?
    && forall i :: 0 <= i < |s.workers| ==> s.workers[i].pc != Running
  }

  predicate Outstanding(s: State) {
    || !s.main.Returned?
    || exists i :: 0 <= i < |s.workers| && s.workers[i].pc != Ended
  }

  /** A live worker outside its body lets the pool move, whatever the main goroutine is doing. */
  lemma {:induction false} WorkerProgress(s: State, i: nat) returns (step: Step)
    requires Inv(s) && Quiet(s) && s.main != Idle && s.limit != Some(0)
    requires i < |s.workers| && s.workers[i].pc != Ended
    ensures Library(step) && Enabled(s, step)
  {
    LiveBlocksWaiter(s, i);
    assert WorkerOk(s, s.workers[i]);
    match s.workers[i].pc
    case AwaitInit => step := Act(i, PassInit);
    case Acquire =>
      if s.slots < s.limit.value {
        step := Act(i, AcquireSlot);
      } else {
        var j := SumPositive(Holds, s.workers);
        step := HolderProgress(s, j);
      }
    case Finishing => step := Act(i, Finish);
    case _ =>
      step := HolderProgress(s, i);
  }

  lemma {:induction false} HolderProgress(s: State, i: nat) returns (step: Step)
    requires Inv(s) && Quiet(s) && s.main != Idle
    requires i < |s.workers| && s.workers[i].pc in {Recheck, Running, Offering, Releasing}
    ensures Library(step) && Enabled(s, step)
  {
    LiveBlocksWaiter(s, i);
    assert WorkerOk(s, s.workers[i]);
    match s.workers[i].pc
    case Recheck => step := Act(i, if s.errNotifyClosed then RecheckAbort else RecheckPass);
    case Offering =>
      if s.errNotifyClosed {
        step := Act(i, OfferAbort);
      } else if s.main == Selecting {
        step := Act(i, SendPublish);
      } else {
        step := if s.main.Published? then AfterPublish else CloseNotify;
      }
    case Releasing =>
      SumAtLeast(Holds, s.workers, i);
      step := Act(i, Release);
    case Running =>
      assert false;
  }

  lemma {:induction false} Progress(s: State) returns (step: Step)
    requires Inv(s) && Quiet(s) && s.main != Idle && s.limit != Some(0) && Outstanding(s)
    ensures Library(step) && Enabled(s, step)
  {
    if i :| 0 <= i < |s.workers| && s.workers[i].pc != Ended {
      step := WorkerProgress(s, i);
    } else {
      if Sum(Live, s.workers) > 0 {
        var _ := SumPositive(Live, s.workers);
        assert false;
      }
      if Sum(Offers, s.workers) > 0 {
        var _ := SumPositive(Offers, s.workers);
        assert false;
      }
      match s.main
      case Published(_, _) => step := AfterPublish;
      case Closing(_) => step := CloseNotify;
      case Selecting =>
        match s.waiter {
          case Waiting => step := WaiterWakes;
          case Woken => step := WaiterCloses;
          case Gone => step := TakeDone;
        }
    }
  }

  // ---------- Every run is short ----------

  /** How many more actions a worker can take, counting what its publish costs the main goroutine. */
  function WorkerRank(w: Worker): nat {
    match w.pc
    case AwaitInit => 9
    case Acquire => 8
    case Recheck => 7
    case Running => 6
    case Offering => 5
    case Releasing => 2
    case Finishing => 1
    case Ended => 0
  }

  function MainRank(m: Main): nat {
    match m
    case Idle => 5
    case Selecting => 2
    case Publishing(_) => 4
    case Published(_, _) => 3
    case Closing(_) => 1
    case Returned(_) => 0
  }

  function WaiterRank(w: Waiter): nat {
    match w
    case NotStarted => 2
    case Waiting => 2
    case Woken => 1
    case Gone => 0
  }

  function Rank(s: State): nat {
    Sum(WorkerRank, s.workers) + MainRank(s.main) + WaiterRank(s.waiter) + (if s.ctxDone then 0 else 1)
  }

  lemma {:induction false} MoveLowersRank(w: Worker, a: Action, bounded: bool)
    requires w.pc == From(a)
    ensures WorkerRank(Moved(w, a, bounded)) + (if a == SendPublish then 3 else 1) <= WorkerRank(w)
  {
  }

  lemma {:induction false} ActLowersRank(s: State, i: nat, a: Action)
    requires Enabled(s, Act(i, a))
    ensures Rank(ActOn(s, i, a)) < Rank(s)
  {
    MoveLowersRank(s.workers[i], a, s.limit.Some?);
    SumUpdate(WorkerRank, s.workers, i, Moved(s.workers[i], a, s.limit.Some?));
  }

  /** Scheduling adds 9 to the rank of a state; every other step lowers it. */
  lemma {:induction false} StepLowersRank(s: State, step: Step)
    requires Enabled(s, step)
    ensures Schedules(step) ==> Rank(Apply(s, step)) == Rank(s) + 9 && |Apply(s, step).workers| == |s.workers| + 1
    ensures !Schedules(step) ==> Rank(Apply(s, step)) < Rank(s) && |Apply(s, step).workers| == |s.workers|
  {
    hide Rank, Enabled, Apply, Spawn, ActOn;
    if Schedules(step) {
      SpawnRank(s);
      SchedulingSpawns(s, step);
    } else if step.Act? {
      ActLowersRank(s, step.i, step.action);
      ActingActs(s, step);
    } else {
      OthersLowerRank(s, step);
    }
  }

  lemma {:induction false} SpawnRank(s: State)
    ensures Rank(Spawn(s)) == Rank(s) + 9 && |Spawn(s).workers| == |s.workers| + 1
  {
    SumAppend(WorkerRank, s.workers, NEW_WORKER);
  }

  lemma {:induction false} SchedulingSpawns(s: State, step: Step)
    requires Enabled(s, step) && Schedules(step)
    ensures Apply(s, step) == Spawn(s)
  {
  }

  lemma {:induction false} ActingActs(s: State, step: Step)
    requires Enabled(s, step) && step.Act?
    ensures Enabled(s, Act(step.i, step.action)) && Apply(s, step) == ActOn(s, step.i, step.action) && |Apply(s, step).workers| == |s.workers|
  {
  }

  lemma {:induction false} OthersLowerRank(s: State, step: Step)
    requires Enabled(s, step) && !Schedules(step) && !step.Act?
    ensures Rank(Apply(s, step)) < Rank(s) && |Apply(s, step).workers| == |s.workers|
  {
    hide Sum;
    assert Apply(s, step).workers == s.workers;
  }

  lemma {:induction false} StepsBounded(limit: int, states: seq<State>, steps: seq<Step>, k: nat)
    requires IsRun(limit, states, steps) && k < |states|
    ensures k + Rank(states[k]) <= 10 * |states[k].workers| + 8
  {
    hide Rank, Enabled, Apply;
    if k == 0 {
      NewRank(limit);
    } else {
      StepsBounded(limit, states, steps, k - 1);
      StepLowersRank(states[k - 1], steps[k - 1]);
    }
  }

  lemma {:induction false} NewRank(limit: int)
    ensures Rank(New(limit)) <= 8 && New(limit).workers == []
  {
  }

  /**
   Termination: a run in which n tasks were scheduled has at most 10 n + 8 steps, and when it cannot go on
   although the context has begun and nobody's code is running, Run has returned and every worker has ended.
   */
  lemma {:induction false} RunsEnd(limit: int, states: seq<State>, steps: seq<Step>)
    requires IsRun(limit, states, steps)
    ensures |steps| <= 10 * |states[|steps|].workers| + 8
    ensures var s := states[|steps|];
      limit != 0 && s.main != Idle && Quiet(s) && (forall step :: Library(step) ==> !Enabled(s, step)) ==>
        s.main.Returned? && forall i :: 0 <= i < |s.workers| ==> s.workers[i].pc == Ended
  {
    var s := states[|steps|];
    StepsBounded(limit, states, steps, |steps|);
    RunsKeepInv(limit, states, steps, |steps|);
    if limit != 0 && s.main != Idle && Quiet(s) && Outstanding(s) {
      var step := Progress(s);
    }
  }

  /** No reachable state of a pool with this limit is stuck with work outstanding and nobody's code running. */
  ghost predicate NeverStuck(limit: int) {
    forall states: seq<State>, steps: seq<Step>, k: nat ::
      IsRun(limit, states, steps) && k < |states| && states[k].main != Idle
      && Quiet(states[k]) && Outstanding(states[k]) ==>
        exists step :: Library(step) && Enabled(states[k], step)
  }

  ghost function Last(states: seq<State>): State
    requires states != []
  {
    states[|states| - 1]
  }

  lemma {:induction false} Extend(limit: int, states: seq<State>, steps: seq<Step>, step: Step)
    returns (states': seq<State>, steps': seq<Step>)
    requires IsRun(limit, states, steps) && Enabled(Last(states), step)
    ensures IsRun(limit, states', steps') && Last(states') == Apply(Last(states), step) && steps' == steps + [step]
  {
    hide Enabled, Apply;
    states', steps' := states + [Apply(Last(states), step)], steps + [step];
  }

  /** A cancellation while Run waits can be what Run returns. */
  lemma {:induction false} CancelledRun(limit: int) returns (states: seq<State>, steps: seq<Step>)
    ensures IsRun(limit, states, steps) && steps == [StartRun, Cancel, TakeCancel, CloseNotify]
    ensures Last(states).main == Returned(Some(Cancelled)) && Last(states).errNotifyClosed
  {
    states, steps := [New(limit)], [];
    states, steps := Extend(limit, states, steps, StartRun);
    states, steps := Extend(limit, states, steps, Cancel);
    states, steps := Extend(limit, states, steps, TakeCancel);
    states, steps := Extend(limit, states, steps, CloseNotify);
  }

  /** A pool of capacity zero with one task, which waits for a slot that never comes. */
  lemma {:induction false} ZeroRun() returns (states: seq<State>, steps: seq<Step>)
    ensures IsRun(0, states, steps)
    ensures Last(states).main == Selecting && Last(states).workers == [Worker(Acquire, false, NotRun)]
    ensures forall step :: Library(step) ==> !Enabled(Last(states), step)
  {
    states, steps := [New(0)], [];
    states, steps := Extend(0, states, steps, ScheduleBeforeRun);
    states, steps := Extend(0, states, steps, StartRun);
    states, steps := Extend(0, states, steps, Act(0, PassInit));
  }

  /** The pool can always move on exactly when its limit is not zero. */
  lemma {:induction false} NeverStuckIff(limit: int)
    ensures NeverStuck(limit) <==> limit != 0
  {
    if limit == 0 {
      var states, steps := ZeroRun();
      assert states[|steps|] == Last(states);
      assert Outstanding(Last(states)) && Quiet(Last(states));
    } else {
      forall states: seq<State>, steps: seq<Step>, k: nat | IsRun(limit, states, steps) && k < |states| && states[k].main != Idle
                                     && Quiet(states[k]) && Outstanding(states[k])
        ensures exists step :: Library(step) && Enabled(states[k], step)
      {
        RunsKeepInv(limit, states, steps, k);
        var step := Progress(states[k]);
      }
    }
  }

  /** One task that fails: the waiter may win the select over the error, so Run returns nil. */
  lemma {:induction false} HiddenFailureRun() returns (states: seq<State>, steps: seq<Step>)
    ensures IsRun(-1, states, steps)
    ensures Last(states).main == Returned(None)
    ensures |Last(states).workers| == 1 && Last(states).workers[0].body == Failed
  {
    states, steps := [New(-1)], [];
    states, steps := Extend(-1, states, steps, ScheduleBeforeRun);
    states, steps := Extend(-1, states, steps, StartRun);
    states, steps := FailedWorkerRun(states, steps);
    states, steps := Extend(-1, states, steps, WaiterWakes);
    states, steps := Extend(-1, states, steps, WaiterCloses);
    states, steps := Extend(-1, states, steps, TakeDone);
  }

  /** The state of a started pool whose only task is the given worker. */
  function OneWorker(w: Worker, doneWg: int, errCh: Option<Error>): State {
    New(-1).(workers := [w], doneWg := doneWg, errCh := errCh, initClosed := true, main := Selecting, waiter := Waiting)
  }

  lemma {:induction false} ExtendOne(states: seq<State>, steps: seq<Step>, a: Action, w: Worker, doneWg: int, errCh: Option<Error>)
    returns (states': seq<State>, steps': seq<Step>)
    requires IsRun(-1, states, steps) && Last(states) == OneWorker(w, doneWg, errCh)
    requires w.pc == From(a) && a in {PassInit, RecheckPass, TaskFails, Release, Finish}
    ensures IsRun(-1, states', steps')
    ensures Last(states') == OneWorker(Moved(w, a, false), WgAfter(doneWg, a),
                                       if a == TaskFails && errCh.None? then Some(TaskError(0)) else errCh)
  {
    states', steps' := Extend(-1, states, steps, Act(0, a));
    assert [w][0 := Moved(w, a, false)] == [Moved(w, a, false)];
  }

  lemma {:induction false} FailedWorkerRun(states0: seq<State>, steps0: seq<Step>)
    returns (states: seq<State>, steps: seq<Step>)
    requires IsRun(-1, states0, steps0) && Last(states0) == OneWorker(NEW_WORKER, 1, None)
    ensures IsRun(-1, states, steps)
    ensures Last(states) == OneWorker(Worker(Ended, false, Failed), 0, Some(TaskError(0)))
  {
    states, steps := ExtendOne(states0, steps0, PassInit, NEW_WORKER, 1, None);
    states, steps := ExtendOne(states, steps, RecheckPass, Worker(Recheck, false, NotRun), 1, None);
    states, steps := ExtendOne(states, steps, TaskFails, Worker(Running, false, NotRun), 1, None);
    states, steps := ExtendOne(states, steps, Release, Worker(Releasing, false, Failed), 1, Some(TaskError(0)));
    states, steps := ExtendOne(states, steps, Finish, Worker(Finishing, false, Failed), 1, Some(TaskError(0)));
  }
}
