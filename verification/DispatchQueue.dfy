/** The one-worker task queue as an interleaving of its threads: any number of enqueuers, the
    worker, and the destructor share a mutex and a condition variable.  One action is one
    atomic step of one thread; a parked worker may also wake up spuriously. */
module DispatchQueue {
  import opened Basics

  type Task = nat

  /** The worker: wanting the mutex (on entry and again after a wake-up), testing the predicate,
      parked in wait, a task moved out under the mutex, running it, leaving the loop, gone. */
  datatype WorkerPc = WWant | WTest | WParked | WTaken(task: Task) | WRunning(task: Task) | WLeaving | WExited

  datatype EnqueuerPc = EIdle | EWant(task: Task) | ELocked(task: Task) | EPushed | ENotify

  datatype DestructorPc = DOutside | DWant | DLocked | DStopped | DNotify | DJoining | DDone

  datatype Owner = Worker | Enqueuer(i: nat) | Destructor

  /** `enqueued` and `executed` record the order of pushes and of finished tasks. */
  datatype State = State(holder: Option<Owner>, tasks: seq<Task>, stop: bool, worker: WorkerPc,
                         enqueuers: seq<EnqueuerPc>, destructor: DestructorPc,
                         enqueued: seq<Task>, executed: seq<Task>)

  datatype Action =
    | Call(i: nat, task: Task)   // enqueuer i calls enqueue
    | Destroy                    // the destructor starts
    | SpuriousWake
    | StepWorker
    | StepEnqueuer(i: nat)
    | StepDestructor

  function Init(threads: nat): State {
    State(None, [], false, WWant, seq(threads, _ => EIdle), DOutside, [], [])
  }

  predicate AllIdle(s: State) { forall i | 0 <= i < |s.enqueuers| :: s.enqueuers[i] == EIdle }

  /** Calls are made only before destruction starts, and destruction only with no call running:
      the lifetime rules of the language. */
  predicate Enabled(s: State, a: Action) {
    match a
    case Call(i, _) => i < |s.enqueuers| && s.enqueuers[i] == EIdle && s.destructor == DOutside
    case Destroy => s.destructor == DOutside && AllIdle(s)
    case SpuriousWake => s.worker == WParked
    case StepWorker =>
      (match s.worker
       case WWant => s.holder == None
       case WParked => false
       case WExited => false
       case _ => true)
    case StepEnqueuer(i) =>
      i < |s.enqueuers| &&
      (match s.enqueuers[i]
       case EIdle => false
       case EWant(_) => s.holder == None
       case _ => true)
    case StepDestructor =>
      (match s.destructor
       case DOutside => false
       case DWant => s.holder == None
       case DJoining => s.worker == WExited
       case DDone => false
       case _ => true)
  }

  /** cv_.notify_one(): only the worker ever waits. */
  function Notified(s: State): State {
    if s.worker == WParked then s.(worker := WWant) else s
  }

  function WorkerNext(s: State): State {
    match s.worker
    case WWant => s.(worker := WTest, holder := Some(Worker))
    case WTest =>
      if !s.stop && s.tasks == [] then s.(worker := WParked, holder := None)
      else if s.tasks == [] then s.(worker := WLeaving)
      else s.(worker := WTaken(s.tasks[0]), tasks := s.tasks[1..])
    case WTaken(t) => s.(worker := WRunning(t), holder := None)
    case WRunning(t) => s.(worker := WWant, executed := s.executed + [t])
    case WLeaving => s.(worker := WExited, holder := None)
    case _ => s
  }

  function EnqueuerNext(s: State, i: nat): State
    requires i < |s.enqueuers|
  {
    match s.enqueuers[i]
    case EIdle => s
    case EWant(t) => s.(enqueuers := s.enqueuers[i := ELocked(t)], holder := Some(Enqueuer(i)))
    case ELocked(t) =>
      s.(enqueuers := s.enqueuers[i := EPushed], tasks := s.tasks + [t], enqueued := s.enqueued + [t])
    case EPushed => s.(enqueuers := s.enqueuers[i := ENotify], holder := None)
    case ENotify => Notified(s).(enqueuers := s.enqueuers[i := EIdle])
  }

  function DestructorNext(s: State): State {
    match s.destructor
    case DWant => s.(destructor := DLocked, holder := Some(Destructor))
    case DLocked => s.(destructor := DStopped, stop := true)
    case DStopped => s.(destructor := DNotify, holder := None)
    case DNotify => Notified(s).(destructor := DJoining)
    case DJoining => s.(destructor := DDone)
    case _ => s
  }

  function Next(s: State, a: Action): State
    requires Enabled(s, a)
  {
    match a
    case Call(i, t) => s.(enqueuers := s.enqueuers[i := EWant(t)])
    case Destroy => s.(destructor := DWant)
    case SpuriousWake => s.(worker := WWant)
    case StepWorker => WorkerNext(s)
    case StepEnqueuer(i) => EnqueuerNext(s, i)
    case StepDestructor => DestructorNext(s)
  }

  /** `path` is a schedule that can be taken from s. */
  ghost predicate Possible(s: State, path: seq<Action>)
    decreases |path|
  {
    path != [] ==> Enabled(s, path[0]) && Possible(Next(s, path[0]), path[1..])
  }

  function RunAll(s: State, path: seq<Action>): State
    requires Possible(s, path)
    decreases |path|
  {
    if path == [] then s else RunAll(Next(s, path[0]), path[1..])
  }

  // ---------------------------------------------------------------- the invariant

  function InHand(s: State): seq<Task> {
    if s.worker.WTaken? || s.worker.WRunning? then [s.worker.task] else []
  }

  /** The mutex is held by exactly the thread whose place says so. */
  predicate MutexHeld(s: State) {
    && (s.holder == Some(Worker) <==> s.worker == WTest || s.worker.WTaken? || s.worker == WLeaving)
    && (s.holder == Some(Destructor) <==> s.destructor == DLocked || s.destructor == DStopped)
    && (forall i | 0 <= i < |s.enqueuers| ::
          s.holder == Some(Enqueuer(i)) <==> s.enqueuers[i].ELocked? || s.enqueuers[i] == EPushed)
    && (s.holder.Some? && s.holder.value.Enqueuer? ==> s.holder.value.i < |s.enqueuers|)
  }

  /** A notify that has still to be given after a push or after stop was set. */
  predicate NotifyPending(s: State) {
    || s.destructor == DStopped || s.destructor == DNotify
    || exists i | 0 <= i < |s.enqueuers| :: s.enqueuers[i] == EPushed || s.enqueuers[i] == ENotify
  }

  predicate Invariant(s: State) {
    && s.executed + InHand(s) + s.tasks == s.enqueued
    && MutexHeld(s)
    && (s.stop <==> s.destructor.DStopped? || s.destructor.DNotify? || s.destructor.DJoining? || s.destructor.DDone?)
    && (s.worker == WParked && (s.tasks != [] || s.stop) ==> NotifyPending(s))
    && (s.worker == WLeaving || s.worker == WExited ==> s.stop && s.tasks == [])
    && (s.destructor != DOutside ==> AllIdle(s))
    && (s.destructor == DDone ==> s.worker == WExited)
  }

  lemma InitInvariant(threads: nat)
    ensures Invariant(Init(threads))
  {}

  lemma WorkerKeeps(s: State)
    requires Invariant(s) && Enabled(s, StepWorker)
    ensures Invariant(WorkerNext(s))
  {
    match s.worker
    case WTest => TestKeeps(s);
    case WRunning(t) => assert s.executed + [t] + [] + s.tasks == s.executed + [t] + s.tasks;
    case _ =>
  }

  lemma TestKeeps(s: State)
    requires Invariant(s) && s.worker == WTest
    ensures Invariant(WorkerNext(s))
  {
    if s.tasks != [] {
      assert s.tasks == [s.tasks[0]] + s.tasks[1..];
      assert s.executed + [s.tasks[0]] + s.tasks[1..] == s.executed + [] + s.tasks;
    }
  }

  lemma EnqueuerKeeps(s: State, i: nat)
    requires Invariant(s) && Enabled(s, StepEnqueuer(i))
    ensures Invariant(EnqueuerNext(s, i))
  {
    var next := EnqueuerNext(s, i);
    match s.enqueuers[i]
    case ELocked(t) =>
      assert next.executed + InHand(next) + (s.tasks + [t]) == s.executed + InHand(s) + s.tasks + [t];
      assert next.enqueuers[i] == EPushed;
    case EPushed =>
      assert next.enqueuers[i] == ENotify;
      StillPending(s, next, i);
    case ENotify =>
      StillPending(s, next, i);
    case EWant(t) =>
      StillPending(s, next, i);
    case EIdle =>
  }

  /** Pending notifies of the other threads are untouched. */
  lemma StillPending(s: State, next: State, i: nat)
    requires i < |s.enqueuers| == |next.enqueuers| && next.destructor == s.destructor
    requires forall k | 0 <= k < |s.enqueuers| && k != i :: next.enqueuers[k] == s.enqueuers[k]
    requires s.enqueuers[i] == EPushed || s.enqueuers[i] == ENotify ==>
               next.enqueuers[i] == ENotify || next.worker != WParked
    ensures NotifyPending(s) ==> NotifyPending(next) || next.worker != WParked
  {
    if NotifyPending(s) && s.destructor != DStopped && s.destructor != DNotify {
      var k :| 0 <= k < |s.enqueuers| && (s.enqueuers[k] == EPushed || s.enqueuers[k] == ENotify);
      assert k != i ==> next.enqueuers[k] == s.enqueuers[k];
    }
  }

  lemma DestructorKeeps(s: State)
    requires Invariant(s) && Enabled(s, StepDestructor)
    ensures Invariant(DestructorNext(s))
  {}

  lemma StepKeeps(s: State, a: Action)
    requires Invariant(s) && Enabled(s, a)
    ensures Invariant(Next(s, a))
  {
    match a
    case Call(i, t) => StillPending(s, Next(s, a), i);
    case Destroy =>
    case SpuriousWake =>
    case StepWorker => WorkerKeeps(s);
    case StepEnqueuer(i) => EnqueuerKeeps(s, i);
    case StepDestructor => DestructorKeeps(s);
  }

  lemma {:induction false} RunKeeps(s: State, path: seq<Action>)
    requires Invariant(s) && Possible(s, path)
    ensures Invariant(RunAll(s, path))
    decreases |path|
  {
    hide Invariant, Enabled, Next;
    if path != [] {
      StepKeeps(s, path[0]);
      RunKeeps(Next(s, path[0]), path[1..]);
    }
  }

  /** Under every interleaving: finished tasks, then the one in hand, then the queue are always
      the order of enqueueing; the worker is never parked with work or stop set unless a notify
      is still to come; and once it leaves, every enqueued task has run exactly once, in order. */
  lemma EveryInterleaving(threads: nat, path: seq<Action>)
    requires Possible(Init(threads), path)
    ensures var s := RunAll(Init(threads), path);
            && s.executed + InHand(s) + s.tasks == s.enqueued
            && (s.worker == WParked && (s.tasks != [] || s.stop) ==> NotifyPending(s))
            && (s.worker == WExited ==> s.stop && s.executed == s.enqueued)
            && (s.destructor == DDone ==> s.worker == WExited)
  {
    hide Invariant, Possible, RunAll, Init;
    InitInvariant(threads);
    SoundFromThenOn(Init(threads), path);
  }

  lemma SoundFromThenOn(start: State, path: seq<Action>)
    requires Invariant(start) && Possible(start, path)
    ensures var s := RunAll(start, path);
            && s.executed + InHand(s) + s.tasks == s.enqueued
            && (s.worker == WParked && (s.tasks != [] || s.stop) ==> NotifyPending(s))
            && (s.worker == WExited ==> s.stop && s.executed == s.enqueued)
            && (s.destructor == DDone ==> s.worker == WExited)
  {
    hide Possible, RunAll;
    RunKeeps(start, path);
    var s := RunAll(start, path);
    assert s.worker == WExited ==> s.executed + [] + [] == s.executed;
  }

  // ---------------------------------------------------------------- every call is queued

  /** The tasks that a schedule's calls hand to enqueuer i, in order. */
  function CallsBy(path: seq<Action>, i: nat): seq<Task> {
    if path == [] then []
    else (if path[0].Call? && path[0].i == i then [path[0].task] else []) + CallsBy(path[1..], i)
  }

  /** The task an enqueuer has been handed and not pushed yet. */
  function Waiting(e: EnqueuerPc): seq<Task> { if e.EWant? || e.ELocked? then [e.task] else [] }

  /** Those of the tasks that enqueuer i pushed, when `owners` says who pushed each. */
  function PushedBy(tasks: seq<Task>, owners: seq<nat>, i: nat): seq<Task>
    requires |owners| == |tasks|
  {
    if tasks == [] then []
    else (if owners[0] == i then [tasks[0]] else []) + PushedBy(tasks[1..], owners[1..], i)
  }

  /** Over a schedule, what enqueuer i was waiting to push and was handed is what it pushed and is
      still waiting to push, in order. */
  lemma {:induction false} CallsArePushed(s: State, path: seq<Action>) returns (tasks: seq<Task>, owners: seq<nat>)
    requires Possible(s, path)
    ensures |owners| == |tasks| && RunAll(s, path).enqueued == s.enqueued + tasks
    ensures |RunAll(s, path).enqueuers| == |s.enqueuers| && forall k | 0 <= k < |owners| :: owners[k] < |s.enqueuers|
    ensures var end := RunAll(s, path).enqueuers;
            forall i | 0 <= i < |s.enqueuers| ::
              Waiting(s.enqueuers[i]) + CallsBy(path, i) == PushedBy(tasks, owners, i) + Waiting(end[i])
    decreases |path|
  {
    hide Enabled, Next, Waiting;
    if path == [] {
      tasks, owners := [], [];
    } else {
      var a := path[0];
      var next := Next(s, a);
      var moreTasks, moreOwners := CallsArePushed(next, path[1..]);
      var pushed, pusher := OnePush(s, a);
      tasks, owners := pushed + moreTasks, pusher + moreOwners;
      assert s.enqueued + pushed + moreTasks == s.enqueued + tasks;
      forall i | 0 <= i < |s.enqueuers|
        ensures Waiting(s.enqueuers[i]) + CallsBy(path, i)
             == PushedBy(tasks, owners, i) + Waiting(RunAll(s, path).enqueuers[i])
      {
        FirstCall(path, i);
        PushedConcat(pushed, pusher, moreTasks, moreOwners, i);
        SplitCalls(Waiting(s.enqueuers[i]), CallsBy([a], i), CallsBy(path[1..], i), PushedBy(pushed, pusher, i),
                   Waiting(next.enqueuers[i]), PushedBy(moreTasks, moreOwners, i),
                   Waiting(RunAll(s, path).enqueuers[i]));
      }
    }
  }

  lemma FirstCall(path: seq<Action>, i: nat)
    requires path != []
    ensures CallsBy(path, i) == CallsBy([path[0]], i) + CallsBy(path[1..], i)
  {
    assert [path[0]][1..] == [] && CallsBy([], i) == [];
  }

  /** Concatenations regrouped. */
  lemma SplitCalls(before: seq<Task>, call: seq<Task>, calls: seq<Task>, push: seq<Task>, between: seq<Task>,
                   pushes: seq<Task>, after: seq<Task>)
    requires before + call == push + between && between + calls == pushes + after
    ensures before + (call + calls) == push + pushes + after
  {
    assert before + (call + calls) == before + call + calls;
    assert push + between + calls == push + (between + calls);
    assert push + (pushes + after) == push + pushes + after;
  }

  lemma {:induction false} PushedConcat(a: seq<Task>, o: seq<nat>, b: seq<Task>, p: seq<nat>, i: nat)
    requires |o| == |a| && |p| == |b|
    ensures PushedBy(a + b, o + p, i) == PushedBy(a, o, i) + PushedBy(b, p, i)
    decreases |a|
  {
    if a == [] {
      assert a + b == b && o + p == p;
    } else {
      PushedConcat(a[1..], o[1..], b, p, i);
      assert (a + b)[1..] == a[1..] + b && (o + p)[1..] == o[1..] + p;
    }
  }

  /** What one step pushes, and who. */
  lemma OnePush(s: State, a: Action) returns (pushed: seq<Task>, pusher: seq<nat>)
    requires Enabled(s, a)
    ensures |pusher| == |pushed| && Next(s, a).enqueued == s.enqueued + pushed
    ensures |Next(s, a).enqueuers| == |s.enqueuers| && forall k | 0 <= k < |pusher| :: pusher[k] < |s.enqueuers|
    ensures var after := Next(s, a).enqueuers;
            forall i | 0 <= i < |s.enqueuers| ::
              Waiting(s.enqueuers[i]) + CallsBy([a], i) == PushedBy(pushed, pusher, i) + Waiting(after[i])
  {
    if a.StepEnqueuer? && s.enqueuers[a.i].ELocked? {
      pushed, pusher := [s.enqueuers[a.i].task], [a.i];
    } else {
      pushed, pusher := [], [];
    }
  }

  /** Every task handed to a call is executed exactly once.  On any schedule from the start after
      which no thread can step on its own, the tasks executed are those of the calls, and each
      enqueuer's in the order of its calls. */
  lemma EveryCallRuns(threads: nat, path: seq<Action>) returns (owners: seq<nat>)
    requires Possible(Init(threads), path)
    requires forall a | Internal(a) :: !Enabled(RunAll(Init(threads), path), a)
    ensures var executed := RunAll(Init(threads), path).executed;
            && |owners| == |executed| && (forall k | 0 <= k < |owners| :: owners[k] < threads)
            && forall i | 0 <= i < threads :: PushedBy(executed, owners, i) == CallsBy(path, i)
  {
    hide Possible, RunAll, Invariant, Enabled, CallsBy, PushedBy;
    var start := Init(threads);
    var end := RunAll(start, path);
    InitInvariant(threads);
    RunKeeps(start, path);
    var tasks;
    tasks, owners := CallsArePushed(start, path);
    EndSettled(end);
    assert end.executed == [] + tasks == tasks;
    forall i | 0 <= i < threads ensures PushedBy(tasks, owners, i) == CallsBy(path, i) {
      assert Waiting(start.enqueuers[i]) == [] && Waiting(end.enqueuers[i]) == [];
      assert [] + CallsBy(path, i) == CallsBy(path, i) && PushedBy(tasks, owners, i) + [] == PushedBy(tasks, owners, i);
    }
  }

  /** Once the destructor has been called, a schedule after which no thread can step has it return,
      with the worker gone. */
  lemma DestructionEnds(threads: nat, path: seq<Action>)
    requires Possible(Init(threads), path) && Destroy in path
    requires forall a | Internal(a) :: !Enabled(RunAll(Init(threads), path), a)
    ensures var end := RunAll(Init(threads), path); end.destructor == DDone && end.worker == WExited
  {
    hide Possible, RunAll, Invariant, Enabled;
    var start := Init(threads);
    InitInvariant(threads);
    RunKeeps(start, path);
    DestroyIsNotForgotten(start, path);
    EndSettled(RunAll(start, path));
    SettledDestructor(RunAll(start, path));
  }

  lemma SettledDestructor(s: State)
    requires Invariant(s) && Settled(s) && s.destructor != DOutside
    ensures s.destructor == DDone && s.worker == WExited
  {}

  lemma {:induction false} DestroyIsNotForgotten(s: State, path: seq<Action>)
    requires Possible(s, path) && (Destroy in path || s.destructor != DOutside)
    ensures RunAll(s, path).destructor != DOutside
    decreases |path|
  {
    hide Next, Enabled;
    if path != [] {
      if path[0] == Destroy || s.destructor != DOutside {
        StaysDestroyed(s, path[0]);
      }
      assert path == [path[0]] + path[1..];
      DestroyIsNotForgotten(Next(s, path[0]), path[1..]);
    }
  }

  lemma StaysDestroyed(s: State, a: Action)
    requires Enabled(s, a) && (a == Destroy || s.destructor != DOutside)
    ensures Next(s, a).destructor != DOutside
  {}

  lemma EndSettled(s: State)
    requires Invariant(s) && forall a | Internal(a) :: !Enabled(s, a)
    ensures s.executed == s.enqueued && AllIdle(s) && Settled(s)
  {
    if !Settled(s) {
      var a := SomeoneCanMove(s);
    }
    assert s.executed + [] + [] == s.executed;
  }

  /** A spurious wake-up makes the worker test again, and with nothing to do it parks as before. */
  lemma SpuriousWakeIsHarmless(s: State)
    requires s.worker == WParked && s.holder == None && s.tasks == [] && !s.stop
    ensures var path := [SpuriousWake, StepWorker, StepWorker];
            Next(s, SpuriousWake).worker == WWant && Possible(s, path) && RunAll(s, path) == s
  {
    var path := [SpuriousWake, StepWorker, StepWorker];
    assert path[1..] == [StepWorker, StepWorker] && path[1..][1..] == [StepWorker] && path[1..][1..][1..] == [];
    var tested := Next(Next(s, SpuriousWake), StepWorker);
    assert Next(tested, StepWorker) == s;
    assert Possible(tested, [StepWorker]) && RunAll(tested, [StepWorker]) == s;
  }

  // ---------------------------------------------------------------- before construction ends

  /** The worker starts before the flag declared after it is initialised: `stale` is what it may
      find there. */
  function Begin(threads: nat, stale: bool): State { Init(threads).(stop := stale) }

  /** Until the constructor returns only the worker can move. */
  predicate Startup(path: seq<Action>) { forall k | 0 <= k < |path| :: path[k].StepWorker? || path[k].SpuriousWake? }

  /** The constructor initialises the flag and returns. */
  function Constructed(s: State): State { s.(stop := false) }

  /** Nothing but the worker's place, the mutex it holds and the flag has been touched. */
  predicate Starting(s: State, threads: nat, stale: bool) {
    && s == Begin(threads, stale).(worker := s.worker, holder := s.holder)
    && (s.worker == WWant || s.worker == WTest || s.worker == WParked || s.worker == WLeaving || s.worker == WExited)
    && (s.holder == if s.worker == WTest || s.worker == WLeaving then Some(Worker) else None)
    && (s.worker == WLeaving || s.worker == WExited ==> stale)
    && (s.worker == WParked ==> !stale)
  }

  lemma {:induction false} StartupRun(s: State, path: seq<Action>, threads: nat, stale: bool)
    requires Starting(s, threads, stale) && Startup(path) && Possible(s, path)
    ensures Starting(RunAll(s, path), threads, stale)
    decreases |path|
  {
    if path != [] {
      StartupStep(s, path[0], threads, stale);
      StartupRun(Next(s, path[0]), path[1..], threads, stale);
    }
  }

  lemma StartupStep(s: State, a: Action, threads: nat, stale: bool)
    requires Starting(s, threads, stale) && (a.StepWorker? || a.SpuriousWake?) && Enabled(s, a)
    ensures Starting(Next(s, a), threads, stale)
  {}

  /** After construction the queue is sound (so that everything `SoundFromThenOn` promises holds)
      exactly when the worker has not yet believed a stale flag. */
  lemma SoundUnlessLeftExactly(threads: nat, stale: bool, path: seq<Action>)
    requires Startup(path) && Possible(Begin(threads, stale), path)
    ensures var s := RunAll(Begin(threads, stale), path);
            Invariant(Constructed(s)) <==> s.worker != WLeaving && s.worker != WExited
  {
    hide Possible, RunAll;
    StartupRun(Begin(threads, stale), path, threads, stale);
    var s := Constructed(RunAll(Begin(threads, stale), path));
    assert s.executed + [] + s.tasks == s.enqueued;
  }

  /** A worker that has left runs nothing ever again, whatever is enqueued. */
  lemma {:induction false} LeftRunsNothing(s: State, path: seq<Action>)
    requires (s.worker == WLeaving || s.worker == WExited) && Possible(s, path)
    ensures RunAll(s, path).executed == s.executed
    decreases |path|
  {
    hide Enabled;
    if path != [] {
      LeftStaysLeft(s, path[0]);
      LeftRunsNothing(Next(s, path[0]), path[1..]);
    }
  }

  lemma LeftStaysLeft(s: State, a: Action)
    requires (s.worker == WLeaving || s.worker == WExited) && Enabled(s, a)
    ensures var next := Next(s, a); (next.worker == WLeaving || next.worker == WExited) && next.executed == s.executed
  {}

  /** So every start is sound if and only if the flag's storage starts as false. */
  lemma EveryStartSoundExactly(threads: nat, stale: bool)
    ensures (forall path | Startup(path) && Possible(Begin(threads, stale), path) ::
               Invariant(Constructed(RunAll(Begin(threads, stale), path))))
       <==> !stale
  {
    hide Invariant;
    if stale {
      var path := [StepWorker, StepWorker];
      var s := Begin(threads, true);
      assert path[1..] == [StepWorker] && path[1..][1..] == [];
      assert RunAll(s, path) == RunAll(Next(s, StepWorker), [StepWorker]) == Next(Next(s, StepWorker), StepWorker);
      assert RunAll(s, path).worker == WLeaving;
      SoundUnlessLeftExactly(threads, true, path);
    } else {
      forall path | Startup(path) && Possible(Begin(threads, stale), path)
        ensures Invariant(Constructed(RunAll(Begin(threads, stale), path)))
      {
        StartupRun(Begin(threads, stale), path, threads, stale);
        SoundUnlessLeftExactly(threads, stale, path);
      }
    }
  }

  // ---------------------------------------------------------------- progress

  /** Nothing is left to do: destroyed, or idle with the worker parked on an empty queue. */
  predicate Settled(s: State) {
    || s.destructor == DDone
    || (s.destructor == DOutside && AllIdle(s) && s.worker == WParked && s.tasks == [])
  }

  predicate Internal(a: Action) { a.StepWorker? || a.StepEnqueuer? || a.StepDestructor? }

  /** No deadlock: until everything is settled some thread can take a step. */
  lemma SomeoneCanMove(s: State) returns (a: Action)
    requires Invariant(s) && !Settled(s)
    ensures Internal(a) && Enabled(s, a)
  {
    match s.holder
    case Some(Worker) => a := StepWorker;
    case Some(Enqueuer(i)) => a := StepEnqueuer(i);
    case Some(Destructor) => a := StepDestructor;
    case None =>
      if i :| 0 <= i < |s.enqueuers| && s.enqueuers[i] != EIdle {
        a := StepEnqueuer(i);
      } else if s.worker != WParked && s.worker != WExited {
        a := StepWorker;
      } else {
        a := StepDestructor;
      }
  }

  function WorkerRank(w: WorkerPc): nat {
    match w
    case WTaken(_) => 5 case WRunning(_) => 4 case WWant => 3 case WTest => 2 case WLeaving => 1
    case WParked => 0 case WExited => 0
  }

  function EnqueuerRank(e: EnqueuerPc): nat {
    match e case EWant(_) => 20 case ELocked(_) => 19 case EPushed => 5 case ENotify => 4 case EIdle => 0
  }

  function DestructorRank(d: DestructorPc): nat {
    match d
    case DOutside => 0 case DWant => 8 case DLocked => 7 case DStopped => 6 case DNotify => 5
    case DJoining => 1 case DDone => 0
  }

  function EnqueuerRanks(es: seq<EnqueuerPc>): nat {
    if es == [] then 0 else EnqueuerRanks(es[..|es| - 1]) + EnqueuerRank(es[|es| - 1])
  }

  lemma {:induction false} RankUpdate(es: seq<EnqueuerPc>, i: nat, e: EnqueuerPc)
    requires i < |es|
    ensures EnqueuerRanks(es[i := e]) == EnqueuerRanks(es) - EnqueuerRank(es[i]) + EnqueuerRank(e)
    decreases |es|
  {
    hide EnqueuerRank;
    var n := |es| - 1;
    if i < n {
      RankUpdate(es[..n], i, e);
      assert es[i := e][..n] == es[..n][i := e];
    } else {
      assert es[i := e][..n] == es[..n];
    }
  }

  /** Steps the threads can still take on their own. */
  function Rank(s: State): nat {
    10 * |s.tasks| + WorkerRank(s.worker) + EnqueuerRanks(s.enqueuers) + DestructorRank(s.destructor)
  }

  lemma InternalStepsRunOut(s: State, a: Action)
    requires Internal(a) && Enabled(s, a)
    ensures Rank(Next(s, a)) < Rank(s)
  {
    hide EnqueuerRanks, WorkerNext, EnqueuerNext, DestructorNext;
    match a
    case StepWorker => WorkerStepDrops(s);
    case StepEnqueuer(i) => EnqueuerStepDrops(s, i);
    case StepDestructor => DestructorStepDrops(s);
  }

  lemma WorkerStepDrops(s: State)
    requires Enabled(s, StepWorker)
    ensures Rank(WorkerNext(s)) < Rank(s)
  {
    hide EnqueuerRanks, EnqueuerRank, DestructorRank;
  }

  lemma DestructorStepDrops(s: State)
    requires Enabled(s, StepDestructor)
    ensures Rank(DestructorNext(s)) < Rank(s)
  {
    hide EnqueuerRanks, EnqueuerRank;
  }

  lemma EnqueuerStepDrops(s: State, i: nat)
    requires Enabled(s, StepEnqueuer(i))
    ensures Rank(EnqueuerNext(s, i)) < Rank(s)
  {
    hide EnqueuerRanks, DestructorRank;
    RankUpdate(s.enqueuers, i, EnqueuerNext(s, i).enqueuers[i]);
  }

  /** Left alone, the threads settle whatever the order of their steps, and then every enqueued
      task has run.  (Stated by running any schedule of internal steps to its end.) */
  lemma {:induction false} LeftAloneAllRun(s: State, path: seq<Action>)
    requires Invariant(s) && Possible(s, path) && forall k | 0 <= k < |path| :: Internal(path[k])
    ensures |path| + Rank(RunAll(s, path)) <= Rank(s)
    ensures var end := RunAll(s, path);
            (forall a | Internal(a) :: !Enabled(end, a)) ==> Settled(end) && end.executed == end.enqueued
    decreases |path|
  {
    hide Invariant, Enabled, Next, Rank, Settled, Internal;
    if path == [] {
      if forall a | Internal(a) :: !Enabled(s, a) {
        if !Settled(s) {
          var a := SomeoneCanMove(s);
        }
        SettledRanAll(s);
      }
    } else {
      StepKeeps(s, path[0]);
      InternalStepsRunOut(s, path[0]);
      LeftAloneAllRun(Next(s, path[0]), path[1..]);
    }
  }

  lemma SettledRanAll(s: State)
    requires Invariant(s) && Settled(s)
    ensures s.executed == s.enqueued
  {
    assert s.tasks == [] && InHand(s) == [];
    assert s.executed + [] + [] == s.executed;
  }
}
