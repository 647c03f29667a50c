/**
 How the server ends, step by step. A run that cannot go on has either finished or hangs in the stop of the pool, which
 the balance of jobs and last pops decides; the scheduler's exit flag, whose update is a load and a separate store, can
 be lost. What can be told beforehand follows in Exits and LostExits.
 */
module Shutdown {
  import opened Wrappers
  import opened Protocol
  import opened Scheduler
  import opened Conservation
  import opened Responses
  import Context
  import Determinism
  import DidChange
  import Framing
  import Termination

  // ---- The stop of the pool ----

  predicate Ending(main: Main) {
    main.Spinning? || main.Joining? || main.Finished?
  }

  /** Workers stop, or are on their last pop, only once they have been asked to, and then they do not go idle again. */
  ghost predicate StopPhase(s: State) {
    && (s.stopping <==> Ending(s.main))
    && (!s.stopping ==> forall t :: 0 < t < |s.threads| ==> !s.threads[t].LastPop? && !s.threads[t].Stopped?)
    && (s.stopping ==> forall t :: 0 < t < |s.threads| ==> !s.threads[t].Idle?)
    && (s.main.Joining? || s.main.Finished? ==> s.queue == [])
  }

  lemma StopPhaseNext(dump: Dump, s: State, a: Action)
    requires Disciplined(s) && StopPhase(s) && Next(dump, s, a).Some?
    ensures StopPhase(Next(dump, s, a).value)
  {
    hide StepThread, StepRequestStop, StepPop, StepSchedule, StepDrain, Disciplined;
    match a
    case Step(t) => StepStopPhase(dump, s, t);
    case RequestStop(passed) => RequestStopPhase(s, passed);
    case Pop(t) => PopStopPhase(s, t);
    case Schedule => ScheduleStopPhase(s);
    case Drain => DrainStopPhase(s);
    case _ =>
  }

  lemma PopStopPhase(s: State, t: nat)
    requires StopPhase(s) && StepPop(s, t).Some?
    ensures StopPhase(StepPop(s, t).value)
  {
  }

  lemma ScheduleStopPhase(s: State)
    requires StopPhase(s) && StepSchedule(s).Some?
    ensures StopPhase(StepSchedule(s).value)
  {
  }

  lemma DrainStopPhase(s: State)
    requires StopPhase(s) && StepDrain(s).Some?
    ensures StopPhase(StepDrain(s).value)
  {
  }

  lemma StepStopPhase(dump: Dump, s: State, t: nat)
    requires Disciplined(s) && StopPhase(s) && t < |s.threads| && StepThread(dump, s, t).Some?
    ensures StopPhase(StepThread(dump, s, t).value)
  {
    hide Advance, StepThread, ThreadsDisciplined, QueueDisciplined;
    StepFields(dump, s, t);
    if !s.threads[t].StoreFlag? {
      AdvanceIndex(dump, s, t, s.threads[t]);
    }
  }

  lemma RequestStopPhase(s: State, passed: set<nat>)
    requires StopPhase(s) && StepRequestStop(s, passed).Some?
    ensures StopPhase(StepRequestStop(s, passed).value)
  {
  }

  // ---- A run only gets stuck at the end ----

  ghost predicate CanGoOn(dump: Dump, s: State) {
    exists a :: Next(dump, s, a).Some?
  }

  /** The thread that has to move so that a thread can go on: the holder of the output lock, or the thread itself. */
  function Mover(s: State, t: nat): nat
    requires t < |s.threads|
  {
    if s.threads[t].Sending? && s.lock.Some? then s.lock.value else t
  }

  lemma MoverHasMessage(dump: Dump, s: State, t: nat)
    requires Framed(dump, s) && t < |s.threads| && Index(s.threads[t]).Some?
    ensures var u := Mover(s, t);
            u < |s.threads| && Index(s.threads[u]).Some? && (s.threads[u].Sending? ==> s.lock.None?)
  {
    hide Framing.Frames, Partial, Bodies;
  }

  lemma MessageSteps(dump: Dump, s: State, u: nat)
    requires u < |s.threads| && Index(s.threads[u]).Some? && Index(s.threads[u]).value < |s.place| == |s.accepted|
    requires Carries(s.threads[u], s.accepted) && (s.threads[u].Sending? ==> s.lock.None?)
    ensures StepThread(dump, s, u).Some?
  {
    hide Context.Execute, DidChange.ApplyOne, Finalized, Framing.Piece;
  }

  lemma MessagePlaced(s: State, u: nat)
    requires Placed(s) && Responded(s) && u < |s.threads| && Index(s.threads[u]).Some?
    ensures Index(s.threads[u]).value < |s.place| == |s.accepted| && Carries(s.threads[u], s.accepted)
  {
  }

  lemma MoverMoves(dump: Dump, s: State, t: nat)
    requires Placed(s) && Responded(s) && Framed(dump, s) && t < |s.threads| && Index(s.threads[t]).Some?
    ensures var u := Mover(s, t);
            u < |s.threads| && Index(s.threads[u]).Some? && StepThread(dump, s, u).Some?
  {
    hide *;
    MoverHasMessage(dump, s, t);
    MessagePlaced(s, Mover(s, t));
    MessageSteps(dump, s, Mover(s, t));
  }

  /** A thread with a message can take a step, or the holder of the output lock can. */
  lemma ThreadGoesOn(dump: Dump, s: State, t: nat)
    requires Conserved(s) && Responded(s) && Framed(dump, s) && t < |s.threads| && Index(s.threads[t]).Some?
    ensures CanGoOn(dump, s)
  {
    hide StepThread, Responded, Framed, Placed, Ordered, Disciplined, Index;
    MoverMoves(dump, s, t);
    assert Next(dump, s, Step(Mover(s, t))).Some?;
  }

  lemma WorkerGoesOn(dump: Dump, s: State, t: nat)
    requires Conserved(s) && Responded(s) && Framed(dump, s) && 0 < t < |s.threads|
    requires s.queue != [] || s.threads[t].LastPop? || Index(s.threads[t]).Some?
    requires !s.threads[t].Stopped?
    ensures CanGoOn(dump, s)
  {
    hide StepThread, Responded, Framed, Disciplined;
    if Index(s.threads[t]).Some? {
      ThreadGoesOn(dump, s, t);
    } else {
      assert Next(dump, s, Pop(t)).Some?;
    }
  }

  /** The pool hangs in its stop: jobs are queued and every worker has stopped. */
  ghost predicate Hangs(s: State) {
    s.main.Spinning? && s.queue != [] && AllStopped(s.threads)
  }

  lemma StuckOnlyAtEnd(dump: Dump, s: State)
    requires Conserved(s) && Responded(s) && Framed(dump, s) && StopPhase(s)
    ensures CanGoOn(dump, s) || s.main.Finished? || Hangs(s)
  {
    hide StepThread, Responded, Framed, Placed, Ordered;
    assert s.main.Draining? ==> s.main.i < |s.place| && |s.threads| > 1;
    match s.main
    case Reading => assert Next(dump, s, Read).Some?;
    case Scheduling(_) => assert Next(dump, s, Schedule).Some?;
    case Checking => assert Next(dump, s, Check).Some?;
    case Exited => assert Next(dump, s, RequestStop({})).Some?;
    case Executing(_) => ThreadGoesOn(dump, s, 0);
    case Draining(_) =>
      if s.queue == [] {
        assert Next(dump, s, Drain).Some?;
      } else {
        WorkerGoesOn(dump, s, 1);
      }
    case Spinning =>
      if s.queue == [] {
        assert Next(dump, s, SpinDone).Some?;
      } else if !AllStopped(s.threads) {
        var t :| 0 < t < |s.threads| && !s.threads[t].Stopped?;
        WorkerGoesOn(dump, s, t);
      }
    case Joining =>
      if AllStopped(s.threads) {
        assert Next(dump, s, Join).Some?;
      } else {
        var t :| 0 < t < |s.threads| && !s.threads[t].Stopped?;
        WorkerGoesOn(dump, s, t);
      }
    case Finished =>
  }

  // ---- When the stop hangs ----

  function LastPops(threads: seq<Pc>): nat {
    if threads == [] then 0 else (if threads[0].LastPop? then 1 else 0) + LastPops(threads[1..])
  }

  lemma {:induction false} LastPopsUpdate(threads: seq<Pc>, t: nat, pc: Pc)
    requires t < |threads|
    ensures LastPops(threads[t := pc]) + (if threads[t].LastPop? then 1 else 0)
         == LastPops(threads) + (if pc.LastPop? then 1 else 0)
  {
    if t == 0 {
      assert threads[t := pc][1..] == threads[1..];
    } else {
      assert threads[t := pc][1..] == threads[1..][t - 1 := pc];
      LastPopsUpdate(threads[1..], t - 1, pc);
    }
  }

  lemma {:induction false} NoLastPops(threads: seq<Pc>)
    requires forall t :: 0 <= t < |threads| ==> !threads[t].LastPop?
    ensures LastPops(threads) == 0
  {
    if threads != [] {
      NoLastPops(threads[1..]);
    }
  }

  /** No more jobs are queued than workers are on their last pop. */
  ghost predicate Covered(s: State) {
    |s.queue| <= LastPops(s.threads)
  }

  /** The balance of jobs and last pops decides, and no action after the request to stop changes its outcome. */
  lemma CoveredNext(dump: Dump, s: State, a: Action)
    requires Disciplined(s) && StopPhase(s) && s.stopping && Next(dump, s, a).Some?
    ensures Covered(s) <==> Covered(Next(dump, s, a).value)
    ensures Next(dump, s, a).value.stopping
  {
    hide Advance, LastPops;
    match a
    case Step(t) =>
      LastPopsUpdate(s.threads, t, StepThread(dump, s, t).value.threads[t]);
      if !s.threads[t].StoreFlag? {
        AdvanceIndex(dump, s, t, s.threads[t]);
      }
    case Pop(t) =>
      LastPopsUpdate(s.threads, t, StepPop(s, t).value.threads[t]);
    case _ =>
  }

  // ---- Over whole runs ----

  ghost predicate Sound(dump: Dump, s: State) {
    Conserved(s) && Responded(s) && Framed(dump, s) && StopPhase(s)
  }

  lemma SoundNext(dump: Dump, s: State, a: Action)
    requires Sound(dump, s) && Next(dump, s, a).Some?
    ensures Sound(dump, Next(dump, s, a).value)
  {
    hide Responded, Framed, StopPhase, Placed, Ordered, Disciplined, Next;
    ConservedNext(dump, s, a);
    RespondedNext(dump, s, a);
    FramedNext(dump, s, a);
    StopPhaseNext(dump, s, a);
  }

  lemma {:induction false} RunSound(dump: Dump, s: State, actions: seq<Action>)
    requires Sound(dump, s) && Run(dump, s, actions).Some?
    ensures Sound(dump, Run(dump, s, actions).value)
    decreases |actions|
  {
    hide Sound, Next;
    if actions != [] {
      SoundNext(dump, s, actions[0]);
      RunSound(dump, Next(dump, s, actions[0]).value, actions[1..]);
    }
  }

  lemma InitiallySound(dump: Dump, input: seq<Option<Message>>, logs: seq<LogRecord>, workers: nat)
    requires workers >= 1
    ensures Sound(dump, Initial(input, logs, workers))
  {
    InitiallyConserved(input, logs, workers);
    InitiallyResponded(dump, input, logs, workers);
  }

  lemma ReachableSound(dump: Dump, s: State)
    requires Reachable(dump, s)
    ensures Sound(dump, s)
  {
    hide *;
    var input, logs, workers, actions := ReachableRun(dump, s);
    InitiallySound(dump, input, logs, workers);
    RunSound(dump, Initial(input, logs, workers), actions);
  }

  /** A run that cannot go on has finished, or hangs in the stop of the pool. */
  lemma NoOtherDeadlock(dump: Dump, s: State)
    requires Reachable(dump, s) && !CanGoOn(dump, s)
    ensures s.main.Finished? || Hangs(s)
  {
    ReachableSound(dump, s);
    StuckOnlyAtEnd(dump, s);
  }

  lemma {:induction false} RunCovered(dump: Dump, s: State, actions: seq<Action>)
    requires Sound(dump, s) && s.stopping && Run(dump, s, actions).Some?
    ensures Run(dump, s, actions).value.stopping
    ensures Covered(s) <==> Covered(Run(dump, s, actions).value)
    decreases |actions|
  {
    hide Responded, Framed, Placed, Ordered, Disciplined, Covered, Next, StopPhase;
    if actions != [] {
      SoundNext(dump, s, actions[0]);
      CoveredNext(dump, s, actions[0]);
      RunCovered(dump, Next(dump, s, actions[0]).value, actions[1..]);
    }
  }

  /** Once the workers have been asked to stop, every run that goes on as far as it can ends if at most as many jobs are
      queued as workers had already checked and will pop once more; otherwise every one of them hangs. */
  lemma StopEndsIff(dump: Dump, s: State, actions: seq<Action>)
    requires Reachable(dump, s) && s.stopping
    requires Run(dump, s, actions).Some? && !CanGoOn(dump, Run(dump, s, actions).value)
    ensures Run(dump, s, actions).value.main.Finished? <==> |s.queue| <= LastPops(s.threads)
  {
    hide Responded, Framed, Placed, Ordered, Disciplined, Covered, Next, StopPhase, CanGoOn, Run, Reachable, Hangs;
    var end := Run(dump, s, actions).value;
    ReachableSound(dump, s);
    RunSound(dump, s, actions);
    RunCovered(dump, s, actions);
    StuckOnlyAtEnd(dump, end);
    EndCovered(s, end);
  }

  lemma EndCovered(s: State, end: State)
    requires Disciplined(end) && StopPhase(end) && end.stopping && (end.main.Finished? || Hangs(end))
    requires Covered(s) <==> Covered(end)
    ensures end.main.Finished? <==> |s.queue| <= LastPops(s.threads)
  {
    if Hangs(end) {
      NoLastPops(end.threads);
    }
  }

  // ---- The exit flag ----

  /** A thread has computed a false value for the exit flag and not stored it yet. */
  predicate Armed(threads: seq<Pc>) {
    exists t :: 0 <= t < |threads| && threads[t].StoreFlag? && !threads[t].value
  }

  lemma SetUnarmedNext(dump: Dump, s: State, a: Action)
    requires s.flag && !Armed(s.threads) && Next(dump, s, a).Some?
    ensures var s' := Next(dump, s, a).value;
            s'.flag && !Armed(s'.threads)
  {
    hide StepThread, StepRequestStop;
    match a
    case Step(t) => SetUnarmedStep(dump, s, t);
    case RequestStop(passed) => SetUnarmedRequestStop(s, passed);
    case _ =>
  }

  lemma SetUnarmedStep(dump: Dump, s: State, t: nat)
    requires s.flag && !Armed(s.threads) && t < |s.threads| && StepThread(dump, s, t).Some?
    ensures var s' := StepThread(dump, s, t).value;
            s'.flag && !Armed(s'.threads)
  {
    hide Context.Execute, DidChange.ApplyOne, Finalized, Framing.Piece;
  }

  lemma SetUnarmedRequestStop(s: State, passed: set<nat>)
    requires s.flag && !Armed(s.threads) && StepRequestStop(s, passed).Some?
    ensures StepRequestStop(s, passed).value.flag && !Armed(StepRequestStop(s, passed).value.threads)
  {
  }

  /** When the reader thread has set the flag for an exit message, the queue is empty. */
  lemma ExitFindsQueueEmpty(dump: Dump, s: State)
    requires Reachable(dump, s) && s.threads != [] && s.threads[0].StoreFlag?
    ensures s.main.Executing? && s.queue == []
  {
    ReachableConserved(dump, s);
  }

  /** The state after an undisturbed exit, and everything that follows it. */
  ghost predicate Leaving(s: State) {
    && s.flag && !Armed(s.threads) && s.queue == []
    && (s.main.Checking? || s.main.Exited? || Ending(s.main))
  }

  lemma LeavingNext(dump: Dump, s: State, a: Action)
    requires Disciplined(s) && Leaving(s) && Next(dump, s, a).Some?
    ensures Leaving(Next(dump, s, a).value) && Next(dump, s, a).value.accepted == s.accepted
  {
    SetUnarmedNext(dump, s, a);
    hide Armed, StepThread, StepPop, StepRequestStop, ThreadsDisciplined, QueueDisciplined;
    match a
    case Step(t) => StepFields(dump, s, t);
    case Pop(t) => LeavingPop(s, t);
    case RequestStop(passed) => Termination.RequestStopPhase(s, passed);
    case _ =>
  }

  lemma LeavingPop(s: State, t: nat)
    requires s.queue == [] && StepPop(s, t).Some?
    ensures StepPop(s, t).value.queue == [] && StepPop(s, t).value.main == s.main
    ensures StepPop(s, t).value.accepted == s.accepted
  {
  }

  /** The server leaves its loop only because of an exit notification, because it is stopped from outside, or after one
      more than the maximum number of successive failed reads. */
  lemma WhyItExits(dump: Dump, s: State, a: Action)
    requires Reachable(dump, s) && Next(dump, s, a).Some?
    requires !s.main.Exited? && Next(dump, s, a).value.main.Exited?
    ensures || (a.Check? && Determinism.HasExit(s.accepted))
            || a.ExternalStop?
            || (a.Read? && Next(dump, s, a).value.failures == MAX_FAILED_REQUESTS + 1)
  {
    Determinism.ReachableSettled(dump, s);
    Termination.ReachableCounted(dump, s);
    Determinism.FlagMeansExit(s);
    hide Determinism.ExitCaused, Determinism.Settled, Determinism.HasExit, Conserved, Termination.Counted, StepThread,
      StepPop, StepSchedule, StepDrain, StepRequestStop, StepRead, StepLog, Reachable;
    match a
    case Step(t) => StepStaysIn(dump, s, t);
    case RequestStop(passed) => Termination.RequestStopPhase(s, passed);
    case Read => FourthFailure(s);
    case Pop(t) => OthersStayIn(dump, s, a);
    case Schedule => OthersStayIn(dump, s, a);
    case Drain => OthersStayIn(dump, s, a);
    case Log => OthersStayIn(dump, s, a);
    case _ =>
  }

  lemma OthersStayIn(dump: Dump, s: State, a: Action)
    requires a.Pop? || a.Schedule? || a.Drain? || a.Log?
    requires Next(dump, s, a).Some? && Next(dump, s, a).value.main.Exited?
    ensures s.main.Exited?
  {
  }

  lemma StepStaysIn(dump: Dump, s: State, t: nat)
    requires t < |s.threads| && StepThread(dump, s, t).Some?
    ensures StepThread(dump, s, t).value.main.Exited? ==> s.main.Exited?
  {
    hide Advance;
  }

  lemma FourthFailure(s: State)
    requires Termination.Counted(s) && StepRead(s).Some? && StepRead(s).value.main.Exited?
    ensures StepRead(s).value.failures == MAX_FAILED_REQUESTS + 1
  {
  }

  // ---- Both failures do happen ----

  const COMPLETION := Request("textDocument/completion", Number(1), Malformed)
  const SET_TRACE := Notification("$/setTrace", Malformed)
  const EXIT := Notification("exit", Malformed)
  const SHUTDOWN := Request("shutdown", Number(2), Malformed)

  lemma {:induction false} RunAppend(dump: Dump, s: State, actions: seq<Action>, a: Action)
    requires Run(dump, s, actions).Some?
    ensures Run(dump, s, actions + [a]) == Next(dump, Run(dump, s, actions).value, a)
    decreases |actions|
  {
    hide Next;
    if actions == [] {
      assert [a][1..] == [];
    } else {
      assert (actions + [a])[1..] == actions[1..] + [a];
      RunAppend(dump, Next(dump, s, actions[0]).value, actions[1..], a);
    }
  }

  lemma ReachNext(dump: Dump, s: State, a: Action) returns (s': State)
    requires Reachable(dump, s) && Next(dump, s, a).Some?
    ensures Reachable(dump, s') && s' == Next(dump, s, a).value
  {
    hide Next, Initial;
    var input, logs, workers, actions := ReachableRun(dump, s);
    RunAppend(dump, Initial(input, logs, workers), actions, a);
    s' := Next(dump, s, a).value;
  }

  lemma ReachInitial(dump: Dump, input: seq<Option<Message>>) returns (s: State)
    ensures Reachable(dump, s) && s == Initial(input, [], 1)
  {
    s := Initial(input, [], 1);
    assert Run(dump, s, []) == Some(s);
  }

  /** A client that sends one concurrent request and closes its end can leave the pool hanging. */
  lemma StopCanHang(dump: Dump)
    ensures exists s :: Reachable(dump, s) && Hangs(s)
  {
    hide Reachable, StepThread;
    var s := ReachInitial(dump, [Some(COMPLETION)]);
    s := ReachNext(dump, s, Read);
    s := ReachNext(dump, s, Schedule);
    s := ReachNext(dump, s, Check);
    s := ReachNext(dump, s, Read);
    s := ReachNext(dump, s, Read);
    s := ReachNext(dump, s, Read);
    s := ReachNext(dump, s, Read);
    s := ReachNext(dump, s, RequestStop({}));
    assert Hangs(s);
  }

  /** A worker has taken a job. */
  lemma WorkerStarts(dump: Dump) returns (s: State)
    ensures Reachable(dump, s)
    ensures s.main == Reading && s.input == [Some(EXIT), Some(SHUTDOWN)] && s.queue == [] && !s.flag && !s.stopping
    ensures s.threads == [Idle, Begin(0)] && s.accepted == [SET_TRACE] && s.place == [Running(1)]
    ensures s.shared == Context.INITIAL
  {
    hide Reachable, StepThread;
    s := ReachInitial(dump, [Some(SET_TRACE), Some(EXIT), Some(SHUTDOWN)]);
    s := ReachNext(dump, s, Read);
    s := ReachNext(dump, s, Schedule);
    s := ReachNext(dump, s, Check);
    s := ReachNext(dump, s, Pop(1));
  }

  lemma TraceIgnored()
    ensures Begun(Context.INITIAL, 0, SET_TRACE) == (Handled(0, None), Context.INITIAL)
  {
  }

  /** A worker that has loaded the exit flag and is about to store the false it found. */
  lemma ArmedWorker(dump: Dump) returns (s: State)
    ensures Reachable(dump, s)
    ensures s.main == Reading && s.input == [Some(EXIT), Some(SHUTDOWN)] && s.queue == [] && !s.flag && !s.stopping
    ensures s.threads == [Idle, StoreFlag(0, false)] && s.accepted == [SET_TRACE] && s.place == [Running(1)]
  {
    hide Reachable, Begun, Context.Execute, DidChange.ApplyOne, Finalized, Framing.Piece;
    s := WorkerStarts(dump);
    TraceIgnored();
    s := ReachNext(dump, s, Step(1));
    s := ReachNext(dump, s, Step(1));
    s := ReachNext(dump, s, Step(1));
  }

  /** The reader thread is about to execute the exit; the worker still holds its stale false. */
  lemma StaleWorkerBefore(dump: Dump) returns (s: State)
    ensures Reachable(dump, s)
    ensures s.main == Executing(1) && s.input == [Some(SHUTDOWN)] && s.queue == [] && !s.flag && !s.stopping
    ensures s.threads == [Begin(1), StoreFlag(0, false)] && s.accepted == [SET_TRACE, EXIT]
    ensures s.place == [Running(1), Running(0)]
  {
    hide Reachable, StepThread;
    s := ArmedWorker(dump);
    s := ReachNext(dump, s, Read);
    s := ReachNext(dump, s, Schedule);
    s := ReachNext(dump, s, Drain);
  }

  lemma ExitExecutes(shared: Context.Shared, i: nat)
    ensures Begun(shared, i, EXIT) == (Handled(i, None), shared.(exitRequested := true))
  {
  }

  /** The reader thread has executed the exit and set the flag. */
  lemma StaleWorker(dump: Dump) returns (s: State)
    ensures Reachable(dump, s)
    ensures s.main == Checking && s.input == [Some(SHUTDOWN)] && s.queue == [] && s.flag && !s.stopping
    ensures s.threads == [Idle, StoreFlag(0, false)] && s.accepted == [SET_TRACE, EXIT] && |s.place| == 2
  {
    hide Reachable, Begun, Context.Execute, DidChange.ApplyOne, Finalized, Framing.Piece;
    s := StaleWorkerBefore(dump);
    ExitExecutes(s.shared, 1);
    s := ReachNext(dump, s, Step(0));
    s := ReachNext(dump, s, Step(0));
    s := ReachNext(dump, s, Step(0));
    s := ReachNext(dump, s, Step(0));
  }

  /** An exit can be lost: a worker that has loaded the flags before the exit stores its stale false after it, and the
      server accepts the next message. */
  lemma ExitCanBeLost(dump: Dump)
    ensures exists s :: Reachable(dump, s) && s.accepted == [SET_TRACE, EXIT, SHUTDOWN]
  {
    hide Reachable;
    var s := StaleWorker(dump);
    s := ReachNext(dump, s, Step(1));
    s := ReachNext(dump, s, Check);
    s := ReachNext(dump, s, Read);
    s := ReachNext(dump, s, Schedule);
  }
}
