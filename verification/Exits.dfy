/**
 What can be told beforehand: whether stopping the pool will end, before the workers are asked to stop; and that an exit
 message which finds the pool quiet is heeded and ends the server.
 */
module Exits {
  import opened Wrappers
  import opened Protocol
  import opened Context
  import opened Scheduler
  import opened Conservation
  import opened Responses
  import opened Shutdown
  import Determinism
  import DidChange
  import Framing
  import Termination

  ghost predicate Reaches(dump: Dump, s: State, end: State) {
    exists actions :: Run(dump, s, actions) == Some(end)
  }

  lemma ReachesItself(dump: Dump, s: State)
    ensures Reaches(dump, s, s)
  {
    assert Run(dump, s, []) == Some(s);
  }

  lemma ReachesFirst(dump: Dump, s: State, a: Action, end: State)
    requires Next(dump, s, a).Some? && Reaches(dump, Next(dump, s, a).value, end)
    ensures Reaches(dump, s, end)
  {
    hide Next;
    var actions :| Run(dump, Next(dump, s, a).value, actions) == Some(end);
    assert ([a] + actions)[1..] == actions;
    assert Run(dump, s, [a] + actions) == Some(end);
  }

  lemma ReachesTrans(dump: Dump, s: State, middle: State, end: State)
    requires Reaches(dump, s, middle) && Reaches(dump, middle, end)
    ensures Reaches(dump, s, end)
  {
    var actions :| Run(dump, s, actions) == Some(middle);
    ReachesFrom(dump, s, actions, end);
  }

  lemma {:induction false} ReachesFrom(dump: Dump, s: State, actions: seq<Action>, end: State)
    requires Run(dump, s, actions).Some? && Reaches(dump, Run(dump, s, actions).value, end)
    ensures Reaches(dump, s, end)
    decreases |actions|
  {
    hide Next, Reaches;
    if actions != [] {
      ReachesFrom(dump, Next(dump, s, actions[0]).value, actions[1..], end);
      ReachesFirst(dump, s, actions[0], end);
    }
  }

  // ---- Stopping the pool ----

  /** Every run that goes on as far as it can finishes. */
  ghost predicate AlwaysFinishes(dump: Dump, s: State) {
    forall end :: Reaches(dump, s, end) && !CanGoOn(dump, end) ==> end.main.Finished?
  }

  lemma {:induction false} GoesOnToEnd(dump: Dump, s: State) returns (end: State)
    requires Sound(dump, s) && Termination.Counted(s)
    ensures Reaches(dump, s, end) && !CanGoOn(dump, end)
    decreases Termination.MeasureOf(s).unread, Termination.MeasureOf(s).failuresLeft, Termination.MeasureOf(s).phase,
              Termination.MeasureOf(s).steps
  {
    if CanGoOn(dump, s) {
      var a :| Next(dump, s, a).Some?;
      SoundNext(dump, s, a);
      SoundParts(dump, s);
      hide Sound, Reaches, CanGoOn, Next, Termination.MeasureOf, Conserved, Disciplined;
      Termination.CountedNext(dump, s, a);
      Termination.NextDecreases(dump, s, a);
      end := GoesOnToEnd(dump, Next(dump, s, a).value);
      ReachesFirst(dump, s, a, end);
    } else {
      end := s;
      ReachesItself(dump, s);
    }
  }

  lemma SoundParts(dump: Dump, s: State)
    requires Sound(dump, s)
    ensures Conserved(s) && Disciplined(s) && Responded(s) && Framed(dump, s) && StopPhase(s)
  {
  }

  /** The server has left its loop with nothing queued. */
  predicate LeftEmpty(s: State) {
    s.queue == [] && (s.main.Exited? || Ending(s.main))
  }

  lemma LeftEmptyNext(dump: Dump, s: State, a: Action)
    requires Disciplined(s) && LeftEmpty(s) && Next(dump, s, a).Some?
    ensures LeftEmpty(Next(dump, s, a).value)
  {
    hide StepThread, StepPop, StepRequestStop, ThreadsDisciplined, QueueDisciplined;
    match a
    case Step(t) => StepFields(dump, s, t);
    case Pop(t) => LeavingPop(s, t);
    case RequestStop(passed) => AskedQueue(s, passed);
    case _ =>
  }

  lemma AskedQueue(s: State, passed: set<nat>)
    requires StepRequestStop(s, passed).Some?
    ensures StepRequestStop(s, passed).value.queue == s.queue && StepRequestStop(s, passed).value.main.Spinning?
  {
  }

  lemma {:induction false} RunLeftEmpty(dump: Dump, s: State, actions: seq<Action>)
    requires Sound(dump, s) && LeftEmpty(s) && Run(dump, s, actions).Some?
    ensures LeftEmpty(Run(dump, s, actions).value)
    decreases |actions|
  {
    hide Responded, Framed, StopPhase, Placed, Ordered, Disciplined, LeftEmpty, Next;
    if actions != [] {
      SoundNext(dump, s, actions[0]);
      LeftEmptyNext(dump, s, actions[0]);
      RunLeftEmpty(dump, Next(dump, s, actions[0]).value, actions[1..]);
    }
  }

  lemma LeftEmptyFinishes(dump: Dump, s: State, end: State)
    requires Reachable(dump, s) && LeftEmpty(s) && Reaches(dump, s, end) && !CanGoOn(dump, end)
    ensures end.main.Finished?
  {
    var actions :| Run(dump, s, actions) == Some(end);
    ReachableSound(dump, s);
    RunSound(dump, s, actions);
    RunLeftEmpty(dump, s, actions);
    StuckOnlyAtEnd(dump, end);
  }

  lemma NobodyPopsAgain(s: State)
    requires Disciplined(s) && StopPhase(s) && s.main.Exited?
    ensures StepRequestStop(s, {}).Some? && LastPops(StepRequestStop(s, {}).value.threads) == 0
    ensures StepRequestStop(s, {}).value.stopping && StepRequestStop(s, {}).value.queue == s.queue
  {
    NoLastPops(StepRequestStop(s, {}).value.threads);
  }

  lemma AskToStop(dump: Dump, s: State)
    ensures Next(dump, s, RequestStop({})) == StepRequestStop(s, {})
  {
  }

  /** Jobs left in the queue let a stop hang: it does if every idle worker sees the request before it looks again. */
  lemma LeftQueueHangs(dump: Dump, s: State) returns (end: State)
    requires Reachable(dump, s) && s.main.Exited? && s.queue != []
    ensures Reaches(dump, s, end) && !CanGoOn(dump, end) && !end.main.Finished?
  {
    ReachableSound(dump, s);
    Termination.ReachableCounted(dump, s);
    NobodyPopsAgain(s);
    AskToStop(dump, s);
    hide *;
    var asked := ReachNext(dump, s, RequestStop({}));
    ReachableSound(dump, asked);
    Termination.ReachableCounted(dump, asked);
    end := GoesOnToEnd(dump, asked);
    ReachesFirst(dump, s, RequestStop({}), end);
    StopHangs(dump, asked, end);
  }

  lemma StopHangs(dump: Dump, asked: State, end: State)
    requires Reachable(dump, asked) && asked.stopping && |asked.queue| > LastPops(asked.threads)
    requires Reaches(dump, asked, end) && !CanGoOn(dump, end)
    ensures !end.main.Finished?
  {
    hide Reachable, CanGoOn;
    var actions :| Run(dump, asked, actions) == Some(end);
    StopEndsIff(dump, asked, actions);
  }

  /** The stop of the pool always ends if and only if the queue is empty when the server leaves its loop. */
  lemma StopFinishesIff(dump: Dump, s: State)
    requires Reachable(dump, s) && s.main.Exited?
    ensures AlwaysFinishes(dump, s) <==> s.queue == []
  {
    hide Reachable, Reaches, CanGoOn;
    if s.queue == [] {
      forall end | Reaches(dump, s, end) && !CanGoOn(dump, end) ensures end.main.Finished? {
        LeftEmptyFinishes(dump, s, end);
      }
    } else {
      var end := LeftQueueHangs(dump, s);
    }
  }

  // ---- Heeding an exit ----

  /** No job is queued, and no worker executes one. */
  predicate Quiet(s: State) {
    s.queue == [] && forall t :: 0 < t < |s.threads| ==> Index(s.threads[t]).None?
  }

  /** Whatever happens, from the moment message i is done the exit flag is set. */
  ghost predicate Heeds(dump: Dump, s: State, i: nat) {
    forall end :: Reaches(dump, s, end) && i < |end.place| && end.place[i].Done? ==> end.flag
  }

  predicate ExitPc(pc: Pc, i: nat, shared: Shared) {
    || pc == Begin(i)
    || (pc == Handled(i, None) && shared.exitRequested)
    || pc == LoadFlag(i, true)
    || pc == StoreFlag(i, true)
  }

  /** An exit that nothing disturbs, from the moment it waits for the empty queue. */
  ghost predicate Exiting(s: State, i: nat) {
    && i < |s.accepted| == |s.place| && IsExit(s.accepted[i]) && s.threads != [] && Quiet(s)
    && (|| (s.main == Draining(i) && !s.place[i].Done?)
        || (s.main == Executing(i) && !s.place[i].Done? && ExitPc(s.threads[0], i, s.shared))
        || Leaving(s))
  }

  lemma ExitBegins(shared: Shared, i: nat, m: Message)
    requires IsExit(m)
    ensures Begun(shared, i, m) == (Handled(i, None), shared.(exitRequested := true))
  {
  }

  /** A step of the reader thread on the exit message. */
  lemma ExitingStep(dump: Dump, s: State, i: nat)
    requires Conserved(s) && Exiting(s, i) && s.main == Executing(i) && !s.place[i].Done?
    requires StepThread(dump, s, 0).Some?
    ensures var s' := StepThread(dump, s, 0).value;
            Exiting(s', i) && s'.accepted == s.accepted
  {
    hide Placed, Ordered, Execute, Finalized, Framing.Piece, DidChange.ApplyOne, Begun;
    ExitBegins(s.shared, i, s.accepted[i]);
  }

  /** No thread steps but the reader thread, and that one only while it executes the exit. */
  lemma OthersIdle(dump: Dump, s: State, i: nat, t: nat)
    requires Disciplined(s) && Exiting(s, i) && t < |s.threads| && StepThread(dump, s, t).Some?
    ensures t == 0 && s.main == Executing(i) && !s.place[i].Done?
  {
    hide Execute, Finalized, Framing.Piece, DidChange.ApplyOne;
  }

  lemma QuietStays(dump: Dump, s: State, a: Action)
    requires Quiet(s) && s.threads != [] && Next(dump, s, a).Some? && !a.Schedule? && !a.Step?
    ensures Quiet(Next(dump, s, a).value) && Next(dump, s, a).value.threads != []
  {
  }

  lemma ExitingNext(dump: Dump, s: State, i: nat, a: Action)
    requires Conserved(s) && Exiting(s, i) && Next(dump, s, a).Some?
    ensures var s' := Next(dump, s, a).value;
            Exiting(s', i) && s'.accepted == s.accepted
  {
    hide Placed, Ordered, StepThread, Quiet;
    if a.Step? {
      OthersIdle(dump, s, i, a.t);
      ExitingStep(dump, s, i);
    } else if Leaving(s) {
      LeavingNext(dump, s, a);
      QuietStays(dump, s, a);
      KeepsPlaces(dump, s, a);
    } else {
      hide Disciplined, Leaving;
      ExitWaits(dump, s, i, a);
    }
  }

  lemma KeepsPlaces(dump: Dump, s: State, a: Action)
    requires Quiet(s) && Next(dump, s, a).Some? && !a.Schedule? && !a.Step? && !a.Drain?
    ensures Next(dump, s, a).value.place == s.place && Next(dump, s, a).value.accepted == s.accepted
  {
  }

  /** Before the exit message is done only the reader thread moves. */
  lemma ExitWaits(dump: Dump, s: State, i: nat, a: Action)
    requires Exiting(s, i) && Next(dump, s, a).Some? && !a.Step?
    requires s.main == Draining(i) || s.main == Executing(i)
    requires !s.place[i].Done? && (s.main.Executing? ==> ExitPc(s.threads[0], i, s.shared))
    ensures var s' := Next(dump, s, a).value;
            Exiting(s', i) && s'.accepted == s.accepted
  {
    hide StepThread;
    QuietStays(dump, s, a);
  }

  lemma {:induction false} RunExiting(dump: Dump, s: State, i: nat, actions: seq<Action>)
    requires Conserved(s) && Exiting(s, i) && Run(dump, s, actions).Some?
    ensures Exiting(Run(dump, s, actions).value, i) && Run(dump, s, actions).value.accepted == s.accepted
    decreases |actions|
  {
    hide Conserved, Exiting, Next;
    if actions != [] {
      ConservedNext(dump, s, actions[0]);
      ExitingNext(dump, s, i, actions[0]);
      RunExiting(dump, Next(dump, s, actions[0]).value, i, actions[1..]);
    }
  }

  lemma ExitingBegins(s: State, i: nat)
    requires Conserved(s) && s.main == Draining(i) && IsExit(s.accepted[i]) && Quiet(s)
    ensures Exiting(s, i)
  {
  }

  lemma ExitingOutcome(s: State, i: nat)
    requires Exiting(s, i)
    ensures i < |s.place| && (s.place[i].Done? ==> s.flag)
    ensures s.main.Finished? || !Hangs(s)
  {
  }

  /** An exit that finds the pool quiet ends the server: nothing more is accepted, the exit flag is set once the message
      is done, and every run that goes on as far as it can finishes. */
  lemma QuietExitFinishes(dump: Dump, s: State, i: nat, end: State)
    requires Reachable(dump, s) && s.main == Draining(i) && i < |s.accepted| && IsExit(s.accepted[i]) && Quiet(s)
    requires Reaches(dump, s, end)
    ensures end.accepted == s.accepted && i < |end.place|
    ensures end.place[i].Done? ==> end.flag
    ensures !CanGoOn(dump, end) ==> end.main.Finished?
  {
    var actions :| Run(dump, s, actions) == Some(end);
    ReachableSound(dump, s);
    hide Exiting, Quiet, Reachable, Reaches, Run, Placed, Ordered, Disciplined, Responded, Framed, StopPhase, CanGoOn,
      Hangs;
    ExitingBegins(s, i);
    RunExiting(dump, s, i, actions);
    RunSound(dump, s, actions);
    ExitingOutcome(end, i);
    if !CanGoOn(dump, end) {
      StuckOnlyAtEnd(dump, end);
    }
  }
}
