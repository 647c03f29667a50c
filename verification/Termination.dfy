/**
 Every run of the server is finite, whatever the scheduling: each action decreases a lexicographic measure of the
 reads to come, the failures left, the phase of the reader thread, and the steps and log records still to come.
 */
module Termination {
  import opened Wrappers
  import opened Protocol
  import opened Scheduler
  import opened Conservation
  import Context
  import Framing

  /** An upper bound on the steps a thread still takes with its message. */
  function StepsLeft(pc: Pc, accepted: seq<Message>): nat {
    match pc
    case Begin(i) => if i < |accepted| then MessageSteps(accepted[i]) else 1
    case Applying(_, _, _, changes) => 11 + |changes|
    case Handled(_, _) => 10
    case Sending(_, _, _) => 9
    case Writing(_, _, _, k) => if k < 5 then 8 - k else 3
    case LoadFlag(_, _) => 2
    case StoreFlag(_, _) => 1
    case LastPop => 1
    case _ => 0
  }

  function MessageSteps(m: Message): nat {
    12 + if m.params.ChangeParams? then |m.params.changes| else 0
  }

  function ThreadSteps(threads: seq<Pc>, accepted: seq<Message>): nat {
    if threads == [] then 0 else StepsLeft(threads[0], accepted) + ThreadSteps(threads[1..], accepted)
  }

  function QueueSteps(queue: seq<nat>, accepted: seq<Message>): nat {
    if queue == [] then 0
    else (if queue[0] < |accepted| then MessageSteps(accepted[queue[0]]) else 1) + 1 + QueueSteps(queue[1..], accepted)
  }

  /** How far the reader thread is from its next read, or from the end. */
  function Phase(main: Main): nat {
    match main
    case Scheduling(_) => 9
    case Draining(_) => 8
    case Executing(_) => 7
    case Checking => 6
    case Reading => 5
    case Exited => 4
    case Spinning => 3
    case Joining => 2
    case Finished => 1
  }

  datatype Measure = Measure(unread: nat, failuresLeft: nat, phase: nat, steps: nat)

  function MeasureOf(s: State): Measure {
    Measure(|s.input|,
            if s.failures <= MAX_FAILED_REQUESTS then MAX_FAILED_REQUESTS + 1 - s.failures else 0,
            Phase(s.main),
            ThreadSteps(s.threads, s.accepted) + QueueSteps(s.queue, s.accepted) + |s.logs|)
  }

  predicate Below(m: Measure, n: Measure) {
    || m.unread < n.unread
    || (m.unread == n.unread && m.failuresLeft < n.failuresLeft)
    || (m.unread == n.unread && m.failuresLeft == n.failuresLeft && m.phase < n.phase)
    || (m.unread == n.unread && m.failuresLeft == n.failuresLeft && m.phase == n.phase && m.steps < n.steps)
  }

  lemma {:induction false} ThreadStepsUpdate(threads: seq<Pc>, accepted: seq<Message>, t: nat, pc: Pc)
    requires t < |threads|
    ensures ThreadSteps(threads[t := pc], accepted) + StepsLeft(threads[t], accepted)
         == ThreadSteps(threads, accepted) + StepsLeft(pc, accepted)
  {
    if t == 0 {
      assert threads[t := pc][1..] == threads[1..];
    } else {
      assert threads[t := pc][1..] == threads[1..][t - 1 := pc];
      ThreadStepsUpdate(threads[1..], accepted, t - 1, pc);
    }
  }

  lemma AdvanceDecreases(dump: Dump, s: State, t: nat, pc: Pc)
    requires Advance(dump, s, t, pc).Some?
    requires pc.Begin? ==> pc.i < |s.accepted|
    ensures StepsLeft(Advance(dump, s, t, pc).value.pc, s.accepted) < StepsLeft(pc, s.accepted)
  {
    hide Context.Execute, Finalized, Framing.Piece;
  }

  /** The reader thread gives up after more than the maximum number of successive failures. */
  predicate Counted(s: State) {
    s.failures <= MAX_FAILED_REQUESTS || Phase(s.main) <= Phase(Exited)
  }

  lemma CountedNext(dump: Dump, s: State, a: Action)
    requires Disciplined(s) && Counted(s) && Next(dump, s, a).Some?
    ensures Counted(Next(dump, s, a).value)
  {
    hide StepThread, StepPop, StepRequestStop, ThreadsDisciplined, QueueDisciplined;
    match a
    case RequestStop(passed) => RequestStopPhase(s, passed);
    case Step(t) => StepFields(dump, s, t);
    case Pop(t) => PopCounted(s, t);
    case _ =>
  }

  lemma PopCounted(s: State, t: nat)
    requires StepPop(s, t).Some?
    ensures StepPop(s, t).value.failures == s.failures && StepPop(s, t).value.main == s.main
  {
  }

  lemma RequestStopPhase(s: State, passed: set<nat>)
    requires StepRequestStop(s, passed).Some?
    ensures s.main.Exited? && StepRequestStop(s, passed).value.main.Spinning?
    ensures StepRequestStop(s, passed).value.input == s.input && StepRequestStop(s, passed).value.failures == s.failures
  {
  }

  lemma StoreCosts(pc: Pc, accepted: seq<Message>)
    ensures pc.StoreFlag? ==> StepsLeft(pc, accepted) == 1
    ensures StepsLeft(Idle, accepted) == 0 && StepsLeft(Stopped, accepted) == 0
  {
  }

  lemma StepDecreases(dump: Dump, s: State, t: nat)
    requires Conserved(s) && t < |s.threads| && StepThread(dump, s, t).Some?
    ensures Below(MeasureOf(StepThread(dump, s, t).value), MeasureOf(s))
  {
    hide Advance, StepThread, ThreadSteps, QueueSteps, StepsLeft, Placed, Ordered, QueueDisciplined;
    StepFields(dump, s, t);
    StoreCosts(s.threads[t], s.accepted);
    var pc' := StepThread(dump, s, t).value.threads[t];
    ThreadStepsUpdate(s.threads, s.accepted, t, pc');
    if !s.threads[t].StoreFlag? {
      AdvanceDecreases(dump, s, t, s.threads[t]);
    }
  }

  lemma PopDecreases(s: State, t: nat)
    requires Conserved(s) && StepPop(s, t).Some?
    ensures Below(MeasureOf(StepPop(s, t).value), MeasureOf(s))
  {
    hide ThreadSteps;
    ThreadStepsUpdate(s.threads, s.accepted, t, StepPop(s, t).value.threads[t]);
  }

  /** Every action brings the server closer to its end. */
  lemma NextDecreases(dump: Dump, s: State, a: Action)
    requires Conserved(s) && Counted(s) && Next(dump, s, a).Some?
    ensures Below(MeasureOf(Next(dump, s, a).value), MeasureOf(s))
  {
    hide Conserved, StepThread, StepPop, StepRead, StepLog, ThreadSteps, QueueSteps, StepRequestStop;
    match a
    case Step(t) => StepDecreases(dump, s, t);
    case Pop(t) => PopDecreases(s, t);
    case RequestStop(passed) => RequestStopPhase(s, passed);
    case Schedule => PhaseDecreases(dump, s, a);
    case Drain => PhaseDecreases(dump, s, a);
    case Check => PhaseDecreases(dump, s, a);
    case SpinDone => PhaseDecreases(dump, s, a);
    case Join => PhaseDecreases(dump, s, a);
    case ExternalStop => PhaseDecreases(dump, s, a);
    case Log => LogDecreases(s);
    case Read => ReadDecreases(s);
  }

  /** Actions that bring the reader thread closer to its next read, or to the end. */
  lemma PhaseDecreases(dump: Dump, s: State, a: Action)
    requires a.Schedule? || a.Drain? || a.Check? || a.SpinDone? || a.Join? || a.ExternalStop?
    requires Next(dump, s, a).Some?
    ensures Below(MeasureOf(Next(dump, s, a).value), MeasureOf(s))
  {
    hide ThreadSteps, QueueSteps, AllStopped;
  }

  lemma LogDecreases(s: State)
    requires StepLog(s).Some?
    ensures Below(MeasureOf(StepLog(s).value), MeasureOf(s))
  {
    hide ThreadSteps, QueueSteps, StepLog;
    LogFields(s);
    LogsUsed(s);
  }

  lemma LogsUsed(s: State)
    requires StepLog(s).Some?
    ensures s.logs != []
  {
  }

  lemma ReadDecreases(s: State)
    requires Counted(s) && StepRead(s).Some?
    ensures Below(MeasureOf(StepRead(s).value), MeasureOf(s))
  {
    hide ThreadSteps, QueueSteps;
  }

  /** The first n actions of an endless sequence. */
  function Take(schedule: nat -> Action, n: nat): seq<Action> {
    seq(n, k requires 0 <= k < n => schedule(k))
  }

  /** No endless sequence of actions is a run: sooner or later its next action is not possible. */
  lemma {:induction false} RunsEnd(dump: Dump, s: State, schedule: nat -> Action) returns (n: nat)
    requires Conserved(s) && Counted(s)
    ensures Run(dump, s, Take(schedule, n)).None?
    decreases MeasureOf(s).unread, MeasureOf(s).failuresLeft, MeasureOf(s).phase, MeasureOf(s).steps
  {
    hide Counted, Next, MeasureOf, Placed, Ordered, Disciplined;
    var first := Next(dump, s, schedule(0));
    if first.None? {
      n := 1;
      assert Take(schedule, 1)[0] == schedule(0);
    } else {
      ConservedNext(dump, s, schedule(0));
      CountedNext(dump, s, schedule(0));
      NextDecreases(dump, s, schedule(0));
      var later := (k: nat) => schedule(k + 1);
      var n' := RunsEnd(dump, first.value, later);
      n := n' + 1;
      assert Take(schedule, n)[0] == schedule(0) && Take(schedule, n)[1..] == Take(later, n');
    }
  }

  lemma {:induction false} RunCounted(dump: Dump, s: State, actions: seq<Action>)
    requires Conserved(s) && Counted(s) && Run(dump, s, actions).Some?
    ensures Counted(Run(dump, s, actions).value)
    decreases |actions|
  {
    hide Counted, Next, Placed, Ordered, Disciplined;
    if actions != [] {
      ConservedNext(dump, s, actions[0]);
      CountedNext(dump, s, actions[0]);
      RunCounted(dump, Next(dump, s, actions[0]).value, actions[1..]);
    }
  }

  lemma InitiallyCounted(input: seq<Option<Message>>, logs: seq<LogRecord>, workers: nat)
    ensures Counted(Initial(input, logs, workers))
  {
  }

  lemma ReachableCounted(dump: Dump, s: State)
    requires Reachable(dump, s)
    ensures Conserved(s) && Counted(s)
  {
    hide *;
    var input, logs, workers, actions := ReachableRun(dump, s);
    InitiallyConserved(input, logs, workers);
    InitiallyCounted(input, logs, workers);
    RunConserved(dump, Initial(input, logs, workers), actions);
    RunCounted(dump, Initial(input, logs, workers), actions);
  }

  /** From every reachable state, every endless sequence of actions gets stuck: there is no endless run. */
  lemma NoEndlessRun(dump: Dump, s: State, schedule: nat -> Action)
    requires Reachable(dump, s)
    ensures exists n: nat :: Run(dump, s, Take(schedule, n)).None?
  {
    ReachableCounted(dump, s);
    var n := RunsEnd(dump, s, schedule);
  }
}
