/**
 The documents do not depend on the interleaving: whatever the threads do, the open files and the initialised flag are
 those of executing the accepted messages one by one in the order they arrived.
 */
module Determinism {
  import opened Wrappers
  import opened Protocol
  import opened Context
  import opened Scheduler
  import opened Conservation
  import DidChange

  /** Executing messages one by one, as far as the documents go. */
  function Sequential(messages: seq<Message>): Docs {
    if messages == [] then INITIAL.docs
    else ExecuteDocs(Sequential(messages[..|messages| - 1]), messages[|messages| - 1])
  }

  lemma ConcurrentKeepsDocs(docs: Docs, m: Message)
    requires IsConcurrentRequest(m)
    ensures ExecuteDocs(docs, m) == docs && !IsChange(docs.initialized, m)
  {
  }

  /** The documents as they will be when the thread has finished its message. */
  function Settle(docs: Docs, pc: Pc, accepted: seq<Message>): Docs {
    match pc
    case Begin(i) => if i < |accepted| then ExecuteDocs(docs, accepted[i]) else docs
    case Applying(_, uri, version, changes) =>
      docs.(files := DidChange.ApplyAll(docs.files, uri, version, changes).files)
    case _ => docs
  }

  function Pending(s: State): Docs
    requires s.threads != []
  {
    if s.main.Draining? && s.main.i < |s.accepted| then ExecuteDocs(s.shared.docs, s.accepted[s.main.i])
    else Settle(s.shared.docs, s.threads[0], s.accepted)
  }

  ghost predicate Settled(s: State) {
    && s.threads != []
    && Pending(s) == Sequential(s.accepted)
    && forall t :: 0 < t < |s.threads| ==> !s.threads[t].Applying?
  }

  /** A step of the reader thread moves towards the settled documents; a step of a worker leaves the documents alone. */
  lemma AdvanceSettles(dump: Dump, s: State, t: nat, pc: Pc)
    requires Advance(dump, s, t, pc).Some?
    ensures var e := Advance(dump, s, t, pc).value;
            Settle(e.shared.docs, e.pc, s.accepted) == Settle(s.shared.docs, pc, s.accepted)
  {
    if pc.Begin? {
      ExecuteActsOnDocs(s.shared, s.accepted[pc.i]);
    }
  }

  lemma WorkerKeepsDocs(dump: Dump, s: State, t: nat, pc: Pc)
    requires Advance(dump, s, t, pc).Some? && !pc.Applying?
    requires pc.Begin? ==> pc.i < |s.accepted| && IsConcurrentRequest(s.accepted[pc.i])
    ensures var e := Advance(dump, s, t, pc).value;
            e.shared.docs == s.shared.docs && !e.pc.Applying?
  {
    if pc.Begin? {
      ConcurrentKeepsDocs(s.shared.docs, s.accepted[pc.i]);
      ExecuteActsOnDocs(s.shared, s.accepted[pc.i]);
    }
  }

  lemma StepSettled(dump: Dump, s: State, t: nat)
    requires Conserved(s) && Settled(s) && t < |s.threads| && StepThread(dump, s, t).Some?
    ensures Settled(StepThread(dump, s, t).value)
  {
    hide Advance, Sequential, ExecuteDocs, DidChange.ApplyAll, StepThread, Placed, Ordered, QueueDisciplined;
    StepFields(dump, s, t);
    if !s.threads[t].StoreFlag? {
      if t == 0 {
        AdvanceSettles(dump, s, t, s.threads[t]);
        AdvanceIndex(dump, s, t, s.threads[t]);
      } else {
        WorkerKeepsDocs(dump, s, t, s.threads[t]);
      }
    }
  }

  lemma SequentialAppend(messages: seq<Message>, m: Message)
    ensures Sequential(messages + [m]) == ExecuteDocs(Sequential(messages), m)
  {
    hide ExecuteDocs;
    assert (messages + [m])[..|messages|] == messages;
  }

  lemma ReaderIdle(s: State)
    requires Disciplined(s) && !s.main.Executing?
    ensures Index(s.threads[0]).None?
  {
  }

  lemma ScheduleSettled(s: State)
    requires Conserved(s) && Settled(s) && StepSchedule(s).Some?
    ensures Settled(StepSchedule(s).value)
  {
    hide Sequential, ExecuteDocs, DidChange.ApplyAll, Placed, Ordered, Disciplined;
    ReaderIdle(s);
    if !s.flag {
      SequentialAppend(s.accepted, s.main.message);
      if IsConcurrentRequest(s.main.message) {
        ConcurrentKeepsDocs(s.shared.docs, s.main.message);
      }
    }
  }

  lemma RequestStopSettled(s: State, passed: set<nat>)
    requires Settled(s) && StepRequestStop(s, passed).Some?
    ensures Settled(StepRequestStop(s, passed).value)
  {
  }

  lemma SettledNext(dump: Dump, s: State, a: Action)
    requires Conserved(s) && Settled(s) && Next(dump, s, a).Some?
    ensures Settled(Next(dump, s, a).value)
  {
    hide StepThread, StepSchedule, StepDrain, StepPop, StepRequestStop, Settled, Placed, Ordered, Disciplined;
    match a
    case Step(t) => StepSettled(dump, s, t);
    case Schedule => ScheduleSettled(s);
    case RequestStop(passed) => RequestStopSettled(s, passed);
    case Drain => DrainSettled(s);
    case Pop(t) => PopSettled(s, t);
    case _ =>
      SettledThreads(s);
      SettledFrame(s, Next(dump, s, a).value);
  }

  lemma SettledThreads(s: State)
    requires Settled(s)
    ensures s.threads != []
  {
  }

  lemma PopSettled(s: State, t: nat)
    requires Settled(s) && StepPop(s, t).Some?
    ensures Settled(StepPop(s, t).value)
  {
    hide Sequential, ExecuteDocs, DidChange.ApplyAll;
  }

  lemma DrainSettled(s: State)
    requires Conserved(s) && Settled(s) && StepDrain(s).Some?
    ensures Settled(StepDrain(s).value)
  {
    hide Sequential, ExecuteDocs, DidChange.ApplyAll, Placed, Ordered;
  }

  lemma SettledFrame(s: State, s': State)
    requires Settled(s) && |s'.threads| == |s.threads| && s'.threads[0] == s.threads[0]
    requires s'.accepted == s.accepted && s'.shared == s.shared
    requires s'.main == s.main || (!s.main.Draining? && !s'.main.Draining?)
    requires forall t :: 0 < t < |s.threads| ==> s'.threads[t].Applying? ==> s.threads[t].Applying?
    ensures Settled(s')
  {
  }

  // ---- Which messages are accepted ----

  predicate HasExit(messages: seq<Message>) {
    exists k :: 0 <= k < |messages| && IsExit(messages[k])
  }

  /** A thread has seen the exit request. */
  predicate SawExit(pc: Pc) {
    match pc
    case Sending(_, _, exit) => exit
    case Writing(_, _, exit, _) => exit
    case LoadFlag(_, exit) => exit
    case StoreFlag(_, value) => value
    case _ => false
  }

  function Unscheduled(main: Main): seq<Message> {
    if main.Scheduling? then [main.message] else []
  }

  /** The exit is requested only by an exit notification; as long as none has been accepted, nothing is ignored. */
  ghost predicate ExitCaused(s: State) {
    && (s.flag ==> s.shared.exitRequested)
    && (forall t :: 0 <= t < |s.threads| && SawExit(s.threads[t]) ==> s.shared.exitRequested)
    && (s.shared.exitRequested ==> HasExit(s.accepted))
    && (!HasExit(s.accepted) ==> s.received == s.accepted + Unscheduled(s.main))
  }

  lemma FlagMeansExit(s: State)
    requires ExitCaused(s)
    ensures s.flag ==> HasExit(s.accepted)
  {
  }

  lemma AdvanceExitCaused(dump: Dump, s: State, t: nat, pc: Pc)
    requires ExitCaused(s) && Advance(dump, s, t, pc).Some? && (SawExit(pc) ==> s.shared.exitRequested)
    ensures var e := Advance(dump, s, t, pc).value;
            && (s.shared.exitRequested ==> e.shared.exitRequested)
            && (e.shared.exitRequested ==> HasExit(s.accepted))
            && (SawExit(e.pc) ==> e.shared.exitRequested)
  {
    if pc.Begin? {
      ExitRequestedBy(s.shared, s.accepted[pc.i]);
    }
  }

  lemma StepExitCaused(dump: Dump, s: State, t: nat)
    requires Disciplined(s) && ExitCaused(s) && t < |s.threads| && StepThread(dump, s, t).Some?
    ensures ExitCaused(StepThread(dump, s, t).value)
  {
    hide Advance, StepThread, HasExit, ThreadsDisciplined, QueueDisciplined;
    StepFields(dump, s, t);
    if !s.threads[t].StoreFlag? {
      AdvanceExitCaused(dump, s, t, s.threads[t]);
    }
  }

  lemma ScheduleExitCaused(s: State)
    requires ExitCaused(s) && StepSchedule(s).Some?
    ensures ExitCaused(StepSchedule(s).value)
  {
    var s' := StepSchedule(s).value;
    if HasExit(s.accepted) {
      var k :| 0 <= k < |s.accepted| && IsExit(s.accepted[k]);
      assert IsExit(s'.accepted[k]);
    }
    assert s'.accepted + [] == s'.accepted;
  }

  lemma RequestStopExitCaused(s: State, passed: set<nat>)
    requires ExitCaused(s) && StepRequestStop(s, passed).Some?
    ensures ExitCaused(StepRequestStop(s, passed).value)
  {
  }

  lemma PopExitCaused(s: State, t: nat)
    requires ExitCaused(s) && StepPop(s, t).Some?
    ensures ExitCaused(StepPop(s, t).value)
  {
    hide HasExit;
  }

  lemma DrainExitCaused(s: State)
    requires ExitCaused(s) && StepDrain(s).Some?
    ensures ExitCaused(StepDrain(s).value)
  {
    hide HasExit;
  }

  lemma ReadExitCaused(s: State)
    requires ExitCaused(s) && StepRead(s).Some?
    ensures ExitCaused(StepRead(s).value)
  {
    hide HasExit;
  }

  lemma ExitCausedNext(dump: Dump, s: State, a: Action)
    requires Disciplined(s) && ExitCaused(s) && Next(dump, s, a).Some?
    ensures ExitCaused(Next(dump, s, a).value)
  {
    hide StepThread, StepSchedule, StepRead, StepPop, StepDrain, StepRequestStop, StepLog, HasExit, Disciplined;
    match a
    case Step(t) => StepExitCaused(dump, s, t);
    case Schedule => ScheduleExitCaused(s);
    case RequestStop(passed) => RequestStopExitCaused(s, passed);
    case Pop(t) => PopExitCaused(s, t);
    case Drain => DrainExitCaused(s);
    case Read => ReadExitCaused(s);
    case Log => LogFields(s);
    case _ =>
  }

  // ---- Over whole runs ----

  lemma {:induction false} RunSettled(dump: Dump, s: State, actions: seq<Action>)
    requires Conserved(s) && Settled(s) && ExitCaused(s) && Run(dump, s, actions).Some?
    ensures Settled(Run(dump, s, actions).value) && ExitCaused(Run(dump, s, actions).value)
    decreases |actions|
  {
    hide Settled, ExitCaused, Next, Placed, Ordered, Disciplined;
    if actions != [] {
      ConservedNext(dump, s, actions[0]);
      SettledNext(dump, s, actions[0]);
      ExitCausedNext(dump, s, actions[0]);
      RunSettled(dump, Next(dump, s, actions[0]).value, actions[1..]);
    }
  }

  lemma InitiallySettled(input: seq<Option<Message>>, logs: seq<LogRecord>, workers: nat)
    ensures Settled(Initial(input, logs, workers)) && ExitCaused(Initial(input, logs, workers))
  {
  }

  lemma ReachableSettled(dump: Dump, s: State)
    requires Reachable(dump, s)
    ensures Settled(s) && ExitCaused(s)
  {
    hide *;
    var input, logs, workers, actions := ReachableRun(dump, s);
    InitiallyConserved(input, logs, workers);
    InitiallySettled(input, logs, workers);
    RunSettled(dump, Initial(input, logs, workers), actions);
  }

  /** In every interleaving, whenever no message is being executed by the reader thread, the documents are those of the
      accepted messages executed one by one in arrival order; and until an exit notification is accepted, every message
      received has been accepted. */
  lemma DocumentsAreSequential(dump: Dump, s: State)
    requires Reachable(dump, s)
    ensures !s.main.Draining? && !s.main.Executing? ==> s.shared.docs == Sequential(s.accepted)
    ensures !HasExit(s.accepted) ==> s.received == s.accepted + Unscheduled(s.main)
  {
    ReachableConserved(dump, s);
    ReachableSettled(dump, s);
  }

  /** Two runs that have accepted the same messages have the same documents, however their threads interleaved, whenever
      neither reader thread is executing a message or waiting to. */
  lemma SameMessagesSameDocuments(dump: Dump, dump': Dump, s: State, s': State)
    requires Reachable(dump, s) && Reachable(dump', s') && s.accepted == s'.accepted
    requires !s.main.Draining? && !s.main.Executing? && !s'.main.Draining? && !s'.main.Executing?
    ensures s.shared.docs == s'.shared.docs
  {
    DocumentsAreSequential(dump, s);
    DocumentsAreSequential(dump', s');
  }
}
