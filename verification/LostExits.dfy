/**
 When an exit is heeded and when it ends the server. A worker that has loaded the flags before the exit can store its
 stale false after it and so undo it, once; each further message the reader thread executes sets the flag again. Both
 conditions are exact, and are decided when the reader thread gets to the exit message.
 */
module LostExits {
  import opened Wrappers
  import opened Protocol
  import opened Context
  import opened Scheduler
  import opened Conservation
  import opened Responses
  import opened Shutdown
  import opened Exits
  import Determinism
  import DidChange
  import Framing
  import Termination

  // ---- Counting workers ----

  function Count(threads: seq<Pc>, p: Pc -> bool): nat {
    if threads == [] then 0 else (if p(threads[0]) then 1 else 0) + Count(threads[1..], p)
  }

  lemma {:induction false} CountUpdate(threads: seq<Pc>, p: Pc -> bool, t: nat, pc: Pc)
    requires t < |threads|
    ensures Count(threads[t := pc], p) + (if p(threads[t]) then 1 else 0)
         == Count(threads, p) + (if p(pc) then 1 else 0)
  {
    if t == 0 {
      assert threads[t := pc][1..] == threads[1..];
    } else {
      assert threads[t := pc][1..] == threads[1..][t - 1 := pc];
      CountUpdate(threads[1..], p, t - 1, pc);
    }
  }

  lemma {:induction false} CountBounds(threads: seq<Pc>, p: Pc -> bool)
    ensures Count(threads, p) <= |threads|
    ensures Count(threads, p) == |threads| <==> forall t :: 0 <= t < |threads| ==> p(threads[t])
    ensures Count(threads, p) == 0 <==> forall t :: 0 <= t < |threads| ==> !p(threads[t])
  {
    if threads != [] {
      CountBounds(threads[1..], p);
      assert forall t :: 0 < t < |threads| ==> threads[t] == threads[1..][t - 1];
    }
  }

  lemma {:induction false} CountMonotone(threads: seq<Pc>, p: Pc -> bool, q: Pc -> bool)
    requires forall pc :: p(pc) ==> q(pc)
    ensures Count(threads, p) <= Count(threads, q)
  {
    if threads != [] {
      CountMonotone(threads[1..], p, q);
    }
  }

  function Workers(threads: seq<Pc>, p: Pc -> bool): nat
    requires threads != []
  {
    Count(threads[1..], p)
  }

  lemma WorkersUpdate(threads: seq<Pc>, p: Pc -> bool, t: nat, pc: Pc)
    requires t < |threads|
    ensures if t == 0 then Workers(threads[t := pc], p) == Workers(threads, p)
            else Workers(threads[t := pc], p) + (if p(threads[t]) then 1 else 0)
                 == Workers(threads, p) + (if p(pc) then 1 else 0)
  {
    if t == 0 {
      assert threads[t := pc][1..] == threads[1..];
    } else {
      assert threads[t := pc][1..] == threads[1..][t - 1 := pc];
      CountUpdate(threads[1..], p, t - 1, pc);
    }
  }

  lemma WorkersBounds(threads: seq<Pc>, p: Pc -> bool)
    requires threads != []
    ensures Workers(threads, p) <= |threads| - 1
    ensures Workers(threads, p) == |threads| - 1 <==> forall t :: 0 < t < |threads| ==> p(threads[t])
    ensures Workers(threads, p) == 0 <==> forall t :: 0 < t < |threads| ==> !p(threads[t])
  {
    CountBounds(threads[1..], p);
    assert forall t :: 0 < t < |threads| ==> threads[t] == threads[1..][t - 1];
  }

  // ---- What decides ----

  predicate HasMessage(pc: Pc) {
    Index(pc).Some?
  }

  function Min(a: nat, b: nat): nat {
    if a <= b then a else b
  }

  /** How many workers can hold a stale false when the exit is executed: each needs a job of its own. */
  function Undoers(s: State): nat
    requires s.threads != []
  {
    Min(|s.threads| - 1, Workers(s.threads, HasMessage) + |s.queue|)
  }

  /** Among the next n messages, up to the reads that end the loop, none is concurrent: an exit that can be undone n
      times is followed by as many messages that set the flag again. */
  predicate Shields(input: seq<Option<Message>>, failures: nat, n: nat) {
    if n == 0 || input == [] then true
    else if input[0].None? then failures + 1 > MAX_FAILED_REQUESTS || Shields(input[1..], failures + 1, n)
    else !IsConcurrentRequest(input[0].value) && Shields(input[1..], 0, n - 1)
  }

  lemma {:induction false} ShieldsFewer(input: seq<Option<Message>>, failures: nat, m: nat, n: nat)
    requires m <= n && Shields(input, failures, n)
    ensures Shields(input, failures, m)
  {
    if m > 0 && input != [] {
      if input[0].Some? {
        ShieldsFewer(input[1..], 0, m - 1, n - 1);
      } else if failures + 1 <= MAX_FAILED_REQUESTS {
        ShieldsFewer(input[1..], failures + 1, m, n);
      }
    }
  }

  // ---- A shielded exit ends the server ----

  /** The thread holds a false, or will store one unless it finds the flag set. */
  predicate Stale(pc: Pc) {
    (pc.Sending? || pc.Writing? || pc.LoadFlag? || pc.StoreFlag?) && !Determinism.SawExit(pc)
  }

  /** How often the flag can still be found unset, once the exit has been requested. */
  function Lapses(s: State): nat
    requires s.threads != []
  {
    Workers(s.threads, Stale) + if s.main.Reading? || (s.main.Checking? && !s.flag) then 1 else 0
  }

  /** The exit is still to be executed. */
  ghost predicate Coming(s: State, i: nat) {
    && i < |s.accepted| && IsExit(s.accepted[i]) && s.threads != []
    && (|| s.main == Draining(i)
        || (s.main == Executing(i) && s.threads[0] == Begin(i) && s.queue == []))
    && Shields(s.input, s.failures, Undoers(s))
  }

  /** The exit has been requested, and the messages to come shield it. */
  ghost predicate Requested(s: State) {
    && s.threads != [] && s.queue == [] && !Stale(s.threads[0])
    && (s.main.Scheduling? ==> !IsConcurrentRequest(s.main.message))
    && (s.main.Exited? || Ending(s.main) || Shields(s.input, s.failures, Lapses(s)))
  }

  ghost predicate Shielded(s: State, i: nat) {
    if s.shared.exitRequested then Requested(s) else Coming(s, i)
  }

  /** Before the exit, a worker that moves on stays busy and one that is done frees itself for another job. */
  lemma WorkerStepsComing(dump: Dump, s: State, i: nat, t: nat)
    requires Disciplined(s) && Coming(s, i) && !s.shared.exitRequested
    requires Busy(s, t) && StepThread(dump, s, t).Some?
    ensures Coming(StepThread(dump, s, t).value, i) && !StepThread(dump, s, t).value.shared.exitRequested
  {
    hide StepThread, Advance, Workers, ThreadsDisciplined, QueueDisciplined, Shields;
    var s' := StepThread(dump, s, t).value;
    WorkerSteps(dump, s, t);
    WorkersUpdate(s.threads, HasMessage, t, s'.threads[t]);
    ShieldsFewer(s.input, s.failures, Undoers(s'), Undoers(s));
  }

  lemma PopComing(s: State, i: nat, t: nat)
    requires Coming(s, i) && StepPop(s, t).Some?
    ensures Coming(StepPop(s, t).value, i) && StepPop(s, t).value.shared == s.shared
  {
    hide Workers, Shields;
    WorkersUpdate(s.threads, HasMessage, t, StepPop(s, t).value.threads[t]);
  }

  lemma DrainComing(s: State, i: nat)
    requires Coming(s, i) && StepDrain(s).Some?
    ensures Coming(StepDrain(s).value, i) && StepDrain(s).value.shared == s.shared
  {
    hide Workers, Shields;
    WorkersUpdate(s.threads, HasMessage, 0, Begin(i));
  }

  /** The exit is executed: every worker that can undo it has a job. */
  lemma ExitShielded(dump: Dump, s: State, i: nat)
    requires Coming(s, i) && s.main == Executing(i) && StepThread(dump, s, 0).Some?
    ensures Requested(StepThread(dump, s, 0).value) && StepThread(dump, s, 0).value.shared.exitRequested
  {
    hide Workers, Shields, Begun;
    ExitBegins(s.shared, i, s.accepted[i]);
    var s' := StepThread(dump, s, 0).value;
    WorkersUpdate(s.threads, Stale, 0, s'.threads[0]);
    StaleBusy(s.threads);
    ShieldsFewer(s.input, s.failures, Lapses(s'), Undoers(s));
  }

  lemma StaleBusy(threads: seq<Pc>)
    requires threads != []
    ensures Workers(threads, Stale) <= Workers(threads, HasMessage)
    ensures Workers(threads, Stale) <= |threads| - 1
  {
    CountMonotone(threads[1..], Stale, HasMessage);
    WorkersBounds(threads, Stale);
  }

  lemma ComingNext(dump: Dump, s: State, i: nat, a: Action)
    requires Conserved(s) && Coming(s, i) && !s.shared.exitRequested && Next(dump, s, a).Some?
    ensures Shielded(Next(dump, s, a).value, i)
  {
    hide StepThread, StepPop, StepDrain, StepLog, Coming, Requested, Placed, Ordered;
    ComingMain(s, i);
    match a
    case Step(t) =>
      StepperBusy(dump, s, t);
      if t == 0 {
        ComingReader(s, i);
        ExitShielded(dump, s, i);
      } else {
        WorkerStepsComing(dump, s, i, t);
      }
    case Pop(t) => PopComing(s, i, t);
    case Drain => DrainComing(s, i);
    case Log =>
      LogFields(s);
      ComingLogs(s, StepLog(s).value, i);
    case _ =>
  }

  lemma ComingMain(s: State, i: nat)
    requires Coming(s, i)
    ensures s.main == Draining(i) || s.main == Executing(i)
  {
  }

  lemma ComingReader(s: State, i: nat)
    requires Disciplined(s) && Coming(s, i) && Index(s.threads[0]).Some?
    ensures s.main == Executing(i)
  {
  }

  lemma ComingLogs(s: State, s': State, i: nat)
    requires Coming(s, i)
    requires s'.accepted == s.accepted && s'.threads == s.threads && s'.main == s.main && s'.queue == s.queue
    requires s'.input == s.input && s'.failures == s.failures
    ensures Coming(s', i)
  {
  }

  lemma StepperBusy(dump: Dump, s: State, t: nat)
    requires t < |s.threads| && StepThread(dump, s, t).Some?
    ensures Index(s.threads[t]).Some? && (t > 0 ==> Busy(s, t))
  {
    hide Execute, Finalized, Framing.Piece, DidChange.ApplyOne;
  }

  /** Once the exit has been requested, no step makes a thread stale. */
  lemma AdvanceStale(dump: Dump, s: State, t: nat, pc: Pc)
    requires s.shared.exitRequested && Advance(dump, s, t, pc).Some?
    ensures Stale(Advance(dump, s, t, pc).value.pc) ==> Stale(pc)
    ensures Advance(dump, s, t, pc).value.shared.exitRequested
  {
    hide Execute, Finalized, Framing.Piece, DidChange.ApplyOne;
    if pc.Begin? && pc.i < |s.accepted| {
      ExitRequestedBy(s.shared, s.accepted[pc.i]);
    }
  }

  lemma StepRequested(dump: Dump, s: State, t: nat)
    requires Conserved(s) && Requested(s) && s.shared.exitRequested
    requires t < |s.threads| && StepThread(dump, s, t).Some?
    ensures Requested(StepThread(dump, s, t).value) && StepThread(dump, s, t).value.shared.exitRequested
  {
    hide StepThread, Advance, Workers, Shields, Placed, Ordered, ThreadsDisciplined, QueueDisciplined;
    var s' := StepThread(dump, s, t).value;
    StepFields(dump, s, t);
    if !s.threads[t].StoreFlag? {
      AdvanceStale(dump, s, t, s.threads[t]);
    }
    WorkersUpdate(s.threads, Stale, t, s'.threads[t]);
    if !(s.main.Exited? || Ending(s.main)) {
      ShieldsFewer(s.input, s.failures, Lapses(s'), Lapses(s));
    }
  }

  lemma PopRequested(s: State, t: nat)
    requires Requested(s) && StepPop(s, t).Some?
    ensures Requested(StepPop(s, t).value) && StepPop(s, t).value.shared == s.shared
  {
    hide Workers, Shields;
    WorkersUpdate(s.threads, Stale, t, Stopped);
  }

  lemma ReadRequested(s: State)
    requires Requested(s) && StepRead(s).Some?
    ensures Requested(StepRead(s).value) && StepRead(s).value.shared == s.shared
  {
    hide Workers;
  }

  lemma ScheduleRequested(s: State)
    requires Requested(s) && StepSchedule(s).Some?
    ensures Requested(StepSchedule(s).value) && StepSchedule(s).value.shared == s.shared
  {
    hide Workers, Shields;
  }

  lemma DrainRequested(s: State)
    requires Requested(s) && StepDrain(s).Some?
    ensures Requested(StepDrain(s).value) && StepDrain(s).value.shared == s.shared
  {
    hide Workers, Shields;
    WorkersUpdate(s.threads, Stale, 0, Begin(s.main.i));
  }

  lemma StopRequested(s: State, passed: set<nat>)
    requires Requested(s) && StepRequestStop(s, passed).Some?
    ensures Requested(StepRequestStop(s, passed).value) && StepRequestStop(s, passed).value.shared == s.shared
  {
    hide Workers, Shields;
  }

  lemma RequestedNext(dump: Dump, s: State, a: Action)
    requires Conserved(s) && Requested(s) && s.shared.exitRequested && Next(dump, s, a).Some?
    ensures Requested(Next(dump, s, a).value) && Next(dump, s, a).value.shared.exitRequested
  {
    hide StepThread, StepPop, StepDrain, StepSchedule, StepLog, StepRead, StepRequestStop, Conserved, Workers, Shields;
    match a
    case Step(t) => StepRequested(dump, s, t);
    case Pop(t) => PopRequested(s, t);
    case Drain => DrainRequested(s);
    case Schedule => ScheduleRequested(s);
    case Read => ReadRequested(s);
    case RequestStop(passed) => StopRequested(s, passed);
    case Log => LogFields(s);
    case _ =>
  }

  lemma {:induction false} RunShielded(dump: Dump, s: State, i: nat, actions: seq<Action>)
    requires Conserved(s) && Shielded(s, i) && Run(dump, s, actions).Some?
    ensures Shielded(Run(dump, s, actions).value, i)
    decreases |actions|
  {
    hide Conserved, Requested, Coming, Next;
    if actions != [] {
      ConservedNext(dump, s, actions[0]);
      if s.shared.exitRequested {
        RequestedNext(dump, s, actions[0]);
      } else {
        ComingNext(dump, s, i, actions[0]);
      }
      RunShielded(dump, Next(dump, s, actions[0]).value, i, actions[1..]);
    }
  }

  lemma ShieldedFinishes(dump: Dump, s: State, i: nat, end: State)
    requires Sound(dump, s) && Shielded(s, i) && Reaches(dump, s, end) && !CanGoOn(dump, end)
    ensures end.main.Finished?
  {
    hide Coming, Requested, Placed, Ordered, Disciplined, Responded, Framed, StopPhase, CanGoOn, Hangs;
    var actions :| Run(dump, s, actions) == Some(end);
    RunShielded(dump, s, i, actions);
    RunSound(dump, s, actions);
    StuckOnlyAtEnd(dump, end);
    ShieldedOutcome(end, i);
  }

  lemma ShieldedOutcome(s: State, i: nat)
    requires Shielded(s, i)
    ensures !Hangs(s)
  {
  }

  // ---- Losing an exit ----

  /** The first exit waits for the empty queue. */
  ghost predicate FirstExitWaits(dump: Dump, s: State, i: nat) {
    && Sound(dump, s) && Termination.Counted(s) && Determinism.ExitCaused(s)
    && s.main == Draining(i) && i < |s.accepted| && IsExit(s.accepted[i]) && !s.shared.exitRequested
  }

  /** Worker t executes a message. */
  predicate Busy(s: State, t: nat) {
    0 < t < |s.threads| && Index(s.threads[t]).Some?
  }

  lemma ReaderWaits(dump: Dump, s: State, i: nat)
    requires FirstExitWaits(dump, s, i)
    ensures |s.threads| >= 2 && Index(s.threads[0]).None?
    ensures Placed(s) && Disciplined(s) && Responded(s) && Framed(dump, s)
  {
    hide Responded, Framed;
  }

  lemma MoverStores(dump: Dump, s: State, t: nat)
    requires Framed(dump, s) && t < |s.threads|
    ensures var u := Mover(s, t);
            u < |s.threads| && (s.threads[u].StoreFlag? ==> u == t)
  {
    hide Framing.Frames, Partial, Bodies;
  }

  lemma WorkerMoves(dump: Dump, s: State, i: nat, t: nat)
    requires FirstExitWaits(dump, s, i) && Busy(s, t)
    ensures var u := Mover(s, t);
            Busy(s, u) && StepThread(dump, s, u).Some? && (s.threads[u].StoreFlag? ==> u == t)
  {
    hide *;
    ReaderWaits(dump, s, i);
    BusyMessage(s, t);
    MoverMoves(dump, s, t);
    MoverStores(dump, s, t);
    BusyMessage(s, Mover(s, t));
  }

  lemma BusyMessage(s: State, t: nat)
    ensures Busy(s, t) <==> 0 < t < |s.threads| && Index(s.threads[t]).Some?
  {
  }

  lemma AdvanceRequestsNothing(dump: Dump, s: State, t: nat, pc: Pc)
    requires Advance(dump, s, t, pc).Some?
    requires pc.Begin? ==> pc.i < |s.accepted| && IsConcurrentRequest(s.accepted[pc.i])
    ensures Advance(dump, s, t, pc).value.shared.exitRequested == s.shared.exitRequested
  {
    hide Execute, Finalized, Framing.Piece, DidChange.ApplyOne;
    if pc.Begin? {
      ExitRequestedBy(s.shared, s.accepted[pc.i]);
    }
  }

  /** A step of a worker requests no exit, and leaves the other threads and the queue alone. */
  lemma WorkerSteps(dump: Dump, s: State, u: nat)
    requires Disciplined(s) && Busy(s, u) && StepThread(dump, s, u).Some?
    ensures var s' := StepThread(dump, s, u).value;
            && s'.main == s.main && s'.accepted == s.accepted && s'.queue == s.queue
            && s'.input == s.input && s'.failures == s.failures
            && s'.shared.exitRequested == s.shared.exitRequested
            && |s'.threads| == |s.threads| && s'.threads == s.threads[u := s'.threads[u]]
            && (Busy(s', u) <==> !s.threads[u].StoreFlag?)
  {
    hide Advance, StepThread;
    StepFields(dump, s, u);
    if !s.threads[u].StoreFlag? {
      AdvanceIndex(dump, s, u, s.threads[u]);
      AdvanceRequestsNothing(dump, s, u, s.threads[u]);
    }
  }

  lemma StillWaits(dump: Dump, s: State, i: nat, a: Action)
    requires FirstExitWaits(dump, s, i) && Next(dump, s, a).Some?
    requires var s' := Next(dump, s, a).value;
             s'.main == s.main && s'.accepted == s.accepted && s'.shared.exitRequested == s.shared.exitRequested
    ensures FirstExitWaits(dump, Next(dump, s, a).value, i)
    ensures Termination.Below(Termination.MeasureOf(Next(dump, s, a).value), Termination.MeasureOf(s))
  {
    SoundParts(dump, s);
    SoundNext(dump, s, a);
    hide Sound, Next, Conserved, Disciplined, Determinism.ExitCaused, Termination.Counted, Termination.MeasureOf;
    Termination.CountedNext(dump, s, a);
    Termination.NextDecreases(dump, s, a);
    Determinism.ExitCausedNext(dump, s, a);
  }

  lemma IdleWorkerPops(dump: Dump, s: State, i: nat, t: nat)
    requires FirstExitWaits(dump, s, i) && s.queue != [] && 0 < t < |s.threads| && !Busy(s, t)
    ensures StepPop(s, t).Some?
    ensures var s' := StepPop(s, t).value;
            && s'.main == s.main && s'.accepted == s.accepted && s'.shared == s.shared
            && s'.input == s.input && s'.failures == s.failures
            && s'.queue == s.queue[1..] && s'.threads == s.threads[t := Begin(s.queue[0])]
  {
    hide Responded, Framed, Ordered;
  }

  /** No job is queued, and every busy worker is about to store its false. */
  ghost predicate Primed(s: State) {
    s.queue == [] && forall t: nat :: Busy(s, t) ==> s.threads[t] == StoreFlag(Index(s.threads[t]).value, false)
  }

  /** The exit waits as before, and the workers can undo it as often. */
  ghost predicate AsBefore(s: State, s': State) {
    && s'.main == s.main && s'.accepted == s.accepted && s'.shared.exitRequested == s.shared.exitRequested
    && s'.input == s.input && s'.failures == s.failures
    && s'.threads != [] && s.threads != [] && Undoers(s') == Undoers(s)
  }

  lemma PopAsBefore(dump: Dump, s: State, i: nat, t: nat)
    requires FirstExitWaits(dump, s, i) && s.queue != [] && 0 < t < |s.threads| && !Busy(s, t)
    ensures Next(dump, s, Pop(t)).Some? && AsBefore(s, Next(dump, s, Pop(t)).value)
  {
    hide StepPop, FirstExitWaits, Workers;
    IdleWorkerPops(dump, s, i, t);
    BusyMessage(s, t);
    WorkersUpdate(s.threads, HasMessage, t, Begin(s.queue[0]));
  }

  /** A worker moves on; it finishes its job only when more jobs wait than there are idle workers. */
  lemma StepAsBefore(dump: Dump, s: State, u: nat)
    requires Disciplined(s) && Busy(s, u) && StepThread(dump, s, u).Some?
    requires s.threads[u].StoreFlag? ==> s.queue != [] && forall t :: 0 < t < |s.threads| ==> Busy(s, t)
    ensures Next(dump, s, Step(u)).Some? && AsBefore(s, Next(dump, s, Step(u)).value)
  {
    WorkerSteps(dump, s, u);
    hide StepThread, Workers, Disciplined;
    var s' := StepThread(dump, s, u).value;
    WorkersUpdate(s.threads, HasMessage, u, s'.threads[u]);
    assert HasMessage(s.threads[u]) && (HasMessage(s'.threads[u]) <==> Busy(s', u));
    if s.threads[u].StoreFlag? {
      AllBusy(s);
    }
  }

  lemma AllBusy(s: State)
    requires s.threads != [] && forall t :: 0 < t < |s.threads| ==> Busy(s, t)
    ensures Workers(s.threads, HasMessage) == |s.threads| - 1
  {
    forall t | 0 < t < |s.threads| ensures HasMessage(s.threads[t]) {
      assert Busy(s, t);
    }
    WorkersBounds(s.threads, HasMessage);
  }

  lemma NotPrimed(dump: Dump, s: State, i: nat) returns (t: nat)
    requires FirstExitWaits(dump, s, i) && !Primed(s) && s.queue == []
    ensures Busy(s, t) && !s.threads[t].StoreFlag?
  {
    hide Sound, Termination.Counted;
    t :| Busy(s, t) && s.threads[t] != StoreFlag(Index(s.threads[t]).value, false);
  }

  /** Something brings the workers nearer to that, unless they are there. */
  lemma NotYetPrimed(dump: Dump, s: State, i: nat) returns (a: Action)
    requires FirstExitWaits(dump, s, i) && !Primed(s)
    ensures Next(dump, s, a).Some? && AsBefore(s, Next(dump, s, a).value)
  {
    ReaderWaits(dump, s, i);
    hide Next, StepThread, FirstExitWaits, AsBefore, Disciplined, Responded, Framed, Placed, Busy, Primed;
    if t :| 0 < t < |s.threads| && !Busy(s, t) && s.queue != [] {
      a := Pop(t);
      PopAsBefore(dump, s, i, t);
    } else {
      var t := 1;
      if s.queue == [] {
        t := NotPrimed(dump, s, i);
      }
      a := Step(Mover(s, t));
      WorkerMoves(dump, s, i, t);
      StepAsBefore(dump, s, Mover(s, t));
    }
  }

  /** The workers can go on until nothing is queued and as many as possible are about to store a false. */
  lemma {:induction false} WorkersPrime(dump: Dump, s: State, i: nat) returns (end: State)
    requires FirstExitWaits(dump, s, i)
    ensures Reaches(dump, s, end) && FirstExitWaits(dump, end, i) && Primed(end)
    ensures end.input == s.input && end.failures == s.failures
    ensures s.threads != [] && end.threads != [] && Undoers(end) == Undoers(s)
    decreases Termination.MeasureOf(s).unread, Termination.MeasureOf(s).failuresLeft, Termination.MeasureOf(s).phase,
              Termination.MeasureOf(s).steps
  {
    ReaderWaits(dump, s, i);
    hide FirstExitWaits, Termination.MeasureOf, Reaches, Next, Primed, Undoers;
    if Primed(s) {
      end := s;
      ReachesItself(dump, s);
    } else {
      var a := NotYetPrimed(dump, s, i);
      StillWaits(dump, s, i, a);
      end := WorkersPrime(dump, Next(dump, s, a).value, i);
      ReachesFirst(dump, s, a, end);
    }
  }

  /** The reader thread executes message i, which will set the exit flag, while the workers stay where they are. */
  ghost predicate Setting(dump: Dump, s: State, i: nat) {
    && Reachable(dump, s) && Primed(s) && s.threads != [] && s.main == Executing(i) && i < |s.accepted|
    && (|| (s.shared.exitRequested && !Stale(s.threads[0]))
        || (s.threads[0] == Begin(i) && IsExit(s.accepted[i])))
  }

  /** No worker holds the output lock, so the reader thread can go on. */
  lemma ReaderUnblocked(dump: Dump, s: State, i: nat)
    requires Sound(dump, s) && Primed(s) && s.main == Executing(i)
    ensures StepThread(dump, s, 0).Some? && Index(s.threads[0]) == Some(i) && i < |s.place|
  {
    SoundParts(dump, s);
    ReaderMoves(s);
    hide Sound, StepThread, Placed, Ordered, Responded, Framed;
    MoverMoves(dump, s, 0);
    ReaderIsMover(dump, s);
    MessagePlaced(s, 0);
  }

  lemma ReaderMoves(s: State)
    requires Disciplined(s) && s.main.Executing?
    ensures |s.threads| >= 2 && Index(s.threads[0]) == Some(s.main.i)
  {
  }

  lemma ReaderIsMover(dump: Dump, s: State)
    requires Framed(dump, s) && Primed(s) && s.threads != []
    ensures Mover(s, 0) == 0
  {
    hide Framing.Frames, Partial, Bodies, Primed;
    if s.lock.Some? && s.lock.value > 0 {
      PrimedHoldsNoLock(s, s.lock.value);
    }
  }

  lemma PrimedHoldsNoLock(s: State, t: nat)
    requires Primed(s) && 0 < t < |s.threads|
    ensures !s.threads[t].Writing?
  {
    if Index(s.threads[t]).Some? {
      assert Busy(s, t);
    }
  }

  /** The reader thread moves on, or a worker leaves its message. */
  lemma PrimedMoved(s: State, s': State, t: nat, pc: Pc)
    requires Primed(s) && s'.queue == s.queue && t < |s.threads| && s'.threads == s.threads[t := pc]
    requires t == 0 || Index(pc).None?
    ensures Primed(s')
  {
    forall u: nat | Busy(s', u) ensures s'.threads[u] == StoreFlag(Index(s'.threads[u]).value, false) {
      assert Busy(s, u);
    }
  }

  lemma ExitRequestedNow(dump: Dump, s: State, pc: Pc)
    requires Advance(dump, s, 0, pc).Some? && pc.Begin? && pc.i < |s.accepted| && IsExit(s.accepted[pc.i])
    ensures Advance(dump, s, 0, pc).value.pc == Handled(pc.i, None)
    ensures Advance(dump, s, 0, pc).value.shared.exitRequested
  {
    hide Begun;
    ExitBegins(s.shared, pc.i, s.accepted[pc.i]);
  }

  /** One step of the reader thread on such a message. */
  lemma SettingStep(dump: Dump, s: State, i: nat) returns (s': State)
    requires Setting(dump, s, i)
    ensures Next(dump, s, Step(0)) == Some(s') && Reachable(dump, s')
    ensures s'.input == s.input && s'.failures == s.failures && Primed(s')
    ensures s'.threads != [] && s'.threads[1..] == s.threads[1..]
    ensures if s.threads[0].StoreFlag? then
              s'.main.Checking? && s'.flag && s'.shared.exitRequested && i < |s'.place| && s'.place[i].Done?
            else
              && Setting(dump, s', i)
              && Termination.StepsLeft(s'.threads[0], s'.accepted) < Termination.StepsLeft(s.threads[0], s.accepted)
  {
    hide StepThread, Advance, Sound, Reachable, Primed, IsExit, Termination.StepsLeft;
    ReachableSound(dump, s);
    ReaderUnblocked(dump, s, i);
    StepFields(dump, s, 0);
    s' := ReachNext(dump, s, Step(0));
    PrimedMoved(s, s', 0, s'.threads[0]);
    if !s.threads[0].StoreFlag? {
      if s.threads[0].Begin? && IsExit(s.accepted[i]) {
        ExitRequestedNow(dump, s, s.threads[0]);
      } else {
        AdvanceStale(dump, s, 0, s.threads[0]);
      }
      Termination.AdvanceDecreases(dump, s, 0, s.threads[0]);
    }
  }

  lemma {:induction false} ReaderSets(dump: Dump, s: State, i: nat) returns (end: State)
    requires Setting(dump, s, i)
    ensures Reaches(dump, s, end) && Reachable(dump, end)
    ensures end.input == s.input && end.failures == s.failures && Primed(end)
    ensures end.threads != [] && end.threads[1..] == s.threads[1..]
    ensures end.main.Checking? && end.flag && end.shared.exitRequested && i < |end.place| && end.place[i].Done?
    decreases Termination.StepsLeft(s.threads[0], s.accepted)
  {
    hide Reaches, Reachable, Next, Primed;
    var s' := SettingStep(dump, s, i);
    if s.threads[0].StoreFlag? {
      end := s';
      ReachesItself(dump, end);
    } else {
      hide Setting;
      end := ReaderSets(dump, s', i);
    }
    ReachesFirst(dump, s, Step(0), end);
  }

  lemma Extend(dump: Dump, s: State, middle: State, a: Action) returns (end: State)
    requires Reachable(dump, middle) && Reaches(dump, s, middle) && Next(dump, middle, a).Some?
    ensures end == Next(dump, middle, a).value && Reachable(dump, end) && Reaches(dump, s, end)
  {
    hide Reachable, Reaches, Next;
    end := ReachNext(dump, middle, a);
    ReachesItself(dump, end);
    ReachesFirst(dump, middle, a, end);
    ReachesTrans(dump, s, middle, end);
  }

  lemma {:induction false} RunReachable(dump: Dump, s: State, actions: seq<Action>)
    requires Reachable(dump, s) && Run(dump, s, actions).Some?
    ensures Reachable(dump, Run(dump, s, actions).value)
    decreases |actions|
  {
    hide Reachable, Next;
    if actions != [] {
      var s' := ReachNext(dump, s, actions[0]);
      RunReachable(dump, s', actions[1..]);
    }
  }

  /** The reader thread executes a message that waits, with nothing queued and the workers about to store. */
  lemma DrainSets(dump: Dump, s: State, i: nat) returns (end: State)
    requires Reachable(dump, s) && Primed(s) && s.main == Draining(i)
    requires i < |s.accepted| && (s.shared.exitRequested || IsExit(s.accepted[i]))
    ensures Reaches(dump, s, end) && Reachable(dump, end)
    ensures end.input == s.input && end.failures == s.failures && Primed(end)
    ensures s.threads != [] && end.threads != [] && end.threads[1..] == s.threads[1..]
    ensures end.main.Checking? && end.flag && end.shared.exitRequested && i < |end.place| && end.place[i].Done?
  {
    ReachableConserved(dump, s);
    DrainPrimed(s);
    hide Reachable, Reaches, Primed, Placed, Ordered, Disciplined;
    var begun := ReachNext(dump, s, Drain);
    end := ReaderSets(dump, begun, i);
    ReachesFirst(dump, s, Drain, end);
  }

  lemma DrainPrimed(s: State)
    requires Disciplined(s) && Primed(s) && s.main.Draining?
    ensures StepDrain(s).Some? && s.threads != [] && Primed(StepDrain(s).value)
  {
    PrimedMoved(s, StepDrain(s).value, 0, Begin(s.main.i));
  }

  /** The exit is executed and sets the flag, while as many workers as possible are about to store a false. */
  lemma ExitDone(dump: Dump, s: State, i: nat) returns (end: State)
    requires Reachable(dump, s) && FirstExitWaits(dump, s, i)
    ensures Reaches(dump, s, end) && Reachable(dump, end)
    ensures end.input == s.input && end.failures == s.failures && Primed(end)
    ensures end.main.Checking? && end.flag && end.shared.exitRequested && i < |end.place| && end.place[i].Done?
    ensures s.threads != [] && end.threads != [] && Workers(end.threads, HasMessage) == Undoers(s)
  {
    hide FirstExitWaits, Reachable, Reaches, Primed;
    ReaderWaits(dump, s, i);
    var primed := WorkersPrime(dump, s, i);
    ReachesReachable(dump, s, primed);
    WaitsAt(dump, primed, i);
    end := DrainSets(dump, primed, i);
    ReachesTrans(dump, s, primed, end);
    WorkersBounds(primed.threads, HasMessage);
    PrimedQueue(primed);
  }

  lemma PrimedQueue(s: State)
    requires Primed(s)
    ensures s.queue == []
  {
  }

  lemma WaitsAt(dump: Dump, s: State, i: nat)
    requires FirstExitWaits(dump, s, i)
    ensures s.main == Draining(i) && i < |s.accepted| && IsExit(s.accepted[i])
  {
  }

  lemma ReachesReachable(dump: Dump, s: State, end: State)
    requires Reachable(dump, s) && Reaches(dump, s, end)
    ensures Reachable(dump, end)
  {
    hide Reachable;
    var actions :| Run(dump, s, actions) == Some(end);
    RunReachable(dump, s, actions);
  }

  /** A worker stores its false. */
  lemma WorkerUndoes(dump: Dump, s: State) returns (t: nat, s': State)
    requires Reachable(dump, s) && Primed(s) && s.threads != [] && Workers(s.threads, HasMessage) > 0
    ensures Next(dump, s, Step(t)) == Some(s') && Reachable(dump, s') && Primed(s')
    ensures s'.main == s.main && !s'.flag && s'.shared == s.shared
    ensures s'.input == s.input && s'.failures == s.failures
    ensures s'.threads != [] && Workers(s'.threads, HasMessage) == Workers(s.threads, HasMessage) - 1
    ensures |s'.place| == |s.place| && forall i :: 0 <= i < |s.place| && s.place[i].Done? ==> s'.place[i].Done?
  {
    hide StepThread, Advance, Reachable, Primed, Conserved, Workers;
    ReachableConserved(dump, s);
    t := StoringWorker(dump, s);
    StepFields(dump, s, t);
    s' := ReachNext(dump, s, Step(t));
    WorkersUpdate(s.threads, HasMessage, t, s'.threads[t]);
    PrimedMoved(s, s', t, s'.threads[t]);
  }

  lemma StoringWorker(dump: Dump, s: State) returns (t: nat)
    requires Conserved(s) && Primed(s) && s.threads != [] && Workers(s.threads, HasMessage) > 0
    ensures 0 < t < |s.threads| && s.threads[t].StoreFlag? && !s.threads[t].value && StepThread(dump, s, t).Some?
    ensures s.queue == []
  {
    hide Workers, Ordered, Disciplined;
    WorkersBounds(s.threads, HasMessage);
    t :| 0 < t < |s.threads| && HasMessage(s.threads[t]);
    assert Busy(s, t);
  }

  /** The exit flag has been set for the exit or a message after it, and the next messages do not shield it. */
  ghost predicate Exposed(dump: Dump, s: State) {
    && Reachable(dump, s) && Primed(s) && s.threads != [] && s.shared.exitRequested
    && if s.main.Checking? then s.flag && !Shields(s.input, s.failures, Workers(s.threads, HasMessage))
       else s.main.Reading? && !s.flag && !Shields(s.input, s.failures, Workers(s.threads, HasMessage) + 1)
  }

  /** A concurrent message is queued although the exit has been executed, and the loop is left before it is popped. */
  lemma JobLeft(dump: Dump, s: State) returns (end: State)
    requires Exposed(dump, s) && s.main.Reading?
    requires s.input != [] && s.input[0].Some? && IsConcurrentRequest(s.input[0].value)
    ensures Reaches(dump, s, end) && Reachable(dump, end) && end.main.Exited? && end.queue != []
  {
    hide Reachable, Reaches, Primed, IsConcurrentRequest, Shields, Workers;
    ReachesItself(dump, s);
    end := Extend(dump, s, s, Read);
    end := Extend(dump, s, end, Schedule);
    end := Extend(dump, s, end, Check);
    end := Extend(dump, s, end, ExternalStop);
  }

  /** The next message is executed and sets the flag once more. */
  lemma SetAgain(dump: Dump, s: State) returns (end: State)
    requires Exposed(dump, s) && s.main.Reading?
    requires s.input != [] && s.input[0].Some? && !IsConcurrentRequest(s.input[0].value)
    ensures Reaches(dump, s, end) && Exposed(dump, end) && end.main.Checking? && end.input == s.input[1..]
  {
    hide Reachable, Reaches, IsConcurrentRequest, Workers;
    ReachesItself(dump, s);
    var read := Extend(dump, s, s, Read);
    var waits := Extend(dump, s, read, Schedule);
    PrimedSame(s, waits);
    hide Primed;
    end := DrainSets(dump, waits, waits.main.i);
    ReachesTrans(dump, s, waits, end);
    WorkersSame(end.threads, s.threads);
  }

  lemma PrimedSame(s: State, s': State)
    requires Primed(s) && s'.threads == s.threads && s'.queue == s.queue
    ensures Primed(s')
  {
    forall t: nat | Busy(s', t) ensures s'.threads[t] == StoreFlag(Index(s'.threads[t]).value, false) {
      assert Busy(s, t);
    }
  }

  lemma WorkersSame(threads: seq<Pc>, threads': seq<Pc>)
    requires threads != [] && threads' != [] && threads[1..] == threads'[1..]
    ensures Workers(threads, HasMessage) == Workers(threads', HasMessage)
  {
  }

  /** A read fails. */
  lemma FailsToRead(dump: Dump, s: State) returns (end: State)
    requires Exposed(dump, s) && s.main.Reading? && s.input != [] && s.input[0].None?
    ensures Reaches(dump, s, end) && Exposed(dump, end) && end.input == s.input[1..]
  {
    hide Reachable, Reaches, Workers;
    ReachesItself(dump, s);
    end := Extend(dump, s, s, Read);
    PrimedSame(s, end);
  }

  /** The flag is undone, and the loop goes on. */
  lemma Undone(dump: Dump, s: State) returns (end: State)
    requires Exposed(dump, s) && s.main.Checking?
    ensures Reaches(dump, s, end) && Exposed(dump, end) && end.main.Reading? && end.input == s.input
  {
    hide Reachable, Reaches, Primed, Workers;
    var t, stored := WorkerUndoes(dump, s);
    hide Shields;
    ReachesItself(dump, s);
    end := Extend(dump, s, s, Step(t));
    end := Extend(dump, s, end, Check);
    PrimedSame(stored, end);
  }

  /** Each worker undoes the flag in turn, until a concurrent message is read. */
  lemma {:induction false} LeavesJob(dump: Dump, s: State) returns (end: State)
    requires Exposed(dump, s)
    ensures Reaches(dump, s, end) && Reachable(dump, end) && end.main.Exited? && end.queue != []
    decreases |s.input|, s.main.Checking?
  {
    hide Reachable, Reaches, Primed, Workers, IsConcurrentRequest;
    var s';
    if s.main.Checking? {
      s' := Undone(dump, s);
    } else if s.input[0].None? {
      s' := FailsToRead(dump, s);
    } else if IsConcurrentRequest(s.input[0].value) {
      end := JobLeft(dump, s);
      return;
    } else {
      s' := SetAgain(dump, s);
    }
    hide Exposed;
    end := LeavesJob(dump, s');
    ReachesTrans(dump, s, s', end);
  }

  // ---- Both conditions ----

  lemma FirstExit(dump: Dump, s: State, i: nat)
    requires Reachable(dump, s) && s.main == Draining(i) && i < |s.accepted| && IsExit(s.accepted[i])
    requires !s.shared.exitRequested
    ensures FirstExitWaits(dump, s, i) && Sound(dump, s) && s.threads != []
  {
    ReachableSound(dump, s);
    Termination.ReachableCounted(dump, s);
    Determinism.ReachableSettled(dump, s);
    SoundParts(dump, s);
    hide Reachable, Determinism.ExitCaused, Termination.Counted, Sound, Placed, Ordered;
  }

  lemma QuietIff(s: State)
    requires s.threads != []
    ensures Quiet(s) <==> (|s.threads| > 1 ==> Undoers(s) == 0) && s.queue == []
  {
    WorkersBounds(s.threads, HasMessage);
    hide Workers;
    if Workers(s.threads, HasMessage) == 0 {
      forall t | 0 < t < |s.threads| ensures Index(s.threads[t]).None? {
        assert !HasMessage(s.threads[t]);
      }
    } else {
      var t :| 0 < t < |s.threads| && HasMessage(s.threads[t]);
    }
  }

  /** The first exit is certain to be heeded if and only if no job is queued and no worker executes one when the reader
      thread gets to it: whatever happens, the exit flag is set from the moment the exit is done. */
  lemma ExitHeededIff(dump: Dump, s: State, i: nat)
    requires Reachable(dump, s) && s.main == Draining(i) && i < |s.accepted| && IsExit(s.accepted[i])
    requires !s.shared.exitRequested
    ensures Heeds(dump, s, i) <==> Quiet(s)
  {
    hide Reachable, Reaches, Quiet, CanGoOn, FirstExitWaits, Primed, Workers;
    if Quiet(s) {
      forall end | Reaches(dump, s, end) && i < |end.place| && end.place[i].Done? ensures end.flag {
        QuietExitFinishes(dump, s, i, end);
      }
    } else {
      FirstExit(dump, s, i);
      QuietIff(s);
      ReaderWaits(dump, s, i);
      var done := ExitDone(dump, s, i);
      var t, stored := WorkerUndoes(dump, done);
      var end := Extend(dump, s, done, Step(t));
    }
  }

  /** The first exit is certain to end the server if and only if, among as many of the next messages as workers can undo
      it, none is concurrent. */
  lemma ExitEndsIff(dump: Dump, s: State, i: nat)
    requires Reachable(dump, s) && s.main == Draining(i) && i < |s.accepted| && IsExit(s.accepted[i])
    requires !s.shared.exitRequested
    ensures s.threads != [] && (AlwaysFinishes(dump, s) <==> Shields(s.input, s.failures, Undoers(s)))
  {
    FirstExit(dump, s, i);
    if Shields(s.input, s.failures, Undoers(s)) {
      assert Shielded(s, i);
      hide Reachable, Reaches, CanGoOn, FirstExitWaits, Sound, Shielded;
      forall end | Reaches(dump, s, end) && !CanGoOn(dump, end) ensures end.main.Finished? {
        ShieldedFinishes(dump, s, i, end);
      }
    } else {
      hide Reachable, Reaches, CanGoOn, FirstExitWaits, Sound, Primed, Workers, Shields, Undoers;
      var done := ExitDone(dump, s, i);
      var left := LeavesJob(dump, done);
      var end := LeftQueueHangs(dump, left);
      ReachesTrans(dump, s, done, left);
      ReachesTrans(dump, s, left, end);
    }
  }

  /** When the next message is concurrent, the exit is certain to end the server exactly when it is heeded. */
  lemma ExitBeforeConcurrent(dump: Dump, s: State, i: nat)
    requires Reachable(dump, s) && s.main == Draining(i) && i < |s.accepted| && IsExit(s.accepted[i])
    requires !s.shared.exitRequested
    requires s.input != [] && s.input[0].Some? && IsConcurrentRequest(s.input[0].value)
    ensures AlwaysFinishes(dump, s) <==> Quiet(s)
  {
    ExitEndsIff(dump, s, i);
    FirstExit(dump, s, i);
    hide Reachable, AlwaysFinishes, FirstExitWaits, Workers, Quiet;
    QuietIff(s);
  }
}
