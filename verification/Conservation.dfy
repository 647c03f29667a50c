/**
 No message is lost, duplicated or overtaken: in every reachable state each accepted message is in exactly one place,
 jobs are popped in the order they were queued, and a message that is not concurrent is executed between everything
 before it and everything after it.
 */
module Conservation {
  import opened Wrappers
  import opened Protocol
  import opened Scheduler

  /** The numbers of the concurrent messages, in arrival order. */
  function ConcurrentIndices(accepted: seq<Message>): (r: seq<nat>)
    ensures forall k :: 0 <= k < |r| ==> r[k] < |accepted|
  {
    if accepted == [] then []
    else
      var n := |accepted| - 1;
      ConcurrentIndices(accepted[..n]) + if IsConcurrentRequest(accepted[n]) then [n] else []
  }

  /** A thread executes a message exactly when the message is said to be executed by that thread. */
  ghost predicate ThreadsPlaced(threads: seq<Pc>, place: seq<Place>) {
    && (forall t :: 0 <= t < |threads| && Index(threads[t]).Some? ==>
                      Index(threads[t]).value < |place| && place[Index(threads[t]).value] == Running(t))
    && (forall i :: 0 <= i < |place| && place[i].Running? ==>
                      place[i].t < |threads| && Index(threads[place[i].t]) == Some(i))
  }

  ghost predicate QueuePlaced(queue: seq<nat>, place: seq<Place>) {
    && (forall k :: 0 <= k < |queue| ==> queue[k] < |place| && place[queue[k]] == Queued)
    && (forall i :: 0 <= i < |place| && place[i].Queued? ==> i in queue)
  }

  ghost predicate WaitingPlaced(main: Main, place: seq<Place>) {
    forall i :: 0 <= i < |place| && place[i].Waiting? ==> main == Draining(i)
  }

  /** The history of places and the actual places agree. */
  ghost predicate Placed(s: State) {
    && |s.place| == |s.accepted|
    && ThreadsPlaced(s.threads, s.place) && QueuePlaced(s.queue, s.place) && WaitingPlaced(s.main, s.place)
  }

  predicate Increasing(queue: seq<nat>) {
    forall j, k :: 0 <= j < k < |queue| ==> queue[j] < queue[k]
  }

  predicate Bounded(queue: seq<nat>, n: nat) {
    forall k :: 0 <= k < |queue| ==> queue[k] < n
  }

  /** The queue is in arrival order and holds no job twice. */
  ghost predicate Ordered(s: State) {
    s.popped + s.queue == ConcurrentIndices(s.accepted) && Increasing(s.queue) && Bounded(s.queue, |s.accepted|)
  }

  /** The workers execute only concurrent messages, the reader thread only others. */
  ghost predicate ThreadsDisciplined(threads: seq<Pc>, accepted: seq<Message>) {
    forall t :: 0 <= t < |threads| && Index(threads[t]).Some? ==>
                  && Index(threads[t]).value < |accepted|
                  && (IsConcurrentRequest(accepted[Index(threads[t]).value]) <==> t > 0)
  }

  ghost predicate QueueDisciplined(queue: seq<nat>, accepted: seq<Message>) {
    forall k :: 0 <= k < |queue| ==> queue[k] < |accepted| && IsConcurrentRequest(accepted[queue[k]])
  }

  /** The reader thread executes a message that is not concurrent, one at a time and as the last one accepted, with the
      queue empty. */
  ghost predicate ReaderDisciplined(s: State) {
    && |s.threads| >= 2
    && !s.threads[0].LastPop? && !s.threads[0].Stopped?
    && (s.main.Executing? <==> Index(s.threads[0]).Some?)
    && (s.main.Executing? ==> Index(s.threads[0]) == Some(s.main.i) && s.main.i + 1 == |s.accepted| && s.queue == [])
    && (s.main.Draining? ==> s.main.i + 1 == |s.accepted| == |s.place| && s.place[s.main.i] == Waiting)
    && (s.main.Draining? || s.main.Executing? ==> !IsConcurrentRequest(s.accepted[s.main.i]))
  }

  ghost predicate Disciplined(s: State) {
    ReaderDisciplined(s) && ThreadsDisciplined(s.threads, s.accepted) && QueueDisciplined(s.queue, s.accepted)
  }

  ghost predicate Conserved(s: State) {
    Placed(s) && Ordered(s) && Disciplined(s)
  }

  lemma InitiallyConserved(input: seq<Option<Message>>, logs: seq<LogRecord>, workers: nat)
    requires workers >= 1
    ensures Conserved(Initial(input, logs, workers))
  {
  }

  // ---- What one step does to the threads, the queue and the places ----

  /** Threads may move on with their messages. */
  lemma SameIndices(threads: seq<Pc>, threads': seq<Pc>, place: seq<Place>, accepted: seq<Message>)
    requires |threads'| == |threads| && forall t :: 0 <= t < |threads| ==> Index(threads'[t]) == Index(threads[t])
    ensures ThreadsPlaced(threads, place) ==> ThreadsPlaced(threads', place)
    ensures ThreadsDisciplined(threads, accepted) ==> ThreadsDisciplined(threads', accepted)
  {
  }

  /** A thread takes a message that nobody executes. */
  lemma TakeMessage(threads: seq<Pc>, t: nat, i: nat, place: seq<Place>)
    requires ThreadsPlaced(threads, place) && t < |threads| && i < |place|
    requires Index(threads[t]).None? && !place[i].Running?
    ensures ThreadsPlaced(threads[t := Begin(i)], place[i := Running(t)])
  {
  }

  /** A thread leaves its message. */
  lemma LeaveMessage(threads: seq<Pc>, t: nat, pc: Pc, place: seq<Place>, accepted: seq<Message>)
    requires ThreadsPlaced(threads, place) && ThreadsDisciplined(threads, accepted) && t < |threads|
    requires Index(threads[t]).Some? && Index(pc).None?
    ensures Index(threads[t]).value < |place| && place[Index(threads[t]).value] == Running(t)
    ensures ThreadsPlaced(threads[t := pc], place[Index(threads[t]).value := Done])
    ensures ThreadsDisciplined(threads[t := pc], accepted)
  {
  }

  lemma QueueKept(queue: seq<nat>, main: Main, place: seq<Place>, i: nat, p: Place)
    requires QueuePlaced(queue, place) && WaitingPlaced(main, place) && i < |place|
    requires !place[i].Queued? && !p.Queued? && !p.Waiting?
    ensures QueuePlaced(queue, place[i := p]) && WaitingPlaced(main, place[i := p])
  {
  }

  lemma QueuePopped(queue: seq<nat>, main: Main, place: seq<Place>, p: Place)
    requires QueuePlaced(queue, place) && WaitingPlaced(main, place) && Increasing(queue) && queue != []
    requires !p.Queued? && !p.Waiting?
    ensures queue[0] < |place| && place[queue[0]] == Queued
    ensures QueuePlaced(queue[1..], place[queue[0] := p]) && WaitingPlaced(main, place[queue[0] := p])
    ensures Increasing(queue[1..])
  {
    var place', queue' := place[queue[0] := p], queue[1..];
    forall i | 0 <= i < |place'| && place'[i].Queued? ensures i in queue' {
      assert i in queue && i != queue[0];
    }
  }

  lemma PlaceAdded(s: State, p: Place)
    requires Placed(s) && !s.main.Draining? && (p.Queued? || p.Waiting?)
    ensures ThreadsPlaced(s.threads, s.place + [p])
    ensures QueuePlaced(if p.Queued? then s.queue + [|s.place|] else s.queue, s.place + [p])
    ensures p.Queued? ==> forall main :: WaitingPlaced(main, s.place + [p])
    ensures p.Waiting? ==> WaitingPlaced(Draining(|s.place|), s.place + [p])
  {
    var n, place' := |s.place|, s.place + [p];
    assert forall i :: 0 <= i < n ==> place'[i] == s.place[i] && !s.place[i].Waiting?;
    var queue' := s.queue + [n];
    assert forall i :: i in s.queue || i == n <==> i in queue';
  }

  lemma MessageAdded(threads: seq<Pc>, queue: seq<nat>, accepted: seq<Message>, m: Message)
    requires ThreadsDisciplined(threads, accepted) && QueueDisciplined(queue, accepted)
    ensures ThreadsDisciplined(threads, accepted + [m]) && QueueDisciplined(queue, accepted + [m])
    ensures IsConcurrentRequest(m) ==> QueueDisciplined(queue + [|accepted|], accepted + [m])
  {
    assert forall i :: 0 <= i < |accepted| ==> (accepted + [m])[i] == accepted[i];
  }

  lemma ConcurrentAdded(accepted: seq<Message>, m: Message)
    ensures ConcurrentIndices(accepted + [m])
         == ConcurrentIndices(accepted) + if IsConcurrentRequest(m) then [|accepted|] else []
  {
    assert (accepted + [m])[..|accepted|] == accepted;
  }

  // ---- One step ----

  lemma FinishConserved(s: State, t: nat, i: nat)
    requires Conserved(s) && t < |s.threads| && Index(s.threads[t]) == Some(i)
    ensures i < |s.place| && Conserved(Finish(s, t, i))
  {
    var s' := Finish(s, t, i);
    LeaveMessage(s.threads, t, s'.threads[t], s.place, s.accepted);
    QueueKept(s.queue, s.main, s.place, i, Done);
    FinishReader(s, t, i);
    hide ThreadsPlaced, QueuePlaced, ThreadsDisciplined, QueueDisciplined, ReaderDisciplined;
    assert WaitingPlaced(s'.main, s'.place) by {
      FinishWaiting(s, t, i);
    }
  }

  lemma FinishWaiting(s: State, t: nat, i: nat)
    requires ReaderDisciplined(s) && WaitingPlaced(s.main, s.place) && t < |s.threads| && Index(s.threads[t]) == Some(i)
    requires i < |s.place|
    ensures WaitingPlaced(Finish(s, t, i).main, s.place[i := Done])
  {
  }

  lemma FinishReader(s: State, t: nat, i: nat)
    requires ReaderDisciplined(s) && t < |s.threads| && Index(s.threads[t]) == Some(i)
    requires i < |s.place| && s.place[i] == Running(t)
    ensures ReaderDisciplined(Finish(s, t, i))
  {
  }

  lemma FlagConserved(s: State, value: bool)
    requires Conserved(s)
    ensures Conserved(s.(flag := value))
  {
    hide ThreadsPlaced, QueuePlaced, WaitingPlaced, ThreadsDisciplined, QueueDisciplined;
  }

  lemma StayConserved(s: State, t: nat, s': State)
    requires Conserved(s) && t < |s.threads| && Index(s.threads[t]).Some?
    requires |s'.threads| == |s.threads| && s'.threads == s.threads[t := s'.threads[t]]
    requires Index(s'.threads[t]) == Index(s.threads[t])
    requires s'.main == s.main && s'.queue == s.queue && s'.popped == s.popped
    requires s'.place == s.place && s'.accepted == s.accepted
    ensures Conserved(s')
  {
    hide ThreadsPlaced, QueuePlaced, WaitingPlaced, ThreadsDisciplined, QueueDisciplined;
    SameIndices(s.threads, s'.threads, s.place, s.accepted);
  }

  lemma StepConserved(dump: Dump, s: State, t: nat)
    requires Conserved(s) && t < |s.threads| && StepThread(dump, s, t).Some?
    ensures Conserved(StepThread(dump, s, t).value)
  {
    hide Advance, Conserved, Finish;
    if s.threads[t].StoreFlag? {
      FinishConserved(s, t, s.threads[t].i);
      FlagConserved(Finish(s, t, s.threads[t].i), s.threads[t].value);
    } else {
      AdvanceIndex(dump, s, t, s.threads[t]);
      StayConserved(s, t, StepThread(dump, s, t).value);
    }
  }

  lemma ScheduleConserved(s: State)
    requires Conserved(s) && StepSchedule(s).Some?
    ensures Conserved(StepSchedule(s).value)
  {
    hide ThreadsPlaced, QueuePlaced, ThreadsDisciplined, QueueDisciplined, WaitingPlaced, ConcurrentIndices;
    if s.flag {
      MainConserved(s, StepSchedule(s).value);
    } else {
      var m := s.main.message;
      PlaceAdded(s, if IsConcurrentRequest(m) then Queued else Waiting);
      MessageAdded(s.threads, s.queue, s.accepted, m);
      ConcurrentAdded(s.accepted, m);
      ScheduleOrdered(s.popped, s.queue, |s.accepted|);
    }
  }

  lemma ScheduleOrdered(popped: seq<nat>, queue: seq<nat>, n: nat)
    requires Increasing(queue) && Bounded(queue, n)
    ensures Increasing(queue + [n]) && Bounded(queue + [n], n + 1) && Bounded(queue, n + 1)
    ensures popped + (queue + [n]) == popped + queue + [n] && popped + queue + [] == popped + queue
  {
  }

  lemma DrainConserved(s: State)
    requires Conserved(s) && StepDrain(s).Some?
    ensures Conserved(StepDrain(s).value)
  {
    var i, s' := s.main.i, StepDrain(s).value;
    TakeMessage(s.threads, 0, i, s.place);
    QueueKept(s.queue, s.main, s.place, i, Running(0));
    DrainWaiting(s);
    hide ThreadsPlaced, QueuePlaced, WaitingPlaced, QueueDisciplined;
  }

  lemma DrainWaiting(s: State)
    requires WaitingPlaced(s.main, s.place) && StepDrain(s).Some?
    ensures WaitingPlaced(StepDrain(s).value.main, StepDrain(s).value.place)
  {
  }

  lemma PopConserved(s: State, t: nat)
    requires Conserved(s) && StepPop(s, t).Some?
    ensures Conserved(StepPop(s, t).value)
  {
    var s' := StepPop(s, t).value;
    if s.queue == [] {
      assert forall u :: 0 <= u < |s.threads| ==> Index(s'.threads[u]) == Index(s.threads[u]);
      hide ThreadsPlaced, QueuePlaced, WaitingPlaced, ThreadsDisciplined, QueueDisciplined;
      SameIndices(s.threads, s'.threads, s.place, s.accepted);
    } else {
      PopPlaced(s, t);
      PopOrdered(s, t);
      PopDisciplined(s, t);
    }
  }

  lemma PopPlaced(s: State, t: nat)
    requires Placed(s) && Ordered(s) && s.queue != [] && StepPop(s, t).Some?
    ensures Placed(StepPop(s, t).value)
  {
    hide ThreadsPlaced, QueuePlaced, WaitingPlaced;
    QueuePopped(s.queue, s.main, s.place, Running(t));
    TakeMessage(s.threads, t, s.queue[0], s.place);
  }

  lemma PopOrdered(s: State, t: nat)
    requires Ordered(s) && s.queue != [] && StepPop(s, t).Some?
    ensures Ordered(StepPop(s, t).value)
  {
    hide ConcurrentIndices;
    assert s.popped + s.queue == s.popped + [s.queue[0]] + s.queue[1..];
  }

  lemma PopDisciplined(s: State, t: nat)
    requires Placed(s) && Disciplined(s) && s.queue != [] && StepPop(s, t).Some?
    ensures Disciplined(StepPop(s, t).value)
  {
    assert ReaderDisciplined(StepPop(s, t).value) by {
      assert s.place[s.queue[0]] == Queued;
      hide ThreadsPlaced, QueuePlaced, WaitingPlaced, ThreadsDisciplined, QueueDisciplined;
    }
    hide ThreadsPlaced, QueuePlaced, WaitingPlaced, ReaderDisciplined;
    JobPopped(s.threads, s.queue, s.accepted, t);
  }

  lemma JobPopped(threads: seq<Pc>, queue: seq<nat>, accepted: seq<Message>, t: nat)
    requires ThreadsDisciplined(threads, accepted) && QueueDisciplined(queue, accepted)
    requires queue != [] && 0 < t < |threads|
    ensures ThreadsDisciplined(threads[t := Begin(queue[0])], accepted) && QueueDisciplined(queue[1..], accepted)
  {
  }

  lemma RequestStopConserved(s: State, passed: set<nat>)
    requires Conserved(s) && StepRequestStop(s, passed).Some?
    ensures Conserved(StepRequestStop(s, passed).value)
  {
    var s' := StepRequestStop(s, passed).value;
    forall u | 0 <= u < |s'.threads| ensures Index(s'.threads[u]) == Index(s.threads[u]) {}
    hide ThreadsPlaced, QueuePlaced, ThreadsDisciplined, QueueDisciplined;
    SameIndices(s.threads, s'.threads, s.place, s.accepted);
  }

  lemma MainConserved(s: State, s': State)
    requires Conserved(s)
    requires s'.threads == s.threads && s'.queue == s.queue && s'.popped == s.popped
    requires s'.place == s.place && s'.accepted == s.accepted
    requires !s.main.Draining? && !s.main.Executing? && !s'.main.Draining? && !s'.main.Executing?
    ensures Conserved(s')
  {
    hide ThreadsPlaced, QueuePlaced, ThreadsDisciplined, QueueDisciplined, ConcurrentIndices;
  }

  lemma SameConserved(s: State, s': State)
    requires Conserved(s)
    requires s'.threads == s.threads && s'.queue == s.queue && s'.popped == s.popped
    requires s'.place == s.place && s'.accepted == s.accepted && s'.main == s.main
    ensures Conserved(s')
  {
    hide ThreadsPlaced, QueuePlaced, WaitingPlaced, ThreadsDisciplined, QueueDisciplined, ConcurrentIndices;
  }

  lemma ConservedNext(dump: Dump, s: State, a: Action)
    requires Conserved(s) && Next(dump, s, a).Some?
    ensures Conserved(Next(dump, s, a).value)
  {
    hide Conserved, StepThread, StepSchedule, StepDrain, StepPop, StepRequestStop;
    match a
    case Step(t) => StepConserved(dump, s, t);
    case Schedule => ScheduleConserved(s);
    case Drain => DrainConserved(s);
    case Pop(t) => PopConserved(s, t);
    case RequestStop(passed) => RequestStopConserved(s, passed);
    case Log => SameConserved(s, StepLog(s).value);
    case _ => MainConserved(s, Next(dump, s, a).value);
  }

  lemma {:induction false} RunConserved(dump: Dump, s: State, actions: seq<Action>)
    requires Conserved(s) && Run(dump, s, actions).Some?
    ensures Conserved(Run(dump, s, actions).value)
    decreases |actions|
  {
    hide Conserved, Next;
    if actions != [] {
      ConservedNext(dump, s, actions[0]);
      RunConserved(dump, Next(dump, s, actions[0]).value, actions[1..]);
    }
  }

  lemma ReachableConserved(dump: Dump, s: State)
    requires Reachable(dump, s)
    ensures Conserved(s)
  {
    hide *;
    var input, logs, workers, actions := ReachableRun(dump, s);
    InitiallyConserved(input, logs, workers);
    RunConserved(dump, Initial(input, logs, workers), actions);
  }

  /** In every reachable state every accepted message is in exactly one place: queued, waiting for the queue to drain,
      executed by exactly one thread, or done. */
  lemma OnePlace(dump: Dump, s: State, i: nat)
    requires Reachable(dump, s) && i < |s.accepted|
    ensures |s.place| == |s.accepted|
    ensures i in s.queue <==> s.place[i] == Queued
    ensures s.main == Draining(i) <==> s.place[i] == Waiting
    ensures forall t :: 0 <= t < |s.threads| ==> (Index(s.threads[t]) == Some(i) <==> s.place[i] == Running(t))
    ensures s.place[i].Running? ==> s.place[i].t < |s.threads|
  {
    ReachableConserved(dump, s);
  }

  /** Completion requests and changes of the trace level are executed by workers, and everything else by the reader
      thread: what changes a document, the life cycle or the exit flag never runs beside another such message. */
  lemma WhoExecutes(dump: Dump, s: State, i: nat)
    requires Reachable(dump, s) && i < |s.accepted| == |s.place| && s.place[i].Running?
    ensures s.place[i].t > 0 <==> s.accepted[i].method_ in {"$/setTrace", "textDocument/completion"}
  {
    ReachableConserved(dump, s);
  }

  /** Jobs are popped in the order they were queued, which is the order in which they arrived. */
  lemma FirstInFirstOut(dump: Dump, s: State)
    requires Reachable(dump, s)
    ensures s.popped + s.queue == ConcurrentIndices(s.accepted)
  {
    ReachableConserved(dump, s);
  }

  /** While a message that is not concurrent is executed, everything that was accepted before it has left the queue, and
      nothing has been accepted after it. */
  lemma Barrier(dump: Dump, s: State)
    requires Reachable(dump, s) && s.main.Executing?
    ensures s.main.i + 1 == |s.accepted| == |s.place| && !IsConcurrentRequest(s.accepted[s.main.i])
    ensures s.threads != [] && Index(s.threads[0]) == Some(s.main.i)
    ensures s.popped == ConcurrentIndices(s.accepted)
    ensures forall j :: 0 <= j < s.main.i ==> s.place[j].Done? || (s.place[j].Running? && s.place[j].t > 0)
  {
    ReachableConserved(dump, s);
  }
}
