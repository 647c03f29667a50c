/**
 Which log records go to the client: none before the client has announced that it is initialized, and from then on those
 that the trace level lets through.
 */
module Tracing {
  import opened Wrappers
  import opened Protocol
  import opened Context
  import opened Scheduler
  import DidChange
  import Framing

  predicate Announces(m: Message) {
    m.Notification? && m.method_ == "initialized"
  }

  /** What the names of the trace levels mean: all records, those above the trace severity, or none. */
  predicate LetsThrough(level: string, record: LogRecord) {
    level == "verbose" || (level == "messages" && record.aboveTrace)
  }

  /** A client that has announced itself sets the level by a notification, or beforehand with its request to initialise,
      where any other name turns tracing off; until it sets one, the level is that of messages. */
  lemma LevelDecides(shared: Shared, level: string, id: Id, record: LogRecord)
    requires shared.canSendTrace
    ensures shared.docs.initialized && level in {"off", "messages", "verbose"} ==>
              (Traced(Execute(shared, Notification("$/setTrace", SetTraceParams(level))).0, record)
               <==> LetsThrough(level, record))
    ensures Traced(Execute(shared, Request("initialize", id, InitializeParams(Some(level)))).0, record)
            <==> LetsThrough(level, record)
    ensures Traced(Execute(shared, Request("initialize", id, InitializeParams(None))).0, record)
            <==> Traced(shared, record)
    ensures Traced(INITIAL.(canSendTrace := true), record) <==> LetsThrough("messages", record)
  {
    hide INITIALIZE_RESULT;
  }

  lemma CanSendTraceBy(shared: Shared, m: Message)
    ensures Execute(shared, m).0.canSendTrace <==> shared.canSendTrace || Announces(m)
  {
    hide INITIALIZE_RESULT, NotifyDocs;
  }

  ghost predicate HasAnnounced(messages: seq<Message>) {
    exists k :: 0 <= k < |messages| && Announces(messages[k])
  }

  /** Nothing is sent to a client that has not announced itself. */
  ghost predicate Announced(s: State) {
    s.shared.canSendTrace || s.traced != [] ==> HasAnnounced(s.accepted)
  }

  lemma AdvanceAnnounced(dump: Dump, s: State, t: nat, pc: Pc)
    requires Announced(s) && Advance(dump, s, t, pc).Some?
    ensures Advance(dump, s, t, pc).value.shared.canSendTrace ==> HasAnnounced(s.accepted)
  {
    hide Execute, Finalized, Framing.Piece, DidChange.ApplyOne;
    if pc.Begin? {
      CanSendTraceBy(s.shared, s.accepted[pc.i]);
    }
  }

  lemma AnnouncedNext(dump: Dump, s: State, a: Action)
    requires Announced(s) && Next(dump, s, a).Some?
    ensures Announced(Next(dump, s, a).value)
  {
    hide StepThread, Advance, HasAnnounced, StepPop, StepRequestStop, StepDrain, StepRead;
    match a
    case Step(t) =>
      StepFields(dump, s, t);
      if !s.threads[t].StoreFlag? {
        AdvanceAnnounced(dump, s, t, s.threads[t]);
      }
    case Schedule => ScheduleAnnounced(s);
    case Pop(t) => PopAnnounced(s, t);
    case RequestStop(passed) => RequestStopAnnounced(s, passed);
    case Drain => DrainAnnounced(s);
    case Read => ReadAnnounced(s);
    case _ =>
  }

  lemma ScheduleAnnounced(s: State)
    requires Announced(s) && StepSchedule(s).Some?
    ensures Announced(StepSchedule(s).value)
  {
    if HasAnnounced(s.accepted) {
      var k :| 0 <= k < |s.accepted| && Announces(s.accepted[k]);
      assert Announces(StepSchedule(s).value.accepted[k]);
    }
  }

  lemma PopAnnounced(s: State, t: nat)
    requires Announced(s) && StepPop(s, t).Some?
    ensures Announced(StepPop(s, t).value)
  {
    hide HasAnnounced;
  }

  lemma RequestStopAnnounced(s: State, passed: set<nat>)
    requires Announced(s) && StepRequestStop(s, passed).Some?
    ensures Announced(StepRequestStop(s, passed).value)
  {
    hide HasAnnounced;
  }

  lemma DrainAnnounced(s: State)
    requires Announced(s) && StepDrain(s).Some?
    ensures Announced(StepDrain(s).value)
  {
    hide HasAnnounced;
  }

  lemma ReadAnnounced(s: State)
    requires Announced(s) && StepRead(s).Some?
    ensures Announced(StepRead(s).value)
  {
    hide HasAnnounced;
  }

  lemma {:induction false} RunAnnounced(dump: Dump, s: State, actions: seq<Action>)
    requires Announced(s) && Run(dump, s, actions).Some?
    ensures Announced(Run(dump, s, actions).value)
    decreases |actions|
  {
    hide Announced, Next;
    if actions != [] {
      AnnouncedNext(dump, s, actions[0]);
      RunAnnounced(dump, Next(dump, s, actions[0]).value, actions[1..]);
    }
  }

  /** In every reachable state in which a log record has been written to the client, the server has accepted the
      client's notification that it is initialized. */
  lemma NothingTracedBefore(dump: Dump, s: State)
    requires Reachable(dump, s) && s.traced != []
    ensures exists k :: 0 <= k < |s.accepted| && Announces(s.accepted[k])
  {
    var input, logs, workers, actions := ReachableRun(dump, s);
    hide Run;
    assert Announced(Initial(input, logs, workers));
    RunAnnounced(dump, Initial(input, logs, workers), actions);
  }
}
