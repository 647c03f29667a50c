/**
 The server at run time: one reader thread that executes most messages itself and queues two kinds of them for a pool
 of workers. Every shared access is a step of its own: a pop of the queue, a call of the document store, a load or a
 store of a flag, a write to the output. A run is any interleaving of the steps of all threads.
 */
module Scheduler {
  import opened Wrappers
  import opened Protocol
  import opened Context
  import DidChange
  import FileBrowser
  import Framing
  import JsonValues

  /** How the JSON library prints a value. */
  type Dump = JsonValues.Json -> string

  /** Where a thread is in the execution of message number `i`. */
  datatype Pc =
    | Idle
    | Begin(i: nat)                                         // about to run the handler
    | Applying(i: nat, uri: FileBrowser.Uri, version: int, changes: seq<DidChange.ContentChange>)
                                                            // inside the change handler
    | Handled(i: nat, response: Option<Response>)           // about to load the exit request
    | Sending(i: nat, reply: Response, exit: bool)          // about to take the output lock
    | Writing(i: nat, reply: Response, exit: bool, k: nat)  // holds it; k pieces are out
    | LoadFlag(i: nat, exit: bool)                          // about to load the exit flag
    | StoreFlag(i: nat, value: bool)                        // about to store the exit flag
    | LastPop                                               // past its last stop check
    | Stopped

  /** Where the reader thread is, outside the execution of a message. */
  datatype Main =
    | Reading
    | Scheduling(message: Message)
    | Draining(i: nat)
    | Executing(i: nat)
    | Checking
    | Exited
    | Spinning
    | Joining
    | Finished

  /** Where an accepted message is. */
  datatype Place = Queued | Waiting | Running(t: nat) | Done

  /** A log record, with the body of the notification that would carry it to the client. */
  datatype LogRecord = LogRecord(body: string, aboveTrace: bool)

  datatype State = State(
    input: seq<Option<Message>>,   // what the next reads yield; once it is used up, every read fails
    logs: seq<LogRecord>,          // what the threads will still log, in order
    failures: nat,                 // successive failed reads
    main: Main,
    threads: seq<Pc>,              // thread 0 is the reader thread, the others are the workers
    queue: seq<nat>,               // the jobs of the pool
    lock: Option<nat>,             // who holds the output lock
    output: string,
    shared: Shared,
    flag: bool,                    // the scheduler's exit flag
    stopping: bool,                // the workers have been asked to stop
    // history
    received: seq<Message>,        // every message read
    accepted: seq<Message>,        // those not ignored because of the exit flag; a message's number is its index here
    dropped: seq<Message>,         // those ignored
    place: seq<Place>,             // where each of them is
    popped: seq<nat>,              // the jobs taken off the queue, in order
    sent: seq<(nat, Response)>,    // the responses whose frame is complete, in order
    traced: seq<string>,           // the bodies of the log records written, in order
    frames: seq<string>)           // the bodies of all frames that are complete, in the order they were written

  const MAX_FAILED_REQUESTS := 3

  function Initial(input: seq<Option<Message>>, logs: seq<LogRecord>, workers: nat): State {
    State(input, logs, 0, Reading, seq(workers + 1, _ => Idle), [], None, "", INITIAL, false, false,
          [], [], [], [], [], [], [], [])
  }

  predicate IsConcurrentRequest(m: Message) {
    m.method_ in {"$/setTrace", "textDocument/completion"}
  }

  // ---- Steps of a thread that executes a message ----

  /** The changes to apply one by one, when the handler is that of a change notification. */
  predicate IsChange(initialized: bool, m: Message) {
    initialized && m.Notification? && m.method_ == "textDocument/didChange" && m.params.ChangeParams?
  }

  function Move(s: State, t: nat, pc: Pc): State
    requires t < |s.threads|
  {
    s.(threads := s.threads[t := pc])
  }

  /** The thread is done with its message: a worker goes back to its loop, the reader thread checks for the exit. */
  function Finish(s: State, t: nat, i: nat): State
    requires t < |s.threads| && i < |s.place|
  {
    var s' := Move(s, t, if t > 0 && s.stopping then Stopped else Idle).(place := s.place[i := Done]);
    if t == 0 then s'.(main := Checking) else s'
  }

  /** What a step does to the thread's program counter and to the state the handlers and the output share. */
  datatype Effect = Effect(pc: Pc, shared: Shared, lock: Option<nat>, output: string, sent: seq<(nat, Response)>,
                           frames: seq<string>)

  function Begun(shared: Shared, i: nat, m: Message): (Pc, Shared) {
    if IsChange(shared.docs.initialized, m) then
      (Applying(i, m.params.uri, m.params.version, m.params.changes), shared)
    else
      var (shared', response) := Execute(shared, m);
      (Handled(i, response), shared')
  }

  function Applied(shared: Shared, i: nat, uri: FileBrowser.Uri, version: int, changes: seq<DidChange.ContentChange>)
    : (Pc, Shared)
  {
    if changes == [] then (Handled(i, None), shared)
    else
      var r := DidChange.ApplyOne(shared.docs.files, uri, version, changes[0]);
      (if r.ok then Applying(i, uri, version, changes[1..]) else Handled(i, None),
       shared.(docs := shared.docs.(files := r.files)))
  }

  /** One step of the execution of a message by thread t, up to the store of the exit flag; None if it cannot go on. */
  function Advance(dump: Dump, s: State, t: nat, pc: Pc): Option<Effect> {
    var e := Effect(pc, s.shared, s.lock, s.output, s.sent, s.frames);
    match pc
    case Begin(i) =>
      if i >= |s.accepted| then None
      else
        var (pc', shared') := Begun(s.shared, i, s.accepted[i]);
        Some(e.(pc := pc', shared := shared'))
    case Applying(i, uri, version, changes) =>
      var (pc', shared') := Applied(s.shared, i, uri, version, changes);
      Some(e.(pc := pc', shared := shared'))
    case Handled(i, response) =>
      var exit := s.shared.exitRequested;
      Some(e.(pc := if response.None? then LoadFlag(i, exit) else Sending(i, response.value, exit)))
    case Sending(i, reply, exit) =>
      if s.lock.Some? then None else Some(e.(pc := Writing(i, reply, exit, 0), lock := Some(t)))
    case Writing(i, reply, exit, k) =>
      if !reply.Valid() then None
      else if k < 3 then
        Some(e.(pc := Writing(i, reply, exit, k + 1), output := s.output + Framing.Piece(dump(Finalized(reply)), k)))
      else
        Some(e.(pc := LoadFlag(i, exit), lock := None, sent := s.sent + [(i, reply)],
                frames := s.frames + [dump(Finalized(reply))]))
    case LoadFlag(i, exit) => Some(e.(pc := StoreFlag(i, exit || s.flag)))
    case _ => None
  }

  function StepThread(dump: Dump, s: State, t: nat): Option<State>
    requires t < |s.threads|
  {
    if s.threads[t].StoreFlag? then
      var StoreFlag(i, value) := s.threads[t];
      if i < |s.place| then Some(Finish(s, t, i).(flag := value)) else None
    else
      match Advance(dump, s, t, s.threads[t])
      case None => None
      case Some(e) =>
        Some(Move(s, t, e.pc)
             .(shared := e.shared, lock := e.lock, output := e.output, sent := e.sent, frames := e.frames))
  }

  // ---- Steps of the reader thread, and of the workers between messages ----

  datatype Action =
    | Read                           // read a message, or fail to
    | Schedule                       // ignore it, queue it, or wait to execute it
    | Drain                          // the queue is empty: execute it
    | Check                          // look at the exit flag
    | ExternalStop                   // another thread stops the server between two reads
    | RequestStop(passed: set<nat>)  // ask the workers to stop; those given have already checked and will pop once more
    | SpinDone
    | Join
    | Pop(t: nat)
    | Step(t: nat)
    | Log                            // a thread logs something

  /** Puts a message read at the end of the accepted ones. */
  function Accept(s: State, m: Message, place: Place): State {
    s.(accepted := s.accepted + [m], place := s.place + [place])
  }

  function StopWorker(pc: Pc, passed: bool): Pc {
    if pc.Idle? then (if passed then LastPop else Stopped) else pc
  }

  function StepRead(s: State): Option<State> {
    if !s.main.Reading? then None
    else if s.input != [] && s.input[0].Some? then
      Some(s.(input := s.input[1..], failures := 0, main := Scheduling(s.input[0].value),
              received := s.received + [s.input[0].value]))
    else
      Some(s.(input := if s.input == [] then [] else s.input[1..], failures := s.failures + 1,
              main := if s.failures + 1 > MAX_FAILED_REQUESTS then Exited else Reading))
  }

  function StepSchedule(s: State): Option<State> {
    if !s.main.Scheduling? then None
    else if s.flag then Some(s.(main := Checking, dropped := s.dropped + [s.main.message]))
    else if IsConcurrentRequest(s.main.message) then
      Some(Accept(s, s.main.message, Queued).(queue := s.queue + [|s.accepted|], main := Checking))
    else Some(Accept(s, s.main.message, Waiting).(main := Draining(|s.accepted|)))
  }

  function StepDrain(s: State): Option<State> {
    if !s.main.Draining? || s.queue != [] || s.threads == [] || s.main.i >= |s.place| then None
    else Some(Move(s, 0, Begin(s.main.i)).(main := Executing(s.main.i), place := s.place[s.main.i := Running(0)]))
  }

  function StepRequestStop(s: State, passed: set<nat>): Option<State> {
    if !s.main.Exited? then None
    else
      Some(s.(main := Spinning, stopping := true,
              threads := seq(|s.threads|, t requires 0 <= t < |s.threads| =>
                               if t == 0 then s.threads[t] else StopWorker(s.threads[t], t in passed))))
  }

  predicate AllStopped(threads: seq<Pc>) {
    forall t :: 0 < t < |threads| ==> threads[t].Stopped?
  }

  function StepPop(s: State, t: nat): Option<State> {
    if t == 0 || t >= |s.threads| || !(s.threads[t].Idle? || s.threads[t].LastPop?) then None
    else if s.queue == [] then (if s.threads[t].LastPop? then Some(Move(s, t, Stopped)) else None)
    else if s.queue[0] >= |s.place| then None
    else
      Some(Move(s, t, Begin(s.queue[0]))
           .(queue := s.queue[1..], popped := s.popped + [s.queue[0]], place := s.place[s.queue[0] := Running(t)]))
  }

  /** Whether a log record goes to the client. */
  predicate Traced(shared: Shared, record: LogRecord) {
    && shared.canSendTrace
    && match shared.trace
       case Off => false
       case Messages => record.aboveTrace
       case Verbose => true
  }

  /** A log record is written under the output lock, by whichever thread logs it. */
  function StepLog(s: State): Option<State> {
    if s.logs == [] then None
    else if !Traced(s.shared, s.logs[0]) then Some(s.(logs := s.logs[1..]))
    else if s.lock.Some? then None
    else
      var body := s.logs[0].body;
      Some(s.(logs := s.logs[1..], output := s.output + Framing.Frame(body), traced := s.traced + [body],
              frames := s.frames + [body]))
  }

  /** The state after an action, None if the action is not possible. */
  function Next(dump: Dump, s: State, a: Action): Option<State> {
    match a
    case Read => StepRead(s)
    case Schedule => StepSchedule(s)
    case Drain => StepDrain(s)
    case Check => if s.main.Checking? then Some(s.(main := if s.flag then Exited else Reading)) else None
    case ExternalStop => if s.main.Reading? then Some(s.(main := Exited)) else None
    case RequestStop(passed) => StepRequestStop(s, passed)
    case SpinDone => if s.main.Spinning? && s.queue == [] then Some(s.(main := Joining)) else None
    case Join => if s.main.Joining? && AllStopped(s.threads) then Some(s.(main := Finished)) else None
    case Pop(t) => StepPop(s, t)
    case Step(t) => if t < |s.threads| then StepThread(dump, s, t) else None
    case Log => StepLog(s)
  }

  /** The state after a sequence of actions, None if one of them is not possible. */
  function Run(dump: Dump, s: State, actions: seq<Action>): Option<State>
    decreases |actions|
  {
    if actions == [] then Some(s)
    else
      var s' := Next(dump, s, actions[0]);
      if s'.None? then None else Run(dump, s'.value, actions[1..])
  }

  ghost predicate Reachable(dump: Dump, s: State) {
    exists input, logs, workers: nat, actions ::
      workers >= 1 && Run(dump, Initial(input, logs, workers), actions) == Some(s)
  }

  // ---- What a step leaves alone ----

  /** A step of a thread changes its program counter and what its handler and the output share. */
  lemma StepFields(dump: Dump, s: State, t: nat)
    requires t < |s.threads| && StepThread(dump, s, t).Some?
    ensures var s' := StepThread(dump, s, t).value;
            && s'.queue == s.queue && s'.popped == s.popped && s'.accepted == s.accepted && s'.received == s.received
            && s'.input == s.input && s'.logs == s.logs && s'.failures == s.failures && s'.stopping == s.stopping
            && s'.dropped == s.dropped && s'.traced == s.traced
            && |s'.threads| == |s.threads| && s'.threads == s.threads[t := s'.threads[t]]
            && |s'.place| == |s.place|
            && if s.threads[t].StoreFlag? then
                 && s.threads[t].i < |s.place| && s'.place == s.place[s.threads[t].i := Done]
                 && s'.threads[t] == (if t > 0 && s.stopping then Stopped else Idle)
                 && s'.main == (if t == 0 then Checking else s.main) && s'.flag == s.threads[t].value
                 && s'.shared == s.shared && s'.lock == s.lock && s'.output == s.output && s'.sent == s.sent
                 && s'.frames == s.frames
               else
                 && Advance(dump, s, t, s.threads[t]).Some?
                 && Effect(s'.threads[t], s'.shared, s'.lock, s'.output, s'.sent, s'.frames)
                    == Advance(dump, s, t, s.threads[t]).value
                 && s'.place == s.place && s'.main == s.main && s'.flag == s.flag
  {
    hide Advance;
  }

  /** The actions between messages. */
  predicate Between(a: Action) {
    a.Read? || a.Check? || a.ExternalStop? || a.SpinDone? || a.Join? || a.Log?
  }

  /** Actions between messages leave the threads, the jobs and the messages accepted alone. */
  lemma BetweenFields(dump: Dump, s: State, a: Action)
    requires Between(a) && Next(dump, s, a).Some?
    ensures var s' := Next(dump, s, a).value;
            && s'.threads == s.threads && s'.queue == s.queue && s'.popped == s.popped && s'.accepted == s.accepted
            && s'.place == s.place && s'.shared == s.shared && s'.sent == s.sent && s'.lock == s.lock
            && s'.flag == s.flag && s'.stopping == s.stopping && s'.dropped == s.dropped
            && (a.Log? ==> s'.main == s.main)
            && (!a.Log? ==> s'.output == s.output && s'.traced == s.traced && s'.frames == s.frames)
            && (!a.Log? ==> !s.main.Draining? && !s.main.Executing? && !s'.main.Draining? && !s'.main.Executing?)
  {
    hide StepLog, StepRead, AllStopped;
    if a.Log? {
      LogFields(s);
    } else if a.Read? {
      ReadFields(s);
    }
  }

  lemma LogFields(s: State)
    requires StepLog(s).Some?
    ensures var s' := StepLog(s).value;
            s' == s.(logs := s.logs[1..], output := s'.output, traced := s'.traced, frames := s'.frames)
  {
    hide Framing.Frame, Traced;
  }

  lemma ReadFields(s: State)
    requires StepRead(s).Some?
    ensures var s' := StepRead(s).value;
            && s' == s.(input := s'.input, failures := s'.failures, main := s'.main, received := s'.received)
            && s.main.Reading? && (s'.main.Scheduling? || s'.main.Exited? || s'.main.Reading?)
  {
  }

  lemma ReachableRun(dump: Dump, s: State)
    returns (input: seq<Option<Message>>, logs: seq<LogRecord>, workers: nat, actions: seq<Action>)
    requires Reachable(dump, s)
    ensures workers >= 1 && Run(dump, Initial(input, logs, workers), actions) == Some(s)
  {
    input, logs, workers, actions :| workers >= 1 && Run(dump, Initial(input, logs, workers), actions) == Some(s);
  }

  /** The message a thread is executing. */
  function Index(pc: Pc): Option<nat> {
    if pc.Idle? || pc.LastPop? || pc.Stopped? then None else Some(pc.i)
  }

  /** A step stays with the thread's message. */
  lemma AdvanceIndex(dump: Dump, s: State, t: nat, pc: Pc)
    requires Advance(dump, s, t, pc).Some?
    ensures Index(pc).Some? && Index(Advance(dump, s, t, pc).value.pc) == Index(pc)
  {
  }
}
