/**
 Every request gets exactly one response, and the output is a sequence of whole frames: whatever the interleaving, a
 client that reads the stream recovers exactly the responses sent, in the order the output lock was taken.
 */
module Responses {
  import opened Wrappers
  import opened Protocol
  import opened Scheduler
  import opened Conservation
  import Context
  import DidChange
  import Framing
  import Merging

  /** A thread has nothing left to send for its message. */
  predicate Late(pc: Pc) {
    pc.LoadFlag? || pc.StoreFlag?
  }

  function Answered(sent: seq<(nat, Response)>): seq<nat> {
    seq(|sent|, k requires 0 <= k < |sent| => sent[k].0)
  }

  predicate Answers(r: Response, m: Message) {
    m.Request? && r.Valid() && r.id == m.id
  }

  /** The response a thread carries is that of its message. */
  predicate Carries(pc: Pc, accepted: seq<Message>) {
    match pc
    case Handled(i, response) =>
      && i < |accepted|
      && (response.Some? <==> accepted[i].Request?)
      && (response.Some? ==> Answers(response.value, accepted[i]))
    case Applying(i, _, _, _) => i < |accepted| && accepted[i].Notification?
    case Sending(i, reply, _) => i < |accepted| && Answers(reply, accepted[i])
    case Writing(i, reply, _, k) => i < |accepted| && Answers(reply, accepted[i]) && k <= 3
    case _ => true
  }

  /** The message has been dealt with as far as its response goes. */
  predicate Resolved(s: State, i: nat)
    requires i < |s.place|
  {
    s.place[i].Done? || (s.place[i].Running? && s.place[i].t < |s.threads| && Late(s.threads[s.place[i].t]))
  }

  ghost predicate Responded(s: State) {
    && |s.place| == |s.accepted|
    && (forall t :: 0 <= t < |s.threads| ==> Carries(s.threads[t], s.accepted))
    && (forall k :: 0 <= k < |s.sent| ==>
                      && s.sent[k].0 < |s.accepted|
                      && Answers(s.sent[k].1, s.accepted[s.sent[k].0])
                      && Resolved(s, s.sent[k].0))
    && (forall j, k :: 0 <= j < k < |s.sent| ==> s.sent[j].0 != s.sent[k].0)
    && (forall i :: 0 <= i < |s.place| && Resolved(s, i) && s.accepted[i].Request? ==> i in Answered(s.sent))
  }

  // ---- The output ----

  function Body(dump: Dump, r: Response): string {
    if r.Valid() then dump(Finalized(r)) else ""
  }

  function Bodies(dump: Dump, sent: seq<(nat, Response)>): seq<string> {
    seq(|sent|, k requires 0 <= k < |sent| => Body(dump, sent[k].1))
  }

  function FirstPieces(body: string, k: nat): string
    requires k <= 3
  {
    if k == 0 then "" else FirstPieces(body, k - 1) + Framing.Piece(body, k - 1)
  }

  /** What the holder of the output lock has written of its frame. */
  function Partial(dump: Dump, s: State): string {
    if s.lock.Some? && s.lock.value < |s.threads| && s.threads[s.lock.value].Writing? && s.threads[s.lock.value].k <= 3
    then FirstPieces(Body(dump, s.threads[s.lock.value].reply), s.threads[s.lock.value].k)
    else ""
  }

  ghost predicate Framed(dump: Dump, s: State) {
    && (forall t :: 0 <= t < |s.threads| ==> (s.threads[t].Writing? <==> s.lock == Some(t)))
    && (s.lock.Some? ==> s.lock.value < |s.threads|)
    && s.output == Framing.Frames(s.frames) + Partial(dump, s)
    && Merging.Merges(s.frames, Bodies(dump, s.sent), s.traced)
  }

  lemma {:induction false} FramesAppend(bodies: seq<string>, body: string)
    ensures Framing.Frames(bodies + [body]) == Framing.Frames(bodies) + Framing.Frame(body)
  {
    hide Framing.Frame;
    if bodies != [] {
      FramesAppend(bodies[1..], body);
      assert (bodies + [body])[1..] == bodies[1..] + [body];
    } else {
      assert bodies + [body] == [body] && [body][1..] == [];
      assert Framing.Frames([]) == "";
    }
  }

  lemma AllPieces(body: string)
    ensures FirstPieces(body, 3) == Framing.Frame(body)
  {
    hide Framing.Piece;
    assert FirstPieces(body, 1) == Framing.Piece(body, 0);
    assert FirstPieces(body, 2) == FirstPieces(body, 1) + Framing.Piece(body, 1);
  }

  // ---- One step ----

  lemma AdvanceCarries(dump: Dump, s: State, t: nat, pc: Pc)
    requires Advance(dump, s, t, pc).Some? && Carries(pc, s.accepted)
    ensures Carries(Advance(dump, s, t, pc).value.pc, s.accepted)
  {
    hide Finalized, IsResponseTo, Framing.Piece;
    if pc.Begin? {
      Context.OneResponse(s.shared, s.accepted[pc.i]);
    }
  }

  /** Late steps: a thread gets past its response either because it has none, or by completing its frame. */
  lemma AdvanceLate(dump: Dump, s: State, t: nat, pc: Pc)
    requires Advance(dump, s, t, pc).Some?
    ensures var e := Advance(dump, s, t, pc).value;
            && (Late(pc) ==> Late(e.pc) && e.sent == s.sent)
            && (!Late(pc) && !Late(e.pc) ==> e.sent == s.sent)
            && (!Late(pc) && Late(e.pc) ==>
                  || (pc.Handled? && pc.response.None? && e.sent == s.sent)
                  || (pc.Writing? && e.sent == s.sent + [(pc.i, pc.reply)]))
  {
    hide Context.Execute, DidChange.ApplyOne, Finalized, Framing.Piece;
  }

  /** Messages are neither answered nor resolved by a step that sends nothing. */
  lemma RespondedFrame(s: State, s': State)
    requires Responded(s)
    requires s'.sent == s.sent && |s'.place| == |s'.accepted|
    requires |s'.accepted| >= |s.accepted| && s'.accepted[..|s.accepted|] == s.accepted
    requires forall i :: 0 <= i < |s.place| ==> (Resolved(s', i) <==> Resolved(s, i))
    requires forall i :: |s.place| <= i < |s'.place| ==> !Resolved(s', i)
    requires forall t :: 0 <= t < |s'.threads| ==> Carries(s'.threads[t], s'.accepted)
    ensures Responded(s')
  {
    assert forall i :: 0 <= i < |s.accepted| ==> s'.accepted[i] == s.accepted[i];
  }

  /** One thread moves on with its message. */
  lemma MoveResponded(s: State, t: nat, s': State)
    requires Placed(s) && Responded(s) && t < |s.threads| && Index(s.threads[t]).Some?
    requires |s'.threads| == |s.threads| && s'.threads == s.threads[t := s'.threads[t]]
    requires Index(s'.threads[t]) == Index(s.threads[t]) && Carries(s'.threads[t], s.accepted)
    requires s'.place == s.place && s'.accepted == s.accepted
    requires Late(s.threads[t]) ==> Late(s'.threads[t])
    requires var i := Index(s.threads[t]).value;
             if Late(s.threads[t]) || !Late(s'.threads[t]) then s'.sent == s.sent
             else if s.accepted[i].Request? then exists r :: Answers(r, s.accepted[i]) && s'.sent == s.sent + [(i, r)]
             else s'.sent == s.sent
    ensures Responded(s')
  {
    var i := Index(s.threads[t]).value;
    forall j | 0 <= j < |s.place| && j != i ensures Resolved(s', j) <==> Resolved(s, j) {
      if s.place[j].Running? {
        assert s.place[j].t != t;
      }
    }
    assert Resolved(s, i) <==> Late(s.threads[t]);
    assert Resolved(s', i) <==> Late(s'.threads[t]);
    assert forall u :: 0 <= u < |s'.threads| ==> Carries(s'.threads[u], s'.accepted);
    if s'.sent == s.sent {
      assert forall j :: 0 <= j < |s.place| && Resolved(s', j) && s.accepted[j].Request? ==> j in Answered(s'.sent);
    } else {
      AnsweredAppend(s.sent, s'.sent[|s.sent|]);
    }
  }

  lemma AnsweredAppend(sent: seq<(nat, Response)>, last: (nat, Response))
    ensures Answered(sent + [last]) == Answered(sent) + [last.0]
  {
  }

  lemma FinishResponded(s: State, t: nat)
    requires Placed(s) && Responded(s) && t < |s.threads| && s.threads[t].StoreFlag? && s.threads[t].i < |s.place|
    ensures Responded(Finish(s, t, s.threads[t].i))
  {
    var i := s.threads[t].i;
    var s' := Finish(s, t, i);
    forall j | 0 <= j < |s.place| ensures Resolved(s', j) <==> Resolved(s, j) {
      if j != i && s.place[j].Running? {
        assert s.place[j].t != t;
      }
    }
    assert s'.accepted[..|s.accepted|] == s.accepted;
    RespondedFrame(s, s');
  }

  lemma StepResponded(dump: Dump, s: State, t: nat)
    requires Placed(s) && Responded(s) && t < |s.threads| && StepThread(dump, s, t).Some?
    ensures Responded(StepThread(dump, s, t).value)
  {
    hide Advance, Finish, Resolved;
    var s' := StepThread(dump, s, t).value;
    if s.threads[t].StoreFlag? {
      FinishResponded(s, t);
      RespondedFlag(Finish(s, t, s.threads[t].i), s.threads[t].value);
    } else {
      AdvanceIndex(dump, s, t, s.threads[t]);
      AdvanceCarries(dump, s, t, s.threads[t]);
      AdvanceLate(dump, s, t, s.threads[t]);
      MoveResponded(s, t, s');
    }
  }

  lemma RespondedFlag(s: State, value: bool)
    requires Responded(s)
    ensures Responded(s.(flag := value))
  {
    var s' := s.(flag := value);
    assert s'.accepted[..|s.accepted|] == s.accepted;
    RespondedFrame(s, s');
  }

  lemma CarriesAppend(pc: Pc, accepted: seq<Message>, accepted': seq<Message>)
    requires Carries(pc, accepted) && accepted <= accepted'
    ensures Carries(pc, accepted')
  {
  }

  lemma ScheduleResponded(s: State)
    requires Placed(s) && Responded(s) && StepSchedule(s).Some?
    ensures Responded(StepSchedule(s).value)
  {
    hide ThreadsPlaced, QueuePlaced, WaitingPlaced, Responded, Carries;
    var s' := StepSchedule(s).value;
    RespondedCarries(s);
    assert s'.accepted[..|s.accepted|] == s.accepted;
    forall t | 0 <= t < |s.threads| ensures Carries(s'.threads[t], s'.accepted) {
      CarriesAppend(s.threads[t], s.accepted, s'.accepted);
    }
    RespondedFrame(s, s');
  }

  lemma RespondedCarries(s: State)
    requires Responded(s)
    ensures |s.place| == |s.accepted|
    ensures forall t :: 0 <= t < |s.threads| ==> Carries(s.threads[t], s.accepted)
  {
  }

  /** A thread that has nothing to do takes a message. */
  lemma StartResponded(s: State, t: nat, i: nat, s': State)
    requires Placed(s) && Responded(s) && t < |s.threads| && Index(s.threads[t]).None?
    requires i < |s.place| && (s.place[i].Queued? || s.place[i].Waiting?)
    requires s'.threads == s.threads[t := Begin(i)] && s'.place == s.place[i := Running(t)]
    requires s'.accepted == s.accepted && s'.sent == s.sent
    ensures Responded(s')
  {
    forall j | 0 <= j < |s.place| ensures Resolved(s', j) <==> Resolved(s, j) {
      if j != i && s.place[j].Running? {
        assert s.place[j].t != t;
      }
    }
    assert s'.accepted[..|s.accepted|] == s.accepted;
    RespondedFrame(s, s');
  }

  /** Threads without a message change. */
  lemma IdleResponded(s: State, s': State)
    requires Placed(s) && Responded(s) && |s'.threads| == |s.threads|
    requires forall t :: 0 <= t < |s.threads| ==>
                           s'.threads[t] == s.threads[t] || (Index(s.threads[t]).None? && Index(s'.threads[t]).None?)
    requires s'.place == s.place && s'.accepted == s.accepted && s'.sent == s.sent
    ensures Responded(s')
  {
    assert s'.accepted[..|s.accepted|] == s.accepted;
    RespondedFrame(s, s');
  }

  lemma RespondedNext(dump: Dump, s: State, a: Action)
    requires Conserved(s) && Responded(s) && Next(dump, s, a).Some?
    ensures Responded(Next(dump, s, a).value)
  {
    hide Responded, StepThread, StepSchedule, StepDrain, StepPop, StepRequestStop, Placed, Ordered, Disciplined;
    match a
    case Step(t) => StepResponded(dump, s, t);
    case Schedule => ScheduleResponded(s);
    case Drain => DrainResponded(s);
    case Pop(t) => PopResponded(s, t);
    case RequestStop(passed) => RequestStopResponded(s, passed);
    case _ =>
      BetweenFields(dump, s, a);
      hide Next;
      IdleResponded(s, Next(dump, s, a).value);
  }

  lemma DrainResponded(s: State)
    requires Conserved(s) && Responded(s) && StepDrain(s).Some?
    ensures Responded(StepDrain(s).value)
  {
    StartsWaiting(s);
    hide Responded, Placed, Ordered, Disciplined;
    StartResponded(s, 0, s.main.i, StepDrain(s).value);
  }

  lemma PopResponded(s: State, t: nat)
    requires Conserved(s) && Responded(s) && StepPop(s, t).Some?
    ensures Responded(StepPop(s, t).value)
  {
    FirstQueued(s);
    hide Responded, Placed, Ordered, Disciplined;
    if s.queue == [] {
      IdleResponded(s, StepPop(s, t).value);
    } else {
      StartResponded(s, t, s.queue[0], StepPop(s, t).value);
    }
  }

  lemma FirstQueued(s: State)
    requires Placed(s)
    ensures s.queue != [] ==> s.queue[0] < |s.place| && s.place[s.queue[0]].Queued?
  {
  }

  lemma RequestStopResponded(s: State, passed: set<nat>)
    requires Placed(s) && Responded(s) && StepRequestStop(s, passed).Some?
    ensures Responded(StepRequestStop(s, passed).value)
  {
    hide Responded, Placed;
    IdleResponded(s, StepRequestStop(s, passed).value);
  }

  lemma StartsWaiting(s: State)
    requires Disciplined(s) && s.main.Draining?
    ensures Index(s.threads[0]).None? && s.main.i < |s.place| && s.place[s.main.i].Waiting?
  {
  }

  // ---- The output, step by step ----

  /** Steps of threads that do not hold the output lock. */
  lemma QuietFramed(dump: Dump, s: State, s': State)
    requires Framed(dump, s) && |s'.threads| == |s.threads|
    requires s'.sent == s.sent && s'.traced == s.traced && s'.frames == s.frames
    requires s'.output == s.output && s'.lock == s.lock
    requires forall t :: 0 <= t < |s.threads| ==>
                           s'.threads[t] == s.threads[t] || (!s.threads[t].Writing? && !s'.threads[t].Writing?)
    ensures Framed(dump, s')
  {
  }

  lemma AcquireFramed(dump: Dump, s: State, t: nat, s': State)
    requires Framed(dump, s) && t < |s.threads| && s.threads[t].Sending? && s.lock.None?
    requires var Sending(i, reply, exit) := s.threads[t];
             s'.threads == s.threads[t := Writing(i, reply, exit, 0)]
    requires s'.sent == s.sent && s'.traced == s.traced && s'.frames == s.frames
    requires s'.output == s.output && s'.lock == Some(t)
    ensures Framed(dump, s')
  {
    assert Partial(dump, s) == "" && Partial(dump, s') == "";
  }

  lemma WriteFramed(dump: Dump, s: State, t: nat, s': State)
    requires Framed(dump, s) && t < |s.threads| && s.threads[t].Writing? && s.threads[t].k < 3
    requires var Writing(i, reply, exit, k) := s.threads[t];
             && reply.Valid()
             && s'.threads == s.threads[t := Writing(i, reply, exit, k + 1)]
             && s'.output == s.output + Framing.Piece(dump(Finalized(reply)), k)
    requires s'.sent == s.sent && s'.traced == s.traced && s'.frames == s.frames && s'.lock == s.lock
    ensures Framed(dump, s')
  {
    hide Framing.Piece, Framing.Frames, Bodies, Finalized, Merging.Merges;
    var k, body := s.threads[t].k, Body(dump, s.threads[t].reply);
    assert FirstPieces(body, k + 1) == FirstPieces(body, k) + Framing.Piece(body, k);
  }

  lemma ReleaseFramed(dump: Dump, s: State, t: nat, s': State)
    requires Framed(dump, s) && t < |s.threads| && s.threads[t].Writing? && s.threads[t].k == 3
    requires var Writing(i, reply, exit, k) := s.threads[t];
             && s'.threads == s.threads[t := LoadFlag(i, exit)] && s'.sent == s.sent + [(i, reply)]
             && s'.frames == s.frames + [Body(dump, reply)]
    requires s'.output == s.output && s'.traced == s.traced && s'.lock == None
    ensures Framed(dump, s')
  {
    hide Framing.Piece, Framing.Frame, Framing.Frames, FirstPieces;
    var body := Body(dump, s.threads[t].reply);
    AllPieces(body);
    FramesAppend(s.frames, body);
    assert Bodies(dump, s'.sent) == Bodies(dump, s.sent) + [body];
    Merging.MergesLeft(s.frames, Bodies(dump, s.sent), s.traced, body);
    assert Partial(dump, s') == "";
  }

  lemma LogFramed(dump: Dump, s: State)
    requires Framed(dump, s) && StepLog(s).Some?
    ensures Framed(dump, StepLog(s).value)
  {
    hide Framing.Frame, Framing.Frames, FirstPieces, Bodies;
    if Traced(s.shared, s.logs[0]) {
      var body := s.logs[0].body;
      FramesAppend(s.frames, body);
      Merging.MergesRight(s.frames, Bodies(dump, s.sent), s.traced, body);
    }
  }

  // What a step does to the output, by where the thread is.

  lemma AdvanceSending(dump: Dump, s: State, t: nat, pc: Pc)
    requires pc.Sending? && Advance(dump, s, t, pc).Some?
    ensures s.lock.None? && Advance(dump, s, t, pc).value
         == Effect(Writing(pc.i, pc.reply, pc.exit, 0), s.shared, Some(t), s.output, s.sent, s.frames)
  {
  }

  lemma AdvanceWriting(dump: Dump, s: State, t: nat, pc: Pc)
    requires pc.Writing? && Advance(dump, s, t, pc).Some?
    ensures pc.reply.Valid()
    ensures var e := Advance(dump, s, t, pc).value;
            if pc.k < 3 then
              && e.pc == Writing(pc.i, pc.reply, pc.exit, pc.k + 1) && e.lock == s.lock
              && e.output == s.output + Framing.Piece(dump(Finalized(pc.reply)), pc.k)
              && e.sent == s.sent && e.frames == s.frames
            else
              && e.pc == LoadFlag(pc.i, pc.exit) && e.lock == None && e.output == s.output
              && e.sent == s.sent + [(pc.i, pc.reply)] && e.frames == s.frames + [Body(dump, pc.reply)]
  {
    hide Finalized, Framing.Piece;
  }

  lemma AdvanceQuietly(dump: Dump, s: State, t: nat, pc: Pc)
    requires !pc.Sending? && !pc.Writing? && Advance(dump, s, t, pc).Some?
    ensures var e := Advance(dump, s, t, pc).value;
            && !e.pc.Writing? && e.lock == s.lock && e.output == s.output
            && e.sent == s.sent && e.frames == s.frames
  {
    hide Context.Execute, DidChange.ApplyOne;
  }

  lemma StepFramed(dump: Dump, s: State, t: nat)
    requires Responded(s) && Framed(dump, s) && t < |s.threads| && StepThread(dump, s, t).Some?
    ensures Framed(dump, StepThread(dump, s, t).value)
  {
    hide Framed, Framing.Piece, Finalized, Responded, FirstPieces, StepThread, Advance, Body;
    CarriesThread(s, t);
    StepFields(dump, s, t);
    var s', pc := StepThread(dump, s, t).value, s.threads[t];
    if pc.Sending? {
      AdvanceSending(dump, s, t, pc);
      AcquireFramed(dump, s, t, s');
    } else if pc.Writing? {
      AdvanceWriting(dump, s, t, pc);
      if pc.k < 3 {
        WriteFramed(dump, s, t, s');
      } else {
        ReleaseFramed(dump, s, t, s');
      }
    } else {
      if !pc.StoreFlag? {
        AdvanceQuietly(dump, s, t, pc);
      }
      QuietFramed(dump, s, s');
    }
  }

  lemma CarriesThread(s: State, t: nat)
    requires Responded(s) && t < |s.threads|
    ensures Carries(s.threads[t], s.accepted)
  {
  }

  lemma FramedNext(dump: Dump, s: State, a: Action)
    requires Conserved(s) && Responded(s) && Framed(dump, s) && Next(dump, s, a).Some?
    ensures Framed(dump, Next(dump, s, a).value)
  {
    hide Framed, StepThread, StepLog, StepPop, StepRequestStop, StepRead, Responded, Placed, Ordered, Disciplined;
    match a
    case Step(t) => StepFramed(dump, s, t);
    case Log => LogFramed(dump, s);
    case Drain =>
      StartsWaiting(s);
      QuietFramed(dump, s, StepDrain(s).value);
    case Pop(t) => PopFramed(dump, s, t);
    case RequestStop(passed) => RequestStopFramed(dump, s, passed);
    case Schedule => QuietFramed(dump, s, StepSchedule(s).value);
    case _ =>
      BetweenFields(dump, s, a);
      QuietFramed(dump, s, Next(dump, s, a).value);
  }

  lemma PopFramed(dump: Dump, s: State, t: nat)
    requires Framed(dump, s) && StepPop(s, t).Some?
    ensures Framed(dump, StepPop(s, t).value)
  {
    hide Framed;
    QuietFramed(dump, s, StepPop(s, t).value);
  }

  lemma RequestStopFramed(dump: Dump, s: State, passed: set<nat>)
    requires Framed(dump, s) && StepRequestStop(s, passed).Some?
    ensures Framed(dump, StepRequestStop(s, passed).value)
  {
    hide Framed;
    QuietFramed(dump, s, StepRequestStop(s, passed).value);
  }

  // ---- Over whole runs ----

  lemma {:induction false} RunResponded(dump: Dump, s: State, actions: seq<Action>)
    requires Conserved(s) && Responded(s) && Framed(dump, s) && Run(dump, s, actions).Some?
    ensures Responded(Run(dump, s, actions).value) && Framed(dump, Run(dump, s, actions).value)
    decreases |actions|
  {
    hide Conserved, Responded, Framed, Next;
    if actions != [] {
      ConservedNext(dump, s, actions[0]);
      RespondedNext(dump, s, actions[0]);
      FramedNext(dump, s, actions[0]);
      RunResponded(dump, Next(dump, s, actions[0]).value, actions[1..]);
    }
  }

  lemma InitiallyResponded(dump: Dump, input: seq<Option<Message>>, logs: seq<LogRecord>, workers: nat)
    ensures Responded(Initial(input, logs, workers)) && Framed(dump, Initial(input, logs, workers))
  {
    assert Bodies(dump, []) == [];
    assert Framing.Frames([]) == "";
  }

  lemma ReachableResponded(dump: Dump, s: State)
    requires Reachable(dump, s)
    ensures Conserved(s) && Responded(s) && Framed(dump, s)
  {
    hide *;
    var input, logs, workers, actions := ReachableRun(dump, s);
    InitiallyConserved(input, logs, workers);
    InitiallyResponded(dump, input, logs, workers);
    RunConserved(dump, Initial(input, logs, workers), actions);
    RunResponded(dump, Initial(input, logs, workers), actions);
  }

  /** How many responses to message number i have been sent. */
  function ResponsesTo(sent: seq<(nat, Response)>, i: nat): nat {
    if sent == [] then 0 else (if sent[0].0 == i then 1 else 0) + ResponsesTo(sent[1..], i)
  }

  lemma {:induction false} ResponsesToDistinct(sent: seq<(nat, Response)>, i: nat)
    requires forall j, k :: 0 <= j < k < |sent| ==> sent[j].0 != sent[k].0
    ensures ResponsesTo(sent, i) == if i in Answered(sent) then 1 else 0
  {
    if sent != [] {
      ResponsesToDistinct(sent[1..], i);
      assert Answered(sent) == [sent[0].0] + Answered(sent[1..]);
    }
  }

  /** In every reachable state an accepted request has been answered exactly once if it is done or past its response,
      and not at all before; a notification is never answered. */
  lemma OneResponseEach(dump: Dump, s: State, i: nat)
    requires Reachable(dump, s) && i < |s.accepted|
    ensures |s.place| == |s.accepted|
    ensures ResponsesTo(s.sent, i) == if s.accepted[i].Request? && Resolved(s, i) then 1 else 0
  {
    ReachableResponded(dump, s);
    ResponsesToDistinct(s.sent, i);
    if i in Answered(s.sent) {
      var k :| 0 <= k < |s.sent| && Answered(s.sent)[k] == i;
    }
  }

  /** Every response sent carries the id of the request it answers, and a result or an error. */
  lemma ResponsesAreValid(dump: Dump, s: State, k: nat)
    requires Reachable(dump, s) && k < |s.sent|
    ensures var (i, r) := s.sent[k];
            i < |s.accepted| && s.accepted[i].Request? && r.Valid() && IsResponseTo(Finalized(r), s.accepted[i].id)
  {
    ReachableResponded(dump, s);
    FinalizedIsResponse(s.sent[k].1);
  }

  // ---- The order of responses ----

  /** Responses to messages that are not concurrent are sent in arrival order. */
  ghost predicate InTurn(accepted: seq<Message>, sent: seq<(nat, Response)>) {
    forall j, k :: 0 <= j < k < |sent| && Exclusive(accepted, sent[j].0) && Exclusive(accepted, sent[k].0) ==>
                     sent[j].0 < sent[k].0
  }

  predicate Exclusive(accepted: seq<Message>, i: nat) {
    i < |accepted| && !IsConcurrentRequest(accepted[i])
  }

  lemma SentInTurn(s: State, t: nat, reply: Response)
    requires Disciplined(s) && Responded(s) && InTurn(s.accepted, s.sent)
    requires t < |s.threads| && Index(s.threads[t]).Some? && Index(s.threads[t]).value < |s.place|
    requires !Resolved(s, Index(s.threads[t]).value)
    ensures InTurn(s.accepted, s.sent + [(Index(s.threads[t]).value, reply)])
  {
    hide QueueDisciplined;
    var i := Index(s.threads[t]).value;
    if t == 0 {
      assert i + 1 == |s.accepted|;
      assert forall k :: 0 <= k < |s.sent| ==> s.sent[k].0 != i;
    } else {
      assert IsConcurrentRequest(s.accepted[i]);
    }
  }

  lemma StepInTurn(dump: Dump, s: State, t: nat)
    requires Conserved(s) && Responded(s) && InTurn(s.accepted, s.sent)
    requires t < |s.threads| && StepThread(dump, s, t).Some?
    ensures InTurn(StepThread(dump, s, t).value.accepted, StepThread(dump, s, t).value.sent)
  {
    hide StepThread, Advance, InTurn, Ordered, Disciplined, Responded;
    StepFields(dump, s, t);
    var pc := s.threads[t];
    if !pc.StoreFlag? {
      AdvanceLate(dump, s, t, pc);
      if StepThread(dump, s, t).value.sent != s.sent {
        SentInTurn(s, t, pc.reply);
      }
    }
  }

  lemma InTurnAppend(accepted: seq<Message>, accepted': seq<Message>, sent: seq<(nat, Response)>)
    requires InTurn(accepted, sent) && accepted <= accepted'
    requires forall k :: 0 <= k < |sent| ==> sent[k].0 < |accepted|
    ensures InTurn(accepted', sent)
  {
  }

  lemma InTurnNext(dump: Dump, s: State, a: Action)
    requires Conserved(s) && Responded(s) && InTurn(s.accepted, s.sent) && Next(dump, s, a).Some?
    ensures InTurn(Next(dump, s, a).value.accepted, Next(dump, s, a).value.sent)
  {
    hide StepThread, StepRead, StepPop, StepDrain, StepRequestStop, StepLog, InTurn, Conserved;
    match a
    case Step(t) => StepInTurn(dump, s, t);
    case Schedule => InTurnAppend(s.accepted, StepSchedule(s).value.accepted, s.sent);
    case Pop(t) => KeepsAnswers(dump, s, a);
    case Drain => KeepsAnswers(dump, s, a);
    case RequestStop(passed) => KeepsAnswers(dump, s, a);
    case _ => BetweenFields(dump, s, a);
  }

  lemma KeepsAnswers(dump: Dump, s: State, a: Action)
    requires (a.Pop? || a.Drain? || a.RequestStop?) && Next(dump, s, a).Some?
    ensures Next(dump, s, a).value.accepted == s.accepted && Next(dump, s, a).value.sent == s.sent
  {
  }

  lemma {:induction false} RunInTurn(dump: Dump, s: State, actions: seq<Action>)
    requires Conserved(s) && Responded(s) && InTurn(s.accepted, s.sent) && Run(dump, s, actions).Some?
    ensures InTurn(Run(dump, s, actions).value.accepted, Run(dump, s, actions).value.sent)
    decreases |actions|
  {
    hide Conserved, Responded, InTurn, Next;
    if actions != [] {
      ConservedNext(dump, s, actions[0]);
      RespondedNext(dump, s, actions[0]);
      InTurnNext(dump, s, actions[0]);
      RunInTurn(dump, Next(dump, s, actions[0]).value, actions[1..]);
    }
  }

  lemma InitiallyInTurn(input: seq<Option<Message>>, logs: seq<LogRecord>, workers: nat)
    ensures InTurn(Initial(input, logs, workers).accepted, Initial(input, logs, workers).sent)
  {
  }

  /** In every reachable state the responses to messages executed by the reader thread have been sent in the order in
      which the messages arrived. */
  lemma ResponsesInTurn(dump: Dump, s: State)
    requires Reachable(dump, s)
    ensures InTurn(s.accepted, s.sent)
  {
    hide *;
    var input, logs, workers, actions := ReachableRun(dump, s);
    InitiallyConserved(input, logs, workers);
    InitiallyResponded(dump, input, logs, workers);
    InitiallyInTurn(input, logs, workers);
    RunInTurn(dump, Initial(input, logs, workers), actions);
  }

  /** In particular, only the responses to completion requests, and to requests that misuse the name of the notification
      that sets the trace level, can overtake or be overtaken. */
  lemma OnlyCompletionsOvertake(dump: Dump, s: State, j: nat, k: nat)
    requires Reachable(dump, s) && j < k < |s.sent|
    ensures s.sent[j].0 < |s.accepted| && s.sent[k].0 < |s.accepted|
    ensures || s.sent[j].0 < s.sent[k].0
            || s.accepted[s.sent[j].0].method_ in {"textDocument/completion", "$/setTrace"}
            || s.accepted[s.sent[k].0].method_ in {"textDocument/completion", "$/setTrace"}
  {
    hide Reachable;
    ResponsesAreValid(dump, s, j);
    ResponsesAreValid(dump, s, k);
    ResponsesInTurn(dump, s);
  }

  /** In every reachable state a client that reads the output gets exactly the bodies of the frames written, in the
      order in which the output lock was taken: those of the responses sent, in order, and between them those of the log
      records. What is left over is what the holder of the lock has written so far. */
  lemma OutputIsFrames(dump: Dump, s: State)
    requires Reachable(dump, s)
    requires forall k :: 0 <= k < |s.frames| ==> |s.frames[k]| <= Framing.MAX_STREAMSIZE
    ensures Framing.ReadAll(Framing.Stream(s.output, false, false), |s.frames|)
         == (Framing.Stream(Partial(dump, s), false, false), Some(s.frames))
    ensures Merging.Merges(s.frames, Bodies(dump, s.sent), s.traced)
    ensures s.lock.None? ==> Partial(dump, s) == ""
  {
    ReachableResponded(dump, s);
    Framing.StreamRoundTrip(s.frames, Partial(dump, s));
  }
}
