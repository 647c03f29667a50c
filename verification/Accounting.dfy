/**
 Every message received is accounted for, also after an exit: it is accepted, ignored because of the exit flag, or still
 to be scheduled; and every request among them is answered, queued, waiting, being executed, or was ignored.
 */
module Accounting {
  import opened Wrappers
  import opened Protocol
  import opened Scheduler
  import opened Conservation
  import Context
  import Determinism
  import Merging
  import Responses

  /** The messages received that have been scheduled. */
  function Scheduled(s: State): seq<Message> {
    if s.main.Scheduling? && s.received != [] then s.received[..|s.received| - 1] else s.received
  }

  ghost predicate Accounted(s: State) {
    && (s.main.Scheduling? ==> s.received != [] && s.received[|s.received| - 1] == s.main.message)
    && Merging.Merges(Scheduled(s), s.accepted, s.dropped)
    && (s.dropped != [] ==> Determinism.HasExit(s.accepted))
  }

  lemma ScheduleAccounted(s: State)
    requires Determinism.ExitCaused(s) && Accounted(s) && StepSchedule(s).Some?
    ensures Accounted(StepSchedule(s).value)
  {
    hide Merging.Merges, Determinism.HasExit, Determinism.ExitCaused;
    Determinism.FlagMeansExit(s);
    var s', m := StepSchedule(s).value, s.main.message;
    assert Scheduled(s') == Scheduled(s) + [m];
    if s.flag {
      Merging.MergesRight(Scheduled(s), s.accepted, s.dropped, m);
    } else {
      Merging.MergesLeft(Scheduled(s), s.accepted, s.dropped, m);
      if Determinism.HasExit(s.accepted) {
        ExitStays(s.accepted, m);
      }
    }
  }

  lemma ExitStays(messages: seq<Message>, m: Message)
    requires Determinism.HasExit(messages)
    ensures Determinism.HasExit(messages + [m])
  {
    var k :| 0 <= k < |messages| && Context.IsExit(messages[k]);
    assert Context.IsExit((messages + [m])[k]);
  }

  lemma ReadAccounted(s: State)
    requires Accounted(s) && StepRead(s).Some?
    ensures Accounted(StepRead(s).value)
  {
    hide Determinism.HasExit, Merging.Merges;
    var s' := StepRead(s).value;
    if s'.main.Scheduling? {
      assert Scheduled(s') == s.received;
    }
  }

  lemma AccountedFrame(s: State, s': State)
    requires Accounted(s) && !s.main.Scheduling? && !s'.main.Scheduling?
    requires s'.received == s.received && s'.accepted == s.accepted && s'.dropped == s.dropped
    ensures Accounted(s')
  {
  }

  lemma AccountedSame(s: State, s': State)
    requires Accounted(s) && s'.main == s.main
    requires s'.received == s.received && s'.accepted == s.accepted && s'.dropped == s.dropped
    ensures Accounted(s')
  {
  }

  lemma StepKeepsHistory(dump: Dump, s: State, t: nat)
    requires Disciplined(s) && t < |s.threads| && StepThread(dump, s, t).Some?
    ensures var s' := StepThread(dump, s, t).value;
            && s'.received == s.received && s'.accepted == s.accepted && s'.dropped == s.dropped
            && (s'.main == s.main || (!s.main.Scheduling? && !s'.main.Scheduling?))
  {
    hide Advance;
  }

  lemma AccountedNext(dump: Dump, s: State, a: Action)
    requires Disciplined(s) && Determinism.ExitCaused(s) && Accounted(s) && Next(dump, s, a).Some?
    ensures Accounted(Next(dump, s, a).value)
  {
    hide StepThread, StepSchedule, StepRead, Accounted, Determinism.ExitCaused;
    match a
    case Schedule => ScheduleAccounted(s);
    case Read => ReadAccounted(s);
    case Step(t) =>
      StepKeepsHistory(dump, s, t);
      hide Disciplined;
      var s' := StepThread(dump, s, t).value;
      if s'.main == s.main {
        AccountedSame(s, s');
      } else {
        AccountedFrame(s, s');
      }
    case Pop(t) => AccountedSame(s, StepPop(s, t).value);
    case Log => AccountedSame(s, StepLog(s).value);
    case _ => AccountedFrame(s, Next(dump, s, a).value);
  }

  lemma {:induction false} RunAccounted(dump: Dump, s: State, actions: seq<Action>)
    requires Conserved(s) && Determinism.ExitCaused(s) && Accounted(s) && Run(dump, s, actions).Some?
    ensures Accounted(Run(dump, s, actions).value)
    decreases |actions|
  {
    hide Determinism.ExitCaused, Accounted, Next, Placed, Ordered, Disciplined;
    if actions != [] {
      ConservedNext(dump, s, actions[0]);
      Determinism.ExitCausedNext(dump, s, actions[0]);
      AccountedNext(dump, s, actions[0]);
      RunAccounted(dump, Next(dump, s, actions[0]).value, actions[1..]);
    }
  }

  lemma InitiallyAccounted(input: seq<Option<Message>>, logs: seq<LogRecord>, workers: nat)
    ensures Accounted(Initial(input, logs, workers))
  {
  }

  /** In every reachable state the messages received are those accepted and those ignored, merged in the order in which
      they arrived, and the one still to be scheduled if there is one; none is ignored before an exit is accepted. */
  lemma ReceivedAccounted(dump: Dump, s: State)
    requires Reachable(dump, s)
    ensures s.received == Scheduled(s) + Determinism.Unscheduled(s.main)
    ensures Merging.Merges(Scheduled(s), s.accepted, s.dropped)
    ensures !Determinism.HasExit(s.accepted) ==> s.dropped == []
  {
    hide *;
    var input, logs, workers, actions := ReachableRun(dump, s);
    InitiallyConserved(input, logs, workers);
    Determinism.InitiallySettled(input, logs, workers);
    InitiallyAccounted(input, logs, workers);
    RunAccounted(dump, Initial(input, logs, workers), actions);
    AccountedReceived(s);
  }

  lemma AccountedReceived(s: State)
    requires Accounted(s)
    ensures s.received == Scheduled(s) + Determinism.Unscheduled(s.main)
    ensures Merging.Merges(Scheduled(s), s.accepted, s.dropped)
    ensures !Determinism.HasExit(s.accepted) ==> s.dropped == []
  {
  }

  /** Each message scheduled was either accepted or ignored, and both kinds kept the order in which they were read. */
  lemma AcceptedOrIgnored(dump: Dump, s: State) returns (accepted: seq<nat>, ignored: seq<nat>)
    requires Reachable(dump, s)
    ensures Merging.Embeds(accepted, s.accepted, s.received) && Merging.Embeds(ignored, s.dropped, s.received)
    ensures forall n: nat :: n < |s.received| ==>
                               (n in accepted) != (n in ignored || (s.main.Scheduling? && n + 1 == |s.received|))
  {
    hide Reachable, Merging.Merges;
    ReceivedAccounted(dump, s);
    accepted, ignored := Merging.Embedding(Scheduled(s), s.accepted, s.dropped);
    if s.main.Scheduling? {
      Merging.EmbedsLonger(accepted, s.accepted, Scheduled(s), s.main.message);
      Merging.EmbedsLonger(ignored, s.dropped, Scheduled(s), s.main.message);
    }
    assert forall n: nat :: n in accepted || n in ignored ==> n < |Scheduled(s)|;
  }

  // ---- The requests ----

  datatype Standing = Answered | InQueue | Waits | Executes

  /** How an accepted message stands: answered as far as it has an answer, or where it is until then. */
  function StandingOf(s: State, i: nat): Standing
    requires i < |s.place|
  {
    if Responses.Resolved(s, i) then Answered
    else
      match s.place[i]
      case Queued => InQueue
      case Waiting => Waits
      case _ => Executes
  }

  /** How many of the first n accepted messages are requests with this standing. */
  function RequestsAt(s: State, standing: Standing, n: nat): nat
    requires n <= |s.place| == |s.accepted|
  {
    if n == 0 then 0
    else
      RequestsAt(s, standing, n - 1) + if s.accepted[n - 1].Request? && StandingOf(s, n - 1) == standing then 1 else 0
  }

  function Requests(messages: seq<Message>): nat {
    Merging.Count((m: Message) => m.Request?, messages)
  }

  lemma {:induction false} StandingsAddUp(s: State, n: nat)
    requires n <= |s.place| == |s.accepted|
    ensures Requests(s.accepted[..n])
         == RequestsAt(s, Answered, n) + RequestsAt(s, InQueue, n) + RequestsAt(s, Waits, n)
            + RequestsAt(s, Executes, n)
  {
    if n > 0 {
      StandingsAddUp(s, n - 1);
      assert s.accepted[..n] == s.accepted[..n - 1] + [s.accepted[n - 1]];
      Merging.CountAppend((m: Message) => m.Request?, s.accepted[..n - 1], s.accepted[n - 1]);
    }
  }

  /** The sum of the responses to the first n messages. */
  function ResponsesBelow(sent: seq<(nat, Response)>, n: nat): nat {
    if n == 0 then 0 else ResponsesBelow(sent, n - 1) + Responses.ResponsesTo(sent, n - 1)
  }

  lemma {:induction false} ResponsesBelowAll(sent: seq<(nat, Response)>, n: nat)
    requires forall k :: 0 <= k < |sent| ==> sent[k].0 < n
    ensures ResponsesBelow(sent, n) == |sent|
  {
    if sent == [] {
      NoResponsesBelow(n);
    } else {
      ResponsesBelowAll(sent[1..], n);
      FirstBelow(sent, n);
    }
  }

  lemma {:induction false} NoResponsesBelow(n: nat)
    ensures ResponsesBelow([], n) == 0
  {
    if n > 0 {
      NoResponsesBelow(n - 1);
    }
  }

  lemma {:induction false} FirstBelow(sent: seq<(nat, Response)>, n: nat)
    requires sent != []
    ensures ResponsesBelow(sent, n) == ResponsesBelow(sent[1..], n) + if sent[0].0 < n then 1 else 0
  {
    if n > 0 {
      FirstBelow(sent, n - 1);
    }
  }

  lemma {:induction false} AnsweredBelow(dump: Dump, s: State, n: nat)
    requires Reachable(dump, s) && n <= |s.accepted| == |s.place|
    ensures RequestsAt(s, Answered, n) == ResponsesBelow(s.sent, n)
  {
    hide Reachable;
    if n > 0 {
      AnsweredBelow(dump, s, n - 1);
      Responses.OneResponseEach(dump, s, n - 1);
    }
  }

  lemma AllSentBelow(dump: Dump, s: State)
    requires Reachable(dump, s)
    ensures |s.place| == |s.accepted| && RequestsAt(s, Answered, |s.accepted|) == |s.sent|
  {
    ReachableConserved(dump, s);
    hide Reachable;
    AnsweredBelow(dump, s, |s.accepted|);
    forall k | 0 <= k < |s.sent| ensures s.sent[k].0 < |s.accepted| {
      Responses.ResponsesAreValid(dump, s, k);
    }
    ResponsesBelowAll(s.sent, |s.accepted|);
  }

  /** In every reachable state the requests received are the responses sent, and the requests queued, waiting for the
      queue to drain, being executed, ignored because of the exit flag, and still to be scheduled. */
  lemma RequestsAccounted(dump: Dump, s: State)
    requires Reachable(dump, s)
    ensures |s.place| == |s.accepted|
    ensures Requests(s.received)
         == |s.sent| + RequestsAt(s, InQueue, |s.accepted|) + RequestsAt(s, Waits, |s.accepted|)
            + RequestsAt(s, Executes, |s.accepted|) + Requests(s.dropped) + Requests(Determinism.Unscheduled(s.main))
  {
    hide Reachable, Merging.Merges;
    ReceivedAccounted(dump, s);
    AllSentBelow(dump, s);
    var p := (m: Message) => m.Request?;
    Merging.MergedCount(p, Scheduled(s), s.accepted, s.dropped);
    StandingsAddUp(s, |s.accepted|);
    assert s.accepted[..|s.accepted|] == s.accepted;
    if s.main.Scheduling? {
      Merging.CountAppend(p, Scheduled(s), s.main.message);
      Merging.CountAppend(p, [], s.main.message);
      assert [] + [s.main.message] == [s.main.message];
    }
  }
}
