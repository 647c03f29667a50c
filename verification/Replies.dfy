/**
 What a response says: the life-cycle gate over whole runs. The reply to a message that the reader thread executes is
 that of a sequential execution; the reply to a concurrent one can only differ by finding the server initialised earlier
 than its place in the arrival order would have it.
 */
module Replies {
  import opened Wrappers
  import opened FileBrowser
  import opened Protocol
  import opened Context
  import opened Scheduler
  import opened Conservation
  import opened Determinism
  import DidChange
  import Framing
  import JsonValues
  import Responses

  /** The reply to a request, from the state of the life cycle alone. */
  function Reply(initialized: bool, m: Message): Response
    requires m.Request?
  {
    if !initialized && m.method_ != "initialize" then Response(m.id, Some(ServerNotInitialized), JsonValues.Null)
    else if m.method_ !in REQUESTS then Response(m.id, Some(MethodNotFound), JsonValues.Null)
    else if m.method_ != "initialize" then Response(m.id, None, JsonValues.Null)
    else if m.params.Malformed? then Response(m.id, Some(InvalidRequest), JsonValues.Null)
    else Response(m.id, None, INITIALIZE_RESULT)
  }

  lemma ExecutesReply(shared: Shared, m: Message)
    ensures Execute(shared, m).1 == if m.Request? then Some(Reply(shared.docs.initialized, m)) else None
  {
    hide INITIALIZE_RESULT;
  }

  // ---- The life cycle of a sequential execution ----

  predicate Initializes(m: Message) {
    m.Request? && m.method_ == "initialize" && !m.params.Malformed?
  }

  /** The server is initialised exactly when a well-formed request to initialise has been executed; until then it opens
      no file. */
  lemma {:induction false} Lifecycle(messages: seq<Message>)
    ensures Sequential(messages).initialized <==> exists k :: 0 <= k < |messages| && Initializes(messages[k])
    ensures !Sequential(messages).initialized ==> Sequential(messages).files == map[]
  {
    if messages != [] {
      var n := |messages| - 1;
      Lifecycle(messages[..n]);
      ExecuteLifecycle(Sequential(messages[..n]), messages[n]);
      assert forall k :: 0 <= k < n ==> messages[..n][k] == messages[k];
    }
  }

  lemma ExecuteLifecycle(docs: Docs, m: Message)
    ensures ExecuteDocs(docs, m).initialized <==> docs.initialized || Initializes(m)
    ensures !docs.initialized ==> ExecuteDocs(docs, m).files == docs.files
  {
  }

  lemma {:induction false} StaysInitialized(messages: seq<Message>, i: nat, j: nat)
    requires i <= j <= |messages|
    ensures Sequential(messages[..i]).initialized ==> Sequential(messages[..j]).initialized
  {
    Lifecycle(messages[..i]);
    Lifecycle(messages[..j]);
    if Sequential(messages[..i]).initialized {
      var k :| 0 <= k < i && Initializes(messages[..i][k]);
      assert Initializes(messages[..j][k]);
    }
  }

  // ---- Replies at run time ----

  /** The reply fits the message and its place in the arrival order. */
  predicate Fitting(accepted: seq<Message>, i: nat, r: Response) {
    && i < |accepted| && accepted[i].Request?
    && var m, initialized := accepted[i], Sequential(accepted[..i]).initialized;
       if IsConcurrentRequest(m) then r == Reply(true, m) || (!initialized && r == Reply(false, m))
       else r == Reply(initialized, m)
  }

  predicate FittingPc(accepted: seq<Message>, pc: Pc) {
    match pc
    case Handled(i, response) => response.Some? ==> Fitting(accepted, i, response.value)
    case Sending(i, reply, _) => Fitting(accepted, i, reply)
    case Writing(i, reply, _, _) => Fitting(accepted, i, reply)
    case _ => true
  }

  /** Until the reader thread starts on its message, the documents are those of the messages before it. */
  ghost predicate Timely(s: State) {
    && s.threads != []
    && (s.main.Draining? && s.main.i < |s.accepted| ==> s.shared.docs == Sequential(s.accepted[..s.main.i]))
    && (s.threads[0].Begin? && s.threads[0].i < |s.accepted| ==>
          s.shared.docs == Sequential(s.accepted[..s.threads[0].i]))
  }

  ghost predicate Replied(s: State) {
    && Timely(s)
    && (forall t :: 0 <= t < |s.threads| ==> FittingPc(s.accepted, s.threads[t]))
    && (forall k :: 0 <= k < |s.sent| ==> Fitting(s.accepted, s.sent[k].0, s.sent[k].1))
  }

  lemma InitializedSoFar(s: State, i: nat)
    requires Conserved(s) && Settled(s) && Timely(s) && i < |s.accepted|
    ensures Sequential(s.accepted[..i]).initialized ==> s.shared.docs.initialized
  {
    hide Sequential, ExecuteDocs, DidChange.ApplyAll, Placed, Ordered;
    var n := |s.accepted|;
    StaysInitialized(s.accepted, i, n - 1);
    StaysInitialized(s.accepted, i, n);
    assert s.accepted[..n] == s.accepted;
  }

  lemma AdvanceFitting(dump: Dump, s: State, t: nat)
    requires Conserved(s) && Settled(s) && Replied(s) && t < |s.threads|
    requires Advance(dump, s, t, s.threads[t]).Some?
    ensures var e := Advance(dump, s, t, s.threads[t]).value;
            && FittingPc(s.accepted, e.pc)
            && forall k :: 0 <= k < |e.sent| ==> Fitting(s.accepted, e.sent[k].0, e.sent[k].1)
  {
    hide Placed, Ordered, Settled, Sequential, DidChange.ApplyOne, Finalized, Framing.Piece, Execute, Reply;
    if s.threads[t].Begin? {
      BeginFitting(s, t);
    }
  }

  lemma BeginFitting(s: State, t: nat)
    requires Conserved(s) && Settled(s) && Timely(s) && t < |s.threads| && s.threads[t].Begin?
    ensures var i := s.threads[t].i;
            i < |s.accepted| && FittingPc(s.accepted, Begun(s.shared, i, s.accepted[i]).0)
  {
    hide Placed, Ordered, Settled, Sequential, Execute, Reply;
    var i := s.threads[t].i;
    ExecutesReply(s.shared, s.accepted[i]);
    InitializedSoFar(s, i);
  }

  lemma StepTimely(dump: Dump, s: State, t: nat)
    requires Conserved(s) && Settled(s) && Timely(s) && t < |s.threads| && StepThread(dump, s, t).Some?
    ensures Timely(StepThread(dump, s, t).value)
  {
    hide Advance, Placed, Ordered, Sequential, ExecuteDocs;
    if !s.threads[t].StoreFlag? {
      AdvanceIndex(dump, s, t, s.threads[t]);
      AdvanceBegins(dump, s, t, s.threads[t]);
      if t > 0 {
        WorkerKeepsDocs(dump, s, t, s.threads[t]);
      }
    }
  }

  lemma AdvanceBegins(dump: Dump, s: State, t: nat, pc: Pc)
    requires Advance(dump, s, t, pc).Some?
    ensures !Advance(dump, s, t, pc).value.pc.Begin?
  {
    hide Execute, DidChange.ApplyOne, Finalized, Framing.Piece;
  }

  lemma StepReplied(dump: Dump, s: State, t: nat)
    requires Conserved(s) && Settled(s) && Replied(s) && t < |s.threads| && StepThread(dump, s, t).Some?
    ensures Replied(StepThread(dump, s, t).value)
  {
    StepTimely(dump, s, t);
    if !s.threads[t].StoreFlag? {
      AdvanceFitting(dump, s, t);
    } else {
      assert FittingPc(s.accepted, Idle) && FittingPc(s.accepted, Stopped);
    }
    hide Advance, Timely, FittingPc, Fitting, Conserved, Settled;
    StepKeepsReplies(dump, s, t);
    MoveReplied(s, t, StepThread(dump, s, t).value);
  }

  lemma StepKeepsReplies(dump: Dump, s: State, t: nat)
    requires t < |s.threads| && StepThread(dump, s, t).Some?
    ensures var s' := StepThread(dump, s, t).value;
            && s'.accepted == s.accepted && |s'.threads| == |s.threads| && s'.threads == s.threads[t := s'.threads[t]]
            && if s.threads[t].StoreFlag? then (s'.threads[t].Idle? || s'.threads[t].Stopped?) && s'.sent == s.sent
               else s'.threads[t] == Advance(dump, s, t, s.threads[t]).value.pc
                    && s'.sent == Advance(dump, s, t, s.threads[t]).value.sent
  {
    hide Advance;
  }

  lemma MoveReplied(s: State, t: nat, s': State)
    requires Replied(s) && Timely(s') && t < |s.threads| && s'.accepted == s.accepted
    requires |s'.threads| == |s.threads| && s'.threads == s.threads[t := s'.threads[t]]
    requires FittingPc(s.accepted, s'.threads[t])
    requires forall k :: 0 <= k < |s'.sent| ==> Fitting(s.accepted, s'.sent[k].0, s'.sent[k].1)
    ensures Replied(s')
  {
    hide Fitting, FittingPc, Timely;
  }

  lemma FittingAppend(accepted: seq<Message>, m: Message, i: nat, r: Response)
    requires Fitting(accepted, i, r)
    ensures Fitting(accepted + [m], i, r)
  {
    assert (accepted + [m])[..i] == accepted[..i];
  }

  lemma FittingPcAppend(accepted: seq<Message>, m: Message, pc: Pc)
    requires FittingPc(accepted, pc)
    ensures FittingPc(accepted + [m], pc)
  {
    hide Fitting;
    match pc
    case Handled(i, response) => if response.Some? { FittingAppend(accepted, m, i, response.value); }
    case Sending(i, reply, _) => FittingAppend(accepted, m, i, reply);
    case Writing(i, reply, _, _) => FittingAppend(accepted, m, i, reply);
    case _ =>
  }

  lemma ScheduleReplied(s: State)
    requires Conserved(s) && Settled(s) && Replied(s) && StepSchedule(s).Some?
    ensures Replied(StepSchedule(s).value)
  {
    hide Fitting, FittingPc, Sequential, Placed, Ordered;
    var s' := StepSchedule(s).value;
    if !s.flag {
      var m := s.main.message;
      forall t | 0 <= t < |s.threads| ensures FittingPc(s'.accepted, s'.threads[t]) {
        FittingPcAppend(s.accepted, m, s.threads[t]);
      }
      forall k | 0 <= k < |s.sent| ensures Fitting(s'.accepted, s'.sent[k].0, s'.sent[k].1) {
        FittingAppend(s.accepted, m, s.sent[k].0, s.sent[k].1);
      }
      assert s'.accepted[..|s.accepted|] == s.accepted;
    }
  }

  lemma DrainReplied(s: State)
    requires Conserved(s) && Replied(s) && StepDrain(s).Some?
    ensures Replied(StepDrain(s).value)
  {
    hide Fitting, Sequential, Placed, Ordered;
  }

  lemma RepliedFrame(s: State, s': State)
    requires Replied(s) && |s'.threads| == |s.threads| && s'.threads[0] == s.threads[0]
    requires s'.accepted == s.accepted && s'.shared == s.shared && s'.sent == s.sent
    requires s'.main == s.main || !s'.main.Draining?
    requires forall t :: 0 < t < |s.threads| ==>
                           s'.threads[t] == s.threads[t] || s'.threads[t].Begin? || Index(s'.threads[t]).None?
    ensures Replied(s')
  {
    hide Fitting, Sequential;
  }

  lemma RepliedNext(dump: Dump, s: State, a: Action)
    requires Conserved(s) && Settled(s) && Replied(s) && Next(dump, s, a).Some?
    ensures Replied(Next(dump, s, a).value)
  {
    hide StepThread, StepSchedule, StepDrain, StepPop, StepRequestStop, Replied, Settled, Placed, Ordered, Disciplined;
    match a
    case Step(t) => StepReplied(dump, s, t);
    case Schedule => ScheduleReplied(s);
    case Drain => DrainReplied(s);
    case Pop(t) => PopReplied(s, t);
    case RequestStop(passed) => RequestStopReplied(s, passed);
    case _ =>
      BetweenFields(dump, s, a);
      RepliedThreads(s);
      hide Next;
      RepliedFrame(s, Next(dump, s, a).value);
  }

  lemma RepliedThreads(s: State)
    requires Replied(s)
    ensures s.threads != []
  {
  }

  lemma PopReplied(s: State, t: nat)
    requires Replied(s) && StepPop(s, t).Some?
    ensures Replied(StepPop(s, t).value)
  {
    RepliedThreads(s);
    hide Replied;
    RepliedFrame(s, StepPop(s, t).value);
  }

  lemma RequestStopReplied(s: State, passed: set<nat>)
    requires Replied(s) && StepRequestStop(s, passed).Some?
    ensures Replied(StepRequestStop(s, passed).value)
  {
    RepliedThreads(s);
    hide Replied;
    RepliedFrame(s, StepRequestStop(s, passed).value);
  }

  // ---- Over whole runs ----

  lemma {:induction false} RunReplied(dump: Dump, s: State, actions: seq<Action>)
    requires Conserved(s) && Settled(s) && Replied(s) && Run(dump, s, actions).Some?
    ensures Replied(Run(dump, s, actions).value)
    decreases |actions|
  {
    hide Conserved, Settled, Replied, Next;
    if actions != [] {
      ConservedNext(dump, s, actions[0]);
      SettledNext(dump, s, actions[0]);
      RepliedNext(dump, s, actions[0]);
      RunReplied(dump, Next(dump, s, actions[0]).value, actions[1..]);
    }
  }

  lemma InitiallyReplied(input: seq<Option<Message>>, logs: seq<LogRecord>, workers: nat)
    ensures Replied(Initial(input, logs, workers))
  {
  }

  lemma ReachableReplied(dump: Dump, s: State)
    requires Reachable(dump, s)
    ensures Replied(s)
  {
    hide *;
    var input, logs, workers, actions := ReachableRun(dump, s);
    InitiallyConserved(input, logs, workers);
    InitiallySettled(input, logs, workers);
    InitiallyReplied(input, logs, workers);
    RunReplied(dump, Initial(input, logs, workers), actions);
  }

  /** Every response sent says what the life cycle demands of its message: exactly that for messages executed by the
      reader thread; a concurrent request is refused as too early only if no request to initialise came before it. */
  lemma ResponsesSay(dump: Dump, s: State, k: nat)
    requires Reachable(dump, s) && k < |s.sent|
    ensures var (i, r) := s.sent[k];
            && i < |s.accepted| && s.accepted[i].Request?
            && var m, initialized := s.accepted[i], exists j :: 0 <= j < i && Initializes(s.accepted[j]);
               if IsConcurrentRequest(m) then r == Reply(true, m) || (!initialized && r == Reply(false, m))
               else r == Reply(initialized, m)
  {
    ReachableReplied(dump, s);
    var i := s.sent[k].0;
    Lifecycle(s.accepted[..i]);
    assert forall j :: 0 <= j < i ==> s.accepted[..i][j] == s.accepted[j];
  }

  // ---- Responses that conform to JSON-RPC ----

  /** The request names a method the server has, in time, and with parameters it understands. */
  predicate Served(initialized: bool, m: Message) {
    && m.method_ in {"initialize", "shutdown", "textDocument/completion"}
    && (initialized || m.method_ == "initialize")
    && (m.method_ == "initialize" ==> !m.params.Malformed?)
  }

  /** Error responses lack the message that section 5.1 of JSON-RPC 2.0 demands: a reply conforms exactly when it is a
      result, that is, exactly when the request is served. */
  lemma ReplyConformsIff(initialized: bool, m: Message)
    requires m.Request?
    ensures Conforms(Finalized(Reply(initialized, m)), m.id) <==> Served(initialized, m)
  {
    ConformsIff(Reply(initialized, m));
    hide Finalized, Conforms, INITIALIZE_RESULT;
  }

  /** A request that comes before the one to initialise, and the error object it gets. */
  lemma EarlyRequestErrs(m: Message)
    requires m.Request? && m.method_ != "initialize"
    ensures Finalized(Reply(false, m)).fields["error"] == JsonValues.Obj(map["code" := JsonValues.Int(-32002)])
    ensures !Conforms(Finalized(Reply(false, m)), m.id)
  {
    ReplyConformsIff(false, m);
  }

  /** In every reachable state, a response that has been sent conforms exactly when it reports success. A request that
      is served at its place in the arrival order gets a response that conforms; one executed by the reader thread gets
      one only then, and a concurrent one only if it would be served by an initialised server. */
  lemma ResponsesConformIff(dump: Dump, s: State, k: nat)
    requires Reachable(dump, s) && k < |s.sent|
    ensures var (i, r) := s.sent[k];
            && i < |s.accepted| && r.Valid()
            && var m, initialized := s.accepted[i], exists j :: 0 <= j < i && Initializes(s.accepted[j]);
               && m.Request?
               && (Conforms(Finalized(r), m.id) <==> r.status.None?)
               && (Served(initialized, m) ==> Conforms(Finalized(r), m.id))
               && (Conforms(Finalized(r), m.id) ==> Served(initialized || IsConcurrentRequest(m), m))
  {
    hide Reachable, Finalized, Conforms, Reply, Served;
    ResponsesSay(dump, s, k);
    var m := s.accepted[s.sent[k].0];
    ReplyStatus(true, m);
    ReplyStatus(false, m);
    ReplyConformsIff(true, m);
    ReplyConformsIff(false, m);
  }

  lemma ReplyStatus(initialized: bool, m: Message)
    requires m.Request?
    ensures Reply(initialized, m).Valid() && (Reply(initialized, m).status.None? <==> Served(initialized, m))
    ensures Served(false, m) ==> Served(true, m)
  {
    hide INITIALIZE_RESULT;
    assert INITIALIZE_RESULT.Obj? by {
      ResultIsObject();
    }
  }

  lemma ResultIsObject()
    ensures INITIALIZE_RESULT.Obj?
  {
  }

  // ---- What is in the frames sent ----

  /** A result that tells the client how the server counts columns, and which notifications it wants: UTF-16 code units,
      opens and closes, incremental changes, and the text of a document with its save. */
  predicate DeclaresSync(result: JsonValues.Json) {
    && JsonValues.HasObj(result, "capabilities")
    && var capabilities := result.fields["capabilities"];
       && JsonValues.HasStr(capabilities, "positionEncoding")
       && capabilities.fields["positionEncoding"].s == "utf-16"
       && JsonValues.HasObj(capabilities, "textDocumentSync")
       && var sync := capabilities.fields["textDocumentSync"].fields;
          && sync.Keys == {"openClose", "change", "save"}
          && sync["openClose"] == JsonValues.Bool(true) && sync["change"] == JsonValues.Int(2)
          && sync["save"] == JsonValues.Obj(map["includeText" := JsonValues.Bool(true)])
  }

  /** What a reply says, by the request alone. */
  predicate Says(initialized: bool, m: Message, json: JsonValues.Json) {
    && json.Obj?
    && if Served(initialized, m) then
         && "result" in json.fields && "error" !in json.fields
         && (m.method_ == "initialize" ==> DeclaresSync(json.fields["result"]))
         && (m.method_ == "shutdown" || m.method_ == "textDocument/completion" ==>
               json.fields["result"] == JsonValues.Null)
       else
         && "error" in json.fields && "result" !in json.fields
         && var code := if m.method_ == "initialize" then -32600 else if initialized then -32601 else -32002;
            json.fields["error"] == JsonValues.Obj(map["code" := JsonValues.Int(code)])
  }

  lemma ReplySays(initialized: bool, m: Message)
    requires m.Request?
    ensures Says(initialized, m, Finalized(Reply(initialized, m)))
  {
    var r := Reply(initialized, m);
    ReplyStatus(initialized, m);
    FinalizedCarries(r);
    hide Finalized;
    if r.status.Some? {
      ErrorHasOnlyCode(r);
    }
  }

  lemma ErrorHasOnlyCode(r: Response)
    requires r.status.Some? && r.json.Null?
    ensures Finalized(r).fields["error"] == JsonValues.Obj(map["code" := JsonValues.Int(Code(r.status.value))])
  {
  }

  /** In every reachable state, each frame that carries a response says what the request asks for at its place in the
      arrival order: the capabilities of the server for a request to initialise, null for a shutdown or a completion,
      and otherwise the code of what is wrong. Only what a worker executes may find the server initialised earlier. */
  lemma FramesSay(dump: Dump, s: State, k: nat)
    requires Reachable(dump, s) && k < |s.sent|
    ensures var (i, r) := s.sent[k];
            && i < |s.accepted| && s.accepted[i].Request? && r.Valid()
            && Responses.Bodies(dump, s.sent)[k] == dump(Finalized(r))
            && var m, initialized := s.accepted[i], exists j :: 0 <= j < i && Initializes(s.accepted[j]);
               Says(initialized, m, Finalized(r))
               || (m.method_ in {"textDocument/completion", "$/setTrace"} && Says(true, m, Finalized(r)))
  {
    hide Reachable, Finalized, Reply, Says;
    ResponsesSay(dump, s, k);
    var m := s.accepted[s.sent[k].0];
    ReplySays(true, m);
    ReplySays(false, m);
    ReplyStatus(true, m);
    ReplyStatus(false, m);
  }

  // ---- Files before the request to initialise ----

  lemma {:induction false} ApplyAllKeys(files: Files, uri: Uri, version: int, changes: seq<DidChange.ContentChange>)
    ensures DidChange.ApplyAll(files, uri, version, changes).files.Keys == files.Keys
    decreases |changes|
  {
    hide ApplyChanges;
    if changes != [] {
      ApplyAllKeys(DidChange.ApplyOne(files, uri, version, changes[0]).files, uri, version, changes[1..]);
    }
  }

  /** The documents of any state are those of the messages accepted, or of those before the one that is waiting or being
      started, or on the way to them. */
  lemma DocsBetween(s: State) returns (n: nat)
    requires Conserved(s) && Settled(s) && Timely(s)
    ensures n <= |s.accepted| && s.shared.docs.initialized == Sequential(s.accepted[..n]).initialized
    ensures s.shared.docs.files.Keys == Sequential(s.accepted[..n]).files.Keys
    ensures !s.main.Draining? && !s.main.Executing? ==> n == |s.accepted|
  {
    hide Placed, Ordered, Sequential, ExecuteDocs, DidChange.ApplyAll;
    assert s.accepted[..|s.accepted|] == s.accepted;
    n := if s.main.Draining? || s.threads[0].Begin? then |s.accepted| - 1 else |s.accepted|;
    if s.threads[0].Applying? {
      var Applying(_, uri, version, changes) := s.threads[0];
      ApplyAllKeys(s.shared.docs.files, uri, version, changes);
    }
  }

  /** In every reachable state the server is initialised only if a request to initialise has been accepted, and exactly
      then whenever the reader thread is not executing; and unless it is initialised no file is open. */
  lemma NoFilesBeforeInitialize(dump: Dump, s: State)
    requires Reachable(dump, s)
    ensures s.shared.docs.initialized ==> exists k :: 0 <= k < |s.accepted| && Initializes(s.accepted[k])
    ensures !s.main.Draining? && !s.main.Executing? ==>
              (s.shared.docs.initialized <==> exists k :: 0 <= k < |s.accepted| && Initializes(s.accepted[k]))
    ensures !s.shared.docs.initialized ==> s.shared.docs.files == map[]
  {
    ReachableConserved(dump, s);
    ReachableSettled(dump, s);
    ReachableReplied(dump, s);
    hide Reachable, Conserved, Settled, Timely, Sequential;
    var n := DocsBetween(s);
    Lifecycle(s.accepted[..n]);
    assert forall k :: 0 <= k < n ==> s.accepted[..n][k] == s.accepted[k];
  }
}
