/**
 From the bytes a client writes to the documents the server holds: the reads of the server's loop on a byte stream, and
 the agreement of client and server through framing, scheduling and the document store together.
 */
module Session {
  import opened Wrappers
  import opened FileBrowser
  import opened Protocol
  import opened Context
  import opened Scheduler
  import opened Conservation
  import opened Determinism
  import opened Agreement
  import Framing
  import JsonValues
  import Rpc
  import Unicode

  // ---- The reads of the server's loop ----

  /** How the JSON library parses a body; None if it is not JSON. */
  type Parser = string -> Option<JsonValues.Json>

  datatype ReadOutcome = Received(message: Message) | NoMessage | Thrown

  function ReadRequest(parse: Parser, s: Framing.Stream): (Framing.Stream, ReadOutcome) {
    if !s.Good() then (s, NoMessage)
    else
      var (s', outcome) := Framing.ReadMessage(s);
      match outcome
      case Failed => (s', NoMessage)
      case LengthError => (s', Thrown)
      case Parsed(_, content) =>
        (s', match parse(content)
             case None => NoMessage
             case Some(json) => if Rpc.MessageOf(json).Some? then Received(Rpc.MessageOf(json).value) else NoMessage)
  }

  lemma {:induction false} HeadersConsume(s: Framing.Stream, headers: Framing.Headers)
    requires s.Good()
    ensures Framing.ReadHeaders(s, headers).0.Good() ==> |Framing.ReadHeaders(s, headers).0.rest| < |s.rest|
    decreases |s.rest|
  {
    hide Framing.HttpHeaderStripWhitespace;
    var (s', line) := Framing.ReadHeader(s);
    if line.Header? && s'.Good() {
      HeadersConsume(s', headers[line.key := line.value]);
    }
  }

  /** A read uses up some of the stream or leaves it failed or at its end, so a stream allows finitely many reads. */
  lemma ReadConsumes(parse: Parser, s: Framing.Stream)
    requires s.Good()
    ensures ReadRequest(parse, s).0.Good() ==> |ReadRequest(parse, s).0.rest| < |s.rest|
  {
    hide Framing.ReadHeaders;
    HeadersConsume(s, map[]);
  }

  /** What the successive reads of a stream yield, up to the point from which every read fails; None if one throws. */
  function Reads(parse: Parser, s: Framing.Stream): Option<seq<Option<Message>>>
    decreases s.Good(), |s.rest|
  {
    if !s.Good() then Some([])
    else
      ReadConsumes(parse, s);
      var (s', outcome) := ReadRequest(parse, s);
      var later := Reads(parse, s');
      if outcome.Thrown? || later.None? then None
      else Some([if outcome.Received? then Some(outcome.message) else None] + later.value)
  }

  // ---- A stream of frames ----

  /** The bodies a client writes for its messages. */
  function Written(dump: Dump, messages: seq<Message>): seq<string> {
    seq(|messages|, k requires 0 <= k < |messages| => dump(Rpc.MessageJson(messages[k])))
  }

  function Somes(messages: seq<Message>): seq<Option<Message>> {
    seq(|messages|, k requires 0 <= k < |messages| => Some(messages[k]))
  }

  /** The server's library parses what the client's library prints. */
  ghost predicate Understood(parse: Parser, dump: Dump, messages: seq<Message>) {
    forall m :: m in messages ==>
                  var json := Rpc.MessageJson(m);
                  Rpc.Fits(m) && parse(dump(json)) == Some(json) && |dump(json)| <= Framing.MAX_STREAMSIZE
  }

  lemma ReadAtEnd(parse: Parser)
    ensures Reads(parse, Framing.Stream("", false, false)) == Some([None])
  {
    var s := Framing.Stream("", false, false);
    assert Framing.ReadHeader(s) == (Framing.Stream("", true, true), Framing.BadHeader);
    assert ReadRequest(parse, s) == (Framing.Stream("", true, true), NoMessage);
    var none: seq<Option<Message>> := [None];
    assert Reads(parse, Framing.Stream("", true, true)) == Some([]) && none + [] == none;
  }

  /** The message that a body is, if the library can parse it and it passes the reader's check. */
  function Meant(parse: Parser, body: string): Option<Message> {
    match parse(body)
    case None => None
    case Some(json) => Rpc.MessageOf(json)
  }

  function AllMeant(parse: Parser, bodies: seq<string>): seq<Option<Message>> {
    seq(|bodies|, k requires 0 <= k < |bodies| => Meant(parse, bodies[k]))
  }

  /** The reads of any frames yield what their bodies mean, in order, and then find the end: a body that is no message
      costs one failed read and nothing else. */
  lemma {:induction false} BodiesRead(parse: Parser, bodies: seq<string>)
    requires forall k :: 0 <= k < |bodies| ==> |bodies[k]| <= Framing.MAX_STREAMSIZE
    ensures Reads(parse, Framing.Stream(Framing.Frames(bodies), false, false))
         == Some(AllMeant(parse, bodies) + [None])
  {
    hide Framing.Frame, Framing.ReadMessage, Rpc.MessageOf;
    if bodies == [] {
      ReadAtEnd(parse);
      assert AllMeant(parse, bodies) + [None] == [None];
    } else {
      Framing.FrameRoundTrip(bodies[0], Framing.Frames(bodies[1..]));
      BodiesRead(parse, bodies[1..]);
      assert [Meant(parse, bodies[0])] + (AllMeant(parse, bodies[1..]) + [None]) == AllMeant(parse, bodies) + [None];
    }
  }

  /** The reads of a client's frames yield exactly its messages, in order; the read after them finds the end. */
  lemma FramesRead(parse: Parser, dump: Dump, messages: seq<Message>)
    requires Understood(parse, dump, messages)
    ensures Reads(parse, Framing.Stream(Framing.Frames(Written(dump, messages)), false, false))
         == Some(Somes(messages) + [None])
  {
    hide Framing.Frames, Rpc.MessageJson, Rpc.MessageOf, Rpc.Fits, Reads;
    var bodies := Written(dump, messages);
    forall k | 0 <= k < |messages|
      ensures |bodies[k]| <= Framing.MAX_STREAMSIZE && Meant(parse, bodies[k]) == Some(messages[k])
    {
      assert messages[k] in messages;
      Rpc.MessageRoundTrip(messages[k]);
    }
    BodiesRead(parse, bodies);
    assert AllMeant(parse, bodies) == Somes(messages);
  }

  // ---- What a run has received of its input ----

  function Messages(input: seq<Option<Message>>): seq<Message> {
    if input == [] then [] else (if input[0].Some? then [input[0].value] else []) + Messages(input[1..])
  }

  lemma {:induction false} MessagesOfSomes(messages: seq<Message>)
    ensures Messages(Somes(messages) + [None]) == messages
  {
    if messages == [] {
      assert (Somes(messages) + [None])[1..] == [];
    } else {
      assert (Somes(messages) + [None])[1..] == Somes(messages[1..]) + [None];
      MessagesOfSomes(messages[1..]);
    }
  }

  ghost predicate ReachableFrom(dump: Dump, input: seq<Option<Message>>, s: State) {
    exists logs, workers: nat, actions :: workers >= 1 && Run(dump, Initial(input, logs, workers), actions) == Some(s)
  }

  /** Messages are received in the order of the input, and accepted as received up to the first exit. */
  ghost predicate InOrder(input: seq<Option<Message>>, s: State) {
    && Messages(input) == s.received + Messages(s.input)
    && |s.accepted| + |Unscheduled(s.main)| <= |s.received|
    && forall k :: 0 <= k < |s.accepted| && !HasExit(s.accepted[..k]) ==> s.received[k] == s.accepted[k]
  }

  lemma StepInOrder(dump: Dump, input: seq<Option<Message>>, s: State, t: nat)
    requires Disciplined(s) && InOrder(input, s) && t < |s.threads| && StepThread(dump, s, t).Some?
    ensures InOrder(input, StepThread(dump, s, t).value)
  {
    hide Advance, Messages, HasExit;
  }

  lemma ScheduleInOrder(input: seq<Option<Message>>, s: State)
    requires ExitCaused(s) && InOrder(input, s) && StepSchedule(s).Some?
    ensures InOrder(input, StepSchedule(s).value)
  {
    hide Messages, HasExit;
    var s' := StepSchedule(s).value;
    forall k | 0 <= k < |s'.accepted| && !HasExit(s'.accepted[..k]) ensures s'.received[k] == s'.accepted[k] {
      if k < |s.accepted| {
        assert s'.accepted[..k] == s.accepted[..k];
      } else {
        assert s'.accepted[..k] == s.accepted;
      }
    }
  }

  lemma ReadKeepsMessages(s: State)
    requires StepRead(s).Some?
    ensures var s' := StepRead(s).value;
            s'.received + Messages(s'.input) == s.received + Messages(s.input)
  {
    if s.input != [] && s.input[0].Some? {
      var m := s.input[0].value;
      assert s.received + ([m] + Messages(s.input[1..])) == s.received + [m] + Messages(s.input[1..]);
    }
  }

  lemma ReadInOrder(input: seq<Option<Message>>, s: State)
    requires InOrder(input, s) && StepRead(s).Some?
    ensures InOrder(input, StepRead(s).value)
  {
    hide HasExit, Messages;
    ReadKeepsMessages(s);
  }

  lemma InOrderNext(dump: Dump, input: seq<Option<Message>>, s: State, a: Action)
    requires Disciplined(s) && ExitCaused(s) && InOrder(input, s) && Next(dump, s, a).Some?
    ensures InOrder(input, Next(dump, s, a).value)
  {
    hide StepThread, StepSchedule, StepRead, StepRequestStop, HasExit, ExitCaused, Messages;
    match a
    case Step(t) => StepInOrder(dump, input, s, t);
    case Schedule => ScheduleInOrder(input, s);
    case Read => ReadInOrder(input, s);
    case RequestStop(passed) => RequestStopInOrder(input, s, passed);
    case _ =>
  }

  lemma RequestStopInOrder(input: seq<Option<Message>>, s: State, passed: set<nat>)
    requires InOrder(input, s) && StepRequestStop(s, passed).Some?
    ensures InOrder(input, StepRequestStop(s, passed).value)
  {
    hide Messages, HasExit;
  }

  lemma {:induction false} RunInOrder(dump: Dump, input: seq<Option<Message>>, s: State, actions: seq<Action>)
    requires Conserved(s) && ExitCaused(s) && InOrder(input, s) && Run(dump, s, actions).Some?
    ensures InOrder(input, Run(dump, s, actions).value)
    decreases |actions|
  {
    hide ExitCaused, InOrder, Next, Placed, Ordered, Disciplined;
    if actions != [] {
      ConservedNext(dump, s, actions[0]);
      ExitCausedNext(dump, s, actions[0]);
      InOrderNext(dump, input, s, actions[0]);
      RunInOrder(dump, input, Next(dump, s, actions[0]).value, actions[1..]);
    }
  }

  lemma ReachableInOrder(dump: Dump, input: seq<Option<Message>>, s: State)
    requires ReachableFrom(dump, input, s)
    ensures Reachable(dump, s) && InOrder(input, s)
  {
    hide *;
    var logs, workers, actions := RunFrom(dump, input, s);
    InitiallyConserved(input, logs, workers);
    InitiallySettled(input, logs, workers);
    InitiallyInOrder(input, logs, workers);
    RunInOrder(dump, input, Initial(input, logs, workers), actions);
  }

  /** The run by which a state is reached from an input. */
  lemma RunFrom(dump: Dump, input: seq<Option<Message>>, s: State)
    returns (logs: seq<LogRecord>, workers: nat, actions: seq<Action>)
    requires ReachableFrom(dump, input, s)
    ensures workers >= 1 && Run(dump, Initial(input, logs, workers), actions) == Some(s) && Reachable(dump, s)
  {
    hide Run, Initial;
    logs, workers, actions :| workers >= 1 && Run(dump, Initial(input, logs, workers), actions) == Some(s);
  }

  lemma InitiallyInOrder(input: seq<Option<Message>>, logs: seq<LogRecord>, workers: nat)
    ensures InOrder(input, Initial(input, logs, workers))
  {
  }

  /** The messages up to the first exit, and that exit. */
  function UpToExit(messages: seq<Message>): seq<Message> {
    if messages == [] then []
    else [messages[0]] + if IsExit(messages[0]) then [] else UpToExit(messages[1..])
  }

  /** Up to the first exit, what the server has accepted is a prefix of what the client sent. If only the last message
      can be an exit this is all that it has accepted, and it has accepted everything once every message has been read
      and scheduled. */
  lemma AcceptedPrefix(dump: Dump, input: seq<Option<Message>>, s: State)
    requires ReachableFrom(dump, input, s)
    ensures UpToExit(s.accepted) <= Messages(input)
    ensures ExitsLast(Messages(input)) ==> s.accepted <= Messages(input)
    ensures ExitsLast(Messages(input)) && Messages(s.input) == [] && !s.main.Scheduling? ==>
              s.accepted == Messages(input)
  {
    hide ReachableFrom, Reachable;
    ReachableInOrder(dump, input, s);
    DocumentsAreSequential(dump, s);
    AcceptedInOrder(input, s);
    if ExitsLast(Messages(input)) {
      AcceptedWhole(input, s);
    }
  }

  lemma {:induction false} UpToExitCut(messages: seq<Message>) returns (n: nat)
    ensures n <= |messages| && UpToExit(messages) == messages[..n]
    ensures n > 0 ==> !HasExit(messages[..n - 1])
  {
    if messages == [] {
      n := 0;
    } else if IsExit(messages[0]) {
      n := 1;
    } else {
      var n' := UpToExitCut(messages[1..]);
      n := n' + 1;
      forall k | 0 <= k < n' ensures !IsExit(messages[..n'][k]) {
        if k > 0 {
          assert messages[..n'][k] == messages[1..][..n' - 1][k - 1];
        }
      }
    }
  }

  lemma AcceptedInOrder(input: seq<Option<Message>>, s: State)
    requires InOrder(input, s)
    ensures UpToExit(s.accepted) <= Messages(input)
  {
    var n := UpToExitCut(s.accepted);
    forall k | 0 <= k < n ensures s.accepted[k] == Messages(input)[k] {
      ExitFree(s.accepted, n - 1, k);
    }
  }

  lemma ExitFree(messages: seq<Message>, k: nat, j: nat)
    requires j <= k <= |messages| && !HasExit(messages[..k])
    ensures !HasExit(messages[..j])
  {
    forall i | 0 <= i < j ensures !IsExit(messages[..j][i]) {
      assert messages[..j][i] == messages[..k][i];
    }
  }

  lemma AcceptedWhole(input: seq<Option<Message>>, s: State)
    requires InOrder(input, s) && ExitsLast(Messages(input))
    requires !HasExit(s.accepted) ==> s.received == s.accepted + Unscheduled(s.main)
    ensures s.accepted <= Messages(input)
    ensures Messages(s.input) == [] && !s.main.Scheduling? ==> s.accepted == Messages(input)
  {
    var all := Messages(input);
    if HasExit(s.accepted) {
      var k := FirstExit(s.accepted);
      assert all[k] == s.received[k] == s.accepted[k];
      assert k == |all| - 1;
      forall j | 0 <= j < |s.accepted| ensures s.accepted[j] == all[j] {
        ExitFree(s.accepted, k, j);
      }
    }
  }

  lemma {:induction false} FirstExit(messages: seq<Message>) returns (k: nat)
    requires HasExit(messages)
    ensures k < |messages| && IsExit(messages[k]) && !HasExit(messages[..k])
    decreases |messages|
  {
    k :| 0 <= k < |messages| && IsExit(messages[k]);
    if HasExit(messages[..k]) {
      var j := FirstExit(messages[..k]);
      assert messages[..k][..j] == messages[..j];
      k := j;
    }
  }

  predicate ExitsLast(messages: seq<Message>) {
    forall k :: 0 <= k < |messages| - 1 ==> !IsExit(messages[k])
  }

  // ---- The messages that matter for the documents ----

  const SYNCHRONISATION := {"textDocument/didOpen", "textDocument/didChange", "textDocument/didSave",
                            "textDocument/didClose"}

  /** Every request but the one to initialise, and every notification but those about documents. */
  predicate Silent(m: Message) {
    if m.Request? then m.method_ != "initialize" else m.method_ !in SYNCHRONISATION
  }

  lemma SilentKeepsDocs(docs: Docs, m: Message)
    requires Silent(m)
    ensures ExecuteDocs(docs, m) == docs
  {
  }

  function Loud(messages: seq<Message>): seq<Message> {
    if messages == [] then []
    else
      var n := |messages| - 1;
      Loud(messages[..n]) + if Silent(messages[n]) then [] else [messages[n]]
  }

  lemma {:induction false} LoudDecides(messages: seq<Message>)
    ensures Sequential(messages) == Sequential(Loud(messages))
  {
    hide ExecuteDocs;
    if messages != [] {
      var n := |messages| - 1;
      LoudDecides(messages[..n]);
      if Silent(messages[n]) {
        SilentKeepsDocs(Sequential(messages[..n]), messages[n]);
        assert Loud(messages) == Loud(messages[..n]);
      } else {
        assert Loud(messages) == Loud(messages[..n]) + [messages[n]];
        assert Loud(messages)[..|Loud(messages)| - 1] == Loud(messages[..n]);
      }
    }
  }

  lemma {:induction false} LoudPrefix(messages: seq<Message>, k: nat)
    requires k <= |messages|
    ensures Loud(messages[..k]) <= Loud(messages)
    decreases |messages|
  {
    if k < |messages| {
      var n := |messages| - 1;
      LoudPrefix(messages[..n], k);
      assert messages[..n][..k] == messages[..k];
    } else {
      assert messages[..k] == messages;
    }
  }

  // ---- A client's session ----

  /** The notification a client sends for an action. */
  function Notice(docs: ClientDocs, action: ClientAction): Message {
    match action
    case Open(uri, version, text) =>
      Notification("textDocument/didOpen", OpenParams(uri, version, Unicode.Encode(text)))
    case Change(uri, version, changes) =>
      Notification("textDocument/didChange", ChangeParams(uri, version, SentAll(changes)))
    case Save(uri) =>
      Notification("textDocument/didSave", SaveParams(uri, if uri in docs then Unicode.Encode(docs[uri].text) else []))
    case Close(uri) => Notification("textDocument/didClose", CloseParams(uri))
  }

  function Notices(docs: ClientDocs, actions: seq<ClientAction>): seq<Message>
    requires ClientRun(docs, actions).Some?
    decreases |actions|
  {
    if actions == [] then []
    else [Notice(docs, actions[0])] + Notices(ClientStep(docs, actions[0]).value, actions[1..])
  }

  lemma NoticeExecutes(files: Files, docs: ClientDocs, action: ClientAction)
    requires ClientStep(docs, action).Some?
    ensures ExecuteDocs(Docs(files, true), Notice(docs, action)) == Docs(ServerStep(files, docs, action).files, true)
  {
  }

  lemma ServerRunFirst(files: Files, docs: ClientDocs, actions: seq<ClientAction>)
    requires ClientRun(docs, actions).Some? && actions != []
    ensures ClientStep(docs, actions[0]).Some?
    ensures var docs' := ClientStep(docs, actions[0]).value;
            && ClientRun(docs', actions[1..]).Some?
            && ServerRun(files, docs, actions).files
            == ServerRun(ServerStep(files, docs, actions[0]).files, docs', actions[1..]).files
            && Notices(docs, actions) == [Notice(docs, actions[0])] + Notices(docs', actions[1..])
  {
    hide ClientStep, ServerStep, Notice;
  }

  lemma NoticeAppends(messages: seq<Message>, files: Files, docs: ClientDocs, action: ClientAction)
    requires ClientStep(docs, action).Some? && Sequential(messages) == Docs(files, true)
    ensures Sequential(messages + [Notice(docs, action)]) == Docs(ServerStep(files, docs, action).files, true)
  {
    hide ExecuteDocs, ServerStep, ClientStep, Notice, Sequential;
    NoticeExecutes(files, docs, action);
    SequentialAppend(messages, Notice(docs, action));
  }

  /** The notifications of a client's run do to the server's files what the run does to the server. */
  lemma {:induction false} NoticesExecute(messages: seq<Message>, files: Files, docs: ClientDocs,
                                          actions: seq<ClientAction>)
    requires ClientRun(docs, actions).Some? && Sequential(messages) == Docs(files, true)
    ensures Sequential(messages + Notices(docs, actions)) == Docs(ServerRun(files, docs, actions).files, true)
    decreases |actions|
  {
    hide ServerStep, ClientStep, Notice, Sequential;
    if actions == [] {
      assert messages + Notices(docs, actions) == messages;
    } else {
      ServerRunFirst(files, docs, actions);
      hide ServerRun, Notices, ClientRun;
      var notice, docs' := Notice(docs, actions[0]), ClientStep(docs, actions[0]).value;
      NoticeAppends(messages, files, docs, actions[0]);
      NoticesExecute(messages + [notice], ServerStep(files, docs, actions[0]).files, docs', actions[1..]);
      assert messages + ([notice] + Notices(docs', actions[1..])) == messages + [notice] + Notices(docs', actions[1..]);
    }
  }

  lemma {:induction false} NoticesPrefix(docs: ClientDocs, actions: seq<ClientAction>, n: nat)
    requires ClientRun(docs, actions).Some? && n <= |actions|
    ensures ClientRun(docs, actions[..n]).Some?
    ensures |Notices(docs, actions)| == |actions|
    ensures Notices(docs, actions)[..n] == Notices(docs, actions[..n])
    decreases |actions|
  {
    hide ClientStep, Notice;
    if actions != [] {
      var docs' := ClientStep(docs, actions[0]).value;
      if n == 0 {
        NoticesPrefix(docs', actions[1..], 0);
      } else {
        NoticesPrefix(docs', actions[1..], n - 1);
        assert actions[..n][1..] == actions[1..][..n - 1];
      }
    }
  }

  /** A client that initialises the server and then notifies it of what it does with its documents. It may send any
      other messages at any point, among them concurrent ones, and an exit at the end. */
  ghost predicate IsSession(messages: seq<Message>, initialize: Message, actions: seq<ClientAction>) {
    && initialize.Request? && initialize.method_ == "initialize" && !initialize.params.Malformed?
    && ClientRun(map[], actions).Some?
    && Loud(messages) == [initialize] + Notices(map[], actions)
    && ExitsLast(messages)
  }

  /** The server has exactly the client's documents open, each at its last version, and each copy equals the client's
      text up to line endings. */
  ghost predicate Agrees(files: Files, actions: seq<ClientAction>) {
    && ClientRun(map[], actions).Some?
    && var docs := ClientRun(map[], actions).value;
       && files.Keys == docs.Keys
       && forall uri :: uri in docs ==>
                          && files[uri].version == docs[uri].version
                          && ToLF(files[uri].content) == ToLF(Unicode.Encode(docs[uri].text))
  }

  /** How many of the client's actions the server has heard of. */
  function Heard(accepted: seq<Message>): nat {
    if Loud(accepted) == [] then 0 else |Loud(accepted)| - 1
  }

  lemma AgreesAfter(initialize: Message, actions: seq<ClientAction>, n: nat)
    requires initialize.Request? && initialize.method_ == "initialize" && !initialize.params.Malformed?
    requires ClientRun(map[], actions).Some? && n <= |actions|
    ensures |Notices(map[], actions)| == |actions|
    ensures Agrees(Sequential(([initialize] + Notices(map[], actions))[..n + 1]).files, actions[..n])
  {
    hide Notices, ClientRun;
    NoticesPrefix(map[], actions, n);
    assert ([initialize] + Notices(map[], actions))[..n + 1] == [initialize] + Notices(map[], actions[..n]);
    assert [initialize][..0] == [];
    assert Sequential([initialize]) == Docs(map[], true);
    NoticesExecute([initialize], map[], map[], actions[..n]);
    AgreementRun(actions[..n]);
  }

  lemma NothingHeard(initialize: Message, actions: seq<ClientAction>)
    requires ClientRun(map[], actions).Some?
    ensures Agrees(Sequential([]).files, actions[..0])
  {
    assert ClientRun(map[], actions[..0]) == Some(map[]);
  }

  /** Whatever the interleaving, whenever the reader thread is not executing a message the server agrees with the client
      as it was after the actions heard of so far; once all has been read and scheduled, these are all of them. */
  lemma SessionAgrees(dump: Dump, input: seq<Option<Message>>, s: State, initialize: Message,
                      actions: seq<ClientAction>)
    requires ReachableFrom(dump, input, s) && IsSession(Messages(input), initialize, actions)
    requires !s.main.Draining? && !s.main.Executing?
    ensures s.accepted <= Messages(input)
    ensures Heard(s.accepted) <= |actions| && Agrees(s.shared.docs.files, actions[..Heard(s.accepted)])
    ensures Messages(s.input) == [] && !s.main.Scheduling? ==> Agrees(s.shared.docs.files, actions)
  {
    hide Agrees, Notices, ClientRun, HasExit, Sequential, Loud;
    AcceptedPrefix(dump, input, s);
    ReachableInOrder(dump, input, s);
    DocumentsAreSequential(dump, s);
    LoudDecides(s.accepted);
    LoudPrefix(Messages(input), |s.accepted|);
    assert Messages(input)[..|s.accepted|] == s.accepted;
    NoticesPrefix(map[], actions, 0);
    var heard, loud := Heard(s.accepted), Loud(Messages(input));
    if Loud(s.accepted) == [] {
      NothingHeard(initialize, actions);
    } else {
      AgreesAfter(initialize, actions, heard);
      assert Loud(s.accepted) == loud[..heard + 1];
    }
    assert actions[..|actions|] == actions;
  }

  /** The same from the client's bytes: the server reads the frames a client writes for its session, its threads
      interleave in any way, and it agrees with the client. */
  lemma EndToEnd(dump: Dump, parse: Parser, messages: seq<Message>, initialize: Message, actions: seq<ClientAction>,
                 input: seq<Option<Message>>, s: State)
    requires Understood(parse, dump, messages) && IsSession(messages, initialize, actions)
    requires Reads(parse, Framing.Stream(Framing.Frames(Written(dump, messages)), false, false)) == Some(input)
    requires ReachableFrom(dump, input, s) && !s.main.Draining? && !s.main.Executing?
    ensures s.accepted <= messages
    ensures Heard(s.accepted) <= |actions| && Agrees(s.shared.docs.files, actions[..Heard(s.accepted)])
    ensures |s.received| == |messages| && !s.main.Scheduling? ==> Agrees(s.shared.docs.files, actions)
  {
    hide Agrees, IsSession, Reads, Heard;
    FramesRead(parse, dump, messages);
    MessagesOfSomes(messages);
    SessionAgrees(dump, input, s, initialize, actions);
    ReachableInOrder(dump, input, s);
  }
}
