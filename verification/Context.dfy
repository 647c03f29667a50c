/**
 The server's state and the execution of one message on it: routing, the life-cycle gate, the handlers, and the
 response of a request. The functions give the meaning of each handler; the class executes them in place.
 */
module Context {
  import opened Wrappers
  import opened FileBrowser
  import opened DidChange
  import opened JsonValues
  import opened Protocol
  import Framing
  import Unicode

  datatype TraceValue = Off | Messages | Verbose

  /** The part of the state that messages are meant to change in arrival order. */
  datatype Docs = Docs(files: Files, initialized: bool)

  datatype Shared = Shared(docs: Docs, canSendTrace: bool, exitRequested: bool, trace: TraceValue)

  const INITIAL := Shared(Docs(map[], false), false, false, Messages)

  const INITIALIZE_RESULT :=
    Obj(map["serverInfo" := Obj(map["name" := Str("nitrateLanguageServer"), "version" := Str("0.0.1")]),
            "capabilities" := Obj(map[
              "positionEncoding" := Str("utf-16"),
              "textDocumentSync" := Obj(map["openClose" := Bool(true), "change" := Int(2),
                                            "save" := Obj(map["includeText" := Bool(true)])]),
              "completionProvider" := Obj(map["triggerCharacters" := Arr([Str("."), Str("::")])])])])

  const REQUESTS := {"initialize", "shutdown", "textDocument/completion"}

  const NOTIFICATIONS := {"initialized", "$/setTrace", "exit", "textDocument/didOpen", "textDocument/didChange",
                          "textDocument/didClose", "textDocument/didSave"}

  function TraceOf(value: string): TraceValue {
    if value == "messages" then Messages else if value == "verbose" then Verbose else Off
  }

  // ---- Requests ----

  function ExecuteLSPRequest(shared: Shared, method_: string, id: Id, params: Params): (r: (Shared, Response))
    ensures r.1.id == id && r.1.Valid()
  {
    if shared.docs.initialized || method_ == "initialize" then
      if method_ == "initialize" then
        if params.Malformed? then (shared, Response(id, Some(InvalidRequest), Null))
        else
          var trace :=
            if params.InitializeParams? && params.trace.Some? then TraceOf(params.trace.value) else shared.trace;
          (shared.(trace := trace, docs := shared.docs.(initialized := true)), Response(id, None, INITIALIZE_RESULT))
      else if method_ in REQUESTS then (shared, Response(id, None, Null))
      else (shared, Response(id, Some(MethodNotFound), Null))
    else (shared, Response(id, Some(ServerNotInitialized), Null))
  }

  // ---- Notifications ----

  /** The life-cycle gate of notifications. */
  predicate Routed(initialized: bool, method_: string) {
    method_ in NOTIFICATIONS && (initialized || method_ == "initialized" || method_ == "exit")
  }

  function NotifyDocs(files: Files, method_: string, params: Params): Files {
    match params
    case OpenParams(uri, version, text) =>
      if method_ == "textDocument/didOpen" then Opened(files, uri, version, text).files else files
    case ChangeParams(uri, version, changes) =>
      if method_ == "textDocument/didChange" then ApplyAll(files, uri, version, changes).files else files
    case SaveParams(uri, text) =>
      if method_ == "textDocument/didSave" then Saved(files, uri, Some(text)).files else files
    case CloseParams(uri) =>
      if method_ == "textDocument/didClose" then Closed(files, uri).files else files
    case _ => files
  }

  function ExecuteLSPNotification(shared: Shared, method_: string, params: Params): Shared {
    if !Routed(shared.docs.initialized, method_) then shared
    else if method_ == "initialized" then shared.(canSendTrace := true)
    else if method_ == "exit" then shared.(exitRequested := true)
    else if method_ == "$/setTrace" then
      if params.SetTraceParams? && params.value in {"off", "messages", "verbose"} then
        shared.(trace := TraceOf(params.value))
      else shared
    else shared.(docs := shared.docs.(files := NotifyDocs(shared.docs.files, method_, params)))
  }

  /** Executes one message: the new state, and the response if it is a request. */
  function Execute(shared: Shared, m: Message): (Shared, Option<Response>) {
    match m
    case Notification(method_, params) => (ExecuteLSPNotification(shared, method_, params), None)
    case Request(method_, id, params) =>
      var (shared', response) := ExecuteLSPRequest(shared, method_, id, params);
      (shared', Some(response))
  }

  // ---- What the theorems need to know about one message ----

  /** What a message does to the documents and the initialised flag depends on nothing else. */
  function ExecuteDocs(docs: Docs, m: Message): Docs {
    match m
    case Notification(method_, params) =>
      if Routed(docs.initialized, method_) then docs.(files := NotifyDocs(docs.files, method_, params)) else docs
    case Request(method_, _, params) =>
      if method_ == "initialize" && !params.Malformed? then docs.(initialized := true) else docs
  }

  lemma ExecuteActsOnDocs(shared: Shared, m: Message)
    ensures Execute(shared, m).0.docs == ExecuteDocs(shared.docs, m)
  {
  }

  predicate IsExit(m: Message) {
    m.Notification? && m.method_ == "exit"
  }

  /** Only an exit notification requests the exit, and nothing withdraws it. */
  lemma ExitRequestedBy(shared: Shared, m: Message)
    ensures Execute(shared, m).0.exitRequested <==> shared.exitRequested || IsExit(m)
  {
  }

  /** A request has exactly one response, which carries its id; a notification has none. */
  lemma OneResponse(shared: Shared, m: Message)
    ensures Execute(shared, m).1.Some? <==> m.Request?
    ensures m.Request? ==>
              var r := Execute(shared, m).1.value;
              r.Valid() && IsResponseTo(Finalized(r), m.id)
  {
    if m.Request? {
      FinalizedIsResponse(Execute(shared, m).1.value);
    }
  }

  ghost predicate ValidChange(change: ContentChange) {
    match change
    case Full(text) => Unicode.ValidUtf8(text)
    case Incremental(event) => Unicode.ValidUtf8(event.text)
  }

  /** The texts of a message come out of the JSON parser as valid UTF-8. */
  ghost predicate ValidParams(params: Params) {
    match params
    case OpenParams(_, _, text) => Unicode.ValidUtf8(text)
    case ChangeParams(_, _, changes) => forall change :: change in changes ==> ValidChange(change)
    case SaveParams(_, text) => Unicode.ValidUtf8(text)
    case _ => true
  }

  // ---- The context ----

  class Context {
    const fs: FileBrowser
    var isLspInitialized: bool
    var canSendTrace: bool
    var exitRequested: bool
    var trace: TraceValue
    var os: string

    ghost predicate Valid()
      reads this, fs
    {
      fs.Valid()
    }

    ghost function Value(): Shared
      reads this, fs
    {
      Shared(Docs(fs.files, isLspInitialized), canSendTrace, exitRequested, trace)
    }

    constructor ()
      ensures Valid() && fresh(fs) && Value() == INITIAL && os == ""
    {
      fs := new FileBrowser();
      isLspInitialized, canSendTrace, exitRequested := false, false, false;
      trace := Messages;
      os := "";
    }

    /** Applies the changes of a notification one at a time. */
    method NotifyTextDocumentDidChange(uri: Uri, version: int, changes: seq<ContentChange>)
      modifies fs
      ensures fs.files == ApplyAll(old(fs.files), uri, version, changes).files
      ensures old(Valid()) && (forall change :: change in changes ==> ValidChange(change)) ==> Valid()
    {
      hide ApplyChanges, Unicode.ValidUtf8, ToLF;
      assert changes[0..] == changes;
      ghost var valid := forall change :: change in changes ==> ValidChange(change);
      for i := 0 to |changes|
        invariant old(Valid()) && valid ==> Valid()
        invariant ApplyAll(old(fs.files), uri, version, changes) == ApplyAll(fs.files, uri, version, changes[i..])
      {
        assert changes[i..][0] == changes[i] && changes[i..][1..] == changes[i + 1..];
        assert valid ==> ValidChange(changes[i]);
        var ok;
        match changes[i] {
          case Incremental(event) =>
            ok := fs.DidChanges(uri, version, [event]);
          case Full(text) =>
            ok := fs.DidChange(uri, version, text);
        }
        if !ok {
          return;
        }
      }
    }

    method ExecuteNotification(method_: string, params: Params)
      modifies this, fs
      ensures Value() == ExecuteLSPNotification(old(Value()), method_, params) && os == old(os)
      ensures old(Valid()) && ValidParams(params) ==> Valid()
    {
      if method_ !in NOTIFICATIONS {
        return;
      }
      if !(isLspInitialized || method_ == "initialized" || method_ == "exit") {
        return;
      }
      if method_ == "initialized" {
        canSendTrace := true;
      } else if method_ == "exit" {
        exitRequested := true;
      } else if method_ == "$/setTrace" {
        if params.SetTraceParams? {
          if params.value == "off" {
            trace := Off;
          } else if params.value == "messages" {
            trace := Messages;
          } else if params.value == "verbose" {
            trace := Verbose;
          }
        }
      } else if method_ == "textDocument/didOpen" && params.OpenParams? {
        var _ := fs.DidOpen(params.uri, params.version, params.text);
      } else if method_ == "textDocument/didChange" && params.ChangeParams? {
        NotifyTextDocumentDidChange(params.uri, params.version, params.changes);
      } else if method_ == "textDocument/didClose" && params.CloseParams? {
        var _ := fs.DidClose(params.uri);
      } else if method_ == "textDocument/didSave" && params.SaveParams? {
        var _ := fs.DidSave(params.uri, Some(params.text));
      }
    }

    method ExecuteRequest(method_: string, id: Id, params: Params) returns (response: ResponseMessage)
      modifies this
      ensures old(Valid()) ==> Valid()
      ensures fresh(response) && os == old(os)
      ensures (Value(), response.Value()) == ExecuteLSPRequest(old(Value()), method_, id, params)
    {
      response := new ResponseMessage(id);
      if isLspInitialized || method_ == "initialize" {
        if method_ in REQUESTS {
          if method_ == "initialize" {
            if params.Malformed? {
              response.SetStatusCode(Some(InvalidRequest));
              return;
            }
            if params.InitializeParams? && params.trace.Some? {
              trace := TraceOf(params.trace.value);
            }
            response.json := INITIALIZE_RESULT;
            isLspInitialized := true;
          }
        } else {
          response.SetStatusCode(Some(MethodNotFound));
        }
      } else {
        response.SetStatusCode(Some(ServerNotInitialized));
      }
    }

    method SendMessage(response: ResponseMessage, dump: Json -> string)
      requires response.Value().Valid()
      modifies this`os, response
      ensures os == old(os) + Framing.Frame(dump(Finalized(old(response.Value()))))
    {
      hide Framing.Piece;
      response.Finalize();
      var body := dump(response.json);
      os := os + Framing.Piece(body, 0);
      os := os + Framing.Piece(body, 1);
      os := os + Framing.Piece(body, 2);
    }

    /** Executes a message and sends the response of a request; tells whether an exit has been requested. */
    method ExecuteRPC(m: Message, dump: Json -> string) returns (exit: bool)
      modifies this, fs
      ensures Value() == Execute(old(Value()), m).0 && exit == exitRequested
      ensures old(Valid()) && ValidParams(m.params) ==> Valid()
      ensures os == old(os) + match Execute(old(Value()), m).1
                              case None => ""
                              case Some(response) => Framing.Frame(dump(Finalized(response)))
    {
      match m {
        case Notification(method_, params) =>
          ExecuteNotification(method_, params);
          exit := exitRequested;
        case Request(method_, id, params) =>
          var response := ExecuteRequest(method_, id, params);
          exit := exitRequested;
          SendMessage(response, dump);
      }
    }
  }
}
