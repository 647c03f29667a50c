/** The messages of the JSON-RPC protocol, as the server's handlers see them. */
module Protocol {
  import opened Wrappers
  import opened FileBrowser
  import opened JsonValues
  import DidChange

  datatype Id = Number(n: int) | Name(s: string)

  /** Parameters, after the shape checks of the handlers: a handler treats parameters that are not of its own kind as
      malformed. Parameters that no handler looks at are put down as malformed too. */
  datatype Params =
    | Malformed
    | InitializeParams(trace: Option<string>)
    | SetTraceParams(value: string)
    | CompletionParams(uri: Uri, line: nat, character: nat)
    | OpenParams(uri: Uri, version: int, text: Buffer)
    | ChangeParams(uri: Uri, version: int, changes: seq<DidChange.ContentChange>)
    | SaveParams(uri: Uri, text: Buffer)
    | CloseParams(uri: Uri)

  /** What the reader produces; it never produces a response. */
  datatype Message =
    | Notification(method_: string, params: Params)
    | Request(method_: string, id: Id, params: Params)

  datatype StatusCode = InvalidRequest | MethodNotFound | ServerNotInitialized

  function Code(status: StatusCode): int {
    match status
    case InvalidRequest => -32600
    case MethodNotFound => -32601
    case ServerNotInitialized => -32002
  }

  /** A response before it is finalised: the handler's JSON value, null or an object, and a status if it failed. */
  datatype Response = Response(id: Id, status: Option<StatusCode>, json: Json) {
    predicate Valid() {
      json.Null? || json.Obj?
    }
  }

  function IdJson(id: Id): Json {
    match id
    case Number(n) => Int(n)
    case Name(s) => Str(s)
  }

  function Finalized(r: Response): Json
    requires r.Valid()
  {
    var content :=
      match r.status
      case None => map["result" := r.json]
      case Some(status) =>
        map["error" := Obj((if r.json.Obj? then r.json.fields else map[])["code" := Int(Code(status))])];
    Obj(content["jsonrpc" := Str("2.0")]["id" := IdJson(r.id)])
  }

  /** What the code sets up of a response: the version, the id of the request, and a result or an error object with a
      code, never both. */
  ghost predicate IsResponseTo(json: Json, id: Id) {
    && json.Obj?
    && "jsonrpc" in json.fields && json.fields["jsonrpc"] == Str("2.0")
    && "id" in json.fields && json.fields["id"] == IdJson(id)
    && ("result" in json.fields <==> "error" !in json.fields)
    && ("error" in json.fields ==>
          && json.fields["error"].Obj?
          && "code" in json.fields["error"].fields && json.fields["error"].fields["code"].Int?)
  }

  /** What JSON-RPC 2.0 demands of a response. By section 5.1 an error object also has a message. */
  ghost predicate Conforms(json: Json, id: Id) {
    && IsResponseTo(json, id)
    && ("error" in json.fields ==>
          "message" in json.fields["error"].fields && json.fields["error"].fields["message"].Str?)
  }

  /** A finalised response conforms exactly when it is a result, or the handler itself has put a message into its JSON
      value. */
  lemma ConformsIff(r: Response)
    requires r.Valid()
    ensures Conforms(Finalized(r), r.id) <==> r.status.None? || HasStr(r.json, "message")
  {
    if r.status.Some? {
      var error := Finalized(r).fields["error"].fields;
      assert "message" in error <==> Has(r.json, "message");
    }
  }

  lemma FinalizedIsResponse(r: Response)
    requires r.Valid()
    ensures IsResponseTo(Finalized(r), r.id)
    ensures "result" in Finalized(r).fields <==> r.status.None?
  {
  }

  /** A successful response carries the handler's value as its result; an error object keeps the members the handler has
      put into its value, but for the code, which is that of the status. */
  lemma FinalizedCarries(r: Response)
    requires r.Valid()
    ensures var fields := Finalized(r).fields;
            match r.status
            case None => fields.Keys == {"jsonrpc", "id", "result"} && fields["result"] == r.json
            case Some(status) =>
              && fields.Keys == {"jsonrpc", "id", "error"}
              && var error := fields["error"].fields;
                 && HasInt(fields["error"], "code")
                 && (error["code"].n == -32600 <==> status == InvalidRequest)
                 && (error["code"].n == -32601 <==> status == MethodNotFound)
                 && (error["code"].n == -32002 <==> status == ServerNotInitialized)
                 && forall key :: key != "code" ==>
                      && (key in error <==> Has(r.json, key))
                      && (key in error ==> error[key] == r.json.fields[key])
  {
  }

  /** The response object the handlers fill in. */
  class ResponseMessage {
    const requestId: Id
    var status: Option<StatusCode>
    var json: Json

    constructor (id: Id)
      ensures requestId == id && status == None && json == Null
    {
      requestId := id;
      status := None;
      json := Null;
    }

    function Value(): Response
      reads this
    {
      Response(requestId, status, json)
    }

    method SetStatusCode(code: Option<StatusCode>)
      modifies this`status
      ensures status == code
    {
      status := code;
    }

    /** Rewrites the JSON value in place. */
    method Finalize()
      requires Value().Valid()
      modifies this`json
      ensures json == Finalized(old(Value())) && IsResponseTo(json, requestId)
    {
      FinalizedIsResponse(Value());
      var tmp := json;
      var fields: map<string, Json> := map[];
      if status.None? {
        fields := fields["result" := tmp];
      } else {
        fields := fields["error" := Obj((if tmp.Obj? then tmp.fields else map[])["code" := Int(Code(status.value))])];
      }
      fields := fields["jsonrpc" := Str("2.0")];
      fields := fields["id" := IdJson(requestId)];
      json := Obj(fields);
    }
  }
}
