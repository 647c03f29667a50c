/**
 From JSON values to messages: the checks of the reader and of the handlers, and the conversions they guard. A client's
 JSON form of a message is what the server converts back to that message.
 */
module Rpc {
  import opened Unicode
  import opened Wrappers
  import opened FileBrowser
  import opened DidChange
  import opened JsonValues
  import opened Protocol
  import Context

  // ---- Strings and numbers ----

  function ByteOf(c: char): Byte {
    (c as int % 0x100) as Byte
  }

  function CharOf(b: Byte): char {
    b as int as char
  }

  function Bytes(s: string): seq<Byte> {
    seq(|s|, i requires 0 <= i < |s| => ByteOf(s[i]))
  }

  function Chars(bytes: seq<Byte>): string {
    seq(|bytes|, i requires 0 <= i < |bytes| => CharOf(bytes[i]))
  }

  lemma ByteOfChar(b: Byte)
    ensures ByteOf(CharOf(b)) == b
  {
    var n := b as int;
    assert n % 0x100 == n;
  }

  lemma BytesOfChars(bytes: seq<Byte>)
    ensures Bytes(Chars(bytes)) == bytes
  {
    hide ByteOf, CharOf;
    forall i | 0 <= i < |bytes| ensures ByteOf(CharOf(bytes[i])) == bytes[i] {
      ByteOfChar(bytes[i]);
    }
  }

  /** An integer as a signed 64-bit number. */
  function Signed(n: int): int {
    (n + TWO_TO_THE_63) % TWO_TO_THE_64 - TWO_TO_THE_63
  }

  /** A signed 64-bit number stored in an unsigned one: a negative position becomes a very large one. */
  function Unsigned(n: int): nat {
    n % TWO_TO_THE_64
  }

  predicate IsSigned(n: int) {
    -TWO_TO_THE_63 <= n < TWO_TO_THE_63
  }

  lemma InRange(n: int)
    ensures IsSigned(n) ==> Signed(n) == n
    ensures 0 <= n && IsSigned(n) ==> Unsigned(Signed(n)) == n
    ensures n < 0 && IsSigned(n) ==> Unsigned(Signed(n)) >= TWO_TO_THE_63
  {
  }

  // ---- Members of an object ----

  /** The member is a string; none is longer than a string can be. */
  predicate HasText(j: Json, key: string) {
    HasStr(j, key) && |j.fields[key].s| <= MAX_SIZE
  }

  function TextOf(j: Json, key: string): Buffer
    requires HasText(j, key)
  {
    Bytes(j.fields[key].s)
  }

  function NumberOf(j: Json, key: string): int
    requires HasInt(j, key)
  {
    Signed(j.fields[key].n)
  }

  // ---- The checks and conversions of the handlers ----

  predicate VerifyPosition(j: Json, key: string) {
    HasObj(j, key) && HasInt(j.fields[key], "line") && HasInt(j.fields[key], "character")
  }

  function PositionOf(j: Json): Position
    requires HasInt(j, "line") && HasInt(j, "character")
  {
    Position(Unsigned(NumberOf(j, "line")), Unsigned(NumberOf(j, "character")))
  }

  predicate VerifyChange(j: Json) {
    && HasText(j, "text")
    && (Has(j, "range") ==> VerifyPosition(j.fields["range"], "start") && VerifyPosition(j.fields["range"], "end"))
  }

  function ChangeOf(j: Json): ContentChange
    requires VerifyChange(j)
  {
    if Has(j, "range") then
      var range := j.fields["range"];
      Incremental(ContentChangeEvent(Range(PositionOf(range.fields["start"]), PositionOf(range.fields["end"])),
                                     TextOf(j, "text")))
    else Full(TextOf(j, "text"))
  }

  predicate VerifyDocument(j: Json) {
    HasObj(j, "textDocument") && HasText(j.fields["textDocument"], "uri")
  }

  function UriOf(j: Json): Uri
    requires VerifyDocument(j)
  {
    j.fields["textDocument"].fields["uri"].s
  }

  predicate VerifyDidOpen(j: Json) {
    VerifyDocument(j) && HasInt(j.fields["textDocument"], "version") && HasText(j.fields["textDocument"], "text")
  }

  predicate VerifyDidChange(j: Json) {
    && VerifyDocument(j) && HasInt(j.fields["textDocument"], "version")
    && HasArr(j, "contentChanges")
    && forall k :: 0 <= k < |j.fields["contentChanges"].items| ==> VerifyChange(j.fields["contentChanges"].items[k])
  }

  function NotificationParams(method_: string, j: Json): Params {
    if method_ == "textDocument/didOpen" && VerifyDidOpen(j) then
      var document := j.fields["textDocument"];
      OpenParams(UriOf(j), NumberOf(document, "version"), TextOf(document, "text"))
    else if method_ == "textDocument/didChange" && VerifyDidChange(j) then
      var items := j.fields["contentChanges"].items;
      ChangeParams(UriOf(j), NumberOf(j.fields["textDocument"], "version"),
                   seq(|items|, k requires 0 <= k < |items| && VerifyChange(items[k]) => ChangeOf(items[k])))
    else if method_ == "textDocument/didSave" && VerifyDocument(j) && HasText(j, "text") then
      SaveParams(UriOf(j), TextOf(j, "text"))
    else if method_ == "textDocument/didClose" && VerifyDocument(j) then
      CloseParams(UriOf(j))
    else if method_ == "$/setTrace" && HasText(j, "value")
            && j.fields["value"].s in {"off", "messages", "verbose"} then
      SetTraceParams(j.fields["value"].s)
    else Malformed
  }

  function RequestParams(method_: string, j: Json): Params {
    if method_ == "initialize" then
      if !Has(j, "trace") then InitializeParams(None)
      else if HasText(j, "trace") then InitializeParams(Some(j.fields["trace"].s))
      else Malformed
    else if method_ == "textDocument/completion" && VerifyDocument(j) && VerifyPosition(j, "position")
            && j.fields["position"].fields["line"].n >= 0 && j.fields["position"].fields["character"].n >= 0 then
      var position := j.fields["position"];
      CompletionParams(UriOf(j), position.fields["line"].n, position.fields["character"].n)
    else Malformed
  }

  // ---- The checks and conversions of the reader ----

  predicate QuickJsonRPCMessageCheck(j: Json) {
    && Has(j, "jsonrpc") && j.fields["jsonrpc"] == Str("2.0")
    && Has(j, "method") && j.fields["method"].Str?
    && (Has(j, "id") ==> j.fields["id"].Str? || j.fields["id"].Int?)
  }

  function ConvertRPCMessageToLSPMessage(j: Json): Message
    requires QuickJsonRPCMessageCheck(j)
  {
    var method_ := j.fields["method"].s;
    var params := if Has(j, "params") then j.fields["params"] else Null;
    if !Has(j, "id") then Notification(method_, NotificationParams(method_, params))
    else
      var id := j.fields["id"];
      Request(method_, if id.Int? then Id.Number(Signed(id.n)) else Name(id.s), RequestParams(method_, params))
  }

  function MessageOf(j: Json): Option<Message> {
    if QuickJsonRPCMessageCheck(j) then Some(ConvertRPCMessageToLSPMessage(j)) else None
  }

  // ---- The JSON form of a client's message ----

  function PositionJson(p: Position): Json {
    Obj(map["line" := Int(p.line), "character" := Int(p.character)])
  }

  function ChangeJson(change: ContentChange): Json {
    match change
    case Full(text) => Obj(map["text" := Str(Chars(text))])
    case Incremental(ContentChangeEvent(Range(start, end), text)) =>
      Obj(map["range" := Obj(map["start" := PositionJson(start), "end" := PositionJson(end)]),
              "text" := Str(Chars(text))])
  }

  function ParamsJson(params: Params): Json {
    match params
    case Malformed => Null
    case InitializeParams(trace) => Obj(if trace.Some? then map["trace" := Str(trace.value)] else map[])
    case SetTraceParams(value) => Obj(map["value" := Str(value)])
    case CompletionParams(uri, line, character) =>
      Obj(map["textDocument" := Obj(map["uri" := Str(uri)]),
              "position" := Obj(map["line" := Int(line), "character" := Int(character)])])
    case OpenParams(uri, version, text) =>
      Obj(map["textDocument" := Obj(map["uri" := Str(uri), "version" := Int(version), "text" := Str(Chars(text))])])
    case ChangeParams(uri, version, changes) =>
      Obj(map["textDocument" := Obj(map["uri" := Str(uri), "version" := Int(version)]),
              "contentChanges" := Arr(seq(|changes|, k requires 0 <= k < |changes| => ChangeJson(changes[k])))])
    case SaveParams(uri, text) => Obj(map["textDocument" := Obj(map["uri" := Str(uri)]), "text" := Str(Chars(text))])
    case CloseParams(uri) => Obj(map["textDocument" := Obj(map["uri" := Str(uri)])])
  }

  function MessageJson(m: Message): Json {
    var fields := map["jsonrpc" := Str("2.0"), "method" := Str(m.method_), "params" := ParamsJson(m.params)];
    Obj(if m.Request? then fields["id" := IdJson(m.id)] else fields)
  }

  predicate FitsChange(change: ContentChange) {
    change.Incremental? ==>
      var Range(start, end) := change.change.range;
      IsSigned(start.line) && IsSigned(start.character) && IsSigned(end.line) && IsSigned(end.character)
  }

  /** The parameters are of the kind that belongs to the method, and every number fits in 64 bits. */
  predicate Fits(m: Message) {
    && (m.Request? ==> m.id.Number? ==> IsSigned(m.id.n))
    && match m.params
       case InitializeParams(trace) =>
         m.Request? && m.method_ == "initialize" && (trace.Some? ==> |trace.value| <= MAX_SIZE)
       case SetTraceParams(value) =>
         m.Notification? && m.method_ == "$/setTrace" && value in {"off", "messages", "verbose"}
       case CompletionParams(uri, _, _) => m.Request? && m.method_ == "textDocument/completion" && |uri| <= MAX_SIZE
       case OpenParams(uri, version, _) =>
         m.Notification? && m.method_ == "textDocument/didOpen" && |uri| <= MAX_SIZE && IsSigned(version)
       case ChangeParams(uri, version, changes) =>
         && m.Notification? && m.method_ == "textDocument/didChange" && |uri| <= MAX_SIZE && IsSigned(version)
         && forall k :: 0 <= k < |changes| ==> FitsChange(changes[k])
       case SaveParams(uri, _) => m.Notification? && m.method_ == "textDocument/didSave" && |uri| <= MAX_SIZE
       case CloseParams(uri) => m.Notification? && m.method_ == "textDocument/didClose" && |uri| <= MAX_SIZE
       case Malformed => m.Notification? || m.method_ != "initialize"
  }

  lemma ChangeRoundTrip(change: ContentChange)
    requires FitsChange(change)
    ensures VerifyChange(ChangeJson(change)) && ChangeOf(ChangeJson(change)) == change
  {
    match change
    case Full(text) => BytesOfChars(text);
    case Incremental(ContentChangeEvent(Range(start, end), text)) =>
      BytesOfChars(text);
      InRange(start.line);
      InRange(start.character);
      InRange(end.line);
      InRange(end.character);
  }

  lemma RequestParamsRoundTrip(m: Message)
    requires Fits(m) && m.Request?
    ensures RequestParams(m.method_, ParamsJson(m.params)) == m.params
  {
    hide NotificationParams;
  }

  lemma NotificationParamsRoundTrip(m: Message)
    requires Fits(m) && m.Notification?
    ensures NotificationParams(m.method_, ParamsJson(m.params)) == m.params
  {
    match m.params
    case OpenParams(_, _, _) => OpenRoundTrip(m);
    case SaveParams(_, text) =>
      BytesOfChars(text);
    case ChangeParams(_, version, changes) =>
      InRange(version);
      ChangesRoundTrip(m, changes);
    case _ =>
  }

  lemma OpenRoundTrip(m: Message)
    requires Fits(m) && m.params.OpenParams?
    ensures NotificationParams(m.method_, ParamsJson(m.params)) == m.params
  {
    BytesOfChars(m.params.text);
    InRange(m.params.version);
  }

  lemma ChangesRoundTrip(m: Message, changes: seq<ContentChange>)
    requires Fits(m) && m.params.ChangeParams? && changes == m.params.changes
    ensures VerifyDidChange(ParamsJson(m.params))
    ensures NotificationParams(m.method_, ParamsJson(m.params)).ChangeParams?
    ensures NotificationParams(m.method_, ParamsJson(m.params)).changes == changes
  {
    hide VerifyChange, ChangeOf, ChangeJson, FitsChange;
    forall k | 0 <= k < |changes|
      ensures VerifyChange(ChangeJson(changes[k])) && ChangeOf(ChangeJson(changes[k])) == changes[k]
    {
      ChangeRoundTrip(changes[k]);
    }
  }

  /** The server converts the JSON form of a client's message back to exactly that message. */
  lemma MessageRoundTrip(m: Message)
    requires Fits(m)
    ensures MessageOf(MessageJson(m)) == Some(m)
  {
    hide ParamsJson, NotificationParams, RequestParams;
    if m.Notification? {
      NotificationParamsRoundTrip(m);
    } else {
      RequestParamsRoundTrip(m);
      if m.id.Number? {
        InRange(m.id.n);
      }
    }
  }

  // ---- Texts stay valid UTF-8 ----

  /** The JSON library accepts only strings that are valid UTF-8. */
  ghost predicate ValidStrings(j: Json)
    decreases j
  {
    match j
    case Str(s) => ValidUtf8(Bytes(s))
    case Arr(items) => forall k :: 0 <= k < |items| ==> ValidStrings(items[k])
    case Obj(fields) => forall key :: key in fields ==> ValidStrings(fields[key])
    case _ => true
  }

  lemma TextValid(j: Json, key: string)
    requires ValidStrings(j) && HasText(j, key)
    ensures ValidUtf8(TextOf(j, key))
  {
    assert ValidStrings(j.fields[key]);
  }

  lemma MemberValid(j: Json, key: string)
    requires ValidStrings(j) && Has(j, key)
    ensures ValidStrings(j.fields[key])
  {
  }

  lemma ChangesValid(j: Json)
    requires ValidStrings(j) && VerifyDidChange(j)
    ensures Context.ValidParams(NotificationParams("textDocument/didChange", j))
  {
    hide ValidUtf8;
    var items := j.fields["contentChanges"].items;
    MemberValid(j, "contentChanges");
    forall k | 0 <= k < |items| ensures Context.ValidChange(ChangeOf(items[k])) {
      TextValid(items[k], "text");
    }
  }

  lemma NotificationValid(method_: string, j: Json)
    requires ValidStrings(j)
    ensures Context.ValidParams(NotificationParams(method_, j))
  {
    hide ValidUtf8;
    if method_ == "textDocument/didOpen" && VerifyDidOpen(j) {
      MemberValid(j, "textDocument");
      TextValid(j.fields["textDocument"], "text");
    } else if method_ == "textDocument/didChange" && VerifyDidChange(j) {
      ChangesValid(j);
    } else if method_ == "textDocument/didSave" && VerifyDocument(j) && HasText(j, "text") {
      TextValid(j, "text");
    }
  }

  /** Every text of a message the server executes is valid UTF-8, which is what the document store relies on. */
  lemma DecodedValid(j: Json)
    requires ValidStrings(j) && MessageOf(j).Some?
    ensures Context.ValidParams(MessageOf(j).value.params)
  {
    hide NotificationParams;
    if Has(j, "params") {
      MemberValid(j, "params");
    }
    var params := if Has(j, "params") then j.fields["params"] else Null;
    NotificationValid(j.fields["method"].s, params);
  }
}
