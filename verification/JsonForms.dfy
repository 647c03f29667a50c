/**
 Which JSON values are the same message: members that no handler reads change nothing, and nothing is accepted but the
 JSON form of a message with further members.
 */
module JsonForms {
  import opened Wrappers
  import opened FileBrowser
  import opened DidChange
  import opened JsonValues
  import opened Protocol
  import opened Rpc

  /** The names of all members that the reader or a handler looks at. */
  const READ := {"jsonrpc", "method", "id", "params", "textDocument", "uri", "version", "text", "contentChanges",
                 "range", "start", "end", "line", "character", "position", "value", "trace"}

  // ---- Members that are not read ----

  lemma SameText(j: Json, j': Json, read: set<string>, key: string)
    requires Includes(j, j', read) && key in read
    ensures HasText(j, key) <==> HasText(j', key)
    ensures HasText(j, key) ==> j.fields[key] == j'.fields[key]
  {
    SameMember(j, j', read, key);
  }

  lemma PositionExtras(j: Json, j': Json, read: set<string>, key: string)
    requires Includes(j, j', read) && {key, "line", "character"} <= read
    ensures VerifyPosition(j, key) <==> VerifyPosition(j', key)
    ensures VerifyPosition(j, key) ==>
              && j.fields[key].fields["line"] == j'.fields[key].fields["line"]
              && j.fields[key].fields["character"] == j'.fields[key].fields["character"]
  {
    hide Includes;
    SameMember(j, j', read, key);
    if HasObj(j, key) {
      SameMember(j.fields[key], j'.fields[key], read, "line");
      SameMember(j.fields[key], j'.fields[key], read, "character");
    }
  }

  lemma ChangeExtras(j: Json, j': Json, read: set<string>)
    requires Includes(j, j', read) && {"range", "start", "end", "line", "character", "text"} <= read
    ensures VerifyChange(j) <==> VerifyChange(j')
    ensures VerifyChange(j) ==> ChangeOf(j) == ChangeOf(j')
  {
    hide Includes;
    SameMember(j, j', read, "range");
    SameText(j, j', read, "text");
    if Has(j, "range") {
      PositionExtras(j.fields["range"], j'.fields["range"], read, "start");
      PositionExtras(j.fields["range"], j'.fields["range"], read, "end");
    }
  }

  lemma DocumentExtras(j: Json, j': Json, read: set<string>)
    requires Includes(j, j', read) && {"textDocument", "uri", "version", "text"} <= read
    ensures VerifyDocument(j) <==> VerifyDocument(j')
    ensures VerifyDocument(j) ==> UriOf(j) == UriOf(j')
    ensures HasObj(j, "textDocument") ==>
              var d, d' := j.fields["textDocument"], j'.fields["textDocument"];
              && HasObj(j', "textDocument")
              && (HasInt(d, "version") <==> HasInt(d', "version"))
              && (HasInt(d, "version") ==> d.fields["version"] == d'.fields["version"])
              && (HasText(d, "text") <==> HasText(d', "text"))
              && (HasText(d, "text") ==> d.fields["text"] == d'.fields["text"])
  {
    hide Includes;
    SameMember(j, j', read, "textDocument");
    if HasObj(j, "textDocument") {
      SameText(j.fields["textDocument"], j'.fields["textDocument"], read, "uri");
      SameMember(j.fields["textDocument"], j'.fields["textDocument"], read, "version");
      SameText(j.fields["textDocument"], j'.fields["textDocument"], read, "text");
    }
  }

  lemma DidChangeExtras(j: Json, j': Json, read: set<string>)
    requires Includes(j, j', read) && READ <= read
    ensures NotificationParams("textDocument/didChange", j) == NotificationParams("textDocument/didChange", j')
  {
    hide Includes, VerifyChange, ChangeOf;
    DocumentExtras(j, j', read);
    SameMember(j, j', read, "contentChanges");
    if HasArr(j, "contentChanges") {
      SameItems(j, j', read, "contentChanges");
      var items, items' := j.fields["contentChanges"].items, j'.fields["contentChanges"].items;
      forall k | 0 <= k < |items|
        ensures VerifyChange(items[k]) <==> VerifyChange(items'[k])
        ensures VerifyChange(items[k]) ==> ChangeOf(items[k]) == ChangeOf(items'[k])
      {
        ChangeExtras(items[k], items'[k], read);
      }
    }
  }

  lemma NotificationExtras(method_: string, j: Json, j': Json, read: set<string>)
    requires Includes(j, j', read) && READ <= read
    ensures NotificationParams(method_, j) == NotificationParams(method_, j')
  {
    hide Includes;
    if method_ == "textDocument/didChange" {
      DidChangeExtras(j, j', read);
    } else {
      hide VerifyDidChange;
      DocumentExtras(j, j', read);
      SameText(j, j', read, "text");
      SameText(j, j', read, "value");
    }
  }

  lemma RequestExtras(method_: string, j: Json, j': Json, read: set<string>)
    requires Includes(j, j', read) && READ <= read
    ensures RequestParams(method_, j) == RequestParams(method_, j')
  {
    hide Includes;
    SameMember(j, j', read, "trace");
    SameText(j, j', read, "trace");
    DocumentExtras(j, j', read);
    PositionExtras(j, j', read, "position");
  }

  /** Members that nobody reads do not change a message, whatever the value is: `rangeLength` in a change, `languageId`
      in a document, `processId` in a request to initialise, and any other. */
  lemma ExtrasIgnored(j: Json, j': Json)
    requires Includes(j, j', READ)
    ensures MessageOf(j) == MessageOf(j')
  {
    hide Includes, NotificationParams, RequestParams;
    SameMember(j, j', READ, "jsonrpc");
    SameMember(j, j', READ, "method");
    SameMember(j, j', READ, "id");
    SameMember(j, j', READ, "params");
    if QuickJsonRPCMessageCheck(j) {
      var params := if Has(j, "params") then j.fields["params"] else Null;
      var params' := if Has(j', "params") then j'.fields["params"] else Null;
      NullIncluded(READ);
      NotificationExtras(j.fields["method"].s, params, params', READ);
      RequestExtras(j.fields["method"].s, params, params', READ);
    }
  }

  lemma NullIncluded(read: set<string>)
    ensures Includes(Null, Null, read)
  {
  }

  /** A request to initialise is malformed exactly when it has a trace level that is not a string. */
  lemma InitializeMalformedIff(j: Json)
    requires MessageOf(j).Some? && MessageOf(j).value.Request? && MessageOf(j).value.method_ == "initialize"
    ensures var m, trace := MessageOf(j).value, HasObj(j, "params") && Has(j.fields["params"], "trace");
            && (m.params.Malformed? <==> trace && !HasText(j.fields["params"], "trace"))
            && (trace && HasText(j.fields["params"], "trace") ==>
                  m.params == InitializeParams(Some(j.fields["params"].fields["trace"].s)))
            && (!trace ==> m.params == InitializeParams(None))
  {
    hide VerifyDocument, VerifyPosition, NotificationParams;
  }

  /** A change is incremental exactly when it has a range, whatever else it has. */
  lemma RangeDecides(j: Json)
    requires VerifyChange(j)
    ensures ChangeOf(j).Incremental? <==> Has(j, "range")
    ensures match ChangeOf(j)
            case Full(text) => text == TextOf(j, "text")
            case Incremental(ContentChangeEvent(Range(start, end), text)) =>
              var range := j.fields["range"].fields;
              && text == TextOf(j, "text")
              && start.line == Unsigned(NumberOf(range["start"], "line"))
              && start.character == Unsigned(NumberOf(range["start"], "character"))
              && end.line == Unsigned(NumberOf(range["end"], "line"))
              && end.character == Unsigned(NumberOf(range["end"], "character"))
  {
  }

  // ---- What is accepted ----

  /** A value as the JSON library parses it from text: strings of bytes, integers of 64 bits, no string too long. */
  ghost predicate Parseable(j: Json)
    decreases j
  {
    match j
    case Int(n) => IsSigned(n)
    case Str(s) => |s| <= MAX_SIZE && forall k :: 0 <= k < |s| ==> s[k] as int < 0x100
    case Arr(items) => forall k :: 0 <= k < |items| ==> Parseable(items[k])
    case Obj(fields) => forall key :: key in fields ==> Parseable(fields[key])
    case _ => true
  }

  lemma MemberParseable(j: Json, key: string)
    requires Parseable(j) && Has(j, key)
    ensures Parseable(j.fields[key])
    ensures j.fields[key].Int? ==> Signed(j.fields[key].n) == j.fields[key].n
    ensures j.fields[key].Str? ==> HasText(j, key) && Chars(TextOf(j, key)) == j.fields[key].s
  {
    if j.fields[key].Str? {
      assert Parseable(j.fields[key]);
      CharsOfBytes(j.fields[key].s);
    } else if j.fields[key].Int? {
      assert Parseable(j.fields[key]);
      InRange(j.fields[key].n);
    }
  }

  lemma CharsOfBytes(s: string)
    requires forall k :: 0 <= k < |s| ==> s[k] as int < 0x100
    ensures Chars(Bytes(s)) == s
  {
    hide ByteOf, CharOf;
    forall k | 0 <= k < |s| ensures CharOf(ByteOf(s[k])) == s[k] {
      CharOfByte(s[k]);
    }
  }

  lemma CharOfByte(c: char)
    requires c as int < 0x100
    ensures CharOf(ByteOf(c)) == c
  {
    var n := c as int;
    assert n % 0x100 == n;
  }

  lemma PositionForm(j: Json, key: string)
    requires Parseable(j) && VerifyPosition(j, key)
    requires IsSigned(PositionOf(j.fields[key]).line) && IsSigned(PositionOf(j.fields[key]).character)
    ensures Includes(PositionJson(PositionOf(j.fields[key])), j.fields[key], {})
  {
    MemberParseable(j, key);
    MemberParseable(j.fields[key], "line");
    MemberParseable(j.fields[key], "character");
    StaysUnsigned(j.fields[key].fields["line"].n);
    StaysUnsigned(j.fields[key].fields["character"].n);
  }

  lemma StaysUnsigned(n: int)
    requires IsSigned(n) && IsSigned(Unsigned(n))
    ensures Unsigned(n) == n
  {
  }

  lemma ChangeForm(j: Json)
    requires Parseable(j) && VerifyChange(j) && FitsChange(ChangeOf(j))
    ensures Includes(ChangeJson(ChangeOf(j)), j, {})
  {
    hide PositionJson, Parseable, PositionOf;
    MemberParseable(j, "text");
    if Has(j, "range") {
      MemberParseable(j, "range");
      PositionForm(j.fields["range"], "start");
      PositionForm(j.fields["range"], "end");
    }
  }

  lemma DocumentForm(j: Json)
    requires Parseable(j) && VerifyDocument(j)
    ensures var d := j.fields["textDocument"];
            && Parseable(d) && d.fields["uri"] == Str(UriOf(j))
            && (HasInt(d, "version") ==> d.fields["version"] == Int(NumberOf(d, "version")))
            && (HasText(d, "text") ==> d.fields["text"] == Str(Chars(TextOf(d, "text"))))
  {
    hide Parseable;
    MemberParseable(j, "textDocument");
    var d := j.fields["textDocument"];
    if HasInt(d, "version") {
      MemberParseable(d, "version");
    }
    if HasText(d, "text") {
      MemberParseable(d, "text");
    }
  }

  lemma DidChangeForm(j: Json, m: Message)
    requires Parseable(j) && VerifyDidChange(j)
    requires m.Notification? && m.method_ == "textDocument/didChange" && Fits(m)
    requires m.params == NotificationParams(m.method_, j)
    ensures Includes(ParamsJson(m.params), j, {})
  {
    hide ChangeJson, ChangeOf, VerifyChange, Parseable, FitsChange;
    DocumentForm(j);
    MemberParseable(j, "contentChanges");
    var items := j.fields["contentChanges"].items;
    ItemsParseable(j.fields["contentChanges"]);
    forall k | 0 <= k < |items| ensures Includes(ChangeJson(m.params.changes[k]), items[k], {}) {
      assert m.params.changes[k] == ChangeOf(items[k]);
      ChangeForm(items[k]);
    }
    var form := ParamsJson(m.params);
    assert Includes(form.fields["contentChanges"], j.fields["contentChanges"], {});
    assert Includes(form.fields["textDocument"], j.fields["textDocument"], {});
  }

  lemma ItemsParseable(j: Json)
    requires Parseable(j) && j.Arr?
    ensures forall k :: 0 <= k < |j.items| ==> Parseable(j.items[k])
  {
  }

  lemma NotificationForm(j: Json, m: Message)
    requires Parseable(j) && m.Notification? && Fits(m) && !m.params.Malformed?
    requires m.params == NotificationParams(m.method_, j)
    ensures Includes(ParamsJson(m.params), j, {})
  {
    hide Parseable, VerifyChange, ChangeOf, ChangeJson, FitsChange;
    match m.params
    case ChangeParams(_, _, _) => DidChangeForm(j, m);
    case SetTraceParams(_) => hide VerifyDidChange;
    case SaveParams(_, _) =>
      hide VerifyDidChange;
      DocumentForm(j);
      MemberParseable(j, "text");
      SaveForm(j, m);
    case OpenParams(_, _, _) =>
      hide VerifyDidChange;
      DocumentForm(j);
      OpenForm(j, m);
    case CloseParams(_) =>
      hide VerifyDidChange;
      DocumentForm(j);
      CloseForm(j, m);
  }

  lemma CloseForm(j: Json, m: Message)
    requires m.params.CloseParams? && VerifyDocument(j)
    requires j.fields["textDocument"].fields["uri"] == Str(m.params.uri)
    ensures Includes(ParamsJson(m.params), j, {})
  {
    var form := ParamsJson(m.params);
    assert Includes(form.fields["textDocument"], j.fields["textDocument"], {});
  }

  lemma SaveForm(j: Json, m: Message)
    requires m.params.SaveParams? && VerifyDocument(j) && HasText(j, "text")
    requires j.fields["textDocument"].fields["uri"] == Str(m.params.uri)
    requires j.fields["text"] == Str(Chars(m.params.text))
    ensures Includes(ParamsJson(m.params), j, {})
  {
    hide Chars;
    var form := ParamsJson(m.params);
    assert Includes(form.fields["textDocument"], j.fields["textDocument"], {});
  }

  lemma OpenForm(j: Json, m: Message)
    requires m.params.OpenParams? && VerifyDidOpen(j)
    requires var d := j.fields["textDocument"].fields;
             d["uri"] == Str(m.params.uri) && d["version"] == Int(m.params.version)
             && d["text"] == Str(Chars(m.params.text))
    ensures Includes(ParamsJson(m.params), j, {})
  {
    hide Chars;
    var form := ParamsJson(m.params);
    assert Includes(form.fields["textDocument"], j.fields["textDocument"], {});
  }

  lemma RequestForm(j: Json, m: Message)
    requires Parseable(j) && m.Request? && Fits(m) && !m.params.Malformed? && m.params != InitializeParams(None)
    requires m.params == RequestParams(m.method_, j)
    ensures Includes(ParamsJson(m.params), j, {})
  {
    hide Parseable;
    if m.params.CompletionParams? {
      DocumentForm(j);
      var form := ParamsJson(m.params);
      assert Includes(form.fields["textDocument"], j.fields["textDocument"], {});
      assert Includes(form.fields["position"], j.fields["position"], {});
    }
  }

  /** The part of a message that every handler relies on. */
  function Envelope(m: Message): Json {
    var fields := map["jsonrpc" := Str("2.0"), "method" := Str(m.method_)];
    Obj(if m.Request? then fields["id" := IdJson(m.id)] else fields)
  }

  /** The parameters leave no mark on the message: malformed ones, and those of a request to initialise that does not
      set the trace level. */
  predicate Unmarked(params: Params) {
    params.Malformed? || params == InitializeParams(None)
  }

  /** No position of a change is negative, which would make it a very large one. */
  predicate NoNegative(params: Params) {
    params.ChangeParams? ==> forall k :: 0 <= k < |params.changes| ==> FitsChange(params.changes[k])
  }

  lemma AcceptedFits(j: Json, m: Message)
    requires MessageOf(j) == Some(m) && !m.params.Malformed? && NoNegative(m.params)
    ensures Fits(m)
  {
    hide VerifyChange, ChangeOf, FitsChange;
    if m.Request? && j.fields["id"].Int? {
      SignedFits(j.fields["id"].n);
    }
    var params := if Has(j, "params") then j.fields["params"] else Null;
    if m.params.OpenParams? || m.params.ChangeParams? {
      SignedFits(params.fields["textDocument"].fields["version"].n);
    }
  }

  lemma SignedFits(n: int)
    ensures IsSigned(Signed(n))
  {
  }

  /** What the server takes for a message is the JSON form of that message, with further members, unless a position in
      it is negative. */
  lemma AcceptedIsForm(j: Json, m: Message)
    requires Parseable(j) && MessageOf(j) == Some(m) && NoNegative(m.params)
    ensures m.Request? <==> Has(j, "id")
    ensures Includes(if Unmarked(m.params) then Envelope(m) else MessageJson(m), j, {})
  {
    hide NotificationParams, RequestParams, ParamsJson, Includes, Parseable, Fits, NoNegative;
    var params := if Has(j, "params") then j.fields["params"] else Null;
    NullParseable();
    if Has(j, "params") {
      MemberParseable(j, "params");
    }
    if Has(j, "id") {
      MemberParseable(j, "id");
    }
    if !Unmarked(m.params) {
      AcceptedFits(j, m);
      if m.Request? {
        RequestForm(params, m);
      } else {
        NotificationForm(params, m);
      }
      ParamsForm(m);
    }
    Enveloped(j, m);
  }

  lemma NullParseable()
    ensures Parseable(Null)
  {
  }

  lemma ParamsForm(m: Message)
    requires !m.params.Malformed?
    ensures ParamsJson(m.params).Obj? && !Includes(ParamsJson(m.params), Null, {})
  {
  }

  lemma Enveloped(j: Json, m: Message)
    requires QuickJsonRPCMessageCheck(j) && j.fields["method"] == Str(m.method_)
    requires m.Request? <==> Has(j, "id")
    requires m.Request? ==> j.fields["id"] == IdJson(m.id)
    requires Unmarked(m.params) || (Has(j, "params") && Includes(ParamsJson(m.params), j.fields["params"], {}))
    ensures Includes(if Unmarked(m.params) then Envelope(m) else MessageJson(m), j, {})
  {
    hide ParamsJson;
  }
}
