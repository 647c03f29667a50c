/**
 Client and server agree. A client keeps its documents as decoded texts and edits them at (line, UTF-16 column)
 positions; the server keeps bytes, rewrites line endings when a document is opened, and only sees the notifications.
 */
module Agreement {
  import opened Unicode
  import opened Wrappers
  import opened FileBrowser
  import opened DidChange
  import opened Endings
  import File
  import Lines

  /** A text whose bytes fit in a string. */
  type SizedText = t: Text | |Encode(t)| <= MAX_SIZE

  datatype TextChange = Whole(text: SizedText) | Part(range: Range, insert: SizedText)

  /** What a client does with a document. Saving sends the client's own text along. */
  datatype ClientAction =
    | Open(uri: Uri, version: int, text: SizedText)
    | Change(uri: Uri, version: int, changes: seq<TextChange>)
    | Save(uri: Uri)
    | Close(uri: Uri)

  /** A document as its client holds it. */
  datatype ClientDoc = ClientDoc(version: int, text: SizedText)

  type ClientDocs = map<Uri, ClientDoc>

  /** A client document that fits in a string and in which every CR belongs to a CRLF. */
  predicate Plain(text: Text) {
    NoBareCr(text) && |Encode(text)| <= MAX_SIZE
  }

  // ---- The client ----

  /** A client's change of its text; None if the positions do not exist or are out of order, or if the result is not
      plain. */
  function ClientChange(text: Text, change: TextChange): Option<SizedText> {
    match change
    case Whole(text') => if Plain(text') then Some(text') else None
    case Part(range, insert) =>
      match Edit(text, range, insert)
      case None => None
      case Some(text') => if Plain(text') then Some(text') else None
  }

  function ClientChanges(text: SizedText, changes: seq<TextChange>): Option<SizedText>
    decreases |changes|
  {
    if changes == [] then Some(text)
    else
      match ClientChange(text, changes[0])
      case None => None
      case Some(text') => ClientChanges(text', changes[1..])
  }

  /** The client's documents after an action, None if the protocol does not allow the action. */
  function ClientStep(docs: ClientDocs, action: ClientAction): Option<ClientDocs> {
    match action
    case Open(uri, version, text) =>
      if uri !in docs && Plain(text) then Some(docs[uri := ClientDoc(version, text)]) else None
    case Change(uri, version, changes) =>
      if uri !in docs || changes == [] then None
      else
        (match ClientChanges(docs[uri].text, changes)
         case None => None
         case Some(text) => Some(docs[uri := ClientDoc(version, text)]))
    case Save(uri) => if uri in docs then Some(docs) else None
    case Close(uri) => if uri in docs then Some(docs - {uri}) else None
  }

  function ClientRun(docs: ClientDocs, actions: seq<ClientAction>): Option<ClientDocs>
    decreases |actions|
  {
    if actions == [] then Some(docs)
    else
      match ClientStep(docs, actions[0])
      case None => None
      case Some(docs') => ClientRun(docs', actions[1..])
  }

  // ---- The server, fed with what the client sends ----

  function Sent(change: TextChange): ContentChange {
    match change
    case Whole(text) => Full(Encode(text))
    case Part(range, insert) => Incremental(ContentChangeEvent(range, Encode(insert)))
  }

  function SentAll(changes: seq<TextChange>): seq<ContentChange> {
    seq(|changes|, i requires 0 <= i < |changes| => Sent(changes[i]))
  }

  function ServerStep(files: Files, docs: ClientDocs, action: ClientAction): Result {
    match action
    case Open(uri, version, text) => Opened(files, uri, version, Encode(text))
    case Change(uri, version, changes) => ApplyAll(files, uri, version, SentAll(changes))
    case Save(uri) => Saved(files, uri, if uri in docs then Some(Encode(docs[uri].text)) else None)
    case Close(uri) => Closed(files, uri)
  }

  /** The server's files after a client's run; `ok` if the server accepted everything. */
  function ServerRun(files: Files, docs: ClientDocs, actions: seq<ClientAction>): Result
    requires ClientRun(docs, actions).Some?
    decreases |actions|
  {
    if actions == [] then Result(files, true)
    else
      var first := ServerStep(files, docs, actions[0]);
      var rest := ServerRun(first.files, ClientStep(docs, actions[0]).value, actions[1..]);
      Result(rest.files, first.ok && rest.ok)
  }

  // ---- Agreement ----

  ghost predicate Tracks(content: Buffer, text: Text) {
    Plain(text) && exists copy: Text :: Encode(copy) == content && Same(copy, text)
  }

  ghost predicate InSync(files: Files, docs: ClientDocs) {
    && files.Keys == docs.Keys
    && forall uri :: uri in docs ==>
                       files[uri].version == docs[uri].version && Tracks(files[uri].content, docs[uri].text)
  }

  lemma {:induction false} SameShorter(copy: Text, text: Text)
    requires Same(copy, text)
    ensures |Encode(copy)| <= |Encode(text)|
    decreases |text|
  {
    if text != [] {
      if Lines.EolLength(text) == 2 {
        SameShorter(copy[if copy[0] == LF then 1 else 2..], text[2..]);
        TwoScalars(text);
        if copy[0] == CR {
          TwoScalars(copy);
        }
      } else {
        SameShorter(copy[1..], text[1..]);
      }
    }
  }

  lemma TwoScalars(text: Text)
    requires Lines.EolLength(text) == 2
    ensures |Encode(text)| == 2 + |Encode(text[2..])|
  {
    File.EncodeEol(text);
  }

  /** An edit the client can make, the server accepts, and the copies still agree. */
  lemma TracksEdit(content: Buffer, text: SizedText, change: TextChange, files: Files, uri: Uri, version: int)
    requires uri in files && files[uri].content == content
    requires Tracks(content, text) && ClientChange(text, change).Some?
    ensures var r := ApplyOne(files, uri, version, Sent(change));
            && r.ok && uri in r.files && r.files == files[uri := r.files[uri]] && r.files[uri].version == version
            && Tracks(r.files[uri].content, ClientChange(text, change).value)
  {
    match change
    case Whole(text') =>
      SameRefl(text');
    case Part(range, insert) =>
      var copy: Text :| Encode(copy) == content && Same(copy, text);
      var event := ContentChangeEvent(range, Encode(insert));
      SingleChange(content, event);
      ApplyChangeIsEdit(copy, range, insert);
      SameEdit(copy, text, range, insert);
      SameShorter(Edit(copy, range, insert).value, Edit(text, range, insert).value);
  }

  lemma SameEdit(copy: Text, text: Text, range: Range, insert: Text)
    requires Same(copy, text) && NoBareCr(text) && Edit(text, range, insert).Some?
    ensures Edit(copy, range, insert).Some?
    ensures Same(Edit(copy, range, insert).value, Edit(text, range, insert).value)
  {
    var start, end := range.start, range.end;
    SameCut(copy, text, start.line, start.character);
    SameCut(copy, text, end.line, end.character);
    SameOrder(copy, text, start.line, start.character, end.line, end.character);
    var i := Lines.Locate(copy, start.line, start.character).value;
    var k := Lines.Locate(text, start.line, start.character).value;
    var i' := Lines.Locate(copy, end.line, end.character).value;
    var k' := Lines.Locate(text, end.line, end.character).value;
    SameRefl(insert);
    SameConcat(copy[..i], insert, text[..k], insert);
    SameConcat(copy[..i] + insert, copy[i'..], text[..k] + insert, text[k'..]);
  }

  /** The document after a list of changes. */
  function ChangedDoc(doc: ClientDoc, version: int, changes: seq<TextChange>): ClientDoc
    requires ClientChanges(doc.text, changes).Some?
  {
    ClientDoc(if changes == [] then doc.version else version, ClientChanges(doc.text, changes).value)
  }

  lemma {:induction false} TracksEdits(files: Files, docs: ClientDocs, uri: Uri, version: int, changes: seq<TextChange>)
    requires InSync(files, docs) && uri in docs && ClientChanges(docs[uri].text, changes).Some?
    ensures var r := ApplyAll(files, uri, version, SentAll(changes));
            r.ok && InSync(r.files, docs[uri := ChangedDoc(docs[uri], version, changes)])
    decreases |changes|
  {
    hide Tracks, ApplyOne, ClientChange;
    if changes == [] {
      assert docs[uri := docs[uri]] == docs;
    } else {
      TracksEdit(files[uri].content, docs[uri].text, changes[0], files, uri, version);
      SentFirst(changes);
      var doc := ClientDoc(version, ClientChange(docs[uri].text, changes[0]).value);
      var files' := ApplyOne(files, uri, version, Sent(changes[0])).files;
      InSyncUpdate(files, docs, uri, files'[uri], doc);
      hide InSync;
      TracksEdits(files', docs[uri := doc], uri, version, changes[1..]);
      var last := ChangedDoc(doc, version, changes[1..]);
      assert docs[uri := doc][uri := last] == docs[uri := last];
    }
  }

  lemma SentFirst(changes: seq<TextChange>)
    requires changes != []
    ensures SentAll(changes)[0] == Sent(changes[0]) && SentAll(changes)[1..] == SentAll(changes[1..])
  {
  }

  lemma InSyncUpdate(files: Files, docs: ClientDocs, uri: Uri, file: Document, doc: ClientDoc)
    requires InSync(files, docs) && uri in docs && file.version == doc.version && Tracks(file.content, doc.text)
    ensures InSync(files[uri := file], docs[uri := doc])
  {
  }

  lemma SaveTracks(content: Buffer, text: SizedText)
    requires Tracks(content, text)
    ensures Tracks(Encode(text), text)
  {
    SameRefl(text);
  }

  lemma OpenTracks(text: SizedText)
    requires Plain(text)
    ensures Tracks(ToLF(Encode(text)), text)
  {
    ToLFEncode(text);
    NormaliseSame(text);
  }

  lemma AgreementStep(files: Files, docs: ClientDocs, action: ClientAction)
    requires InSync(files, docs) && ClientStep(docs, action).Some?
    ensures var r := ServerStep(files, docs, action);
            r.ok && InSync(r.files, ClientStep(docs, action).value)
  {
    hide Tracks, ApplyAll, ClientChanges, ToLF, Encode;
    match action
    case Open(uri, version, text) =>
      OpenTracks(text);
    case Change(uri, version, changes) =>
      TracksEdits(files, docs, uri, version, changes);
    case Save(uri) =>
      SaveTracks(files[uri].content, docs[uri].text);
    case Close(uri) =>
  }

  lemma {:induction false} AgreementRunFrom(files: Files, docs: ClientDocs, actions: seq<ClientAction>)
    requires InSync(files, docs) && ClientRun(docs, actions).Some?
    ensures var r := ServerRun(files, docs, actions);
            r.ok && InSync(r.files, ClientRun(docs, actions).value)
    decreases |actions|
  {
    if actions != [] {
      AgreementStep(files, docs, actions[0]);
      var files' := ServerStep(files, docs, actions[0]).files;
      AgreementRunFrom(files', ClientStep(docs, actions[0]).value, actions[1..]);
    }
  }

  /** Client and server agree over whole runs: after any run of a client whose documents contain no bare CR, the server
      has accepted every notification, has exactly the client's documents open, each at its last version, and each copy
      equals the bytes of the client's text up to line endings. */
  lemma AgreementRun(actions: seq<ClientAction>)
    requires ClientRun(map[], actions).Some?
    ensures var r, docs := ServerRun(map[], map[], actions), ClientRun(map[], actions).value;
            && r.ok
            && r.files.Keys == docs.Keys
            && forall uri :: uri in docs ==>
                               && r.files[uri].version == docs[uri].version
                               && ToLF(r.files[uri].content) == ToLF(Encode(docs[uri].text))
  {
    AgreementRunFrom(map[], map[], actions);
    var r, docs := ServerRun(map[], map[], actions), ClientRun(map[], actions).value;
    forall uri | uri in docs ensures ToLF(r.files[uri].content) == ToLF(Encode(docs[uri].text)) {
      TracksBytes(r.files[uri].content, docs[uri].text);
    }
  }

  lemma TracksBytes(content: Buffer, text: Text)
    requires Tracks(content, text)
    ensures ToLF(content) == ToLF(Encode(text))
  {
    var copy: Text :| Encode(copy) == content && Same(copy, text);
    SameNormalise(copy, text);
    ToLFEncode(copy);
    ToLFEncode(text);
  }

  // ---- After the whole text has been sent ----

  /** A client's change of any text, with or without a bare CR; None if the positions do not exist or are out of order,
      or if the result does not fit in a string. */
  function AnyChange(text: SizedText, change: TextChange): Option<SizedText> {
    match change
    case Whole(text') => Some(text')
    case Part(range, insert) =>
      var edited := Edit(text, range, insert);
      if edited.None? || |Encode(edited.value)| > MAX_SIZE then None else Some(edited.value)
  }

  function AnyChanges(text: SizedText, changes: seq<TextChange>): Option<SizedText>
    decreases |changes|
  {
    if changes == [] then Some(text)
    else
      match AnyChange(text, changes[0])
      case None => None
      case Some(text') => AnyChanges(text', changes[1..])
  }

  lemma ExactChange(files: Files, uri: Uri, version: int, text: SizedText, change: TextChange)
    requires uri in files && files[uri].content == Encode(text)
    ensures var r := ApplyOne(files, uri, version, Sent(change));
            && (r.ok <==> AnyChange(text, change).Some?)
            && (r.ok ==> r.files == files[uri := Document(version, Encode(AnyChange(text, change).value))])
  {
    if change.Part? {
      hide ApplyChange, Edit;
      SingleChange(Encode(text), ContentChangeEvent(change.range, Encode(change.insert)));
      ApplyChangeIsEdit(text, change.range, change.insert);
    }
  }

  lemma {:induction false} ExactChanges(files: Files, uri: Uri, version: int, text: SizedText,
                                        changes: seq<TextChange>)
    requires uri in files && files[uri].content == Encode(text)
    ensures var r := ApplyAll(files, uri, version, SentAll(changes));
            && (r.ok <==> AnyChanges(text, changes).Some?)
            && uri in r.files && r.files == files[uri := r.files[uri]]
            && (r.ok ==> r.files[uri].content == Encode(AnyChanges(text, changes).value))
            && (r.ok && changes != [] ==> r.files[uri].version == version)
    decreases |changes|
  {
    hide ApplyOne, AnyChange, Encode;
    if changes != [] {
      SentFirst(changes);
      ExactChange(files, uri, version, text, changes[0]);
      var first := ApplyOne(files, uri, version, Sent(changes[0]));
      if first.ok {
        ExactChanges(first.files, uri, version, AnyChange(text, changes[0]).value, changes[1..]);
      } else {
        FailedKeeps(files, uri, version, Sent(changes[0]));
      }
    }
  }

  lemma FailedKeeps(files: Files, uri: Uri, version: int, change: ContentChange)
    requires !ApplyOne(files, uri, version, change).ok
    ensures ApplyOne(files, uri, version, change).files == files
  {
    hide ApplyChanges;
  }

  /** Once the whole text of an open document has been sent, by a full change or with a save, the server follows every
      further change exactly, byte by byte and whatever line endings the text has: it accepts a list of changes if and
      only if the client can make them, and then holds the bytes of the client's text. */
  lemma ExactAfterWholeText(files: Files, uri: Uri, version: int, text: SizedText, version': int,
                            changes: seq<TextChange>)
    requires uri in files
    ensures FollowsExactly(Changed(files, uri, version, Encode(text)).files, uri, version', text, changes)
    ensures FollowsExactly(Saved(files, uri, Some(Encode(text))).files, uri, version', text, changes)
  {
    hide ApplyAll, AnyChanges, Encode;
    ExactChanges(Changed(files, uri, version, Encode(text)).files, uri, version', text, changes);
    ExactChanges(Saved(files, uri, Some(Encode(text))).files, uri, version', text, changes);
  }

  predicate FollowsExactly(files: Files, uri: Uri, version: int, text: SizedText, changes: seq<TextChange>) {
    var r, after := ApplyAll(files, uri, version, SentAll(changes)), AnyChanges(text, changes);
    && (r.ok <==> after.Some?)
    && (r.ok ==> uri in r.files && r.files[uri].content == Encode(after.value))
  }

  // ---- Why the client's documents must not contain a bare CR ----

  /** An edit that the server, having opened the document, follows: it accepts it and the copies agree afterwards. */
  ghost predicate Follows(text: SizedText, range: Range, insert: SizedText)
    requires Edit(text, range, insert).Some?
  {
    var after := ApplyChange(ToLF(Encode(text)), ContentChangeEvent(range, Encode(insert)));
    after.Some? && ToLF(after.value) == ToLF(Encode(Edit(text, range, insert).value))
  }

  /** The server follows every edit that inserts no bare CR itself and whose result fits in a string. */
  ghost predicate FollowsEveryEdit(text: SizedText) {
    forall range: Range, insert: SizedText | NoBareCr(insert) ::
      var edited := Edit(text, range, insert);
      edited.Some? && |Encode(edited.value)| <= MAX_SIZE ==> Follows(text, range, insert)
  }

  /** The condition of the agreement theorem is exact: the server follows every such edit of a freshly opened document
      if and only if the document contains no bare CR. */
  lemma {:induction false} AgreementExact(text: SizedText)
    requires |Encode(text)| < MAX_SIZE
    ensures FollowsEveryEdit(text) <==> NoBareCr(text)
  {
    if NoBareCr(text) {
      forall range: Range, insert: SizedText | NoBareCr(insert) && Edit(text, range, insert).Some?
                                              && |Encode(Edit(text, range, insert).value)| <= MAX_SIZE
        ensures Follows(text, range, insert)
      {
        PlainFollows(text, range, insert);
      }
    } else {
      var k: nat :| k < |text| && text[k] == CR && !(k + 1 < |text| && text[k + 1] == LF);
      BareCrDiverges(text, k);
    }
  }

  lemma EditNoBareCr(text: Text, range: Range, insert: Text)
    requires NoBareCr(text) && NoBareCr(insert) && Edit(text, range, insert).Some?
    ensures NoBareCr(Edit(text, range, insert).value)
  {
    var i := Lines.Locate(text, range.start.line, range.start.character).value;
    LocateSplitsNoCrlf(text, range.start.line, range.start.character);
    hide Lines.Locate;
    var k := Lines.Locate(text, range.end.line, range.end.character).value;
    NoBareCrCut(text, i, k, insert);
  }

  lemma NoBareCrCut(text: Text, i: nat, k: nat, insert: Text)
    requires NoBareCr(text) && NoBareCr(insert) && i <= k <= |text|
    requires !(0 < i < |text| && text[i - 1] == CR && text[i] == LF)
    ensures NoBareCr(text[..i] + insert + text[k..])
  {
    assert NoBareCr(text[..i]);
    assert NoBareCr(text[k..]);
    NoBareCrConcat(text[..i], insert);
    NoBareCrConcat(text[..i] + insert, text[k..]);
  }

  lemma NoBareCrConcat(a: Text, b: Text)
    requires NoBareCr(a) && NoBareCr(b)
    ensures NoBareCr(a + b)
  {
  }

  /** No position lies between a CR and its LF. */
  lemma LocateSplitsNoCrlf(text: Text, line: nat, column: int)
    requires Lines.Locate(text, line, column).Some?
    ensures var i := Lines.Locate(text, line, column).value;
            !(0 < i < |text| && text[i - 1] == CR && text[i] == LF)
  {
    Lines.LocateSound(text, line, column);
  }

  lemma PlainFollows(text: SizedText, range: Range, insert: SizedText)
    requires NoBareCr(text) && NoBareCr(insert) && Edit(text, range, insert).Some?
    requires |Encode(Edit(text, range, insert).value)| <= MAX_SIZE
    ensures Follows(text, range, insert)
  {
    var copy := Normalise(text);
    ToLFEncode(text);
    NormaliseSame(text);
    SameEdit(copy, text, range, insert);
    SameShorter(Edit(copy, range, insert).value, Edit(text, range, insert).value);
    ApplyChangeIsEdit(copy, range, insert);
    EditNoBareCr(text, range, insert);
    TracksBytes(Encode(Edit(copy, range, insert).value), Edit(text, range, insert).value);
  }

  /** An LF inserted right after a bare CR completes a CRLF, so it adds no line to the client's text. */
  lemma {:induction false} InsertedLfMerges(before: Text, after: Text)
    requires after == [] || after[0] != LF
    ensures Normalise(before + [CR, LF] + after) == Normalise(before + [CR] + after)
    decreases |before|
  {
    var longer, shorter := before + [CR, LF] + after, before + [CR] + after;
    if before == [] {
      assert longer[2..] == after && shorter[1..] == after;
    } else {
      var n := Lines.Glyph(longer);
      assert n == Lines.Glyph(shorter) && n <= |before|;
      assert longer[n..] == before[n..] + [CR, LF] + after && shorter[n..] == before[n..] + [CR] + after;
      InsertedLfMerges(before[n..], after);
    }
  }

  lemma InsertedSize(text: Text, i: nat)
    requires i <= |text|
    ensures |Encode(text[..i] + [LF] + text[i..])| == |Encode(text)| + 1
  {
    EncodeConcat(text[..i] + [LF], text[i..]);
    EncodeConcat(text[..i], [LF]);
    File.EncodeCut(text, i);
    assert Encode([LF]) == [File.LF_BYTE] by {
      assert EncodeScalar(LF) == [File.LF_BYTE] && [LF][1..] == [];
    }
  }

  lemma InsertAfterBareCr(text: Text, i: nat, here: Position)
    requires 0 < i <= |text| && text[i - 1] == CR && !(i < |text| && text[i] == LF)
    requires here == Position(Lines.Terminators(text[..i]), 0)
    ensures Lines.Locate(text, here.line, 0) == Some(i)
    ensures Edit(text, Range(here, here), [LF]) == Some(text[..i] + [LF] + text[i..])
    ensures |Encode(text[..i] + [LF] + text[i..])| == |Encode(text)| + 1
    ensures |Encode([LF])| == 1
  {
    assert Lines.OnLine(text, here.line, i, i);
    Lines.LocateComplete(text, here.line, i, i);
    assert text[i..i] == [];
    InsertedSize(text, i);
    assert [LF][1..] == [];
  }

  /** The server's copy, which holds no CR, always grows by the inserted LF. */
  lemma ServerInsertsLine(text: Text, here: Position)
    requires Lines.Locate(text, here.line, here.character).Some?
    ensures var edited := Edit(Normalise(text), Range(here, here), [LF]);
            edited.Some? && |Encode(Normalise(edited.value))| == |Encode(Normalise(text))| + 1
  {
    var copy := Normalise(text);
    NormaliseLocate(text, here.line, here.character);
    var j := Lines.Locate(copy, here.line, here.character).value;
    NormaliseShape(text);
    NormaliseFixpoint(copy[..j] + [LF] + copy[j..]);
    InsertedSize(copy, j);
  }

  lemma FollowsLines(text: SizedText, here: Position, edited: Text)
    requires |Encode([LF])| <= MAX_SIZE && Lines.Locate(text, here.line, here.character).Some?
    requires Edit(text, Range(here, here), [LF]) == Some(edited) && Follows(text, Range(here, here), [LF])
    ensures |Encode(Normalise(edited))| == |Encode(Normalise(text))| + 1
  {
    ServerInsertsLine(text, here);
    var copy := Edit(Normalise(text), Range(here, here), [LF]).value;
    ToLFEncode(text);
    ApplyChangeIsEdit(Normalise(text), Range(here, here), [LF]);
    ToLFEncode(copy);
    ToLFEncode(edited);
  }

  /** Inserting an LF right after a bare CR completes a CRLF in the client's text, but adds a line in the server's. */
  lemma BareCrDiverges(text: SizedText, k: nat)
    requires |Encode(text)| < MAX_SIZE
    requires k < |text| && text[k] == CR && !(k + 1 < |text| && text[k + 1] == LF)
    ensures NoBareCr([LF]) && |Encode([LF])| == 1
    ensures var after := Position(Lines.Terminators(text[..k + 1]), 0);
            var edited := text[..k + 1] + [LF] + text[k + 1..];
            && Edit(text, Range(after, after), [LF]) == Some(edited)
            && |Encode(edited)| <= MAX_SIZE
            && !Follows(text, Range(after, after), [LF])
  {
    hide Encode, Edit, Follows, Normalise, NoBareCr;
    var i := k + 1;
    var here := Position(Lines.Terminators(text[..i]), 0);
    var edited := text[..i] + [LF] + text[i..];
    InsertAfterBareCr(text, i, here);
    InsertedLfMerges(text[..k], text[i..]);
    AroundCr(text, k);
    LfAlone();
    if Follows(text, Range(here, here), [LF]) {
      FollowsLines(text, here, edited);
      assert false;
    }
  }

  lemma AroundCr(text: Text, k: nat)
    requires k < |text| && text[k] == CR
    ensures text[..k] + [CR, LF] + text[k + 1..] == text[..k + 1] + [LF] + text[k + 1..]
    ensures text[..k] + [CR] + text[k + 1..] == text
  {
    assert text[..k + 1] == text[..k] + [CR];
  }

  lemma LfAlone()
    ensures NoBareCr([LF])
  {
  }
}
