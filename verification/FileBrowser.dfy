/**
 The document store: open files by URI, and the notifications that change them. Every operation of the store runs
 under its mutex, so each is one atomic step; each method is proved against a function on the map of open files.
 */
module FileBrowser {
  import opened Unicode
  import opened Wrappers
  import Endings
  import File
  import Lines

  type Uri = string

  const MAX_SIZE := 0x7FFF_FFFF_FFFF_FFFF

  /** A byte string; no string is longer than its maximum size. */
  type Buffer = bytes: seq<Byte> | |bytes| <= MAX_SIZE

  datatype Position = Position(line: nat, character: nat)
  datatype Range = Range(start: Position, end: Position)
  datatype ContentChangeEvent = ContentChangeEvent(range: Range, text: Buffer)
  datatype Document = Document(version: int, content: Buffer)

  type Files = map<Uri, Document>

  /** The result of an operation of the store: the open files, and whether it reports success. */
  datatype Result = Result(files: Files, ok: bool)

  // ---- Line endings ----

  function ToLF(raw: seq<Byte>): (r: seq<Byte>)
    ensures |r| <= |raw|
  {
    if raw == [] then []
    else if File.EolBytes(raw) == 0 then [raw[0]] + ToLF(raw[1..])
    else [File.LF_BYTE] + ToLF(raw[File.EolBytes(raw)..])
  }

  /** On the bytes of a text, rewriting line endings is normalising the text. */
  lemma {:induction false} ToLFEncode(text: Text)
    ensures ToLF(Encode(text)) == Encode(Endings.Normalise(text))
    decreases |text|
  {
    if text != [] {
      var raw := Encode(text);
      File.EncodeHead(text);
      File.EncodeEol(text);
      ToLFEncode(text[Lines.Glyph(text)..]);
      if Lines.EolLength(text) == 0 {
        File.PlainScalar(text[0]);
        ToLFPlain(raw, |EncodeScalar(text[0])|);
      } else {
        assert EncodeScalar(LF) == [File.LF_BYTE];
      }
    }
  }

  lemma {:induction false} ToLFPlain(raw: seq<Byte>, k: nat)
    requires k <= |raw|
    requires forall j :: 0 <= j < k ==> !File.IsEolByte(raw[j])
    ensures ToLF(raw) == raw[..k] + ToLF(raw[k..])
  {
    if k > 0 {
      ToLFPlain(raw[1..], k - 1);
      assert raw[1..][k - 1..] == raw[k..];
      assert raw[..k] == [raw[0]] + raw[1..][..k - 1];
    } else {
      assert raw[0..] == raw;
    }
  }

  lemma ToLFRound(raw: seq<Byte>, i: nat)
    requires i < |raw|
    ensures var n := File.EolBytes(raw[i..]);
            && (n == 0 ==> ToLF(raw[i..]) == [raw[i]] + ToLF(raw[i + 1..]))
            && (n > 0 ==> i + n <= |raw| && ToLF(raw[i..]) == [File.LF_BYTE] + ToLF(raw[i + n..]))
  {
    var n := File.EolBytes(raw[i..]);
    assert raw[i..][if n == 0 then 1 else n..] == raw[if n == 0 then i + 1 else i + n..];
  }

  /** Rewrites every line terminator to LF. */
  method TransformUTF8ToLF(raw: seq<Byte>) returns (result: seq<Byte>)
    ensures result == ToLF(raw) && |result| <= |raw|
  {
    hide ToLF;
    result := [];
    assert raw[0..] == raw;
    var i := 0;
    while i < |raw|
      invariant i <= |raw|
      invariant ToLF(raw) == result + ToLF(raw[i..])
    {
      ToLFRound(raw, i);
      var ch := raw[i];
      if ch == File.CR_BYTE {
        if i + 1 < |raw| && raw[i + 1] == File.LF_BYTE {
          i := i + 1;
        }
        result := result + [File.LF_BYTE];
      } else {
        result := result + [ch];
      }
      i := i + 1;
    }
    ToLFEmpty(raw[i..]);
  }

  lemma ToLFEmpty(raw: seq<Byte>)
    requires raw == []
    ensures ToLF(raw) == []
  {
  }

  /** Rewriting line endings commutes with looking a position up in a valid file. */
  lemma ToLFOffset(raw: seq<Byte>, line: nat, column: int)
    requires ValidUtf8(raw)
    ensures File.OffsetOf(raw, line, column).None? <==> File.OffsetOf(ToLF(raw), line, column).None?
    ensures File.OffsetOf(raw, line, column).Some? ==>
              var o, o' := File.OffsetOf(raw, line, column).value, File.OffsetOf(ToLF(raw), line, column).value;
              o <= |raw| && o' <= |ToLF(raw)| && ToLF(raw[..o]) == ToLF(raw)[..o']
  {
    var text: Text :| Encode(text) == raw;
    var flat := Endings.Normalise(text);
    ToLFEncode(text);
    File.OffsetRefines(text, line, column);
    File.OffsetRefines(flat, line, column);
    Endings.NormaliseLocate(text, line, column);
    var i, k := Lines.Locate(text, line, column), Lines.Locate(flat, line, column);
    if i.Some? {
      File.EncodeCut(text, i.value);
      File.EncodeCut(flat, k.value);
      ToLFEncode(text[..i.value]);
    }
  }

  // ---- One incremental change ----

  /** Replaces up to `n` bytes at `at`, as the string class does. */
  function Replace(state: seq<Byte>, at: nat, n: nat, text: seq<Byte>): seq<Byte>
    requires at <= |state|
  {
    state[..at] + text + state[if n < |state| - at then at + n else |state|..]
  }

  /** The offsets are unsigned 64-bit numbers, so the length of a range that ends before it starts wraps around. */
  function RangeLength(start: nat, end: nat): nat {
    (end - start) % TWO_TO_THE_64
  }

  /** None when the change is rejected; a replacement that would exceed the maximum string size is one. */
  function Splice(state: Buffer, start: Option<nat>, end: Option<nat>, text: Buffer): Option<Buffer> {
    if start.None? || end.None? then None
    else
      var n := RangeLength(start.value, end.value);
      if start.value > |state| || n > |state| then None
      else
        var state' := Replace(state, start.value, n, text);
        if |state'| > MAX_SIZE then None else Some(state')
  }

  function ApplyChange(state: Buffer, change: ContentChangeEvent): Option<Buffer> {
    var start, end := change.range.start, change.range.end;
    Splice(state, File.OffsetOf(state, start.line, start.character), File.OffsetOf(state, end.line, end.character),
           change.text)
  }

  function ApplyChanges(state: Buffer, changes: seq<ContentChangeEvent>): Option<Buffer>
    decreases |changes|
  {
    if changes == [] then Some(state)
    else
      match ApplyChange(state, changes[0])
      case None => None
      case Some(state') => ApplyChanges(state', changes[1..])
  }

  // ---- What a change means for the text ----

  /** The edit a client makes to its own document: the text between two positions is replaced. */
  function Edit(text: Text, range: Range, insert: Text): Option<Text> {
    Cut(text, Lines.Locate(text, range.start.line, range.start.character),
        Lines.Locate(text, range.end.line, range.end.character), insert)
  }

  function Cut(text: Text, start: Option<nat>, end: Option<nat>, insert: Text): Option<Text>
    requires (start.Some? ==> start.value <= |text|) && (end.Some? ==> end.value <= |text|)
  {
    if start.None? || end.None? || end.value < start.value then None
    else Some(text[..start.value] + insert + text[end.value..])
  }

  /** A change of the stored bytes is the edit of the decoded text: rejected exactly when a line does not exist, when
      the end lies before the start, or when the result is too long for a string. */
  lemma ApplyChangeIsEdit(text: Text, range: Range, insert: Text)
    requires |Encode(text)| <= MAX_SIZE && |Encode(insert)| <= MAX_SIZE
    ensures ApplyChange(Encode(text), ContentChangeEvent(range, Encode(insert))) == Stored(Edit(text, range, insert))
  {
    File.OffsetRefines(text, range.start.line, range.start.character);
    File.OffsetRefines(text, range.end.line, range.end.character);
    SpliceIsCut(text, Lines.Locate(text, range.start.line, range.start.character),
                Lines.Locate(text, range.end.line, range.end.character), insert);
  }

  lemma SpliceIsCut(text: Text, start: Option<nat>, end: Option<nat>, insert: Text)
    requires |Encode(text)| <= MAX_SIZE && |Encode(insert)| <= MAX_SIZE
    requires (start.Some? ==> start.value <= |text|) && (end.Some? ==> end.value <= |text|)
    ensures Splice(Encode(text), File.EncodedOffset(text, start), File.EncodedOffset(text, end), Encode(insert))
         == Stored(Cut(text, start, end, insert))
  {
    hide Encode, Replace;
    if start.Some? && end.Some? {
      var i, k := start.value, end.value;
      EncodeOrder(text, i, k);
      RangeLengthOrder(|Encode(text[..i])|, |Encode(text[..k])|, |Encode(text)|);
      if i <= k {
        ReplaceIsEdit(text, i, k, insert);
      }
    }
  }

  /** The wrap-around is what rejects a range that ends before it starts. */
  lemma RangeLengthOrder(start: nat, end: nat, size: nat)
    requires start <= size <= MAX_SIZE && end <= size
    ensures start <= end ==> RangeLength(start, end) == end - start
    ensures end < start ==> RangeLength(start, end) > size
  {
  }

  /** A client that names two existing positions in order has its edit rejected exactly when the first splits a
      surrogate pair and the second lies on the same line, before its end. */
  lemma OrderedEdit(text: Text, range: Range, insert: Text)
    requires Lines.Precedes(range.start.line, range.start.character, range.end.line, range.end.character)
    requires range.end.line <= Lines.Terminators(text)
    ensures Lines.Locate(text, range.start.line, 0).Some?
    ensures Lines.Locate(text, range.end.line, range.end.character).Some?
    ensures var j := Lines.Locate(text, range.start.line, 0).value;
            Edit(text, range, insert).None? <==>
            && range.start.line == range.end.line
            && Lines.SplitsPair(text[j..], range.start.character)
            && Lines.Locate(text, range.end.line, range.end.character).value < j + Lines.LineEnd(text[j..])
  {
    Lines.LocateNone(text, range.end.line, range.end.character);
    Lines.LocateNone(text, range.start.line, 0);
    Lines.LocateOrder(text, range.start.line, range.start.character, range.end.line, range.end.character);
  }

  /** The bytes of an edited text, None if there is none or if they exceed the maximum size of a string. */
  function Stored(text: Option<Text>): Option<Buffer> {
    if text.None? || |Encode(text.value)| > MAX_SIZE then None else Some(Encode(text.value))
  }

  lemma ReplaceIsEdit(text: Text, i: nat, k: nat, insert: Text)
    requires i <= k <= |text|
    ensures var start, end := |Encode(text[..i])|, |Encode(text[..k])|;
            && start <= end <= |Encode(text)|
            && Replace(Encode(text), start, end - start, Encode(insert)) == Encode(text[..i] + insert + text[k..])
  {
    hide Encode;
    EncodeOrder(text, i, k);
    File.EncodeCut(text, i);
    File.EncodeCut(text, k);
    EncodeConcat(text[..i] + insert, text[k..]);
    EncodeConcat(text[..i], insert);
  }

  lemma {:induction false} EncodeConcat(a: Text, b: Text)
    ensures Encode(a + b) == Encode(a) + Encode(b)
  {
    File.EncodeCut(a + b, |a|);
    assert (a + b)[..|a|] == a && (a + b)[|a|..] == b;
  }

  lemma EncodeOrder(text: Text, i: nat, k: nat)
    requires i <= |text| && k <= |text|
    ensures |Encode(text[..i])| <= |Encode(text)| && |Encode(text[..k])| <= |Encode(text)|
    ensures i <= k <==> |Encode(text[..i])| <= |Encode(text[..k])|
  {
    File.EncodeCut(text, i);
    File.EncodeCut(text, k);
    if i <= k {
      EncodeLonger(text, i, k);
    } else {
      EncodeLonger(text, k, i);
    }
  }

  lemma EncodeLonger(text: Text, i: nat, k: nat)
    requires i <= k <= |text|
    ensures |Encode(text[..i])| <= |Encode(text[..k])|
    ensures i < k ==> |Encode(text[..i])| < |Encode(text[..k])|
  {
    File.EncodeCut(text[..k], i);
    assert text[..k][..i] == text[..i];
  }

  /** Whatever change is applied to a valid file, the result is valid. */
  lemma ApplyChangeValid(state: Buffer, change: ContentChangeEvent)
    requires ValidUtf8(state) && ValidUtf8(change.text)
    requires ApplyChange(state, change).Some?
    ensures ValidUtf8(ApplyChange(state, change).value)
  {
    var text: Text :| Encode(text) == state;
    var insert: Text :| Encode(insert) == change.text;
    ApplyChangeIsEdit(text, change.range, insert);
  }

  // ---- The operations, as functions on the open files ----

  function Opened(files: Files, uri: Uri, version: int, raw: Buffer): Result {
    if uri in files then Result(files, false) else Result(files[uri := Document(version, ToLF(raw))], true)
  }

  function Changed(files: Files, uri: Uri, version: int, raw: Buffer): Result {
    if uri !in files then Result(files, false) else Result(files[uri := Document(version, raw)], true)
  }

  function Edited(files: Files, uri: Uri, version: int, changes: seq<ContentChangeEvent>): Result {
    if uri !in files then Result(files, false)
    else
      match ApplyChanges(files[uri].content, changes)
      case None => Result(files, false)
      case Some(state) => Result(files[uri := Document(version, state)], true)
  }

  function Saved(files: Files, uri: Uri, content: Option<Buffer>): Result {
    if uri !in files || content.None? then Result(files, true)
    else Result(files[uri := Document(files[uri].version, content.value)], true)
  }

  function Closed(files: Files, uri: Uri): Result {
    if uri !in files then Result(files, false) else Result(files - {uri}, true)
  }

  /** Every stored file is valid UTF-8. */
  ghost predicate ValidFiles(files: Files) {
    forall uri :: uri in files ==> ValidUtf8(files[uri].content)
  }

  lemma ToLFValid(raw: Buffer)
    requires ValidUtf8(raw)
    ensures ValidUtf8(ToLF(raw))
  {
    var text: Text :| Encode(text) == raw;
    ToLFEncode(text);
  }

  // ---- The store ----

  class FileBrowser {
    var files: Files

    ghost predicate Valid()
      reads this
    {
      ValidFiles(files)
    }

    constructor ()
      ensures Valid() && files == map[]
    {
      files := map[];
    }

    method DidOpen(uri: Uri, version: int, raw: Buffer) returns (ok: bool)
      modifies this
      ensures Result(files, ok) == Opened(old(files), uri, version, raw)
      ensures old(Valid()) && ValidUtf8(raw) ==> Valid()
    {
      if uri in files {
        return false;
      }
      var content := TransformUTF8ToLF(raw);
      if ValidUtf8(raw) {
        ToLFValid(raw);
      }
      files := files[uri := Document(version, content)];
      return true;
    }

    method DidChange(uri: Uri, version: int, raw: Buffer) returns (ok: bool)
      modifies this
      ensures Result(files, ok) == Changed(old(files), uri, version, raw)
      ensures old(Valid()) && ValidUtf8(raw) ==> Valid()
    {
      if uri !in files {
        return false;
      }
      files := files[uri := Document(version, raw)];
      return true;
    }

    method DidChanges(uri: Uri, version: int, changes: seq<ContentChangeEvent>) returns (ok: bool)
      modifies this
      ensures Result(files, ok) == Edited(old(files), uri, version, changes)
      ensures old(Valid()) && (forall change :: change in changes ==> ValidUtf8(change.text)) ==> Valid()
    {
      if uri !in files {
        return false;
      }
      var state: Buffer := files[uri].content;
      assert changes[0..] == changes;
      for i := 0 to |changes|
        invariant files == old(files)
        invariant Valid() && (forall change :: change in changes ==> ValidUtf8(change.text)) ==> ValidUtf8(state)
        invariant ApplyChanges(files[uri].content, changes) == ApplyChanges(state, changes[i..])
      {
        var ContentChangeEvent(range, newContent) := changes[i];
        assert changes[i..][1..] == changes[i + 1..];
        var startOffset := File.GetOffset(state, range.start.line, range.start.character);
        if startOffset.None? {
          return false;
        }
        var endOffsetPlusOne := File.GetOffset(state, range.end.line, range.end.character);
        if endOffsetPlusOne.None? {
          return false;
        }
        var n := RangeLength(startOffset.value, endOffsetPlusOne.value);
        if startOffset.value > |state| {
          return false;
        }
        if n > |state| {
          return false;
        }
        var state' := Replace(state, startOffset.value, n, newContent);
        if |state'| > MAX_SIZE {
          return false;
        }
        if ValidUtf8(state) && ValidUtf8(newContent) {
          ApplyChangeValid(state, changes[i]);
        }
        state := state';
      }
      files := files[uri := Document(version, state)];
      return true;
    }

    method DidSave(uri: Uri, fullContent: Option<Buffer>) returns (ok: bool)
      modifies this
      ensures Result(files, ok) == Saved(old(files), uri, fullContent)
      ensures old(Valid()) && (fullContent.Some? ==> ValidUtf8(fullContent.value)) ==> Valid()
    {
      if uri !in files {
        return true;
      }
      if fullContent.Some? {
        files := files[uri := Document(files[uri].version, fullContent.value)];
      }
      return true;
    }

    method DidClose(uri: Uri) returns (ok: bool)
      modifies this
      ensures Result(files, ok) == Closed(old(files), uri)
      ensures old(Valid()) ==> Valid()
    {
      if uri !in files {
        return false;
      }
      files := files - {uri};
      return true;
    }

    method GetFile(uri: Uri) returns (r: Option<Document>)
      ensures r == if uri in files then Some(files[uri]) else None
    {
      if uri !in files {
        return None;
      }
      return Some(files[uri]);
    }
  }
}
