/**
 The document store over whole runs, told from the operations alone: which files are open, what each operation reports,
 and what the last operation on a file leaves behind, byte by byte.
 */
module History {
  import opened Wrappers
  import opened FileBrowser
  import opened DidChange
  import opened Protocol
  import Context
  import Determinism
  import Replies
  import Scheduler

  datatype Operation =
    | Open(uri: Uri, version: int, raw: Buffer)
    | Change(uri: Uri, version: int, changes: seq<ContentChange>)
    | Save(uri: Uri, content: Option<Buffer>)
    | Close(uri: Uri)

  function Perform(files: Files, op: Operation): Result {
    match op
    case Open(uri, version, raw) => Opened(files, uri, version, raw)
    case Change(uri, version, changes) => ApplyAll(files, uri, version, changes)
    case Save(uri, content) => Saved(files, uri, content)
    case Close(uri) => Closed(files, uri)
  }

  /** The files after a sequence of operations on an empty store. */
  function FilesAfter(ops: seq<Operation>): Files {
    if ops == [] then map[] else Perform(FilesAfter(ops[..|ops| - 1]), ops[|ops| - 1]).files
  }

  /** The file has been opened, and not closed since. */
  ghost predicate IsOpen(ops: seq<Operation>, uri: Uri) {
    exists k ::
      && 0 <= k < |ops| && ops[k].Open? && ops[k].uri == uri
      && forall j :: k < j < |ops| ==> ops[j] != Close(uri)
  }

  /** Nothing after operation k is about its file. */
  ghost predicate IsLast(ops: seq<Operation>, k: nat)
    requires k < |ops|
  {
    forall j :: k < j < |ops| ==> ops[j].uri != ops[k].uri
  }

  lemma IsOpenStep(ops: seq<Operation>, op: Operation, uri: Uri)
    ensures IsOpen(ops + [op], uri) <==> (op.Open? && op.uri == uri) || (IsOpen(ops, uri) && op != Close(uri))
  {
    var longer, n := ops + [op], |ops|;
    assert longer[n] == op && forall j :: 0 <= j < n ==> longer[j] == ops[j];
    if op.Open? && op.uri == uri {
      assert longer[n].Open?;
    } else if IsOpen(ops, uri) && op != Close(uri) {
      var k :| 0 <= k < n && ops[k].Open? && ops[k].uri == uri && forall j :: k < j < n ==> ops[j] != Close(uri);
      assert longer[k].Open?;
    }
    if IsOpen(longer, uri) {
      var k :| && 0 <= k < n + 1 && longer[k].Open? && longer[k].uri == uri
               && forall j :: k < j < n + 1 ==> longer[j] != Close(uri);
      assert k < n ==> ops[k].Open? && longer[n] != Close(uri);
    }
  }

  lemma {:induction false} ChangesKeep(files: Files, uri: Uri, version: int, changes: seq<ContentChange>)
    ensures var r := ApplyAll(files, uri, version, changes);
            && r.files.Keys == files.Keys
            && (forall other :: other in files && other != uri ==>
                              other in r.files && r.files[other] == files[other])
            && (r.ok && changes != [] ==> uri in files)
            && (changes != [] && uri !in files ==> !r.ok)
            && (changes == [] || uri !in files ==> r.files == files)
    decreases |changes|
  {
    hide ApplyChanges;
    if changes != [] {
      ChangesKeep(ApplyOne(files, uri, version, changes[0]).files, uri, version, changes[1..]);
    }
  }

  /** A list of changes that succeeds and ends with a whole text leaves exactly that text. */
  lemma {:induction false} WholeTextLast(files: Files, uri: Uri, version: int, changes: seq<ContentChange>, raw: Buffer)
    requires changes != [] && changes[|changes| - 1] == Full(raw) && ApplyAll(files, uri, version, changes).ok
    ensures var files' := ApplyAll(files, uri, version, changes).files;
            uri in files && uri in files' && files'[uri] == Document(version, raw)
    decreases |changes|
  {
    hide ApplyChanges;
    if |changes| > 1 {
      WholeTextLast(ApplyOne(files, uri, version, changes[0]).files, uri, version, changes[1..], raw);
    }
  }

  lemma PerformKeys(files: Files, op: Operation, uri: Uri)
    ensures uri in Perform(files, op).files <==> (op.Open? && op.uri == uri) || (uri in files && op != Close(uri))
    ensures op.uri != uri && uri in files ==> Perform(files, op).files[uri] == files[uri]
  {
    hide ToLF, ApplyAll;
    if op.Change? {
      ChangesKeep(files, op.uri, op.version, op.changes);
    }
  }

  /** A file is in the store exactly when it has been opened and not closed since. */
  lemma {:induction false} OpenFiles(ops: seq<Operation>, uri: Uri)
    ensures uri in FilesAfter(ops) <==> IsOpen(ops, uri)
  {
    hide Perform;
    if ops == [] {
      assert !IsOpen([], uri);
    } else {
      var n := |ops| - 1;
      OpenFiles(ops[..n], uri);
      IsOpenStep(ops[..n], ops[n], uri);
      PerformKeys(FilesAfter(ops[..n]), ops[n], uri);
      assert ops[..n] + [ops[n]] == ops;
    }
  }

  /** What an operation reports: an open fails exactly on an open file, a close exactly on another one, a save never; a
      list of changes fails on a file that is not open unless it is empty, and a single whole text only then. */
  lemma Reports(ops: seq<Operation>, op: Operation)
    ensures var ok, open := Perform(FilesAfter(ops), op).ok, IsOpen(ops, op.uri);
            match op
            case Open(_, _, _) => ok <==> !open
            case Change(_, _, changes) =>
              && (changes == [] ==> ok)
              && (changes != [] && ok ==> open)
              && (|changes| == 1 && changes[0].Full? && open ==> ok)
            case Save(_, _) => ok
            case Close(_) => ok <==> open
  {
    hide ToLF, ApplyChanges, FilesAfter, IsOpen;
    OpenFiles(ops, op.uri);
    if op.Change? {
      ChangesKeep(FilesAfter(ops), op.uri, op.version, op.changes);
      if |op.changes| == 1 {
        assert op.changes[1..] == [];
      }
    }
  }

  /** Operations on other files leave a file as it is. */
  lemma {:induction false} OthersKeep(ops: seq<Operation>, k: nat, uri: Uri)
    requires k <= |ops| && forall j :: k <= j < |ops| ==> ops[j].uri != uri
    ensures uri in FilesAfter(ops) <==> uri in FilesAfter(ops[..k])
    ensures uri in FilesAfter(ops) ==> FilesAfter(ops)[uri] == FilesAfter(ops[..k])[uri]
    decreases |ops|
  {
    hide Perform;
    if k == |ops| {
      assert ops[..k] == ops;
    } else {
      var n := |ops| - 1;
      OthersKeep(ops[..n], k, uri);
      assert ops[..n][..k] == ops[..k];
      PerformKeys(FilesAfter(ops[..n]), ops[n], uri);
    }
  }

  /** What the store holds after the last operation on a file: the bytes of an open with their line endings rewritten;
      the bytes of a save, or of the whole text that ends a list of changes, exactly as they were sent, the save under
      the old version; the file as it was before an open of an open file, or a save without text; nothing after a close,
      or if the file was not open. */
  lemma LastOperation(ops: seq<Operation>, k: nat)
    requires k < |ops| && IsLast(ops, k)
    ensures Leaves(FilesAfter(ops[..k]), ops[k], IsOpen(ops[..k], ops[k].uri), FilesAfter(ops))
  {
    var uri := ops[k].uri;
    hide Perform, IsOpen, Leaves;
    OthersKeep(ops, k + 1, uri);
    OpenFiles(ops[..k], uri);
    assert ops[..k + 1][..k] == ops[..k];
    LastPerformed(FilesAfter(ops[..k]), ops[k]);
    LeavesSame(FilesAfter(ops[..k]), ops[k], FilesAfter(ops[..k + 1]), FilesAfter(ops));
  }

  ghost predicate Leaves(before: Files, op: Operation, open: bool, files: Files) {
    var uri := op.uri;
    && (uri in files <==> !op.Close? && (open || op.Open?))
    && (open ==> uri in before)
    && match op
       case Open(_, version, raw) =>
         uri in files && files[uri] == if open then before[uri] else Document(version, ToLF(raw))
       case Change(_, version, changes) =>
         && (open && changes == [] ==> files[uri] == before[uri])
         && (open && changes != [] && ApplyAll(before, uri, version, changes).ok ==>
               match changes[|changes| - 1]
               case Full(raw) => files[uri] == Document(version, raw)
               case Incremental(_) => files[uri].version == version)
       case Save(_, content) =>
         open ==>
           && files[uri].version == before[uri].version
           && files[uri].content == if content.Some? then content.value else before[uri].content
       case Close(_) => true
  }

  lemma LeavesSame(before: Files, op: Operation, files: Files, files': Files)
    requires op.uri in files <==> op.uri in files'
    requires op.uri in files ==> files[op.uri] == files'[op.uri]
    ensures forall open :: Leaves(before, op, open, files) ==> Leaves(before, op, open, files')
  {
    hide ToLF, ApplyAll;
  }

  lemma LastPerformed(files: Files, op: Operation)
    ensures Leaves(files, op, op.uri in files, Perform(files, op).files)
  {
    hide ToLF, ApplyAll;
    if op.Change? {
      var Change(uri, version, changes) := op;
      ChangesKeep(files, uri, version, changes);
      if uri in files && changes != [] && ApplyAll(files, uri, version, changes).ok {
        if changes[|changes| - 1].Full? {
          WholeTextLast(files, uri, version, changes, changes[|changes| - 1].text);
        } else {
          VersionSet(files, uri, version, changes);
        }
      }
    }
  }

  lemma {:induction false} VersionSet(files: Files, uri: Uri, version: int, changes: seq<ContentChange>)
    requires uri in files && changes != [] && ApplyAll(files, uri, version, changes).ok
    ensures uri in ApplyAll(files, uri, version, changes).files
    ensures ApplyAll(files, uri, version, changes).files[uri].version == version
    decreases |changes|
  {
    hide ApplyChanges;
    if |changes| > 1 {
      VersionSet(ApplyOne(files, uri, version, changes[0]).files, uri, version, changes[1..]);
    }
  }

  // ---- The operations that messages carry ----

  /** The operation a notification asks for. */
  function Carried(m: Message): Option<Operation> {
    if m.Request? then None
    else
      match m.params
      case OpenParams(uri, version, text) =>
        if m.method_ == "textDocument/didOpen" then Some(Open(uri, version, text)) else None
      case ChangeParams(uri, version, changes) =>
        if m.method_ == "textDocument/didChange" then Some(Change(uri, version, changes)) else None
      case SaveParams(uri, text) =>
        if m.method_ == "textDocument/didSave" then Some(Save(uri, Some(text))) else None
      case CloseParams(uri) => if m.method_ == "textDocument/didClose" then Some(Close(uri)) else None
      case _ => None
  }

  ghost predicate Initialized(messages: seq<Message>) {
    exists k :: 0 <= k < |messages| && Replies.Initializes(messages[k])
  }

  /** The operations that messages ask for, once a request to initialise has come before them. */
  ghost function Operations(messages: seq<Message>): seq<Operation> {
    if messages == [] then []
    else
      var n := |messages| - 1;
      var op := Carried(messages[n]);
      Operations(messages[..n]) + if Initialized(messages[..n]) && op.Some? then [op.value] else []
  }

  lemma ExecutesCarried(docs: Context.Docs, m: Message)
    ensures Context.ExecuteDocs(docs, m).files
         == if docs.initialized && Carried(m).Some? then Perform(docs.files, Carried(m).value).files else docs.files
  {
    hide ToLF, ApplyAll;
  }

  lemma {:induction false} SequentialIsHistory(messages: seq<Message>)
    ensures Determinism.Sequential(messages).files == FilesAfter(Operations(messages))
  {
    hide Context.ExecuteDocs, Perform, Carried;
    if messages != [] {
      var n := |messages| - 1;
      SequentialIsHistory(messages[..n]);
      Replies.Lifecycle(messages[..n]);
      ExecutesCarried(Determinism.Sequential(messages[..n]), messages[n]);
      var ops, op := Operations(messages[..n]), Carried(messages[n]);
      if Initialized(messages[..n]) && op.Some? {
        assert (ops + [op.value])[..|ops|] == ops;
      } else {
        assert Operations(messages) == ops;
      }
    }
  }

  /** In every interleaving, whenever the reader thread is not executing a message or waiting to, the files are those
      that the operations asked for by the accepted messages leave behind, in arrival order. */
  lemma DocumentsAreHistory(dump: Scheduler.Dump, s: Scheduler.State)
    requires Scheduler.Reachable(dump, s) && !s.main.Draining? && !s.main.Executing?
    ensures s.shared.docs.files == FilesAfter(Operations(s.accepted))
  {
    hide Scheduler.Reachable;
    Determinism.DocumentsAreSequential(dump, s);
    SequentialIsHistory(s.accepted);
  }
}
